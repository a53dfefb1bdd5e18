/** get_temporary_credentials: find the caller's user name in the ARN the
    identity service returns, insist on exactly one MFA device for that user,
    and ask the session-token service for credentials with that device's
    serial number and the one-time password. The two services are given as
    their responses (Remote), so what remains is a validator. */
module SessionExchange {
  import opened Wrappers
  import opened Timestamp

  // ---------------------------------------------------------------------
  // str.split with a one-character separator.

  /** The pieces joined back together with the separator between them. */
  function Join(parts: seq<string>, sep: char): string
    requires |parts| >= 1
    decreases |parts|
  {
    if |parts| == 1 then parts[0] else parts[0] + [sep] + Join(parts[1..], sep)
  }

  /** s.split(sep): the maximal runs of s between separators, including the
      empty ones, so that there is one more piece than separators. */
  function Split(s: string, sep: char): (parts: seq<string>)
    ensures |parts| >= 1
    ensures forall i :: 0 <= i < |parts| ==> sep !in parts[i]
    ensures |parts| == 1 <==> sep !in s
    decreases |s|
  {
    if |s| == 0 then [""]
    else
      var rest := Split(s[1..], sep);
      if s[0] == sep then [""] + rest
      else [[s[0]] + rest[0]] + rest[1..]
  }

  /** Joining the pieces with the separator gives back the string. */
  lemma {:induction false} JoinSplit(s: string, sep: char)
    ensures Join(Split(s, sep), sep) == s
    decreases |s|
  {
    if |s| > 0 {
      var rest := Split(s[1..], sep);
      JoinSplit(s[1..], sep);
      if s[0] == sep {
        assert s == [sep] + s[1..];
      } else {
        var parts := [[s[0]] + rest[0]] + rest[1..];
        assert parts[1..] == rest[1..];
        if |rest| > 1 {
          assert Join(rest, sep) == rest[0] + [sep] + Join(rest[1..], sep);
        }
        assert s == [s[0]] + s[1..];
      }
    }
  }

  /** Every piece after the first is shorter than the joined string. */
  lemma JoinPieceShorter(parts: seq<string>, sep: char)
    requires |parts| >= 2
    ensures |parts[1]| < |Join(parts, sep)|
  {
    if |parts| > 2 {
      assert Join(parts[1..], sep) == parts[1] + [sep] + Join(parts[2..], sep);
    }
  }

  /** One step of Split on a string that starts with a character c. */
  lemma SplitCons(c: char, t: string, sep: char)
    ensures c == sep ==> Split([c] + t, sep) == [""] + Split(t, sep)
    ensures c != sep ==> Split([c] + t, sep) == [[c] + Split(t, sep)[0]] + Split(t, sep)[1..]
  {
    assert ([c] + t)[1..] == t;
  }

  /** Splitting a piece without separators glued to the front of q extends
      the first piece of q's split. */
  lemma {:induction false} SplitPrefix(p: string, q: string, sep: char)
    requires sep !in p
    ensures Split(p + q, sep) == [p + Split(q, sep)[0]] + Split(q, sep)[1..]
    decreases |p|
  {
    var sq := Split(q, sep);
    if p == [] {
      assert p + q == q && p + sq[0] == sq[0];
      assert sq == [sq[0]] + sq[1..];
    } else {
      assert p + q == [p[0]] + (p[1..] + q);
      SplitCons(p[0], p[1..] + q, sep);
      SplitPrefix(p[1..], q, sep);
      assert [p[0]] + (p[1..] + sq[0]) == p + sq[0];
    }
  }

  // ---------------------------------------------------------------------
  // The caller's user name.

  datatype ExchangeError =
    | ArnWithoutSlash              // IndexError from split('/')[1]
    | NoMfaDevice(username: string) // sys.exit(1): no device configured
    | MultipleMfaDevices            // sys.exit(1): more than one device

  /** sts.get_caller_identity()['Arn'].split('/')[1]: the text between the
      first and the second '/', or up to the end when there is no second. */
  function Username(callerArn: string): (r: Result<string, ExchangeError>)
    ensures r == Err(ArnWithoutSlash) <==> '/' !in callerArn
    ensures r.Ok? ==> '/' !in r.value && |r.value| < |callerArn|
  {
    var parts := Split(callerArn, '/');
    if |parts| < 2 then Err(ArnWithoutSlash)
    else
      JoinSplit(callerArn, '/');
      JoinPieceShorter(parts, '/');
      Ok(parts[1])
  }

  /** For an ARN written as account part, '/', user part and a rest that is
      empty or starts with '/', the user name is exactly the user part. */
  lemma UsernameOfArn(account: string, user: string, rest: string)
    requires '/' !in account && '/' !in user
    requires rest == [] || rest[0] == '/'
    ensures Username(account + "/" + user + rest) == Ok(user)
  {
    var arn := account + "/" + user + rest;
    var tail := "/" + user + rest;
    assert arn == account + tail;
    SplitPrefix(account, tail, '/');
    assert tail == ['/'] + (user + rest);
    SplitCons('/', user + rest, '/');
    SplitPrefix(user, rest, '/');
    if rest != [] {
      assert rest == ['/'] + rest[1..];
      SplitCons('/', rest[1..], '/');
    }
    assert Split(rest, '/')[0] == "";
    assert user + Split(rest, '/')[0] == user;
    assert Split(arn, '/')[1] == user;
  }

  // ---------------------------------------------------------------------
  // The MFA device.

  /** An entry of iam.list_mfa_devices()['MFADevices']; only its serial
      number is used. */
  datatype MfaDevice = MfaDevice(serialNumber: string)

  /** The device-count check: none and more than one both end the run with
      status 1; exactly one gives its serial number. */
  function SelectDevice(username: string, devices: seq<MfaDevice>): (r: Result<string, ExchangeError>)
    ensures r == Err(NoMfaDevice(username)) <==> |devices| == 0
    ensures r == Err(MultipleMfaDevices) <==> |devices| > 1
    ensures r.Ok? <==> |devices| == 1
    ensures r.Ok? ==> r.value == devices[0].serialNumber
  {
    if |devices| < 1 then Err(NoMfaDevice(username))
    else if |devices| > 1 then Err(MultipleMfaDevices)
    else Ok(devices[0].serialNumber)
  }

  // ---------------------------------------------------------------------
  // The session-token exchange.

  /** The arguments of sts.get_session_token, with the profile whose
      long-term keys sign the call. */
  datatype SessionTokenRequest = SessionTokenRequest(profile: string, serialNumber: string, tokenCode: string)

  /** response['Credentials'] of get_session_token. */
  datatype SessionCredentials = SessionCredentials(
    accessKeyId: string, secretAccessKey: string, sessionToken: string,
    expiration: ValidDateTime)

  /** What the two services answer for the source profile: the caller ARN,
      the devices listed for a user name, and the credentials issued for a
      request. */
  datatype Remote = Remote(
    callerArn: string,
    listMfaDevices: string -> seq<MfaDevice>,
    getSessionToken: SessionTokenRequest -> SessionCredentials)

  datatype Exchange = Exchange(request: SessionTokenRequest, credentials: SessionCredentials)

  /** get_temporary_credentials(profile, token). A session token is requested
      only when the ARN has a user name and that user has exactly one MFA
      device; the request carries that device's serial number and the token. */
  function GetTemporaryCredentials(profile: string, token: string, remote: Remote): (r: Result<Exchange, ExchangeError>)
    ensures '/' !in remote.callerArn ==> r == Err(ArnWithoutSlash)
    ensures '/' in remote.callerArn ==>
      var devices := remote.listMfaDevices(Username(remote.callerArn).value);
      && (|devices| == 0 ==> r == Err(NoMfaDevice(Username(remote.callerArn).value)))
      && (|devices| > 1 ==> r == Err(MultipleMfaDevices))
      && (|devices| == 1 ==>
            && r.Ok?
            && r.value.request == SessionTokenRequest(profile, devices[0].serialNumber, token)
            && r.value.credentials == remote.getSessionToken(r.value.request))
  {
    match Username(remote.callerArn)
    case Err(e) => Err(e)
    case Ok(username) =>
      match SelectDevice(username, remote.listMfaDevices(username))
      case Err(e) => Err(e)
      case Ok(serial) =>
        var request := SessionTokenRequest(profile, serial, token);
        Ok(Exchange(request, remote.getSessionToken(request)))
  }
}
