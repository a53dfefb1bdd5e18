/** main: resolve the source and target profile names, skip the run while the
    target profile still holds an unexpired session, otherwise obtain a
    session and merge it into the credentials store. The clock, the typed
    one-time password and the two services are parameters. */
module MfaCredentials {
  import opened Wrappers
  import opened Timestamp
  import opened SessionExchange
  import opened CredentialsStore

  /** The options --profile, --otp and --name, each possibly left out. */
  datatype Arguments = Arguments(profile: Option<string>, otp: Option<string>, name: Option<string>)

  /** Python truthiness of an optional string: None and "" both count as
      not given. */
  predicate Given(v: Option<string>) {
    v.Some? && v.value != ""
  }

  // ---------------------------------------------------------------------
  // Name resolution.

  const DefaultProfile := "default"
  const MfaSuffix := "-mfa"

  /** The source profile: --profile, else the AWS_PROFILE variable, else
      "default"; never empty. */
  function SourceProfile(profileArg: Option<string>, awsProfile: Option<string>): (p: string)
    ensures p != ""
    ensures Given(profileArg) ==> p == profileArg.value
    ensures !Given(profileArg) && Given(awsProfile) ==> p == awsProfile.value
    ensures !Given(profileArg) && !Given(awsProfile) ==> p == DefaultProfile
  {
    if Given(profileArg) then profileArg.value
    else if Given(awsProfile) then awsProfile.value
    else DefaultProfile
  }

  /** The profile the session is written to: --name, else the source
      profile with "-mfa" appended, which is never the source profile
      itself, so that its long-term keys are not overwritten. */
  function TargetProfile(nameArg: Option<string>, profile: string): (t: string)
    ensures Given(nameArg) ==> t == nameArg.value
    ensures !Given(nameArg) ==>
      && |t| == |profile| + 4 && t[..|profile|] == profile && t[|profile|..] == MfaSuffix
      && t != profile
  {
    if Given(nameArg) then nameArg.value else profile + MfaSuffix
  }

  // ---------------------------------------------------------------------
  // The expiration gate.

  datatype GateError =
    | MissingExpiration    // KeyError: the section has no aws_session_expiration
    | MalformedExpiration  // ValueError from strptime

  datatype Gate = StillValid(expiresAt: ValidDateTime) | Refresh | GateFailed(error: GateError)

  /** The check before any remote call, with now in microseconds since the
      Unix epoch (UTC). The run stops early exactly when the target section
      exists and its expiration is non-empty, readable and strictly later
      than now; a section without the key is an error, not a refresh. */
  function ExpirationGate(store: Store, target: string, now: int): (g: Gate)
    ensures g.StillValid? <==>
      && target in store && ExpirationKey in store[target]
      && Parse(store[target][ExpirationKey]).Some?
      && Instant(Parse(store[target][ExpirationKey]).value) > now
    ensures g.StillValid? ==>
      store[target][ExpirationKey] != "" && g.expiresAt == Parse(store[target][ExpirationKey]).value
    ensures g == GateFailed(MissingExpiration) <==> target in store && ExpirationKey !in store[target]
    ensures g == GateFailed(MalformedExpiration) <==>
      && target in store && ExpirationKey in store[target]
      && store[target][ExpirationKey] != "" && Parse(store[target][ExpirationKey]).None?
    ensures g == Refresh <==>
      || target !in store
      || (&& ExpirationKey in store[target]
          && (|| store[target][ExpirationKey] == ""
              || (Parse(store[target][ExpirationKey]).Some?
                  && Instant(Parse(store[target][ExpirationKey]).value) <= now)))
  {
    if target !in store then Refresh
    else if ExpirationKey !in store[target] then GateFailed(MissingExpiration)
    else
      var text := store[target][ExpirationKey];
      if text == "" then Refresh
      else
        match Parse(text)
        case None => GateFailed(MalformedExpiration)
        case Some(expiry) => if Instant(expiry) > now then StillValid(expiry) else Refresh
  }

  /** A section that has just been given a session passes the gate while
      that session's expiration is later than now, and asks for a refresh
      from then on. */
  lemma RefreshedProfileStaysValid(store: Store, target: string, creds: SessionCredentials, now: int)
    ensures Instant(creds.expiration) > now ==>
      ExpirationGate(WithSession(store, target, creds), target, now) == StillValid(creds.expiration)
    ensures Instant(creds.expiration) <= now ==>
      ExpirationGate(WithSession(store, target, creds), target, now) == Refresh
  {
    ParseFormat(creds.expiration);
    var after := WithSession(store, target, creds);
    assert after[target][ExpirationKey] == Format(creds.expiration);
    assert |Format(creds.expiration)| == 24;
  }

  // ---------------------------------------------------------------------
  // One run of the script.

  datatype RunError =
    | ExpirationUnreadable(gate: GateError)
    | ExchangeRefused(exchange: ExchangeError)

  /** How a run ends. NoRefreshNeeded and Refreshed exit with status 0;
      Failed exits with status 1, either through sys.exit(1) or through an
      uncaught exception. Only Refreshed carries a session-token request:
      the other outcomes make none. */
  datatype Outcome =
    | NoRefreshNeeded(target: string, expiresAt: ValidDateTime)
    | Refreshed(target: string, request: SessionTokenRequest)
    | Failed(error: RunError)

  /** main() on the store read from the credentials file. The store changes
      only when the run ends Refreshed, and then by exactly the merge of the
      issued session into the target profile. typedOtp is what the user
      would type at the prompt, asked for only when --otp is not given. */
  method RunOnce(config: Config, args: Arguments, awsProfile: Option<string>, now: int,
                 typedOtp: string, remote: Remote)
    returns (outcome: Outcome)
    modifies config
    ensures var profile := SourceProfile(args.profile, awsProfile);
      var target := TargetProfile(args.name, profile);
      var token := if Given(args.otp) then args.otp.value else typedOtp;
      match ExpirationGate(old(config.sections), target, now)
      case StillValid(expiry) =>
        outcome == NoRefreshNeeded(target, expiry) && config.sections == old(config.sections)
      case GateFailed(e) =>
        outcome == Failed(ExpirationUnreadable(e)) && config.sections == old(config.sections)
      case Refresh =>
        match GetTemporaryCredentials(profile, token, remote)
        case Err(e) =>
          outcome == Failed(ExchangeRefused(e)) && config.sections == old(config.sections)
        case Ok(x) =>
          && outcome == Refreshed(target, x.request)
          && config.sections == WithSession(old(config.sections), target, x.credentials)
  {
    var token := args.otp;
    var tempProfile := args.name;
    var profile := args.profile;

    if !Given(profile) {
      profile := awsProfile;
    }
    if !Given(profile) {
      profile := Some(DefaultProfile);
    }
    if !Given(tempProfile) {
      tempProfile := Some(profile.value + MfaSuffix);
    }

    var gate := ExpirationGate(config.sections, tempProfile.value, now);
    if gate.StillValid? {
      return NoRefreshNeeded(tempProfile.value, gate.expiresAt);
    } else if gate.GateFailed? {
      return Failed(ExpirationUnreadable(gate.error));
    }

    if !Given(token) {
      token := Some(typedOtp);
    }

    var exchange := GetTemporaryCredentials(profile.value, token.value, remote);
    if exchange.Err? {
      return Failed(ExchangeRefused(exchange.error));
    }
    config.AddTemporaryProfile(tempProfile.value, exchange.value.credentials);
    outcome := Refreshed(tempProfile.value, exchange.value.request);
  }

  /** Two runs with the same options: when the first one refreshes and the
      second comes before the issued session expires, the second stops at
      the gate, makes no request and leaves the store as the first left it. */
  method RefreshThenRerun(config: Config, args: Arguments, awsProfile: Option<string>,
                          firstNow: int, secondNow: int, typedOtp: string, remote: Remote)
    returns (first: Outcome, second: Outcome)
    modifies config
    ensures first.Refreshed? && secondNow < Instant(remote.getSessionToken(first.request).expiration) ==>
      var issued := remote.getSessionToken(first.request);
      && second == NoRefreshNeeded(first.target, issued.expiration)
      && config.sections == WithSession(old(config.sections), first.target, issued)
  {
    first := RunOnce(config, args, awsProfile, firstNow, typedOtp, remote);
    ghost var afterFirst := config.sections;
    second := RunOnce(config, args, awsProfile, secondNow, typedOtp, remote);
    if first.Refreshed? {
      var profile := SourceProfile(args.profile, awsProfile);
      var token := if Given(args.otp) then args.otp.value else typedOtp;
      var issued := remote.getSessionToken(first.request);
      assert GetTemporaryCredentials(profile, token, remote) == Ok(Exchange(first.request, issued));
      RefreshedProfileStaysValid(old(config.sections), first.target, issued, secondNow);
    }
  }
}
