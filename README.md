# awscli_mfa credentials refresh, modelled in Dafny

`mfa_credentials.py` fetches short-lived AWS credentials protected by an MFA
device and stores them as a profile in the local credentials file. This
project models the logic under its I/O:

- **Name resolution** (`main`): the source profile is `--profile`, else the
  `AWS_PROFILE` variable, else `default`. An empty string counts as absent.
  The target profile is `--name`, else `<profile>-mfa`.
- **Expiration gate** (`main`): the run stops before any remote call when the
  target section exists and its `aws_session_expiration` is non-empty,
  readable, and strictly later than now. A section without that key raises
  `KeyError`. An unreadable value raises `ValueError`.
- **Expiration text**: the `strftime`/`strptime` pair with the format
  `%Y-%m-%d %H:%M:%S%z`, over a record of date, time and UTC offset in
  minutes. Aware datetimes compare by their UTC instant. `Instant` counts
  microseconds since the Unix epoch, the unit of the `now` parameter.
- **Session exchange** (`get_temporary_credentials`): the user name is
  `Arn.split('/')[1]`. Zero MFA devices or more than one ends the run with
  status 1 and no session-token request. Exactly one device gives the serial
  number for the request.
- **Profile merge** (`add_temporary_profile`): a method on the `Config`
  class. It updates the class's `sections` map in place: the section is
  created if missing, exactly four keys are set, and nothing else changes.

The two services, the clock and the typed one-time password are parameters:
`Remote` holds the caller ARN, the device listing per user name, and the
credentials issued per request. `now` is an integer, and `typedOtp` is what
the user would type. `RunOnce` puts the steps together as `main` does.
`RefreshThenRerun` shows that a second run within the validity window makes
no request and leaves the store unchanged.

A target section without `aws_session_expiration` raises `KeyError`, because
line 104 indexes the section directly (`ExpirationGate`,
`GateFailed(MissingExpiration)`). The device-count failures print a message
and call `sys.exit(1)`.

An IAM user ARN that carries a path takes the first path component as the
user name: `UsernameOfArn` gives `dev` for `arn:aws:iam::1:user/dev/alice`.
The model keeps this behaviour.

Files: `wrappers.dfy` (Option, Result), `timestamp.dfy`,
`session_exchange.dfy`, `credentials_store.dfy`, `mfa_credentials.dfy`.

## Model

| member | source | states |
|---|---|---|
| Timestamp.InstantExamples | mfa_credentials.py:107 | Examples of the UTC comparison: the Unix epoch is instant 0, and that moment written as 02:00 at +0200, or as 23:00 of the previous day at -0100, is the same instant. |
| Timestamp.InstantOffsetShift | mfa_credentials.py:107 | For all times on one day, moving the wall clock and the offset by the same number of minutes gives the same instant: the comparison is on the UTC moment. |
| Timestamp.InstantOrder | mfa_credentials.py:107 | For all times at one offset, an earlier wall-clock time (year, month, day, then time of day) is a strictly earlier instant, across day, month and year boundaries. |
| Timestamp.OrdinalOrder | mfa_credentials.py:107 | An earlier calendar date has a strictly smaller day number, for every pair of valid dates. |
| Timestamp.Format | mfa_credentials.py:72 | The expiration text is always 24 characters: fixed-width fields and a four-digit signed offset. |
| Timestamp.Parse | mfa_credentials.py:106 | A string is accepted only when it has the fixed layout: separators in place, digits in every field. Out-of-range fields and times `datetime` refuses give the ValueError case. |
| Timestamp.ParseFormat | mfa_credentials.py:106 | Parsing the text written at line 72 gives back the same date, time and offset, for every valid time. |
| Timestamp.FormatParse | mfa_credentials.py:106 | Every accepted string is exactly what formatting its result writes. The one exception is a `-0000` offset, which comes back as `+0000`. |
| SessionExchange.Split | mfa_credentials.py:53 | `str.split` gives at least one piece and no piece holds the separator. There is exactly one piece iff the separator does not occur. |
| SessionExchange.JoinSplit | mfa_credentials.py:53 | Joining the pieces of a split with the separator gives back the original string. |
| SessionExchange.Username | mfa_credentials.py:53 | An ARN without `/` is the IndexError case, and only such an ARN is. Otherwise the user name holds no `/` and is shorter than the ARN. |
| SessionExchange.UsernameOfArn | mfa_credentials.py:53 | For `account/user` followed by nothing or by `/...`, the user name is exactly the text between the first and second `/`. |
| SessionExchange.SelectDevice | mfa_credentials.py:55-62 | Zero devices give the no-device exit and more than one the multiple-device exit. Exactly one gives its serial number. No other outcome exists. |
| SessionExchange.GetTemporaryCredentials | mfa_credentials.py:49-64 | A session token is requested only for an ARN with a `/` whose user has exactly one device. The request carries that device's serial number and the token. Otherwise the error names the reason and no request is made. |
| CredentialsStore.MergeSession | mfa_credentials.py:69-72 | The four session keys hold the session values, the expiration in its formatted text. Every other key of the section is kept, and no key is added beyond the four. |
| CredentialsStore.WithSession | mfa_credentials.py:66-73 | The target section exists afterwards and is the merged one, made from an empty section when it was missing. Every other section is identical and no other section appears. |
| CredentialsStore.LatestSessionWins | mfa_credentials.py:66-73 | Merging a second session into the same section gives the same store as merging only the second. |
| CredentialsStore.Config.AddTemporaryProfile | mfa_credentials.py:66-73 | The in-place update (add the section if missing, set four keys) leaves `sections` equal to `WithSession` of the old sections. |
| MfaCredentials.SourceProfile | mfa_credentials.py:93-97 | The source profile is the explicit argument if non-empty, else `AWS_PROFILE` if non-empty, else `default`. It is never empty. |
| MfaCredentials.TargetProfile | mfa_credentials.py:99-100 | The target is `--name` if non-empty, else the profile followed by `-mfa`, which always differs from the source profile. |
| MfaCredentials.ExpirationGate | mfa_credentials.py:103-109 | Skip iff the section exists and the expiration is present, non-empty, readable and strictly later than now. A missing key is KeyError and an unreadable value ValueError. Refresh covers every other case, including equal or earlier times. |
| MfaCredentials.RefreshedProfileStaysValid | mfa_credentials.py:103-109 | After merging a session, the gate skips while its expiration is later than now and asks for a refresh afterwards. |
| MfaCredentials.RunOnce | mfa_credentials.py:86-117 | The outcome and the new store follow the gate and the exchange. The store changes only on a refresh, and then by exactly the merge of the issued session into the target profile. |
| MfaCredentials.RefreshThenRerun | mfa_credentials.py:86-117 | After a refresh, a second run before the session expires stops at the gate with no request. It leaves the store as the first run left it. |

## Left out

- Dependency import checks and their coloured messages (mfa_credentials.py:9-31): startup environment probing, no logic.
- The default credentials path from `HOME` (mfa_credentials.py:33-34) and the `--credentials` option: the file is not modelled, only the store read from it.
- Argument parsing with argparse (mfa_credentials.py:36-42): the options are the `Arguments` record of three optional strings.
- Reading and writing the INI file with configparser (mfa_credentials.py:44-47, 83): the grammar is the library's. The always-present `DEFAULT` section, key lowercasing, value fallback from `DEFAULT` and interpolation are not modelled either.
- Backup copy, file write and `chmod 0o600` (mfa_credentials.py:75-84): filesystem I/O.
- The boto3 session and the STS and IAM calls (mfa_credentials.py:50-52, 54, 63): network calls, represented by the total functions of `Remote`. Their transport and authentication failures (a wrong one-time password, an unknown profile, no network) are therefore not modelled.
- A caller-identity response without `Arn`, or a device record without `SerialNumber`: the model takes the ARN as a string and a device as its serial number.
- The interactive prompt (mfa_credentials.py:111-112) and the wall clock (mfa_credentials.py:78, 105): `typedOtp` and `now` are parameters.
- The messages printed on each path: output only.
- Timestamp.Parse: accepts only the fixed-width spelling that strftime writes. strptime also accepts one-digit fields, runs of whitespace for the space, `+HH:MM`, `Z`, offsets with seconds, and non-ASCII decimal digits such as fullwidth ones; the model reads those as ValueError.
- Timestamp.Format: pads years below 1000 to four digits. The C library's `%Y` may write such years unpadded.
- Timestamp.DateTime: has no sub-second part and an offset in whole minutes. A fractional second of the issued expiration, which the format drops, is not represented.
