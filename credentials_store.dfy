/** The credentials file as the script holds it in memory: sections named by
    profile, each a table of keys to string values. add_temporary_profile
    writes a session into one section of it in place. */
module CredentialsStore {
  import opened Timestamp
  import opened SessionExchange

  type Section = map<string, string>
  type Store = map<string, Section>

  const AccessKeyIdKey := "aws_access_key_id"
  const SecretAccessKeyKey := "aws_secret_access_key"
  const SessionTokenKey := "aws_session_token"
  const ExpirationKey := "aws_session_expiration"

  /** The four keys a session writes. */
  const SessionKeys: set<string> := {AccessKeyIdKey, SecretAccessKeyKey, SessionTokenKey, ExpirationKey}

  /** The four key names are different strings. */
  lemma SessionKeysDistinct()
    ensures AccessKeyIdKey != SecretAccessKeyKey && AccessKeyIdKey != SessionTokenKey
    ensures AccessKeyIdKey != ExpirationKey && SecretAccessKeyKey != SessionTokenKey
    ensures SecretAccessKeyKey != ExpirationKey && SessionTokenKey != ExpirationKey
  {
    assert AccessKeyIdKey[4] != SessionTokenKey[4];
  }

  /** The section a session is merged into: the existing one, or a new
      empty one. */
  function SectionOf(store: Store, target: string): Section {
    if target in store then store[target] else map[]
  }

  /** A section with the four session keys set: each holds its session
      value, the expiration formatted, and every other key is kept. */
  function MergeSession(section: Section, creds: SessionCredentials): (r: Section)
    ensures r.Keys == section.Keys + SessionKeys
    ensures r[AccessKeyIdKey] == creds.accessKeyId
    ensures r[SecretAccessKeyKey] == creds.secretAccessKey
    ensures r[SessionTokenKey] == creds.sessionToken
    ensures r[ExpirationKey] == Format(creds.expiration)
    ensures forall key :: key in section && key !in SessionKeys ==> r[key] == section[key]
  {
    SessionKeysDistinct();
    section[AccessKeyIdKey := creds.accessKeyId]
           [SecretAccessKeyKey := creds.secretAccessKey]
           [SessionTokenKey := creds.sessionToken]
           [ExpirationKey := Format(creds.expiration)]
  }

  /** The store after a session is merged into section target: the section
      exists and is the merged one, created empty when it was missing, and
      no other section changes. */
  function WithSession(store: Store, target: string, creds: SessionCredentials): (r: Store)
    ensures r.Keys == store.Keys + {target}
    ensures r[target] == MergeSession(SectionOf(store, target), creds)
    ensures forall name :: name in store && name != target ==> r[name] == store[name]
  {
    store[target := MergeSession(SectionOf(store, target), creds)]
  }

  /** Merging a second session into the same section leaves what the second
      one alone would have left: a refresh replaces the previous session
      completely. */
  lemma LatestSessionWins(store: Store, target: string, first: SessionCredentials, second: SessionCredentials)
    ensures WithSession(WithSession(store, target, first), target, second) == WithSession(store, target, second)
  {
    var a := WithSession(WithSession(store, target, first), target, second);
    var b := WithSession(store, target, second);
    assert a[target] == b[target];
  }

  /** The configparser object: its sections, updated in place. */
  class Config {
    var sections: Store

    constructor (initial: Store)
      ensures sections == initial
    {
      sections := initial;
    }

    /** add_temporary_profile(config, target, session): create the section
        when it is missing, then set the four session keys one by one. */
    method AddTemporaryProfile(target: string, creds: SessionCredentials)
      modifies this
      ensures sections == WithSession(old(sections), target, creds)
    {
      var expiration := Format(creds.expiration);
      if target !in sections {
        sections := sections[target := map[]];
      }
      sections := sections[target := sections[target][AccessKeyIdKey := creds.accessKeyId]];
      sections := sections[target := sections[target][SecretAccessKeyKey := creds.secretAccessKey]];
      sections := sections[target := sections[target][SessionTokenKey := creds.sessionToken]];
      sections := sections[target := sections[target][ExpirationKey := expiration]];
      assert sections[target] == MergeSession(SectionOf(old(sections), target), creds);
    }
  }
}
