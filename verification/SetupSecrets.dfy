/** The secrets the Docker setup shares between the gateway's and the admin's env file. */
module SetupSecrets {
  import opened Text
  import opened EnvFiles
  import opened Wrappers

  function TokenKey(): (key: string) { "VALIDATION_TOKEN_SECRET" }
  function MetadataKey(): (key: string) { "METADATA_ENCRYPTION_KEY" }
  function AwsKey(): (key: string) { "AWS_SECRET_ENCRYPTION_KEY" }
  function SiemKey(): (key: string) { "SIEM_CREDENTIAL_KEY" }
  function ConnectionKey(): (key: string) { "CONNECTION_CREDENTIAL_KEY" }
  function PasswordKey(): (key: string) { "POSTGRES_PASSWORD" }
  function UserKey(): (key: string) { "POSTGRES_USER" }

  function RuntimePasswordKey(): (key: string) { "FILE_SEARCH_RUNTIME_PASSWORD" }
  function RuntimeUserKey(): (key: string) { "FILE_SEARCH_RUNTIME_USER" }
  function ClientSecretKey(): (key: string) { "OAUTH2_PROXY_CLIENT_SECRET" }
  function CookieSecretKey(): (key: string) { "OAUTH2_PROXY_COOKIE_SECRET" }

  /** Generated values a re-run keeps from the current configuration. */
  function KeptKeys(): (keys: seq<string>)
  {
    [AwsKey(), RuntimePasswordKey(), ClientSecretKey(), CookieSecretKey()]
  }

  predicate IsPubliclyKnown(secret: string)
  {
    secret in ["dev-secret-change-in-production", "generate-a-secure-64-character-hex-string"]
  }

  function Placeholder(): (value: string) { "changeme" }

  /** A real master key: neither missing nor the sample's placeholder. */
  predicate IsReal(value: string) { value != "" && value != Placeholder() }

  predicate IsHexDigit(c: char) { '0' <= c <= '9' || 'a' <= c <= 'f' }

  /** What the generators return. */
  predicate IsToken(s: string) { s != "" && forall i :: 0 <= i < |s| ==> IsHexDigit(s[i]) }

  lemma PublicHasDash(s: string)
    requires IsPubliclyKnown(s)
    ensures |s| > 8 && (s[3] == '-' || s[8] == '-')
  {
  }

  lemma TokenIsPlain(s: string)
    requires IsToken(s)
    ensures IsLine(s) && IsTrimmed(s) && !IsPubliclyKnown(s) && IsReal(s)
  {
    hide IsPubliclyKnown;
    if IsPubliclyKnown(s) { PublicHasDash(s); }
    assert Placeholder()[1] == 'h';
  }

  predicate IsPlainKey(key: string)
  {
    key != "" && key != "CLIENT_SECRET" && key != "cds.requires.db.credentials.user" && key != "cds.requires.db.credentials.password"
  }

  lemma KeysDiffer()
    ensures IsPlainKey(TokenKey()) && IsPlainKey(MetadataKey()) && IsPlainKey(SiemKey()) && IsPlainKey(ConnectionKey())
    ensures |TokenKey()| == |MetadataKey()| == 23 && |AwsKey()| == |ConnectionKey()| == 25 && |SiemKey()| == 19
    ensures |PasswordKey()| == 17 && |UserKey()| == 13 && |RuntimePasswordKey()| == 28 && |RuntimeUserKey()| == 24
    ensures |ClientSecretKey()| == |CookieSecretKey()| == 26
    ensures TokenKey()[0] == 'V' && MetadataKey()[0] == 'M' && AwsKey()[0] == 'A' && ConnectionKey()[0] == 'C'
  {
  }

  lemma ProxyKeysDiffer()
    ensures ClientSecretKey() != CookieSecretKey()
  {
    assert ClientSecretKey()[14] == 'L' && CookieSecretKey()[14] == 'O';
  }

  lemma PlainUpdate(key: string, value: string, updates: Env)
    requires IsPlainKey(key)
    ensures Updated(key, value, updates) == if key in updates then Trim(updates[key]) else value
  {
    hide Trim;
  }

  /** What reading an env file gives: trimmed values of one line, under keys that are not empty. */
  predicate IsRead(env: Env)
  {
    AreLineValues(env) && forall key :: key in env ==> IsTrimmed(env[key])
  }

  lemma {:induction false} LinesAreRead(lines: seq<string>)
    requires AreLines(lines)
    ensures IsRead(EnvOfLines(lines))
  {
    hide AssignmentOf, IsLine, IsTrimmed;
    if lines != [] {
      LinesAreRead(lines[..|lines| - 1]);
      LineIsRead(lines[|lines| - 1]);
    }
  }

  lemma LineIsRead(line: string)
    requires IsLine(line)
    ensures var a := AssignmentOf(line); a.Assigns? ==> a.key != "" && IsLine(a.value) && IsTrimmed(a.value)
  {
    hide Trim, IndexFrom, IsTrimmed, IsSpace;
    var t := Trim(line);
    var i := IndexOf(t, "=");
    NoEquals(t);
    if t != "" && !StartsWith(t, "#") && i > 0 {
      TrimIsLine(line);
      TrimIsLine(t[i + 1..]);
      TrimParts(t[i + 1..]);
      KeyIsClean(line, i);
    }
  }

  lemma ContentIsRead(content: string)
    ensures IsRead(EnvOf(content))
  {
    LinesAreLines(content);
    LinesAreRead(Lines(content));
  }

  // ----- what the setup predicts ----------------------------------------------------------------

  predicate KeepsGateway(gateway: Option<string>, force: bool) { gateway.Some? && !force }

  /** A value the gateway's env file holds before the run. */
  function Held(gateway: Option<string>, key: string): (value: string)
  {
    if gateway.Some? then Get(EnvOf(gateway.value), key) else ""
  }

  /** The read-only prediction, made before anything is written. */
  predicate PredictsMismatch(gateway: Option<string>, force: bool)
  {
    KeepsGateway(gateway, force) && (Held(gateway, TokenKey()) == "" || Held(gateway, MetadataKey()) == "")
  }

  /** Whether the gateway's env file has a value for `key` after the run. */
  predicate WillHold(gateway: Option<string>, force: bool, regenerate: seq<string>, key: string)
  {
    || !KeepsGateway(gateway, force)
    || Held(gateway, key) != ""
    || (key in EnvOf(gateway.value) && key in regenerate)
  }

  /** Whether the check after writing finds the two files to agree. */
  predicate WillMatch(gateway: Option<string>, force: bool, regenerate: seq<string>)
  {
    WillHold(gateway, force, regenerate, TokenKey()) && WillHold(gateway, force, regenerate, MetadataKey())
  }

  /** A key set to nothing in a kept gateway file and chosen for regeneration: the run fills it in. */
  predicate FillsIn(gateway: Option<string>, force: bool, regenerate: seq<string>, key: string)
  {
    KeepsGateway(gateway, force) && Held(gateway, key) == "" && key in EnvOf(gateway.value) && key in regenerate
  }

  /** The prediction is right unless the run fills in every token the gateway lacks, and there is one. */
  lemma PredictionIsRight(gateway: Option<string>, force: bool, regenerate: seq<string>)
    ensures (PredictsMismatch(gateway, force) <==> !WillMatch(gateway, force, regenerate))
       <==> !(PredictsMismatch(gateway, force)
              && (Held(gateway, TokenKey()) == "" ==> FillsIn(gateway, force, regenerate, TokenKey()))
              && (Held(gateway, MetadataKey()) == "" ==> FillsIn(gateway, force, regenerate, MetadataKey())))
  {
    hide EnvOf, TokenKey, MetadataKey;
  }

  /** The keys offered for regeneration. */
  predicate IsOffered(gateway: Option<string>, admin: Option<string>, force: bool, current: Env, passwordReplaced: bool,
                      key: string)
  {
    || (KeepsGateway(gateway, force) && key == TokenKey() && Held(gateway, key) != "" && !IsPubliclyKnown(Held(gateway, key)))
    || (KeepsGateway(gateway, force) && key == MetadataKey() && Held(gateway, key) != "")
    || (admin.Some? && key in [SiemKey(), ConnectionKey()] && IsReal(Held(admin, key)))
    || (key in KeptKeys() && Get(current, key) != "")
    || (key == PasswordKey() && !passwordReplaced && Get(current, key) != "")
  }

  lemma KeptKeysAreOthers()
    ensures TokenKey() !in KeptKeys() && MetadataKey() !in KeptKeys() && SiemKey() !in KeptKeys()
    ensures ConnectionKey() !in KeptKeys() && PasswordKey() !in KeptKeys() && RuntimeUserKey() !in KeptKeys()
    ensures forall i, j :: 0 <= i < j < |KeptKeys()| ==> KeptKeys()[i] != KeptKeys()[j]
  {
    hide TokenKey, MetadataKey, AwsKey, SiemKey, ConnectionKey, PasswordKey, RuntimePasswordKey, RuntimeUserKey,
         ClientSecretKey, CookieSecretKey;
    KeysDiffer();
    ProxyKeysDiffer();
  }

  /** Regenerating only what was offered, the prediction is always right. */
  lemma PredictionIsRightWhenOffered(gateway: Option<string>, admin: Option<string>, force: bool, current: Env,
                                     passwordReplaced: bool, regenerate: seq<string>)
    requires forall key :: key in regenerate ==> IsOffered(gateway, admin, force, current, passwordReplaced, key)
    ensures PredictsMismatch(gateway, force) <==> !WillMatch(gateway, force, regenerate)
  {
    hide EnvOf, TokenKey, MetadataKey, SiemKey, ConnectionKey, PasswordKey, KeptKeys, IsPubliclyKnown, IsReal;
    KeysDiffer();
    KeptKeysAreOthers();
  }
}
