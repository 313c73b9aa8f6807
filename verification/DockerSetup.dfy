/** The part of the Docker setup that writes the services' env files: shared secrets, the gateway's file, the admin's
    file, and the check that both hold the same tokens. */
module DockerSetup {
  import opened Text
  import opened EnvFiles
  import opened SetupSecrets
  import opened Wrappers

  /** The database credentials asked for; an empty one was not given. */
  datatype DbConfig = DbConfig(user: string, password: string)

  /** The secrets that a run without any generates together. */
  function GeneratedKeys(): (keys: seq<string>)
  {
    [TokenKey(), MetadataKey(), AwsKey(), SiemKey(), ConnectionKey(), PasswordKey(), ClientSecretKey(), CookieSecretKey()]
  }

  lemma MasterKeysAreGenerated()
    ensures SiemKey() in GeneratedKeys() && ConnectionKey() in GeneratedKeys()
  {
    hide SiemKey, ConnectionKey;
    var keys := GeneratedKeys();
    assert SiemKey() == keys[3] && ConnectionKey() == keys[4];
  }

  /** The shared secrets among `keys`, as updates of an env file. */
  function Picked(shared: Env, keys: seq<string>): (updates: Env)
  {
    map key | key in keys && key in shared :: shared[key]
  }

  function WithValue(updates: Env, key: string, value: string): (r: Env)
  {
    if value != "" then updates[key := value] else updates
  }

  /** What the gateway's env file is created with: the SAP AI Core settings, and the shared tokens in any case. */
  function GatewayUpdates(shared: Env, sap: Env): (updates: Env)
  {
    (sap - {TokenKey(), MetadataKey()}) + Picked(shared, [TokenKey(), MetadataKey()])
  }

  /** What the admin's env file is rewritten with. */
  function AdminUpdates(shared: Env, db: DbConfig): (updates: Env)
  {
    var tokens := Picked(shared, [TokenKey(), MetadataKey(), AwsKey(), SiemKey(), ConnectionKey()]);
    var withPassword := WithValue(tokens, PasswordKey(), Get(shared, PasswordKey()));
    WithValue(withPassword, UserKey(), if db.user != "" then db.user else Get(shared, UserKey()))
  }

  /** The admin's file gets the shared secrets there are of five, the shared database password, and the database user asked
      for or else the shared one; nothing for any other key. */
  lemma AdminUpdatesAre(shared: Env, db: DbConfig)
    ensures var updates := AdminUpdates(shared, db);
      && (forall key :: key in [TokenKey(), MetadataKey(), AwsKey(), SiemKey(), ConnectionKey()] ==>
            (key in updates <==> key in shared) && (key in shared ==> updates[key] == shared[key]))
      && (PasswordKey() in updates <==> Get(shared, PasswordKey()) != "")
      && (PasswordKey() in updates ==> updates[PasswordKey()] == shared[PasswordKey()])
      && (db.user != "" ==> UserKey() in updates && updates[UserKey()] == db.user)
      && (db.user == "" ==> (UserKey() in updates <==> Get(shared, UserKey()) != "") && Get(updates, UserKey()) == Get(shared, UserKey()))
      && updates.Keys <= {TokenKey(), MetadataKey(), AwsKey(), SiemKey(), ConnectionKey(), PasswordKey(), UserKey()}
  {
    hide TokenKey, MetadataKey, AwsKey, SiemKey, ConnectionKey, PasswordKey, UserKey;
    KeysDiffer();
  }

  /** A created gateway file gets the shared tokens there are, and otherwise the settings of SAP AI Core. */
  lemma GatewayUpdatesAre(shared: Env, sap: Env)
    ensures var updates := GatewayUpdates(shared, sap);
      forall key ::
        if key in [TokenKey(), MetadataKey()] then (key in updates <==> key in shared) && (key in shared ==> updates[key] == shared[key])
        else (key in updates <==> key in sap) && (key in sap ==> updates[key] == sap[key])
  {
    hide TokenKey, MetadataKey;
  }

  /** Two environments that differ at most under `keys`, with the same keys. */
  predicate SameBut(env: Env, other: Env, keys: set<string>)
  {
    && env.Keys == other.Keys
    && forall key :: key in env && key !in keys ==> env[key] == other[key]
  }

  /** Two sets of shared secrets that differ at most under `keys`. */
  ghost predicate SharedBut(shared: Env, other: Env, keys: set<string>)
  {
    forall key :: key !in keys ==> Get(shared, key) == Get(other, key)
  }

  lemma OtherUpdate(key: string, had: string, updates: Env)
    requires UserKey() !in updates && PasswordKey() !in updates && key !in updates
    ensures Updated(key, had, updates) == had
  {
    hide Trim, NeedsQuotes;
  }

  class DockerSetup {
    const gatewaySample: string
    const adminSample: string
    const random: nat -> string
    const force: bool
    const regenerate: seq<string>
    const current: Env
    const passwordReplaced: bool

    var shared: Env
    var gatewayEnv: Option<string>
    var adminEnv: Option<string>
    var drawn: nat

    /** Values are lines, and the generators return hex tokens. */
    ghost predicate Valid()
      reads this
    {
      AreLineValues(shared) && AreLineValues(current) && forall n: nat :: IsToken(random(n))
    }

    /** The gateway's tokens stay as they are when read back from a file. */
    ghost predicate IsTidy()
      reads this
    {
      IsTrimmed(Get(shared, TokenKey())) && IsTrimmed(Get(shared, MetadataKey()))
    }

    /** The gateway's tokens are ready to be written. */
    ghost predicate HasTokens()
      reads this
    {
      Get(shared, TokenKey()) != "" && !IsPubliclyKnown(Get(shared, TokenKey())) && Get(shared, MetadataKey()) != ""
    }

    constructor (gatewaySample: string, adminSample: string, random: nat -> string, force: bool, regenerate: seq<string>,
                 current: Env, passwordReplaced: bool, shared: Env, gatewayEnv: Option<string>, adminEnv: Option<string>)
      requires AreLineValues(shared) && AreLineValues(current) && forall n: nat :: IsToken(random(n))
      ensures Valid() && this.shared == shared && this.gatewayEnv == gatewayEnv && this.adminEnv == adminEnv
      ensures this.gatewaySample == gatewaySample && this.adminSample == adminSample && this.random == random
      ensures this.force == force && this.regenerate == regenerate && this.current == current
      ensures this.passwordReplaced == passwordReplaced
    {
      this.gatewaySample, this.adminSample, this.random := gatewaySample, adminSample, random;
      this.force, this.regenerate, this.current := force, regenerate, current;
      this.passwordReplaced, this.shared, this.drawn := passwordReplaced, shared, 0;
      this.gatewayEnv, this.adminEnv := gatewayEnv, adminEnv;
    }

    method Generate() returns (token: string)
      requires Valid()
      modifies this`drawn
      ensures Valid() && IsToken(token) && token == random(old(drawn)) && drawn == old(drawn) + 1
    {
      token := random(drawn);
      drawn := drawn + 1;
    }

    /** Puts a freshly generated value under `key`. */
    method Renew(key: string)
      requires Valid() && key != ""
      modifies this`drawn, this`shared
      ensures Valid() && key in shared && IsToken(shared[key]) && shared == old(shared)[key := shared[key]]
    {
      hide IsToken;
      var token := Generate();
      TokenIsPlain(token);
      shared := shared[key := token];
    }

    /** A kept gateway file: its token is taken over, unless it is publicly known, which is replaced. */
    method TakeOverToken(existing: Env)
      requires Valid() && IsTidy() && gatewayEnv.Some? && existing == EnvOf(gatewayEnv.value)
      modifies this`drawn, this`shared, this`gatewayEnv
      ensures Valid() && IsTidy() && (old(HasTokens()) ==> HasTokens()) && gatewayEnv.Some?
      ensures SharedBut(shared, old(shared), {TokenKey()})
      ensures var env := EnvOf(gatewayEnv.value); AgreesOn(env, TokenKey()) && TookOver(existing, env)
      ensures !IsPubliclyKnown(Get(existing, TokenKey())) ==> gatewayEnv == old(gatewayEnv)
    {
      hide EnvOf, UpdateEnv, IsPubliclyKnown, IsTrimmed, IsLine, IsToken, TokenKey, MetadataKey, UserKey, PasswordKey;
      KeysDiffer();
      ContentIsRead(gatewayEnv.value);
      var token := Get(existing, TokenKey());
      if IsPubliclyKnown(token) {
        if Get(shared, TokenKey()) == "" || IsPubliclyKnown(Get(shared, TokenKey())) {
          Renew(TokenKey());
          TokenIsPlain(shared[TokenKey()]);
        }
        var value := shared[TokenKey()];
        UpdateTokens(gatewayEnv.value, map[TokenKey() := value]);
        PublicIsSomething(token);
        gatewayEnv := Some(UpdateEnv(gatewayEnv.value, map[TokenKey() := value]));
      } else if token != "" {
        shared := shared[TokenKey() := token];
      }
    }

    /** What `env` holds under `key`, if anything, is the shared secret. */
    ghost predicate AgreesOn(env: Env, key: string)
      reads this
    {
      Get(env, key) != "" ==> Get(env, key) == Get(shared, key)
    }

    /** A fresh value for `key`, if it was chosen for regeneration. */
    method RenewChosen(key: string, before: Env) returns (regenerated: Env)
      requires Valid() && IsTidy() && key in [TokenKey(), MetadataKey()] && key !in before
      requires forall other :: other in before ==> IsToken(before[other])
      modifies this`drawn, this`shared
      ensures Valid() && IsTidy() && (old(HasTokens()) ==> HasTokens())
      ensures SharedBut(shared, old(shared), if key in regenerate then {key} else {})
      ensures regenerated == if key in regenerate then before[key := Get(shared, key)] else before
      ensures forall other :: other in regenerated ==> IsToken(regenerated[other])
    {
      hide IsPubliclyKnown, IsTrimmed, IsToken, TokenKey, MetadataKey;
      KeysDiffer();
      regenerated := before;
      if key in regenerate {
        Renew(key);
        TokenIsPlain(shared[key]);
        regenerated := regenerated[key := shared[key]];
      }
    }

    /** Puts a fresh value under each gateway token chosen for regeneration, in the file too. */
    method Regenerate()
      requires Valid() && IsTidy() && gatewayEnv.Some?
      modifies this`drawn, this`shared, this`gatewayEnv
      ensures Valid() && IsTidy() && (old(HasTokens()) ==> HasTokens()) && gatewayEnv.Some?
      ensures SharedBut(shared, old(shared), {TokenKey(), MetadataKey()})
      ensures SameBut(EnvOf(old(gatewayEnv.value)), EnvOf(gatewayEnv.value), {TokenKey(), MetadataKey()})
      ensures Regenerated(old(shared), EnvOf(old(gatewayEnv.value)), EnvOf(gatewayEnv.value), TokenKey())
      ensures Regenerated(old(shared), EnvOf(old(gatewayEnv.value)), EnvOf(gatewayEnv.value), MetadataKey())
    {
      hide EnvOf, UpdateEnv, IsPubliclyKnown, IsTrimmed, IsLine, IsToken, TokenKey, MetadataKey, AreLineValues;
      KeysDiffer();
      var regenerated := RenewChosen(TokenKey(), map[]);
      regenerated := RenewChosen(MetadataKey(), regenerated);
      ghost var before := EnvOf(gatewayEnv.value);
      if regenerated != map[] {
        TokensAreLines(regenerated);
        UpdateTokens(gatewayEnv.value, regenerated);
        gatewayEnv := Some(UpdateEnv(gatewayEnv.value, regenerated));
      }
      assert SameBut(before, EnvOf(gatewayEnv.value), regenerated.Keys);
      assert forall key :: key in regenerated <==> key in [TokenKey(), MetadataKey()] && key in regenerate;
    }

    /** Under `key`: a fresh token in the file and among the shared secrets if it was chosen, else no change. */
    ghost predicate Regenerated(had: Env, before: Env, after: Env, key: string)
      reads this
    {
      if key in regenerate then
        IsToken(Get(shared, key)) && (key in after ==> after[key] == Get(shared, key))
      else
        Get(shared, key) == Get(had, key) && Get(after, key) == Get(before, key)
    }

    /** The gateway's env file: taken over with its tokens when it is kept, else created from the sample. */
    method SetupGatewayEnv(sap: Env)
      requires Valid() && IsTidy() && AreLineValues(sap)
      modifies this`drawn, this`shared, this`gatewayEnv
      ensures Valid() && IsTidy() && (old(HasTokens()) ==> HasTokens()) && gatewayEnv.Some?
      ensures SharedBut(shared, old(shared), {TokenKey(), MetadataKey()})
      ensures KeepsGateway(old(gatewayEnv), force) ==>
        SameBut(EnvOf(old(gatewayEnv).value), EnvOf(gatewayEnv.value), {TokenKey(), MetadataKey()})
      ensures !KeepsGateway(old(gatewayEnv), force) ==>
        shared == old(shared) && gatewayEnv == Some(UpdateEnv(gatewaySample, GatewayUpdates(shared, sap)))
      ensures old(HasTokens()) && HasTokenLines(gatewaySample) ==> GatewayIsDone(old(gatewayEnv))
    {
      hide EnvOf, UpdateEnv, IsPubliclyKnown, IsTrimmed, IsLine, IsToken, TokenKey, MetadataKey;
      KeysDiffer();
      if gatewayEnv.Some? && !force {
        TakeOver();
        return;
      }
      var updates := GatewayUpdates(shared, sap);
      gatewayEnv := Some(UpdateEnv(gatewaySample, updates));
      CreatedHolds(gatewaySample, updates, TokenKey());
      CreatedHolds(gatewaySample, updates, MetadataKey());
    }

    method TakeOver()
      requires Valid() && IsTidy() && KeepsGateway(gatewayEnv, force)
      modifies this`drawn, this`shared, this`gatewayEnv
      ensures Valid() && IsTidy() && (old(HasTokens()) ==> HasTokens()) && gatewayEnv.Some?
      ensures SharedBut(shared, old(shared), {TokenKey(), MetadataKey()})
      ensures SameBut(EnvOf(old(gatewayEnv).value), EnvOf(gatewayEnv.value), {TokenKey(), MetadataKey()})
      ensures GatewayIsDone(old(gatewayEnv))
    {
      hide EnvOf, UpdateEnv, IsPubliclyKnown, IsTrimmed, IsLine, IsToken, TokenKey, MetadataKey;
      KeysDiffer();
      var existing := ParseEnvFile(gatewayEnv.value);
      ContentIsRead(gatewayEnv.value);
      TakeOverToken(existing);
      if Get(existing, MetadataKey()) != "" {
        shared := shared[MetadataKey() := existing[MetadataKey()]];
      }
      ghost var had, before := shared, EnvOf(gatewayEnv.value);
      Regenerate();
      RegeneratedHolds(had, before, EnvOf(gatewayEnv.value), TokenKey());
      RegeneratedHolds(had, before, EnvOf(gatewayEnv.value), MetadataKey());
    }

    lemma RegeneratedHolds(had: Env, before: Env, after: Env, key: string)
      requires Regenerated(had, before, after, key) && before.Keys == after.Keys
      requires Get(before, key) != "" ==> Get(before, key) == Get(had, key)
      ensures Get(after, key) != "" <==> Get(before, key) != "" || (key in before && key in regenerate)
      ensures AgreesOn(after, key)
      ensures !IsPubliclyKnown(Get(before, key)) ==> !IsPubliclyKnown(Get(after, key))
    {
      hide IsPubliclyKnown, IsToken;
      NothingIsPublic();
      if key in regenerate {
        TokenIsPlain(Get(shared, key));
      }
    }

    /** A master key of the admin: taken over when real, fresh when chosen for regeneration or missing. */
    method CarryOver(key: string, existing: Env)
      requires Valid() && IsRead(existing) && key in [SiemKey(), ConnectionKey()]
      modifies this`drawn, this`shared
      ensures Valid() && SharedBut(shared, old(shared), {key}) && Get(shared, key) != ""
      ensures IsCarriedOver(Get(old(shared), key), Get(existing, key), key)
    {
      hide IsToken, IsTrimmed, SiemKey, ConnectionKey;
      KeysDiffer();
      if key in regenerate {
        Renew(key);
        TokenIsPlain(shared[key]);
      } else if Get(existing, key) != "" && Get(existing, key) != Placeholder() {
        shared := shared[key := existing[key]];
      } else if Get(shared, key) == "" {
        Renew(key);
        TokenIsPlain(shared[key]);
      }
    }

    /** The shared secret under `key`, given the one shared before and the one in the admin's file. */
    ghost predicate IsCarriedOver(had: string, existing: string, key: string)
      reads this
    {
      var value := Get(shared, key);
      if key in regenerate then IsToken(value)
      else if IsReal(existing) then value == existing
      else if had != "" then value == had
      else IsToken(value)
    }

    /** Adds a connection key to a kept admin file that lacks one. A real key is never replaced. */
    method EnsureConnectionCredentialKey()
      requires Valid() && adminEnv.Some?
      modifies this`drawn, this`shared, this`adminEnv
      ensures Valid() && adminEnv.Some? && SharedBut(shared, old(shared), {ConnectionKey()})
      ensures var (before, after) := (EnvOf(old(adminEnv).value), EnvOf(adminEnv.value));
        if IsReal(Get(before, ConnectionKey())) then shared == old(shared) && adminEnv == old(adminEnv)
        else Get(shared, ConnectionKey()) != "" && after == before[ConnectionKey() := Trim(Get(shared, ConnectionKey()))]
    {
      hide EnvOf, UpdateEnv, IsToken, IsTrimmed, IsLine, Trim, ConnectionKey, UserKey, PasswordKey, AppendTo, KeyComment;
      KeysDiffer();
      var env := ParseEnvFile(adminEnv.value);
      var existing := Get(env, ConnectionKey());
      if existing != "" && existing != Placeholder() { return; }
      if Get(shared, ConnectionKey()) == "" {
        Renew(ConnectionKey());
        TokenIsPlain(shared[ConnectionKey()]);
      }
      var key := shared[ConnectionKey()];
      if existing == Placeholder() {
        PlaceholderIsSomething();
        UpdateOne(adminEnv.value, ConnectionKey(), key);
        adminEnv := Some(UpdateEnv(adminEnv.value, map[ConnectionKey() := key]));
      } else {
        ConnectionKeyIsClean();
        KeyCommentIsComment();
        AppendedSays(adminEnv.value, KeyComment(), ConnectionKey(), key);
        adminEnv := Some(AppendTo(adminEnv.value, KeyComment(), ConnectionKey(), key));
      }
    }

    predicate NeedsDbUpdate(db: DbConfig)
      reads this
    {
      db.user != "" || db.password != "" || Get(shared, UserKey()) != "" || Get(shared, PasswordKey()) != ""
    }

    /** The admin's env file: kept when there are no database credentials to write, else rewritten from the sample. */
    method SetupAdminEnv(db: DbConfig)
      requires Valid() && IsLine(db.user) && IsLine(db.password)
      modifies this`drawn, this`shared, this`adminEnv
      ensures Valid() && adminEnv.Some? && SharedBut(shared, old(shared), {SiemKey(), ConnectionKey()})
      ensures var rewrites := old(adminEnv).None? || force || db.user != "" || db.password != ""
                              || old(Get(shared, UserKey())) != "" || old(Get(shared, PasswordKey())) != "";
        if rewrites then
          && adminEnv.value == UpdateEnv(adminSample, AdminUpdates(shared, db))
          && IsCarriedOver(Get(old(shared), SiemKey()), Held(old(adminEnv), SiemKey()), SiemKey())
          && IsCarriedOver(Get(old(shared), ConnectionKey()), Held(old(adminEnv), ConnectionKey()), ConnectionKey())
        else
          AdminIsKept(EnvOf(old(adminEnv).value))
    {
      hide EnvOf, UpdateEnv, IsToken, IsTrimmed, IsLine, Trim, TokenKey, MetadataKey, AwsKey, SiemKey, ConnectionKey, UserKey,
           PasswordKey, AdminUpdates, IsPubliclyKnown, IsReal;
      KeysDiffer();
      if adminEnv.Some? && !force && !NeedsDbUpdate(db) {
        KeepAdmin();
        return;
      }
      var existing: Env := map[];
      if adminEnv.Some? {
        existing := ParseEnvFile(adminEnv.value);
        ContentIsRead(adminEnv.value);
      }
      CarryOver(SiemKey(), existing);
      CarryOver(ConnectionKey(), existing);
      adminEnv := Some(UpdateEnv(adminSample, AdminUpdates(shared, db)));
    }

    /** A kept admin file: a publicly known token is replaced by the shared one, a missing connection key added, and
        nothing else changed. */
    ghost predicate AdminIsKept(before: Env)
      reads this
    {
      && adminEnv.Some?
      && var env := EnvOf(adminEnv.value);
      && (forall key :: key in before && key !in [TokenKey(), ConnectionKey()] ==> key in env && env[key] == before[key])
      && Get(env, TokenKey())
         == (if IsPubliclyKnown(Get(before, TokenKey())) && Get(shared, TokenKey()) != "" then Trim(Get(shared, TokenKey()))
             else Get(before, TokenKey()))
      && Get(env, ConnectionKey())
         == if IsReal(Get(before, ConnectionKey())) then before[ConnectionKey()] else Trim(Get(shared, ConnectionKey()))
    }

    method KeepAdmin()
      requires Valid() && adminEnv.Some?
      modifies this`drawn, this`shared, this`adminEnv
      ensures Valid() && SharedBut(shared, old(shared), {ConnectionKey()})
      ensures AdminIsKept(EnvOf(old(adminEnv).value))
    {
      hide EnvOf, UpdateEnv, IsToken, IsTrimmed, IsLine, Trim, TokenKey, ConnectionKey, UserKey, PasswordKey, IsPubliclyKnown, IsReal;
      KeysDiffer();
      var env := ParseEnvFile(adminEnv.value);
      ghost var before := env;
      ContentIsRead(adminEnv.value);
      PlaceholderIsSomething();
      if IsPubliclyKnown(Get(env, TokenKey())) && Get(shared, TokenKey()) != "" {
        PublicIsSomething(Get(env, TokenKey()));
        UpdateOne(adminEnv.value, TokenKey(), shared[TokenKey()]);
        adminEnv := Some(UpdateEnv(adminEnv.value, map[TokenKey() := shared[TokenKey()]]));
      }
      EnsureConnectionCredentialKey();
    }

    /** A fresh value under each of `keys`. */
    method RenewAll(keys: seq<string>)
      requires Valid() && "" !in keys
      modifies this`drawn, this`shared
      ensures Valid() && forall key :: key !in keys ==> Get(shared, key) == Get(old(shared), key)
      ensures forall key :: key in keys ==> IsToken(Get(shared, key))
    {
      hide IsToken, AreLineValues;
      var i := 0;
      while i < |keys|
        invariant 0 <= i <= |keys| && Valid()
        invariant forall key :: key !in keys ==> Get(shared, key) == Get(old(shared), key)
        invariant forall k :: 0 <= k < i ==> IsToken(Get(shared, keys[k]))
      {
        Renew(keys[i]);
        i := i + 1;
      }
    }

    /** Generates the shared secrets, unless there are some already. */
    method GenerateShared()
      requires Valid() && IsTidy()
      modifies this`drawn, this`shared
      ensures Valid() && IsTidy()
      ensures if old(Get(shared, TokenKey())) != "" then shared == old(shared)
              else HasTokens() && Get(shared, PasswordKey()) != ""
                   && (forall key :: key in GeneratedKeys() ==> IsToken(Get(shared, key)))
                   && (forall key :: key !in GeneratedKeys() ==> Get(shared, key) == Get(old(shared), key))
    {
      hide IsToken, IsTrimmed, TokenKey, MetadataKey, AwsKey, SiemKey, ConnectionKey, UserKey, PasswordKey, ClientSecretKey,
           CookieSecretKey, IsPubliclyKnown, IsPlainKey, AreLineValues;
      KeysDiffer();
      if Get(shared, TokenKey()) == "" {
        var keys := GeneratedKeys();
        RenewAll(keys);
        assert TokenKey() == keys[0] && MetadataKey() == keys[1] && PasswordKey() == keys[5];
        TokenIsPlain(Get(shared, TokenKey()));
        TokenIsPlain(Get(shared, MetadataKey()));
        TokenIsPlain(Get(shared, PasswordKey()));
      }
    }

    /** Keeps the generated values of the current configuration that were not chosen for regeneration. */
    method KeepCurrent()
      requires Valid()
      modifies this`shared
      ensures Valid()
      ensures forall key :: key !in KeptKeys() && key != RuntimeUserKey() ==> Get(shared, key) == Get(old(shared), key)
      ensures forall key :: key in KeptKeys() && Get(current, key) != "" && key !in regenerate ==> Get(shared, key) == current[key]
    {
      hide KeptKeys, RuntimePasswordKey, RuntimeUserKey, IsToken, IsLine;
      KeptKeysAreOthers();
      var keys := KeptKeys();
      var i := 0;
      while i < |keys|
        invariant 0 <= i <= |keys| && Valid()
        invariant forall key :: key !in keys && key != RuntimeUserKey() ==> Get(shared, key) == Get(old(shared), key)
        invariant forall k :: 0 <= k < i && Get(current, keys[k]) != "" && keys[k] !in regenerate ==>
          Get(shared, keys[k]) == current[keys[k]]
      {
        var key := keys[i];
        if Get(current, key) != "" && key !in regenerate {
          shared := shared[key := current[key]];
          if key == RuntimePasswordKey() {
            RuntimeUserIsLine();
            shared := shared[RuntimeUserKey() := RuntimeUser()];
          }
        }
        i := i + 1;
      }
    }

    /** Takes the database credentials over, and generates a file-search password if there is none. */
    method ShareDatabase(db: DbConfig)
      requires Valid() && IsLine(db.user) && IsLine(db.password)
      modifies this`drawn, this`shared
      ensures Valid() && SharedBut(shared, old(shared), {UserKey(), PasswordKey(), RuntimeUserKey(), RuntimePasswordKey()})
      ensures Get(shared, UserKey()) == if db.user != "" then db.user else old(Get(shared, UserKey()))
      ensures Get(shared, PasswordKey()) == if db.password != "" then db.password else old(Get(shared, PasswordKey()))
      ensures if old(Get(shared, RuntimePasswordKey())) != "" then
                Get(shared, RuntimePasswordKey()) == old(Get(shared, RuntimePasswordKey()))
              else
                IsToken(Get(shared, RuntimePasswordKey())) && Get(shared, RuntimeUserKey()) == RuntimeUser()
    {
      hide RuntimePasswordKey, RuntimeUserKey, IsToken, IsLine, UserKey, PasswordKey;
      KeysDiffer();
      if db.user != "" { shared := shared[UserKey() := db.user]; }
      if db.password != "" { shared := shared[PasswordKey() := db.password]; }
      if Get(shared, RuntimePasswordKey()) == "" {
        RuntimeUserIsLine();
        shared := shared[RuntimeUserKey() := RuntimeUser()];
        Renew(RuntimePasswordKey());
      }
    }

    /** Whether both files exist and hold the same two tokens. */
    method ValidateSharedTokens() returns (isValid: bool)
      ensures isValid <==> TokensMatch(gatewayEnv, adminEnv)
    {
      hide EnvOf, TokenKey, MetadataKey;
      if gatewayEnv.None? || adminEnv.None? { return false; }
      var gateway := ParseEnvFile(gatewayEnv.value);
      var admin := ParseEnvFile(adminEnv.value);
      isValid := true;
      if Get(gateway, TokenKey()) == "" || Get(admin, TokenKey()) == "" {
        isValid := false;
      } else if Get(gateway, TokenKey()) != Get(admin, TokenKey()) {
        isValid := false;
      }
      if Get(gateway, MetadataKey()) == "" || Get(admin, MetadataKey()) == "" {
        isValid := false;
      } else if Get(gateway, MetadataKey()) != Get(admin, MetadataKey()) {
        isValid := false;
      }
    }

    /** The prediction shown on the review screen, before anything is written. */
    method PredictTokenMismatch() returns (mismatch: bool)
      ensures mismatch <==> PredictsMismatch(gatewayEnv, force)
    {
      hide EnvOf, TokenKey, MetadataKey;
      if gatewayEnv.None? || force { return false; }
      var gateway := ParseEnvFile(gatewayEnv.value);
      mismatch := Get(gateway, TokenKey()) == "" || Get(gateway, MetadataKey()) == "";
    }

    /** The keys offered for regeneration. */
    method ExistingGeneratedKeys() returns (keys: seq<string>)
      ensures forall key :: key in keys <==> IsOffered(gatewayEnv, adminEnv, force, current, passwordReplaced, key)
    {
      hide TokenKey, MetadataKey, SiemKey, ConnectionKey, PasswordKey, KeptKeys, IsPubliclyKnown, IsReal, Held, KeepsGateway;
      var gateway := GatewayKeys();
      var admin := AdminKeys();
      var kept := KeptCandidates();
      keys := gateway + admin + kept;
      KeptKeysAreOthers();
    }

    /** The tokens a kept gateway file holds. */
    method GatewayKeys() returns (keys: seq<string>)
      ensures forall key :: key in keys <==>
        || (KeepsGateway(gatewayEnv, force) && key == TokenKey() && Held(gatewayEnv, key) != ""
            && !IsPubliclyKnown(Held(gatewayEnv, key)))
        || (KeepsGateway(gatewayEnv, force) && key == MetadataKey() && Held(gatewayEnv, key) != "")
    {
      hide EnvOf, TokenKey, MetadataKey, IsPubliclyKnown;
      keys := [];
      if gatewayEnv.Some? && !force {
        var gateway := ParseEnvFile(gatewayEnv.value);
        if Get(gateway, TokenKey()) != "" && !IsPubliclyKnown(Get(gateway, TokenKey())) { keys := keys + [TokenKey()]; }
        if Get(gateway, MetadataKey()) != "" { keys := keys + [MetadataKey()]; }
      }
    }

    /** The keys the admin file holds a real value for. */
    method AdminKeys() returns (keys: seq<string>)
      ensures forall key :: key in keys <==> adminEnv.Some? && key in [SiemKey(), ConnectionKey()] && IsReal(Held(adminEnv, key))
    {
      hide EnvOf, SiemKey, ConnectionKey;
      keys := [];
      if adminEnv.Some? {
        var admin := ParseEnvFile(adminEnv.value);
        if Get(admin, SiemKey()) != "" && Get(admin, SiemKey()) != Placeholder() { keys := keys + [SiemKey()]; }
        if Get(admin, ConnectionKey()) != "" && Get(admin, ConnectionKey()) != Placeholder() { keys := keys + [ConnectionKey()]; }
      }
    }

    /** The keys the current configuration holds a generated value for. */
    method KeptCandidates() returns (keys: seq<string>)
      ensures forall key :: key in keys <==>
        (key in KeptKeys() || (key == PasswordKey() && !passwordReplaced)) && Get(current, key) != ""
    {
      hide KeptKeys, PasswordKey;
      KeptKeysAreOthers();
      keys := [];
      var candidates := KeptKeys() + [PasswordKey()];
      var i := 0;
      while i < |candidates|
        invariant 0 <= i <= |candidates|
        invariant forall key :: key in keys <==>
          key in candidates[..i] && Get(current, key) != "" && (key == PasswordKey() ==> !passwordReplaced)
      {
        var key := candidates[i];
        if !(key == PasswordKey() && passwordReplaced) && Get(current, key) != "" { keys := keys + [key]; }
        i := i + 1;
      }
      assert candidates[..|candidates|] == candidates;
    }

    /** Writes both files. For an interactive run, which starts with no shared secrets, and samples with a line for each
        token: the check at the end passes exactly when `WillMatch` said so beforehand, no file is left with a publicly
        known token, and the admin's master keys survive unless they were chosen for regeneration. */
    method SetupServiceEnvFiles(sap: Env, db: DbConfig) returns (isValid: bool)
      requires Valid() && IsTidy() && AreLineValues(sap) && IsLine(db.user) && IsLine(db.password)
      modifies this`drawn, this`shared, this`gatewayEnv, this`adminEnv
      ensures Valid() && gatewayEnv.Some? && adminEnv.Some?
      ensures isValid <==> TokensMatch(gatewayEnv, adminEnv)
      ensures old(Get(shared, TokenKey())) == "" && HasTokenLines(gatewaySample) && HasTokenLines(adminSample) ==>
        && (isValid <==> WillMatch(old(gatewayEnv), force, regenerate))
        && !IsPubliclyKnown(Held(gatewayEnv, TokenKey())) && !IsPubliclyKnown(Held(adminEnv, TokenKey()))
      ensures old(Get(shared, TokenKey())) == "" ==>
        && MasterKeySurvives(old(adminEnv), SiemKey()) && MasterKeySurvives(old(adminEnv), ConnectionKey())
    {
      hide EnvOf, UpdateEnv, IsToken, IsTrimmed, IsLine, Trim, TokenKey, MetadataKey, AwsKey, SiemKey, ConnectionKey, UserKey,
           PasswordKey, RuntimeUserKey, RuntimePasswordKey, KeptKeys, IsPubliclyKnown, AdminUpdates, AdminIsKept, IsReal,
           AreLineValues, WillHold, MasterKeySurvives;
      KeysDiffer();
      KeptKeysAreOthers();
      ShareSecrets(db);
      ghost var had := shared;
      SetupGatewayEnv(sap);
      SetupAdminEnv(db);
      isValid := ValidateSharedTokens();
      if old(Get(shared, TokenKey())) == "" {
        assert adminEnv == Some(UpdateEnv(adminSample, AdminUpdates(shared, db)));
        if HasTokenLines(gatewaySample) && HasTokenLines(adminSample) {
          TokensReachAdmin(db);
          AdminFollows(old(gatewayEnv));
        }
        Survives(had, old(adminEnv), db, SiemKey());
        Survives(had, old(adminEnv), db, ConnectionKey());
      }
    }

    /** An interactive run: the review screen's prediction comes true exactly. */
    method ReviewAndWrite(sap: Env, db: DbConfig) returns (mismatch: bool, isValid: bool)
      requires Valid() && AreLineValues(sap) && IsLine(db.user) && IsLine(db.password)
      requires shared == map[] && HasTokenLines(gatewaySample) && HasTokenLines(adminSample)
      requires forall key :: key in regenerate ==> IsOffered(gatewayEnv, adminEnv, force, current, passwordReplaced, key)
      modifies this`drawn, this`shared, this`gatewayEnv, this`adminEnv
      ensures mismatch <==> !isValid
    {
      hide EnvOf, HasTokenLines, IsOffered, WillMatch, PredictsMismatch, TokenKey, MetadataKey, TokensMatch, AreLineValues,
           IsPubliclyKnown, MasterKeySurvives;
      NothingIsTrimmed();
      PredictionIsRightWhenOffered(gatewayEnv, adminEnv, force, current, passwordReplaced, regenerate);
      mismatch := PredictTokenMismatch();
      isValid := SetupServiceEnvFiles(sap, db);
    }

    /** Everything shared before the files are written. */
    method ShareSecrets(db: DbConfig)
      requires Valid() && IsTidy() && IsLine(db.user) && IsLine(db.password)
      modifies this`drawn, this`shared
      ensures Valid() && IsTidy()
      ensures old(Get(shared, TokenKey())) == "" ==>
        HasTokens() && NeedsDbUpdate(db) && IsToken(Get(shared, SiemKey())) && IsToken(Get(shared, ConnectionKey()))
    {
      hide IsToken, IsTrimmed, IsLine, TokenKey, MetadataKey, SiemKey, ConnectionKey, UserKey, PasswordKey, RuntimeUserKey,
           RuntimePasswordKey, KeptKeys, GeneratedKeys, IsPubliclyKnown, AreLineValues, IsPlainKey;
      KeysDiffer();
      KeptKeysAreOthers();
      MasterKeysAreGenerated();
      GenerateShared();
      KeepCurrent();
      ShareDatabase(db);
    }

    lemma TidyValues()
      requires IsTidy()
      ensures Trim(Get(shared, TokenKey())) == Get(shared, TokenKey())
      ensures Trim(Get(shared, MetadataKey())) == Get(shared, MetadataKey())
    {
      hide IsTrimmed, Trim, TokenKey, MetadataKey;
      TrimTrimmed(Get(shared, TokenKey()));
      TrimTrimmed(Get(shared, MetadataKey()));
    }

    /** An admin file with the shared tokens agrees with the gateway's wherever that holds them. */
    lemma TokensReachAdmin(db: DbConfig)
      requires adminEnv == Some(UpdateEnv(adminSample, AdminUpdates(shared, db))) && HasTokenLines(adminSample)
      requires HasTokens() && IsTidy() && AreLineValues(shared) && IsLine(db.user)
      ensures Held(adminEnv, TokenKey()) == Get(shared, TokenKey())
      ensures Held(adminEnv, MetadataKey()) == Get(shared, MetadataKey())
    {
      hide EnvOf, UpdateEnv, IsToken, IsTrimmed, Trim, AdminUpdates, IsLine, AreLineValues, TokenKey, MetadataKey, SiemKey,
           ConnectionKey, IsPubliclyKnown;
      AdminHolds(adminSample, shared, db, TokenKey());
      AdminHolds(adminSample, shared, db, MetadataKey());
      TidyValues();
    }

    lemma AdminFollows(before: Option<string>)
      requires GatewayIsDone(before) && HasTokens()
      requires Held(adminEnv, TokenKey()) == Get(shared, TokenKey())
      requires Held(adminEnv, MetadataKey()) == Get(shared, MetadataKey())
      ensures TokensMatch(gatewayEnv, adminEnv) <==> WillMatch(before, force, regenerate)
      ensures !IsPubliclyKnown(Held(gatewayEnv, TokenKey())) && !IsPubliclyKnown(Held(adminEnv, TokenKey()))
    {
      hide EnvOf, TokenKey, MetadataKey, IsPubliclyKnown, WillHold;
    }

    lemma Survives(had: Env, before: Option<string>, db: DbConfig, key: string)
      requires AreLineValues(shared) && IsLine(db.user) && key in [SiemKey(), ConnectionKey()]
      requires IsCarriedOver(Get(had, key), Held(before, key), key) && IsToken(Get(had, key))
      requires adminEnv == Some(UpdateEnv(adminSample, AdminUpdates(shared, db)))
      ensures MasterKeySurvives(before, key)
    {
      hide EnvOf, IsToken, IsTrimmed, Trim, AdminUpdates, UpdateEnv, Held, SiemKey, ConnectionKey, IsLine, AreLineValues;
      HeldIsTrimmed(before, key);
      if IsToken(Get(shared, key)) { TokenIsPlain(Get(shared, key)); }
      TokenIsPlain(Get(had, key));
      TrimTrimmed(Get(shared, key));
      if key in EnvOf(adminSample) { AdminHolds(adminSample, shared, db, key); }
    }

    /** The admin's file after the run holds the master key it held before, if that was real and not chosen for
        regeneration, else a generated one. */
    ghost predicate MasterKeySurvives(before: Option<string>, key: string)
      reads this
    {
      key in EnvOf(adminSample) ==>
        if IsReal(Held(before, key)) && key !in regenerate then Held(adminEnv, key) == Held(before, key)
        else IsToken(Held(adminEnv, key))
    }

    /** After the run: which tokens the gateway's file holds, that they are the shared ones, and that none is publicly
        known. */
    ghost predicate GatewayIsDone(before: Option<string>)
      reads this
    {
      && gatewayEnv.Some?
      && var env := EnvOf(gatewayEnv.value);
      && (Get(env, TokenKey()) != "" <==> WillHold(before, force, regenerate, TokenKey())) && AgreesOn(env, TokenKey())
      && (Get(env, MetadataKey()) != "" <==> WillHold(before, force, regenerate, MetadataKey())) && AgreesOn(env, MetadataKey())
      && !IsPubliclyKnown(Get(env, TokenKey()))
    }
  }

  /** Rewriting a file with one value. */
  lemma UpdateOne(content: string, key: string, value: string)
    requires IsPlainKey(key) && key !in [UserKey(), PasswordKey()] && IsLine(value)
    ensures var (before, after) := (EnvOf(content), EnvOf(UpdateEnv(content, map[key := value])));
      SameBut(before, after, {key}) && (key in after ==> after[key] == Trim(value))
  {
    hide EnvOf, UpdateEnv, IsLine, Updated, Trim, UserKey, PasswordKey;
    LineValuesSay(content, map[key := value]);
    forall other | other in EnvOf(content)
      ensures Updated(other, EnvOf(content)[other], map[key := value])
           == if other == key then Trim(value) else EnvOf(content)[other]
    {
      if other == key {
        PlainUpdate(key, EnvOf(content)[other], map[key := value]);
      } else {
        OtherUpdate(other, EnvOf(content)[other], map[key := value]);
      }
    }
  }

  predicate TokensMatch(gateway: Option<string>, admin: Option<string>)
  {
    && Held(gateway, TokenKey()) != "" && Held(gateway, TokenKey()) == Held(admin, TokenKey())
    && Held(gateway, MetadataKey()) != "" && Held(gateway, MetadataKey()) == Held(admin, MetadataKey())
  }

  /** What the rewritten admin file holds under a shared secret's key. */
  lemma AdminHolds(sample: string, shared: Env, db: DbConfig, key: string)
    requires AreLineValues(shared) && IsLine(db.user) && key in [TokenKey(), MetadataKey(), SiemKey(), ConnectionKey()]
    requires Get(shared, key) != "" && key in EnvOf(sample)
    ensures Held(Some(UpdateEnv(sample, AdminUpdates(shared, db))), key) == Trim(Get(shared, key))
  {
    hide EnvOf, UpdateEnv, Trim, IsLine, TokenKey, MetadataKey, AwsKey, SiemKey, ConnectionKey, UserKey, PasswordKey;
    KeysDiffer();
    CreatedHolds(sample, AdminUpdates(shared, db), key);
  }

  lemma HeldIsTrimmed(file: Option<string>, key: string)
    ensures IsTrimmed(Held(file, key))
  {
    hide EnvOf, IsTrimmed;
    if file.Some? { ContentIsRead(file.value); }
    NothingIsTrimmed();
  }

  lemma NothingIsTrimmed()
    ensures IsTrimmed("")
  {
  }

  function RuntimeUser(): (user: string) { "file_search_app" }

  lemma RuntimeUserIsLine()
    ensures IsLine(RuntimeUser()) && RuntimeUserKey() != ""
  {
  }

  function KeyComment(): (comment: string)
  {
    "# Master key for the Connection credentials" +
    " (added by setup-docker.js)"
  }

  lemma ConnectionKeyIsClean()
    ensures var key := ConnectionKey(); IsTrimmed(key) && key != "" && key[0] != '#' && '=' !in key && IsLine(key)
  {
  }

  lemma KeyCommentIsComment()
    ensures var comment := KeyComment(); comment != "" && comment[0] == '#' && IsLine(comment)
  {
  }

  lemma PlaceholderIsSomething()
    ensures Placeholder() != "" && forall value :: IsReal(value) <==> value != "" && value != Placeholder()
  {
  }

  /** A sample with a line for each of the two tokens. */
  predicate HasTokenLines(sample: string)
  {
    TokenKey() in EnvOf(sample) && MetadataKey() in EnvOf(sample)
  }

  lemma CreatedHolds(sample: string, updates: Env, key: string)
    requires AreLineValues(updates) && IsPlainKey(key)
    ensures key in EnvOf(sample) && key in updates ==> Get(EnvOf(UpdateEnv(sample, updates)), key) == Trim(updates[key])
    ensures IsTrimmed(Get(updates, key)) ==> Trim(Get(updates, key)) == Get(updates, key)
  {
    hide EnvOf, UpdateEnv, IsTrimmed, Updated, Trim, IsPlainKey, AreLineValues;
    LineValuesSay(sample, updates);
    if IsTrimmed(Get(updates, key)) { TrimTrimmed(Get(updates, key)); }
    if key in EnvOf(sample) { PlainUpdate(key, EnvOf(sample)[key], updates); }
  }

  lemma NothingIsPublic()
    ensures !IsPubliclyKnown("")
  {
  }

  /** The token of a kept gateway file: still missing if it was, and never a publicly known one. */
  predicate TookOver(existing: Env, env: Env)
  {
    && SameBut(existing, env, {TokenKey()})
    && (Get(env, TokenKey()) == "" <==> Get(existing, TokenKey()) == "")
    && !IsPubliclyKnown(Get(env, TokenKey()))
  }

  /** Rewriting a file with new tokens changes those where the file has their keys, and nothing else. */
  lemma UpdateTokens(content: string, updates: Env)
    requires updates.Keys <= {TokenKey(), MetadataKey()} && AreLineValues(updates)
    requires forall key :: key in updates ==> IsTrimmed(updates[key])
    ensures var (before, after) := (EnvOf(content), EnvOf(UpdateEnv(content, updates)));
      SameBut(before, after, updates.Keys) && forall key :: key in updates && key in after ==> after[key] == updates[key]
  {
    hide EnvOf, UpdateEnv, IsTrimmed, IsLine, Updated, Trim, UserKey, PasswordKey, TokenKey, MetadataKey;
    KeysDiffer();
    LineValuesSay(content, updates);
    forall key | key in EnvOf(content)
      ensures Updated(key, EnvOf(content)[key], updates) == if key in updates then updates[key] else EnvOf(content)[key]
    {
      if key in updates {
        PlainUpdate(key, EnvOf(content)[key], updates);
        TrimTrimmed(updates[key]);
      } else {
        OtherUpdate(key, EnvOf(content)[key], updates);
      }
    }
  }

  lemma TokensAreLines(updates: Env)
    requires updates.Keys <= {TokenKey(), MetadataKey()} && forall key :: key in updates ==> IsToken(updates[key])
    ensures AreLineValues(updates) && forall key :: key in updates ==> IsTrimmed(updates[key])
  {
    hide IsToken, IsTrimmed, IsLine, TokenKey, MetadataKey;
    KeysDiffer();
    forall key | key in updates ensures IsLine(updates[key]) && IsTrimmed(updates[key]) { TokenIsPlain(updates[key]); }
  }

  lemma PublicIsSomething(secret: string)
    requires IsPubliclyKnown(secret)
    ensures secret != "" && !IsPubliclyKnown("")
  {
  }
}
