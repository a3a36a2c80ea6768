/** What the start-up check reports when one thing is wrong with an environment it accepts. */
module SecurityBreaches {
  import opened Options
  import opened SecurityPolicy

  /** A change that brings in the fault. */
  function Change(fault: Fault): map<Variable, string> {
    match fault
    case MasterOtpSet => map[MasterOtp := "x"]
    case UnknownVerificationMode => map[SecurityVerificationMode := "junk"]
    case ClientOtpNotForced => map[ClientOtpEnabled := "", ForceClientOtp := "", ForceOtp := ""]
    case OtpDisabledWithoutReason => map[ClientOtpEnabled := "false", ClientOtpDisabledReason := ""]
    case VerificationNotRequired => map[SecurityVerificationMode := "optional"]
    case CookieNotSecure => map[SecureCookie := ""]
    case TransactionsNotRequired => map[MongoTransactionsRequired := ""]
    case TenantIsolationNotRequired => map[TenantIsolationRequired := ""]
    case UnknownTenantMode => map[TenantMode := "junk"]
    case NoDefaultTenant => map[DefaultTenantId := "", DefaultTenantSlug := ""]
    case NoTenantRoot => map[TenantMode := "multi", TenantRootDomain := ""]
    case LegacyRecordsAllowed => map[AllowLegacyTenantlessRecords := "true"]
    case LegacyTokensAllowed => map[AllowLegacyTenantTokens := "true"]
    case SessionsInMemory => map[SessionStore := "memory"]
    case MonitorPublic => map[AllowPublicSystemMonitor := "true"]
    case NoDatabase => map[MongoUri := "demo"]
    case AppUrlNotHttps => map[PublicAppUrl := "http"]
    case RedisNotRequired => map[RedisRequired := ""]
    case RedisDisabled => map[RedisEnabled := "no"]
    case NoRedis => map[RedisUrl := "", RedisUri := ""]
  }

  /** The errors it brings: its own, and with an unknown mode also that verification is not required. */
  function Errors(fault: Fault): set<Violation> {
    if fault == UnknownVerificationMode then {Misconfigured(fault), Misconfigured(VerificationNotRequired)}
    else {Misconfigured(fault)}
  }

  function Broken(env: Env, fault: Fault): Env {
    env + Change(fault)
  }

  function Place(fault: Fault): Group {
    match fault
    case MasterOtpSet | UnknownVerificationMode | ClientOtpNotForced | OtpDisabledWithoutReason | VerificationNotRequired => Verification
    case TenantIsolationNotRequired | UnknownTenantMode | NoDefaultTenant | NoTenantRoot => Tenancy
    case LegacyRecordsAllowed | LegacyTokensAllowed => Tenancy
    case RedisNotRequired | RedisDisabled | NoRedis => Redis
    case _ => Storage
  }

  lemma PlainWords()
    ensures Plain("x") && Plain("junk") && Plain("") && Plain("false") && Plain("optional") && Plain("multi")
  {
  }

  lemma MorePlainWords()
    ensures Plain("true") && Plain("memory") && Plain("demo") && Plain("http") && Plain("no")
  {
  }

  lemma ChangesArePlain(fault: Fault, name: Variable)
    requires name in Change(fault)
    ensures Plain(Change(fault)[name])
  {
    hide Plain;
    PlainWords();
    MorePlainWords();
  }

  /** What the changed environment reads: the new values, and everything else as before. */
  lemma BrokenReads(env: Env, fault: Fault)
    ensures forall name :: Clean(Broken(env, fault), name) == if name in Change(fault) then Change(fault)[name] else Clean(env, name)
    ensures forall name :: Word(Broken(env, fault), name) == if name in Change(fault) then Change(fault)[name] else Word(env, name)
  {
    hide Change, Trim, Lower, Plain;
    forall name
      ensures Clean(Broken(env, fault), name) == if name in Change(fault) then Change(fault)[name] else Clean(env, name)
      ensures Word(Broken(env, fault), name) == if name in Change(fault) then Change(fault)[name] else Word(env, name)
    {
      if name in Change(fault) {
        ChangesArePlain(fault, name);
        PlainReads(Change(fault)[name]);
      }
    }
  }

  // ---------- each group of checks ----------

  /** A change touches only variables of its own group. */
  ghost predicate OwnVariables(fault: Fault) {
    forall name :: name in Change(fault) ==>
      GroupOf(name) == Place(fault) || (fault == TransactionsNotRequired && name == MongoTransactionsRequired)
  }

  lemma VerificationVariables(fault: Fault)
    requires Place(fault) == Verification
    ensures OwnVariables(fault)
  {
  }

  lemma TenancyVariables(fault: Fault)
    requires fault in {TenantIsolationNotRequired, UnknownTenantMode, NoDefaultTenant}
    ensures OwnVariables(fault)
  {
  }

  lemma OtherTenancyVariables(fault: Fault)
    requires fault in {NoTenantRoot, LegacyRecordsAllowed, LegacyTokensAllowed}
    ensures OwnVariables(fault)
  {
  }

  lemma StorageVariables(fault: Fault)
    requires fault in {CookieNotSecure, TransactionsNotRequired, SessionsInMemory, MonitorPublic, NoDatabase, AppUrlNotHttps}
    ensures OwnVariables(fault)
  {
  }

  lemma RedisVariables(fault: Fault)
    requires Place(fault) == Redis
    ensures OwnVariables(fault)
  {
  }

  lemma ChangesItsOwn(fault: Fault)
    ensures OwnVariables(fault)
  {
    hide Change, OwnVariables;
    if Place(fault) == Verification {
      VerificationVariables(fault);
    } else if Place(fault) == Tenancy {
      if fault in {NoTenantRoot, LegacyRecordsAllowed, LegacyTokensAllowed} {
        OtherTenancyVariables(fault);
      } else {
        TenancyVariables(fault);
      }
    } else if Place(fault) == Redis {
      RedisVariables(fault);
    } else {
      StorageVariables(fault);
    }
  }

  lemma OtherVerification(env: Env, fault: Fault)
    requires VerificationAccepted(env) && Place(fault) != Verification
    ensures VerificationAccepted(Broken(env, fault))
  {
    hide Clean, Word, Broken, OneOf, VerificationAccepted, Change;
    BrokenReads(env, fault);
    ChangesItsOwn(fault);
    SameVerification(env, Broken(env, fault));
  }

  lemma OtherTenancy(env: Env, fault: Fault)
    requires TenancyAccepted(env) && Place(fault) != Tenancy
    ensures TenancyAccepted(Broken(env, fault))
  {
    hide Clean, Word, Broken, OneOf, TenancyAccepted, Change;
    BrokenReads(env, fault);
    ChangesItsOwn(fault);
    SameTenancy(env, Broken(env, fault));
  }

  lemma OtherStorage(env: Env, fault: Fault)
    requires StorageAccepted(env) && Place(fault) != Storage
    ensures StorageAccepted(Broken(env, fault))
  {
    hide Clean, Word, Broken, OneOf, StorageAccepted, Change;
    BrokenReads(env, fault);
    ChangesItsOwn(fault);
    SameStorage(env, Broken(env, fault));
  }

  lemma OtherRedis(env: Env, fault: Fault)
    requires RedisAccepted(env) && Place(fault) != Redis
    ensures RedisAccepted(Broken(env, fault))
  {
    hide Clean, Word, Broken, OneOf, RedisAccepted, Change;
    BrokenReads(env, fault);
    ChangesItsOwn(fault);
    SameRedis(env, Broken(env, fault));
  }

  lemma SecretsStay(env: Env, fault: Fault)
    requires SecretsAccepted(env)
    ensures SecretsAccepted(Broken(env, fault))
  {
    hide Clean, Word, Broken, SecretsAccepted, Change;
    BrokenReads(env, fault);
    ChangesItsOwn(fault);
    SameSecrets(env, Broken(env, fault));
  }

  lemma WindowsStay(env: Env, fault: Fault, now: int, parse: Parser)
    requires Accepted(env, now, parse)
    ensures forall window: Window ::
              WindowAccepted(Broken(env, fault), now, parse, window.EnabledKey(), window.ExpiresKey(), window.ReasonKey())
  {
    hide Clean, Broken, WindowAccepted, SecretsAccepted, VerificationAccepted, TenancyAccepted, StorageAccepted, RedisAccepted;
    BrokenReads(env, fault);
    KeysUnchanged(fault);
    SameWindows(env, Broken(env, fault), now, parse);
    forall window: Window
      ensures WindowAccepted(env, now, parse, window.EnabledKey(), window.ExpiresKey(), window.ReasonKey())
    {
      EveryWindow(window);
    }
  }

  lemma KeysUnchanged(fault: Fault)
    ensures forall window: Window ::
              window.EnabledKey() !in Change(fault) && window.ExpiresKey() !in Change(fault) && window.ReasonKey() !in Change(fault)
  {
    hide Change;
    ChangesItsOwn(fault);
  }

  lemma ModeBroken(env: Env, fault: Fault, other: Fault)
    requires VerificationAccepted(env) && Place(fault) == Verification
    requires other in {MasterOtpSet, UnknownVerificationMode, VerificationNotRequired}
    ensures HasFault(Broken(env, fault), other) <==> Misconfigured(other) in Errors(fault)
  {
    hide Clean, Word, Broken;
    BrokenReads(env, fault);
  }

  lemma ForcingBroken(env: Env, fault: Fault, other: Fault)
    requires VerificationAccepted(env) && other in {ClientOtpNotForced, OtpDisabledWithoutReason}
    requires fault in {ClientOtpNotForced, OtpDisabledWithoutReason}
    ensures HasFault(Broken(env, fault), other) <==> Misconfigured(other) in Errors(fault)
  {
    hide Clean, Word, Broken;
    BrokenReads(env, fault);
  }

  lemma ForcingKept(env: Env, fault: Fault, other: Fault)
    requires VerificationAccepted(env) && other in {ClientOtpNotForced, OtpDisabledWithoutReason}
    requires fault in {MasterOtpSet, UnknownVerificationMode, VerificationNotRequired}
    ensures !HasFault(Broken(env, fault), other)
  {
    hide Clean, Word, Broken;
    BrokenReads(env, fault);
  }

  lemma VerificationBroken(env: Env, fault: Fault, other: Fault)
    requires VerificationAccepted(env) && Place(fault) == Verification && Place(other) == Verification
    ensures HasFault(Broken(env, fault), other) <==> Misconfigured(other) in Errors(fault)
  {
    hide HasFault, VerificationAccepted, Broken, Change;
    if other in {ClientOtpNotForced, OtpDisabledWithoutReason} {
      if fault in {ClientOtpNotForced, OtpDisabledWithoutReason} {
        ForcingBroken(env, fault, other);
      } else {
        ForcingKept(env, fault, other);
      }
    } else {
      ModeBroken(env, fault, other);
    }
  }

  lemma FlagsStayOff(env: Env, fault: Fault, flag: Variable)
    requires VerificationAccepted(env) && flag in FORBIDDEN_FLAGS
    ensures !Enabled(Broken(env, fault), flag)
  {
    hide Clean, Word, Broken, VerificationAccepted, HasFault;
    BrokenReads(env, fault);
    VerificationFaultless(env);
    assert flag !in Change(fault);
  }

  lemma TenantModeBroken(env: Env, fault: Fault, other: Fault)
    requires TenancyAccepted(env) && Place(fault) == Tenancy && other in {UnknownTenantMode, NoTenantRoot}
    ensures HasFault(Broken(env, fault), other) <==> Misconfigured(other) in Errors(fault)
  {
    hide Clean, Word, Broken;
    BrokenReads(env, fault);
  }

  lemma TenancyRestBroken(env: Env, fault: Fault, other: Fault)
    requires TenancyAccepted(env) && Place(fault) == Tenancy
    requires other in {TenantIsolationNotRequired, NoDefaultTenant, LegacyRecordsAllowed, LegacyTokensAllowed}
    ensures HasFault(Broken(env, fault), other) <==> Misconfigured(other) in Errors(fault)
  {
    hide Clean, Word, Broken;
    BrokenReads(env, fault);
  }

  lemma TenancyBroken(env: Env, fault: Fault, other: Fault)
    requires TenancyAccepted(env) && Place(fault) == Tenancy && Place(other) == Tenancy
    ensures HasFault(Broken(env, fault), other) <==> Misconfigured(other) in Errors(fault)
  {
    hide HasFault, TenancyAccepted, Broken, Change;
    if other in {UnknownTenantMode, NoTenantRoot} {
      TenantModeBroken(env, fault, other);
    } else {
      TenancyRestBroken(env, fault, other);
    }
  }

  lemma StorageBroken(env: Env, fault: Fault, other: Fault)
    requires StorageAccepted(env) && Place(fault) == Storage && Place(other) == Storage
    ensures HasFault(Broken(env, fault), other) <==> Misconfigured(other) in Errors(fault)
  {
    hide Clean, Word, Broken;
    BrokenReads(env, fault);
    BlankWord(env, MongoUri);
  }

  lemma RedisBroken(env: Env, fault: Fault, other: Fault)
    requires RedisAccepted(env) && Place(fault) == Redis && Place(other) == Redis
    ensures HasFault(Broken(env, fault), other) <==> Misconfigured(other) in Errors(fault)
  {
    hide Clean, Word, Broken;
    BrokenReads(env, fault);
  }

  lemma FaultsAfterChange(env: Env, fault: Fault, other: Fault)
    requires VerificationAccepted(env) && TenancyAccepted(env) && StorageAccepted(env) && RedisAccepted(env)
    ensures HasFault(Broken(env, fault), other) <==> Misconfigured(other) in Errors(fault)
  {
    hide HasFault, VerificationAccepted, TenancyAccepted, StorageAccepted, RedisAccepted, Broken, Change;
    if Place(other) == Verification {
      if Place(fault) == Verification {
        VerificationBroken(env, fault, other);
      } else {
        OtherVerification(env, fault);
        VerificationFaultless(Broken(env, fault));
      }
    } else if Place(other) == Tenancy {
      if Place(fault) == Tenancy {
        TenancyBroken(env, fault, other);
      } else {
        OtherTenancy(env, fault);
        TenancyFaultless(Broken(env, fault));
      }
    } else if Place(other) == Redis {
      if Place(fault) == Redis {
        RedisBroken(env, fault, other);
      } else {
        OtherRedis(env, fault);
        RedisFaultless(Broken(env, fault));
      }
    } else if Place(fault) == Storage {
      StorageBroken(env, fault, other);
    } else {
      OtherStorage(env, fault);
      StorageFaultless(Broken(env, fault));
    }
  }

  /** For every accepted environment and every single check there is a change that is reported with exactly that check's error. */
  lemma EachBreachIsNamed(env: Env, now: int, parse: Parser, fault: Fault, v: Violation)
    requires Accepted(env, now, parse)
    ensures Violates(Broken(env, fault), now, parse, v) <==> v in Errors(fault)
  {
    hide HasFault, Enabled, Broken, Change, WindowViolates, LongOnes, SharedAmong, LongSecret;
    hide SecretsAccepted, VerificationAccepted, TenancyAccepted, StorageAccepted, RedisAccepted, WindowAccepted;
    var broken := Broken(env, fault);
    SecretsStay(env, fault);
    WindowsStay(env, fault, now, parse);
    match v {
      case Misconfigured(other) => FaultsAfterChange(env, fault, other);
      case FlagEnabled(flag) =>
        if flag in FORBIDDEN_FLAGS {
          FlagsStayOff(env, fault, flag);
        }
      case ShortSecret(_) => SecretsAcceptedExactly(broken, now, parse);
      case SharedSecret(_, _) => SecretsAcceptedExactly(broken, now, parse);
      case _ => WindowFaultless(broken, now, parse, v.window);
    }
  }

  lemma ModeReads(env: Env, mode: string)
    requires Plain(mode)
    ensures Word(env[SecurityVerificationMode := mode], SecurityVerificationMode) == mode
    ensures forall name :: name != SecurityVerificationMode ==>
              Clean(env[SecurityVerificationMode := mode], name) == Clean(env, name)
              && Word(env[SecurityVerificationMode := mode], name) == Word(env, name)
  {
    hide Trim, Lower, Plain;
    PlainReads(mode);
  }

  /** An optional or absent mode is not unknown: the error is that verification is not required. */
  lemma OptionalModeIsNamed(env: Env, mode: string, fault: Fault)
    requires VerificationAccepted(env) && Place(fault) == Verification && mode in ["", "optional"]
    ensures HasFault(env[SecurityVerificationMode := mode], fault) <==> fault == VerificationNotRequired
  {
    hide Clean, Word, Plain, Enabled, VerificationRequired, ClientOtpDisabled, VerificationAccepted;
    PlainWords();
    ModeReads(env, mode);
    NothingRequired(env, mode);
    VerificationFaultless(env);
  }

  lemma NothingRequired(env: Env, mode: string)
    requires mode in ["", "optional"]
    ensures !VerificationRequired(env[SecurityVerificationMode := mode])
  {
    hide Clean, Word, Plain, Enabled;
    PlainWords();
    ModeReads(env, mode);
  }

  // ---------- flags and secrets ----------

  lemma FlagReads(env: Env, flag: Variable)
    ensures Word(env[flag := "true"], flag) == "true"
    ensures forall name :: name != flag ==>
              Clean(env[flag := "true"], name) == Clean(env, name) && Word(env[flag := "true"], name) == Word(env, name)
  {
    hide Trim, Lower, Plain;
    MorePlainWords();
    PlainReads("true");
  }

  lemma FlagSwitches(env: Env, flag: Variable)
    requires flag in FORBIDDEN_FLAGS
    ensures forall name :: name != flag ==> Enabled(env[flag := "true"], name) == Enabled(env, name)
    ensures VerificationRequired(env[flag := "true"]) == VerificationRequired(env)
    ensures ClientOtpDisabled(env[flag := "true"]) == ClientOtpDisabled(env)
  {
    hide Clean, Word;
    FlagReads(env, flag);
  }

  lemma FlagLeavesFaults(env: Env, flag: Variable, fault: Fault)
    requires flag in FORBIDDEN_FLAGS && Place(fault) == Verification && VerificationAccepted(env)
    ensures !HasFault(env[flag := "true"], fault)
  {
    hide Clean, Word, Enabled, VerificationRequired, ClientOtpDisabled, VerificationAccepted;
    FlagReads(env, flag);
    FlagSwitches(env, flag);
    VerificationFaultless(env);
  }

  lemma FlagLeavesGroups(env: Env, flag: Variable, now: int, parse: Parser)
    requires Accepted(env, now, parse) && flag in FORBIDDEN_FLAGS
    ensures var flagged := env[flag := "true"];
            && SecretsAccepted(flagged) && TenancyAccepted(flagged) && StorageAccepted(flagged) && RedisAccepted(flagged)
            && forall window: Window ::
                 WindowAccepted(flagged, now, parse, window.EnabledKey(), window.ExpiresKey(), window.ReasonKey())
  {
    hide Clean, Word, WindowAccepted, SecretsAccepted, VerificationAccepted, TenancyAccepted, StorageAccepted, RedisAccepted;
    var flagged := env[flag := "true"];
    FlagReads(env, flag);
    ForcingGroup();
    assert GroupOf(flag) == Verification && flag != MongoTransactionsRequired;
    hide GroupOf;
    SameSecrets(env, flagged);
    SameTenancy(env, flagged);
    SameStorage(env, flagged);
    SameRedis(env, flagged);
    SameWindows(env, flagged, now, parse);
    forall window: Window
      ensures WindowAccepted(env, now, parse, window.EnabledKey(), window.ExpiresKey(), window.ReasonKey())
    {
      EveryWindow(window);
    }
  }

  /** Turning on a forbidden flag in an accepted environment is reported, and nothing else is. */
  lemma EachFlagIsNamed(env: Env, now: int, parse: Parser, flag: Variable, v: Violation)
    requires Accepted(env, now, parse) && flag in FORBIDDEN_FLAGS
    ensures Violates(env[flag := "true"], now, parse, v) <==> v == FlagEnabled(flag)
  {
    hide HasFault, WindowViolates, LongOnes, SharedAmong, LongSecret, Clean, Word;
    hide SecretsAccepted, VerificationAccepted, TenancyAccepted, StorageAccepted, RedisAccepted, WindowAccepted;
    var flagged := env[flag := "true"];
    FlagReads(env, flag);
    FlagLeavesGroups(env, flag, now, parse);
    VerificationFaultless(env);
    match v {
      case Misconfigured(fault) =>
        if Place(fault) == Verification {
          FlagLeavesFaults(env, flag, fault);
        } else {
          TenancyFaultless(flagged);
          StorageFaultless(flagged);
          RedisFaultless(flagged);
        }
      case FlagEnabled(_) =>
      case ShortSecret(_) => SecretsAcceptedExactly(flagged, now, parse);
      case SharedSecret(_, _) => SecretsAcceptedExactly(flagged, now, parse);
      case _ => WindowFaultless(flagged, now, parse, v.window);
    }
  }

  lemma {:induction false} LongOnesAreDistinct(env: Env, names: seq<Variable>)
    requires forall i, j :: 0 <= i < j < |names| ==> names[i] != names[j]
    ensures var long := LongOnes(env, names);
            && (forall x :: x in long ==> x in names && LongSecret(env, x))
            && (forall i, j :: 0 <= i < j < |long| ==> long[i] != long[j])
  {
    hide LongSecret;
    if names != [] {
      var most, last := names[..|names| - 1], names[|names| - 1];
      LongOnesAreDistinct(env, most);
      var rest := LongOnes(env, most);
      assert forall x :: x in most ==> x in names && x != last;
      forall i | 0 <= i < |rest|
        ensures rest[i] in most && rest[i] != last
      {
        assert rest[i] in rest;
      }
    }
  }

  lemma BlankedReads(env: Env, secret: Variable)
    ensures Clean(env[secret := ""], secret) == ""
    ensures forall name :: name != secret ==> Clean(env[secret := ""], name) == Clean(env, name)
  {
    hide Trim;
    assert Trim("") == "" by { BlankTrims(); }
  }

  lemma DifferentSecrets(env: Env, x: Variable, y: Variable)
    requires SecretsAccepted(env) && x in SECRETS && y in SECRETS && x != y
    ensures Clean(env, x) != Clean(env, y)
  {
    hide Clean;
    var i :| 0 <= i < |SECRETS| && SECRETS[i] == x;
    var j :| 0 <= j < |SECRETS| && SECRETS[j] == y;
    assert i < j || j < i;
  }

  lemma BlankedIsNotShared(env: Env, secret: Variable, first: Variable, second: Variable)
    requires SecretsAccepted(env)
    ensures !SharedAmong(env[secret := ""], LongOnes(env[secret := ""], SECRETS), first, second)
  {
    hide Clean, LongOnes, SecretsAccepted;
    var blanked := env[secret := ""];
    BlankedReads(env, secret);
    LongOnesAreDistinct(blanked, SECRETS);
    var long := LongOnes(blanked, SECRETS);
    forall l, r | 0 <= l < r < |long|
      ensures Clean(blanked, long[l]) != Clean(blanked, long[r])
    {
      assert long[l] in long && long[r] in long;
      DifferentSecrets(env, long[l], long[r]);
    }
  }

  /** Blanking a secret in an accepted environment is reported as short, and not as shared with another. */
  lemma BlankSecretIsNamed(env: Env, now: int, parse: Parser, secret: Variable, v: Violation)
    requires SecretsAccepted(env) && secret in SECRETS && (v.ShortSecret? || v.SharedSecret?)
    ensures Violates(env[secret := ""], now, parse, v) <==> v == ShortSecret(secret)
  {
    hide Clean, LongOnes, SharedAmong;
    BlankedReads(env, secret);
    match v {
      case ShortSecret(_) =>
      case SharedSecret(first, second) => BlankedIsNotShared(env, secret, first, second);
    }
  }

  lemma BlankTrims()
    ensures Trim("") == ""
  {
  }

  // ---------- an environment that passes ----------

  /** A production environment, variable by variable. */
  function Sample(name: Variable): string {
    match name
    case NodeEnv => "production"
    case JwtSecret => seq(32, _ => 'a')
    case JwtRefreshSecret => seq(32, _ => 'b')
    case SessionSecret => seq(32, _ => 'c')
    case OtpSecret => seq(32, _ => 'd')
    case PasswordOnlyLoginMode => "false"
    case SecurityVerificationEnforcementEnabled => "true"
    case SecurityVerificationMode => "required"
    case ForceClientOtp => "true"
    case SecureCookie => "true"
    case MongoTransactionsRequired => "true"
    case TenantIsolationRequired => "true"
    case TenantMode => "single"
    case DefaultTenantSlug => "main"
    case MongoUri => "db"
    case RedisRequired => "true"
    case RedisUrl => "redis"
    case _ => ""
  }

  predicate IsSample(env: Env) {
    forall name :: name in env && env[name] == Sample(name)
  }

  lemma SampleExists() returns (env: Env)
    ensures IsSample(env)
  {
    env := map name: Variable | true :: Sample(name);
  }

  lemma SampleSecretIsPlain(name: Variable)
    requires name in SECRETS
    ensures Plain(Sample(name))
  {
  }

  lemma SampleWordIsPlain(name: Variable)
    requires name !in SECRETS
    ensures Plain(Sample(name))
  {
    hide Plain;
    PlainWords();
    MorePlainWords();
    SamplePlainWords();
  }

  lemma SamplePlainWords()
    ensures Plain("production") && Plain("required") && Plain("single") && Plain("main") && Plain("db") && Plain("redis")
  {
  }

  lemma SampleReads(env: Env)
    requires IsSample(env)
    ensures forall name :: Clean(env, name) == Sample(name) == Word(env, name)
  {
    hide Sample, Trim, Lower, Plain;
    forall name
      ensures Clean(env, name) == Sample(name) == Word(env, name)
    {
      if name in SECRETS {
        SampleSecretIsPlain(name);
      } else {
        SampleWordIsPlain(name);
      }
      PlainReads(Sample(name));
    }
  }

  lemma SampleWords()
    ensures OneOf("true", YES) && OneOf("false", ["false"]) && OneOf("required", ["required"])
    ensures OneOf("single", ["single", "multi"]) && !OneOf("single", ["multi"])
    ensures !OneOf("", YES) && !OneOf("", NO) && !OneOf("", ["false"]) && !OneOf("", ["memory"]) && !OneOf("db", ["demo"])
  {
  }

  lemma SampleVerification(env: Env)
    requires IsSample(env)
    ensures VerificationAccepted(env) && Production(env)
  {
    hide Clean, Word, OneOf;
    SampleReads(env);
    SampleWords();
  }

  lemma SampleTenancy(env: Env)
    requires IsSample(env)
    ensures TenancyAccepted(env)
  {
    hide Clean, Word, OneOf;
    SampleReads(env);
    SampleWords();
  }

  lemma SampleRedis(env: Env)
    requires IsSample(env)
    ensures RedisAccepted(env)
  {
    hide Clean, Word, OneOf;
    SampleReads(env);
    SampleWords();
  }

  lemma SampleStorage(env: Env)
    requires IsSample(env)
    ensures StorageAccepted(env)
  {
    hide Clean, Word, OneOf;
    SampleReads(env);
    SampleWords();
  }

  /** The sample passes, whatever the time. */
  lemma SampleIsAccepted(env: Env, now: int, parse: Parser)
    requires IsSample(env)
    ensures Production(env) && Accepted(env, now, parse)
  {
    hide Clean, Word, OneOf, Production, VerificationAccepted, TenancyAccepted, StorageAccepted, RedisAccepted, IsSample;
    SampleReads(env);
    SampleWords();
    SampleVerification(env);
    SampleTenancy(env);
    SampleRedis(env);
    SampleStorage(env);
    SampleSecrets();
  }

  lemma SampleSecrets()
    ensures forall i :: 0 <= i < |SECRETS| ==> |Sample(SECRETS[i])| == 32
    ensures forall i, j :: 0 <= i < j < |SECRETS| ==> Sample(SECRETS[i])[0] != Sample(SECRETS[j])[0]
  {
  }
}
