/**
 The production security policy over environment variables: what the start-up check
 refuses, and when the login skips the client's one-time password.
 */
module SecurityPolicy {
  import opened Options

  /** The environment variables the policy reads, under their own names in camel case. */
  datatype Variable =
    | JwtSecret | JwtRefreshSecret | SessionSecret | OtpSecret | BypassOtp | BypassClientOtp | DisableOtp | NodeEnv
    | ClientOtpEnabled | PasswordOnlyLoginMode | SecurityVerificationEnforcementEnabled | SecurityVerificationMode
    | EmergencyClientOtpBypass | EmergencyDeviceBindingBypass | EmergencyStandaloneFinancialWrites
    | EmergencyClientOtpBypassExpiresAt | EmergencyDeviceBindingBypassExpiresAt
    | EmergencyStandaloneFinancialWritesExpiresAt | EmergencyClientOtpBypassReason
    | EmergencyDeviceBindingBypassReason | EmergencyStandaloneFinancialWritesReason | ForceClientOtp | ForceOtp
    | MongoUri | MasterOtp | ClientOtpDisabledReason | SecureCookie | MongoTransactionsRequired
    | TenantIsolationRequired | TenantMode | DefaultTenantId | DefaultTenantSlug | TenantRootDomain
    | AllowLegacyTenantlessRecords | AllowLegacyTenantTokens | SessionStore | AllowPublicSystemMonitor
    | PublicAppUrl | RedisRequired | RedisEnabled | RedisUrl | RedisUri

  type Env = map<Variable, string>

  /** `Date.parse`; NaN is `None`. */
  type Parser = string -> Option<int>

  const MAX_WINDOW := 24 * 60 * 60 * 1000
  const SECRETS := [JwtSecret, JwtRefreshSecret, SessionSecret, OtpSecret]
  const FORBIDDEN_FLAGS := [BypassOtp, BypassClientOtp, DisableOtp]

  predicate IsSpace(c: char) {
    '\U{0009}' <= c <= '\U{000D}' || c == ' ' || c == '\U{00A0}' || c == '\U{1680}' || '\U{2000}' <= c <= '\U{200A}'
    || c in ['\U{2028}', '\U{2029}', '\U{202F}', '\U{205F}', '\U{3000}', '\U{FEFF}']
  }

  /** The 25 white-space and line-end characters of sections 12.2 and 12.3 of ECMA-262. */
  lemma SpacesExactly(c: char)
    ensures IsSpace(c) <==>
              c as int in [9, 10, 11, 12, 13, 32, 160, 5760, 8192, 8193, 8194, 8195, 8196, 8197, 8198, 8199, 8200, 8201,
                           8202, 8232, 8233, 8239, 8287, 12288, 65279]
  {}

  function Trim(s: string): (r: string)
    ensures |r| <= |s| && (r != "" ==> !IsSpace(r[0]) && !IsSpace(r[|r| - 1]))
  {
    if s == "" then s
    else if IsSpace(s[0]) then Trim(s[1..])
    else if IsSpace(s[|s| - 1]) then Trim(s[..|s| - 1])
    else s
  }

  /** Trimming takes only space off the two ends. */
  lemma {:induction false} TrimIsTheMiddle(s: string) returns (from: nat, to: nat)
    ensures from <= to <= |s| && Trim(s) == s[from..to]
    ensures forall i :: 0 <= i < from || to <= i < |s| ==> IsSpace(s[i])
  {
    hide IsSpace;
    if s == "" {
      from, to := 0, 0;
    } else if IsSpace(s[0]) {
      var f, t := TrimIsTheMiddle(s[1..]);
      from, to := f + 1, t + 1;
      assert s[from..to] == s[1..][f..t] by {
        assert s[1..][f..t] == s[1..][..t][f..] && s[from..to] == s[..to][from..];
        assert s[..to][1..] == s[1..][..t];
      }
      forall i | 1 <= i < from || to <= i < |s|
        ensures IsSpace(s[i])
      {
        assert s[i] == s[1..][i - 1];
      }
    } else if IsSpace(s[|s| - 1]) {
      from, to := TrimIsTheMiddle(s[..|s| - 1]);
      assert s[from..to] == s[..|s| - 1][from..to];
      forall i | 0 <= i < from || to <= i < |s| - 1
        ensures IsSpace(s[i])
      {
        assert s[i] == s[..|s| - 1][i];
      }
    } else {
      from, to := 0, |s|;
      assert s[from..to] == s;
    }
  }

  /** Lower case of the letters that occur in the words compared below. */
  function Lower(s: string): string {
    if s == "" then "" else [if 'A' <= s[0] <= 'Z' then s[0] - 'A' + 'a' else s[0]] + Lower(s[1..])
  }

  lemma {:induction false} LowerLetters(s: string)
    ensures |Lower(s)| == |s|
    ensures forall i :: 0 <= i < |s| && 'A' <= s[i] <= 'Z' ==> Lower(s)[i] as int == s[i] as int + 32
    ensures forall i :: 0 <= i < |s| && !('A' <= s[i] <= 'Z') ==> Lower(s)[i] == s[i]
  {
    if s != "" {
      LowerLetters(s[1..]);
      var rest := s[1..];
      forall i | 1 <= i < |s|
        ensures Lower(s)[i] == Lower(rest)[i - 1] && s[i] == rest[i - 1]
      {
      }
    }
  }

  function Clean(env: Env, name: Variable): string {
    if name in env then Trim(env[name]) else ""
  }

  function Word(env: Env, name: Variable): string {
    Lower(Clean(env, name))
  }

  predicate Enabled(env: Env, name: Variable) {
    Word(env, name) in ["1", "true", "yes", "on"]
  }

  predicate Disabled(env: Env, name: Variable) {
    Word(env, name) in ["0", "false", "no", "off"]
  }

  predicate Production(env: Env) {
    Word(env, NodeEnv) == "production"
  }

  predicate ClientOtpDisabled(env: Env) {
    Word(env, ClientOtpEnabled) == "false"
  }

  predicate VerificationRequired(env: Env) {
    && Word(env, PasswordOnlyLoginMode) == "false"
    && Enabled(env, SecurityVerificationEnforcementEnabled)
    && Word(env, SecurityVerificationMode) == "required"
  }

  /** The three time-limited emergency switches. */
  datatype Window = ClientOtpBypass | DeviceBindingBypass | StandaloneWrites
  {
    function EnabledKey(): Variable {
      match this
      case ClientOtpBypass => EmergencyClientOtpBypass
      case DeviceBindingBypass => EmergencyDeviceBindingBypass
      case StandaloneWrites => EmergencyStandaloneFinancialWrites
    }

    function ExpiresKey(): Variable {
      match this
      case ClientOtpBypass => EmergencyClientOtpBypassExpiresAt
      case DeviceBindingBypass => EmergencyDeviceBindingBypassExpiresAt
      case StandaloneWrites => EmergencyStandaloneFinancialWritesExpiresAt
    }

    function ReasonKey(): Variable {
      match this
      case ClientOtpBypass => EmergencyClientOtpBypassReason
      case DeviceBindingBypass => EmergencyDeviceBindingBypassReason
      case StandaloneWrites => EmergencyStandaloneFinancialWritesReason
    }
  }

  datatype WindowState = WindowState(enabled: bool, expiresAt: Option<int>, active: bool)

  function StateOf(env: Env, now: int, parse: Parser, window: Window): WindowState {
    var enabled := Enabled(env, window.EnabledKey());
    var expiresAt := parse(Clean(env, window.ExpiresKey()));
    WindowState(enabled, expiresAt, enabled && expiresAt.Some? && expiresAt.value > now)
  }

  predicate ShouldBypassClientOtp(env: Env, now: int, parse: Parser) {
    if !VerificationRequired(env) then true
    else if ClientOtpDisabled(env) then true
    else if Production(env) then StateOf(env, now, parse, ClientOtpBypass).active
    else if Enabled(env, ForceClientOtp) || Enabled(env, ForceOtp) then false
    else Enabled(env, BypassOtp) || Enabled(env, BypassClientOtp) || Word(env, MongoUri) == "demo"
  }

  // ---------- what the start-up check refuses ----------

  datatype Fault =
    | MasterOtpSet | UnknownVerificationMode | ClientOtpNotForced | OtpDisabledWithoutReason | VerificationNotRequired
    | CookieNotSecure | TransactionsNotRequired | TenantIsolationNotRequired | UnknownTenantMode | NoDefaultTenant
    | NoTenantRoot | LegacyRecordsAllowed | LegacyTokensAllowed | SessionsInMemory | MonitorPublic
    | NoDatabase | AppUrlNotHttps | RedisNotRequired | RedisDisabled | NoRedis

  datatype Violation =
    | ShortSecret(name: Variable)
    | SharedSecret(first: Variable, second: Variable)
    | FlagEnabled(name: Variable)
    | NoExpiry(window: Window)
    | TooLong(window: Window)
    | NoReason(window: Window)
    | Misconfigured(fault: Fault)

  predicate LongSecret(env: Env, name: Variable) {
    |Clean(env, name)| >= 32
  }

  predicate StartsWith(s: string, prefix: string) {
    prefix <= s
  }

  predicate HasFault(env: Env, fault: Fault) {
    match fault
    case MasterOtpSet => Clean(env, MasterOtp) != ""
    case UnknownVerificationMode => Word(env, SecurityVerificationMode) !in ["", "optional", "required"]
    case ClientOtpNotForced =>
      VerificationRequired(env) && !ClientOtpDisabled(env) && !Enabled(env, ForceClientOtp) && !Enabled(env, ForceOtp)
    case OtpDisabledWithoutReason =>
      ClientOtpDisabled(env) && VerificationRequired(env) && Clean(env, ClientOtpDisabledReason) == ""
    case VerificationNotRequired => !VerificationRequired(env)
    case CookieNotSecure => !Enabled(env, SecureCookie)
    case TransactionsNotRequired => !Enabled(env, MongoTransactionsRequired)
    case TenantIsolationNotRequired => !Enabled(env, TenantIsolationRequired)
    case UnknownTenantMode => Word(env, TenantMode) !in ["single", "multi"]
    case NoDefaultTenant => Clean(env, DefaultTenantId) == "" && Clean(env, DefaultTenantSlug) == ""
    case NoTenantRoot => Word(env, TenantMode) == "multi" && Clean(env, TenantRootDomain) == ""
    case LegacyRecordsAllowed => Enabled(env, AllowLegacyTenantlessRecords)
    case LegacyTokensAllowed => Enabled(env, AllowLegacyTenantTokens)
    case SessionsInMemory => Word(env, SessionStore) == "memory"
    case MonitorPublic => Enabled(env, AllowPublicSystemMonitor)
    case NoDatabase => Word(env, MongoUri) in ["", "demo"]
    case AppUrlNotHttps => Clean(env, PublicAppUrl) != "" && !StartsWith(Word(env, PublicAppUrl), "https://")
    case RedisNotRequired => !Enabled(env, RedisRequired)
    case RedisDisabled => Disabled(env, RedisEnabled)
    case NoRedis => Clean(env, RedisUrl) == "" && Clean(env, RedisUri) == ""
  }

  /** The names whose secrets are long enough, in order. */
  function LongOnes(env: Env, names: seq<Variable>): seq<Variable> {
    if names == [] then []
    else
      LongOnes(env, names[..|names| - 1])
      + (if LongSecret(env, names[|names| - 1]) then [names[|names| - 1]] else [])
  }

  /** Two names of the list, in this order, hold the same secret. */
  ghost predicate SharedAmong(env: Env, names: seq<Variable>, first: Variable, second: Variable) {
    exists l, r :: 0 <= l < r < |names| && names[l] == first && names[r] == second && Clean(env, names[l]) == Clean(env, names[r])
  }

  predicate EndsAfter(state: WindowState, time: int) {
    state.expiresAt.Some? && state.expiresAt.value > time
  }

  /** What is wrong with an emergency window that is switched on. */
  predicate WindowViolates(env: Env, now: int, parse: Parser, violation: Violation)
    requires violation.NoExpiry? || violation.TooLong? || violation.NoReason?
  {
    var state := StateOf(env, now, parse, violation.window);
    && state.enabled
    && match violation
       case NoExpiry(_) => state.expiresAt.None?
       case TooLong(_) => EndsAfter(state, now + MAX_WINDOW)
       case NoReason(window) => state.active && !EndsAfter(state, now + MAX_WINDOW) && Clean(env, window.ReasonKey()) == ""
  }

  ghost predicate Violates(env: Env, now: int, parse: Parser, violation: Violation) {
    match violation
    case ShortSecret(name) => name in SECRETS && !LongSecret(env, name)
    case SharedSecret(first, second) => SharedAmong(env, LongOnes(env, SECRETS), first, second)
    case FlagEnabled(name) => name in FORBIDDEN_FLAGS && Enabled(env, name)
    case Misconfigured(fault) => HasFault(env, fault)
    case _ => WindowViolates(env, now, parse, violation)
  }

  ghost predicate PolicyHolds(env: Env, now: int, parse: Parser) {
    forall v :: !Violates(env, now, parse, v)
  }

  // ---------- the environments that pass ----------

  /** The variable, cleaned and in lower case, is one of the words. */
  predicate Reads(env: Env, name: Variable, words: seq<string>) {
    OneOf(Word(env, name), words)
  }

  predicate OneOf(word: string, words: seq<string>) {
    word in words
  }

  const YES := ["1", "true", "yes", "on"]
  const NO := ["0", "false", "no", "off"]

  predicate Blank(env: Env, name: Variable) {
    Clean(env, name) == ""
  }

  predicate VerificationAccepted(env: Env) {
    && Reads(env, PasswordOnlyLoginMode, ["false"])
    && Reads(env, SecurityVerificationEnforcementEnabled, YES)
    && Reads(env, SecurityVerificationMode, ["required"])
    && Blank(env, MasterOtp)
    && (if Reads(env, ClientOtpEnabled, ["false"]) then !Blank(env, ClientOtpDisabledReason)
        else Reads(env, ForceClientOtp, YES) || Reads(env, ForceOtp, YES))
    && !Reads(env, BypassOtp, YES) && !Reads(env, BypassClientOtp, YES) && !Reads(env, DisableOtp, YES)
  }

  predicate TenancyAccepted(env: Env) {
    && Reads(env, TenantIsolationRequired, YES)
    && Reads(env, TenantMode, ["single", "multi"])
    && (Reads(env, TenantMode, ["multi"]) ==> !Blank(env, TenantRootDomain))
    && !(Blank(env, DefaultTenantId) && Blank(env, DefaultTenantSlug))
    && !Reads(env, AllowLegacyTenantlessRecords, YES) && !Reads(env, AllowLegacyTenantTokens, YES)
  }

  predicate StorageAccepted(env: Env) {
    && Reads(env, SecureCookie, YES) && Reads(env, MongoTransactionsRequired, YES)
    && !Reads(env, SessionStore, ["memory"]) && !Reads(env, AllowPublicSystemMonitor, YES)
    && !Blank(env, MongoUri) && !Reads(env, MongoUri, ["demo"])
    && (Blank(env, PublicAppUrl) || "https://" <= Word(env, PublicAppUrl))
  }

  predicate RedisAccepted(env: Env) {
    && Reads(env, RedisRequired, YES) && !Reads(env, RedisEnabled, NO)
    && !(Blank(env, RedisUrl) && Blank(env, RedisUri))
  }

  predicate SecretsAccepted(env: Env) {
    && (forall i :: 0 <= i < |SECRETS| ==> 32 <= |Clean(env, SECRETS[i])|)
    && (forall i, j :: 0 <= i < j < |SECRETS| ==> Clean(env, SECRETS[i]) != Clean(env, SECRETS[j]))
  }

  /** An emergency switch is off, or ends within a day and, while it is open, says why. */
  predicate WindowAccepted(env: Env, now: int, parse: Parser, switch: Variable, expires: Variable, reason: Variable) {
    Reads(env, switch, YES) ==>
      match parse(Clean(env, expires))
      case None => false
      case Some(end) => end <= now + 86_400_000 && (end > now ==> !Blank(env, reason))
  }

  /** What the check accepts, variable by variable. */
  predicate Accepted(env: Env, now: int, parse: Parser) {
    && SecretsAccepted(env) && VerificationAccepted(env) && TenancyAccepted(env) && StorageAccepted(env) && RedisAccepted(env)
    && WindowAccepted(env, now, parse, EmergencyClientOtpBypass, EmergencyClientOtpBypassExpiresAt, EmergencyClientOtpBypassReason)
    && WindowAccepted(env, now, parse, EmergencyDeviceBindingBypass, EmergencyDeviceBindingBypassExpiresAt,
                      EmergencyDeviceBindingBypassReason)
    && WindowAccepted(env, now, parse, EmergencyStandaloneFinancialWrites, EmergencyStandaloneFinancialWritesExpiresAt,
                      EmergencyStandaloneFinancialWritesReason)
  }

  lemma BlankWord(env: Env, name: Variable)
    ensures Blank(env, name) <==> Word(env, name) == ""
  {
  }

  lemma VerificationFaultless(env: Env)
    ensures VerificationAccepted(env) <==>
              && !HasFault(env, MasterOtpSet) && !HasFault(env, UnknownVerificationMode) && !HasFault(env, ClientOtpNotForced)
              && !HasFault(env, OtpDisabledWithoutReason) && !HasFault(env, VerificationNotRequired)
              && !Enabled(env, BypassOtp) && !Enabled(env, BypassClientOtp) && !Enabled(env, DisableOtp)
  {
    hide Word, Clean;
  }

  lemma TenancyFaultless(env: Env)
    ensures TenancyAccepted(env) <==>
              && !HasFault(env, TenantIsolationNotRequired) && !HasFault(env, UnknownTenantMode) && !HasFault(env, NoDefaultTenant)
              && !HasFault(env, NoTenantRoot) && !HasFault(env, LegacyRecordsAllowed) && !HasFault(env, LegacyTokensAllowed)
  {
    hide Word, Clean;
  }

  lemma StorageFaultless(env: Env)
    ensures StorageAccepted(env) <==>
              && !HasFault(env, CookieNotSecure) && !HasFault(env, TransactionsNotRequired)
              && !HasFault(env, SessionsInMemory) && !HasFault(env, MonitorPublic) && !HasFault(env, NoDatabase)
              && !HasFault(env, AppUrlNotHttps)
  {
    hide Word, Clean;
    BlankWord(env, MongoUri);
  }

  lemma RedisFaultless(env: Env)
    ensures RedisAccepted(env) <==>
              !HasFault(env, RedisNotRequired) && !HasFault(env, RedisDisabled) && !HasFault(env, NoRedis)
  {
    hide Word, Clean;
  }

  lemma WindowFaultless(env: Env, now: int, parse: Parser, window: Window)
    ensures WindowAccepted(env, now, parse, window.EnabledKey(), window.ExpiresKey(), window.ReasonKey()) <==>
              && !Violates(env, now, parse, NoExpiry(window)) && !Violates(env, now, parse, TooLong(window))
              && !Violates(env, now, parse, NoReason(window))
  {
    hide Word, Clean;
  }

  /** The policy holds exactly for the accepted environments. */
  lemma PolicyHoldsExactly(env: Env, now: int, parse: Parser)
    ensures PolicyHolds(env, now, parse) <==> Accepted(env, now, parse)
  {
    hide HasFault, WindowAccepted, WindowViolates, Enabled, SecretsAccepted, VerificationAccepted, TenancyAccepted, StorageAccepted, RedisAccepted;
    hide LongSecret, SharedAmong, LongOnes;
    SecretsSoundExactly(env, now, parse);
    VerificationFaultless(env);
    TenancyFaultless(env);
    StorageFaultless(env);
    RedisFaultless(env);
    WindowFaultless(env, now, parse, ClientOtpBypass);
    WindowFaultless(env, now, parse, DeviceBindingBypass);
    WindowFaultless(env, now, parse, StandaloneWrites);
    SecretsAcceptedExactly(env, now, parse);
    if PolicyHolds(env, now, parse) {
      forall fault ensures !HasFault(env, fault) {
        assert !Violates(env, now, parse, Misconfigured(fault));
      }
      forall flag | flag in FORBIDDEN_FLAGS ensures !Enabled(env, flag) {
        assert !Violates(env, now, parse, FlagEnabled(flag));
      }
    } else {
      var v :| Violates(env, now, parse, v);
      match v {
        case Misconfigured(fault) => EveryFaultIsChecked(fault);
        case ShortSecret(_) =>
        case SharedSecret(_, _) =>
        case FlagEnabled(_) =>
        case _ => EveryWindow(v.window);
      }
    }
  }

  lemma EveryWindow(window: Window)
    ensures window == ClientOtpBypass || window == DeviceBindingBypass || window == StandaloneWrites
  {
  }

  lemma SecretsAcceptedExactly(env: Env, now: int, parse: Parser)
    ensures SecretsAccepted(env) <==>
              forall v: Violation :: v.ShortSecret? || v.SharedSecret? ==> !Violates(env, now, parse, v)
  {
    hide Clean, Violates;
    SecretsSoundExactly(env, now, parse);
  }

  method ShortSecrets(env: Env) returns (errors: seq<Violation>)
    ensures forall v :: v in errors <==> v.ShortSecret? && v.name in SECRETS && !LongSecret(env, v.name)
  {
    errors := [];
    for n := 0 to |SECRETS|
      invariant forall v :: v in errors <==> v.ShortSecret? && v.name in SECRETS[..n] && !LongSecret(env, v.name)
    {
      assert SECRETS[..n + 1] == SECRETS[..n] + [SECRETS[n]];
      if |Clean(env, SECRETS[n])| < 32 {
        errors := errors + [ShortSecret(SECRETS[n])];
      }
    }
    assert SECRETS[..|SECRETS|] == SECRETS;
  }

  /** The pairs of the two nested loops that come before the pair (left, right). */
  ghost predicate SharedBefore(env: Env, names: seq<Variable>, left: int, right: int, first: Variable, second: Variable) {
    exists l, r :: 0 <= l < r < |names| && (l < left || (l == left && r < right))
      && names[l] == first && names[r] == second && Clean(env, names[l]) == Clean(env, names[r])
  }

  lemma NextPair(env: Env, names: seq<Variable>, left: int, right: int, first: Variable, second: Variable)
    requires 0 <= left < right < |names|
    ensures SharedBefore(env, names, left, right + 1, first, second) <==>
              || SharedBefore(env, names, left, right, first, second)
              || (names[left] == first && names[right] == second && Clean(env, names[left]) == Clean(env, names[right]))
  {
  }

  lemma NextRow(env: Env, names: seq<Variable>, left: int, first: Variable, second: Variable)
    requires 0 <= left < |names|
    ensures SharedBefore(env, names, left, |names|, first, second) <==> SharedBefore(env, names, left + 1, left + 2, first, second)
  {
  }

  method SharedSecrets(env: Env, names: seq<Variable>) returns (errors: seq<Violation>)
    ensures forall v :: v in errors <==> v.SharedSecret? && SharedAmong(env, names, v.first, v.second)
  {
    hide Clean;
    errors := [];
    for left := 0 to |names|
      invariant forall v :: v in errors <==> v.SharedSecret? && SharedBefore(env, names, left, left + 1, v.first, v.second)
    {
      for right := left + 1 to |names|
        invariant forall v :: v in errors <==> v.SharedSecret? && SharedBefore(env, names, left, right, v.first, v.second)
      {
        forall v: Violation | v.SharedSecret? {
          NextPair(env, names, left, right, v.first, v.second);
        }
        if Clean(env, names[left]) == Clean(env, names[right]) {
          errors := errors + [SharedSecret(names[left], names[right])];
        }
      }
      forall v: Violation | v.SharedSecret? {
        NextRow(env, names, left, v.first, v.second);
      }
    }
  }

  method LongSecrets(env: Env) returns (names: seq<Variable>)
    ensures names == LongOnes(env, SECRETS)
  {
    names := [];
    for n := 0 to |SECRETS|
      invariant names == LongOnes(env, SECRETS[..n])
    {
      assert SECRETS[..n + 1][..n] == SECRETS[..n];
      if |Clean(env, SECRETS[n])| >= 32 {
        names := names + [SECRETS[n]];
      }
    }
    assert SECRETS[..|SECRETS|] == SECRETS;
  }

  method EnabledFlags(env: Env) returns (errors: seq<Violation>)
    ensures forall v :: v in errors <==> v.FlagEnabled? && v.name in FORBIDDEN_FLAGS && Enabled(env, v.name)
  {
    errors := [];
    for n := 0 to |FORBIDDEN_FLAGS|
      invariant forall v :: v in errors <==> v.FlagEnabled? && v.name in FORBIDDEN_FLAGS[..n] && Enabled(env, v.name)
    {
      assert FORBIDDEN_FLAGS[..n + 1] == FORBIDDEN_FLAGS[..n] + [FORBIDDEN_FLAGS[n]];
      if Enabled(env, FORBIDDEN_FLAGS[n]) {
        errors := errors + [FlagEnabled(FORBIDDEN_FLAGS[n])];
      }
    }
    assert FORBIDDEN_FLAGS[..|FORBIDDEN_FLAGS|] == FORBIDDEN_FLAGS;
  }

  method WindowErrors(env: Env, now: int, parse: Parser, window: Window) returns (errors: seq<Violation>)
    ensures forall v :: v in errors <==>
              (v.NoExpiry? || v.TooLong? || v.NoReason?) && v.window == window && WindowViolates(env, now, parse, v)
  {
    hide Enabled, Clean;
    errors := [];
    var state := StateOf(env, now, parse, window);
    if state.enabled {
      if state.expiresAt.None? {
        errors := [NoExpiry(window)];
      } else if state.expiresAt.value > now + MAX_WINDOW {
        errors := [TooLong(window)];
      } else if state.active && Clean(env, window.ReasonKey()) == "" {
        errors := [NoReason(window)];
      }
    }
  }

  /** The single checks, in the order the program makes them. */
  const CHECKS := [
    MasterOtpSet, UnknownVerificationMode, ClientOtpNotForced, OtpDisabledWithoutReason, VerificationNotRequired,
    CookieNotSecure, TransactionsNotRequired, TenantIsolationNotRequired, UnknownTenantMode, NoDefaultTenant,
    NoTenantRoot, LegacyRecordsAllowed, LegacyTokensAllowed, SessionsInMemory, MonitorPublic, NoDatabase,
    AppUrlNotHttps, RedisNotRequired, RedisDisabled, NoRedis
  ]

  function Misconfigurations(env: Env, checks: seq<Fault>): (faults: seq<Fault>)
    ensures forall f :: f in faults <==> f in checks && HasFault(env, f)
  {
    if checks == [] then []
    else (if HasFault(env, checks[0]) then [checks[0]] else []) + Misconfigurations(env, checks[1..])
  }

  lemma EveryFaultIsChecked(fault: Fault)
    ensures fault in CHECKS
  {
  }

  function Faulty(faults: seq<Fault>): (errors: seq<Violation>)
    ensures forall v :: v in errors <==> v.Misconfigured? && v.fault in faults
  {
    if faults == [] then [] else [Misconfigured(faults[0])] + Faulty(faults[1..])
  }

  /** In production the errors are exactly the violations of the policy; elsewhere nothing is checked. */
  method ValidateProductionSecurityEnv(env: Env, now: int, parse: Parser) returns (valid: bool, errors: seq<Violation>)
    ensures Production(env) ==> forall v :: v in errors <==> Violates(env, now, parse, v)
    ensures !Production(env) ==> errors == []
    ensures valid <==> (Production(env) ==> PolicyHolds(env, now, parse))
    ensures valid <==> (Reads(env, NodeEnv, ["production"]) ==> Accepted(env, now, parse))
  {
    hide Enabled, Clean, Word, HasFault, LongSecret, WindowViolates, SharedAmong, LongOnes, Faulty, Misconfigurations, Accepted;
    PolicyHoldsExactly(env, now, parse);
    if !Production(env) {
      return true, [];
    }
    var short := ShortSecrets(env);
    var populated := LongSecrets(env);
    var shared := SharedSecrets(env, populated);
    var flags := EnabledFlags(env);
    var faults := Misconfigurations(env, CHECKS);
    var otpBypass := WindowErrors(env, now, parse, ClientOtpBypass);
    var deviceBypass := WindowErrors(env, now, parse, DeviceBindingBypass);
    var standalone := WindowErrors(env, now, parse, StandaloneWrites);
    var secrets, windows := short + shared, otpBypass + deviceBypass + standalone;
    errors := secrets + flags + Faulty(faults) + windows;
    valid := errors == [];
    assert errors != [] ==> errors[0] in errors;
    forall v: Violation
      ensures v in errors <==> Violates(env, now, parse, v)
    {
      assert v in errors <==> v in secrets || v in flags || v in windows || v in Faulty(faults);
      if v.Misconfigured? {
        EveryFaultIsChecked(v.fault);
      }
    }
  }

  // ---------- what a start that passed the check guarantees ----------

  /** No short or shared secret is reported exactly when the four are long enough and pairwise different. */
  lemma SecretsSoundExactly(env: Env, now: int, parse: Parser)
    ensures (forall v: Violation :: v.ShortSecret? || v.SharedSecret? ==> !Violates(env, now, parse, v)) <==>
              && (forall i :: 0 <= i < |SECRETS| ==> 32 <= |Clean(env, SECRETS[i])|)
              && (forall i, j :: 0 <= i < j < |SECRETS| ==> Clean(env, SECRETS[i]) != Clean(env, SECRETS[j]))
  {
    hide Clean;
    if forall v: Violation :: v.ShortSecret? || v.SharedSecret? ==> !Violates(env, now, parse, v) {
      forall i | 0 <= i < |SECRETS|
        ensures LongSecret(env, SECRETS[i])
      {
        assert !Violates(env, now, parse, ShortSecret(SECRETS[i]));
      }
      AllLong(env, SECRETS);
      forall i, j | 0 <= i < j < |SECRETS|
        ensures Clean(env, SECRETS[i]) != Clean(env, SECRETS[j])
      {
        assert !Violates(env, now, parse, SharedSecret(SECRETS[i], SECRETS[j]));
      }
    } else {
      var v: Violation :| (v.ShortSecret? || v.SharedSecret?) && Violates(env, now, parse, v);
      if forall i :: 0 <= i < |SECRETS| ==> 32 <= |Clean(env, SECRETS[i])| {
        forall i | 0 <= i < |SECRETS|
          ensures LongSecret(env, SECRETS[i])
        {
        }
        AllLong(env, SECRETS);
      }
    }
  }

  lemma {:induction false} AllLong(env: Env, names: seq<Variable>)
    requires forall i :: 0 <= i < |names| ==> LongSecret(env, names[i])
    ensures LongOnes(env, names) == names
  {
    hide LongSecret;
    if names != [] {
      AllLong(env, names[..|names| - 1]);
    }
  }

  /** Outside production the login skips the one-time password unless verification is required and a code is forced or not waived. */
  lemma BypassOutsideProductionExactly(env: Env, time: int, parse: Parser)
    requires !Reads(env, NodeEnv, ["production"])
    ensures ShouldBypassClientOtp(env, time, parse) <==>
              || !(&& Reads(env, PasswordOnlyLoginMode, ["false"])
                   && Reads(env, SecurityVerificationEnforcementEnabled, YES)
                   && Reads(env, SecurityVerificationMode, ["required"]))
              || Reads(env, ClientOtpEnabled, ["false"])
              || (&& !Reads(env, ForceClientOtp, YES) && !Reads(env, ForceOtp, YES)
                  && (Reads(env, BypassOtp, YES) || Reads(env, BypassClientOtp, YES) || Reads(env, MongoUri, ["demo"])))
  {
    hide Word, Clean;
  }

  /** With a valid production policy the login skips the one-time password only by the two named switches. */
  lemma BypassExactly(env: Env, start: int, parse: Parser, time: int)
    requires Production(env) && PolicyHolds(env, start, parse)
    ensures ShouldBypassClientOtp(env, time, parse) <==>
              || Reads(env, ClientOtpEnabled, ["false"])
              || (Reads(env, EmergencyClientOtpBypass, YES)
                  && match parse(Clean(env, EmergencyClientOtpBypassExpiresAt)) case Some(end) => end > time case None => false)
  {
    hide Word, Clean;
    assert !Violates(env, start, parse, Misconfigured(VerificationNotRequired));
  }

  /** No emergency window that passed the check is open a day later. */
  lemma WindowsCloseWithinADay(env: Env, start: int, parse: Parser, window: Window, time: int)
    requires PolicyHolds(env, start, parse) && start + 86_400_000 <= time
    ensures !StateOf(env, time, parse, window).active
  {
    hide Enabled, Word, Clean;
    assert !Violates(env, start, parse, TooLong(window));
  }

  /** From a day after a valid start on, the login never skips the one-time password, exactly unless it was switched off by name. */
  lemma BypassEndsExactly(env: Env, start: int, parse: Parser)
    requires Production(env) && PolicyHolds(env, start, parse)
    ensures (forall time :: start + 86_400_000 <= time ==> !ShouldBypassClientOtp(env, time, parse)) <==> !ClientOtpDisabled(env)
  {
    hide Word, Clean;
    forall time | start + MAX_WINDOW <= time
      ensures ShouldBypassClientOtp(env, time, parse) <==> ClientOtpDisabled(env)
    {
      BypassExactly(env, start, parse, time);
      WindowsCloseWithinADay(env, start, parse, ClientOtpBypass, time);
    }
    assert ShouldBypassClientOtp(env, start + MAX_WINDOW, parse) <==> ClientOtpDisabled(env);
  }

  // ---------- what follows for the other modules ----------

  function Raw(env: Env, name: Variable): string {
    if name in env then env[name] else ""
  }

  /** The wallet service's own test: it neither trims nor accepts the other words for yes. */
  predicate RequiresMongoTransactions(env: Env, now: int, parse: Parser) {
    && !StateOf(env, now, parse, StandaloneWrites).active
    && (Raw(env, NodeEnv) == "production" || Lower(Raw(env, MongoTransactionsRequired)) == "true")
  }

  /** At any time transfers need Mongo transactions unless the emergency window is open or neither variable is spelled so. */
  lemma TransactionsRequiredAt(env: Env, time: int, parse: Parser)
    ensures RequiresMongoTransactions(env, time, parse) <==>
              && !(Reads(env, EmergencyStandaloneFinancialWrites, YES)
                   && match parse(Clean(env, EmergencyStandaloneFinancialWritesExpiresAt)) case Some(end) => end > time case None => false)
              && (Raw(env, NodeEnv) == "production" || Lower(Raw(env, MongoTransactionsRequired)) == "true")
  {
    hide Word, Clean, Lower, Raw;
  }

  /**
   By `WindowsCloseWithinADay`: from a day after a valid start on, transfers without Mongo transactions are impossible
   exactly if one of the two variables is spelled as the wallet service reads it.
   */
  lemma TransactionsRequiredExactly(env: Env, start: int, parse: Parser)
    requires PolicyHolds(env, start, parse)
    ensures (forall time :: start + 86_400_000 <= time ==> RequiresMongoTransactions(env, time, parse)) <==>
              Raw(env, NodeEnv) == "production" || Lower(Raw(env, MongoTransactionsRequired)) == "true"
  {
    hide Raw, Lower, StateOf;
    forall time | start + MAX_WINDOW <= time
      ensures !StateOf(env, time, parse, StandaloneWrites).active
    {
      WindowsCloseWithinADay(env, start, parse, StandaloneWrites, time);
    }
    assert start + MAX_WINDOW <= start + MAX_WINDOW;
    assert RequiresMongoTransactions(env, start + MAX_WINDOW, parse) <==>
           Raw(env, NodeEnv) == "production" || Lower(Raw(env, MongoTransactionsRequired)) == "true";
  }

  /** Every valid production environment can be spelled so that it is still valid and the wallet service requires nothing. */
  lemma SpellingLosesTheRequirement(env: Env, start: int, parse: Parser, time: int)
    requires Production(env) && PolicyHolds(env, start, parse)
    ensures var spelled := env[NodeEnv := "production "][MongoTransactionsRequired := "1"];
            && Production(spelled) && PolicyHolds(spelled, start, parse)
            && !RequiresMongoTransactions(spelled, time, parse)
  {
    hide Trim, Lower, PolicyHolds, StateOf, Accepted, OneOf, Clean;
    var spelled := env[NodeEnv := "production "][MongoTransactionsRequired := "1"];
    PolicyHoldsExactly(env, start, parse);
    PolicyHoldsExactly(spelled, start, parse);
    SpelledReads(env);
    SpelledAlike(env, spelled, start, parse);
  }

  lemma SpelledReads(env: Env)
    ensures var spelled := env[NodeEnv := "production "][MongoTransactionsRequired := "1"];
            && Production(spelled) && Reads(spelled, MongoTransactionsRequired, YES)
            && Raw(spelled, NodeEnv) != "production" && Lower(Raw(spelled, MongoTransactionsRequired)) != "true"
            && forall name :: name != NodeEnv && name != MongoTransactionsRequired ==> Clean(spelled, name) == Clean(env, name)
  {
    hide Trim, Lower;
    SpelledWords();
  }

  /** Which part of the accepted environments a variable belongs to. */
  datatype Group = Verification | Tenancy | Storage | Redis | Secrets | Windows | Spelled

  function GroupOf(name: Variable): Group {
    match name
    case JwtSecret | JwtRefreshSecret | SessionSecret | OtpSecret => Secrets
    case PasswordOnlyLoginMode | SecurityVerificationEnforcementEnabled | SecurityVerificationMode | MasterOtp => Verification
    case ClientOtpEnabled | ClientOtpDisabledReason | ForceClientOtp | ForceOtp => Verification
    case BypassOtp | BypassClientOtp | DisableOtp => Verification
    case TenantIsolationRequired | TenantMode | TenantRootDomain | DefaultTenantId | DefaultTenantSlug => Tenancy
    case AllowLegacyTenantlessRecords | AllowLegacyTenantTokens => Tenancy
    case SecureCookie | SessionStore | AllowPublicSystemMonitor | MongoUri | PublicAppUrl => Storage
    case RedisRequired | RedisEnabled | RedisUrl | RedisUri => Redis
    case NodeEnv | MongoTransactionsRequired => Spelled
    case _ => Windows
  }

  ghost predicate SameClean(env: Env, other: Env, group: Group) {
    forall name :: GroupOf(name) == group ==> Clean(env, name) == Clean(other, name)
  }

  lemma VerificationGroup()
    ensures GroupOf(PasswordOnlyLoginMode) == GroupOf(SecurityVerificationEnforcementEnabled) == GroupOf(SecurityVerificationMode) == Verification
    ensures GroupOf(MasterOtp) == GroupOf(ClientOtpEnabled) == GroupOf(ClientOtpDisabledReason) == Verification
  {
  }

  lemma ForcingGroup()
    ensures GroupOf(ForceClientOtp) == GroupOf(ForceOtp) == Verification
    ensures GroupOf(BypassOtp) == GroupOf(BypassClientOtp) == GroupOf(DisableOtp) == Verification
  {
  }

  lemma TenancyGroup()
    ensures GroupOf(TenantIsolationRequired) == GroupOf(TenantMode) == GroupOf(TenantRootDomain) == Tenancy
    ensures GroupOf(DefaultTenantId) == GroupOf(DefaultTenantSlug) == Tenancy
    ensures GroupOf(AllowLegacyTenantlessRecords) == GroupOf(AllowLegacyTenantTokens) == Tenancy
  {
  }

  lemma StorageGroup()
    ensures GroupOf(SecureCookie) == GroupOf(SessionStore) == GroupOf(AllowPublicSystemMonitor) == Storage
    ensures GroupOf(MongoUri) == GroupOf(PublicAppUrl) == Storage
  {
  }

  lemma RedisGroup()
    ensures GroupOf(RedisRequired) == GroupOf(RedisEnabled) == GroupOf(RedisUrl) == GroupOf(RedisUri) == Redis
  {
  }

  lemma SameVerification(env: Env, other: Env)
    requires SameClean(env, other, Verification)
    ensures VerificationAccepted(env) == VerificationAccepted(other)
  {
    hide Clean, Lower, OneOf, GroupOf;
    VerificationGroup();
    ForcingGroup();
  }

  lemma SameTenancy(env: Env, other: Env)
    requires SameClean(env, other, Tenancy)
    ensures TenancyAccepted(env) == TenancyAccepted(other)
  {
    hide Clean, Lower, OneOf, GroupOf;
    TenancyGroup();
  }

  lemma SameStorage(env: Env, other: Env)
    requires SameClean(env, other, Storage)
    requires Reads(env, MongoTransactionsRequired, YES) == Reads(other, MongoTransactionsRequired, YES)
    ensures StorageAccepted(env) == StorageAccepted(other)
  {
    hide Clean, Lower, OneOf, GroupOf;
    StorageGroup();
  }

  lemma SameRedis(env: Env, other: Env)
    requires SameClean(env, other, Redis)
    ensures RedisAccepted(env) == RedisAccepted(other)
  {
    hide Clean, Lower, OneOf, GroupOf;
    RedisGroup();
  }

  lemma SameSecrets(env: Env, other: Env)
    requires SameClean(env, other, Secrets)
    ensures SecretsAccepted(env) == SecretsAccepted(other)
  {
    hide Clean;
  }

  /** The accepted environments do not depend on how these two variables are spelled. */
  lemma SpelledAlike(env: Env, spelled: Env, now: int, parse: Parser)
    requires Accepted(env, now, parse) && Reads(spelled, MongoTransactionsRequired, YES)
    requires forall name :: name != NodeEnv && name != MongoTransactionsRequired ==> Clean(spelled, name) == Clean(env, name)
    ensures Accepted(spelled, now, parse)
  {
    hide Clean, Word, OneOf, WindowAccepted, SecretsAccepted, VerificationAccepted, TenancyAccepted, StorageAccepted, RedisAccepted;
    hide SameClean;
    TransactionsRead(env);
    SpelledClean(env, spelled);
    SameSecrets(env, spelled);
    SameVerification(env, spelled);
    SameTenancy(env, spelled);
    SameStorage(env, spelled);
    SameRedis(env, spelled);
    SpelledWindows(env, spelled, now, parse);
  }

  lemma SpelledClean(env: Env, spelled: Env)
    requires forall name :: name != NodeEnv && name != MongoTransactionsRequired ==> Clean(spelled, name) == Clean(env, name)
    ensures forall group: Group :: group != Spelled ==> SameClean(env, spelled, group)
  {
    hide Clean;
  }

  lemma SpelledWindows(env: Env, spelled: Env, now: int, parse: Parser)
    requires forall name :: name != NodeEnv && name != MongoTransactionsRequired ==> Clean(spelled, name) == Clean(env, name)
    ensures WindowAccepted(env, now, parse, EmergencyClientOtpBypass, EmergencyClientOtpBypassExpiresAt, EmergencyClientOtpBypassReason)
            == WindowAccepted(spelled, now, parse, EmergencyClientOtpBypass, EmergencyClientOtpBypassExpiresAt,
                              EmergencyClientOtpBypassReason)
    ensures WindowAccepted(env, now, parse, EmergencyDeviceBindingBypass, EmergencyDeviceBindingBypassExpiresAt,
                           EmergencyDeviceBindingBypassReason)
            == WindowAccepted(spelled, now, parse, EmergencyDeviceBindingBypass, EmergencyDeviceBindingBypassExpiresAt,
                              EmergencyDeviceBindingBypassReason)
    ensures WindowAccepted(env, now, parse, EmergencyStandaloneFinancialWrites, EmergencyStandaloneFinancialWritesExpiresAt,
                           EmergencyStandaloneFinancialWritesReason)
            == WindowAccepted(spelled, now, parse, EmergencyStandaloneFinancialWrites, EmergencyStandaloneFinancialWritesExpiresAt,
                              EmergencyStandaloneFinancialWritesReason)
  {
    hide Clean, WindowAccepted;
    SameWindow(env, spelled, now, parse, EmergencyClientOtpBypass, EmergencyClientOtpBypassExpiresAt, EmergencyClientOtpBypassReason);
    SameWindow(env, spelled, now, parse, EmergencyDeviceBindingBypass, EmergencyDeviceBindingBypassExpiresAt,
               EmergencyDeviceBindingBypassReason);
    SameWindow(env, spelled, now, parse, EmergencyStandaloneFinancialWrites, EmergencyStandaloneFinancialWritesExpiresAt,
               EmergencyStandaloneFinancialWritesReason);
  }

  lemma SameWindow(env: Env, other: Env, now: int, parse: Parser, switch: Variable, expires: Variable, reason: Variable)
    requires Clean(env, switch) == Clean(other, switch) && Clean(env, expires) == Clean(other, expires)
    requires Clean(env, reason) == Clean(other, reason)
    ensures WindowAccepted(env, now, parse, switch, expires, reason) == WindowAccepted(other, now, parse, switch, expires, reason)
  {
    hide Clean, Reads;
    SameReads(env, other, switch, YES);
    assert parse(Clean(env, expires)) == parse(Clean(other, expires));
  }

  lemma SameReads(env: Env, other: Env, name: Variable, words: seq<string>)
    requires Clean(env, name) == Clean(other, name)
    ensures Reads(env, name, words) == Reads(other, name, words)
  {
    hide Clean, Lower, OneOf;
  }

  lemma TransactionsRead(env: Env)
    ensures StorageAccepted(env) ==> Reads(env, MongoTransactionsRequired, YES)
  {
  }

  lemma SameWindows(env: Env, other: Env, now: int, parse: Parser)
    requires forall window: Window ::
               && Clean(env, window.EnabledKey()) == Clean(other, window.EnabledKey())
               && Clean(env, window.ExpiresKey()) == Clean(other, window.ExpiresKey())
               && Clean(env, window.ReasonKey()) == Clean(other, window.ReasonKey())
    ensures forall window: Window ::
              WindowAccepted(env, now, parse, window.EnabledKey(), window.ExpiresKey(), window.ReasonKey())
              == WindowAccepted(other, now, parse, window.EnabledKey(), window.ExpiresKey(), window.ReasonKey())
  {
    hide Clean, WindowAccepted;
    forall window: Window {
      SameWindow(env, other, now, parse, window.EnabledKey(), window.ExpiresKey(), window.ReasonKey());
    }
  }

  /** Text that is its own cleaned and lower-case form. */
  predicate Plain(s: string) {
    && (s != "" ==> !IsSpace(s[0]) && !IsSpace(s[|s| - 1]))
    && forall i :: 0 <= i < |s| ==> !('A' <= s[i] <= 'Z')
  }

  lemma PlainReads(s: string)
    requires Plain(s)
    ensures Trim(s) == s && Lower(s) == s
  {
    LowerKeepsSmallLetters(s);
  }

  lemma {:induction false} LowerKeepsSmallLetters(s: string)
    requires forall i :: 0 <= i < |s| ==> !('A' <= s[i] <= 'Z')
    ensures Lower(s) == s
  {
    if s != "" {
      LowerKeepsSmallLetters(s[1..]);
    }
  }

  lemma TrimDropsOneSpace(s: string)
    requires s != "" && Plain(s)
    ensures Trim(s + " ") == s
  {
    assert (s + " ")[..|s|] == s;
  }

  lemma SpelledWords()
    ensures Lower(Trim("production ")) == "production"
    ensures Trim("1") == "1" == Lower("1")
  {
    hide Lower, Trim;
    TrimDropsOneSpace("production");
    assert "production" + " " == "production ";
    PlainReads("production");
    PlainReads("1");
  }

  datatype CacheStore = RedisClient | MemoryFallback | StartRefused

  /** `initRedis`; `distributed` stands for cluster mode or several instances, `connects` for the connection attempt. */
  function InitRedis(env: Env, distributed: bool, connects: bool): CacheStore {
    var required := Production(env) || Enabled(env, RedisRequired) || distributed;
    if Disabled(env, RedisEnabled) then (if required then StartRefused else MemoryFallback)
    else if Raw(env, RedisUrl) == "" && Raw(env, RedisUri) == "" then (if required then StartRefused else MemoryFallback)
    else if connects then RedisClient
    else if required then StartRefused
    else MemoryFallback
  }

  /** The in-memory cache is used exactly when nothing demands Redis and it is switched off, not configured or not reached. */
  lemma CacheStoreExactly(env: Env, distributed: bool, connects: bool)
    ensures var configured := Raw(env, RedisUrl) != "" || Raw(env, RedisUri) != "";
            var usable := !Reads(env, RedisEnabled, NO) && configured && connects;
            var demanded := Reads(env, NodeEnv, ["production"]) || Reads(env, RedisRequired, YES) || distributed;
            InitRedis(env, distributed, connects) ==
            if usable then RedisClient else if demanded then StartRefused else MemoryFallback
  {
    hide Word, Raw;
  }

  /** No production falls back to the in-memory cache, whether or not its environment passed the check. */
  lemma ProductionNeverFallsBack(env: Env, distributed: bool, connects: bool)
    requires Production(env)
    ensures InitRedis(env, distributed, connects) != MemoryFallback
  {
  }

  /** Where the environment passed the check, the start is refused exactly when Redis does not connect. */
  lemma ProductionUsesRedis(env: Env, start: int, parse: Parser, distributed: bool, connects: bool)
    requires Production(env) && PolicyHolds(env, start, parse)
    ensures InitRedis(env, distributed, connects) == if connects then RedisClient else StartRefused
  {
    hide Word, Enabled, Disabled, Clean;
    assert !Violates(env, start, parse, Misconfigured(RedisDisabled));
    assert !Violates(env, start, parse, Misconfigured(NoRedis));
    CleanNeedsRaw(env, RedisUrl);
    CleanNeedsRaw(env, RedisUri);
  }

  lemma CleanNeedsRaw(env: Env, name: Variable)
    ensures Clean(env, name) != "" ==> Raw(env, name) != ""
  {
  }
}
