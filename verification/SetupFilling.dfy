/** `ensureAllowlists` and `ensureBasicAuth` of scripts/complete-setup.js: filling
    credentials and allowlists into an env map. */
module SetupFilling {
  import opened Wrappers
  import opened Text
  import opened DollarEscaping
  import opened Placeholders

  const IP_KEY := "TP_USER_IP_ADDRESS"
  const ADMIN_LIST := "DJANGO_ADMIN_ALLOWLIST"
  const FLOWER_LIST := "FLOWER_ALLOWLIST"
  const PGADMIN_LIST := "PGADMIN_ALLOWLIST"
  const PRIMARY := "TRAEFIK_DASH_BASIC_USERS"
  const FLOWER := "FLOWER_BASIC_USERS"
  const PRIMARY_PW := "TRAEFIK_ACTUAL_PW"
  const FLOWER_PW := "FLOWER_ACTUAL_PW"
  const OWN_RANGE := OWN_ADDRESS + "32"

  type Env = map<string, string>

  datatype Change = Change(key: string, action: string)

  datatype Setup = Setup(env: Env, changes: seq<Change>)

  /** What the IP detector does when asked. */
  datatype Detection = NoDetector | Failed(message: string) | Detected(ip: string)

  /** The hash function's and the random source's answers during one pass. */
  datatype Generator = Generator(hash: string -> string, flowerHash: string -> string, password: string, flowerPassword: string)

  function Get(env: Env, key: string): Option<string> {
    if key in env then Some(env[key]) else None
  }

  predicate Unset(env: Env, key: string) {
    Placeholder(Get(env, key), key)
  }

  function Log(s: Setup, key: string, action: string): Setup {
    s.(changes := s.changes + [Change(key, action)])
  }

  function Store(s: Setup, key: string, value: string, action: string): Setup {
    Log(s.(env := s.env[key := value]), key, action)
  }

  // ---- Allowlists --------------------------------------------------------------------------

  function SetIf(s: Setup, key: string, needed: bool): Setup {
    if needed then Store(s, key, OWN_RANGE, "set-allowlist-template") else s
  }

  /** Each list marked as needed refers to the operator's address. */
  function SetLists(s: Setup, admin: bool, flower: bool, pgadmin: bool): Setup {
    SetIf(SetIf(SetIf(s, ADMIN_LIST, admin), FLOWER_LIST, flower), PGADMIN_LIST, pgadmin)
  }

  /** The step, given which of its keys are unset. */
  function FillLists(s: Setup, detection: Detection, needsIp: bool, admin: bool, flower: bool, pgadmin: bool): Setup {
    if !needsIp then SetLists(s, admin, flower, pgadmin)
    else
      match detection
      case NoDetector => Log(s, IP_KEY, "ip-detect-skipped")
      case Failed(message) => Log(s, IP_KEY, "ip-detect-failed:" + message)
      case Detected(raw) =>
        var ip := Trim(raw, JsSpace);
        if ip == "" then Log(s, IP_KEY, "ip-detect-failed:empty-result")
        else SetLists(Store(s, IP_KEY, ip, "store-public-ip"), admin, flower, pgadmin)
  }

  function WithAllowlists(s: Setup, detection: Detection): Setup {
    FillLists(s, detection, Unset(s.env, IP_KEY), Unset(s.env, ADMIN_LIST), Unset(s.env, FLOWER_LIST), Unset(s.env, PGADMIN_LIST))
  }

  // ---- Basic auth -----------------------------------------------------------------------------

  function LowerCase(s: string): string {
    seq(|s|, i requires 0 <= i < |s| => Lower(s[i]))
  }

  function TrimmedValue(env: Env, key: string): string {
    if key in env then Trim(env[key], JsSpace) else ""
  }

  predicate Flag(env: Env, key: string) {
    LowerCase(TrimmedValue(env, key)) == "true"
  }

  function UserName(env: Env): string {
    var name := TrimmedValue(env, "USER_MAIN_NAME");
    if Flag(env, "APPLY_USER_NAME_DEFAULTS") && name != "" then name else "admin"
  }

  function UserPassword(env: Env): Option<string> {
    var password := TrimmedValue(env, "USER_MAIN_PASSWORD");
    if Flag(env, "APPLY_USER_PASSWORD_DEFAULTS") && password != "" then Some(password) else None
  }

  function HtpasswdLine(user: string, hash: string): string {
    user + ":" + Escape(hash)
  }

  function BeforeColon(s: string): string {
    if s == "" || s[0] == ':' then "" else [s[0]] + BeforeColon(s[1..])
  }

  function StoreIfUnset(s: Setup, key: string, value: string): Setup {
    if Unset(s.env, key) then Store(s, key, value, "store-generated-password") else s
  }

  function PrimaryPassword(env: Env, g: Generator): string {
    if UserPassword(env).Some? then UserPassword(env).value else g.password
  }

  function WithGenerated(s: Setup, g: Generator): Setup {
    var password := PrimaryPassword(s.env, g);
    StoreIfUnset(Store(s, PRIMARY, HtpasswdLine(UserName(s.env), g.hash(password)), "generate-basic-auth"), PRIMARY_PW, password)
  }

  function WithEscaped(s: Setup, key: string): Setup {
    if key in s.env && Escape(s.env[key]) != s.env[key] then Store(s, key, Escape(s.env[key]), "escape-dollars") else s
  }

  function WithPrimary(s: Setup, g: Generator): Setup {
    if Unset(s.env, PRIMARY) then WithGenerated(s, g) else WithEscaped(s, PRIMARY)
  }

  datatype Account = Account(user: string, password: string)

  /** Whose credentials Flower gets: the ones just generated, else the stored primary
      ones, else the configured password, else a new one. */
  function FlowerAccount(env: Env, user: string, generated: Option<string>, configured: Option<string>, g: Generator): Account {
    if generated.Some? && generated.value != "" then Account(user, generated.value)
    else if !Unset(env, PRIMARY_PW) && PRIMARY_PW in env then
      var part := BeforeColon(if PRIMARY in env then env[PRIMARY] else "");
      Account(if part != "" then part else user, env[PRIMARY_PW])
    else Account(user, if configured.Some? then configured.value else g.flowerPassword)
  }

  function WithFlower(s: Setup, account: Account, g: Generator): Setup {
    if !Unset(s.env, FLOWER) then s
    else
      var line := HtpasswdLine(account.user, g.flowerHash(account.password));
      StoreIfUnset(Store(s, FLOWER, line, "generate-basic-auth"), FLOWER_PW, account.password)
  }

  function WithBasicAuth(s: Setup, g: Generator): Setup {
    var generated := if Unset(s.env, PRIMARY) then Some(PrimaryPassword(s.env, g)) else None;
    var p := WithPrimary(s, g);
    WithFlower(p, FlowerAccount(p.env, UserName(s.env), generated, UserPassword(s.env), g), g)
  }

  // ---- The steps as the script runs them ---------------------------------------------------------

  class SetupRun {
    var envMap: Env
    var plannedChanges: seq<Change>

    constructor (env: Env)
      ensures envMap == env && plannedChanges == []
    {
      envMap, plannedChanges := env, [];
    }

    ghost function State(): Setup
      reads this
    {
      Setup(envMap, plannedChanges)
    }

    method Push(key: string, action: string)
      modifies this`plannedChanges
      ensures State() == Log(old(State()), key, action)
    {
      plannedChanges := plannedChanges + [Change(key, action)];
    }

    method EnsureAllowlists(detection: Detection)
      modifies this
      ensures State() == WithAllowlists(old(State()), detection)
    {
      var ip := Get(envMap, IP_KEY);
      var admin, flower, pgadmin := Unset(envMap, ADMIN_LIST), Unset(envMap, FLOWER_LIST), Unset(envMap, PGADMIN_LIST);
      var needsIp := Placeholder(ip, IP_KEY);
      if !needsIp && !admin && !flower && !pgadmin {
        return;
      }
      if needsIp {
        if detection.NoDetector? {
          Push(IP_KEY, "ip-detect-skipped");
          return;
        }
        if detection.Failed? {
          Push(IP_KEY, "ip-detect-failed:" + detection.message);
          return;
        }
        var detected := Trim(detection.ip, JsSpace);
        if detected == "" {
          Push(IP_KEY, "ip-detect-failed:empty-result");
          return;
        }
        envMap := envMap[IP_KEY := detected];
        Push(IP_KEY, "store-public-ip");
      }
      SetAllowlist(ADMIN_LIST, admin);
      SetAllowlist(FLOWER_LIST, flower);
      SetAllowlist(PGADMIN_LIST, pgadmin);
    }

    method SetAllowlist(key: string, needed: bool)
      modifies this
      ensures State() == SetIf(old(State()), key, needed)
    {
      if needed {
        envMap := envMap[key := OWN_RANGE];
        Push(key, "set-allowlist-template");
      }
    }

    method StorePassword(key: string, password: string)
      modifies this
      ensures State() == StoreIfUnset(old(State()), key, password)
    {
      if Unset(envMap, key) {
        envMap := envMap[key := password];
        Push(key, "store-generated-password");
      }
    }

    method EnsurePrimary(g: Generator) returns (generatedPassword: Option<string>)
      modifies this
      ensures State() == WithPrimary(old(State()), g)
      ensures generatedPassword == if Unset(old(envMap), PRIMARY) then Some(PrimaryPassword(old(envMap), g)) else None
    {
      generatedPassword := None;
      if Unset(envMap, PRIMARY) {
        var userName, userPassword := UserName(envMap), UserPassword(envMap);
        var password := if userPassword.Some? then userPassword.value else g.password;
        envMap := envMap[PRIMARY := HtpasswdLine(userName, g.hash(password))];
        Push(PRIMARY, "generate-basic-auth");
        generatedPassword := Some(password);
        StorePassword(PRIMARY_PW, password);
      } else {
        EscapePrimary();
      }
    }

    method EscapePrimary()
      modifies this
      ensures State() == WithEscaped(old(State()), PRIMARY)
    {
      if PRIMARY in envMap {
        var escaped := EscapeDollarsPreserveDoubles(envMap[PRIMARY]);
        if escaped != envMap[PRIMARY] {
          envMap := envMap[PRIMARY := escaped];
          Push(PRIMARY, "escape-dollars");
        }
      }
    }

    method EnsureBasicAuth(g: Generator)
      modifies this
      ensures State() == WithBasicAuth(old(State()), g)
    {
      var userName, userPassword := UserName(envMap), UserPassword(envMap);
      var generated := EnsurePrimary(g);
      if Unset(envMap, FLOWER) {
        var account := FlowerAccount(envMap, userName, generated, userPassword, g);
        envMap := envMap[FLOWER := HtpasswdLine(account.user, g.flowerHash(account.password))];
        Push(FLOWER, "generate-basic-auth");
        StorePassword(FLOWER_PW, account.password);
      }
    }
  }
}
