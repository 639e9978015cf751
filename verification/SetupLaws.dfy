/** Laws of the setup steps: filled values are kept, and when a second pass changes
    nothing. */
module SetupLaws {
  import opened Wrappers
  import opened Text
  import opened DollarEscaping
  import opened Placeholders
  import opened SetupFilling
  import Decimals

  // ---- Keys ------------------------------------------------------------------------------

  lemma LastCharOfAllowlist(key: string)
    requires key != "" && Lower(key[|key| - 1]) != 't'
    ensures !AllowlistKey(key)
  {
    var p := "allowlist";
    if |key| >= 9 && Lower(key[|key| - 9 + 8]) == p[8] {
      assert false;
    }
  }

  lemma KeyKinds()
    ensures !AllowlistKey(IP_KEY) && !AllowlistKey(PRIMARY) && !AllowlistKey(FLOWER)
    ensures !AllowlistKey(PRIMARY_PW) && !AllowlistKey(FLOWER_PW)
  {
    LastCharOfAllowlist(IP_KEY);
    LastCharOfAllowlist(PRIMARY);
    LastCharOfAllowlist(FLOWER);
    LastCharOfAllowlist(PRIMARY_PW);
    LastCharOfAllowlist(FLOWER_PW);
  }

  const LISTS: set<string> := {ADMIN_LIST, FLOWER_LIST, PGADMIN_LIST}
  const CREDENTIALS: set<string> := {PRIMARY, FLOWER, PRIMARY_PW, FLOWER_PW}

  lemma KeysDiffer()
    ensures IP_KEY !in LISTS && IP_KEY !in CREDENTIALS && LISTS !! CREDENTIALS
    ensures |LISTS| == 3 && |CREDENTIALS| == 4
  {
    assert |IP_KEY| == 18 && |ADMIN_LIST| == 22 && |FLOWER_LIST| == 16 && |PGADMIN_LIST| == 17;
    assert |PRIMARY| == 24 && |FLOWER| == 18 && |PRIMARY_PW| == 17 && |FLOWER_PW| == 16;
    assert IP_KEY[0] == 'T' && FLOWER[0] == 'F' && PGADMIN_LIST[0] == 'P' && PRIMARY_PW[0] == 'T';
    assert FLOWER_LIST[8] == 'L' && FLOWER_PW[8] == 'C';
  }

  // ---- The template written into an allowlist --------------------------------------------

  lemma EndsInAllowlist(key: string)
    requires |key| >= 9 && key[|key| - 9..] == "ALLOWLIST"
    ensures AllowlistKey(key)
  {
    var start := |key| - 9;
    forall k | 0 <= k < 9 ensures Lower(key[start + k]) == "allowlist"[k] {
      assert key[start + k] == key[start..][k];
    }
  }

  lemma ListKeys(key: string)
    requires key in LISTS
    ensures AllowlistKey(key)
  {
    assert ADMIN_LIST[13..] == "ALLOWLIST" && FLOWER_LIST[7..] == "ALLOWLIST" && PGADMIN_LIST[8..] == "ALLOWLIST";
    EndsInAllowlist(key);
  }

  lemma OwnRangeHasNoMarker()
    ensures !Has(OWN_RANGE, "your_ip_address_here")
  {
    var p := "your_ip_address_here";
    assert |OWN_RANGE| == 24 && |p| == 20;
    forall i | 0 <= i <= 24 ensures !MatchAt(OWN_RANGE, i, p) {
      if i <= 4 {
        assert Lower(OWN_RANGE[i]) != p[0];
      }
    }
  }

  lemma OwnRangeShape()
    ensures OWN_RANGE != "" && Trim(OWN_RANGE, JsSpace) == OWN_RANGE && OwnAddressRange(OWN_RANGE)
  {
    assert OWN_ADDRESS[0] == '$';
    RangeShape(OWN_ADDRESS, "32");
  }

  lemma RangeShape(address: string, mask: string)
    requires address == OWN_ADDRESS && address != "" && !JsSpace(address[0])
    requires 1 <= |mask| <= 2 && Decimals.AllDigits(mask)
    ensures Trim(address + mask, JsSpace) == address + mask && OwnAddressRange(address + mask)
  {
    var v := address + mask;
    assert v[0] == address[0] && v[|v| - 1] == mask[|mask| - 1];
    assert v[..|address|] == address && v[|address|..] == mask;
  }

  lemma RangeIsFilled(v: string, key: string)
    ensures AllowlistKey(key) && v != "" && Trim(v, JsSpace) == v && OwnAddressRange(v) && !Has(v, "your_ip_address_here") ==>
      !Placeholder(Some(v), key)
  {
  }

  lemma OwnRangeIsFilled(key: string)
    requires key in LISTS
    ensures !Placeholder(Some(OWN_RANGE), key)
  {
    ListKeys(key);
    OwnRangeHasNoMarker();
    OwnRangeShape();
    RangeIsFilled(OWN_RANGE, key);
  }

  // ---- Frames -------------------------------------------------------------------------------

  lemma SetListsGet(s: Setup, admin: bool, flower: bool, pgadmin: bool, k: string)
    ensures Get(SetLists(s, admin, flower, pgadmin).env, k) ==
      if (k == ADMIN_LIST && admin) || (k == FLOWER_LIST && flower) || (k == PGADMIN_LIST && pgadmin) then Some(OWN_RANGE)
      else Get(s.env, k)
  {
  }

  /** The operator's address is known, or gets detected. */
  predicate AddressFound(env: Env, detection: Detection) {
    Proceeds(detection, Unset(env, IP_KEY))
  }

  /** The operator's address is known, or detected as something that is not itself a
      placeholder. */
  predicate AddressReady(env: Env, detection: Detection) {
    || !Unset(env, IP_KEY)
    || (detection.Detected? && !Placeholder(Some(Trim(detection.ip, JsSpace)), IP_KEY))
  }

  /** Whether the step gets as far as the lists. */
  predicate Proceeds(detection: Detection, needsIp: bool) {
    !needsIp || (detection.Detected? && Trim(detection.ip, JsSpace) != "")
  }

  lemma FillListsGet(s: Setup, detection: Detection, needsIp: bool, admin: bool, flower: bool, pgadmin: bool, k: string, needed: bool)
    requires (k == ADMIN_LIST ==> needed == admin) && (k == FLOWER_LIST ==> needed == flower) && (k == PGADMIN_LIST ==> needed == pgadmin)
    requires k == IP_KEY ==> needed == needsIp
    ensures Get(FillLists(s, detection, needsIp, admin, flower, pgadmin).env, k) ==
      if !needed || !Proceeds(detection, needsIp) then Get(s.env, k)
      else if k in LISTS then Some(OWN_RANGE)
      else if k == IP_KEY then Some(Trim(detection.ip, JsSpace))
      else Get(s.env, k)
  {
    IpIsNoList();
    if Proceeds(detection, needsIp) {
      var stored := if needsIp then Store(s, IP_KEY, Trim(detection.ip, JsSpace), "store-public-ip") else s;
      SetListsGet(stored, admin, flower, pgadmin, k);
    }
  }

  /** Key by key, what the allowlist step leaves. */
  lemma AllowlistsGet(s: Setup, detection: Detection, k: string)
    ensures Get(WithAllowlists(s, detection).env, k) ==
      if !Unset(s.env, k) || !AddressFound(s.env, detection) then Get(s.env, k)
      else if k in LISTS then Some(OWN_RANGE)
      else if k == IP_KEY then Some(Trim(detection.ip, JsSpace))
      else Get(s.env, k)
  {
    FillListsGet(s, detection, Unset(s.env, IP_KEY), Unset(s.env, ADMIN_LIST), Unset(s.env, FLOWER_LIST), Unset(s.env, PGADMIN_LIST),
                 k, Unset(s.env, k));
  }

  /** A list that is not filled in becomes the operator's own address. */
  lemma ListsReferToOwnAddress(s: Setup, detection: Detection, k: string)
    requires k in {"DJANGO_ADMIN_ALLOWLIST", "FLOWER_ALLOWLIST", "PGADMIN_ALLOWLIST"}
    requires Unset(s.env, k) && AddressFound(s.env, detection)
    ensures Get(WithAllowlists(s, detection).env, k) == Some("${TP_USER_IP_ADDRESS}/32")
  {
    assert k in LISTS;
    AllowlistsGet(s, detection, k);
    OwnRangeIs();
  }

  lemma OwnRangeIs()
    ensures OWN_RANGE == "${TP_USER_IP_ADDRESS}/32"
  {
  }

  lemma IpIsNoList()
    ensures IP_KEY !in LISTS
  {
    KeysDiffer();
  }

  lemma ReadyIsFound(env: Env, detection: Detection)
    requires AddressReady(env, detection)
    ensures AddressFound(env, detection)
  {
  }

  lemma AllowlistsFill(s: Setup, detection: Detection, k: string)
    requires AddressReady(s.env, detection) && (k == IP_KEY || k in LISTS)
    ensures !Unset(WithAllowlists(s, detection).env, k)
  {
    ReadyIsFound(s.env, detection);
    AllowlistsGet(s, detection, k);
    if k in LISTS {
      OwnRangeIsFilled(k);
    }
  }

  lemma StoreIfUnsetGet(s: Setup, key: string, value: string, unset: bool, k: string)
    requires unset == Unset(s.env, key)
    ensures Get(StoreIfUnset(s, key, value).env, k) == if k == key && unset then Some(value) else Get(s.env, k)
  {
  }

  lemma StoreTwiceGet(s: Setup, key: string, line: string, pwKey: string, password: string, k: string)
    requires key != pwKey
    ensures Get(StoreIfUnset(Store(s, key, line, "generate-basic-auth"), pwKey, password).env, k) ==
      if k == key then Some(line) else if k == pwKey && Unset(s.env, pwKey) then Some(password) else Get(s.env, k)
  {
    var stored := Store(s, key, line, "generate-basic-auth");
    assert Get(stored.env, pwKey) == Get(s.env, pwKey);
    StoreIfUnsetGet(stored, pwKey, password, Unset(s.env, pwKey), k);
  }

  lemma GeneratedPrimary(s: Setup, g: Generator, k: string)
    ensures var password := PrimaryPassword(s.env, g);
      Get(WithGenerated(s, g).env, k) ==
        if k == PRIMARY then Some(HtpasswdLine(UserName(s.env), g.hash(password)))
        else if k == PRIMARY_PW && Unset(s.env, PRIMARY_PW) then Some(password)
        else Get(s.env, k)
  {
    var password := PrimaryPassword(s.env, g);
    var line := HtpasswdLine(UserName(s.env), g.hash(password));
    assert PRIMARY != PRIMARY_PW by {
      KeysDiffer();
    }
    StoreTwiceGet(s, PRIMARY, line, PRIMARY_PW, password, k);
  }

  lemma EscapedGet(s: Setup, key: string, k: string)
    requires key in s.env
    ensures Get(WithEscaped(s, key).env, k) == if k == key then Some(Escape(s.env[key])) else Get(s.env, k)
  {
  }

  lemma SetIsPresent(env: Env, key: string)
    ensures !Unset(env, key) ==> key in env
  {
  }

  lemma FlowerKeeps(s: Setup, account: Account, g: Generator, k: string)
    requires k !in {FLOWER, FLOWER_PW} || !Unset(s.env, k)
    ensures Get(WithFlower(s, account, g).env, k) == Get(s.env, k)
  {
    KeysDiffer();
    if Unset(s.env, FLOWER) {
      StoreTwiceGet(s, FLOWER, HtpasswdLine(account.user, g.flowerHash(account.password)), FLOWER_PW, account.password, k);
    }
  }

  /** Filled credentials stay as they are, except that '$' in the primary line is
      escaped; a missing primary line becomes the user and the escaped hash. */
  lemma BasicAuthKeeps(s: Setup, g: Generator, k: string)
    requires k == PRIMARY || k !in CREDENTIALS || !Unset(s.env, k)
    ensures !Unset(s.env, PRIMARY) ==> PRIMARY in s.env
    ensures Get(WithBasicAuth(s, g).env, k) ==
      if k != PRIMARY then Get(s.env, k)
      else if Unset(s.env, PRIMARY) then Some(HtpasswdLine(UserName(s.env), g.hash(PrimaryPassword(s.env, g))))
      else Some(Escape(s.env[PRIMARY]))
  {
    KeysDiffer();
    var p := WithPrimary(s, g);
    var generated := if Unset(s.env, PRIMARY) then Some(PrimaryPassword(s.env, g)) else None;
    var account := FlowerAccount(p.env, UserName(s.env), generated, UserPassword(s.env), g);
    if Unset(s.env, PRIMARY) {
      GeneratedPrimary(s, g, k);
    } else {
      SetIsPresent(s.env, PRIMARY);
      EscapedGet(s, PRIMARY, k);
    }
    FlowerKeeps(p, account, g, k);
  }

  /** No step overwrites a value that was filled in, but for escaping the primary line. */
  lemma FilledValuesAreKept(s: Setup, detection: Detection, g: Generator, key: string)
    requires !Unset(s.env, key)
    ensures var t := WithBasicAuth(WithAllowlists(s, detection), g);
      key in s.env && Get(t.env, key) == Some(if key == PRIMARY then Escape(s.env[key]) else s.env[key])
  {
    AllowlistsGet(s, detection, key);
    BasicAuthKeeps(WithAllowlists(s, detection), g, key);
  }

  // ---- The second pass -------------------------------------------------------------------------

  lemma AllowlistsRest(s: Setup, detection: Detection)
    requires !Unset(s.env, IP_KEY) && forall k :: k in LISTS ==> !Unset(s.env, k)
    ensures WithAllowlists(s, detection) == s
  {
  }

  lemma BasicAuthRest(s: Setup, g: Generator)
    requires !Unset(s.env, PRIMARY) && !Unset(s.env, FLOWER)
    ensures WithBasicAuth(s, g) == s <==> PRIMARY in s.env && EvenRuns(s.env[PRIMARY])
  {
    EscapeEvensRuns(s.env[PRIMARY]);
    KeyKinds();
    EscapeStaysFilled(s.env[PRIMARY], PRIMARY);
    KeysDiffer();
    var p := WithPrimary(s, g);
    assert Get(p.env, FLOWER) == Get(s.env, FLOWER);
    assert WithBasicAuth(s, g) == p;
  }

  lemma HtpasswdRuns(user: string, hash: string)
    ensures EvenRuns(HtpasswdLine(user, hash)) <==> EvenRuns(user)
  {
    PairedAround(user, ':', Escape(hash));
    EscapePairs(hash);
    PairedIsEven(user);
    PairedIsEven(HtpasswdLine(user, hash));
  }

  /** Whose credentials Flower gets in a pass. */
  function FlowerOwner(a: Setup, g: Generator): Account {
    FlowerAccount(WithPrimary(a, g).env, UserName(a.env), if Unset(a.env, PRIMARY) then Some(PrimaryPassword(a.env, g)) else None,
                  UserPassword(a.env), g)
  }

  /** The lines a pass generates would not count as placeholders themselves. */
  predicate AcceptsGenerated(a: Setup, g: Generator) {
    && (Unset(a.env, PRIMARY) ==>
          !Placeholder(Some(HtpasswdLine(UserName(a.env), g.hash(PrimaryPassword(a.env, g)))), PRIMARY))
    && (Unset(a.env, FLOWER) ==>
          !Placeholder(Some(HtpasswdLine(FlowerOwner(a, g).user, g.flowerHash(FlowerOwner(a, g).password))), FLOWER))
  }

  lemma PrimaryKeepsFlower(a: Setup, g: Generator)
    ensures Get(WithPrimary(a, g).env, FLOWER) == Get(a.env, FLOWER)
  {
    KeysDiffer();
    if Unset(a.env, PRIMARY) {
      GeneratedPrimary(a, g, FLOWER);
    }
  }

  lemma FlowerGet(a: Setup, g: Generator)
    ensures var owner := FlowerOwner(a, g);
      Get(WithBasicAuth(a, g).env, FLOWER) ==
        if Unset(a.env, FLOWER) then Some(HtpasswdLine(owner.user, g.flowerHash(owner.password))) else Get(a.env, FLOWER)
  {
    PrimaryKeepsFlower(a, g);
    KeysDiffer();
    var p, owner := WithPrimary(a, g), FlowerOwner(a, g);
    if Unset(a.env, FLOWER) {
      StoreTwiceGet(p, FLOWER, HtpasswdLine(owner.user, g.flowerHash(owner.password)), FLOWER_PW, owner.password, FLOWER);
    }
  }

  /** A pass leaves both lines filled exactly when it accepts what it generates. */
  lemma FirstPassFillsIff(a: Setup, g: Generator)
    ensures AcceptsGenerated(a, g) <==> !Unset(WithBasicAuth(a, g).env, PRIMARY) && !Unset(WithBasicAuth(a, g).env, FLOWER)
  {
    BasicAuthKeeps(a, g, PRIMARY);
    FlowerGet(a, g);
    KeyKinds();
    if !Unset(a.env, PRIMARY) {
      EscapeStaysFilled(a.env[PRIMARY], PRIMARY);
    }
  }

  /** The address is filled in after a pass exactly when it was ready. */
  lemma AddressFilledIff(s: Setup, detection: Detection, g: Generator)
    ensures AddressReady(s.env, detection) <==> !Unset(WithBasicAuth(WithAllowlists(s, detection), g).env, IP_KEY)
  {
    KeysDiffer();
    AllowlistsGet(s, detection, IP_KEY);
    BasicAuthKeeps(WithAllowlists(s, detection), g, IP_KEY);
  }

  lemma AllowlistsLog(s: Setup, detection: Detection)
    ensures |WithAllowlists(s, detection).changes| >= |s.changes|
    ensures Unset(s.env, IP_KEY) ==> |WithAllowlists(s, detection).changes| > |s.changes|
  {
  }

  lemma PrimaryLogs(s: Setup, g: Generator)
    ensures |WithPrimary(s, g).changes| >= |s.changes|
    ensures Unset(s.env, PRIMARY) ==> |WithPrimary(s, g).changes| > |s.changes|
  {
  }

  lemma FlowerLogs(s: Setup, account: Account, g: Generator)
    ensures |WithFlower(s, account, g).changes| >= |s.changes|
    ensures Unset(s.env, FLOWER) ==> |WithFlower(s, account, g).changes| > |s.changes|
  {
  }

  lemma BasicAuthLogs(s: Setup, g: Generator)
    ensures |WithBasicAuth(s, g).changes| >= |s.changes|
    ensures Unset(s.env, PRIMARY) || Unset(s.env, FLOWER) ==> |WithBasicAuth(s, g).changes| > |s.changes|
  {
    PrimaryKeepsFlower(s, g);
    PrimaryLogs(s, g);
    FlowerLogs(WithPrimary(s, g), FlowerOwner(s, g), g);
  }

  /** A pass that still has to fill something plans a change. */
  lemma UnsetIsLogged(s: Setup, detection: Detection, g: Generator)
    requires Unset(s.env, IP_KEY) || Unset(s.env, PRIMARY) || Unset(s.env, FLOWER)
    ensures WithBasicAuth(WithAllowlists(s, detection), g) != s
  {
    var a := WithAllowlists(s, detection);
    KeysDiffer();
    AllowlistsGet(s, detection, PRIMARY);
    AllowlistsGet(s, detection, FLOWER);
    AllowlistsLog(s, detection);
    BasicAuthLogs(a, g);
  }

  lemma FilledPassRests(s: Setup, d1: Detection, g1: Generator, d2: Detection, g2: Generator)
    requires AddressReady(s.env, d1) && AcceptsGenerated(WithAllowlists(s, d1), g1)
    ensures var a := WithAllowlists(s, d1);
      var first := WithBasicAuth(a, g1);
      WithBasicAuth(WithAllowlists(first, d2), g2) == first <==> (Unset(a.env, PRIMARY) ==> EvenRuns(UserName(a.env)))
  {
    var a := WithAllowlists(s, d1);
    var first := WithBasicAuth(a, g1);
    KeysDiffer();
    BasicAuthKeeps(a, g1, PRIMARY);
    forall k | k == IP_KEY || k in LISTS ensures !Unset(first.env, k) {
      AllowlistsFill(s, d1, k);
      BasicAuthKeeps(a, g1, k);
    }
    AllowlistsRest(first, d2);
    FirstPassFillsIff(a, g1);
    BasicAuthRest(first, g2);
    if Unset(a.env, PRIMARY) {
      HtpasswdRuns(UserName(a.env), g1.hash(PrimaryPassword(a.env, g1)));
    } else {
      EscapeEvensRuns(a.env[PRIMARY]);
    }
  }

  /** A second pass, whatever is detected or generated in it, changes nothing exactly
      when the first one had or found an address, accepts the lines it generated, and
      generated no primary line for a user name with an odd run of '$'. */
  lemma SecondPassUnchangedIff(s: Setup, d1: Detection, g1: Generator, d2: Detection, g2: Generator)
    ensures var a := WithAllowlists(s, d1);
      var first := WithBasicAuth(a, g1);
      WithBasicAuth(WithAllowlists(first, d2), g2) == first <==>
        && AddressReady(s.env, d1) && AcceptsGenerated(a, g1)
        && (Unset(a.env, PRIMARY) ==> EvenRuns(UserName(a.env)))
  {
    var a := WithAllowlists(s, d1);
    AddressFilledIff(s, d1, g1);
    FirstPassFillsIff(a, g1);
    if AddressReady(s.env, d1) && AcceptsGenerated(a, g1) {
      FilledPassRests(s, d1, g1, d2, g2);
    } else {
      UnsetIsLogged(WithBasicAuth(a, g1), d2, g2);
    }
  }

  // ---- A user name left as the template has it -------------------------------------------------

  lemma {:induction false} TrimEndKeeps(head: string, tail: string)
    requires head != "" && !JsSpace(head[|head| - 1])
    ensures head <= TrimEnd(head + tail, JsSpace)
    decreases |tail|
  {
    if tail == "" || !JsSpace(tail[|tail| - 1]) {
      assert tail == "" ==> head + tail == head;
    } else {
      TrimEndKeeps(head, tail[..|tail| - 1]);
      assert (head + tail)[..|head + tail| - 1] == head + tail[..|tail| - 1];
    }
  }

  lemma TrimKeepsHead(head: string, tail: string)
    requires head != "" && !JsSpace(head[0]) && !JsSpace(head[|head| - 1])
    ensures head <= Trim(head + tail, JsSpace)
  {
    assert (head + tail)[0] == head[0];
    TrimEndKeeps(head, tail);
  }

  lemma YourPrefix(head: string, v: string)
    requires head <= v && MatchAt(head, 0, "your")
    ensures StartPattern(v)
  {
    forall k | 0 <= k < 4 ensures Lower(v[k]) == "your"[k] {
      assert v[k] == head[k];
    }
    assert MatchAt(v, 0, "your");
  }

  /** Whatever the hash: with a user name that starts with "your" the line counts as
      not filled in. */
  lemma YourLineIsPlaceholder(user: string, hash: string)
    requires MatchAt(user, 0, "your")
    ensures Placeholder(Some(HtpasswdLine(user, hash)), PRIMARY)
  {
    var head := user + ":";
    assert Lower(user[0]) == "your"[0] && head[0] == user[0];
    TrimKeepsHead(head, Escape(hash));
    YourPrefix(user, head);
    YourPrefix(user, Trim(head + Escape(hash), JsSpace));
    KeyKinds();
  }

  const TEMPLATE_USER := "YOUR_USERNAME_HERE"

  lemma NoRuns(s: string)
    requires forall i :: 0 <= i < |s| ==> s[i] != '$'
    ensures EvenRuns(s)
  {
    forall i: nat, j: nat ensures !MaximalRun(s, i, j) {
      assert i < |s| ==> s[i] != '$';
    }
  }

  lemma TemplateUserShape()
    ensures MatchAt(TEMPLATE_USER, 0, "your") && EvenRuns(TEMPLATE_USER)
  {
    var p := "your";
    assert Lower(TEMPLATE_USER[0]) == p[0] && Lower(TEMPLATE_USER[1]) == p[1];
    assert Lower(TEMPLATE_USER[2]) == p[2] && Lower(TEMPLATE_USER[3]) == p[3];
    assert MatchAt(TEMPLATE_USER, 0, p);
    NoRuns(TEMPLATE_USER);
  }

  /** The template's own user name has no '$', and yet every pass generates its
      credentials again. */
  lemma TemplateUserIsRegenerated(s: Setup, d1: Detection, g1: Generator, d2: Detection, g2: Generator)
    requires var a := WithAllowlists(s, d1); Unset(a.env, PRIMARY) && UserName(a.env) == TEMPLATE_USER
    ensures var first := WithBasicAuth(WithAllowlists(s, d1), g1);
      EvenRuns(TEMPLATE_USER) && WithBasicAuth(WithAllowlists(first, d2), g2) != first
  {
    var a := WithAllowlists(s, d1);
    TemplateUserShape();
    YourLineIsPlaceholder(TEMPLATE_USER, g1.hash(PrimaryPassword(a.env, g1)));
    SecondPassUnchangedIff(s, d1, g1, d2, g2);
  }

  // ---- Whose credentials these are ----------------------------------------------------------------------

  /** The name and password that the operator asks to be used, if any. */
  predicate AsksFor(env: Env, flag: string, key: string, value: string) {
    && flag in env && LowerCase(Trim(env[flag], JsSpace)) == "true"
    && key in env && value == Trim(env[key], JsSpace) && value != ""
  }

  /** A generated primary line is for the operator's own name if asked for, else for
      "admin", and its password is the operator's if asked for, else random; the
      password is stored beside it unless one is there. */
  lemma PrimaryAccount(a: Setup, g: Generator, name: string, password: string)
    requires Unset(a.env, PRIMARY)
    requires if exists v :: AsksFor(a.env, "APPLY_USER_NAME_DEFAULTS", "USER_MAIN_NAME", v)
             then AsksFor(a.env, "APPLY_USER_NAME_DEFAULTS", "USER_MAIN_NAME", name) else name == "admin"
    requires if exists v :: AsksFor(a.env, "APPLY_USER_PASSWORD_DEFAULTS", "USER_MAIN_PASSWORD", v)
             then AsksFor(a.env, "APPLY_USER_PASSWORD_DEFAULTS", "USER_MAIN_PASSWORD", password) else password == g.password
    ensures var env := WithBasicAuth(a, g).env;
      && Get(env, "TRAEFIK_DASH_BASIC_USERS") == Some(name + ":" + Escape(g.hash(password)))
      && (Unset(a.env, PRIMARY_PW) ==> Get(env, "TRAEFIK_ACTUAL_PW") == Some(password))
  {
    NameAskedFor(a.env, name);
    PasswordAskedFor(a.env, g, password);
    BasicAuthKeeps(a, g, PRIMARY);
    GeneratedPrimary(a, g, PRIMARY_PW);
    PasswordStays(a, g);
  }

  lemma NameAskedFor(env: Env, name: string)
    requires if exists v :: AsksFor(env, "APPLY_USER_NAME_DEFAULTS", "USER_MAIN_NAME", v)
             then AsksFor(env, "APPLY_USER_NAME_DEFAULTS", "USER_MAIN_NAME", name) else name == "admin"
    ensures UserName(env) == name
  {
    var v := TrimmedValue(env, "USER_MAIN_NAME");
    assert UserName(env) == v && v != "" ==> Flag(env, "APPLY_USER_NAME_DEFAULTS") || v == "admin";
    if Flag(env, "APPLY_USER_NAME_DEFAULTS") && v != "" {
      assert AsksFor(env, "APPLY_USER_NAME_DEFAULTS", "USER_MAIN_NAME", v);
    }
  }

  lemma PasswordAskedFor(env: Env, g: Generator, password: string)
    requires if exists v :: AsksFor(env, "APPLY_USER_PASSWORD_DEFAULTS", "USER_MAIN_PASSWORD", v)
             then AsksFor(env, "APPLY_USER_PASSWORD_DEFAULTS", "USER_MAIN_PASSWORD", password) else password == g.password
    ensures PrimaryPassword(env, g) == password
  {
    var v := TrimmedValue(env, "USER_MAIN_PASSWORD");
    if Flag(env, "APPLY_USER_PASSWORD_DEFAULTS") && v != "" {
      assert AsksFor(env, "APPLY_USER_PASSWORD_DEFAULTS", "USER_MAIN_PASSWORD", v);
    }
  }

  lemma PasswordStays(a: Setup, g: Generator)
    ensures Get(WithBasicAuth(a, g).env, PRIMARY_PW) == Get(WithPrimary(a, g).env, PRIMARY_PW)
  {
    KeysDiffer();
    FlowerKeeps(WithPrimary(a, g), FlowerOwner(a, g), g, PRIMARY_PW);
  }

  /** A Flower line is for the account just generated for the primary line. */
  lemma FlowerSharesGenerated(a: Setup, g: Generator)
    requires Unset(a.env, FLOWER) && Unset(a.env, PRIMARY) && PrimaryPassword(a.env, g) != ""
    ensures Get(WithBasicAuth(a, g).env, "FLOWER_BASIC_USERS")
      == Some(UserName(a.env) + ":" + Escape(g.flowerHash(PrimaryPassword(a.env, g))))
  {
    FlowerGet(a, g);
  }

  /** Beside a stored primary line it is for that line's user, when the password of the
      primary line is stored, and with that password. */
  lemma FlowerSharesStored(a: Setup, g: Generator, user: string, rest: string)
    requires Unset(a.env, FLOWER) && !Unset(a.env, PRIMARY) && !Unset(a.env, PRIMARY_PW)
    requires Escape(a.env[PRIMARY]) == user + ":" + rest && ':' !in user && user != ""
    ensures PRIMARY_PW in a.env
    ensures Get(WithBasicAuth(a, g).env, "FLOWER_BASIC_USERS") == Some(user + ":" + Escape(g.flowerHash(a.env[PRIMARY_PW])))
  {
    SetIsPresent(a.env, PRIMARY_PW);
    PrimaryAfter(a, g);
    StoredAccount(WithPrimary(a, g).env, user + ":" + rest, a.env[PRIMARY_PW], UserName(a.env), UserPassword(a.env), g, user, rest);
    FlowerGet(a, g);
  }

  lemma PrimaryAfter(a: Setup, g: Generator)
    requires !Unset(a.env, PRIMARY)
    ensures PRIMARY in a.env && Get(WithPrimary(a, g).env, PRIMARY) == Some(Escape(a.env[PRIMARY]))
    ensures Get(WithPrimary(a, g).env, PRIMARY_PW) == Get(a.env, PRIMARY_PW)
  {
    KeysDiffer();
    SetIsPresent(a.env, PRIMARY);
    EscapedGet(a, PRIMARY, PRIMARY_PW);
    EscapedGet(a, PRIMARY, PRIMARY);
  }

  lemma StoredAccount(env: Env, line: string, password: string, name: string, configured: Option<string>, g: Generator,
                      user: string, rest: string)
    requires Get(env, PRIMARY) == Some(line) && Get(env, PRIMARY_PW) == Some(password) && !Unset(env, PRIMARY_PW)
    requires line == user + ":" + rest && ':' !in user && user != ""
    ensures FlowerAccount(env, name, None, configured, g) == Account(user, password)
  {
    BeforeColonOf(user, rest);
  }

  lemma {:induction false} BeforeColonOf(user: string, rest: string)
    requires ':' !in user
    ensures BeforeColon(user + ":" + rest) == user
  {
    if user == "" {
    } else {
      BeforeColonOf(user[1..], rest);
      assert (user + ":" + rest)[1..] == user[1..] + ":" + rest;
    }
  }

  /** Else it is for the operator's name, with the password asked for or a random one. */
  lemma FlowerAlone(a: Setup, g: Generator)
    requires Unset(a.env, FLOWER) && !Unset(a.env, PRIMARY) && Unset(a.env, PRIMARY_PW)
    ensures var password := if UserPassword(a.env).Some? then UserPassword(a.env).value else g.flowerPassword;
      Get(WithBasicAuth(a, g).env, "FLOWER_BASIC_USERS") == Some(UserName(a.env) + ":" + Escape(g.flowerHash(password)))
  {
    PrimaryAfter(a, g);
    FlowerGet(a, g);
  }

  // ---- What is planned ------------------------------------------------------------------------------------

  function When(condition: bool, key: string, action: string): seq<Change> {
    if condition then [Change(key, action)] else []
  }

  function ListPlan(admin: bool, flower: bool, pgadmin: bool): seq<Change> {
    When(admin, "DJANGO_ADMIN_ALLOWLIST", "set-allowlist-template") + When(flower, "FLOWER_ALLOWLIST", "set-allowlist-template")
    + When(pgadmin, "PGADMIN_ALLOWLIST", "set-allowlist-template")
  }

  lemma ListsPlan(s: Setup, admin: bool, flower: bool, pgadmin: bool)
    ensures SetLists(s, admin, flower, pgadmin).changes == s.changes + ListPlan(admin, flower, pgadmin)
  {
  }

  /** The allowlist step plans a change for the address and for each list it fills. */
  lemma AllowlistsPlan(s: Setup, detection: Detection)
    ensures var key := "TP_USER_IP_ADDRESS";
      var lists := ListPlan(Unset(s.env, "DJANGO_ADMIN_ALLOWLIST"), Unset(s.env, "FLOWER_ALLOWLIST"), Unset(s.env, "PGADMIN_ALLOWLIST"));
      WithAllowlists(s, detection).changes == s.changes +
        if !Unset(s.env, key) then lists
        else if detection.NoDetector? then [Change(key, "ip-detect-skipped")]
        else if detection.Failed? then [Change(key, "ip-detect-failed:" + detection.message)]
        else if Trim(detection.ip, JsSpace) == "" then [Change(key, "ip-detect-failed:empty-result")]
        else [Change(key, "store-public-ip")] + lists
  {
    FillListsPlan(s, detection, Unset(s.env, IP_KEY), Unset(s.env, ADMIN_LIST), Unset(s.env, FLOWER_LIST), Unset(s.env, PGADMIN_LIST));
  }

  lemma FillListsPlan(s: Setup, detection: Detection, needsIp: bool, admin: bool, flower: bool, pgadmin: bool)
    ensures var key := "TP_USER_IP_ADDRESS";
      FillLists(s, detection, needsIp, admin, flower, pgadmin).changes == s.changes +
        if !needsIp then ListPlan(admin, flower, pgadmin)
        else if detection.NoDetector? then [Change(key, "ip-detect-skipped")]
        else if detection.Failed? then [Change(key, "ip-detect-failed:" + detection.message)]
        else if Trim(detection.ip, JsSpace) == "" then [Change(key, "ip-detect-failed:empty-result")]
        else [Change(key, "store-public-ip")] + ListPlan(admin, flower, pgadmin)
  {
    ListsPlan(s, admin, flower, pgadmin);
    if detection.Detected? {
      ListsPlan(Store(s, IP_KEY, Trim(detection.ip, JsSpace), "store-public-ip"), admin, flower, pgadmin);
    }
  }

  /** The basic-auth step plans the primary line, its password, the Flower line and its
      password, in that order. */
  lemma PrimaryPlans(a: Setup, g: Generator)
    ensures var key := "TRAEFIK_DASH_BASIC_USERS";
      WithPrimary(a, g).changes == a.changes +
        if Unset(a.env, key)
        then [Change(key, "generate-basic-auth")] + When(Unset(a.env, "TRAEFIK_ACTUAL_PW"), "TRAEFIK_ACTUAL_PW", "store-generated-password")
        else When(key in a.env && Escape(a.env[key]) != a.env[key], key, "escape-dollars")
  {
    KeysDiffer();
  }

  lemma FlowerPlan(p: Setup, account: Account, g: Generator)
    ensures WithFlower(p, account, g).changes == p.changes +
      if Unset(p.env, "FLOWER_BASIC_USERS")
      then [Change("FLOWER_BASIC_USERS", "generate-basic-auth")]
           + When(Unset(p.env, "FLOWER_ACTUAL_PW"), "FLOWER_ACTUAL_PW", "store-generated-password")
      else []
  {
    KeysDiffer();
  }

  lemma FlowerPlans(a: Setup, g: Generator)
    ensures WithBasicAuth(a, g).changes == WithPrimary(a, g).changes +
      if Unset(a.env, "FLOWER_BASIC_USERS")
      then [Change("FLOWER_BASIC_USERS", "generate-basic-auth")]
           + When(Unset(a.env, "FLOWER_ACTUAL_PW"), "FLOWER_ACTUAL_PW", "store-generated-password")
      else []
  {
    PrimaryKeepsFlower(a, g);
    PrimaryKeepsFlowerPassword(a, g);
    FlowerPlan(WithPrimary(a, g), FlowerOwner(a, g), g);
  }

  lemma PrimaryKeepsFlowerPassword(a: Setup, g: Generator)
    ensures Get(WithPrimary(a, g).env, FLOWER_PW) == Get(a.env, FLOWER_PW)
  {
    KeysDiffer();
    if Unset(a.env, PRIMARY) {
      GeneratedPrimary(a, g, FLOWER_PW);
    } else {
      SetIsPresent(a.env, PRIMARY);
      EscapedGet(a, PRIMARY, FLOWER_PW);
    }
  }
}
