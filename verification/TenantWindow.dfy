/** api/security/tenant_limits.py: a counter whose window is anchored at its first
    call through the key's expiry. With calls as single steps any interval of one
    window length admits at most twice the maximum. With the TTL read and the
    pipeline as separate steps a key can lose its expiry, and gets one back. */
module TenantWindow {
  import opened Wrappers
  import opened ExpiringStore
  import opened ColonText
  import opened Text
  import opened AnchoredWindow
  import opened Limits
  import Decimals
  import FixedWindow

  /** A call, with the tenant identifier already stripped. */
  datatype Hit = Hit(at: int, scope: string, tenant: string)

  function KeyFor(prefix: string, scope: string, windowMs: nat, tenant: string): string {
    prefix + ":tenant_rl:" + scope + ":" + Decimals.ToString(windowMs) + ":" + tenant
  }

  function RetryAfter(ttl: int, windowMs: int): int {
    var remaining := if ttl > 0 then ttl else windowMs;
    var seconds := (remaining + 999) / 1000;
    if seconds < 1 then 1 else seconds
  }

  /** The pipeline: INCR, and PEXPIRE when the TTL read found none. */
  function Pipeline(db: Db, k: string, needExpiry: bool, windowMs: int, now: int): Db {
    var db1 := AfterIncr(db, k, now);
    if needExpiry then AfterPExpire(db1, k, windowMs, now) else db1
  }

  /** A call on its key: TTL read, pipeline, and the second TTL read when over. */
  function CheckKey(limit: Limit, db: Db, k: string, at: int): (Db, Answer)
    requires limit.windowMs > 0
  {
    var db1 := Pipeline(db, k, TtlOf(db, k, at) < 0, limit.windowMs, at);
    var count := db1.entries[k].count;
    (db1, if count > limit.maxRequests then Answer(count, true, RetryAfter(TtlOf(db1, k, at), limit.windowMs)) else Answer(count, false, 0))
  }

  /** One call as one step. A blank tenant is over the limit without a count. */
  function Check(prefix: string, limit: Limit, db: Db, hit: Hit): (Db, Answer)
    requires limit.windowMs > 0
  {
    if hit.tenant == "" then (db, Answer(0, true, 1))
    else CheckKey(limit, db, KeyFor(prefix, hit.scope, limit.windowMs, hit.tenant), hit.at)
  }

  method IncrAndCheck(redis: Redis, prefix: string, limit: Limit, tenantId: string, scope: string, now: int)
    returns (answer: Answer)
    requires limit.windowMs > 0
    modifies redis
    ensures (redis.Contents(), answer) == Check(prefix, limit, old(redis.Contents()), Hit(now, scope, Trim(tenantId, PySpace)))
    ensures Trim(tenantId, PySpace) == "" ==> answer == Answer(0, true, 1) && redis.Contents() == old(redis.Contents())
  {
    var tenant := Trim(tenantId, PySpace);
    if tenant == "" {
      return Answer(0, true, 1);
    }
    answer := CountCall(redis, limit, KeyFor(prefix, scope, limit.windowMs, tenant), now);
  }

  method CountCall(redis: Redis, limit: Limit, k: string, now: int) returns (answer: Answer)
    requires limit.windowMs > 0
    modifies redis
    ensures (redis.Contents(), answer) == CheckKey(limit, old(redis.Contents()), k, now)
  {
    var ttl := redis.PTtl(k, now);
    var count := redis.Incr(k, now);
    if ttl < 0 {
      redis.PExpire(k, limit.windowMs, now);
    }
    if count <= limit.maxRequests {
      return Answer(count, false, 0);
    }
    var ttl2 := redis.PTtl(k, now);
    var remaining := if ttl2 > 0 then ttl2 else limit.windowMs;
    var retryAfter := (remaining + 999) / 1000;
    if retryAfter < 1 {
      retryAfter := 1;
    }
    return Answer(count, true, retryAfter);
  }

  lemma KeysAreDistinct(prefix: string, s1: string, w1: nat, t1: string, s2: string, w2: nat, t2: string)
    requires NoColon(s1) && NoColon(s2) && KeyFor(prefix, s1, w1, t1) == KeyFor(prefix, s2, w2, t2)
    ensures s1 == s2 && w1 == w2 && t1 == t2
  {
    var d1, d2 := Decimals.ToString(w1), Decimals.ToString(w2);
    var head := prefix + ":tenant_rl:";
    assert KeyFor(prefix, s1, w1, t1)[|head|..] == s1 + ":" + (d1 + ":" + t1);
    assert KeyFor(prefix, s2, w2, t2)[|head|..] == s2 + ":" + (d2 + ":" + t2);
    SplitAtColon(s1, d1 + ":" + t1, s2, d2 + ":" + t2);
    SplitAtColon(d1, t1, d2, t2);
    Decimals.ToStringInjective(w1, w2);
  }

  /** The two limiters never share a key. */
  lemma LimitersShareNoKey(prefix: string, s1: string, identifier: string, start: nat, s2: string, w: nat, tenant: string)
    ensures FixedWindow.KeyFor(prefix, s1, identifier, start) != KeyFor(prefix, s2, w, tenant)
  {
    assert FixedWindow.KeyFor(prefix, s1, identifier, start)[|prefix| + 1] == ":rl:"[1];
    assert KeyFor(prefix, s2, w, tenant)[|prefix| + 1] == ":tenant_rl:"[1];
  }

  // ---- Runs of single-step calls ------------------------------------------------------

  ghost predicate Ordered(hits: seq<Hit>, policy: string -> Limit) {
    && (forall i, j :: 0 <= i < j < |hits| ==> hits[i].at <= hits[j].at)
    && (forall i :: 0 <= i < |hits| ==> NoColon(hits[i].scope) && policy(hits[i].scope).windowMs > 0)
  }

  ghost function DbAfter(prefix: string, policy: string -> Limit, grace: nat, hits: seq<Hit>): Db
    requires Ordered(hits, policy)
  {
    if hits == [] then Db(map[], grace)
    else
      var last := hits[|hits| - 1];
      Check(prefix, policy(last.scope), DbAfter(prefix, policy, grace, hits[..|hits| - 1]), last).0
  }

  ghost function LastAnswer(prefix: string, policy: string -> Limit, grace: nat, hits: seq<Hit>): Answer
    requires Ordered(hits, policy) && hits != []
  {
    var last := hits[|hits| - 1];
    Check(prefix, policy(last.scope), DbAfter(prefix, policy, grace, hits[..|hits| - 1]), last).1
  }

  /** A call that counts for a (scope, tenant) pair. */
  predicate For(hit: Hit, scope: string, tenant: string) {
    hit.scope == scope && hit.tenant == tenant
  }

  /** When the pair was called. */
  function TimesOf(hits: seq<Hit>, scope: string, tenant: string): seq<int> {
    if hits == [] then []
    else
      var earlier := TimesOf(hits[..|hits| - 1], scope, tenant);
      if For(hits[|hits| - 1], scope, tenant) then earlier + [hits[|hits| - 1].at] else earlier
  }

  /** When the pair's calls were admitted. */
  ghost function AdmittedTimes(prefix: string, policy: string -> Limit, grace: nat, hits: seq<Hit>, scope: string, tenant: string): seq<int>
    requires Ordered(hits, policy)
  {
    if hits == [] then []
    else
      var earlier := AdmittedTimes(prefix, policy, grace, hits[..|hits| - 1], scope, tenant);
      if For(hits[|hits| - 1], scope, tenant) && !LastAnswer(prefix, policy, grace, hits).over
      then earlier + [hits[|hits| - 1].at] else earlier
  }

  /** The entry that stands for a window. */
  predicate Represents(db: Db, k: string, w: Window, windowMs: int) {
    match w
    case NoWindow => k !in db.entries
    case Window(anchor, count) => k in db.entries && db.entries[k] == Entry(count, Some(anchor + windowMs))
  }

  lemma CheckTouchesOneKey(prefix: string, limit: Limit, db: Db, hit: Hit, k: string)
    requires limit.windowMs > 0
    requires hit.tenant != "" ==> k != KeyFor(prefix, hit.scope, limit.windowMs, hit.tenant)
    ensures var t := Check(prefix, limit, db, hit).0;
      t.grace == db.grace && (k in t.entries <==> k in db.entries) && (k in db.entries ==> t.entries[k] == db.entries[k])
  {
  }

  /** On its own key a call is one advance of the anchored window. */
  lemma CheckAdvances(prefix: string, limit: Limit, db: Db, hit: Hit, w: Window)
    requires limit.windowMs > 0 && hit.tenant != "" && db.grace <= 1
    requires Represents(db, KeyFor(prefix, hit.scope, limit.windowMs, hit.tenant), w, limit.windowMs)
    ensures var k := KeyFor(prefix, hit.scope, limit.windowMs, hit.tenant);
      var (t, answer) := Check(prefix, limit, db, hit);
      var advanced := Advance(w, hit.at, limit.windowMs + db.grace);
      && t.grace == db.grace && Represents(t, k, advanced, limit.windowMs)
      && answer.count == advanced.count && (answer.over <==> answer.count > limit.maxRequests)
  {
  }

  lemma OtherCallKeepsKey(prefix: string, policy: string -> Limit, db: Db, hit: Hit, scope: string, tenant: string)
    requires NoColon(scope) && NoColon(hit.scope) && policy(scope).windowMs > 0 && policy(hit.scope).windowMs > 0 && tenant != ""
    requires !For(hit, scope, tenant)
    ensures var k := KeyFor(prefix, scope, policy(scope).windowMs, tenant);
      var t := Check(prefix, policy(hit.scope), db, hit).0;
      t.grace == db.grace && (k in t.entries <==> k in db.entries) && (k in db.entries ==> t.entries[k] == db.entries[k])
  {
    var k := KeyFor(prefix, scope, policy(scope).windowMs, tenant);
    if hit.tenant != "" && k == KeyFor(prefix, hit.scope, policy(hit.scope).windowMs, hit.tenant) {
      KeysAreDistinct(prefix, scope, policy(scope).windowMs, tenant, hit.scope, policy(hit.scope).windowMs, hit.tenant);
    }
    CheckTouchesOneKey(prefix, policy(hit.scope), db, hit, k);
  }

  lemma StoreStep(prefix: string, limit: Limit, db: Db, hit: Hit, times: seq<int>)
    requires limit.windowMs > 0 && hit.tenant != "" && db.grace <= 1
    requires Represents(db, KeyFor(prefix, hit.scope, limit.windowMs, hit.tenant), WindowAfter(times, limit.windowMs + db.grace), limit.windowMs)
    ensures var k := KeyFor(prefix, hit.scope, limit.windowMs, hit.tenant);
      var (t, answer) := Check(prefix, limit, db, hit);
      var w := WindowAfter(times + [hit.at], limit.windowMs + db.grace);
      t.grace == db.grace && Represents(t, k, w, limit.windowMs) && answer.count == w.count
  {
    assert (times + [hit.at])[..|times|] == times;
    CheckAdvances(prefix, limit, db, hit, WindowAfter(times, limit.windowMs + db.grace));
  }

  /** The stored entry stands for the window of the call history, and so does the
      answer to the last call. */
  ghost predicate Follows(prefix: string, policy: string -> Limit, grace: nat, hits: seq<Hit>, scope: string, tenant: string)
    requires Ordered(hits, policy) && policy(scope).windowMs > 0 && tenant != ""
  {
    var w := policy(scope).windowMs;
    var window := WindowAfter(TimesOf(hits, scope, tenant), w + grace);
    && DbAfter(prefix, policy, grace, hits).grace == grace
    && Represents(DbAfter(prefix, policy, grace, hits), KeyFor(prefix, scope, w, tenant), window, w)
    && (hits != [] && For(hits[|hits| - 1], scope, tenant) ==> LastAnswer(prefix, policy, grace, hits).count == window.count)
  }

  lemma OwnCallFollows(prefix: string, policy: string -> Limit, grace: nat, hits: seq<Hit>, scope: string, tenant: string)
    requires Ordered(hits, policy) && NoColon(scope) && policy(scope).windowMs > 0 && tenant != "" && grace <= 1
    requires hits != [] && For(hits[|hits| - 1], scope, tenant) && Follows(prefix, policy, grace, hits[..|hits| - 1], scope, tenant)
    ensures Follows(prefix, policy, grace, hits, scope, tenant)
  {
    var before, last := hits[..|hits| - 1], hits[|hits| - 1];
    StoreStep(prefix, policy(scope), DbAfter(prefix, policy, grace, before), last, TimesOf(before, scope, tenant));
  }

  lemma OtherCallFollows(prefix: string, policy: string -> Limit, grace: nat, hits: seq<Hit>, scope: string, tenant: string)
    requires Ordered(hits, policy) && NoColon(scope) && policy(scope).windowMs > 0 && tenant != "" && grace <= 1
    requires hits != [] && !For(hits[|hits| - 1], scope, tenant) && Follows(prefix, policy, grace, hits[..|hits| - 1], scope, tenant)
    ensures Follows(prefix, policy, grace, hits, scope, tenant)
  {
    var before, last := hits[..|hits| - 1], hits[|hits| - 1];
    OtherCallKeepsKey(prefix, policy, DbAfter(prefix, policy, grace, before), last, scope, tenant);
  }

  lemma {:induction false} FollowsAlways(
    prefix: string, policy: string -> Limit, grace: nat, hits: seq<Hit>, scope: string, tenant: string)
    requires Ordered(hits, policy) && NoColon(scope) && policy(scope).windowMs > 0 && tenant != "" && grace <= 1
    ensures Follows(prefix, policy, grace, hits, scope, tenant)
    decreases |hits|
  {
    if hits == [] {
    } else {
      FollowsAlways(prefix, policy, grace, hits[..|hits| - 1], scope, tenant);
      if For(hits[|hits| - 1], scope, tenant) {
        OwnCallFollows(prefix, policy, grace, hits, scope, tenant);
      } else {
        OtherCallFollows(prefix, policy, grace, hits, scope, tenant);
      }
    }
  }

  /** The stored entry always stands for the window computed from the call history
      alone, so every live key has an expiry and the answers follow the history. */
  lemma StoreFollowsHistory(
    prefix: string, policy: string -> Limit, grace: nat, hits: seq<Hit>, scope: string, tenant: string)
    requires Ordered(hits, policy) && NoColon(scope) && policy(scope).windowMs > 0 && tenant != "" && grace <= 1
    ensures DbAfter(prefix, policy, grace, hits).grace == grace
    ensures var w := policy(scope).windowMs;
      Represents(DbAfter(prefix, policy, grace, hits), KeyFor(prefix, scope, w, tenant),
                 WindowAfter(TimesOf(hits, scope, tenant), w + grace), w)
    ensures hits != [] && For(hits[|hits| - 1], scope, tenant) ==>
      LastAnswer(prefix, policy, grace, hits).count
        == WindowAfter(TimesOf(hits, scope, tenant), policy(scope).windowMs + grace).count
  {
    FollowsAlways(prefix, policy, grace, hits, scope, tenant);
  }

  lemma {:induction false} TimesAreSorted(hits: seq<Hit>, policy: string -> Limit, scope: string, tenant: string)
    requires Ordered(hits, policy)
    ensures Sorted(TimesOf(hits, scope, tenant))
    ensures hits != [] ==>
      forall i :: 0 <= i < |TimesOf(hits, scope, tenant)| ==> TimesOf(hits, scope, tenant)[i] <= hits[|hits| - 1].at
  {
    if hits == [] {
    } else {
      var before := hits[..|hits| - 1];
      TimesAreSorted(before, policy, scope, tenant);
      assert before != [] ==> before[|before| - 1].at <= hits[|hits| - 1].at;
    }
  }

  lemma {:induction false} AdmittedTimesAreAdmissions(
    prefix: string, policy: string -> Limit, grace: nat, hits: seq<Hit>, scope: string, tenant: string)
    requires Ordered(hits, policy) && NoColon(scope) && policy(scope).windowMs > 0 && tenant != "" && grace <= 1
    ensures AdmittedTimes(prefix, policy, grace, hits, scope, tenant)
      == Admissions(TimesOf(hits, scope, tenant), policy(scope).windowMs + grace, Cap(policy(scope)))
  {
    if hits == [] {
    } else {
      var before, last := hits[..|hits| - 1], hits[|hits| - 1];
      AdmittedTimesAreAdmissions(prefix, policy, grace, before, scope, tenant);
      if For(last, scope, tenant) {
        var times := TimesOf(hits, scope, tenant);
        assert times[..|times| - 1] == TimesOf(before, scope, tenant);
        StoreFollowsHistory(prefix, policy, grace, hits, scope, tenant);
        StoreFollowsHistory(prefix, policy, grace, before, scope, tenant);
        CheckAdvances(prefix, policy(scope), DbAfter(prefix, policy, grace, before), last,
                      WindowAfter(TimesOf(before, scope, tenant), policy(scope).windowMs + grace));
      }
    }
  }

  /** A call without a tenant is told that it is over, with a delay, and leaves the
      store alone. */
  lemma BlankIsOver(prefix: string, policy: string -> Limit, grace: nat, hits: seq<Hit>)
    requires Ordered(hits, policy) && hits != [] && hits[|hits| - 1].tenant == ""
    ensures LastAnswer(prefix, policy, grace, hits).over && LastAnswer(prefix, policy, grace, hits).retryAfter >= 1
    ensures DbAfter(prefix, policy, grace, hits) == DbAfter(prefix, policy, grace, hits[..|hits| - 1])
  {
  }

  /** So over every run no call without a tenant is admitted. */
  lemma {:induction false} BlankIsNeverAdmitted(prefix: string, policy: string -> Limit, grace: nat, hits: seq<Hit>, scope: string)
    requires Ordered(hits, policy)
    ensures AdmittedTimes(prefix, policy, grace, hits, scope, "") == []
  {
    if hits == [] {
    } else {
      BlankIsNeverAdmitted(prefix, policy, grace, hits[..|hits| - 1], scope);
      if For(hits[|hits| - 1], scope, "") {
        BlankIsOver(prefix, policy, grace, hits);
      }
    }
  }

  /** A call that is over is told a number of whole seconds after which the window that
      counts against it has ended, and the least such number while the key has time to
      live. */
  lemma RetryAfterOutlastsWindow(
    prefix: string, policy: string -> Limit, grace: nat, hits: seq<Hit>, scope: string, tenant: string)
    requires Ordered(hits, policy) && NoColon(scope) && policy(scope).windowMs > 0 && tenant != "" && grace <= 1
    requires hits != [] && For(hits[|hits| - 1], scope, tenant) && LastAnswer(prefix, policy, grace, hits).over
    ensures var w := WindowAfter(TimesOf(hits, scope, tenant), policy(scope).windowMs + grace);
      var at, r := hits[|hits| - 1].at, LastAnswer(prefix, policy, grace, hits).retryAfter;
      && w.Window? && r >= 1 && w.anchor + policy(scope).windowMs <= at + 1000 * r
      && (at < w.anchor + policy(scope).windowMs ==> at + 1000 * (r - 1) < w.anchor + policy(scope).windowMs)
  {
    var before, last, w := hits[..|hits| - 1], hits[|hits| - 1], policy(scope).windowMs;
    FollowsAlways(prefix, policy, grace, before, scope, tenant);
    StoreStep(prefix, policy(scope), DbAfter(prefix, policy, grace, before), last, TimesOf(before, scope, tenant));
  }

  /** Any half-open interval of one window length admits at most 2 * max calls of
      a tenant, whichever way the store treats the exact expiry instant, and none of a
      blank one. */
  lemma TenantIntervalBound(
    prefix: string, policy: string -> Limit, grace: nat, hits: seq<Hit>, scope: string, tenant: string, from: int)
    requires Ordered(hits, policy) && NoColon(scope) && policy(scope).windowMs > 0 && grace <= 1
    ensures Within(AdmittedTimes(prefix, policy, grace, hits, scope, tenant), from, from + policy(scope).windowMs)
      <= 2 * Cap(policy(scope))
  {
    if tenant == "" {
      BlankIsNeverAdmitted(prefix, policy, grace, hits, scope);
    } else {
      CountedIntervalBound(prefix, policy, grace, hits, scope, tenant, from);
    }
  }

  lemma CountedIntervalBound(
    prefix: string, policy: string -> Limit, grace: nat, hits: seq<Hit>, scope: string, tenant: string, from: int)
    requires Ordered(hits, policy) && NoColon(scope) && policy(scope).windowMs > 0 && tenant != "" && grace <= 1
    ensures Within(AdmittedTimes(prefix, policy, grace, hits, scope, tenant), from, from + policy(scope).windowMs)
      <= 2 * Cap(policy(scope))
  {
    var times := AdmissionsOf(prefix, policy, grace, hits, scope, tenant);
    AdmissionsBound(AdmittedTimes(prefix, policy, grace, hits, scope, tenant), times, policy(scope).windowMs, grace, Cap(policy(scope)), from);
  }

  lemma AdmissionsOf(prefix: string, policy: string -> Limit, grace: nat, hits: seq<Hit>, scope: string, tenant: string)
    returns (times: seq<int>)
    requires Ordered(hits, policy) && NoColon(scope) && policy(scope).windowMs > 0 && tenant != "" && grace <= 1
    ensures Sorted(times)
    ensures AdmittedTimes(prefix, policy, grace, hits, scope, tenant)
      == Admissions(times, policy(scope).windowMs + grace, Cap(policy(scope)))
  {
    times := TimesOf(hits, scope, tenant);
    CallTimesAreSorted(hits, policy, scope, tenant, times);
    AdmittedTimesAreAdmissions(prefix, policy, grace, hits, scope, tenant);
  }

  lemma CallTimesAreSorted(hits: seq<Hit>, policy: string -> Limit, scope: string, tenant: string, times: seq<int>)
    requires Ordered(hits, policy) && times == TimesOf(hits, scope, tenant)
    ensures Sorted(times)
  {
    TimesAreSorted(hits, policy, scope, tenant);
  }

  lemma AdmissionsBound(admitted: seq<int>, times: seq<int>, w: int, grace: nat, cap: nat, from: int)
    requires Sorted(times) && w > 0 && admitted == Admissions(times, w + grace, cap)
    ensures Within(admitted, from, from + w) <= 2 * cap
  {
    IntervalBound(times, w + grace, cap, from, from + w);
  }

  /** The window that the last anchor opened. */
  function CurrentWindow(times: seq<int>, life: int): Window {
    var anchors := Anchors(times, life);
    if anchors == [] then NoWindow else Window(anchors[|anchors| - 1], Since(times, anchors[|anchors| - 1]))
  }

  predicate Apart(anchors: seq<int>, gap: int) {
    forall i :: 0 <= i < |anchors| - 1 ==> anchors[i + 1] >= anchors[i] + gap
  }

  /** What StoreFollowsHistory's window is, in terms of anchors: it opens at the last
      anchor, its count is the calls since then, and anchors lie at least a window
      length apart. */
  lemma WindowFromAnchors(hits: seq<Hit>, policy: string -> Limit, scope: string, tenant: string, grace: nat)
    requires Ordered(hits, policy) && policy(scope).windowMs > 0 && TimesOf(hits, scope, tenant) != []
    ensures var times, w := TimesOf(hits, scope, tenant), policy(scope).windowMs;
      && WindowAfter(times, w + grace) == CurrentWindow(times, w + grace) && CurrentWindow(times, w + grace).Window?
      && Apart(Anchors(times, w + grace), w)
  {
    var times, w := TimesOf(hits, scope, tenant), policy(scope).windowMs;
    assert Sorted(times) by {
      TimesAreSorted(hits, policy, scope, tenant);
    }
    AnchorsAreSpread(times, w + grace);
    CountIsCallsSinceAnchor(times, w + grace);
  }
}
