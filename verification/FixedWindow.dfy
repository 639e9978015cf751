/** api/security/rate_limit.py: a counter per (scope, identifier, clock-aligned
    window). Although every call moves the expiry, the stored counter is the number
    of calls in the window, which bounds the calls admitted in any interval. */
module FixedWindow {
  import opened Wrappers
  import opened ExpiringStore
  import opened ColonText
  import opened Arithmetic
  import opened Limits
  import Decimals

  datatype Hit = Hit(at: nat, scope: string, identifier: string)

  function BucketStart(ts: nat, windowMs: int): (start: int)
    requires windowMs > 0
    ensures 0 <= start <= ts < start + windowMs
  {
    ts - ts % windowMs
  }

  /** `key('rl', scope, identifier, str(start))` under the configured prefix. */
  function KeyFor(prefix: string, scope: string, identifier: string, start: nat): string {
    prefix + ":rl:" + scope + ":" + identifier + ":" + Decimals.ToString(start)
  }

  function RetryAfter(start: int, windowMs: int, ts: int): int {
    var seconds := (start + windowMs - ts + 999) / 1000;
    if seconds < 1 then 1 else seconds
  }

  /** One call as one step: INCR and PEXPIRE run in a single pipeline. */
  function Count(prefix: string, limit: Limit, db: Db, hit: Hit): (Db, Answer)
    requires limit.windowMs > 0
  {
    var start := BucketStart(hit.at, limit.windowMs);
    var k := KeyFor(prefix, hit.scope, hit.identifier, start);
    var db1 := AfterIncr(db, k, hit.at);
    var count := db1.entries[k].count;
    (AfterPExpire(db1, k, limit.windowMs, hit.at),
     if count > limit.maxRequests then Answer(count, true, RetryAfter(start, limit.windowMs, hit.at)) else Answer(count, false, 0))
  }

  method IncrAndCheck(redis: Redis, prefix: string, limit: Limit, identifier: string, scope: string, ts: nat)
    returns (answer: Answer)
    requires limit.windowMs > 0
    modifies redis
    ensures (redis.Contents(), answer) == Count(prefix, limit, old(redis.Contents()), Hit(ts, scope, identifier))
  {
    var start := BucketStart(ts, limit.windowMs);
    var k := KeyFor(prefix, scope, identifier, start);
    var count := redis.Incr(k, ts);
    redis.PExpire(k, limit.windowMs, ts);
    if count <= limit.maxRequests {
      return Answer(count, false, 0);
    }
    var remaining := start + limit.windowMs - ts;
    var retryAfter := (remaining + 999) / 1000;
    if retryAfter < 1 {
      retryAfter := 1;
    }
    return Answer(count, true, retryAfter);
  }

  // ---- Keys -------------------------------------------------------------------------

  /** Distinct triples never share a key when scopes have no colon; identifiers
      (IPv6 addresses, say) may have any. */
  lemma KeysAreDistinct(prefix: string, s1: string, i1: string, b1: nat, s2: string, i2: string, b2: nat)
    requires NoColon(s1) && NoColon(s2)
    requires KeyFor(prefix, s1, i1, b1) == KeyFor(prefix, s2, i2, b2)
    ensures s1 == s2 && i1 == i2 && b1 == b2
  {
    var d1, d2 := Decimals.ToString(b1), Decimals.ToString(b2);
    var head := prefix + ":rl:";
    SplitAtLastColon(head + s1 + ":" + i1, d1, head + s2 + ":" + i2, d2);
    Decimals.ToStringInjective(b1, b2);
    assert (head + s1 + ":" + i1)[|head|..] == s1 + ":" + i1;
    assert (head + s2 + ":" + i2)[|head|..] == s2 + ":" + i2;
    SplitAtColon(s1, i1, s2, i2);
  }

  /** One scope goes on after the other and a colon. */
  predicate Nested(s1: string, s2: string) {
    s1 + ":" <= s2 || s2 + ":" <= s1
  }

  ghost predicate Collide(prefix: string, s1: string, s2: string) {
    exists i1, i2, b1: nat, b2: nat :: KeyFor(prefix, s1, i1, b1) == KeyFor(prefix, s2, i2, b2)
  }

  lemma SameTail(prefix: string, s1: string, i1: string, b1: nat, s2: string, i2: string, b2: nat)
    requires KeyFor(prefix, s1, i1, b1) == KeyFor(prefix, s2, i2, b2)
    ensures s1 + ":" + i1 == s2 + ":" + i2
  {
    var head := prefix + ":rl:";
    SplitAtLastColon(head + s1 + ":" + i1, Decimals.ToString(b1), head + s2 + ":" + i2, Decimals.ToString(b2));
    assert (head + s1 + ":" + i1)[|head|..] == s1 + ":" + i1;
    assert (head + s2 + ":" + i2)[|head|..] == s2 + ":" + i2;
  }

  lemma SameTailNests(s1: string, i1: string, s2: string, i2: string)
    requires s1 + ":" + i1 == s2 + ":" + i2 && s1 != s2
    ensures Nested(s1, s2)
  {
    var whole := s1 + ":" + i1;
    assert whole[..|s1| + 1] == s1 + ":" && whole[..|s1|] == s1;
    assert (s2 + ":" + i2)[..|s2| + 1] == s2 + ":" && (s2 + ":" + i2)[..|s2|] == s2;
    if |s1| < |s2| {
      assert s2[..|s1| + 1] == whole[..|s1| + 1];
    } else if |s2| < |s1| {
      assert s1[..|s2| + 1] == whole[..|s2| + 1];
    }
  }

  /** A scope that goes on after the other and a colon shares keys with it. */
  lemma NestedCollides(prefix: string, s1: string, s2: string, b: nat)
    requires s1 + ":" <= s2
    ensures KeyFor(prefix, s1, s2[|s1| + 1..] + ":", b) == KeyFor(prefix, s2, "", b)
  {
    var rest := s2[|s1| + 1..];
    assert s2 == s1 + ":" + rest;
    assert s1 + ":" + (rest + ":") == s2 + ":" + "";
    var head, tail := prefix + ":rl:", ":" + Decimals.ToString(b);
    assert KeyFor(prefix, s1, rest + ":", b) == head + (s1 + ":" + (rest + ":")) + tail;
    assert KeyFor(prefix, s2, "", b) == head + (s2 + ":" + "") + tail;
  }

  /** Exactly which scopes can share a key: two different ones collide for some
      identifiers and windows if and only if one is nested in the other. */
  lemma ScopesCollideIff(prefix: string, s1: string, s2: string)
    requires s1 != s2
    ensures Collide(prefix, s1, s2) <==> Nested(s1, s2)
  {
    if Collide(prefix, s1, s2) {
      var i1, i2, b1: nat, b2: nat :| KeyFor(prefix, s1, i1, b1) == KeyFor(prefix, s2, i2, b2);
      SameTail(prefix, s1, i1, b1, s2, i2, b2);
      SameTailNests(s1, i1, s2, i2);
    }
    if s1 + ":" <= s2 {
      NestedCollides(prefix, s1, s2, 0);
    }
    if s2 + ":" <= s1 {
      NestedCollides(prefix, s2, s1, 0);
    }
  }

  // ---- The counter counts -------------------------------------------------------------

  /** Runs under a fixed policy for one scope's limit; other scopes may differ. */
  ghost predicate Ordered(hits: seq<Hit>, policy: string -> Limit) {
    && (forall i, j :: 0 <= i < j < |hits| ==> hits[i].at <= hits[j].at)
    && (forall i :: 0 <= i < |hits| ==> NoColon(hits[i].scope) && policy(hits[i].scope).windowMs > 0)
  }

  ghost function DbAfter(prefix: string, policy: string -> Limit, grace: nat, hits: seq<Hit>): Db
    requires Ordered(hits, policy)
  {
    if hits == [] then Db(map[], grace)
    else
      var last := hits[|hits| - 1];
      Count(prefix, policy(last.scope), DbAfter(prefix, policy, grace, hits[..|hits| - 1]), last).0
  }

  /** What the last of a run of calls was answered. */
  ghost function LastAnswer(prefix: string, policy: string -> Limit, grace: nat, hits: seq<Hit>): Answer
    requires Ordered(hits, policy) && hits != []
  {
    var last := hits[|hits| - 1];
    Count(prefix, policy(last.scope), DbAfter(prefix, policy, grace, hits[..|hits| - 1]), last).1
  }

  /** Calls for (scope, identifier) in the window with this index. */
  function CallsIn(hits: seq<Hit>, scope: string, identifier: string, w: int, index: int): nat
    requires w > 0
  {
    if hits == [] then 0
    else
      var last := hits[|hits| - 1];
      CallsIn(hits[..|hits| - 1], scope, identifier, w, index)
      + (if last.scope == scope && last.identifier == identifier && last.at / w == index then 1 else 0)
  }

  lemma StartOfIndex(ts: nat, w: int)
    requires w > 0
    ensures BucketStart(ts, w) == (ts / w) * w
  {
  }

  lemma IndexDeterminesStart(i: nat, j: nat, w: int)
    requires w > 0 && i * w == j * w
    ensures i == j
  {
    assert (i - j) * w == 0;
  }

  lemma CountTouchesOneKey(prefix: string, limit: Limit, db: Db, hit: Hit, k: string)
    requires limit.windowMs > 0 && k != KeyFor(prefix, hit.scope, hit.identifier, BucketStart(hit.at, limit.windowMs))
    ensures var t := Count(prefix, limit, db, hit).0;
      && (k in t.entries <==> k in db.entries) && (k in db.entries ==> t.entries[k] == db.entries[k])
  {
  }

  predicate Counting(db: Db, k: string, n: nat, until: int) {
    && (k in db.entries <==> n > 0)
    && (n > 0 ==> db.entries[k].count == n && db.entries[k].expireAt.Some? && db.entries[k].expireAt.value >= until)
  }

  /** Within the window the key cannot have expired, so the counter advances. */
  lemma CountAdvances(prefix: string, limit: Limit, db: Db, hit: Hit, n: nat)
    requires limit.windowMs > 0
    requires var start := BucketStart(hit.at, limit.windowMs);
      Counting(db, KeyFor(prefix, hit.scope, hit.identifier, start), n, start + limit.windowMs)
    ensures var start := BucketStart(hit.at, limit.windowMs);
      var (t, answer) := Count(prefix, limit, db, hit);
      && Counting(t, KeyFor(prefix, hit.scope, hit.identifier, start), n + 1, start + limit.windowMs)
      && answer.count == n + 1 && (answer.over <==> n + 1 > limit.maxRequests)
  {
  }

  ghost predicate CounterOk(db: Db, prefix: string, policy: string -> Limit, hits: seq<Hit>, scope: string, identifier: string, index: nat)
    requires policy(scope).windowMs > 0
  {
    var w := policy(scope).windowMs;
    Counting(db, KeyOfIndex(prefix, policy(scope), scope, identifier, index), CallsIn(hits, scope, identifier, w, index), index * w + w)
  }

  function KeyOfIndex(prefix: string, limit: Limit, scope: string, identifier: string, index: nat): string
    requires limit.windowMs > 0
  {
    MulMonotone(0, index, limit.windowMs);
    KeyFor(prefix, scope, identifier, index * limit.windowMs)
  }

  lemma KeyOfHit(prefix: string, limit: Limit, hit: Hit)
    requires limit.windowMs > 0
    ensures BucketStart(hit.at, limit.windowMs) == (hit.at / limit.windowMs) * limit.windowMs
    ensures KeyOfIndex(prefix, limit, hit.scope, hit.identifier, hit.at / limit.windowMs)
      == KeyFor(prefix, hit.scope, hit.identifier, BucketStart(hit.at, limit.windowMs))
  {
    StartOfIndex(hit.at, limit.windowMs);
  }

  lemma KeyOfIndexDistinct(prefix: string, limit: Limit, scope: string, identifier: string, index: nat, limit2: Limit, hit: Hit)
    requires limit.windowMs > 0 && limit2.windowMs > 0 && NoColon(scope) && NoColon(hit.scope)
    requires scope == hit.scope ==> limit == limit2
    requires scope != hit.scope || identifier != hit.identifier || index != hit.at / limit2.windowMs
    ensures KeyOfIndex(prefix, limit, scope, identifier, index)
      != KeyFor(prefix, hit.scope, hit.identifier, BucketStart(hit.at, limit2.windowMs))
  {
    var start := BucketStart(hit.at, limit2.windowMs);
    if KeyOfIndex(prefix, limit, scope, identifier, index) == KeyFor(prefix, hit.scope, hit.identifier, start) {
      MulMonotone(0, index, limit.windowMs);
      KeysAreDistinct(prefix, scope, identifier, index * limit.windowMs, hit.scope, hit.identifier, start);
      StartOfIndex(hit.at, limit2.windowMs);
      IndexDeterminesStart(index, hit.at / limit2.windowMs, limit.windowMs);
    }
  }

  /** For every key: present exactly when its window has calls, counting them, and
      kept at least to the window's end. */
  lemma {:induction false} CounterCounts(
    prefix: string, policy: string -> Limit, grace: nat, hits: seq<Hit>, scope: string, identifier: string, index: nat)
    requires Ordered(hits, policy) && NoColon(scope) && policy(scope).windowMs > 0
    ensures CounterOk(DbAfter(prefix, policy, grace, hits), prefix, policy, hits, scope, identifier, index)
  {
    if hits == [] {
    } else {
      var before, last := hits[..|hits| - 1], hits[|hits| - 1];
      var limit := policy(last.scope);
      CounterCounts(prefix, policy, grace, before, scope, identifier, index);
      var db := DbAfter(prefix, policy, grace, before);
      if scope == last.scope && identifier == last.identifier && index == last.at / limit.windowMs {
        KeyOfHit(prefix, limit, last);
        CountAdvances(prefix, limit, db, last, CallsIn(before, scope, identifier, limit.windowMs, index));
      } else {
        KeyOfIndexDistinct(prefix, policy(scope), scope, identifier, index, limit, last);
        CountTouchesOneKey(prefix, limit, db, last, KeyOfIndex(prefix, policy(scope), scope, identifier, index));
      }
    }
  }

  /** The count a caller is told is the number of calls so far, itself included,
      with its scope, identifier and window. */
  lemma CountIsExact(prefix: string, policy: string -> Limit, grace: nat, hits: seq<Hit>)
    requires Ordered(hits, policy) && hits != []
    ensures var last := hits[|hits| - 1];
      var w := policy(last.scope).windowMs;
      LastAnswer(prefix, policy, grace, hits).count == CallsIn(hits, last.scope, last.identifier, w, last.at / w)
  {
    var before, last := hits[..|hits| - 1], hits[|hits| - 1];
    var limit := policy(last.scope);
    var index := last.at / limit.windowMs;
    CounterCounts(prefix, policy, grace, before, last.scope, last.identifier, index);
    KeyOfHit(prefix, limit, last);
    CountAdvances(prefix, limit, DbAfter(prefix, policy, grace, before), last, CallsIn(before, last.scope, last.identifier, limit.windowMs, index));
  }

  // ---- Admissions ------------------------------------------------------------------------

  /** Calls for (scope, identifier) admitted within [from, from + span). */
  ghost function Admitted(
    prefix: string, policy: string -> Limit, grace: nat, hits: seq<Hit>, scope: string, identifier: string, from: int, span: int): nat
    requires Ordered(hits, policy)
  {
    if hits == [] then 0
    else
      var last := hits[|hits| - 1];
      Admitted(prefix, policy, grace, hits[..|hits| - 1], scope, identifier, from, span)
      + (if last.scope == scope && last.identifier == identifier && from <= last.at < from + span
            && !LastAnswer(prefix, policy, grace, hits).over then 1 else 0)
  }

  /** At most `maxRequests` of a window's calls are admitted: summed over windows
      lo, ..., lo + n - 1. */
  function WindowQuota(hits: seq<Hit>, scope: string, identifier: string, limit: Limit, lo: int, n: nat): nat
    requires limit.windowMs > 0
  {
    if n == 0 then 0
    else WindowQuota(hits, scope, identifier, limit, lo, n - 1)
         + Min(CallsIn(hits, scope, identifier, limit.windowMs, lo + n - 1), Cap(limit))
  }

  lemma {:induction false} QuotaBound(hits: seq<Hit>, scope: string, identifier: string, limit: Limit, lo: int, n: nat)
    requires limit.windowMs > 0
    ensures WindowQuota(hits, scope, identifier, limit, lo, n) <= Cap(limit) * n
  {
    if n == 0 {
    } else {
      QuotaBound(hits, scope, identifier, limit, lo, n - 1);
      assert Cap(limit) * n == Cap(limit) * (n - 1) + Cap(limit);
    }
  }

  /** One more call never lowers the quota, and raises it if it is within the cap
      of a window in range. */
  lemma {:induction false} QuotaGrows(hits: seq<Hit>, scope: string, identifier: string, limit: Limit, lo: int, n: nat)
    requires limit.windowMs > 0 && hits != []
    ensures var last := hits[|hits| - 1];
      var index := last.at / limit.windowMs;
      WindowQuota(hits, scope, identifier, limit, lo, n) >=
      WindowQuota(hits[..|hits| - 1], scope, identifier, limit, lo, n)
      + (if last.scope == scope && last.identifier == identifier && lo <= index < lo + n
            && CallsIn(hits, scope, identifier, limit.windowMs, index) <= limit.maxRequests then 1 else 0)
  {
    if n == 0 {
    } else {
      QuotaGrows(hits, scope, identifier, limit, lo, n - 1);
    }
  }

  /** How many windows an interval meets. */
  function WindowsOf(from: int, span: int, w: int): int
    requires w > 0
  {
    (from + span - 1) / w - from / w + 1
  }

  lemma DivBetween(t: int, lo: int, n: nat, w: int, from: int, span: int)
    requires w > 0 && lo == from / w && from <= t < from + span && span > 0
    requires n == WindowsOf(from, span, w)
    ensures lo <= t / w < lo + n
  {
    DivMonotone(from, t, w);
    DivMonotone(t, from + span - 1, w);
  }

  lemma {:induction false} AdmittedWithinQuota(
    prefix: string, policy: string -> Limit, grace: nat, hits: seq<Hit>, scope: string, identifier: string, from: int, span: int)
    requires Ordered(hits, policy) && policy(scope).windowMs > 0 && span > 0
    ensures var limit := policy(scope);
      var n := WindowsOf(from, span, limit.windowMs);
      && n >= 0
      && Admitted(prefix, policy, grace, hits, scope, identifier, from, span)
         <= WindowQuota(hits, scope, identifier, limit, from / limit.windowMs, n)
  {
    var limit := policy(scope);
    var w := limit.windowMs;
    var lo := from / w;
    DivMonotone(from, from + span - 1, w);
    var n := WindowsOf(from, span, w);
    if hits == [] {
    } else {
      var last := hits[|hits| - 1];
      AdmittedWithinQuota(prefix, policy, grace, hits[..|hits| - 1], scope, identifier, from, span);
      QuotaGrows(hits, scope, identifier, limit, lo, n);
      if last.scope == scope && last.identifier == identifier && from <= last.at < from + span {
        CountIsExact(prefix, policy, grace, hits);
        DivBetween(last.at, lo, n, w, from, span);
      }
    }
  }

  /** A window admits exactly its first `maxRequests` calls. */
  lemma {:induction false} WindowAdmitsExactly(
    prefix: string, policy: string -> Limit, grace: nat, hits: seq<Hit>, scope: string, identifier: string, index: nat)
    requires Ordered(hits, policy) && policy(scope).windowMs > 0
    ensures var w := policy(scope).windowMs;
      Admitted(prefix, policy, grace, hits, scope, identifier, index * w, w)
        == Min(CallsIn(hits, scope, identifier, w, index), Cap(policy(scope)))
  {
    if hits == [] {
    } else {
      var last, w := hits[|hits| - 1], policy(scope).windowMs;
      WindowAdmitsExactly(prefix, policy, grace, hits[..|hits| - 1], scope, identifier, index);
      if last.scope == scope && last.identifier == identifier {
        CountIsExact(prefix, policy, grace, hits);
        InWindowIffIndex(last.at, index, w);
      }
    }
  }

  lemma InWindowIffIndex(t: nat, index: nat, w: int)
    requires w > 0
    ensures index * w <= t < index * w + w <==> t / w == index
  {
    assert (t / w) * w <= t < (t / w) * w + w;
    if index * w <= t {
      QuotientAtLeast(index, t, w);
    }
    if t < index * w + w {
      assert index * w + w == (index + 1) * w;
      QuotientBelow(t, index + 1, w);
    }
  }

  function CeilDiv(a: nat, w: int): int
    requires w > 0
  {
    (a + w - 1) / w
  }

  /** The most windows that an interval of a length in whole milliseconds can meet. */
  function MostWindows(span: nat, w: int): int
    requires w > 0
  {
    if span == 0 then 0 else CeilDiv(span - 1, w) + 1
  }

  lemma CeilTimes(a: nat, w: int)
    requires w > 0
    ensures 0 <= CeilDiv(a, w) && a <= CeilDiv(a, w) * w < a + w
  {
    assert a + w - 1 == CeilDiv(a, w) * w + (a + w - 1) % w;
    QuotientAtLeast(0, a + w - 1, w);
  }

  lemma WindowsTouched(from: int, span: nat, w: int)
    requires w > 0 && span > 0
    ensures WindowsOf(from, span, w) <= MostWindows(span, w)
  {
    var q, c := from / w, CeilDiv(span - 1, w);
    assert from <= q * w + w - 1;
    CeilTimes(span - 1, w);
    assert from + span - 1 < (q + c + 1) * w by {
      assert (q + c + 1) * w == q * w + c * w + w;
    }
    QuotientBelow(from + span - 1, q + c + 1, w);
  }

  lemma TouchedQuota(from: int, span: nat, w: int, cap: nat)
    requires w > 0 && span > 0
    ensures cap * WindowsOf(from, span, w) <= cap * MostWindows(span, w)
  {
    WindowsTouched(from, span, w);
    MulMonotone(WindowsOf(from, span, w), MostWindows(span, w), cap);
  }

  lemma AdmittedWithinWindows(
    prefix: string, policy: string -> Limit, grace: nat, hits: seq<Hit>, scope: string, identifier: string, from: int, span: nat)
    requires Ordered(hits, policy) && policy(scope).windowMs > 0 && span > 0
    ensures Admitted(prefix, policy, grace, hits, scope, identifier, from, span)
      <= Cap(policy(scope)) * WindowsOf(from, span, policy(scope).windowMs)
  {
    var n := WindowsOf(from, span, policy(scope).windowMs);
    AdmittedWithinQuota(prefix, policy, grace, hits, scope, identifier, from, span);
    QuotaBound(hits, scope, identifier, policy(scope), from / policy(scope).windowMs, n);
  }

  lemma {:induction false} NothingInEmptySpan(
    prefix: string, policy: string -> Limit, grace: nat, hits: seq<Hit>, scope: string, identifier: string, from: int)
    requires Ordered(hits, policy)
    ensures Admitted(prefix, policy, grace, hits, scope, identifier, from, 0) == 0
  {
    if hits == [] {
    } else {
      NothingInEmptySpan(prefix, policy, grace, hits[..|hits| - 1], scope, identifier, from);
    }
  }

  /** Any half-open interval of T > 0 milliseconds admits at most
      max * (ceil((T - 1) / W) + 1) calls per scope and identifier, however calls for
      others interleave. */
  lemma IntervalBound(
    prefix: string, policy: string -> Limit, grace: nat, hits: seq<Hit>, scope: string, identifier: string, from: int, span: nat)
    requires Ordered(hits, policy) && policy(scope).windowMs > 0
    ensures Admitted(prefix, policy, grace, hits, scope, identifier, from, span)
      <= Cap(policy(scope)) * MostWindows(span, policy(scope).windowMs)
  {
    if span == 0 {
      NothingInEmptySpan(prefix, policy, grace, hits, scope, identifier, from);
    } else {
      AdmittedWithinWindows(prefix, policy, grace, hits, scope, identifier, from, span);
      TouchedQuota(from, span, policy(scope).windowMs, Cap(policy(scope)));
    }
  }

  // ---- The bound is reached --------------------------------------------------------------------

  /** The last instant of the first window, then the first of each other one. */
  function PeakTime(n: nat, w: int): nat
    requires w > 0
  {
    if n == 0 then w - 1 else PeakTime(n - 1, w) + (if n == 1 then 1 else w)
  }

  lemma {:induction false} PeakTimeIndex(n: nat, w: int)
    requires w > 0
    ensures PeakTime(n, w) == (if n == 0 then w - 1 else n * w) && PeakTime(n, w) / w == n
    decreases n
  {
    if n == 0 {
      InWindowIffIndex(PeakTime(n, w), 0, w);
    } else {
      PeakTimeIndex(n - 1, w);
      assert n * w == (n - 1) * w + w;
      InWindowIffIndex(PeakTime(n, w), n, w);
    }
  }

  /** `cap` calls at each of the first n peak times, then `c` at the next one. */
  function Peak(scope: string, identifier: string, w: int, cap: nat, n: nat, c: nat): seq<Hit>
    requires w > 0
    decreases n, c
  {
    if c > 0 then Peak(scope, identifier, w, cap, n, c - 1) + [Hit(PeakTime(n, w), scope, identifier)]
    else if n > 0 then Peak(scope, identifier, w, cap, n - 1, cap)
    else []
  }

  lemma {:induction false} PeakCalls(scope: string, identifier: string, w: int, cap: nat, n: nat, c: nat, index: nat)
    requires w > 0
    ensures CallsIn(Peak(scope, identifier, w, cap, n, c), scope, identifier, w, index) ==
      if index < n then cap else if index == n then c else 0
    decreases n, c
  {
    if c > 0 {
      PeakIndex(n, w);
      PeakCalls(scope, identifier, w, cap, n, c - 1, index);
      var before := Peak(scope, identifier, w, cap, n, c - 1);
      assert (before + [Hit(PeakTime(n, w), scope, identifier)])[..|before|] == before;
    } else if n > 0 {
      PeakCalls(scope, identifier, w, cap, n - 1, cap, index);
    } else {
    }
  }

  predicate PeakHits(hits: seq<Hit>, scope: string, identifier: string, last: nat) {
    && (forall i, j :: 0 <= i < j < |hits| ==> hits[i].at <= hits[j].at)
    && (forall i :: 0 <= i < |hits| ==> hits[i].scope == scope && hits[i].identifier == identifier && hits[i].at <= last)
  }

  lemma {:induction false} PeakShape(scope: string, identifier: string, w: int, cap: nat, n: nat, c: nat)
    requires w > 0
    ensures PeakHits(Peak(scope, identifier, w, cap, n, c), scope, identifier, PeakTime(n, w))
    decreases n, c
  {
    if c > 0 {
      PeakShape(scope, identifier, w, cap, n, c - 1);
    } else if n > 0 {
      PeakShape(scope, identifier, w, cap, n - 1, cap);
    } else {
    }
  }

  lemma {:induction false} PeakLength(scope: string, identifier: string, w: int, cap: nat, n: nat, c: nat)
    requires w > 0
    ensures |Peak(scope, identifier, w, cap, n, c)| == n * cap + c
    decreases n, c
  {
    if c > 0 {
      PeakLength(scope, identifier, w, cap, n, c - 1);
    } else if n > 0 {
      PeakLength(scope, identifier, w, cap, n - 1, cap);
      assert n * cap == (n - 1) * cap + cap;
    } else {
    }
  }

  lemma PeakFull(scope: string, identifier: string, w: int, cap: nat, n: nat)
    requires w > 0
    ensures |Peak(scope, identifier, w, cap, n, cap)| == cap * (n + 1)
  {
    PeakLength(scope, identifier, w, cap, n, cap);
    assert cap * (n + 1) == n * cap + cap;
  }

  /** The peak times of all windows that can be met lie in one interval. */
  lemma PeakFits(span: nat, w: int) returns (m: nat)
    requires w > 0 && span > 0
    ensures m + 1 == MostWindows(span, w) && PeakTime(m, w) < w - 1 + span
  {
    m := CeilDiv(span - 1, w);
    CeilTimes(span - 1, w);
    PeakTimeIndex(m, w);
  }

  lemma PeakIndex(n: nat, w: int)
    requires w > 0
    ensures PeakTime(n, w) / w == n && PeakTime(0, w) <= PeakTime(n, w)
  {
    PeakTimeIndex(n, w);
    PeakTimesGrow(n, n, w);
  }

  lemma PeakOrdered(policy: string -> Limit, scope: string, identifier: string, cap: nat, n: nat, c: nat)
    requires NoColon(scope) && policy(scope).windowMs > 0
    ensures Ordered(Peak(scope, identifier, policy(scope).windowMs, cap, n, c), policy)
  {
    PeakShape(scope, identifier, policy(scope).windowMs, cap, n, c);
  }

  lemma PeakTimesGrow(n: nat, m: nat, w: int)
    requires w > 0 && n <= m
    ensures PeakTime(0, w) <= PeakTime(n, w) <= PeakTime(m, w)
  {
    if n < m {
      PeakTimesGrow(n, m - 1, w);
    } else if n > 0 {
      PeakTimesGrow(n - 1, n - 1, w);
    } else {
    }
  }

  /** One more admitted call. */
  lemma AdmittedSnoc(
    prefix: string, policy: string -> Limit, grace: nat, hits: seq<Hit>, last: Hit, scope: string, identifier: string, from: int, span: int)
    requires Ordered(hits + [last], policy) && Ordered(hits, policy) && last.scope == scope && last.identifier == identifier
    requires policy(scope).windowMs > 0 && from <= last.at < from + span
    requires CallsIn(hits + [last], scope, identifier, policy(scope).windowMs, last.at / policy(scope).windowMs) <= policy(scope).maxRequests
    ensures Admitted(prefix, policy, grace, hits + [last], scope, identifier, from, span)
      == Admitted(prefix, policy, grace, hits, scope, identifier, from, span) + 1
  {
    assert (hits + [last])[..|hits|] == hits;
    CountIsExact(prefix, policy, grace, hits + [last]);
  }

  lemma PeakFullEarlier(scope: string, identifier: string, w: int, cap: nat, n: nat)
    requires w > 0 && n > 0
    ensures Peak(scope, identifier, w, cap, n, 0) == Peak(scope, identifier, w, cap, n - 1, cap)
  {
  }

  lemma PeakOneMore(
    prefix: string, policy: string -> Limit, grace: nat, scope: string, identifier: string, span: int, n: nat, c: nat)
    requires NoColon(scope) && policy(scope).windowMs > 0 && 0 < c <= Cap(policy(scope))
    requires PeakTime(n, policy(scope).windowMs) < policy(scope).windowMs - 1 + span
    ensures var w, cap := policy(scope).windowMs, Cap(policy(scope));
      var hits, before := Peak(scope, identifier, w, cap, n, c), Peak(scope, identifier, w, cap, n, c - 1);
      && Ordered(hits, policy) && Ordered(before, policy) && |hits| == |before| + 1
      && Admitted(prefix, policy, grace, hits, scope, identifier, w - 1, span)
         == Admitted(prefix, policy, grace, before, scope, identifier, w - 1, span) + 1
  {
    var w, cap := policy(scope).windowMs, Cap(policy(scope));
    PeakOrdered(policy, scope, identifier, cap, n, c);
    PeakOrdered(policy, scope, identifier, cap, n, c - 1);
    PeakCalls(scope, identifier, w, cap, n, c, n);
    PeakIndex(n, w);
    AdmittedSnoc(prefix, policy, grace, Peak(scope, identifier, w, cap, n, c - 1), Hit(PeakTime(n, w), scope, identifier),
                 scope, identifier, w - 1, span);
  }

  ghost predicate AllAdmitted(
    prefix: string, policy: string -> Limit, grace: nat, hits: seq<Hit>, scope: string, identifier: string, from: int, span: int) {
    Ordered(hits, policy) && Admitted(prefix, policy, grace, hits, scope, identifier, from, span) == |hits|
  }

  /** All of them are admitted. */
  lemma {:induction false} PeakAdmitted(
    prefix: string, policy: string -> Limit, grace: nat, scope: string, identifier: string, span: int, n: nat, c: nat, hits: seq<Hit>)
    requires NoColon(scope) && policy(scope).windowMs > 0 && c <= Cap(policy(scope))
    requires PeakTime(n, policy(scope).windowMs) < policy(scope).windowMs - 1 + span
    requires hits == Peak(scope, identifier, policy(scope).windowMs, Cap(policy(scope)), n, c)
    ensures AllAdmitted(prefix, policy, grace, hits, scope, identifier, policy(scope).windowMs - 1, span)
    decreases n, c
  {
    var w, cap := policy(scope).windowMs, Cap(policy(scope));
    if c > 0 {
      var before := Peak(scope, identifier, w, cap, n, c - 1);
      PeakAdmitted(prefix, policy, grace, scope, identifier, span, n, c - 1, before);
      PeakOneMore(prefix, policy, grace, scope, identifier, span, n, c);
    } else if n > 0 {
      PeakTimesGrow(n - 1, n, w);
      PeakFullEarlier(scope, identifier, w, cap, n);
      PeakAdmitted(prefix, policy, grace, scope, identifier, span, n - 1, cap, hits);
    } else {
      assert hits == [];
    }
  }

  /** For every length some run of calls admits that many, from the last instant of a
      window on. */
  lemma IntervalBoundIsReached(
    prefix: string, policy: string -> Limit, grace: nat, scope: string, identifier: string, span: nat) returns (hits: seq<Hit>, from: int)
    requires NoColon(scope) && policy(scope).windowMs > 0
    ensures Ordered(hits, policy)
    ensures Admitted(prefix, policy, grace, hits, scope, identifier, from, span)
      == Cap(policy(scope)) * MostWindows(span, policy(scope).windowMs)
  {
    var w, cap := policy(scope).windowMs, Cap(policy(scope));
    if span == 0 {
      hits, from := [], 0;
    } else {
      var m := PeakFits(span, w);
      hits, from := Peak(scope, identifier, w, cap, m, cap), w - 1;
      PeakAdmitted(prefix, policy, grace, scope, identifier, span, m, cap, hits);
      PeakFull(scope, identifier, w, cap, m);
    }
  }

  /** Retry-After is the remaining window rounded up to whole seconds, so waiting
      that long always reaches the next window (section 10.2.3 of RFC 9110). */
  lemma RetryAfterReachesNextWindow(ts: nat, w: int)
    requires w > 0
    ensures var start := BucketStart(ts, w);
      var r := RetryAfter(start, w, ts);
      && r >= 1 && (r - 1) * 1000 < start + w - ts <= r * 1000
      && BucketStart(ts + 1000 * r, w) > start
  {
    var start := BucketStart(ts, w);
    var r := RetryAfter(start, w, ts);
    assert start + w - ts <= r * 1000;
    StartOfIndex(ts, w);
    StartOfIndex(ts + 1000 * r, w);
    DivMonotone(ts, ts + 1000 * r, w);
    assert BucketStart(ts + 1000 * r, w) + w > start + w;
  }

  /** Over every run: a call over the limit is told the least number of whole seconds
      after which the next window has begun, any other call is told 0. */
  lemma AnswerTells(prefix: string, policy: string -> Limit, grace: nat, hits: seq<Hit>)
    requires Ordered(hits, policy) && hits != []
    ensures var last, answer := hits[|hits| - 1], LastAnswer(prefix, policy, grace, hits);
      var w, r := policy(last.scope).windowMs, answer.retryAfter;
      && (answer.over <==> answer.count > policy(last.scope).maxRequests)
      && if answer.over
         then r >= 1 && (last.at + 1000 * r) / w > last.at / w && last.at + 1000 * (r - 1) < (last.at / w + 1) * w
         else r == 0
  {
    var last, w := hits[|hits| - 1], policy(hits[|hits| - 1].scope).windowMs;
    if LastAnswer(prefix, policy, grace, hits).over {
      SecondsReachNextWindow(last.at, w);
    }
  }

  lemma SecondsReachNextWindow(ts: nat, w: int)
    requires w > 0
    ensures var r := RetryAfter(BucketStart(ts, w), w, ts);
      r >= 1 && (ts + 1000 * r) / w > ts / w && ts + 1000 * (r - 1) < (ts / w + 1) * w
  {
    var r := RetryAfter(BucketStart(ts, w), w, ts);
    RetryAfterReachesNextWindow(ts, w);
    StartOfIndex(ts, w);
    assert (ts / w + 1) * w == (ts / w) * w + w;
    QuotientAtLeast(ts / w + 1, ts + 1000 * r, w);
  }
}
