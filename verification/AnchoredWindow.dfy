/** A counting window anchored at its first call, on one key's call times alone:
    a call on a live window advances the count, any other call opens a window. */
module AnchoredWindow {
  import opened Arithmetic

  datatype Window = NoWindow | Window(anchor: int, count: nat)

  /** How long a window lives: `life` is its length plus the store's grace. */
  function Advance(w: Window, t: int, life: int): (r: Window)
    ensures r.Window? && r.count > 0
  {
    if w.Window? && t < w.anchor + life then Window(w.anchor, w.count + 1) else Window(t, 1)
  }

  function WindowAfter(times: seq<int>, life: int): (w: Window)
    ensures w.NoWindow? <==> times == []
    ensures w.Window? ==> w.count > 0
  {
    if times == [] then NoWindow else Advance(WindowAfter(times[..|times| - 1], life), times[|times| - 1], life)
  }

  predicate Sorted(times: seq<int>) {
    forall i, j :: 0 <= i < j < |times| ==> times[i] <= times[j]
  }

  /** The times of calls that opened a window. */
  function Anchors(times: seq<int>, life: int): seq<int> {
    if times == [] then []
    else
      var earlier := Anchors(times[..|times| - 1], life);
      if WindowAfter(times, life).count == 1 then earlier + [times[|times| - 1]] else earlier
  }

  /** The times of calls whose count is at most `cap`. */
  function Admissions(times: seq<int>, life: int, cap: int): seq<int> {
    if times == [] then []
    else
      var earlier := Admissions(times[..|times| - 1], life, cap);
      if WindowAfter(times, life).count <= cap then earlier + [times[|times| - 1]] else earlier
  }

  function Since(times: seq<int>, from: int): nat {
    if times == [] then 0 else Since(times[..|times| - 1], from) + (if times[|times| - 1] >= from then 1 else 0)
  }

  function Within(times: seq<int>, from: int, to: int): nat {
    if times == [] then 0
    else Within(times[..|times| - 1], from, to) + (if from <= times[|times| - 1] < to then 1 else 0)
  }

  lemma SinceAppend(times: seq<int>, t: int, from: int)
    ensures Since(times + [t], from) == Since(times, from) + (if t >= from then 1 else 0)
  {
    assert (times + [t])[..|times|] == times;
  }

  lemma {:induction false} SinceNone(times: seq<int>, from: int)
    requires forall i :: 0 <= i < |times| ==> times[i] < from
    ensures Since(times, from) == 0
  {
    if times == [] {
    } else {
      SinceNone(times[..|times| - 1], from);
    }
  }

  /** The window's count is the number of calls since its anchor, the calls before
      it are over by then, and every call falls within its window's life. */
  lemma {:induction false} CountIsCallsSinceAnchor(times: seq<int>, life: int)
    requires Sorted(times) && times != [] && life > 0
    ensures var w := WindowAfter(times, life);
      && w.count == Since(times, w.anchor)
      && w.anchor <= times[|times| - 1] < w.anchor + life
  {
    var before, t := times[..|times| - 1], times[|times| - 1];
    if before == [] {
    } else {
      CountIsCallsSinceAnchor(before, life);
      var w := WindowAfter(before, life);
      if t >= w.anchor + life {
        SinceNone(before, t);
      }
    }
  }

  /** Successive windows are at least a life apart. */
  lemma {:induction false} AnchorsAreSpread(times: seq<int>, life: int)
    requires Sorted(times) && life > 0
    ensures var anchors := Anchors(times, life);
      && (times != [] ==> anchors != [] && anchors[|anchors| - 1] == WindowAfter(times, life).anchor)
      && (forall i :: 0 <= i < |anchors| - 1 ==> anchors[i + 1] >= anchors[i] + life)
  {
    if times == [] {
    } else {
      var before := times[..|times| - 1];
      AnchorsAreSpread(before, life);
    }
  }

  lemma {:induction false} AdmissionsAreCalls(times: seq<int>, life: int, cap: int, from: int)
    ensures Since(Admissions(times, life, cap), from) <= Since(times, from)
  {
    if times == [] {
    } else {
      var before, t := times[..|times| - 1], times[|times| - 1];
      AdmissionsAreCalls(before, life, cap, from);
      AdmissionsStep(times, life, cap, from);
    }
  }

  lemma AdmissionsStep(times: seq<int>, life: int, cap: int, from: int)
    requires times != []
    ensures Since(Admissions(times, life, cap), from) == Since(Admissions(times[..|times| - 1], life, cap), from)
      + (if WindowAfter(times, life).count <= cap && times[|times| - 1] >= from then 1 else 0)
  {
    SinceAppend(Admissions(times[..|times| - 1], life, cap), times[|times| - 1], from);
  }

  /** Since the anchor at most `cap` are admitted; since less than a life before
      it, at most `cap` more. */
  lemma {:induction false} AdmissionsSinceBound(times: seq<int>, life: int, cap: nat, from: int)
    requires Sorted(times) && life > 0 && times != []
    ensures var w := WindowAfter(times, life);
      var g := Since(Admissions(times, life, cap), from);
      && (from >= w.anchor ==> g <= Min(w.count, cap))
      && (from > w.anchor - life ==> g <= cap + Min(w.count, cap))
  {
    var before, t := times[..|times| - 1], times[|times| - 1];
    AdmissionsStep(times, life, cap, from);
    if before == [] {
    } else {
      AdmissionsSinceBound(before, life, cap, from);
      CountIsCallsSinceAnchor(before, life);
      var w := WindowAfter(before, life);
      if t >= w.anchor + life && from >= t {
        SinceNone(before, from);
        AdmissionsAreCalls(before, life, cap, from);
      }
    }
  }

  lemma {:induction false} WithinIsSince(times: seq<int>, from: int, to: int)
    ensures Within(times, from, to) <= Since(times, from)
  {
    if times == [] {
    } else {
      WithinIsSince(times[..|times| - 1], from, to);
    }
  }

  lemma WithinAppend(times: seq<int>, t: int, from: int, to: int)
    ensures Within(times + [t], from, to) == Within(times, from, to) + (if from <= t < to then 1 else 0)
  {
    assert (times + [t])[..|times|] == times;
  }

  /** Any half-open interval no longer than a life admits at most 2 * cap calls. */
  lemma {:induction false} IntervalBound(times: seq<int>, life: int, cap: nat, from: int, to: int)
    requires Sorted(times) && life > 0 && to <= from + life
    ensures Within(Admissions(times, life, cap), from, to) <= 2 * cap
  {
    if times == [] {
    } else {
      var before, t := times[..|times| - 1], times[|times| - 1];
      if t < to {
        CountIsCallsSinceAnchor(times, life);
        AdmissionsSinceBound(times, life, cap, from);
        WithinIsSince(Admissions(times, life, cap), from, to);
      } else {
        IntervalBound(before, life, cap, from, to);
        WithinAppend(Admissions(before, life, cap), t, from, to);
      }
    }
  }
}
