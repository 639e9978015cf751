/** The suffix loop that picks a free username for a new OAuth account
    (django/users/api_views.py, lines 275-285). */
module Usernames {
  import Decimals

  /** The name tried after `suffix` increments. */
  function Candidate(base: string, suffix: nat): string {
    if suffix == 0 then base else base + Decimals.ToString(suffix)
  }

  lemma CandidateInjective(base: string, i: nat, j: nat)
    requires Candidate(base, i) == Candidate(base, j)
    ensures i == j
  {
    if i != 0 && j != 0 {
      assert Decimals.ToString(i) == Candidate(base, i)[|base|..];
      assert Decimals.ToString(j) == Candidate(base, j)[|base|..];
      Decimals.ToStringInjective(i, j);
    }
  }

  ghost function Tried(base: string, n: nat): (names: set<string>)
    ensures forall name :: name in names <==> exists i :: 0 <= i < n && name == Candidate(base, i)
  {
    set i | 0 <= i < n :: Candidate(base, i)
  }

  lemma {:induction false} TriedNamesAreDistinct(base: string, n: nat)
    ensures |Tried(base, n)| == n
  {
    if n == 0 {
    } else {
      TriedNamesAreDistinct(base, n - 1);
      forall i | 0 <= i < n - 1
        ensures Candidate(base, i) != Candidate(base, n - 1)
      {
        if Candidate(base, i) == Candidate(base, n - 1) {
          CandidateInjective(base, i, n - 1);
        }
      }
      assert Tried(base, n) == Tried(base, n - 1) + {Candidate(base, n - 1)};
    }
  }

  lemma SubsetCardinality<T>(a: set<T>, b: set<T>)
    requires a <= b
    ensures |a| <= |b|
  {
    assert b == a + (b - a);
  }

  /** Pigeonhole: `n` taken candidates need `n` taken names. */
  lemma TakenCandidatesAreFew(taken: set<string>, base: string, n: nat)
    requires forall i :: 0 <= i < n ==> Candidate(base, i) in taken
    ensures n <= |taken|
  {
    TriedNamesAreDistinct(base, n);
    SubsetCardinality(Tried(base, n), taken);
  }

  /** Terminates for every finite set of taken names, after at most as many
      increments as there are taken names, with the smallest free suffix. */
  method ChooseUsername(taken: set<string>, base: string) returns (candidate: string, suffix: nat)
    ensures candidate == (if suffix == 0 then base else base + Decimals.ToString(suffix)) && candidate !in taken
    ensures forall i :: 0 <= i < suffix ==> Candidate(base, i) in taken
    ensures suffix <= |taken|
  {
    candidate := base;
    suffix := 0;
    while candidate in taken
      invariant candidate == Candidate(base, suffix)
      invariant forall i :: 0 <= i < suffix ==> Candidate(base, i) in taken
      decreases |taken| - suffix
    {
      TakenCandidatesAreFew(taken, base, suffix + 1);
      suffix := suffix + 1;
      candidate := base + Decimals.ToString(suffix);
    }
    TakenCandidatesAreFew(taken, base, suffix);
  }
}
