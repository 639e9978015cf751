/** The account lockout bounds password guessing over whole runs: between two
    successful password logins, failed checks inside any time span T number at
    most M + T / L. */
module AuthLockout {
  import opened Wrappers
  import opened AuthStore
  import opened AuthCalls
  import opened Arithmetic

  function Threshold(cfg: Config): (m: int)
    ensures m >= 1
  {
    Max(1, cfg.maxFailures)
  }

  function LockTime(cfg: Config): (l: int)
    ensures l >= MINUTE
  {
    Max(1, cfg.lockMinutes) * MINUTE
  }

  /** The call gets as far as checking a password for `user`. */
  predicate ChecksPassword(s: Store, call: Call, user: UserId) {
    && call.Login? && FindUser(s.users, call.email) == Some(user)
    && s.users[user].isActive && !Locked(s.users[user], s.now)
  }

  predicate FailedCheck(s: Store, call: Call, user: UserId) {
    ChecksPassword(s, call, user) && !VerifyPassword(call.password, s.users[user].passwordHash)
  }

  predicate PasswordLogin(s: Store, call: Call, user: UserId) {
    ChecksPassword(s, call, user) && VerifyPassword(call.password, s.users[user].passwordHash)
  }

  predicate NoLogin(cfg: Config, s: Store, events: seq<Event>, user: UserId)
    decreases |events|
  {
    events == [] ||
    (!PasswordLogin(At(s, events[0]), events[0].call, user) && NoLogin(cfg, After(cfg, s, events[0]), events[1..], user))
  }

  /** When the failed checks of a run happen, in order. */
  function FailureTimes(cfg: Config, s: Store, events: seq<Event>, user: UserId): seq<Time>
    decreases |events|
  {
    if events == [] then []
    else
      (if FailedCheck(At(s, events[0]), events[0].call, user) then [At(s, events[0]).now] else [])
      + FailureTimes(cfg, After(cfg, s, events[0]), events[1..], user)
  }

  function Counter(s: Store, user: UserId): nat {
    if user < |s.users| then s.users[user].failedLoginAttempts else 0
  }

  function LockOf(s: Store, user: UserId): Option<Time> {
    if user < |s.users| then s.users[user].lockedUntil else None
  }

  predicate SameLock(s: Store, s1: Store, user: UserId) {
    s1.now == s.now && Counter(s1, user) == Counter(s, user) && LockOf(s1, user) == LockOf(s, user)
  }

  lemma SignInsKeepLocks(cfg: Config, s: Store, call: Call, user: UserId)
    requires call.Register? || call.OAuth?
    ensures SameLock(s, Step(cfg, s, call).0, user)
  {
    match call
    case Register(_, _, _, _) =>
    case OAuth(sub, email, verified, minted, client) =>
      var s1 := ResolveOAuth(s, sub, email, verified, client).0;
      assert SameLock(s, s1, user);
  }

  lemma TokenCallsKeepLocks(cfg: Config, s: Store, call: Call, user: UserId)
    requires call.Refresh? || call.Logout? || call.RevokeOthers? || call.IssueVerifyEmail? || call.IssuePasswordReset?
    ensures SameLock(s, Step(cfg, s, call).0, user)
  {
    assert Step(cfg, s, call).0.users == s.users;
  }

  lemma RedemptionsKeepLocks(cfg: Config, s: Store, call: Call, user: UserId)
    requires call.VerifyEmail? || call.ResetPassword? || call.ChangeEmail?
    ensures SameLock(s, Step(cfg, s, call).0, user)
  {
  }

  lemma OtherCallsKeepLocks(cfg: Config, s: Store, call: Call, user: UserId)
    requires !call.Login?
    ensures SameLock(s, Step(cfg, s, call).0, user)
  {
    match call
    case Register(_, _, _, _) => SignInsKeepLocks(cfg, s, call, user);
    case OAuth(_, _, _, _, _) => SignInsKeepLocks(cfg, s, call, user);
    case Refresh(_, _, _) => TokenCallsKeepLocks(cfg, s, call, user);
    case Logout(_, _) => TokenCallsKeepLocks(cfg, s, call, user);
    case RevokeOthers(_, _, _) => TokenCallsKeepLocks(cfg, s, call, user);
    case IssueVerifyEmail(_, _, _) => TokenCallsKeepLocks(cfg, s, call, user);
    case VerifyEmail(_) => RedemptionsKeepLocks(cfg, s, call, user);
    case IssuePasswordReset(_, _, _) => TokenCallsKeepLocks(cfg, s, call, user);
    case ResetPassword(_, _) => RedemptionsKeepLocks(cfg, s, call, user);
    case ChangeEmail(_, _, _, _) => RedemptionsKeepLocks(cfg, s, call, user);
  }

  predicate LockAfterCheck(cfg: Config, s: Store, call: Call, s1: Store, user: UserId) {
    && s1.now == s.now
    && Counter(s1, user) == Counter(s, user) + (if FailedCheck(s, call, user) then 1 else 0)
    && LockOf(s1, user) ==
       if FailedCheck(s, call, user) && Counter(s, user) + 1 >= Threshold(cfg)
       then Some(s.now + LockTime(cfg)) else LockOf(s, user)
  }

  lemma FailedLoginFields(cfg: Config, s: Store, other: UserId, client: Client, user: UserId)
    requires other < |s.users|
    ensures var s1 := LoginFailed(cfg, s, other, client);
      && s1.now == s.now
      && Counter(s1, user) == Counter(s, user) + (if user == other then 1 else 0)
      && LockOf(s1, user) ==
         if user == other && Counter(s, user) + 1 >= Threshold(cfg) then Some(s.now + LockTime(cfg)) else LockOf(s, user)
  {
  }

  /** What one call does to the lockout fields of a user. */
  lemma LockFieldsStep(cfg: Config, s: Store, call: Call, user: UserId)
    requires !PasswordLogin(s, call, user)
    ensures LockAfterCheck(cfg, s, call, Step(cfg, s, call).0, user)
  {
    if call.Login? {
      var found := FindUser(s.users, call.email);
      if found.Some? {
        FailedLoginFields(cfg, s, found.value, call.client, user);
      }
    } else {
      OtherCallsKeepLocks(cfg, s, call, user);
    }
  }

  /** A password login clears its user's counter and lock, and no one else's. */
  lemma PasswordLoginClears(cfg: Config, s: Store, call: Call, user: UserId, other: UserId)
    requires PasswordLogin(s, call, user)
    ensures var t := Step(cfg, s, call).0;
      && t.now == s.now && Counter(t, user) == 0 && LockOf(t, user) == None
      && (other != user ==> SameLock(s, t, other))
  {
  }

  lemma {:induction false} FailuresFollowTheClock(cfg: Config, s: Store, events: seq<Event>, user: UserId)
    requires NoLogin(cfg, s, events, user)
    ensures forall k :: 0 <= k < |FailureTimes(cfg, s, events, user)| ==> FailureTimes(cfg, s, events, user)[k] >= s.now
    ensures LockOf(s, user).Some? ==>
      forall k :: 0 <= k < |FailureTimes(cfg, s, events, user)| ==> FailureTimes(cfg, s, events, user)[k] >= LockOf(s, user).value
    decreases |events|
  {
    if events == [] {
    } else {
      LockFieldsStep(cfg, At(s, events[0]), events[0].call, user);
      FailuresFollowTheClock(cfg, After(cfg, s, events[0]), events[1..], user);
    }
  }

  /** Once the counter reaches the threshold, failures are a lock time apart. */
  ghost predicate Spaced(times: seq<Time>, free: int, gap: int) {
    && (forall j, k :: 0 <= j < k < |times| ==> times[j] <= times[k])
    && (forall k :: 0 <= k && free <= k + 1 < |times| ==> times[k + 1] >= times[k] + gap)
  }

  /** How many failures can follow each other without waiting for a lock. */
  function Free(cfg: Config, counter: nat): (f: int)
    ensures 1 <= f <= Threshold(cfg)
  {
    Max(1, Threshold(cfg) - counter)
  }

  lemma SpacedOneMore(time: Time, rest: seq<Time>, free: nat, freeAfter: nat, lock: int)
    requires Spaced(rest, freeAfter, lock) && freeAfter <= Max(1, free - 1)
    requires (forall k :: 0 <= k < |rest| ==> time <= rest[k]) && (free <= 1 && rest != [] ==> rest[0] >= time + lock)
    ensures Spaced([time] + rest, free, lock)
  {
    var times := [time] + rest;
    forall k | 0 <= k && free <= k + 1 < |times| ensures times[k + 1] >= times[k] + lock {
      if k > 0 {
        assert freeAfter <= k;
        assert rest[(k - 1) + 1] >= rest[k - 1] + lock;
      }
    }
  }

  lemma {:induction false} FailuresAreSpaced(cfg: Config, s: Store, events: seq<Event>, user: UserId)
    requires NoLogin(cfg, s, events, user)
    ensures Spaced(FailureTimes(cfg, s, events, user), Free(cfg, Counter(s, user)), LockTime(cfg))
    decreases |events|
  {
    if events == [] {
    } else {
      var s0, s1 := At(s, events[0]), After(cfg, s, events[0]);
      var rest := FailureTimes(cfg, s1, events[1..], user);
      LockFieldsStep(cfg, s0, events[0].call, user);
      FailuresFollowTheClock(cfg, s1, events[1..], user);
      FailuresAreSpaced(cfg, s1, events[1..], user);
      if FailedCheck(s0, events[0].call, user) {
        assert FailureTimes(cfg, s, events, user) == [s0.now] + rest;
        SpacedOneMore(s0.now, rest, Free(cfg, Counter(s, user)), Free(cfg, Counter(s1, user)), LockTime(cfg));
      }
    }
  }

  function CountWithin(times: seq<Time>, from: Time, to: Time): nat {
    if times == [] then 0
    else (if from <= times[0] <= to then 1 else 0) + CountWithin(times[1..], from, to)
  }

  lemma {:induction false} LaterThanSpan(times: seq<Time>, from: Time, to: Time)
    requires forall k :: 0 <= k < |times| ==> times[k] > to
    ensures CountWithin(times, from, to) == 0
  {
    if times == [] {
    } else {
      LaterThanSpan(times[1..], from, to);
    }
  }

  /** In a sorted sequence the entries of a span are adjacent. */
  lemma {:induction false} SpanIsContiguous(times: seq<Time>, from: Time, to: Time) returns (i: nat)
    requires forall j, k :: 0 <= j < k < |times| ==> times[j] <= times[k]
    ensures i + CountWithin(times, from, to) <= |times|
    ensures forall k :: i <= k < i + CountWithin(times, from, to) ==> from <= times[k] <= to
    ensures times != [] && from <= times[0] && CountWithin(times, from, to) > 0 ==> i == 0
  {
    if times == [] {
      i := 0;
    } else {
      var rest := SpanIsContiguous(times[1..], from, to);
      if times[0] < from {
        i := rest + 1;
      } else if CountWithin(times, from, to) == 0 {
        i := 0;
      } else {
        i := 0;
        if times[0] > to {
          LaterThanSpan(times, from, to);
          assert false;
        }
        forall k | 0 < k < CountWithin(times, from, to) ensures from <= times[k] <= to {
          assert times[k] == times[1..][k - 1];
        }
      }
    }
  }

  lemma {:induction false} GapsAddUp(times: seq<Time>, free: int, gap: int, i: nat, n: nat)
    requires Spaced(times, free, gap) && free <= i + 1 && i + n < |times|
    ensures times[i + n] >= times[i] + n * gap
  {
    if n == 0 {
    } else {
      GapsAddUp(times, free, gap, i, n - 1);
      assert times[(i + n - 1) + 1] >= times[i + n - 1] + gap;
      assert n * gap == (n - 1) * gap + gap;
    }
  }

  lemma SpacedSpanBound(times: seq<Time>, free: int, gap: int, from: Time, span: nat)
    requires gap > 0 && free >= 1 && Spaced(times, free, gap)
    ensures CountWithin(times, from, from + span) <= free + span / gap
  {
    var n := CountWithin(times, from, from + span);
    var i := SpanIsContiguous(times, from, from + span);
    if n > free {
      GapsAddUp(times, free, gap, i + free - 1, n - free);
      assert i + free - 1 + (n - free) == i + n - 1;
      QuotientAtLeast(n - free, span, gap);
    } else {
      assert span / gap >= 0;
    }
  }

  /** The rate bound, from any store, for any interleaving with other calls and
      any clock readings. `span` is the length of a closed time interval. */
  lemma LockoutRateBound(cfg: Config, s: Store, events: seq<Event>, user: UserId, from: Time, span: nat)
    requires NoLogin(cfg, s, events, user)
    ensures CountWithin(FailureTimes(cfg, s, events, user), from, from + span)
      <= Free(cfg, Counter(s, user)) + span / LockTime(cfg)
    ensures CountWithin(FailureTimes(cfg, s, events, user), from, from + span) <= Threshold(cfg) + span / LockTime(cfg)
  {
    FailuresAreSpaced(cfg, s, events, user);
    SpacedSpanBound(FailureTimes(cfg, s, events, user), Free(cfg, Counter(s, user)), LockTime(cfg), from, span);
  }

  // ---- Counter and lock over runs ----------------------------------------------------

  /** The lock that a run of failed checks leaves: none of its own below the threshold,
      else one from the last of them. */
  function LockLeft(cfg: Config, counter: nat, lock: Option<Time>, times: seq<Time>): Option<Time> {
    if times == [] || counter + |times| < Threshold(cfg) then lock else Some(times[|times| - 1] + LockTime(cfg))
  }

  lemma LockLeftFirst(cfg: Config, counter: nat, lock: Option<Time>, first: seq<Time>, rest: seq<Time>)
    requires |first| <= 1
    ensures LockLeft(cfg, counter, lock, first + rest) == LockLeft(cfg, counter + |first|, LockLeft(cfg, counter, lock, first), rest)
  {
    if rest == [] {
      assert first + rest == first;
    }
  }

  /** When the event fails a check of the user's password, if it does. */
  function FailureAt(s: Store, e: Event, user: UserId): (times: seq<Time>)
    ensures |times| <= 1
  {
    if FailedCheck(At(s, e), e.call, user) then [At(s, e).now] else []
  }

  lemma CounterStep(cfg: Config, s: Store, e: Event, user: UserId)
    requires !PasswordLogin(At(s, e), e.call, user)
    ensures var t, first := After(cfg, s, e), FailureAt(s, e, user);
      Counter(t, user) == Counter(s, user) + |first| && LockOf(t, user) == LockLeft(cfg, Counter(s, user), LockOf(s, user), first)
  {
    LockFieldsStep(cfg, At(s, e), e.call, user);
  }

  /** The user's counter and lock stand at what these failed checks leave. */
  predicate CountedUp(cfg: Config, s: Store, t: Store, times: seq<Time>, user: UserId) {
    Counter(t, user) == Counter(s, user) + |times| && LockOf(t, user) == LockLeft(cfg, Counter(s, user), LockOf(s, user), times)
  }

  lemma CountedUpFirst(cfg: Config, s: Store, s1: Store, t: Store, first: seq<Time>, rest: seq<Time>, user: UserId)
    requires |first| <= 1 && CountedUp(cfg, s, s1, first, user) && CountedUp(cfg, s1, t, rest, user)
    ensures CountedUp(cfg, s, t, first + rest, user)
  {
    LockLeftFirst(cfg, Counter(s, user), LockOf(s, user), first, rest);
  }

  /** Over every run without a login of the user the counter counts the failed checks. */
  lemma {:induction false} CounterFollows(cfg: Config, s: Store, events: seq<Event>, user: UserId)
    requires NoLogin(cfg, s, events, user)
    ensures CountedUp(cfg, s, Run(cfg, s, events), FailureTimes(cfg, s, events, user), user)
    decreases |events|
  {
    if events == [] {
    } else {
      var e, s1 := events[0], After(cfg, s, events[0]);
      CounterStep(cfg, s, e, user);
      CounterFollows(cfg, s1, events[1..], user);
      CountedUpFirst(cfg, s, s1, Run(cfg, s, events), FailureAt(s, e, user), FailureTimes(cfg, s1, events[1..], user), user);
    }
  }

  /** After a password login the user starts afresh: all of the free failed checks are
      there again, fewer than the threshold leave no lock, and those before the login
      no longer count. */
  lemma LoginStartsAfresh(cfg: Config, s: Store, login: Event, events: seq<Event>, user: UserId)
    requires PasswordLogin(At(s, login), login.call, user) && NoLogin(cfg, After(cfg, s, login), events, user)
    ensures var t := After(cfg, s, login);
      var times := FailureTimes(cfg, t, events, user);
      && Spaced(times, Threshold(cfg), LockTime(cfg))
      && Counter(Run(cfg, t, events), user) == |times|
      && (|times| < Threshold(cfg) ==> LockOf(Run(cfg, t, events), user) == None)
      && (|times| >= Threshold(cfg) ==> LockOf(Run(cfg, t, events), user) == Some(times[|times| - 1] + LockTime(cfg)))
  {
    var t := After(cfg, s, login);
    PasswordLoginClears(cfg, At(s, login), login.call, user, user);
    FailuresAreSpaced(cfg, t, events, user);
    CounterFollows(cfg, t, events, user);
  }

  // ---- The bound is reached ---------------------------------------------------

  lemma {:induction false} FindUserByEmailOnly(a: seq<User>, b: seq<User>, email: string)
    requires |a| == |b| && forall i :: 0 <= i < |a| ==> a[i].email == b[i].email
    ensures FindUser(a, email) == FindUser(b, email)
  {
    if a == [] {
    } else {
      FindUserByEmailOnly(a[..|a| - 1], b[..|b| - 1], email);
    }
  }

  /** An active account, its lock (if any) started this instant, and a wrong guess for it. */
  predicate Guessable(cfg: Config, s: Store, user: UserId, guess: Call) {
    && guess.Login? && FindUser(s.users, guess.email) == Some(user) && s.users[user].isActive
    && !VerifyPassword(guess.password, s.users[user].passwordHash)
    && s.users[user].lockedUntil ==
       if s.users[user].failedLoginAttempts >= Threshold(cfg) then Some(s.now + LockTime(cfg)) else None
  }

  /** Guess as soon as the lock allows. */
  function NextGuess(cfg: Config, s: Store, user: UserId, guess: Call): Event {
    Event(if Counter(s, user) >= Threshold(cfg) then LockTime(cfg) else 0, guess)
  }

  function WaitedFor(cfg: Config, counter: nat, n: nat): nat
    decreases n
  {
    if n == 0 then 0
    else (if counter >= Threshold(cfg) then LockTime(cfg) else 0) + WaitedFor(cfg, counter + 1, n - 1)
  }

  lemma {:induction false} WaitedForClosedForm(cfg: Config, counter: nat, n: nat)
    requires counter >= Threshold(cfg)
    ensures WaitedFor(cfg, counter, n) == n * LockTime(cfg)
    decreases n
  {
    if n == 0 {
    } else {
      WaitedForClosedForm(cfg, counter + 1, n - 1);
      assert n * LockTime(cfg) == (n - 1) * LockTime(cfg) + LockTime(cfg);
    }
  }

  /** Starting from a clear counter, only the guesses after the M-th wait. */
  lemma {:induction false} WaitedFromCounter(cfg: Config, counter: nat, n: nat)
    requires counter + n >= Threshold(cfg) >= counter
    ensures WaitedFor(cfg, counter, n) == (counter + n - Threshold(cfg)) * LockTime(cfg)
    decreases n
  {
    if counter == Threshold(cfg) {
      WaitedForClosedForm(cfg, counter, n);
    } else {
      WaitedFromCounter(cfg, counter + 1, n - 1);
    }
  }

  lemma GuessStep(cfg: Config, s: Store, user: UserId, guess: Call)
    requires Guessable(cfg, s, user, guess)
    ensures var e := NextGuess(cfg, s, user, guess);
      && FailedCheck(At(s, e), guess, user) && Guessable(cfg, After(cfg, s, e), user, guess)
      && Counter(After(cfg, s, e), user) == Counter(s, user) + 1 && After(cfg, s, e).now == s.now + e.wait
  {
    var e := NextGuess(cfg, s, user, guess);
    LockFieldsStep(cfg, At(s, e), guess, user);
    FindUserByEmailOnly(s.users, After(cfg, s, e).users, guess.email);
  }

  lemma GuessFirst(cfg: Config, s: Store, user: UserId, guess: Call, rest: seq<Event>)
    requires Guessable(cfg, s, user, guess)
    ensures var e := NextGuess(cfg, s, user, guess);
      && FailureTimes(cfg, s, [e] + rest, user) == [s.now + e.wait] + FailureTimes(cfg, After(cfg, s, e), rest, user)
      && (NoLogin(cfg, s, [e] + rest, user) <==> NoLogin(cfg, After(cfg, s, e), rest, user))
  {
    GuessStep(cfg, s, user, guess);
    assert ([NextGuess(cfg, s, user, guess)] + rest)[1..] == rest;
  }

  predicate AllBetween(times: seq<Time>, from: Time, to: Time) {
    forall t :: t in times ==> from <= t <= to
  }

  lemma TimesAfterWait(first: Time, rest: seq<Time>, from: Time, to: Time)
    requires from <= first <= to && AllBetween(rest, first, to)
    ensures AllBetween([first] + rest, from, to)
  {
  }

  /** When guesses are made as soon as the lock allows. */
  function GuessTimes(cfg: Config, now: Time, counter: nat, n: nat): (times: seq<Time>)
    ensures |times| == n
    decreases n
  {
    if n == 0 then []
    else
      var first := now + (if counter >= Threshold(cfg) then LockTime(cfg) else 0);
      [first] + GuessTimes(cfg, first, counter + 1, n - 1)
  }

  lemma {:induction false} GuessTimesBetween(cfg: Config, now: Time, counter: nat, n: nat)
    ensures AllBetween(GuessTimes(cfg, now, counter, n), now, now + WaitedFor(cfg, counter, n))
    decreases n
  {
    if n == 0 {
    } else {
      var first := now + (if counter >= Threshold(cfg) then LockTime(cfg) else 0);
      GuessTimesBetween(cfg, first, counter + 1, n - 1);
      TimesAfterWait(first, GuessTimes(cfg, first, counter + 1, n - 1), now, now + WaitedFor(cfg, counter, n));
    }
  }

  /** Such guesses, every one of them a failed check. */
  lemma {:induction false} GuessesAllCheck(cfg: Config, s: Store, user: UserId, guess: Call, n: nat) returns (events: seq<Event>)
    requires Guessable(cfg, s, user, guess)
    ensures NoLogin(cfg, s, events, user)
    ensures FailureTimes(cfg, s, events, user) == GuessTimes(cfg, s.now, Counter(s, user), n)
    decreases n
  {
    if n == 0 {
      events := [];
    } else {
      var e := NextGuess(cfg, s, user, guess);
      GuessStep(cfg, s, user, guess);
      var rest := GuessesAllCheck(cfg, After(cfg, s, e), user, guess, n - 1);
      GuessFirst(cfg, s, user, guess, rest);
      events := [e] + rest;
    }
  }

  /** The bound cannot be improved: from a clear counter, M + q guesses fit in a
      span of q lock times, for every q. */
  lemma LockoutBoundIsReached(cfg: Config, s: Store, user: UserId, guess: Call, q: nat) returns (events: seq<Event>)
    requires Guessable(cfg, s, user, guess) && Counter(s, user) == 0
    ensures NoLogin(cfg, s, events, user)
    ensures CountWithin(FailureTimes(cfg, s, events, user), s.now, s.now + q * LockTime(cfg)) == Threshold(cfg) + q
  {
    var n := Threshold(cfg) + q;
    events := GuessesAllCheck(cfg, s, user, guess, n);
    GuessTimesBetween(cfg, s.now, 0, n);
    WaitedFromCounter(cfg, 0, n);
    AllWithin(GuessTimes(cfg, s.now, 0, n), s.now, s.now + q * LockTime(cfg));
  }

  lemma {:induction false} AllWithin(times: seq<Time>, from: Time, to: Time)
    requires AllBetween(times, from, to)
    ensures CountWithin(times, from, to) == |times|
  {
    if times == [] {
    } else {
      assert times[0] in times && forall t :: t in times[1..] ==> t in times;
      AllWithin(times[1..], from, to);
    }
  }
}
