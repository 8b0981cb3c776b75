/**
  Concurrent login attempts of one login.

  The handler asks whether the login is locked, then has the password judged, and only then records
  a failure or clears the counters. Nothing keeps attempts apart, so these are three steps, and the
  steps of any number of attempts interleave.
 */
module LoginAttempts {
  import opened L = Lockout

  /** Past the lock check; judged wrong, with the failure to be recorded; or right, with a clear to follow. */
  datatype Phase = Passed | Wrong | Right

  /** `checkedAt` is the step at which the lock check let the attempt pass. */
  datatype Attempt = Attempt(checkedAt: int, phase: Phase)

  datatype State = State(clock: int, now: nat, rec: Record, attempts: map<int, Attempt>)

  datatype Step =
    | Tick(now: nat)
    | Check(x: int)
    | Judge(x: int, answer: Answer)
    | Note(x: int)
    | Clear(x: int)

  predicate Locked(c: Config, s: State) {
    !Disabled(c) && LockedAt(s.rec, s.now)
  }

  ghost predicate Init(s: State) {
    s.clock == 0 && s.rec == CLEAN && s.attempts == map[]
  }

  ghost predicate Next(c: Config, s: State, step: Step, s': State) {
    match step
    case Tick(now) =>
      s.now <= now && s' == s.(clock := s.clock + 1, now := now)
    case Check(x) =>
      && x !in s.attempts
      && s' == s.(clock := s.clock + 1,
                  attempts := if Locked(c, s) then s.attempts else s.attempts[x := Attempt(s.clock, Passed)])
    case Judge(x, answer) =>
      && x in s.attempts && s.attempts[x].phase.Passed?
      && s' == s.(clock := s.clock + 1,
                  attempts := if answer.Broken? then s.attempts - {x}
                              else s.attempts[x := s.attempts[x].(phase := if answer.Rejected? then Wrong else Right)])
    case Note(x) =>
      && x in s.attempts && s.attempts[x].phase.Wrong?
      && s' == s.(clock := s.clock + 1, attempts := s.attempts - {x}, rec := AfterFailure(c, s.rec, s.now, NO_FAULTS))
    case Clear(x) =>
      && x in s.attempts && s.attempts[x].phase.Right?
      && s' == s.(clock := s.clock + 1, attempts := s.attempts - {x}, rec := AfterSuccess(s.rec, NO_FAULTS))
  }

  ghost predicate StepAt(c: Config, tr: seq<State>, steps: seq<Step>, i: int)
    requires |tr| == |steps| + 1 && 0 <= i < |steps|
  {
    Next(c, tr[i], steps[i], tr[i + 1])
  }

  ghost predicate Run(c: Config, tr: seq<State>, steps: seq<Step>) {
    && |tr| == |steps| + 1
    && Init(tr[0])
    && forall i {:trigger StepAt(c, tr, steps, i)} :: 0 <= i < |steps| ==> StepAt(c, tr, steps, i)
  }

  // ---------------------------------------------------------------- counting

  /** Failed password checks among the steps from `m` up to `n`. */
  function Judged(steps: seq<Step>, m: nat, n: nat): nat
    requires m <= n <= |steps|
  {
    if m == n then 0
    else Judged(steps, m, n - 1) + if steps[n - 1].Judge? && steps[n - 1].answer.Rejected? then 1 else 0
  }

  /** Failures recorded among these steps while the login was locked, or while it was not. */
  function Recorded(c: Config, tr: seq<State>, steps: seq<Step>, m: nat, n: nat, locked: bool): nat
    requires m <= n <= |steps| < |tr|
  {
    if m == n then 0
    else
      Recorded(c, tr, steps, m, n - 1, locked)
      + if steps[n - 1].Note? && Locked(c, tr[n - 1]) == locked then 1 else 0
  }

  /** Attempts judged wrong whose failure is not yet recorded. */
  function Waiting(s: State): set<int> {
    set x | x in s.attempts && s.attempts[x].phase.Wrong?
  }

  ghost predicate SuccessFree(steps: seq<Step>, m: nat, n: nat) {
    forall i :: m <= i < n <= |steps| ==> !steps[i].Clear?
  }

  lemma JudgeCounts(c: Config, s: State, x: int, answer: Answer, s': State)
    requires Next(c, s, Judge(x, answer), s')
    ensures |Waiting(s')| == |Waiting(s)| + if answer.Rejected? then 1 else 0
  {
    forall y ensures y in Waiting(s') <==> y in Waiting(s) || (answer.Rejected? && y == x) {}
    assert Waiting(s') == if answer.Rejected? then Waiting(s) + {x} else Waiting(s);
  }

  lemma NextCounts(c: Config, s: State, step: Step, s': State)
    requires Next(c, s, step, s')
    ensures |Waiting(s')| + (if step.Note? then 1 else 0)
         == |Waiting(s)| + if step.Judge? && step.answer.Rejected? then 1 else 0
  {
    match step {
      case Judge(x, answer) => JudgeCounts(c, s, x, answer, s');
      case Note(x) => assert Waiting(s') == Waiting(s) - {x};
      case Clear(x) => assert Waiting(s') == Waiting(s);
      case Check(x) => assert Waiting(s') == Waiting(s);
      case Tick(_) =>
    }
  }

  /** A failed check is recorded or still waits to be. */
  lemma {:induction false} ChecksAreRecorded(c: Config, tr: seq<State>, steps: seq<Step>, m: nat, n: nat)
    requires Run(c, tr, steps) && m <= n <= |steps|
    ensures |Waiting(tr[m])| + Judged(steps, m, n)
         == |Waiting(tr[n])| + Recorded(c, tr, steps, m, n, true) + Recorded(c, tr, steps, m, n, false)
    decreases n
  {
    if m < n {
      ChecksAreRecorded(c, tr, steps, m, n - 1);
      assert StepAt(c, tr, steps, n - 1);
      NextCounts(c, tr[n - 1], steps[n - 1], tr[n]);
    }
  }

  // ---------------------------------------------------------------- the lock period

  lemma FailureKeepsOk(c: Config, r: Record, now: nat)
    requires !Disabled(c) && Ok(c, r, now)
    ensures Ok(c, AfterFailure(c, r, now, NO_FAULTS), now)
  {
  }

  lemma {:induction false} RunIsOk(c: Config, tr: seq<State>, steps: seq<Step>, n: nat)
    requires Run(c, tr, steps) && n < |tr| && !Disabled(c)
    ensures Ok(c, tr[n].rec, tr[n].now) && tr[n].clock == n
    ensures forall x :: x in tr[n].attempts ==> 0 <= tr[n].attempts[x].checkedAt < n
  {
    if n > 0 {
      RunIsOk(c, tr, steps, n - 1);
      assert StepAt(c, tr, steps, n - 1);
      if steps[n - 1].Note? { FailureKeepsOk(c, tr[n - 1].rec, tr[n - 1].now); }
    }
  }

  lemma {:induction false} PeriodStage(c: Config, tr: seq<State>, steps: seq<Step>, m: nat, n: nat, a: nat)
    requires Run(c, tr, steps) && m <= n <= |steps| && !Disabled(c) && SuccessFree(steps, m, n)
    requires forall i :: m <= i < n ==> a <= tr[i].now < a + c.lockTtl
    ensures Stage(c, tr[n].rec, a, Recorded(c, tr, steps, m, n, false))
    decreases n
  {
    if m < n {
      PeriodStage(c, tr, steps, m, n - 1, a);
      RunIsOk(c, tr, steps, n - 1);
      assert StepAt(c, tr, steps, n - 1);
      if steps[n - 1].Note? {
        FailureKeepsStage(c, tr[n - 1].rec, tr[n - 1].now, a, Recorded(c, tr, steps, m, n - 1, false));
      }
    }
  }

  /**
    In a success-free half-open interval of one lock period, after any history, the failed password
    checks number at most the bound, plus the failures recorded when the login was already locked,
    plus those not yet recorded at its end.
   */
  lemma FailedChecksPerLockPeriod(c: Config, tr: seq<State>, steps: seq<Step>, m: nat, n: nat, a: nat)
    requires Run(c, tr, steps) && m <= n <= |steps| && !Disabled(c) && SuccessFree(steps, m, n)
    requires forall i :: m <= i < n ==> a <= tr[i].now < a + c.lockTtl
    ensures Judged(steps, m, n) <= Bound(c) + Recorded(c, tr, steps, m, n, true) + |Waiting(tr[n])|
  {
    ChecksAreRecorded(c, tr, steps, m, n);
    PeriodStage(c, tr, steps, m, n, a);
    StageBound(c, tr[n].rec, a, Recorded(c, tr, steps, m, n, false));
  }

  /** While the login is locked, an attempt in progress was past its check when another one set the lock. */
  lemma {:induction false} OvertakenByTheLock(c: Config, tr: seq<State>, steps: seq<Step>, n: nat, x: int)
    returns (p: nat)
    requires Run(c, tr, steps) && n < |tr| && Locked(c, tr[n]) && x in tr[n].attempts
    ensures tr[n].attempts[x].checkedAt < p < n && steps[p].Note? && steps[p].x != x
    ensures x in tr[p].attempts && steps[p].x in tr[p].attempts && !Locked(c, tr[p])
    ensures forall q :: p < q <= n ==> Locked(c, tr[q])
  {
    RunIsOk(c, tr, steps, n - 1);
    assert StepAt(c, tr, steps, n - 1);
    if Locked(c, tr[n - 1]) {
      p := OvertakenByTheLock(c, tr, steps, n - 1, x);
    } else {
      p := n - 1;
    }
  }

  /** From the failure that fills the counter, and until a success clears it, every check of one lock period refuses. */
  lemma {:induction false} LockRefusesChecks(c: Config, tr: seq<State>, steps: seq<Step>, p: nat, q: nat)
    requires Run(c, tr, steps) && p < q < |tr| && !Disabled(c) && steps[p].Note? && SuccessFree(steps, p, q)
    requires if Counting(tr[p].rec, tr[p].now) then tr[p].rec.fails.value.count + 1 >= c.maxAttempts
      else c.maxAttempts == 1
    requires tr[q].now < tr[p].now + c.lockTtl
    ensures Locked(c, tr[q]) && tr[p].now + c.lockTtl <= tr[q].rec.lockedUntil
    ensures q < |steps| && steps[q].Check? ==> tr[q + 1].attempts == tr[q].attempts
    decreases q
  {
    assert StepAt(c, tr, steps, q - 1);
    if q < |steps| { assert StepAt(c, tr, steps, q); }
    if p < q - 1 {
      LockRefusesChecks(c, tr, steps, p, q - 1);
      NowGrows(c, tr, steps, p, q - 1);
    }
  }

  lemma {:induction false} NowGrows(c: Config, tr: seq<State>, steps: seq<Step>, p: nat, q: nat)
    requires Run(c, tr, steps) && p <= q < |tr|
    ensures tr[p].now <= tr[q].now
    decreases q
  {
    if p < q {
      NowGrows(c, tr, steps, p, q - 1);
      assert StepAt(c, tr, steps, q - 1);
    }
  }

  // ---------------------------------------------------------------- what it takes to get locked

  /** The failures that the first `n` steps recorded since the last success, and not before time `from`. */
  function NotedSince(tr: seq<State>, steps: seq<Step>, n: nat, from: int): nat
    requires n <= |steps| < |tr|
  {
    if n == 0 then 0
    else match steps[n - 1]
      case Clear(_) => 0
      case Note(_) => NotedSince(tr, steps, n - 1, from) + if from <= tr[n - 1].now then 1 else 0
      case _ => NotedSince(tr, steps, n - 1, from)
  }

  lemma {:induction false} MoreSinceEarlier(tr: seq<State>, steps: seq<Step>, n: nat, from: int, later: int)
    requires n <= |steps| < |tr| && from <= later
    ensures NotedSince(tr, steps, n, later) <= NotedSince(tr, steps, n, from)
  {
    if n > 0 { MoreSinceEarlier(tr, steps, n - 1, from, later); }
  }

  /**
    Step `p` records a failure that is at least the maxAttempts-th since the last success and within one
    lock period.
   */
  ghost predicate FillsCounter(c: Config, tr: seq<State>, steps: seq<Step>, p: nat)
    requires |steps| < |tr|
  {
    && p < |steps| && steps[p].Note?
    && NotedSince(tr, steps, p + 1, tr[p].now - c.lockTtl + 1) >= c.maxAttempts
  }

  /** A lock of this length comes from such a failure, with no success since. */
  ghost predicate LockedFrom(c: Config, tr: seq<State>, steps: seq<Step>, n: nat, until: int, p: nat)
    requires n <= |steps| < |tr|
  {
    p < n && FillsCounter(c, tr, steps, p) && SuccessFree(steps, p, n) && until == tr[p].now + c.lockTtl
  }

  ghost predicate LockEarned(c: Config, tr: seq<State>, steps: seq<Step>, n: nat, until: int)
    requires n <= |steps| < |tr|
  {
    exists p :: LockedFrom(c, tr, steps, n, until, p)
  }

  /** The counter counts no more than the failures since its first one, and a lock has its cause. */
  ghost predicate Earned(c: Config, tr: seq<State>, steps: seq<Step>, n: nat)
    requires n <= |steps| < |tr|
  {
    var r := tr[n].rec;
    && (r.fails.Some? ==>
          && r.fails.value.expiry.Some?
          && r.fails.value.count <= NotedSince(tr, steps, n, r.fails.value.expiry.value - c.lockTtl))
    && (r.lockedUntil > 0 ==> LockEarned(c, tr, steps, n, r.lockedUntil))
  }

  lemma LockStaysEarned(c: Config, tr: seq<State>, steps: seq<Step>, n: nat, until: int)
    requires n < |steps| < |tr| && !steps[n].Clear? && LockEarned(c, tr, steps, n, until)
    ensures LockEarned(c, tr, steps, n + 1, until)
  {
    var p :| LockedFrom(c, tr, steps, n, until, p);
    assert LockedFrom(c, tr, steps, n + 1, until, p);
  }

  lemma NoteIsEarned(c: Config, tr: seq<State>, steps: seq<Step>, n: nat)
    requires n < |steps| < |tr| && !Disabled(c) && Earned(c, tr, steps, n) && Ok(c, tr[n].rec, tr[n].now)
    requires steps[n].Note? && tr[n + 1].rec == AfterFailure(c, tr[n].rec, tr[n].now, NO_FAULTS)
    ensures Earned(c, tr, steps, n + 1)
  {
    var r, now := tr[n].rec, tr[n].now;
    var k := Bumped(c, r, now, false);
    var from := k.expiry.value - c.lockTtl;
    assert k.count <= NotedSince(tr, steps, n + 1, from);
    if k.count >= c.maxAttempts {
      MoreSinceEarlier(tr, steps, n + 1, now - c.lockTtl + 1, from);
      assert LockedFrom(c, tr, steps, n + 1, now + c.lockTtl, n);
    } else if r.lockedUntil > 0 {
      LockStaysEarned(c, tr, steps, n, r.lockedUntil);
    }
  }

  lemma {:induction false} EveryLockIsEarned(c: Config, tr: seq<State>, steps: seq<Step>, n: nat)
    requires Run(c, tr, steps) && n <= |steps| && !Disabled(c)
    ensures Earned(c, tr, steps, n)
  {
    if n > 0 {
      EveryLockIsEarned(c, tr, steps, n - 1);
      RunIsOk(c, tr, steps, n - 1);
      assert StepAt(c, tr, steps, n - 1);
      if steps[n - 1].Note? {
        NoteIsEarned(c, tr, steps, n - 1);
      } else if !steps[n - 1].Clear? && tr[n - 1].rec.lockedUntil > 0 {
        LockStaysEarned(c, tr, steps, n - 1, tr[n - 1].rec.lockedUntil);
      }
    }
  }

  /**
    However attempts interleave, a login is locked only within one lock period of a recorded failure
    that is at least the maxAttempts-th since the last success and within one lock period, with no
    success since.
   */
  lemma LockedOnlyAfterFailures(c: Config, tr: seq<State>, steps: seq<Step>, n: nat) returns (p: nat)
    requires Run(c, tr, steps) && n <= |steps| && Locked(c, tr[n])
    ensures p < n && FillsCounter(c, tr, steps, p) && SuccessFree(steps, p, n) && tr[n].now < tr[p].now + c.lockTtl
  {
    EveryLockIsEarned(c, tr, steps, n);
    p :| LockedFrom(c, tr, steps, n, tr[n].rec.lockedUntil, p);
  }

  lemma {:induction false} FewSinceSuccess(c: Config, tr: seq<State>, steps: seq<Step>, p: nat, n: nat, from: int)
    requires p <= n <= |steps| < |tr| && SuccessFree(steps, p, n)
    ensures NotedSince(tr, steps, p, from) <= NotedSince(tr, steps, n, 0)
    decreases n
  {
    if p < n {
      FewSinceSuccess(c, tr, steps, p, n - 1, from);
    } else {
      EarlierSince(tr, steps, n, from);
    }
  }

  lemma {:induction false} EarlierSince(tr: seq<State>, steps: seq<Step>, n: nat, from: int)
    requires n <= |steps| < |tr|
    ensures NotedSince(tr, steps, n, from) <= NotedSince(tr, steps, n, 0)
  {
    if n > 0 { EarlierSince(tr, steps, n - 1, from); }
  }

  /** So with fewer than maxAttempts failures recorded since the last success, every check lets its attempt pass. */
  lemma SuccessClearsFailures(c: Config, tr: seq<State>, steps: seq<Step>, n: nat)
    requires Run(c, tr, steps) && n < |steps| && steps[n].Check? && NotedSince(tr, steps, n, 0) < c.maxAttempts
    ensures steps[n].x in tr[n + 1].attempts && tr[n + 1].attempts[steps[n].x].phase == Passed
  {
    assert StepAt(c, tr, steps, n);
    if Locked(c, tr[n]) {
      var p := LockedOnlyAfterFailures(c, tr, steps, n);
      FewSinceSuccess(c, tr, steps, p + 1, n, tr[p].now - c.lockTtl + 1);
    }
  }

  // ---------------------------------------------------------------- one attempt at a time

  ghost predicate OneAtATime(tr: seq<State>, n: nat) {
    forall i, x, y :: 0 <= i <= n < |tr| && x in tr[i].attempts && y in tr[i].attempts ==> x == y
  }

  lemma {:induction false} NobodyIsOvertaken(c: Config, tr: seq<State>, steps: seq<Step>, m: nat, n: nat)
    requires Run(c, tr, steps) && m <= n <= |steps| && OneAtATime(tr, n)
    ensures Recorded(c, tr, steps, m, n, true) == 0
    decreases n
  {
    if m < n {
      NobodyIsOvertaken(c, tr, steps, m, n - 1);
      assert StepAt(c, tr, steps, n - 1);
      if steps[n - 1].Note? && Locked(c, tr[n - 1]) {
        var p := OvertakenByTheLock(c, tr, steps, n - 1, steps[n - 1].x);
        assert false;
      }
    }
  }

  lemma SomeOf(w: set<int>) returns (x: int)
    requires |w| > 0
    ensures x in w
  {
    if !exists y :: y in w {
      assert false;
    }
    x :| x in w;
  }

  lemma AtMostOneWaits(tr: seq<State>, n: nat)
    requires n < |tr| && OneAtATime(tr, n)
    ensures |Waiting(tr[n])| <= 1
  {
    var w := Waiting(tr[n]);
    if |w| > 0 {
      var x := SomeOf(w);
      forall y | y in w ensures y == x { assert x in tr[n].attempts && y in tr[n].attempts; }
      assert w == {x};
    }
  }

  /** Attempts that never overlap keep the bound exactly. */
  lemma SerialChecksPerLockPeriod(c: Config, tr: seq<State>, steps: seq<Step>, m: nat, n: nat, a: nat)
    requires Run(c, tr, steps) && m < n <= |steps| && !Disabled(c) && SuccessFree(steps, m, n) && OneAtATime(tr, n)
    requires forall i :: m <= i <= n ==> a <= tr[i].now < a + c.lockTtl
    ensures Judged(steps, m, n) <= Bound(c)
  {
    ChecksAreRecorded(c, tr, steps, m, n);
    PeriodStage(c, tr, steps, m, n, a);
    NobodyIsOvertaken(c, tr, steps, m, n);
    AtMostOneWaits(tr, n);
    var k := Recorded(c, tr, steps, m, n, false);
    StageBound(c, tr[n].rec, a, k);
    var w := Waiting(tr[n]);
    if |w| > 0 {
      var x := SomeOf(w);
      if Locked(c, tr[n]) {
        var p := OvertakenByTheLock(c, tr, steps, n, x);
        assert false;
      }
      RunIsOk(c, tr, steps, n);
      FailureKeepsStage(c, tr[n].rec, tr[n].now, a, k);
      StageBound(c, AfterFailure(c, tr[n].rec, tr[n].now, NO_FAULTS), a, k + 1);
    }
  }

  // ---------------------------------------------------------------- overlapping attempts exceed the bound

  lemma Extend(c: Config, tr: seq<State>, steps: seq<Step>, step: Step, s': State)
    requires Run(c, tr, steps) && Next(c, tr[|steps|], step, s')
    ensures Run(c, tr + [s'], steps + [step])
  {
    var tr', steps' := tr + [s'], steps + [step];
    forall i | 0 <= i < |steps'| ensures StepAt(c, tr', steps', i) {
      if i < |steps| { assert StepAt(c, tr, steps, i); }
    }
  }

  /** Attempts 0 up to `k` are under way at time 0, the first `j` of them judged wrong. */
  ghost predicate UnderWay(s: State, k: nat, j: nat) {
    && s.now == 0 && s.rec == CLEAN
    && (forall x :: x in s.attempts <==> 0 <= x < k)
    && (forall x :: x in s.attempts ==> s.attempts[x].phase == if x < j then Wrong else Passed)
  }

  /** Any number of attempts can pass the check before the first of them is judged. */
  lemma {:induction false} ManyCanPass(c: Config, k: nat) returns (tr: seq<State>, steps: seq<Step>)
    requires !Disabled(c)
    ensures Run(c, tr, steps) && |steps| == k && Judged(steps, 0, k) == 0
    ensures UnderWay(tr[k], k, 0)
  {
    if k == 0 {
      tr, steps := [State(0, 0, CLEAN, map[])], [];
    } else {
      var tr0, steps0 := ManyCanPass(c, k - 1);
      var s := tr0[k - 1];
      var s' := s.(clock := s.clock + 1, attempts := s.attempts[k - 1 := Attempt(s.clock, Passed)]);
      Extend(c, tr0, steps0, Check(k - 1), s');
      tr, steps := tr0 + [s'], steps0 + [Check(k - 1)];
      SamePrefix(steps0, Check(k - 1), k - 1);
    }
  }

  lemma {:induction false} SamePrefix(steps: seq<Step>, step: Step, n: nat)
    requires n <= |steps|
    ensures Judged(steps + [step], 0, n) == Judged(steps, 0, n)
  {
    if n > 0 { SamePrefix(steps, step, n - 1); }
  }

  /** Then all of them can be judged: no bound holds that does not count the attempts in progress. */
  lemma {:induction false} OverlappingChecks(c: Config, k: nat, j: nat) returns (tr: seq<State>, steps: seq<Step>)
    requires !Disabled(c) && j <= k
    ensures Run(c, tr, steps) && |steps| == k + j && Judged(steps, 0, k + j) == j
    ensures UnderWay(tr[k + j], k, j)
  {
    if j == 0 {
      tr, steps := ManyCanPass(c, k);
    } else {
      var tr0, steps0 := OverlappingChecks(c, k, j - 1);
      var s := tr0[k + j - 1];
      assert j - 1 in s.attempts;
      var s' := s.(clock := s.clock + 1, attempts := s.attempts[j - 1 := s.attempts[j - 1].(phase := Wrong)]);
      Extend(c, tr0, steps0, Judge(j - 1, Rejected), s');
      tr, steps := tr0 + [s'], steps0 + [Judge(j - 1, Rejected)];
      SamePrefix(steps0, Judge(j - 1, Rejected), k + j - 1);
    }
  }
}
