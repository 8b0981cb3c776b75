/**
  Shutdown: server goroutines report errors on an unbuffered channel, a receiver cancels the context
  and remembers the error, and Wait closes the channel once the wait group is empty.

  Each server runs two goroutines, one that serves and one that waits for the context and shuts the
  server down; either may send one error. Every step below is one action of one goroutine, so a run
  is any schedule.
 */
module Shutdown {
  import opened Common

  datatype Kind = Serve | ShutDown

  /** `Done` remembers what the goroutine reported, if anything. */
  datatype Status = Working | Sending(err: int) | Sent(err: int) | Done(reported: Option<int>)

  datatype Goroutine = Goroutine(kind: Kind, status: Status)

  datatype Receiver = Off | Listening | Received(from: int, err: int) | Cancelled(from: int, err: int) | Exited

  datatype Main = Starting | AwaitingContext | AwaitingGroup | AwaitingReceiver | Returned(err: Option<int>)

  datatype State = State(
    cancelled: bool,
    gs: seq<Goroutine>,
    group: int,                    // the wait group's counter
    closed: bool,
    receiver: Receiver,
    appErr: Option<int>,
    main: Main,
    received: map<int, int>)       // goroutine -> error taken from the channel

  datatype Step =
    | RunServer                    // two goroutines are added to the group and started
    | EnterWait                    // the receiver is started
    | Signal                       // the context is cancelled from outside
    | Report(g: int, err: int)
    | Quit(g: int)                 // returns without an error to report
    | Send(g: int)
    | Leave(g: int)                // deferred Done after a send
    | Cancel
    | Keep                         // the received error becomes the application's
    | Exit
    | ContextDone
    | Close
    | Return

  predicate MayMove(s: State, g: int) {
    0 <= g < |s.gs| && s.gs[g].status.Working? && (s.gs[g].kind.ShutDown? ==> s.cancelled)
  }

  function With(s: State, g: int, st: Status): seq<Goroutine>
    requires 0 <= g < |s.gs|
  {
    s.gs[g := s.gs[g].(status := st)]
  }

  ghost predicate Init(s: State) {
    s == State(false, [], 0, false, Off, None, Starting, map[])
  }

  ghost predicate Next(s: State, step: Step, s': State) {
    match step
    case RunServer =>
      && s.main.Starting?
      && s' == s.(gs := s.gs + [Goroutine(Serve, Working), Goroutine(ShutDown, Working)], group := s.group + 2)
    case EnterWait =>
      s.main.Starting? && s' == s.(main := AwaitingContext, receiver := Listening)
    case Signal =>
      !s.cancelled && s' == s.(cancelled := true)
    case Report(g, err) =>
      MayMove(s, g) && s' == s.(gs := With(s, g, Sending(err)))
    case Quit(g) =>
      MayMove(s, g) && s' == s.(gs := With(s, g, Done(None)), group := s.group - 1)
    case Send(g) =>
      && 0 <= g < |s.gs| && s.gs[g].status.Sending? && s.receiver.Listening? && !s.closed
      && var err := s.gs[g].status.err;
      s' == s.(gs := With(s, g, Sent(err)), receiver := Received(g, err), received := s.received[g := err])
    case Leave(g) =>
      && 0 <= g < |s.gs| && s.gs[g].status.Sent?
      && s' == s.(gs := With(s, g, Done(Some(s.gs[g].status.err))), group := s.group - 1)
    case Cancel =>
      s.receiver.Received? && s' == s.(cancelled := true, receiver := Cancelled(s.receiver.from, s.receiver.err))
    case Keep =>
      s.receiver.Cancelled? && s' == s.(appErr := Some(s.receiver.err), receiver := Listening)
    case Exit =>
      s.receiver.Listening? && s.closed && s' == s.(receiver := Exited)
    case ContextDone =>
      s.main.AwaitingContext? && s.cancelled && s' == s.(main := AwaitingGroup)
    case Close =>
      s.main.AwaitingGroup? && s.group == 0 && s' == s.(closed := true, main := AwaitingReceiver)
    case Return =>
      s.main.AwaitingReceiver? && s.receiver.Exited? && s' == s.(main := Returned(s.appErr))
  }

  ghost predicate StepAt(tr: seq<State>, steps: seq<Step>, i: int)
    requires |tr| == |steps| + 1 && 0 <= i < |steps|
  {
    Next(tr[i], steps[i], tr[i + 1])
  }

  ghost predicate Run(tr: seq<State>, steps: seq<Step>) {
    && |tr| == |steps| + 1
    && Init(tr[0])
    && forall i {:trigger StepAt(tr, steps, i)} :: 0 <= i < |steps| ==> StepAt(tr, steps, i)
  }

  // ---------------------------------------------------------------- counting goroutines

  function Weight(g: Goroutine): nat {
    match g.status case Working => 6 case Sending(_) => 5 case Sent(_) => 1 case Done(_) => 0
  }

  function Unfinished(gs: seq<Goroutine>): nat {
    if gs == [] then 0 else Unfinished(gs[..|gs| - 1]) + if gs[|gs| - 1].status.Done? then 0 else 1
  }

  function Total(gs: seq<Goroutine>): nat {
    if gs == [] then 0 else Total(gs[..|gs| - 1]) + Weight(gs[|gs| - 1])
  }

  lemma {:induction false} CountsAfterUpdate(gs: seq<Goroutine>, i: int, g: Goroutine)
    requires 0 <= i < |gs|
    ensures Unfinished(gs[i := g]) == Unfinished(gs) - (if gs[i].status.Done? then 0 else 1)
      + (if g.status.Done? then 0 else 1)
    ensures Total(gs[i := g]) == Total(gs) - Weight(gs[i]) + Weight(g)
  {
    var n := |gs| - 1;
    if i < n {
      CountsAfterUpdate(gs[..n], i, g);
      assert gs[i := g][..n] == gs[..n][i := g];
    } else {
      assert gs[i := g][..n] == gs[..n];
    }
  }

  lemma {:induction false} NoneUnfinished(gs: seq<Goroutine>, i: int)
    requires Unfinished(gs) == 0 && 0 <= i < |gs|
    ensures gs[i].status.Done?
  {
    if i < |gs| - 1 { NoneUnfinished(gs[..|gs| - 1], i); }
  }

  lemma {:induction false} SomeUnfinished(gs: seq<Goroutine>) returns (i: int)
    requires Unfinished(gs) > 0
    ensures 0 <= i < |gs| && !gs[i].status.Done?
  {
    i := |gs| - 1;
    if gs[i].status.Done? { i := SomeUnfinished(gs[..i]); }
  }

  lemma CountsAfterStart(gs: seq<Goroutine>)
    ensures Unfinished(gs + [Goroutine(Serve, Working), Goroutine(ShutDown, Working)]) == Unfinished(gs) + 2
  {
    var a, b := Goroutine(Serve, Working), Goroutine(ShutDown, Working);
    assert (gs + [a, b])[..|gs| + 1] == gs + [a];
    assert (gs + [a])[..|gs|] == gs;
  }

  // ---------------------------------------------------------------- the invariant

  /** What left a goroutine is exactly what the receiver got from it. */
  ghost predicate Delivered(s: State, g: int) {
    0 <= g < |s.gs| ==>
      match s.gs[g].status
      case Working => g !in s.received
      case Sending(_) => g !in s.received
      case Sent(e) => g in s.received && s.received[g] == e
      case Done(None) => g !in s.received
      case Done(Some(e)) => g in s.received && s.received[g] == e
  }

  ghost predicate Inv(s: State) {
    && s.group == Unfinished(s.gs)
    && (forall g {:trigger Delivered(s, g)} :: Delivered(s, g))
    && (forall g :: g in s.received ==> 0 <= g < |s.gs|)
    && (s.closed <==> s.main.AwaitingReceiver? || s.main.Returned?)
    && (s.closed ==> s.group == 0)
    && (s.receiver.Off? <==> s.main.Starting?)
    && (s.receiver.Off? ==> s.received == map[])
    && (s.receiver.Exited? ==> s.closed)
    && (s.receiver.Received? || s.receiver.Cancelled? ==>
      s.receiver.from in s.received && s.received[s.receiver.from] == s.receiver.err)
    && (s.appErr.Some? ==> exists g :: g in s.received && s.received[g] == s.appErr.value)
    && (s.appErr.None? && !s.receiver.Received? && !s.receiver.Cancelled? ==> s.received == map[])
    && (s.main.Returned? ==> s.receiver.Exited? && s.main.err == s.appErr)
    && (s.main.AwaitingGroup? || s.closed ==> s.cancelled)
    && (s.appErr.Some? || s.receiver.Cancelled? ==> s.cancelled)
  }

  lemma GoroutineKeepsDelivered(s: State, step: Step, s': State, h: int)
    requires Next(s, step, s') && (step.Report? || step.Quit? || step.Send? || step.Leave?)
    requires Delivered(s, step.g) && Delivered(s, h)
    ensures Delivered(s', h)
  {
  }

  lemma GoroutineKeepsInv(s: State, step: Step, s': State)
    requires Inv(s) && Next(s, step, s') && (step.Report? || step.Quit? || step.Send? || step.Leave?)
    ensures Inv(s')
  {
    var g := step.g;
    assert Delivered(s, g);
    CountsAfterUpdate(s.gs, g, s'.gs[g]);
    assert s'.gs == With(s, g, s'.gs[g].status);
    forall h ensures Delivered(s', h) {
      assert Delivered(s, h);
      GoroutineKeepsDelivered(s, step, s', h);
    }
    if s.closed { NoneUnfinished(s.gs, g); }
    if s.appErr.Some? {
      var h :| h in s.received && s.received[h] == s.appErr.value;
      assert h in s'.received && s'.received[h] == s'.appErr.value;
    }
  }

  lemma NextKeepsInv(s: State, step: Step, s': State)
    requires Inv(s) && Next(s, step, s')
    ensures Inv(s')
  {
    match step {
      case Report(_, _) => GoroutineKeepsInv(s, step, s');
      case Quit(_) => GoroutineKeepsInv(s, step, s');
      case Send(_) => GoroutineKeepsInv(s, step, s');
      case Leave(_) => GoroutineKeepsInv(s, step, s');
      case RunServer =>
        CountsAfterStart(s.gs);
        forall h ensures Delivered(s', h) { assert Delivered(s, h); }
      case _ =>
        forall h ensures Delivered(s', h) { assert Delivered(s, h); }
    }
  }

  lemma {:induction false} RunKeepsInv(tr: seq<State>, steps: seq<Step>, n: nat)
    requires Run(tr, steps) && n < |tr|
    ensures Inv(tr[n])
  {
    if n > 0 {
      RunKeepsInv(tr, steps, n - 1);
      assert StepAt(tr, steps, n - 1);
      NextKeepsInv(tr[n - 1], steps[n - 1], tr[n]);
    } else {
      forall h ensures Delivered(tr[0], h) {}
    }
  }

  // ---------------------------------------------------------------- what every schedule guarantees

  /** The channel is closed only when every possible sender has finished: nobody sends on it afterwards. */
  lemma ClosedMeansNoSenders(tr: seq<State>, steps: seq<Step>, n: nat, g: int)
    requires Run(tr, steps) && n < |tr| && tr[n].closed && 0 <= g < |tr[n].gs|
    ensures tr[n].gs[g].status.Done?
  {
    RunKeepsInv(tr, steps, n);
    NoneUnfinished(tr[n].gs, g);
  }

  /** The wait group's counter is the number of unfinished goroutines; it never goes negative. */
  lemma GroupCountsGoroutines(tr: seq<State>, steps: seq<Step>, n: nat)
    requires Run(tr, steps) && n < |tr|
    ensures tr[n].group == Unfinished(tr[n].gs) && tr[n].group >= 0
  {
    RunKeepsInv(tr, steps, n);
  }

  /** When Wait returns, every reported error has been received, and nothing else. */
  lemma EveryErrorIsReceived(tr: seq<State>, steps: seq<Step>, n: nat, g: int)
    requires Run(tr, steps) && n < |tr| && tr[n].main.Returned? && 0 <= g < |tr[n].gs|
    ensures tr[n].gs[g].status.Done?
    ensures g in tr[n].received <==> tr[n].gs[g].status.reported.Some?
    ensures g in tr[n].received ==> tr[n].gs[g].status.reported == Some(tr[n].received[g])
  {
    ClosedAtReturn(tr, steps, n);
    ClosedMeansNoSenders(tr, steps, n, g);
    RunKeepsInv(tr, steps, n);
    assert Delivered(tr[n], g);
  }

  lemma ClosedAtReturn(tr: seq<State>, steps: seq<Step>, n: nat)
    requires Run(tr, steps) && n < |tr| && tr[n].main.Returned?
    ensures tr[n].closed
  {
    RunKeepsInv(tr, steps, n);
  }

  /** Wait returns an error exactly when some goroutine reported one, and then one of those. */
  lemma WaitReturnsReportedError(tr: seq<State>, steps: seq<Step>, n: nat)
    requires Run(tr, steps) && n < |tr| && tr[n].main.Returned?
    ensures tr[n].main.err.Some? <==>
      exists g :: 0 <= g < |tr[n].gs| && tr[n].gs[g].status.Done? && tr[n].gs[g].status.reported.Some?
    ensures tr[n].main.err.Some? ==> exists g :: 0 <= g < |tr[n].gs| && tr[n].gs[g].status == Done(tr[n].main.err)
  {
    var s := tr[n];
    RunKeepsInv(tr, steps, n);
    if s.main.err.Some? {
      var g :| g in s.received && s.received[g] == s.appErr.value;
      EveryErrorIsReceived(tr, steps, n, g);
      assert s.gs[g].status == Done(s.main.err);
    }
    forall g | 0 <= g < |s.gs| && s.gs[g].status.Done? && s.gs[g].status.reported.Some? ensures s.main.err.Some? {
      EveryErrorIsReceived(tr, steps, n, g);
    }
  }

  lemma {:induction false} ReportStays(tr: seq<State>, steps: seq<Step>, m: nat, n: nat)
    requires Run(tr, steps) && m < n < |tr| && steps[m].Report?
    ensures 0 <= steps[m].g < |tr[n].gs|
    ensures var st := tr[n].gs[steps[m].g].status;
      st == Sending(steps[m].err) || st == Sent(steps[m].err) || st == Done(Some(steps[m].err))
    decreases n
  {
    assert StepAt(tr, steps, n - 1);
    if m < n - 1 { ReportStays(tr, steps, m, n - 1); }
  }

  /** Any error ever reported makes Wait return one. */
  lemma ReportedErrorIsReturned(tr: seq<State>, steps: seq<Step>, m: nat, n: nat)
    requires Run(tr, steps) && m < n < |tr| && steps[m].Report? && tr[n].main.Returned?
    ensures tr[n].main.err.Some?
    ensures steps[m].g in tr[n].received && tr[n].received[steps[m].g] == steps[m].err
  {
    ReportStays(tr, steps, m, n);
    EveryErrorIsReceived(tr, steps, n, steps[m].g);
    WaitReturnsReportedError(tr, steps, n);
  }

  lemma {:induction false} LastErrorIsKept(tr: seq<State>, steps: seq<Step>, m: nat, n: nat)
    requires Run(tr, steps) && m < n < |tr| && steps[m].Send? && forall i :: m < i < n ==> !steps[i].Send?
    ensures 0 <= steps[m].g < |tr[m].gs| && tr[m].gs[steps[m].g].status.Sending?
    ensures var s, err := tr[n], tr[m].gs[steps[m].g].status.err;
      if s.receiver.Received? || s.receiver.Cancelled? then s.receiver.err == err
      else s.appErr == Some(err) && (s.main.Returned? ==> s.main.err == Some(err))
    decreases n
  {
    RunKeepsInv(tr, steps, n - 1);
    assert StepAt(tr, steps, n - 1);
    if m < n - 1 { LastErrorIsKept(tr, steps, m, n - 1); }
  }

  /** Of several errors Wait returns the one that was received last. */
  lemma WaitReturnsLastError(tr: seq<State>, steps: seq<Step>, m: nat, n: nat)
    requires Run(tr, steps) && m < n < |tr| && tr[n].main.Returned?
    requires steps[m].Send? && forall i :: m < i < n ==> !steps[i].Send?
    ensures 0 <= steps[m].g < |tr[m].gs| && tr[m].gs[steps[m].g].status.Sending?
    ensures tr[n].main.err == Some(tr[m].gs[steps[m].g].status.err)
  {
    LastErrorIsKept(tr, steps, m, n);
    RunKeepsInv(tr, steps, n);
  }

  // ---------------------------------------------------------------- termination

  function Rank(s: State): nat {
    Total(s.gs)
    + (match s.receiver
       case Off => 4 case Received(_, _) => 3 case Cancelled(_, _) => 2 case Listening => 1 case Exited => 0)
    + (match s.main
       case Starting => 4 case AwaitingContext => 3 case AwaitingGroup => 2 case AwaitingReceiver => 1
       case Returned(_) => 0)
    + if s.cancelled then 0 else 1
  }

  lemma GoroutineStepCounts(s: State, step: Step, s': State)
    requires Next(s, step, s') && (step.Report? || step.Quit? || step.Send? || step.Leave?)
    ensures Rank(s') < Rank(s)
  {
    CountsAfterUpdate(s.gs, step.g, s'.gs[step.g]);
    assert s'.gs == s.gs[step.g := s'.gs[step.g]];
  }

  /** Once the servers are started every step uses up something, so every schedule ends. */
  lemma EveryStepCounts(s: State, step: Step, s': State)
    requires Inv(s) && Next(s, step, s') && !step.RunServer?
    ensures Rank(s') < Rank(s)
  {
    match step {
      case Report(_, _) => GoroutineStepCounts(s, step, s');
      case Quit(_) => GoroutineStepCounts(s, step, s');
      case Send(_) => GoroutineStepCounts(s, step, s');
      case Leave(_) => GoroutineStepCounts(s, step, s');
      case _ =>
    }
  }

  /** So a schedule in which no further server is started has a length known in advance. */
  lemma {:induction false} SchedulesAreBounded(tr: seq<State>, steps: seq<Step>, m: nat, n: nat)
    requires Run(tr, steps) && m <= n < |tr| && forall i :: m <= i < n ==> !steps[i].RunServer?
    ensures n - m <= Rank(tr[m]) - Rank(tr[n])
    decreases n
  {
    if m < n {
      SchedulesAreBounded(tr, steps, m, n - 1);
      RunKeepsInv(tr, steps, n - 1);
      assert StepAt(tr, steps, n - 1);
      EveryStepCounts(tr[n - 1], steps[n - 1], tr[n]);
    }
  }

  /** After cancellation no schedule is stuck before Wait has returned. */
  lemma NeverStuck(tr: seq<State>, steps: seq<Step>, n: nat) returns (step: Step, s': State)
    requires Run(tr, steps) && n < |tr| && tr[n].cancelled && !tr[n].main.Returned?
    ensures Next(tr[n], step, s') && !step.RunServer? && !step.Signal?
  {
    RunKeepsInv(tr, steps, n);
    var s := tr[n];
    if s.main.Starting? {
      step, s' := EnterWait, s.(main := AwaitingContext, receiver := Listening);
    } else if s.main.AwaitingContext? {
      step, s' := ContextDone, s.(main := AwaitingGroup);
    } else if s.receiver.Received? {
      step, s' := Cancel, s.(cancelled := true, receiver := Cancelled(s.receiver.from, s.receiver.err));
    } else if s.receiver.Cancelled? {
      step, s' := Keep, s.(appErr := Some(s.receiver.err), receiver := Listening);
    } else if s.main.AwaitingGroup? && s.group == 0 {
      step, s' := Close, s.(closed := true, main := AwaitingReceiver);
    } else if s.main.AwaitingGroup? {
      var g := SomeUnfinished(s.gs);
      match s.gs[g].status {
        case Working => step, s' := Quit(g), s.(gs := With(s, g, Done(None)), group := s.group - 1);
        case Sending(err) =>
          step, s' := Send(g), s.(gs := With(s, g, Sent(err)), receiver := Received(g, err),
            received := s.received[g := err]);
        case Sent(err) => step, s' := Leave(g), s.(gs := With(s, g, Done(Some(err))), group := s.group - 1);
      }
    } else if s.receiver.Listening? {
      step, s' := Exit, s.(receiver := Exited);
    } else {
      step, s' := Return, s.(main := Returned(s.appErr));
    }
  }

  lemma SendIsPossible(s: State, g: int) returns (s': State)
    requires Inv(s) && 0 <= g < |s.gs| && s.gs[g].status.Sending? && s.receiver.Listening?
    ensures Next(s, Send(g), s')
  {
    if s.closed { NoneUnfinished(s.gs, g); }
    var err := s.gs[g].status.err;
    s' := s.(gs := With(s, g, Sent(err)), receiver := Received(g, err), received := s.received[g := err]);
  }

  /**
    Once a goroutine has reported an error no schedule is stuck before Wait has returned, although
    nobody cancels from outside: the receiver does.
   */
  lemma ErrorShutsDown(tr: seq<State>, steps: seq<Step>, m: nat, n: nat) returns (step: Step, s': State)
    requires Run(tr, steps) && m < n < |tr| && steps[m].Report? && !tr[n].main.Returned?
    ensures Next(tr[n], step, s') && !step.RunServer? && !step.Signal?
  {
    RunKeepsInv(tr, steps, n);
    ReportStays(tr, steps, m, n);
    var s, g := tr[n], steps[m].g;
    assert Delivered(s, g);
    if s.cancelled {
      step, s' := NeverStuck(tr, steps, n);
    } else if s.main.Starting? {
      step, s' := EnterWait, s.(main := AwaitingContext, receiver := Listening);
    } else if s.receiver.Received? {
      step, s' := Cancel, s.(cancelled := true, receiver := Cancelled(s.receiver.from, s.receiver.err));
    } else {
      step := Send(g);
      s' := SendIsPossible(s, g);
    }
  }
}
