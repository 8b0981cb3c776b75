/**
  The idempotency middleware: read the response store, take a lease, run the handler, store its
  response, release the lease. Requests interleave freely, leases and stored responses expire, and
  every Redis command may fail, in which case the request bypasses the protection.
 */
module Idempotency {
  import Lease

  /** Responses and locks are keyed by user, route and the client's key. */
  datatype Key = Key(user: int, route: string, idem: string)

  datatype Response = Response(status: int, payload: string)

  /** A stored response; `storedAt` is the index of the step that wrote it. */
  datatype Stored = Stored(hash: string, response: Response, expiry: nat, storedAt: nat)

  datatype Outcome = Replayed(response: Response) | Mismatch | InProgress | Answered(response: Response) | Aborted

  /** When a request looked at the store: step index and wall clock. */
  datatype Read = Read(at: nat, time: nat)

  datatype Phase =
    | Arrived
    | Missed(read: Read)                         // nothing stored
    | Holding(read: Read)                        // lease taken
    | Running(read: Read)                        // handler running under the lease
    | Ran(read: Read, response: Response)        // handler returned
    | Closing(outcome: Outcome)                  // deferred release still to run
    | Bypassed                                   // Redis failed: the handler runs unprotected
    | Done(outcome: Outcome)

  datatype Req = Req(key: Key, hash: string, phase: Phase)

  /** A handler run that returned. */
  datatype HandlerRun = HandlerRun(req: int, key: Key, hash: string, response: Response)

  datatype Config = Config(lockTtl: int, responseTtl: nat)

  datatype State = State(
    clock: nat,
    lease: Lease.State<Key, int>,
    store: map<Key, Stored>,
    reqs: map<int, Req>,
    runs: set<HandlerRun>)

  datatype Step =
    | Tick(now: nat)
    | Arrive(r: int, key: Key, hash: string)
    | Get(r: int)
    | GetFails(r: int)
    | Acquire(r: int, token: string)
    | AcquireFails(r: int)
    | AcquireLost(r: int, token: string)   // SET NX ran, but its reply did not arrive
    | Start(r: int)
    | Finish(r: int, response: Response)
    | Panic(r: int)
    | Save(r: int, ok: bool)
    | Release(r: int, ok: bool)
    | RunBypassed(r: int, response: Response)

  predicate Cacheable(status: int) {
    200 <= status < 300 || status == 400 || status == 403 || status == 404 || status == 409
  }

  /** What Store.Get finds. */
  predicate Found(s: State, key: Key) {
    key in s.store && s.lease.now < s.store[key].expiry
  }

  predicate InSection(p: Phase) {
    p.Holding? || p.Running? || p.Ran? || p.Closing?
  }

  /** The state after a step that only moves one request. */
  function Moved(s: State, r: int, p: Phase): State
    requires r in s.reqs
  {
    s.(clock := s.clock + 1, reqs := s.reqs[r := s.reqs[r].(phase := p)])
  }

  ghost predicate Init(s: State) {
    s.clock == 0 && Lease.Init(s.lease) && s.store == map[] && s.reqs == map[] && s.runs == {}
  }

  ghost predicate Next(c: Config, s: State, step: Step, s': State) {
    match step
    case Tick(now) =>
      Lease.Next(s.lease, Lease.Tick(now), s'.lease) && s' == s.(clock := s.clock + 1, lease := s'.lease)
    case Arrive(r, key, hash) =>
      && r !in s.reqs && r !in s.lease.inside
      && s' == s.(clock := s.clock + 1, reqs := s.reqs[r := Req(key, hash, Arrived)])
    case Get(r) =>
      && r in s.reqs && s.reqs[r].phase.Arrived?
      && var key := s.reqs[r].key;
      s' == Moved(s, r, if !Found(s, key) then Missed(Read(s.clock, s.lease.now))
                        else if s.store[key].hash != s.reqs[r].hash then Done(Mismatch)
                        else Done(Replayed(s.store[key].response)))
    case GetFails(r) =>
      r in s.reqs && s.reqs[r].phase.Arrived? && s' == Moved(s, r, Bypassed)
    case Acquire(r, token) =>
      && r in s.reqs && s.reqs[r].phase.Missed?
      && if Lease.Taken(s.lease.locks, s.lease.now, s.reqs[r].key)
      then s' == Moved(s, r, Done(InProgress))
      else
        && Lease.Next(s.lease, Lease.Acquire(r, s.reqs[r].key, token, Lease.EffectiveTtl(c.lockTtl)), s'.lease)
        && s' == s.(clock := s.clock + 1, lease := s'.lease,
          reqs := s.reqs[r := s.reqs[r].(phase := Holding(s.reqs[r].phase.read))])
    case AcquireFails(r) =>
      r in s.reqs && s.reqs[r].phase.Missed? && s' == Moved(s, r, Bypassed)
    case AcquireLost(r, token) =>
      && r in s.reqs && s.reqs[r].phase.Missed?
      && Lease.Next(s.lease, Lease.Orphan(s.reqs[r].key, token, Lease.EffectiveTtl(c.lockTtl)), s'.lease)
      && s' == s.(clock := s.clock + 1, lease := s'.lease, reqs := s.reqs[r := s.reqs[r].(phase := Bypassed)])
    case Start(r) =>
      r in s.reqs && s.reqs[r].phase.Holding? && s' == Moved(s, r, Running(s.reqs[r].phase.read))
    case Finish(r, response) =>
      && r in s.reqs && s.reqs[r].phase.Running?
      && s' == s.(clock := s.clock + 1,
                  reqs := s.reqs[r := s.reqs[r].(phase := Ran(s.reqs[r].phase.read, response))],
                  runs := s.runs + {HandlerRun(r, s.reqs[r].key, s.reqs[r].hash, response)})
    case Panic(r) =>
      r in s.reqs && s.reqs[r].phase.Running? && s' == Moved(s, r, Closing(Aborted))
    case Save(r, ok) =>
      && r in s.reqs && s.reqs[r].phase.Ran?
      && var q := s.reqs[r];
      s' == s.(clock := s.clock + 1,
               reqs := s.reqs[r := q.(phase := Closing(Answered(q.phase.response)))],
               store := if ok && Cacheable(q.phase.response.status)
                        then s.store[q.key := Stored(q.hash, q.phase.response, s.lease.now + c.responseTtl, s.clock)]
                        else s.store)
    case Release(r, ok) =>
      && r in s.reqs && s.reqs[r].phase.Closing?
      && Lease.Next(s.lease, if ok then Lease.Release(r) else Lease.Abandon(r), s'.lease)
      && s' == s.(clock := s.clock + 1, lease := s'.lease,
        reqs := s.reqs[r := s.reqs[r].(phase := Done(s.reqs[r].phase.outcome))])
    case RunBypassed(r, response) =>
      && r in s.reqs && s.reqs[r].phase.Bypassed?
      && s' == s.(clock := s.clock + 1,
                  reqs := s.reqs[r := s.reqs[r].(phase := Done(Answered(response)))],
                  runs := s.runs + {HandlerRun(r, s.reqs[r].key, s.reqs[r].hash, response)})
  }

  ghost predicate StepAt(c: Config, tr: seq<State>, steps: seq<Step>, i: int)
    requires |tr| == |steps| + 1 && 0 <= i < |steps|
  {
    Next(c, tr[i], steps[i], tr[i + 1])
  }

  ghost predicate Run(c: Config, tr: seq<State>, steps: seq<Step>) {
    && |tr| == |steps| + 1
    && Init(tr[0])
    && forall i {:trigger StepAt(c, tr, steps, i)} :: 0 <= i < |steps| ==> StepAt(c, tr, steps, i)
  }

  // ---------------------------------------------------------------- the invariant

  predicate HasRead(p: Phase) {
    p.Missed? || p.Holding? || p.Running? || p.Ran?
  }

  /** What a request saw: any response stored under its key came later, or had expired by then. */
  ghost predicate ReadOk(s: State, q: Req) {
    HasRead(q.phase) ==>
      var read := q.phase.read;
      && read.at < s.clock && read.time <= s.lease.now
      && (q.key in s.store ==> read.at < s.store[q.key].storedAt || s.store[q.key].expiry <= read.time)
  }

  /** Responses in flight come from a handler run of the same key and request. */
  ghost predicate SourceOk(s: State, q: Req) {
    match q.phase
    case Ran(_, response) => exists w :: w in s.runs && w.key == q.key && w.hash == q.hash && w.response == response
    case Done(Replayed(response)) =>
      && Cacheable(response.status)
      && exists w :: w in s.runs && w.key == q.key && w.hash == q.hash && w.response == response
    case Closing(out) => !out.Replayed?
    case _ => true
  }

  ghost predicate StoredOk(s: State, key: Key)
    requires key in s.store
  {
    var v := s.store[key];
    && v.storedAt < s.clock && Cacheable(v.response.status)
    && exists w :: w in s.runs && w.key == key && w.hash == v.hash && w.response == v.response
  }

  /** A request has a hold on its key exactly while it is in the section. */
  ghost predicate HoldOk(s: State, r: int)
    requires r in s.reqs
  {
    && (r in s.lease.inside <==> InSection(s.reqs[r].phase))
    && (r in s.lease.inside ==> s.lease.inside[r].key == s.reqs[r].key)
  }

  ghost predicate ReqOk(s: State, r: int)
    requires r in s.reqs
  {
    && ReadOk(s, s.reqs[r]) && SourceOk(s, s.reqs[r])
    && HoldOk(s, r)
  }

  ghost predicate Inv(s: State) {
    && Lease.Inv(s.lease)
    && s.lease.inside.Keys <= s.reqs.Keys
    && (forall k {:trigger StoredOk(s, k)} :: k in s.store ==> StoredOk(s, k))
    && (forall r {:trigger ReqOk(s, r)} :: r in s.reqs ==> ReqOk(s, r))
  }

  lemma NextKeepsLease(c: Config, s: State, step: Step, s': State)
    requires Lease.Inv(s.lease) && Next(c, s, step, s')
    ensures Lease.Inv(s'.lease)
  {
    match step {
      case Tick(now) => Lease.NextKeepsInv(s.lease, Lease.Tick(now), s'.lease);
      case Acquire(r, token) =>
        if !Lease.Taken(s.lease.locks, s.lease.now, s.reqs[r].key) {
          Lease.NextKeepsInv(s.lease, Lease.Acquire(r, s.reqs[r].key, token, Lease.EffectiveTtl(c.lockTtl)), s'.lease);
        }
      case AcquireLost(r, token) =>
        Lease.NextKeepsInv(s.lease, Lease.Orphan(s.reqs[r].key, token, Lease.EffectiveTtl(c.lockTtl)), s'.lease);
      case Release(r, ok) => Lease.NextKeepsInv(s.lease, if ok then Lease.Release(r) else Lease.Abandon(r), s'.lease);
      case _ =>
    }
  }

  lemma NextKeepsStored(c: Config, s: State, step: Step, s': State, k: Key)
    requires Inv(s) && Next(c, s, step, s') && k in s'.store
    ensures StoredOk(s', k)
  {
    if k in s.store {
      assert StoredOk(s, k);
      assert s.runs <= s'.runs;
    }
    if step.Save? {
      assert ReqOk(s, step.r);
      assert s'.runs == s.runs;
    }
  }

  lemma NextKeepsRead(c: Config, s: State, step: Step, s': State, r: int)
    requires Next(c, s, step, s') && r in s'.reqs
    requires r in s.reqs ==> ReadOk(s, s.reqs[r])
    ensures ReadOk(s', s'.reqs[r])
  {
  }

  predicate LeaseStep(step: Step) {
    step.Tick? || step.Acquire? || step.AcquireLost? || step.Release?
  }

  lemma LeaseStepKeepsHold(c: Config, s: State, step: Step, s': State, r: int)
    requires Next(c, s, step, s') && LeaseStep(step) && r in s.reqs && HoldOk(s, r)
    ensures r in s'.reqs && HoldOk(s', r)
  {
  }

  lemma OtherStepKeepsHold(c: Config, s: State, step: Step, s': State, r: int)
    requires Next(c, s, step, s') && !LeaseStep(step) && r in s'.reqs && (r in s.reqs ==> HoldOk(s, r))
    ensures HoldOk(s', r)
  {
  }

  lemma NextKeepsSource(c: Config, s: State, step: Step, s': State, r: int)
    requires Next(c, s, step, s') && r in s'.reqs
    requires r in s.reqs ==> SourceOk(s, s.reqs[r])
    requires forall k {:trigger StoredOk(s, k)} :: k in s.store ==> StoredOk(s, k)
    ensures SourceOk(s', s'.reqs[r])
  {
    assert s.runs <= s'.runs;
    match step {
      case Get(q) =>
        if Found(s, s.reqs[q].key) { assert StoredOk(s, s.reqs[q].key); }
      case Finish(q, response) =>
        assert HandlerRun(q, s.reqs[q].key, s.reqs[q].hash, response) in s'.runs;
      case _ =>
    }
  }

  lemma NextKeepsReq(c: Config, s: State, step: Step, s': State, r: int)
    requires Inv(s) && Next(c, s, step, s') && r in s'.reqs
    ensures ReqOk(s', r)
  {
    if r in s.reqs { assert ReqOk(s, r); }
    NextKeepsRead(c, s, step, s', r);
    if LeaseStep(step) { LeaseStepKeepsHold(c, s, step, s', r); } else { OtherStepKeepsHold(c, s, step, s', r); }
    NextKeepsSource(c, s, step, s', r);
  }

  lemma NextKeepsInv(c: Config, s: State, step: Step, s': State)
    requires Inv(s) && Next(c, s, step, s')
    ensures Inv(s')
  {
    NextKeepsLease(c, s, step, s');
    forall k | k in s'.store ensures StoredOk(s', k) { NextKeepsStored(c, s, step, s', k); }
    forall r | r in s'.reqs ensures ReqOk(s', r) { NextKeepsReq(c, s, step, s', r); }
  }

  lemma {:induction false} RunKeepsInv(c: Config, tr: seq<State>, steps: seq<Step>, n: nat)
    requires Run(c, tr, steps) && n < |tr|
    ensures Inv(tr[n]) && tr[n].clock == n
  {
    if n > 0 {
      RunKeepsInv(c, tr, steps, n - 1);
      assert StepAt(c, tr, steps, n - 1);
      NextKeepsInv(c, tr[n - 1], steps[n - 1], tr[n]);
    }
  }

  // ---------------------------------------------------------------- what every run guarantees

  /** Between acquire and release, two requests of one key meet only after the earlier lease ran out. */
  lemma SectionOverlapNeedsExpiry(c: Config, tr: seq<State>, steps: seq<Step>, n: nat, q: int, r: int)
    requires Run(c, tr, steps) && n < |tr| && q != r && q in tr[n].reqs && r in tr[n].reqs
    requires InSection(tr[n].reqs[q].phase) && InSection(tr[n].reqs[r].phase) && tr[n].reqs[q].key == tr[n].reqs[r].key
    ensures q in tr[n].lease.inside && r in tr[n].lease.inside
    ensures tr[n].lease.inside[q].expiry <= tr[n].lease.now || tr[n].lease.inside[r].expiry <= tr[n].lease.now
    ensures tr[n].lease.inside[q].order < tr[n].lease.inside[r].order ==>
      tr[n].lease.inside[q].expiry <= tr[n].lease.inside[r].since
  {
    RunKeepsInv(c, tr, steps, n);
    var s := tr[n];
    assert ReqOk(s, q) && ReqOk(s, r);
    assert Lease.Own(s.lease, q) && Lease.Own(s.lease, r) && Lease.Apart(s.lease, q, r);
  }

  /**
    A handler that starts under the lease although a live response is stored belongs to a request
    that had read the store before that response was written.
   */
  lemma LateStartReadEarly(c: Config, tr: seq<State>, steps: seq<Step>, n: nat)
    requires Run(c, tr, steps) && n < |steps| && steps[n].Start?
    requires steps[n].r in tr[n].reqs && Found(tr[n], tr[n].reqs[steps[n].r].key)
    ensures var q := tr[n].reqs[steps[n].r];
      q.phase.Holding? && q.phase.read.at < tr[n].store[q.key].storedAt < n
  {
    RunKeepsInv(c, tr, steps, n);
    assert StepAt(c, tr, steps, n);
    assert ReqOk(tr[n], steps[n].r) && StoredOk(tr[n], tr[n].reqs[steps[n].r].key);
  }

  /** A request that reads the store while a live response is there only replays it or conflicts. */
  lemma LaterRetriesNeverRun(c: Config, tr: seq<State>, steps: seq<Step>, n: nat)
    requires Run(c, tr, steps) && n < |steps| && steps[n].Get?
    requires steps[n].r in tr[n].reqs && Found(tr[n], tr[n].reqs[steps[n].r].key)
    ensures var r := steps[n].r;
      var v := tr[n].store[tr[n].reqs[r].key];
      && r in tr[n + 1].reqs
      && tr[n + 1].reqs[r].phase == Done(if v.hash == tr[n].reqs[r].hash then Replayed(v.response) else Mismatch)
  {
    assert StepAt(c, tr, steps, n);
  }

  lemma {:induction false} DoneStaysDone(c: Config, tr: seq<State>, steps: seq<Step>, m: nat, n: nat, r: int)
    requires Run(c, tr, steps) && m <= n < |tr| && r in tr[m].reqs && tr[m].reqs[r].phase.Done?
    ensures r in tr[n].reqs && tr[n].reqs[r] == tr[m].reqs[r]
    decreases n
  {
    if m < n {
      DoneStaysDone(c, tr, steps, m, n - 1, r);
      assert StepAt(c, tr, steps, n - 1);
    }
  }

  /** Once read against a live response, a request never starts the handler at any later step. */
  lemma RetryNeverStarts(c: Config, tr: seq<State>, steps: seq<Step>, m: nat, n: nat)
    requires Run(c, tr, steps) && m < n < |steps| && steps[m].Get?
    requires steps[m].r in tr[m].reqs && Found(tr[m], tr[m].reqs[steps[m].r].key)
    ensures steps[n] != Start(steps[m].r)
  {
    LaterRetriesNeverRun(c, tr, steps, m);
    DoneStaysDone(c, tr, steps, m + 1, n, steps[m].r);
    assert StepAt(c, tr, steps, n);
  }

  // ---------------------------------------------------------------- how long a response is there

  /** The statuses of section 15 of RFC 9110 whose responses are kept for retries. */
  ghost predicate Kept(status: int) {
    200 <= status <= 299 || status in {400, 403, 404, 409}
  }

  /** The step stores a response for the key. */
  ghost predicate Saves(s: State, step: Step, key: Key) {
    && step.Save? && step.ok && step.r in s.reqs && s.reqs[step.r].phase.Ran?
    && s.reqs[step.r].key == key && Kept(s.reqs[step.r].phase.response.status)
  }

  lemma {:induction false} TimeGrows(c: Config, tr: seq<State>, steps: seq<Step>, m: nat, n: nat)
    requires Run(c, tr, steps) && m <= n < |tr|
    ensures tr[m].lease.now <= tr[n].lease.now
    decreases n
  {
    if m < n {
      TimeGrows(c, tr, steps, m, n - 1);
      assert StepAt(c, tr, steps, n - 1);
    }
  }

  /** A stored response stays readable for its whole time, counted from its save, or a later one is there for longer. */
  lemma {:induction false} StoredStays(c: Config, tr: seq<State>, steps: seq<Step>, m: nat, n: nat, key: Key)
    requires Run(c, tr, steps) && m < n < |tr| && Saves(tr[m], steps[m], key)
    ensures key in tr[n].store && tr[n].store[key].expiry >= tr[m].lease.now + c.responseTtl
    ensures tr[n].lease.now < tr[m].lease.now + c.responseTtl ==> Found(tr[n], key)
    decreases n
  {
    assert StepAt(c, tr, steps, n - 1);
    if m < n - 1 {
      StoredStays(c, tr, steps, m, n - 1, key);
      TimeGrows(c, tr, steps, m, n - 1);
    }
  }

  /** Without a later save it is that response, and it is readable exactly that long. */
  lemma {:induction false} StoredExpires(c: Config, tr: seq<State>, steps: seq<Step>, m: nat, n: nat, key: Key)
    requires Run(c, tr, steps) && m < n < |tr| && Saves(tr[m], steps[m], key)
    requires forall i :: m < i < n ==> !Saves(tr[i], steps[i], key)
    ensures Found(tr[n], key) <==> tr[n].lease.now < tr[m].lease.now + c.responseTtl
    ensures var q := tr[m].reqs[steps[m].r];
      key in tr[n].store && tr[n].store[key].hash == q.hash && tr[n].store[key].response == q.phase.response
    ensures key in tr[n].store && tr[n].store[key].expiry == tr[m].lease.now + c.responseTtl
    decreases n
  {
    assert StepAt(c, tr, steps, n - 1);
    if m < n - 1 {
      StoredExpires(c, tr, steps, m, n - 1, key);
      assert !Saves(tr[n - 1], steps[n - 1], key);
    }
  }

  /**
    While a stored response is within its time, every read of its key replays or conflicts; without
    a later save it replays exactly that response to the same request, and conflicts with others.
   */
  lemma RetriesAreAnswered(c: Config, tr: seq<State>, steps: seq<Step>, m: nat, n: nat)
    requires Run(c, tr, steps) && m < n < |steps| && steps[n].Get? && steps[n].r in tr[n].reqs
    requires Saves(tr[m], steps[m], tr[n].reqs[steps[n].r].key)
    requires tr[n].lease.now < tr[m].lease.now + c.responseTtl
    ensures steps[n].r in tr[n + 1].reqs && tr[n + 1].reqs[steps[n].r].phase.Done?
    ensures var out := tr[n + 1].reqs[steps[n].r].phase.outcome;
      var first := tr[m].reqs[steps[m].r];
      && (out.Replayed? || out.Mismatch?)
      && ((forall i :: m < i < n ==> !Saves(tr[i], steps[i], first.key)) ==>
            out == if tr[n].reqs[steps[n].r].hash == first.hash then Replayed(first.phase.response) else Mismatch)
  {
    var key := tr[n].reqs[steps[n].r].key;
    StoredStays(c, tr, steps, m, n, key);
    LaterRetriesNeverRun(c, tr, steps, n);
    if forall i :: m < i < n ==> !Saves(tr[i], steps[i], key) { StoredExpires(c, tr, steps, m, n, key); }
  }

  /** What a request remembers of its read: the store had nothing readable at that step and time. */
  lemma {:induction false} MissedAt(c: Config, tr: seq<State>, steps: seq<Step>, i: nat, n: nat)
    requires Run(c, tr, steps) && i < n < |tr| && steps[i].Arrive?
    ensures steps[i].r in tr[n].reqs && tr[n].reqs[steps[i].r].key == steps[i].key
    ensures var p := tr[n].reqs[steps[i].r].phase;
      HasRead(p) ==> i < p.read.at < n && tr[p.read.at].lease.now == p.read.time && !Found(tr[p.read.at], steps[i].key)
    decreases n
  {
    RunKeepsInv(c, tr, steps, n - 1);
    assert StepAt(c, tr, steps, n - 1);
    if i < n - 1 { MissedAt(c, tr, steps, i, n - 1); }
  }

  /** No request that arrives after a save starts the handler under the lease while that response is within its time. */
  lemma NoStartWhileStored(c: Config, tr: seq<State>, steps: seq<Step>, m: nat, i: nat, n: nat)
    requires Run(c, tr, steps) && m < i < n < |steps| && steps[i].Arrive? && Saves(tr[m], steps[m], steps[i].key)
    requires steps[n] == Start(steps[i].r)
    ensures tr[n].lease.now >= tr[m].lease.now + c.responseTtl
  {
    MissedAt(c, tr, steps, i, n);
    assert StepAt(c, tr, steps, n);
    var at := tr[n].reqs[steps[i].r].phase.read.at;
    StoredStays(c, tr, steps, m, at, steps[i].key);
    TimeGrows(c, tr, steps, at, n);
  }

  /** Nothing but these statuses is ever stored or replayed; in particular no server error. */
  lemma OnlyKeptIsReplayed(c: Config, tr: seq<State>, steps: seq<Step>, n: nat, key: Key, r: int)
    requires Run(c, tr, steps) && n < |tr|
    ensures key in tr[n].store ==> Kept(tr[n].store[key].response.status) && tr[n].store[key].response.status < 500
    ensures r in tr[n].reqs && tr[n].reqs[r].phase.Done? && tr[n].reqs[r].phase.outcome.Replayed? ==>
      var status := tr[n].reqs[r].phase.outcome.response.status; Kept(status) && status < 500
  {
    RunKeepsInv(c, tr, steps, n);
    if key in tr[n].store { assert StoredOk(tr[n], key); }
    if r in tr[n].reqs { assert ReqOk(tr[n], r); }
  }

  lemma {:induction false} SectionStays(c: Config, tr: seq<State>, steps: seq<Step>, m: nat, n: nat)
    requires Run(c, tr, steps) && m < n < |tr| && steps[m].Acquire? && steps[m].r in tr[m + 1].reqs
    requires tr[m + 1].reqs[steps[m].r].phase.Holding?
    ensures steps[m].r in tr[n].reqs && tr[n].reqs[steps[m].r].key == tr[m + 1].reqs[steps[m].r].key
    ensures InSection(tr[n].reqs[steps[m].r].phase) || tr[n].reqs[steps[m].r].phase.Done?
    ensures InSection(tr[n].reqs[steps[m].r].phase) ==>
      && steps[m].r in tr[n].lease.inside
      && tr[n].lease.inside[steps[m].r].expiry == tr[m].lease.now + Lease.EffectiveTtl(c.lockTtl)
    decreases n
  {
    assert StepAt(c, tr, steps, n - 1);
    if m < n - 1 { SectionStays(c, tr, steps, m, n - 1); }
    RunKeepsInv(c, tr, steps, n);
    assert ReqOk(tr[n], steps[m].r);
  }

  /** While a request is in its section and its lease lasts, every other request of the key is turned away. */
  lemma OthersAreTurnedAway(c: Config, tr: seq<State>, steps: seq<Step>, m: nat, n: nat)
    requires Run(c, tr, steps) && m < n < |steps| && steps[m].Acquire? && steps[m].r in tr[m + 1].reqs
    requires tr[m + 1].reqs[steps[m].r].phase.Holding? && steps[m].r in tr[n].reqs
    requires InSection(tr[n].reqs[steps[m].r].phase)
    requires tr[n].lease.now < tr[m].lease.now + if c.lockTtl <= 0 then 15_000_000_000 else c.lockTtl
    requires steps[n].Acquire? && steps[n].r in tr[n].reqs && tr[n].reqs[steps[n].r].key == tr[n].reqs[steps[m].r].key
    ensures tr[n + 1] == Moved(tr[n], steps[n].r, Done(InProgress))
  {
    SectionStays(c, tr, steps, m, n);
    RunKeepsInv(c, tr, steps, n);
    assert ReqOk(tr[n], steps[m].r) && Lease.Own(tr[n].lease, steps[m].r);
    assert StepAt(c, tr, steps, n);
  }

  // ---------------------------------------------------------------- a request's own run

  /** The request has this response from its own handler run. */
  predicate Carries(p: Phase, response: Response) {
    (p.Ran? && p.response == response) || p == Closing(Answered(response)) || p == Done(Answered(response))
  }

  ghost predicate RunOk(s: State, w: HandlerRun) {
    && w.req in s.reqs && w.key == s.reqs[w.req].key && w.hash == s.reqs[w.req].hash
    && Carries(s.reqs[w.req].phase, w.response)
  }

  ghost predicate OwnRuns(s: State) {
    && (forall w {:trigger RunOk(s, w)} :: w in s.runs ==> RunOk(s, w))
    && (forall r, response {:trigger Carries(s.reqs[r].phase, response)} ::
          r in s.reqs && Carries(s.reqs[r].phase, response) ==>
            HandlerRun(r, s.reqs[r].key, s.reqs[r].hash, response) in s.runs)
  }

  lemma NextKeepsOwnRuns(c: Config, s: State, step: Step, s': State)
    requires OwnRuns(s) && Next(c, s, step, s')
    ensures OwnRuns(s')
  {
    forall w | w in s'.runs ensures RunOk(s', w) {
      if w in s.runs { assert RunOk(s, w); }
    }
    forall r, response | r in s'.reqs && Carries(s'.reqs[r].phase, response)
      ensures HandlerRun(r, s'.reqs[r].key, s'.reqs[r].hash, response) in s'.runs
    {
      if r in s.reqs && Carries(s.reqs[r].phase, response) {
        assert HandlerRun(r, s.reqs[r].key, s.reqs[r].hash, response) in s.runs;
      }
    }
  }

  /**
    A request whose handler ran is answered with what its own run returned, whatever happens to the
    store and the lock; the handler runs at most once for it, and nothing else is called its answer.
   */
  lemma {:induction false} AnsweredByOwnRun(c: Config, tr: seq<State>, steps: seq<Step>, n: nat)
    requires Run(c, tr, steps) && n < |tr|
    ensures OwnRuns(tr[n])
    ensures forall w, w' :: w in tr[n].runs && w' in tr[n].runs && w.req == w'.req ==> w == w'
  {
    if n > 0 {
      AnsweredByOwnRun(c, tr, steps, n - 1);
      assert StepAt(c, tr, steps, n - 1);
      NextKeepsOwnRuns(c, tr[n - 1], steps[n - 1], tr[n]);
    }
    forall w, w' | w in tr[n].runs && w' in tr[n].runs && w.req == w'.req ensures w == w' {
      assert RunOk(tr[n], w) && RunOk(tr[n], w');
    }
  }

  /** A release that reaches Redis within the lease's term frees the key, after a panic too. */
  lemma ReleaseUnlocks(c: Config, tr: seq<State>, steps: seq<Step>, n: nat)
    requires Run(c, tr, steps) && n < |steps| && steps[n].Release? && steps[n].ok
    ensures steps[n].r in tr[n].lease.inside && steps[n].r in tr[n].reqs
    ensures tr[n].lease.now < tr[n].lease.inside[steps[n].r].expiry ==>
      !Lease.Taken(tr[n + 1].lease.locks, tr[n + 1].lease.now, tr[n].reqs[steps[n].r].key)
  {
    RunKeepsInv(c, tr, steps, n);
    assert StepAt(c, tr, steps, n);
    assert ReqOk(tr[n], steps[n].r) && Lease.Own(tr[n].lease, steps[n].r);
  }

  /** A replayed response was produced by a handler run of the same key and the same request. */
  lemma ReplayIsGenuine(c: Config, tr: seq<State>, steps: seq<Step>, n: nat, r: int)
    requires Run(c, tr, steps) && n < |tr| && r in tr[n].reqs && tr[n].reqs[r].phase.Done?
    requires tr[n].reqs[r].phase.outcome.Replayed?
    ensures var q := tr[n].reqs[r];
      && Cacheable(q.phase.outcome.response.status)
      && exists w :: w in tr[n].runs && w.key == q.key && w.hash == q.hash && w.response == q.phase.outcome.response
  {
    RunKeepsInv(c, tr, steps, n);
    assert ReqOk(tr[n], r);
  }

  /** A request that missed and finds the lock free runs the handler, whatever is stored by then. */
  lemma MissedRequestRuns(c: Config, s: State, r: int, token: string) returns (s1: State, s2: State)
    requires Inv(s) && r in s.reqs && s.reqs[r].phase.Missed?
    requires !Lease.Taken(s.lease.locks, s.lease.now, s.reqs[r].key) && token !in s.lease.issued
    ensures Next(c, s, Acquire(r, token), s1) && Next(c, s1, Start(r), s2)
    ensures s2.reqs == s.reqs[r := s.reqs[r].(phase := Running(s.reqs[r].phase.read))]
    ensures s1.store == s2.store == s.store && s2.runs == s.runs && s2.clock == s.clock + 2 && s1.lease == s2.lease
    ensures s2.lease.now == s.lease.now && s2.lease.issued == s.lease.issued + {token}
    ensures s2.lease.locks == s.lease.locks[s.reqs[r].key :=
      Lease.Lease(token, s.lease.now + Lease.EffectiveTtl(c.lockTtl))]
    ensures r in s2.lease.inside && s2.lease.inside[r].key == s.reqs[r].key && s2.lease.inside[r].token == token
  {
    assert ReqOk(s, r);
    var ttl := Lease.EffectiveTtl(c.lockTtl);
    var lease' := s.lease.(
      locks := Lease.SetNX(s.lease.locks, s.lease.now, s.reqs[r].key, token, ttl),
      issued := s.lease.issued + {token},
      acquired := s.lease.acquired + 1,
      inside := s.lease.inside[r :=
        Lease.Hold(s.reqs[r].key, token, s.lease.now, s.lease.now + ttl, s.lease.acquired)]);
    s1 := s.(clock := s.clock + 1, lease := lease',
      reqs := s.reqs[r := s.reqs[r].(phase := Holding(s.reqs[r].phase.read))]);
    s2 := Moved(s1, r, Running(s1.reqs[r].phase.read));
  }

  lemma Extend(c: Config, tr: seq<State>, steps: seq<Step>, step: Step, s': State)
    requires Run(c, tr, steps) && Next(c, tr[|steps|], step, s')
    ensures Run(c, tr + [s'], steps + [step])
  {
    var tr', steps' := tr + [s'], steps + [step];
    forall i | 0 <= i < |steps'| ensures StepAt(c, tr', steps', i) {
      if i < |steps| { assert StepAt(c, tr, steps, i); }
    }
  }

  /** Two requests of one key have both read the empty store. */
  function BothMissed(key: Key, hash: string): State {
    State(4, Lease.State(0, map[], {}, 0, map[]), map[],
          map[1 := Req(key, hash, Missed(Read(2, 0))), 2 := Req(key, hash, Missed(Read(3, 0)))], {})
  }

  lemma BothCanMiss(c: Config, key: Key, hash: string) returns (tr: seq<State>, steps: seq<Step>)
    ensures Run(c, tr, steps) && |steps| == 4 && tr[4] == BothMissed(key, hash)
  {
    var s0 := State(0, Lease.State(0, map[], {}, 0, map[]), map[], map[], {});
    var s1 := s0.(clock := 1, reqs := map[1 := Req(key, hash, Arrived)]);
    var s2 := s1.(clock := 2, reqs := s1.reqs[2 := Req(key, hash, Arrived)]);
    var s3 := Moved(s2, 1, Missed(Read(2, 0)));
    tr, steps := [s0], [];
    Extend(c, tr, steps, Arrive(1, key, hash), s1);
    tr, steps := tr + [s1], steps + [Arrive(1, key, hash)];
    Extend(c, tr, steps, Arrive(2, key, hash), s2);
    tr, steps := tr + [s2], steps + [Arrive(2, key, hash)];
    Extend(c, tr, steps, Get(1), s3);
    tr, steps := tr + [s3], steps + [Get(1)];
    Extend(c, tr, steps, Get(2), BothMissed(key, hash));
    tr, steps := tr + [BothMissed(key, hash)], steps + [Get(2)];
  }

  /** The first of them takes the lease and runs the handler. */
  lemma FirstCanRun(c: Config, key: Key, hash: string, response: Response) returns (tr: seq<State>, steps: seq<Step>)
    ensures Run(c, tr, steps) && |steps| == 7 && steps[5] == Start(1)
    ensures tr[7].reqs == map[1 := Req(key, hash, Ran(Read(2, 0), response)), 2 := Req(key, hash, Missed(Read(3, 0)))]
    ensures tr[7].clock == 7 && tr[7].store == map[] && tr[7].lease.now == 0 && tr[7].lease.issued == {"a"}
    ensures tr[7].lease.locks == map[key := Lease.Lease("a", Lease.EffectiveTtl(c.lockTtl))]
    ensures 1 in tr[7].lease.inside && tr[7].lease.inside[1].key == key && tr[7].lease.inside[1].token == "a"
  {
    tr, steps := BothCanMiss(c, key, hash);
    RunKeepsInv(c, tr, steps, 4);
    var s5, s6 := MissedRequestRuns(c, tr[4], 1, "a");
    Extend(c, tr, steps, Acquire(1, "a"), s5);
    tr, steps := tr + [s5], steps + [Acquire(1, "a")];
    Extend(c, tr, steps, Start(1), s6);
    tr, steps := tr + [s6], steps + [Start(1)];
    var s7 := s6.(clock := 7, reqs := s6.reqs[1 := Req(key, hash, Ran(Read(2, 0), response))],
                  runs := s6.runs + {HandlerRun(1, key, hash, response)});
    Extend(c, tr, steps, Finish(1, response), s7);
    tr, steps := tr + [s7], steps + [Finish(1, response)];
  }

  /** It stores its response and releases the lock. */
  lemma FirstCanFinish(c: Config, key: Key, hash: string, response: Response) returns (tr: seq<State>, steps: seq<Step>)
    requires Cacheable(response.status) && c.responseTtl > 0
    ensures Run(c, tr, steps) && |steps| == 9 && steps[5] == Start(1)
    ensures tr[9].reqs == map[1 := Req(key, hash, Done(Answered(response))), 2 := Req(key, hash, Missed(Read(3, 0)))]
    ensures tr[9].lease.locks == map[] && tr[9].lease.now == 0 && tr[9].lease.issued == {"a"}
    ensures Found(tr[9], key) && tr[9].store[key] == Stored(hash, response, c.responseTtl, 7)
  {
    tr, steps := FirstCanRun(c, key, hash, response);
    var s7 := tr[7];
    var s8 := s7.(clock := 8, reqs := s7.reqs[1 := Req(key, hash, Closing(Answered(response)))],
                  store := s7.store[key := Stored(hash, response, c.responseTtl, 7)]);
    Extend(c, tr, steps, Save(1, true), s8);
    tr, steps := tr + [s8], steps + [Save(1, true)];
    var lease' := s8.lease.(locks := map[], inside := s8.lease.inside - {1});
    assert Lease.CompareAndDelete(s8.lease.locks, 0, key, "a") == map[];
    var s9 := s8.(clock := 9, lease := lease', reqs := s8.reqs[1 := Req(key, hash, Done(Answered(response)))]);
    Extend(c, tr, steps, Release(1, true), s9);
    tr, steps := tr + [s9], steps + [Release(1, true)];
  }

  /**
    Plain at-most-once is false: with no failure and no expiry, two requests of one key both run
    the handler when the second one read the store before the first one wrote it.
   */
  lemma TwoRunsArePossible(c: Config, key: Key, hash: string, response: Response)
    returns (tr: seq<State>, steps: seq<Step>)
    requires Cacheable(response.status) && c.responseTtl > 0
    ensures Run(c, tr, steps) && |steps| == 11 && steps[5] == Start(1) && steps[10] == Start(2)
    ensures 1 in tr[10].reqs && tr[10].reqs[1] == Req(key, hash, Done(Answered(response)))
    ensures 2 in tr[10].reqs && tr[10].reqs[2].key == key && tr[10].reqs[2].hash == hash
    ensures Found(tr[10], key) && tr[10].store[key].hash == hash && tr[10].store[key].response == response
  {
    tr, steps := FirstCanFinish(c, key, hash, response);
    RunKeepsInv(c, tr, steps, 9);
    var s10, s11 := MissedRequestRuns(c, tr[9], 2, "b");
    Extend(c, tr, steps, Acquire(2, "b"), s10);
    tr, steps := tr + [s10], steps + [Acquire(2, "b")];
    Extend(c, tr, steps, Start(2), s11);
    tr, steps := tr + [s11], steps + [Start(2)];
  }
}
