/**
  The versioned task-list cache against the direct query.

  A list request reads the team's version, looks up the entry of that version, and on a miss counts
  and then selects rows in two statements of their own, reads the version again and stores the page
  under it. A write commits to the database and then increments the version. Every Redis command
  and every statement is one step.
 */
module TaskCache {
  import opened Common
  import Canonical

  // ---------------------------------------------------------------- the direct query

  datatype Row = Row(
    id: int, title: string, description: Option<string>, status: string, priority: string,
    assignee: Option<int>, createdBy: int, dueDate: Option<int>, createdAt: int, updatedAt: int)

  datatype Filter = Filter(status: Option<string>, assignee: Option<int>, limit: nat, offset: nat)

  datatype Page = Page(items: seq<Row>, total: nat)

  predicate Selects(f: Filter, r: Row) {
    && (f.status.Some? ==> r.status == f.status.value)
    && (f.assignee.Some? ==> r.assignee == f.assignee)
  }

  function Select(rows: seq<Row>, f: Filter): seq<Row> {
    if rows == [] then []
    else Select(rows[..|rows| - 1], f) + if Selects(f, rows[|rows| - 1]) then [rows[|rows| - 1]] else []
  }

  /** SELECT COUNT(*) */
  function Total(rows: seq<Row>, f: Filter): nat {
    |Select(rows, f)|
  }

  /** SELECT … LIMIT … OFFSET: the rows of one team, most recently updated first, cut to a page. */
  function Items(rows: seq<Row>, f: Filter): seq<Row> {
    var all := Select(rows, f);
    var from := if f.offset <= |all| then f.offset else |all|;
    var to := if from + f.limit <= |all| then from + f.limit else |all|;
    all[from..to]
  }

  /** What both statements return when they see one table. */
  function Query(rows: seq<Row>, f: Filter): Page {
    Page(Items(rows, f), Total(rows, f))
  }

  // ---------------------------------------------------------------- what the query returns

  /** The row has the requested status and assignee, if any was requested. */
  ghost predicate Wanted(f: Filter, r: Row) {
    && (f.status == None || f.status == Some(r.status))
    && (f.assignee == None || f.assignee == r.assignee)
  }

  /** The positions of the wanted rows, in table order. */
  ghost predicate Matching(rows: seq<Row>, f: Filter, ps: seq<nat>) {
    && (forall i, j :: 0 <= i < j < |ps| ==> ps[i] < ps[j])
    && (forall i :: 0 <= i < |ps| ==> ps[i] < |rows|)
    && (forall p :: 0 <= p < |rows| ==> (p in ps <==> Wanted(f, rows[p])))
  }

  lemma MatchingGrows(rows: seq<Row>, f: Filter, pre: seq<nat>)
    requires rows != [] && Matching(rows[..|rows| - 1], f, pre)
    ensures Matching(rows, f, pre + if Wanted(f, rows[|rows| - 1]) then [|rows| - 1] else [])
  {
    var n := |rows| - 1;
    var ps := pre + if Wanted(f, rows[n]) then [n] else [];
    forall p | 0 <= p < |rows| ensures p in ps <==> Wanted(f, rows[p]) {
      if p < n {
        assert rows[..n][p] == rows[p] && (p in ps <==> p in pre);
      } else {
        assert p !in pre;
      }
    }
  }

  /** `Select` keeps the wanted rows, each as often as the table holds it, in table order. */
  lemma {:induction false} SelectMatches(rows: seq<Row>, f: Filter) returns (ps: seq<nat>)
    ensures Matching(rows, f, ps) && |Select(rows, f)| == |ps|
    ensures forall i :: 0 <= i < |ps| ==> Select(rows, f)[i] == rows[ps[i]]
  {
    ps := [];
    if rows != [] {
      var n := |rows| - 1;
      var pre := SelectMatches(rows[..n], f);
      MatchingGrows(rows, f, pre);
      ps := pre + if Wanted(f, rows[n]) then [n] else [];
    }
  }

  /** There is only one such list of positions. */
  lemma {:induction false} MatchingIsUnique(rows: seq<Row>, f: Filter, ps: seq<nat>, qs: seq<nat>)
    requires Matching(rows, f, ps) && Matching(rows, f, qs)
    ensures ps == qs
  {
    SameAscending(ps, qs);
  }

  lemma SameMembersNonEmpty(ps: seq<nat>, qs: seq<nat>)
    requires ps != [] && forall p :: p in ps ==> p in qs
    ensures qs != []
  {
    assert ps[0] in qs;
  }

  lemma {:induction false} SameAscending(ps: seq<nat>, qs: seq<nat>)
    requires forall i, j :: 0 <= i < j < |ps| ==> ps[i] < ps[j]
    requires forall i, j :: 0 <= i < j < |qs| ==> qs[i] < qs[j]
    requires forall p :: p in ps <==> p in qs
    ensures ps == qs
    decreases |ps|
  {
    if ps != [] { SameMembersNonEmpty(ps, qs); }
    if qs != [] {
      SameMembersNonEmpty(qs, ps);
      var m, n := |ps| - 1, |qs| - 1;
      assert ps[m] in qs && qs[n] in ps;
      forall p ensures p in ps[..m] <==> p in qs[..n] {
        if p in ps[..m] { assert p in ps && p in qs; }
        if p in qs[..n] { assert p in qs && p in ps; }
      }
      SameAscending(ps[..m], qs[..n]);
      assert ps == ps[..m] + [ps[m]] && qs == qs[..n] + [qs[n]];
    }
  }

  /** The rows at the given positions. */
  function RowsAt(rows: seq<Row>, ps: seq<nat>): seq<Row>
    requires forall i :: 0 <= i < |ps| ==> ps[i] < |rows|
  {
    seq(|ps|, i requires 0 <= i < |ps| => rows[ps[i]])
  }

  /** The elements from `offset` on, at most `limit` of them. */
  function Cut<T>(all: seq<T>, offset: nat, limit: nat): seq<T> {
    if |all| <= offset then []
    else if |all| - offset <= limit then all[offset..]
    else all[offset..offset + limit]
  }

  lemma SelectIs(rows: seq<Row>, f: Filter, ps: seq<nat>)
    requires Matching(rows, f, ps)
    ensures Select(rows, f) == RowsAt(rows, ps)
  {
    var qs := SelectMatches(rows, f);
    MatchingIsUnique(rows, f, ps, qs);
  }

  /**
    A page holds, in table order, the wanted rows from the offset on, as many as the limit allows
    and the table has left; the total counts all of them.
   */
  lemma PageIsRight(rows: seq<Row>, f: Filter, ps: seq<nat>)
    requires Matching(rows, f, ps)
    ensures Query(rows, f) == Page(Cut(RowsAt(rows, ps), f.offset, f.limit), |ps|)
  {
    SelectIs(rows, f, ps);
  }

  /** The first `k` pages, one after the other. */
  function Pages(rows: seq<Row>, f: Filter, k: nat): seq<Row> {
    if k == 0 then [] else Pages(rows, f, k - 1) + Query(rows, f.(offset := (k - 1) * f.limit)).items
  }

  lemma CutAfter<T>(all: seq<T>, offset: nat, limit: nat)
    ensures Cut(all, 0, offset) + Cut(all, offset, limit) == Cut(all, 0, offset + limit)
  {
  }

  lemma PageAt(rows: seq<Row>, f: Filter, ps: seq<nat>, o: nat)
    requires Matching(rows, f, ps)
    ensures Query(rows, f.(offset := o)).items == Cut(RowsAt(rows, ps), o, f.limit)
  {
    var g := f.(offset := o);
    forall p | 0 <= p < |rows| ensures Wanted(f, rows[p]) == Wanted(g, rows[p]) {}
    PageIsRight(rows, g, ps);
  }

  lemma {:induction false} PagesAreAPrefix(rows: seq<Row>, f: Filter, ps: seq<nat>, k: nat)
    requires Matching(rows, f, ps)
    ensures Pages(rows, f, k) == Cut(RowsAt(rows, ps), 0, k * f.limit)
  {
    var all := RowsAt(rows, ps);
    if k == 0 {
      assert Cut(all, 0, 0) == [];
    } else {
      var o := (k - 1) * f.limit;
      assert k * f.limit == o + f.limit;
      PagesAreAPrefix(rows, f, ps, k - 1);
      PageAt(rows, f, ps, o);
      CutAfter(all, o, f.limit);
    }
  }

  /** Walking through the pages shows every wanted row once, in table order, and nothing else. */
  lemma PagesCoverEverything(rows: seq<Row>, f: Filter, ps: seq<nat>, k: nat)
    requires Matching(rows, f, ps) && |ps| <= k * f.limit
    ensures Pages(rows, f, k) == RowsAt(rows, ps)
  {
    PagesAreAPrefix(rows, f, ps, k);
  }

  // ---------------------------------------------------------------- state

  /** The four parameters of a list request as they arrive, with the limit and the offset formatted again. */
  type Request = Canonical.ListRequest

  /** Parsing of the parameters, which may fail. */
  type Parser = Request -> Option<Filter>

  function FilterOf(parse: Parser, q: Request): Filter {
    if parse(q).Some? then parse(q).value else Filter(None, None, 0, 0)
  }

  /** `key` is the string built from the request before it is parsed. */
  datatype Slot = Slot(team: int, ver: nat, key: string)

  function SlotOf(team: int, ver: nat, q: Request): Slot {
    Slot(team, ver, Canonical.HandlerString(q))
  }

  /** A page with the steps of the two statements that produced it. */
  datatype Answer = Answer(page: Page, countAt: int, rowsAt: int)

  /** An answer whose version was read at `verAt`; `keyed` tells whether the version key existed from then on. */
  datatype Versioned = Versioned(answer: Answer, verAt: int, keyed: bool)

  /** A cached answer; `request` is the one that stored it. */
  datatype Entry = Entry(what: Versioned, storedAt: int, request: Request)

  datatype Phase =
    | Started
    | VersionAbsent                                  // GetList found no version key
    | VersionRead(ver: nat)
    | Missing
    | Malformed                                      // the parameters do not parse
    | Counted(total: nat, countAt: int)
    | Queried(answer: Answer)
    | StoreAbsent(answer: Answer)                    // SetList found no version key
    | StoreRead(what: Versioned, ver: nat)
    | Done(page: Page, hit: Option<Entry>)

  /** `start` is the step the request arrived at, `barrier` the last invalidation before it. */
  datatype Reader = Reader(team: int, request: Request, start: int, barrier: int, minVer: nat, phase: Phase)

  datatype State = State(
    clock: int,
    rows: map<int, seq<Row>>,
    ver: map<int, nat>,
    entries: map<Slot, Entry>,
    readers: map<int, Reader>,
    writers: map<int, int>,           // writer -> team, between commit and invalidate; one whose INCR fails stays
    lastCommit: map<int, int>,
    lastInval: map<int, int>)

  datatype Step =
    | Start(r: int, team: int, request: Request)
    | GetVersion(r: int)
    | SetVersion(r: int, ok: bool)
    | Lookup(r: int)
    | Skip(r: int)
    | Reject(r: int)
    | Count(r: int)
    | Rows(r: int)
    | ReadVersion(r: int)
    | Put(r: int)
    | GiveUp(r: int)
    | Expire(slot: Slot)
    | Commit(w: int, team: int, rows: seq<Row>)
    | Invalidate(w: int)

  function RowsOf(s: State, t: int): seq<Row> {
    if t in s.rows then s.rows[t] else []
  }

  function Time(m: map<int, int>, t: int): int {
    if t in m then m[t] else -1
  }

  function VersionOf(s: State, t: int): nat {
    if t in s.ver then s.ver[t] else 1
  }

  function Moved(s: State, r: int, p: Phase): map<int, Reader>
    requires r in s.readers
  {
    s.readers[r := s.readers[r].(phase := p)]
  }

  ghost predicate Init(s: State) {
    && s.clock == 0 && s.ver == map[] && s.entries == map[] && s.readers == map[] && s.writers == map[]
    && s.lastCommit == map[] && s.lastInval == map[]
  }

  ghost predicate Next(parse: Parser, s: State, step: Step, s': State) {
    match step
    case Start(r, team, request) =>
      && r !in s.readers && Canonical.Numbered(request)
      && s' == s.(clock := s.clock + 1,
                  readers := s.readers[r := Reader(team, request, s.clock, Time(s.lastInval, team),
                    VersionOf(s, team), Started)])
    case GetVersion(r) =>
      && r in s.readers && s.readers[r].phase.Started?
      && var t := s.readers[r].team;
      s' == s.(clock := s.clock + 1,
        readers := Moved(s, r, if t in s.ver then VersionRead(s.ver[t]) else VersionAbsent))
    case SetVersion(r, ok) =>  // SET NX 1, in GetList or in SetList; its error is ignored
      && r in s.readers && (s.readers[r].phase.VersionAbsent? || s.readers[r].phase.StoreAbsent?)
      && var t := s.readers[r].team;
      var p := s.readers[r].phase;
      s' == s.(clock := s.clock + 1,
               ver := if ok && t !in s.ver then s.ver[t := 1] else s.ver,
               readers := Moved(s, r, if p.VersionAbsent? then VersionRead(1)
                                      else StoreRead(Versioned(p.answer, s.clock, ok || t in s.ver), 1)))
    case Lookup(r) =>
      && r in s.readers && s.readers[r].phase.VersionRead?
      && var slot := SlotOf(s.readers[r].team, s.readers[r].phase.ver, s.readers[r].request);
      s' == s.(clock := s.clock + 1,
               readers := Moved(s, r, if slot in s.entries
                 then Done(s.entries[slot].what.answer.page, Some(s.entries[slot])) else Missing))
    case Skip(r) =>  // a read of GetList fails
      && r in s.readers && (s.readers[r].phase.Started? || s.readers[r].phase.VersionRead?)
      && s' == s.(clock := s.clock + 1, readers := Moved(s, r, Missing))
    case Reject(r) =>
      && r in s.readers && s.readers[r].phase.Missing? && parse(s.readers[r].request).None?
      && s' == s.(clock := s.clock + 1, readers := Moved(s, r, Malformed))
    case Count(r) =>
      && r in s.readers && s.readers[r].phase.Missing? && parse(s.readers[r].request).Some?
      && var f := FilterOf(parse, s.readers[r].request);
      s' == s.(clock := s.clock + 1,
               readers := Moved(s, r, Counted(Total(RowsOf(s, s.readers[r].team), f), s.clock)))
    case Rows(r) =>
      && r in s.readers && s.readers[r].phase.Counted?
      && var p := s.readers[r].phase;
      var f := FilterOf(parse, s.readers[r].request);
      s' == s.(clock := s.clock + 1,
               readers := Moved(s, r, Queried(
                 Answer(Page(Items(RowsOf(s, s.readers[r].team), f), p.total), p.countAt, s.clock))))
    case ReadVersion(r) =>
      && r in s.readers && s.readers[r].phase.Queried?
      && var t := s.readers[r].team;
      var p := s.readers[r].phase;
      s' == s.(clock := s.clock + 1,
               readers := Moved(s, r, if t in s.ver then StoreRead(Versioned(p.answer, s.clock, true), s.ver[t])
                 else StoreAbsent(p.answer)))
    case Put(r) =>
      && r in s.readers && s.readers[r].phase.StoreRead?
      && var p := s.readers[r].phase;
      s' == s.(clock := s.clock + 1,
               entries := s.entries[SlotOf(s.readers[r].team, p.ver, s.readers[r].request) :=
                 Entry(p.what, s.clock, s.readers[r].request)],
               readers := Moved(s, r, Done(p.what.answer.page, None)))
    case GiveUp(r) =>  // a command of SetList fails
      && r in s.readers && (s.readers[r].phase.Queried? || s.readers[r].phase.StoreRead?)
      && var p := s.readers[r].phase;
      s' == s.(clock := s.clock + 1,
               readers := Moved(s, r, Done(if p.Queried? then p.answer.page else p.what.answer.page, None)))
    case Expire(slot) =>
      s' == s.(clock := s.clock + 1, entries := s.entries - {slot})
    case Commit(w, team, rows) =>
      && w !in s.writers
      && s' == s.(clock := s.clock + 1, rows := s.rows[team := rows], writers := s.writers[w := team],
        lastCommit := s.lastCommit[team := s.clock])
    case Invalidate(w) =>  // INCR: an absent key becomes 1
      && w in s.writers
      && var t := s.writers[w];
      s' == s.(clock := s.clock + 1,
               ver := s.ver[t := if t in s.ver then s.ver[t] + 1 else 1],
               lastInval := s.lastInval[t := s.clock],
               writers := s.writers - {w})
  }

  ghost predicate StepAt(parse: Parser, tr: seq<State>, steps: seq<Step>, i: int)
    requires |tr| == |steps| + 1 && 0 <= i < |steps|
  {
    Next(parse, tr[i], steps[i], tr[i + 1])
  }

  ghost predicate Run(parse: Parser, tr: seq<State>, steps: seq<Step>) {
    && |tr| == |steps| + 1
    && Init(tr[0])
    && forall i {:trigger StepAt(parse, tr, steps, i)} :: 0 <= i < |steps| ==> StepAt(parse, tr, steps, i)
  }

  // ---------------------------------------------------------------- the invariant

  /**
    A version that was read is never newer than the team's version. If the key existed when it was
    read and it is still the team's version, no invalidation came since.
   */
  ghost predicate VersionedOk(s: State, t: int, v: Versioned, ver: nat) {
    && 0 <= v.answer.countAt < v.answer.rowsAt < v.verAt < s.clock
    && ver <= VersionOf(s, t)
    && (v.keyed ==> t in s.ver && (ver == s.ver[t] ==> Time(s.lastInval, t) < v.verAt))
  }

  ghost predicate SlotOk(s: State, k: Slot)
    requires k in s.entries
  {
    && s.entries[k].what.verAt < s.entries[k].storedAt < s.clock
    && VersionedOk(s, k.team, s.entries[k].what, k.ver)
  }

  ghost predicate TeamOk(s: State, t: int) {
    && Time(s.lastInval, t) < s.clock && Time(s.lastCommit, t) < s.clock
    && (t in s.lastInval ==> t in s.ver)
    && 1 <= VersionOf(s, t)
    && (Time(s.lastInval, t) < Time(s.lastCommit, t) ==> exists w :: w in s.writers && s.writers[w] == t)
  }

  /** A request only meets entries that were stored after the last invalidation before it. */
  ghost predicate ReaderOk(s: State, r: int)
    requires r in s.readers
  {
    var d := s.readers[r];
    && d.barrier < d.start < s.clock && d.minVer <= VersionOf(s, d.team)
    && (d.barrier >= 0 ==> d.team in s.ver)
    && match d.phase
       case Done(_, Some(e)) => e.what.keyed ==> d.barrier < e.storedAt
       case VersionAbsent => d.barrier < 0
       case VersionRead(ver) => (d.barrier >= 0 ==> d.minVer <= ver) && ver <= VersionOf(s, d.team)
       case Counted(_, countAt) => 0 <= countAt < s.clock
       case Queried(a) => 0 <= a.countAt < a.rowsAt < s.clock
       case StoreAbsent(a) => 0 <= a.countAt < a.rowsAt < s.clock
       case StoreRead(what, ver) => VersionedOk(s, d.team, what, ver)
       case _ => true
  }

  /** What the slots at or above a request's starting version hold is newer than its barrier. */
  ghost predicate Beyond(s: State, r: int, k: Slot)
    requires r in s.readers && k in s.entries
  {
    var d := s.readers[r];
    d.team == k.team && s.entries[k].what.keyed && d.minVer <= k.ver && d.barrier >= 0 ==>
      d.barrier < s.entries[k].storedAt
  }

  ghost predicate Inv(s: State) {
    && s.clock >= 0
    && (forall t {:trigger TeamOk(s, t)} :: TeamOk(s, t))
    && (forall k {:trigger SlotOk(s, k)} :: k in s.entries ==> SlotOk(s, k))
    && (forall r {:trigger ReaderOk(s, r)} :: r in s.readers ==> ReaderOk(s, r))
    && (forall r, k {:trigger Beyond(s, r, k)} :: r in s.readers && k in s.entries ==> Beyond(s, r, k))
  }

  // ---------------------------------------------------------------- preservation

  lemma NextKeepsVersion(parse: Parser, s: State, step: Step, s': State, t: int)
    requires s.clock >= 0 && Next(parse, s, step, s') && 1 <= VersionOf(s, t) && (t in s.lastInval ==> t in s.ver)
    requires Time(s.lastInval, t) < s.clock && Time(s.lastCommit, t) < s.clock
    ensures s'.clock == s.clock + 1 && VersionOf(s, t) <= VersionOf(s', t) && (t in s.ver ==> t in s'.ver)
    ensures (t in s'.lastInval ==> t in s'.ver) && Time(s'.lastInval, t) < s'.clock && Time(s'.lastCommit, t) < s'.clock
    ensures Time(s'.lastInval, t) != Time(s.lastInval, t) && t in s.ver ==> VersionOf(s, t) < VersionOf(s', t)
  {
  }

  lemma CommitKeepsPending(parse: Parser, s: State, v: int, team: int, rows: seq<Row>, s': State, t: int)
    requires Next(parse, s, Commit(v, team, rows), s') && TeamOk(s, t)
    ensures Time(s'.lastInval, t) < Time(s'.lastCommit, t) ==> exists w :: w in s'.writers && s'.writers[w] == t
  {
    if team == t {
      assert v in s'.writers && s'.writers[v] == t;
    } else if Time(s.lastInval, t) < Time(s.lastCommit, t) {
      var w :| w in s.writers && s.writers[w] == t;
      assert w in s'.writers && s'.writers[w] == t;
    }
  }

  lemma InvalidateKeepsPending(parse: Parser, s: State, v: int, s': State, t: int)
    requires Next(parse, s, Invalidate(v), s') && TeamOk(s, t)
    ensures Time(s'.lastInval, t) < Time(s'.lastCommit, t) ==> exists w :: w in s'.writers && s'.writers[w] == t
  {
    if s.writers[v] != t && Time(s.lastInval, t) < Time(s.lastCommit, t) {
      var w :| w in s.writers && s.writers[w] == t;
      assert w in s'.writers && s'.writers[w] == t;
    }
  }

  lemma NextKeepsTeam(parse: Parser, s: State, step: Step, s': State, t: int)
    requires s.clock >= 0 && Next(parse, s, step, s') && TeamOk(s, t)
    ensures TeamOk(s', t) && VersionOf(s, t) <= VersionOf(s', t) && (t in s.ver ==> t in s'.ver)
    ensures s'.clock == s.clock + 1
  {
    NextKeepsVersion(parse, s, step, s', t);
    match step {
      case Commit(w, team, rows) => CommitKeepsPending(parse, s, w, team, rows, s', t);
      case Invalidate(w) => InvalidateKeepsPending(parse, s, w, s', t);
      case _ =>
    }
  }

  lemma NextKeepsVersioned(parse: Parser, s: State, step: Step, s': State, t: int, v: Versioned, ver: nat)
    requires s.clock >= 0 && Next(parse, s, step, s') && TeamOk(s, t) && VersionedOk(s, t, v, ver)
    ensures VersionedOk(s', t, v, ver)
  {
    NextKeepsVersion(parse, s, step, s', t);
  }

  lemma NextKeepsSlot(parse: Parser, s: State, step: Step, s': State, k: Slot)
    requires Inv(s) && Next(parse, s, step, s') && k in s'.entries
    ensures SlotOk(s', k)
  {
    assert TeamOk(s, k.team);
    if k in s.entries && s'.entries[k] == s.entries[k] {
      assert SlotOk(s, k);
      NextKeepsVersioned(parse, s, step, s', k.team, s.entries[k].what, k.ver);
    } else {
      assert step.Put? && ReaderOk(s, step.r);
      NextKeepsVersioned(parse, s, step, s', k.team, s'.entries[k].what, k.ver);
    }
  }

  /** The step that a request itself takes, if it takes this one. */
  predicate StepOf(step: Step, r: int) {
    match step
    case Start(q, _, _) => q == r
    case GetVersion(q) => q == r
    case SetVersion(q, _) => q == r
    case Lookup(q) => q == r
    case Skip(q) => q == r
    case Reject(q) => q == r
    case Count(q) => q == r
    case Rows(q) => q == r
    case ReadVersion(q) => q == r
    case Put(q) => q == r
    case GiveUp(q) => q == r
    case _ => false
  }

  lemma OtherReadersStay(parse: Parser, s: State, step: Step, s': State, r: int)
    requires Next(parse, s, step, s') && r in s'.readers && !StepOf(step, r)
    ensures r in s.readers && s'.readers[r] == s.readers[r]
  {
  }

  lemma LookupKeepsReader(parse: Parser, s: State, r: int, s': State)
    requires Inv(s) && Next(parse, s, Lookup(r), s')
    ensures ReaderOk(s', r)
  {
    assert ReaderOk(s, r);
    var k := SlotOf(s.readers[r].team, s.readers[r].phase.ver, s.readers[r].request);
    if k in s.entries { assert SlotOk(s, k) && Beyond(s, r, k); }
  }

  lemma VersionStepKeepsReader(parse: Parser, s: State, step: Step, s': State, r: int)
    requires s.clock >= 0 && Next(parse, s, step, s') && StepOf(step, r) && r in s'.readers
    requires step.Start? || step.GetVersion? || step.SetVersion? || step.ReadVersion?
    requires TeamOk(s, s'.readers[r].team) && (r in s.readers ==> ReaderOk(s, r))
    ensures ReaderOk(s', r)
  {
  }

  lemma PlainStepKeepsReader(parse: Parser, s: State, step: Step, s': State, r: int)
    requires s.clock >= 0 && Next(parse, s, step, s') && StepOf(step, r) && r in s.readers && ReaderOk(s, r)
    requires !step.Start? && !step.GetVersion? && !step.SetVersion? && !step.ReadVersion? && !step.Lookup?
    ensures r in s'.readers && ReaderOk(s', r)
  {
  }

  lemma OtherStepKeepsReader(parse: Parser, s: State, step: Step, s': State, r: int)
    requires s.clock >= 0 && Next(parse, s, step, s') && r in s.readers && r in s'.readers
    requires s'.readers[r] == s.readers[r]
    requires TeamOk(s, s.readers[r].team) && ReaderOk(s, r)
    ensures ReaderOk(s', r)
  {
    var d := s.readers[r];
    NextKeepsTeam(parse, s, step, s', d.team);
    if d.phase.StoreRead? { NextKeepsVersioned(parse, s, step, s', d.team, d.phase.what, d.phase.ver); }
  }

  lemma NextKeepsReader(parse: Parser, s: State, step: Step, s': State, r: int)
    requires Inv(s) && Next(parse, s, step, s') && r in s'.readers
    ensures ReaderOk(s', r)
  {
    assert TeamOk(s, s'.readers[r].team);
    if r in s.readers { assert ReaderOk(s, r); }
    if StepOf(step, r) {
      if step.Lookup? {
        LookupKeepsReader(parse, s, r, s');
      } else if step.Start? || step.GetVersion? || step.SetVersion? || step.ReadVersion? {
        VersionStepKeepsReader(parse, s, step, s', r);
      } else {
        PlainStepKeepsReader(parse, s, step, s', r);
      }
    } else {
      OtherReadersStay(parse, s, step, s', r);
      OtherStepKeepsReader(parse, s, step, s', r);
    }
  }

  lemma NextKeepsBeyond(parse: Parser, s: State, step: Step, s': State, r: int, k: Slot)
    requires Inv(s) && Next(parse, s, step, s') && r in s'.readers && k in s'.entries
    ensures Beyond(s', r, k)
  {
    assert TeamOk(s, k.team);
    if k in s.entries { assert SlotOk(s, k); }
    if r in s.readers { assert ReaderOk(s, r); }
    if k in s.entries && r in s.readers { assert Beyond(s, r, k); }
  }

  lemma NextKeepsInv(parse: Parser, s: State, step: Step, s': State)
    requires Inv(s) && Next(parse, s, step, s')
    ensures Inv(s')
  {
    forall t ensures TeamOk(s', t) { assert TeamOk(s, t); NextKeepsTeam(parse, s, step, s', t); }
    forall k | k in s'.entries ensures SlotOk(s', k) { NextKeepsSlot(parse, s, step, s', k); }
    forall r | r in s'.readers ensures ReaderOk(s', r) { NextKeepsReader(parse, s, step, s', r); }
    forall r, k | r in s'.readers && k in s'.entries ensures Beyond(s', r, k) {
      NextKeepsBeyond(parse, s, step, s', r, k);
    }
    assert TeamOk(s, 0);
    NextKeepsTeam(parse, s, step, s', 0);
  }

  lemma {:induction false} RunKeepsInv(parse: Parser, tr: seq<State>, steps: seq<Step>, n: nat)
    requires Run(parse, tr, steps) && n < |tr|
    ensures Inv(tr[n]) && tr[n].clock == n
  {
    if n > 0 {
      RunKeepsInv(parse, tr, steps, n - 1);
      assert StepAt(parse, tr, steps, n - 1);
      assert TeamOk(tr[n - 1], 0);
      NextKeepsTeam(parse, tr[n - 1], steps[n - 1], tr[n], 0);
      NextKeepsInv(parse, tr[n - 1], steps[n - 1], tr[n]);
    }
  }

  // ---------------------------------------------------------------- what every run guarantees

  lemma {:induction false} InvalidationIsRemembered(
    parse: Parser, tr: seq<State>, steps: seq<Step>, m: nat, n: nat, t: int)
    requires Run(parse, tr, steps) && m < n < |tr| && steps[m].Invalidate? && steps[m].w in tr[m].writers
    requires tr[m].writers[steps[m].w] == t
    ensures m <= Time(tr[n].lastInval, t)
    decreases n
  {
    RunKeepsInv(parse, tr, steps, n - 1);
    assert StepAt(parse, tr, steps, n - 1);
    assert TeamOk(tr[n - 1], t);
    if m < n - 1 { InvalidationIsRemembered(parse, tr, steps, m, n - 1, t); }
  }

  lemma {:induction false} BarrierIsLastInvalidation(parse: Parser, tr: seq<State>, steps: seq<Step>, n: nat, r: int)
    requires Run(parse, tr, steps) && n < |tr| && r in tr[n].readers
    ensures 0 <= tr[n].readers[r].start < n
    ensures tr[n].readers[r].barrier == Time(tr[tr[n].readers[r].start].lastInval, tr[n].readers[r].team)
  {
    if n > 0 {
      RunKeepsInv(parse, tr, steps, n - 1);
      assert StepAt(parse, tr, steps, n - 1);
      if r in tr[n - 1].readers {
        BarrierIsLastInvalidation(parse, tr, steps, n - 1, r);
        assert tr[n].readers[r].start == tr[n - 1].readers[r].start;
      }
    }
  }

  /**
    A request that starts after an invalidation never returns a page that was stored before it,
    provided the version key existed when that page's version was read.
   */
  lemma InvalidationIsABarrier(parse: Parser, tr: seq<State>, steps: seq<Step>, m: nat, n: nat, r: int)
    requires Run(parse, tr, steps) && m < n < |tr| && steps[m].Invalidate? && steps[m].w in tr[m].writers
    requires r in tr[n].readers && tr[n].readers[r].team == tr[m].writers[steps[m].w] && m < tr[n].readers[r].start
    requires tr[n].readers[r].phase.Done? && tr[n].readers[r].phase.hit.Some?
    requires tr[n].readers[r].phase.hit.value.what.keyed
    ensures m < tr[n].readers[r].phase.hit.value.storedAt
  {
    RunKeepsInv(parse, tr, steps, n);
    BarrierIsLastInvalidation(parse, tr, steps, n, r);
    InvalidationIsRemembered(parse, tr, steps, m, tr[n].readers[r].start, tr[n].readers[r].team);
    assert ReaderOk(tr[n], r);
  }

  /** The guard behind it: an increment leaves old entries behind exactly when the version key was absent. */
  lemma BarrierNeedsVersionKey(parse: Parser, tr: seq<State>, steps: seq<Step>, n: nat)
    requires Run(parse, tr, steps) && n < |steps| && steps[n].Invalidate? && steps[n].w in tr[n].writers
    ensures var t := tr[n].writers[steps[n].w];
      && t in tr[n + 1].ver
      && ((exists k :: k in tr[n + 1].entries && k.team == t && k.ver == tr[n + 1].ver[t])
          <==> t !in tr[n].ver && exists k :: k in tr[n].entries && k.team == t && k.ver == 1)
  {
    RunKeepsInv(parse, tr, steps, n);
    assert StepAt(parse, tr, steps, n);
    var s, s', t := tr[n], tr[n + 1], tr[n].writers[steps[n].w];
    assert s'.entries == s.entries;
    forall k | k in s.entries && k.team == t && k.ver == s'.ver[t] ensures t !in s.ver && k.ver == 1 {
      assert SlotOk(s, k);
    }
  }

  // ---------------------------------------------------------------- whose page a hit shows

  /** The key of an entry is that of the request that stored it, whose parameters do parse. */
  ghost predicate KeyOk(parse: Parser, e: Entry, key: string) {
    Canonical.Numbered(e.request) && parse(e.request).Some? && Canonical.HandlerString(e.request) == key
  }

  lemma {:induction false} ReaderKey(parse: Parser, tr: seq<State>, steps: seq<Step>, n: nat, r: int)
    requires Run(parse, tr, steps) && n < |tr| && r in tr[n].readers
    ensures var d := tr[n].readers[r];
      && Canonical.Numbered(d.request)
      && match d.phase
         case Done(_, Some(e)) => KeyOk(parse, e, Canonical.HandlerString(d.request))
         case Counted(_, _) => parse(d.request).Some?
         case Queried(_) => parse(d.request).Some?
         case StoreAbsent(_) => parse(d.request).Some?
         case StoreRead(_, _) => parse(d.request).Some?
         case _ => true
    decreases n, 0
  {
    if n > 0 {
      assert StepAt(parse, tr, steps, n - 1);
      if !StepOf(steps[n - 1], r) { OtherReadersStay(parse, tr[n - 1], steps[n - 1], tr[n], r); }
      if r in tr[n - 1].readers {
        ReaderKey(parse, tr, steps, n - 1, r);
        var d := tr[n - 1].readers[r];
        if d.phase.VersionRead? && SlotOf(d.team, d.phase.ver, d.request) in tr[n - 1].entries {
          EntryKey(parse, tr, steps, n - 1, SlotOf(d.team, d.phase.ver, d.request));
        }
      }
    }
  }

  lemma {:induction false} EntryKey(parse: Parser, tr: seq<State>, steps: seq<Step>, n: nat, k: Slot)
    requires Run(parse, tr, steps) && n < |tr| && k in tr[n].entries
    ensures KeyOk(parse, tr[n].entries[k], k.key)
    decreases n, 1
  {
    if n > 0 {
      assert StepAt(parse, tr, steps, n - 1);
      if k in tr[n - 1].entries && tr[n].entries[k] == tr[n - 1].entries[k] {
        EntryKey(parse, tr, steps, n - 1, k);
      } else {
        ReaderKey(parse, tr, steps, n - 1, steps[n - 1].r);
      }
    }
  }

  /**
    A hit shows a page that the same request stored, unless the assignee of one of the two requests
    swallows the key of the other. So requests without '&' in their assignees only see their own
    pages, and one that does not even parse is answered only from a request that it swallows, or
    that swallows it.
   */
  lemma HitIsOwnRequest(parse: Parser, tr: seq<State>, steps: seq<Step>, n: nat, r: int)
    requires Run(parse, tr, steps) && n < |tr| && r in tr[n].readers
    requires tr[n].readers[r].phase.Done? && tr[n].readers[r].phase.hit.Some?
    ensures var q, q' := tr[n].readers[r].request, tr[n].readers[r].phase.hit.value.request;
      && (q == q' || Canonical.Swallows(q, q') || Canonical.Swallows(q', q))
      && ('&' !in q.assignee && '&' !in q'.assignee ==> q == q')
      && parse(q').Some?
  {
    ReaderKey(parse, tr, steps, n, r);
    var q, q' := tr[n].readers[r].request, tr[n].readers[r].phase.hit.value.request;
    Canonical.HandlerStringsAgree(q, q');
    if '&' !in q.assignee && '&' !in q'.assignee { Canonical.HandlerStringIsInjective(q, q'); }
  }

  // ---------------------------------------------------------------- agreement, entry by entry

  /** The total of the table before step `countAt` with the items of the table before step `rowsAt`. */
  ghost predicate AsQueried(tr: seq<State>, n: nat, t: int, f: Filter, a: Answer) {
    && 0 <= a.countAt < a.rowsAt < n < |tr|
    && a.page == Page(Items(RowsOf(tr[a.rowsAt], t), f), Total(RowsOf(tr[a.countAt], t), f))
  }

  /** The total and the items are those of the tables at two steps since the request arrived. */
  ghost predicate AskedSince(parse: Parser, tr: seq<State>, n: nat, d: Reader, a: Answer) {
    d.start <= a.countAt && AsQueried(tr, n, d.team, FilterOf(parse, d.request), a)
  }

  /** What a request has read so far is what the tables held, and what it answers is that, or the page it hit. */
  ghost predicate ReaderShows(parse: Parser, tr: seq<State>, n: nat, d: Reader) {
    match d.phase
    case Counted(total, countAt) =>
      && d.start <= countAt && 0 <= countAt < n < |tr|
      && total == Total(RowsOf(tr[countAt], d.team), FilterOf(parse, d.request))
    case Queried(a) => AskedSince(parse, tr, n, d, a)
    case StoreAbsent(a) => AskedSince(parse, tr, n, d, a)
    case StoreRead(what, _) => AskedSince(parse, tr, n, d, what.answer)
    case Done(page, None) => exists a: Answer {:trigger AskedSince(parse, tr, n, d, a)} ::
      a.page == page && AskedSince(parse, tr, n, d, a)
    case Done(page, Some(e)) => page == e.what.answer.page
    case _ => true
  }

  lemma ShowsLater(parse: Parser, tr: seq<State>, n: nat, d: Reader)
    requires n + 1 < |tr| && ReaderShows(parse, tr, n, d)
    ensures ReaderShows(parse, tr, n + 1, d)
  {
    if d.phase.Done? && d.phase.hit.None? {
      var a: Answer :| a.page == d.phase.page && AskedSince(parse, tr, n, d, a);
      assert AskedSince(parse, tr, n + 1, d, a);
    }
  }

  lemma {:induction false} ReaderAsQueried(parse: Parser, tr: seq<State>, steps: seq<Step>, n: nat, r: int)
    requires Run(parse, tr, steps) && n < |tr| && r in tr[n].readers
    ensures ReaderShows(parse, tr, n, tr[n].readers[r])
  {
    if n > 0 {
      assert StepAt(parse, tr, steps, n - 1);
      if r in tr[n - 1].readers { ReaderAsQueried(parse, tr, steps, n - 1, r); }
      if StepOf(steps[n - 1], r) {
        OwnStepShows(parse, tr, steps, n, r);
      } else {
        OtherReadersStay(parse, tr[n - 1], steps[n - 1], tr[n], r);
        ShowsLater(parse, tr, n - 1, tr[n].readers[r]);
      }
    }
  }

  lemma OwnStepShows(parse: Parser, tr: seq<State>, steps: seq<Step>, n: nat, r: int)
    requires Run(parse, tr, steps) && 0 < n < |tr| && r in tr[n].readers && StepOf(steps[n - 1], r)
    requires r in tr[n - 1].readers ==> ReaderShows(parse, tr, n - 1, tr[n - 1].readers[r])
    ensures ReaderShows(parse, tr, n, tr[n].readers[r])
  {
    assert StepAt(parse, tr, steps, n - 1);
    RunKeepsInv(parse, tr, steps, n - 1);
    if r in tr[n - 1].readers { assert ReaderOk(tr[n - 1], r); }
    if steps[n - 1].Put? || steps[n - 1].GiveUp? {
      AnswerShows(parse, tr, steps, n, r);
    } else {
      AskingShows(parse, tr, steps, n, r);
    }
  }

  /** A request that has asked answers what it was told. */
  lemma AnswerShows(parse: Parser, tr: seq<State>, steps: seq<Step>, n: nat, r: int)
    requires 0 < n < |tr| == |steps| + 1 && StepAt(parse, tr, steps, n - 1) && StepOf(steps[n - 1], r)
    requires steps[n - 1].Put? || steps[n - 1].GiveUp?
    requires r in tr[n - 1].readers && ReaderShows(parse, tr, n - 1, tr[n - 1].readers[r])
    ensures r in tr[n].readers && ReaderShows(parse, tr, n, tr[n].readers[r])
  {
    var p := tr[n - 1].readers[r].phase;
    var a := if p.Queried? then p.answer else p.what.answer;
    assert AskedSince(parse, tr, n, tr[n].readers[r], a);
  }

  lemma AskingShows(parse: Parser, tr: seq<State>, steps: seq<Step>, n: nat, r: int)
    requires 0 < n < |tr| == |steps| + 1 && StepAt(parse, tr, steps, n - 1) && StepOf(steps[n - 1], r)
    requires !steps[n - 1].Put? && !steps[n - 1].GiveUp? && tr[n - 1].clock == n - 1
    requires r in tr[n - 1].readers ==> ReaderShows(parse, tr, n - 1, tr[n - 1].readers[r]) && ReaderOk(tr[n - 1], r)
    requires r in tr[n].readers
    ensures ReaderShows(parse, tr, n, tr[n].readers[r])
  {
  }

  /** Every cached page shows the table as its two statements saw it. */
  lemma {:induction false} EntryAsQueried(parse: Parser, tr: seq<State>, steps: seq<Step>, n: nat, k: Slot)
    requires Run(parse, tr, steps) && n < |tr| && k in tr[n].entries
    ensures AsQueried(tr, n, k.team, FilterOf(parse, tr[n].entries[k].request), tr[n].entries[k].what.answer)
  {
    if n > 0 {
      assert StepAt(parse, tr, steps, n - 1);
      if k in tr[n - 1].entries && tr[n].entries[k] == tr[n - 1].entries[k] {
        EntryAsQueried(parse, tr, steps, n - 1, k);
      } else {
        ReaderAsQueried(parse, tr, steps, n - 1, steps[n - 1].r);
      }
    }
  }

  /**
    The page that a request answers: on a miss, the total and the items of the tables at two steps
    since it arrived; on a hit, the page of the entry, which its own request queried.
   */
  lemma AnswerIsRight(parse: Parser, tr: seq<State>, steps: seq<Step>, n: nat, r: int)
    requires Run(parse, tr, steps) && n < |tr| && r in tr[n].readers && tr[n].readers[r].phase.Done?
    ensures var d := tr[n].readers[r];
      match d.phase.hit
      case Some(e) => d.phase.page == e.what.answer.page
      case None =>
        exists i, j :: d.start <= i && 0 <= i < j < n
          && d.phase.page.total == Query(RowsOf(tr[i], d.team), FilterOf(parse, d.request)).total
          && d.phase.page.items == Query(RowsOf(tr[j], d.team), FilterOf(parse, d.request)).items
  {
    ReaderAsQueried(parse, tr, steps, n, r);
    var d := tr[n].readers[r];
    if d.phase.hit.None? {
      var a: Answer :| a.page == d.phase.page && AskedSince(parse, tr, n, d, a);
      assert d.start <= a.countAt && 0 <= a.countAt < a.rowsAt < n;
    }
  }

  /** A page at the current version is there for the next request of the same parameters. */
  lemma PageIsServed(parse: Parser, tr: seq<State>, steps: seq<Step>, t: int, q: Request, r: int)
    returns (tr': seq<State>, steps': seq<Step>)
    requires Run(parse, tr, steps) && Canonical.Numbered(q)
    requires var s := tr[|steps|]; r !in s.readers && t in s.ver && SlotOf(t, s.ver[t], q) in s.entries
    ensures Run(parse, tr', steps') && steps' == steps + [Start(r, t, q), GetVersion(r), Lookup(r)]
    ensures var s, s' := tr[|steps|], tr'[|steps'|];
      var e := s.entries[SlotOf(t, s.ver[t], q)];
      r in s'.readers && s'.readers[r].phase == Done(e.what.answer.page, Some(e))
  {
    var s := tr[|steps|];
    var e := s.entries[SlotOf(t, s.ver[t], q)];
    var d := Reader(t, q, s.clock, Time(s.lastInval, t), VersionOf(s, t), Started);
    var s1 := s.(clock := s.clock + 1, readers := s.readers[r := d]);
    Extend(parse, tr, steps, Start(r, t, q), s1);
    var tr1, steps1 := tr + [s1], steps + [Start(r, t, q)];
    var s2 := s1.(clock := s.clock + 2, readers := Moved(s1, r, VersionRead(s.ver[t])));
    Extend(parse, tr1, steps1, GetVersion(r), s2);
    var tr2, steps2 := tr1 + [s2], steps1 + [GetVersion(r)];
    var s3 := s2.(clock := s.clock + 3, readers := Moved(s2, r, Done(e.what.answer.page, Some(e))));
    Extend(parse, tr2, steps2, Lookup(r), s3);
    tr', steps' := tr2 + [s3], steps2 + [Lookup(r)];
  }

  ghost predicate CommitAt(steps: seq<Step>, t: int, c: int) {
    0 <= c < |steps| && steps[c].Commit? && steps[c].team == t
  }

  ghost predicate CommitBetween(steps: seq<Step>, t: int, from: int, to: int) {
    exists c :: from <= c < to && CommitAt(steps, t, c)
  }

  /** `lastCommit` is the latest commit of the team, and the table is what that commit left. */
  lemma {:induction false} LastCommit(parse: Parser, tr: seq<State>, steps: seq<Step>, n: nat, t: int)
    requires Run(parse, tr, steps) && n < |tr|
    ensures Time(tr[n].lastCommit, t) < n
    ensures Time(tr[n].lastCommit, t) >= 0 ==> CommitAt(steps, t, Time(tr[n].lastCommit, t))
    ensures forall c :: 0 <= c < n && CommitAt(steps, t, c) ==> c <= Time(tr[n].lastCommit, t)
    ensures forall i :: 0 <= i <= n && Time(tr[n].lastCommit, t) < i ==> RowsOf(tr[i], t) == RowsOf(tr[n], t)
  {
    if n > 0 {
      RunKeepsInv(parse, tr, steps, n - 1);
      assert StepAt(parse, tr, steps, n - 1);
      LastCommit(parse, tr, steps, n - 1, t);
      assert TeamOk(tr[n - 1], t);
    }
  }

  /** Every commit of the team has been followed by an invalidation. */
  predicate Settled(s: State, t: int) {
    Time(s.lastCommit, t) <= Time(s.lastInval, t)
  }

  lemma NoWriterPending(parse: Parser, tr: seq<State>, steps: seq<Step>, n: nat, t: int)
    requires Run(parse, tr, steps) && n < |tr|
    requires forall w :: w in tr[n].writers ==> tr[n].writers[w] != t
    ensures Settled(tr[n], t)
  {
    RunKeepsInv(parse, tr, steps, n);
    assert TeamOk(tr[n], t);
  }

  /**
    An entry at the current version of a settled team is older than the last commit if and only if
    a commit fell between the entry's first statement and its second version read.
   */
  lemma StaleExactlyByRace(parse: Parser, tr: seq<State>, steps: seq<Step>, n: nat, k: Slot)
    requires Run(parse, tr, steps) && n < |tr| && Settled(tr[n], k.team)
    requires k in tr[n].entries && k.ver == VersionOf(tr[n], k.team) && tr[n].entries[k].what.keyed
    ensures var e := tr[n].entries[k].what;
      e.answer.countAt <= Time(tr[n].lastCommit, k.team) <==> CommitBetween(steps, k.team, e.answer.countAt, e.verAt)
  {
    RunKeepsInv(parse, tr, steps, n);
    LastCommit(parse, tr, steps, n, k.team);
    EntryAsQueried(parse, tr, steps, n, k);
    assert SlotOk(tr[n], k);
  }

  /** Without such a commit the entry equals the direct query on the current table. */
  lemma CurrentEntriesAgree(parse: Parser, tr: seq<State>, steps: seq<Step>, n: nat, k: Slot)
    requires Run(parse, tr, steps) && n < |tr| && Settled(tr[n], k.team)
    requires k in tr[n].entries && k.ver == VersionOf(tr[n], k.team) && tr[n].entries[k].what.keyed
    requires var e := tr[n].entries[k].what; !CommitBetween(steps, k.team, e.answer.countAt, e.verAt)
    ensures tr[n].entries[k].what.answer.page == Query(RowsOf(tr[n], k.team), FilterOf(parse, tr[n].entries[k].request))
  {
    StaleExactlyByRace(parse, tr, steps, n, k);
    LastCommit(parse, tr, steps, n, k.team);
    EntryAsQueried(parse, tr, steps, n, k);
  }

  // ---------------------------------------------------------------- why the conditions are there

  lemma Extend(parse: Parser, tr: seq<State>, steps: seq<Step>, step: Step, s': State)
    requires Run(parse, tr, steps) && Next(parse, tr[|steps|], step, s')
    ensures Run(parse, tr + [s'], steps + [step])
  {
    var tr', steps' := tr + [s'], steps + [step];
    forall i | 0 <= i < |steps'| ensures StepAt(parse, tr', steps', i) {
      if i < |steps| { assert StepAt(parse, tr, steps, i); }
    }
  }

  /** A request without a cached page has counted an empty team. `lossy` tells whether SET NX failed. */
  function AfterCount(q: Request, lossy: bool): State {
    State(5, map[], if lossy then map[] else map[7 := 1], map[],
          map[1 := Reader(7, q, 0, -1, 1, Counted(0, 4))], map[], map[], map[])
  }

  lemma CanCount(parse: Parser, q: Request, lossy: bool) returns (tr: seq<State>, steps: seq<Step>)
    requires Canonical.Numbered(q) && parse(q).Some?
    ensures Run(parse, tr, steps) && |steps| == 5 && steps[4] == Count(1) && tr[5] == AfterCount(q, lossy)
  {
    var s0 := State(0, map[], map[], map[], map[], map[], map[], map[]);
    var s1 := s0.(clock := 1, readers := map[1 := Reader(7, q, 0, -1, 1, Started)]);
    var s2 := s1.(clock := 2, readers := Moved(s1, 1, VersionAbsent));
    var s3 := s2.(clock := 3, readers := Moved(s2, 1, VersionRead(1)), ver := if lossy then map[] else map[7 := 1]);
    var s4 := s3.(clock := 4, readers := Moved(s3, 1, Missing));
    tr, steps := [s0], [];
    Extend(parse, tr, steps, Start(1, 7, q), s1);
    tr, steps := tr + [s1], steps + [Start(1, 7, q)];
    Extend(parse, tr, steps, GetVersion(1), s2);
    tr, steps := tr + [s2], steps + [GetVersion(1)];
    Extend(parse, tr, steps, SetVersion(1, !lossy), s3);
    tr, steps := tr + [s3], steps + [SetVersion(1, !lossy)];
    Extend(parse, tr, steps, Lookup(1), s4);
    tr, steps := tr + [s4], steps + [Lookup(1)];
    Extend(parse, tr, steps, Count(1), AfterCount(q, lossy));
    tr, steps := tr + [AfterCount(q, lossy)], steps + [Count(1)];
  }

  /** The request of `AfterCount` runs its second statement. */
  lemma CanSelect(parse: Parser, q: Request, tr0: seq<State>, steps0: seq<Step>)
    returns (tr: seq<State>, steps: seq<Step>)
    requires Run(parse, tr0, steps0)
    requires var s := tr0[|steps0|]; 1 in s.readers && s.readers[1] == Reader(7, q, 0, -1, 1, Counted(0, 4))
    ensures Run(parse, tr, steps) && steps == steps0 + [Rows(1)]
    ensures var s := tr0[|steps0|];
      tr[|steps|] == s.(clock := s.clock + 1,
        readers := Moved(s, 1, Queried(Answer(Page(Items(RowsOf(s, 7), FilterOf(parse, q)), 0), 4, s.clock))))
  {
    var s := tr0[|steps0|];
    var s' := s.(clock := s.clock + 1,
      readers := Moved(s, 1, Queried(Answer(Page(Items(RowsOf(s, 7), FilterOf(parse, q)), 0), 4, s.clock))));
    Extend(parse, tr0, steps0, Rows(1), s');
    tr, steps := tr0 + [s'], steps0 + [Rows(1)];
  }

  /** Then it reads the version and stores its page. */
  lemma CanPut(parse: Parser, q: Request, a: Answer, tr0: seq<State>, steps0: seq<Step>)
    returns (tr: seq<State>, steps: seq<Step>)
    requires Run(parse, tr0, steps0)
    requires var s := tr0[|steps0|]; 1 in s.readers && s.readers[1] == Reader(7, q, 0, -1, 1, Queried(a)) && 7 in s.ver
    ensures Run(parse, tr, steps) && steps == steps0 + [ReadVersion(1), Put(1)]
    ensures var s, s' := tr0[|steps0|], tr[|steps|];
      && s'.rows == s.rows && s'.ver == s.ver && s'.writers == s.writers
      && s'.entries == s.entries[SlotOf(7, s.ver[7], q) := Entry(Versioned(a, s.clock, true), s.clock + 1, q)]
  {
    var s := tr0[|steps0|];
    var v := Versioned(a, s.clock, true);
    var s1 := s.(clock := s.clock + 1, readers := Moved(s, 1, StoreRead(v, s.ver[7])));
    var s2 := s1.(clock := s.clock + 2, readers := Moved(s1, 1, Done(a.page, None)),
                  entries := s1.entries[SlotOf(7, s.ver[7], q) := Entry(v, s.clock + 1, q)]);
    Extend(parse, tr0, steps0, ReadVersion(1), s1);
    Extend(parse, tr0 + [s1], steps0 + [ReadVersion(1)], Put(1), s2);
    tr, steps := tr0 + [s1] + [s2], steps0 + [ReadVersion(1)] + [Put(1)];
  }

  /** A commit and its invalidation after the request of `AfterCount` has taken its steps so far. */
  lemma CanWrite(parse: Parser, rows: seq<Row>, tr0: seq<State>, steps0: seq<Step>)
    returns (tr: seq<State>, steps: seq<Step>)
    requires Run(parse, tr0, steps0) && tr0[|steps0|].writers == map[]
    ensures Run(parse, tr, steps) && steps == steps0 + [Commit(1, 7, rows), Invalidate(1)]
    ensures var s := tr0[|steps0|];
      tr[|steps|] == s.(clock := s.clock + 2, rows := s.rows[7 := rows],
        ver := s.ver[7 := if 7 in s.ver then s.ver[7] + 1 else 1],
                        lastCommit := s.lastCommit[7 := s.clock], lastInval := s.lastInval[7 := s.clock + 1])
  {
    var s := tr0[|steps0|];
    var s1 := s.(clock := s.clock + 1, rows := s.rows[7 := rows], writers := map[1 := 7],
      lastCommit := s.lastCommit[7 := s.clock]);
    var s2 := s1.(clock := s.clock + 2, ver := s.ver[7 := if 7 in s.ver then s.ver[7] + 1 else 1],
                  lastInval := s.lastInval[7 := s.clock + 1], writers := map[]);
    Extend(parse, tr0, steps0, Commit(1, 7, rows), s1);
    tr, steps := tr0 + [s1], steps0 + [Commit(1, 7, rows)];
    Extend(parse, tr, steps, Invalidate(1), s2);
    tr, steps := tr + [s2], steps + [Invalidate(1)];
  }

  /**
    Unconditional agreement is false: a write between the query and the second version read leaves
    an outdated page at the current version, with no writer pending and no command failing.
   */
  lemma RaceLeavesStaleEntry(parse: Parser, q: Request, rows: seq<Row>) returns (tr: seq<State>, steps: seq<Step>)
    requires Canonical.Numbered(q) && parse(q).Some?
    ensures Run(parse, tr, steps) && |steps| == 10
    ensures var s := tr[10];
      var k := SlotOf(7, 2, q);
      && s.writers == map[] && k in s.entries && VersionOf(s, 7) == 2 && s.entries[k].what.keyed
      && RowsOf(s, 7) == rows && s.entries[k].what.answer.page == Query([], FilterOf(parse, q))
  {
    tr, steps := CanCount(parse, q, false);
    tr, steps := CanSelect(parse, q, tr, steps);
    tr, steps := CanWrite(parse, rows, tr, steps);
    tr, steps := CanPut(parse, q, Answer(Query([], FilterOf(parse, q)), 4, 5), tr, steps);
  }

  /**
    A write between the two statements leaves a torn page: the total of the old table with the
    items of the new one, although no invalidation falls after the second statement. If the new
    table has rows to show, that page is no table's.
   */
  lemma TornPage(parse: Parser, q: Request, rows: seq<Row>) returns (tr: seq<State>, steps: seq<Step>)
    requires Canonical.Numbered(q) && parse(q).Some?
    ensures Run(parse, tr, steps) && |steps| == 10 && steps[4] == Count(1) && steps[6] == Invalidate(1)
    ensures steps[7] == Rows(1)
    ensures var s := tr[10];
      var k := SlotOf(7, 2, q);
      && s.writers == map[] && k in s.entries && VersionOf(s, 7) == 2 && s.entries[k].what.keyed
      && RowsOf(s, 7) == rows && s.entries[k].what.answer.page == Page(Items(rows, FilterOf(parse, q)), 0)
      && (Items(rows, FilterOf(parse, q)) != [] ==>
        forall rs :: s.entries[k].what.answer.page != Query(rs, FilterOf(parse, q)))
  {
    tr, steps := CanCount(parse, q, false);
    tr, steps := CanWrite(parse, rows, tr, steps);
    tr, steps := CanSelect(parse, q, tr, steps);
    tr, steps := CanPut(parse, q, Answer(Page(Items(rows, FilterOf(parse, q)), 0), 4, 7), tr, steps);
  }

  /**
    When creating the version key fails, readers still fall back to version 1, and the first
    increment of the absent key yields 1 again: the page stored before it stays current.
   */
  lemma LostKeyBreaksBarrier(parse: Parser, q: Request, rows: seq<Row>) returns (tr: seq<State>, steps: seq<Step>)
    requires Canonical.Numbered(q) && parse(q).Some?
    ensures Run(parse, tr, steps) && |steps| == 11 && steps[10] == Invalidate(1)
    ensures var s := tr[11];
      var k := SlotOf(7, 1, q);
      && s.writers == map[] && k in s.entries && VersionOf(s, 7) == 1
      && s.entries[k].storedAt == 8 && RowsOf(s, 7) == rows
        && s.entries[k].what.answer.page == Query([], FilterOf(parse, q))
  {
    tr, steps := CanCount(parse, q, true);
    var s5 := tr[5];
    var a := Answer(Query([], FilterOf(parse, q)), 4, 5);
    var s6 := s5.(clock := 6, readers := Moved(s5, 1, Queried(a)));
    Extend(parse, tr, steps, Rows(1), s6);
    tr, steps := tr + [s6], steps + [Rows(1)];
    var s7 := s6.(clock := 7, readers := Moved(s6, 1, StoreAbsent(a)));
    Extend(parse, tr, steps, ReadVersion(1), s7);
    tr, steps := tr + [s7], steps + [ReadVersion(1)];
    var s8 := s7.(clock := 8, readers := Moved(s7, 1, StoreRead(Versioned(a, 7, false), 1)));
    Extend(parse, tr, steps, SetVersion(1, false), s8);
    tr, steps := tr + [s8], steps + [SetVersion(1, false)];
    var s9 := s8.(clock := 9, readers := Moved(s8, 1, Done(a.page, None)),
      entries := map[SlotOf(7, 1, q) := Entry(Versioned(a, 7, false), 8, q)]);
    Extend(parse, tr, steps, Put(1), s9);
    tr, steps := CanWrite(parse, rows, tr + [s9], steps + [Put(1)]);
  }
}
