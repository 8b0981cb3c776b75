/**
  Tasks and their history under concurrent transactions.

  UpdateTask and DeleteTask run inside a transaction that locks the task row with FOR UPDATE, keeps
  its writes to itself until it commits, and may fail and roll back at any point. CreateTask is three
  unlocked reads and an insert. Invites and team creation run in between. The state below is what
  MySQL holds plus what each running request remembers. A step is one statement, or one statement
  together with computation and writes that nobody outside its transaction can see.
 */
module AuditLog {
  import opened Common
  import opened TaskPatch
  import Teams

  // ---------------------------------------------------------------- tables

  datatype What =
    | FieldChange(field: Field, before: Value, after: Value)
    | TaskDeleted(snapshot: Task)

  /** What the database adds to an inserted row: its id and the time of the statement. */
  datatype Mark = Mark(id: int, at: int)

  /** A row of task_history. */
  datatype HistRow = HistRow(mark: Mark, taskId: int, author: int, what: What)

  function AsRow(mark: Mark, e: Entry): HistRow {
    HistRow(mark, e.taskId, e.changedBy, FieldChange(e.field, e.before, e.after))
  }

  /** The rows that the insert loop has written so far: one mark per inserted entry. */
  function Rows(entries: seq<Entry>, marks: seq<Mark>): (h: seq<HistRow>)
    requires |marks| <= |entries|
    ensures |h| == |marks|
  {
    seq(|marks|, i requires 0 <= i < |marks| => AsRow(marks[i], entries[i]))
  }

  /** ON DELETE CASCADE: the rows that survive the deletion of a task. */
  function Without(h: seq<HistRow>, task: int): (r: seq<HistRow>)
    ensures forall i :: 0 <= i < |r| ==> r[i].taskId != task && r[i] in h
  {
    if h == [] then []
    else
      var last := h[|h| - 1];
      Without(h[..|h| - 1], task) + if last.taskId == task then [] else [last]
  }

  // ---------------------------------------------------------------- requests

  datatype Job = Update(raw: map<string, Json>) | Delete

  datatype Phase =
    | Opened                                     // transaction begun
    | Locked(row: Task)                          // row read FOR UPDATE
    | Cleared(row: Task, role: Role)             // caller's role read
    | Writing(row: Task, role: Role, updates: map<Field, Value>, entries: seq<Entry>, marks: seq<Mark>)
    | Erasing(row: Task, role: Role, mark: Mark) // deletion logged and executed

  datatype Tx = Tx(user: int, task: int, job: Job, phase: Phase)

  datatype CreatePhase = TeamFound | AuthorSeen | AssigneeSeen

  datatype Creation = Creation(user: int, row: Task, phase: CreatePhase)

  datatype CreateInput = CreateInput(
    teamId: int, title: string, description: string, status: string, priority: string,
    assignee: Option<int>, due: Option<Instant>)

  /** `created` remembers each task as it was inserted; nothing in the program reads it. */
  datatype State = State(
    org: Teams.State,
    tasks: map<int, Task>,
    history: seq<HistRow>,
    locks: map<int, int>,             // task -> transaction holding its row lock
    txs: map<int, Tx>,
    creations: map<int, Creation>,
    nextTask: int,
    nextHist: int,
    now: int,                         // clock of the database server, never set back
    created: map<int, Task>)

  datatype Step =
    | Org(step: Teams.Step)
    | BeginCreate(r: int, user: int, input: CreateInput)
    | SeeAuthor(r: int)
    | SeeAssignee(r: int)
    | Insert(r: int)
    | DropCreate(r: int)
    | Begin(x: int, user: int, task: int, job: Job)
    | Lock(x: int)
    | Clear(x: int)
    | Decide(
        x: int, storeFails: bool, parsed: Result<map<Field, Value>>, updates: map<Field, Value>, entries: seq<Entry>)
    | LogOne(x: int, at: int)
    | Erase(x: int, at: int)
    | Commit(x: int)
    | Rollback(x: int)

  /** The row CreateTask inserts, or the error that stops it. */
  function NewRow(user: int, i: CreateInput): (r: Result<Task>)
    ensures r.Ok? <==> (i.status == "" || ValidStatus(i.status)) && (i.priority == "" || ValidPriority(i.priority))
    ensures r.Ok? ==>
      && ValidStatus(r.value.status)
      && (r.value.status == i.status || (i.status == "" && r.value.status == "todo"))
    ensures r.Ok? ==>
      && ValidPriority(r.value.priority)
      && (r.value.priority == i.priority || (i.priority == "" && r.value.priority == "medium"))
    ensures r.Ok? ==> r.value.teamId == i.teamId && r.value.assignee == i.assignee && r.value.createdBy == Some(user)
    ensures r.Ok? ==> r.value.title == i.title && r.value.due == i.due
    ensures r.Ok? ==>
      && (r.value.description.None? <==> Blank(i.description))
      && (r.value.description.Some? ==> r.value.description.value == i.description)
    ensures r.Err? ==> r.error == BadRequest
  {
    var status := if i.status == "" then "todo" else i.status;
    var priority := if i.priority == "" then "medium" else i.priority;
    if !ValidStatus(status) || !ValidPriority(priority) then Err(BadRequest)
    else Ok(Task(0, i.teamId, i.title, if Blank(i.description) then None else Some(i.description),
                 status, priority, i.assignee, Some(user), i.due))
  }

  predicate IsMember(s: State, team: int, user: int) {
    (team, user) in s.org.members
  }

  function TeamUsers(s: State, team: int): set<int> {
    set p | p in s.org.members && p.0 == team :: p.1
  }

  function Moved(s: State, x: int, p: Phase): State
    requires x in s.txs
  {
    s.(txs := s.txs[x := s.txs[x].(phase := p)])
  }

  /** The transaction is over: its lock is gone and nothing it buffered survives. */
  function Ended(s: State, x: int): State
    requires x in s.txs
  {
    s.(txs := s.txs - {x}, locks := if s.txs[x].phase.Opened? then s.locks else s.locks - {s.txs[x].task})
  }

  ghost predicate Init(s: State) {
    && Teams.Init(s.org) && s.tasks == map[] && s.history == [] && s.locks == map[]
    && s.txs == map[] && s.creations == map[] && s.created == map[]
  }

  /** Parse, authorise, diff and execute the UPDATE; the writes stay inside the transaction. */
  ghost predicate DecideStep(
    s: State, x: int, storeFails: bool, parsed: Result<map<Field, Value>>, updates: map<Field, Value>,
    entries: seq<Entry>, s': State)
  {
    && x in s.txs && s.txs[x].phase.Cleared? && s.txs[x].job.Update?
    && var row := s.txs[x].phase.row;
    var role := s.txs[x].phase.role;
    && ParseOutcome(TeamUsers(s, row.teamId), storeFails, s.txs[x].job.raw, parsed)
    && (!Refuses(role, parsed) ==> IsDiff(row, s.txs[x].user, parsed.value, updates, entries))
    && GoesOn(s, x, Refuses(role, parsed), updates, entries, s')
  }

  /** The patch does not parse, or names a field that the role may not write. */
  predicate Refuses(role: Role, parsed: Result<map<Field, Value>>) {
    parsed.Err? || !(parsed.value.Keys <= AllowedFields(role))
  }

  /** A refused or empty update ends the transaction; any other is executed inside it. */
  ghost predicate GoesOn(s: State, x: int, refused: bool, updates: map<Field, Value>, entries: seq<Entry>, s': State)
    requires x in s.txs && s.txs[x].phase.Cleared?
  {
    s' == if refused || updates == map[] then Ended(s, x)
          else Moved(s, x, Writing(s.txs[x].phase.row, s.txs[x].phase.role, updates, entries, []))
  }

  ghost predicate CommitUpdate(s: State, x: int, s': State) {
    && x in s.txs && s.txs[x].phase.Writing?
    && var p := s.txs[x].phase;
    && |p.marks| == |p.entries| && PatchTyped(p.updates)
    && s' == Ended(s, x).(tasks := s.tasks[s.txs[x].task := Apply(p.row, p.updates)],
                          history := s.history + Rows(p.entries, p.marks))
  }

  ghost predicate CommitDelete(s: State, x: int, s': State) {
    && x in s.txs && s.txs[x].phase.Erasing?
    && var t := s.txs[x].task;
    var last := HistRow(s.txs[x].phase.mark, t, s.txs[x].user, TaskDeleted(s.txs[x].phase.row));
    s' == Ended(s, x).(tasks := s.tasks - {t}, history := Without(s.history + [last], t))
  }

  ghost predicate Next(s: State, step: Step, s': State) {
    match step
    case Org(st) =>
      Teams.Next(s.org, st, s'.org) && s' == s.(org := s'.org)
    case BeginCreate(r, user, input) =>
      && r !in s.creations && input.teamId in s.org.teams && NewRow(user, input).Ok?
      && s' == s.(creations := s.creations[r := Creation(user, NewRow(user, input).value, TeamFound)])
    case SeeAuthor(r) =>
      && r in s.creations && s.creations[r].phase.TeamFound?
      && IsMember(s, s.creations[r].row.teamId, s.creations[r].user)
      && s' == s.(creations := s.creations[r := s.creations[r].(phase := AuthorSeen)])
    case SeeAssignee(r) =>
      && r in s.creations && s.creations[r].phase.AuthorSeen?
      && var row := s.creations[r].row;
      && (row.assignee.Some? ==> IsMember(s, row.teamId, row.assignee.value))
      && s' == s.(creations := s.creations[r := s.creations[r].(phase := AssigneeSeen)])
    case Insert(r) =>
      && r in s.creations && s.creations[r].phase.AssigneeSeen?
      && var row := s.creations[r].row.(id := s.nextTask);
      s' == s.(tasks := s.tasks[s.nextTask := row],
               created := s.created[s.nextTask := row],
               nextTask := s.nextTask + 1,
               creations := s.creations - {r})
    case DropCreate(r) =>
      s' == s.(creations := s.creations - {r})
    case Begin(x, user, task, job) =>
      x !in s.txs && s' == s.(txs := s.txs[x := Tx(user, task, job, Opened)])
    case Lock(x) =>
      && x in s.txs && s.txs[x].phase.Opened? && s.txs[x].task in s.tasks && s.txs[x].task !in s.locks
      && s' == Moved(s, x, Locked(s.tasks[s.txs[x].task])).(locks := s.locks[s.txs[x].task := x])
    case Clear(x) =>
      && x in s.txs && s.txs[x].phase.Locked?
      && var row := s.txs[x].phase.row;
      if IsMember(s, row.teamId, s.txs[x].user)
      then s' == Moved(s, x, Cleared(row, s.org.members[(row.teamId, s.txs[x].user)].role))
      else s' == Ended(s, x)
    case Decide(x, storeFails, parsed, updates, entries) =>
      DecideStep(s, x, storeFails, parsed, updates, entries, s')
    case LogOne(x, at) =>
      && s.now <= at && x in s.txs && s.txs[x].phase.Writing? && |s.txs[x].phase.marks| < |s.txs[x].phase.entries|
      && var p := s.txs[x].phase.(marks := s.txs[x].phase.marks + [Mark(s.nextHist, at)]);
      s' == Moved(s, x, p).(nextHist := s.nextHist + 1, now := at)
    case Erase(x, at) =>
      && s.now <= at && x in s.txs && s.txs[x].phase.Cleared? && s.txs[x].job.Delete?
      && var role := s.txs[x].phase.role;
      if role.Owner? || role.Admin?
      then
        var p := Erasing(s.txs[x].phase.row, role, Mark(s.nextHist, at));
        s' == Moved(s, x, p).(nextHist := s.nextHist + 1, now := at)
      else s' == Ended(s, x)
    case Commit(x) =>
      CommitUpdate(s, x, s') || CommitDelete(s, x, s')
    case Rollback(x) =>
      x in s.txs && s' == Ended(s, x)
  }

  ghost predicate Run(tr: seq<State>, steps: seq<Step>) {
    && |tr| == |steps| + 1
    && Init(tr[0])
    && forall i {:trigger StepAt(tr, steps, i)} :: 0 <= i < |steps| ==> StepAt(tr, steps, i)
  }

  ghost predicate StepAt(tr: seq<State>, steps: seq<Step>, i: int)
    requires |tr| == |steps| + 1 && 0 <= i < |steps|
  {
    Next(tr[i], steps[i], tr[i + 1])
  }

  // ---------------------------------------------------------------- reading a history

  /** The (old, new) pairs that a history holds for one column of one task, oldest first. */
  function LogOf(h: seq<HistRow>, task: int, f: Field): seq<(Value, Value)> {
    if h == [] then []
    else
      var last := h[|h| - 1];
      LogOf(h[..|h| - 1], task, f)
      + if last.taskId == task && last.what.FieldChange? && last.what.field == f
        then [(last.what.before, last.what.after)] else []
  }

  /** The pairs lead from `a` to `b`, each starting where the one before it ended. */
  predicate Chain(a: Value, log: seq<(Value, Value)>, b: Value) {
    if log == [] then a == b
    else log[|log| - 1].1 == b && Chain(a, log[..|log| - 1], log[|log| - 1].0)
  }

  lemma {:induction false} ChainMeans(a: Value, log: seq<(Value, Value)>, b: Value)
    requires Chain(a, log, b)
    ensures log == [] ==> a == b
    ensures log != [] ==> log[0].0 == a && log[|log| - 1].1 == b
    ensures forall i :: 0 < i < |log| ==> log[i].0 == log[i - 1].1
  {
    if log != [] {
      var n := |log| - 1;
      ChainMeans(a, log[..n], log[n].0);
      assert forall i :: 0 <= i < n ==> log[..n][i] == log[i];
    }
  }

  lemma {:induction false} LogOfAppend(h: seq<HistRow>, p: seq<HistRow>, task: int, f: Field)
    ensures LogOf(h + p, task, f) == LogOf(h, task, f) + LogOf(p, task, f)
  {
    if p == [] {
      assert h + p == h;
    } else {
      var n := |p| - 1;
      assert (h + p)[..|h + p| - 1] == h + p[..n];
      LogOfAppend(h, p[..n], task, f);
    }
  }

  lemma {:induction false} LogOfOthers(p: seq<HistRow>, task: int, f: Field)
    requires forall i :: 0 <= i < |p| ==> p[i].taskId != task
    ensures LogOf(p, task, f) == []
  {
    if p != [] { LogOfOthers(p[..|p| - 1], task, f); }
  }

  lemma {:induction false} LogOfWithout(h: seq<HistRow>, gone: int, task: int, f: Field)
    requires task != gone
    ensures LogOf(Without(h, gone), task, f) == LogOf(h, task, f)
  {
    if h != [] {
      var n := |h| - 1;
      LogOfWithout(h[..n], gone, task, f);
      var tail := if h[n].taskId == gone then [] else [h[n]];
      LogOfAppend(Without(h[..n], gone), tail, task, f);
      assert Without(h, gone) == Without(h[..n], gone) + tail;
    }
  }

  /** The rows of one transaction: one pair for a column it names, nothing for the others. */
  lemma {:induction false} LogOfRows(
    task: Task, user: int, updates: map<Field, Value>, entries: seq<Entry>, marks: seq<Mark>, f: Field)
    requires |marks| == |entries| && Distinct(entries) && FieldsOf(entries) <= updates.Keys
    requires forall i :: 0 <= i < |entries| ==>
      entries[i] == EntryFor(task, user, entries[i].field, updates[entries[i].field])
    ensures f !in FieldsOf(entries) ==> LogOf(Rows(entries, marks), task.id, f) == []
    ensures f in FieldsOf(entries) ==>
      LogOf(Rows(entries, marks), task.id, f) == [(Logged(Column(task, f)), Logged(updates[f]))]
    decreases |entries|
  {
    if entries != [] {
      var n := |entries| - 1;
      LogOfRows(task, user, updates, entries[..n], marks[..n], f);
      assert Rows(entries, marks)[..n] == Rows(entries[..n], marks[..n]);
      assert Rows(entries, marks)[n] == AsRow(marks[n], entries[n]);
      if f == entries[n].field && f in FieldsOf(entries[..n]) {
        var i := EntryOf(entries[..n], f);
        assert false;
      }
    }
  }

  /** Replaying the history of a task on a row. */
  function Replay(row: Task, h: seq<HistRow>, task: int): Task {
    if h == [] then row
    else
      var last := h[|h| - 1];
      var r := Replay(row, h[..|h| - 1], task);
      if last.taskId == task && last.what.FieldChange? && Typed(last.what.field, last.what.after)
      then SetColumn(r, last.what.field, last.what.after) else r
  }

  lemma {:induction false} ReplayColumn(row: Task, h: seq<HistRow>, task: int, f: Field)
    requires forall i :: 0 <= i < |h| ==> Shown(h[i])
    ensures var r := Replay(row, h, task);
      var log := LogOf(h, task, f);
      && r.id == row.id && r.teamId == row.teamId && r.createdBy == row.createdBy
      && Logged(Column(r, f)) == if log == [] then Logged(Column(row, f)) else log[|log| - 1].1
  {
    if h != [] {
      ReplayColumn(row, h[..|h| - 1], task, f);
      assert Shown(h[|h| - 1]);
    }
  }

  /** A row as the history of a live task may hold it. */
  ghost predicate Shown(r: HistRow) {
    r.what.FieldChange? && Typed(r.what.field, r.what.after) && !r.what.after.Time?
  }

  // ---------------------------------------------------------------- the invariant

  ghost predicate RowOk(s: State, t: int)
    requires t in s.tasks
  {
    var row := s.tasks[t];
    && row.id == t && t < s.nextTask
    && t in s.created && s.created[t].id == t && s.created[t].teamId == row.teamId
      && s.created[t].createdBy == row.createdBy
    && (row.assignee.Some? ==> IsMember(s, row.teamId, row.assignee.value))
  }

  ghost predicate Chained(s: State, t: int, f: Field)
    requires t in s.tasks && t in s.created
  {
    Chain(Logged(Column(s.created[t], f)), LogOf(s.history, t, f), Logged(Column(s.tasks[t], f)))
  }

  /** A history row belongs to a live task and its author was allowed to write it. */
  ghost predicate LineOk(s: State, i: int)
    requires 0 <= i < |s.history|
  {
    var r := s.history[i];
    && Shown(r) && r.mark.id < s.nextHist && r.mark.at <= s.now && r.taskId in s.tasks
    && (s.tasks[r.taskId].teamId, r.author) in s.org.members
    && r.what.field in AllowedFields(s.org.members[(s.tasks[r.taskId].teamId, r.author)].role)
  }

  predicate Before(a: Mark, b: Mark) {
    a.id < b.id && a.at <= b.at
  }

  /** Commit order agrees with ids and times on the rows of each task. */
  ghost predicate Ordered(h: seq<HistRow>) {
    forall i, j :: 0 <= i < j < |h| && h[i].taskId == h[j].taskId ==> Before(h[i].mark, h[j].mark)
  }

  ghost predicate LockOk(s: State, t: int)
    requires t in s.locks
  {
    s.locks[t] in s.txs && s.txs[s.locks[t]].task == t && !s.txs[s.locks[t]].phase.Opened?
  }

  ghost predicate WritesOk(s: State, user: int, p: Phase)
    requires p.Writing?
  {
    && PatchTyped(p.updates) && OneEntryPerUpdate(p.row, user, p.updates, p.entries)
    && p.updates.Keys <= AllowedFields(p.role)
    && (AssigneeId in p.updates && p.updates[AssigneeId].Number? ==> IsMember(s, p.row.teamId, p.updates[AssigneeId].n))
  }

  /** The patch names only fields that the role may write. */
  ghost predicate KeysAllowed(raw: map<string, Json>, role: Role) {
    forall k :: k in raw ==> FieldOf(k).Some? && FieldOf(k).value in AllowedFields(role)
  }

  /** The patch is one that the role may send, and the update executed for it carries its values. */
  ghost predicate PatchOk(raw: map<string, Json>, p: Phase)
    requires p.Writing?
  {
    && KeysAllowed(raw, p.role) && MayPatch(p.role, raw)
    && PatchTyped(p.updates) && Carries(raw, p.row, Apply(p.row, p.updates))
  }

  /** Marks handed to a transaction are newer than every committed row of its task. */
  ghost predicate MarksOk(s: State, p: Phase)
    requires p.Writing?
  {
    && |p.marks| <= |p.entries|
    && (forall i :: 0 <= i < |p.marks| ==> p.marks[i].id < s.nextHist && p.marks[i].at <= s.now)
    && (forall i, j :: 0 <= i < j < |p.marks| ==> Before(p.marks[i], p.marks[j]))
    && (forall k, i :: 0 <= k < |s.history| && s.history[k].taskId == p.row.id && 0 <= i < |p.marks| ==>
      Before(s.history[k].mark, p.marks[i]))
  }

  ghost predicate TxOk(s: State, x: int)
    requires x in s.txs
  {
    var tx := s.txs[x];
    !tx.phase.Opened? ==>
      && tx.task in s.locks && s.locks[tx.task] == x && tx.task in s.tasks && s.tasks[tx.task] == tx.phase.row
      && (!tx.phase.Locked? ==>
            && (tx.phase.row.teamId, tx.user) in s.org.members
            && s.org.members[(tx.phase.row.teamId, tx.user)].role == tx.phase.role)
      && (tx.phase.Writing? ==>
            && WritesOk(s, tx.user, tx.phase) && MarksOk(s, tx.phase)
            && tx.job.Update? && PatchOk(tx.job.raw, tx.phase))
      && (tx.phase.Erasing? ==> tx.job.Delete? && (tx.phase.role.Owner? || tx.phase.role.Admin?))
  }

  ghost predicate CreationOk(s: State, r: int)
    requires r in s.creations
  {
    var c := s.creations[r];
    && c.row.createdBy == Some(c.user)
    && (c.phase.AssigneeSeen? && c.row.assignee.Some? ==> IsMember(s, c.row.teamId, c.row.assignee.value))
  }

  ghost predicate RequestsInv(s: State) {
    && (forall t {:trigger LockOk(s, t)} :: t in s.locks ==> LockOk(s, t))
    && (forall x {:trigger TxOk(s, x)} :: x in s.txs ==> TxOk(s, x))
    && (forall r {:trigger CreationOk(s, r)} :: r in s.creations ==> CreationOk(s, r))
  }

  ghost predicate TablesInv(s: State) {
    && (forall t {:trigger RowOk(s, t)} :: t in s.tasks ==> RowOk(s, t))
    && (forall t, f {:trigger Chained(s, t, f)} :: t in s.tasks && t in s.created ==> Chained(s, t, f))
    && (forall i {:trigger LineOk(s, i)} :: 0 <= i < |s.history| ==> LineOk(s, i))
    && Ordered(s.history)
  }

  ghost predicate Inv(s: State) {
    Teams.TeamsInv(s.org) && TablesInv(s) && RequestsInv(s)
  }

  // ---------------------------------------------------------------- frames

  /** The tables did not change, the team tables may have grown. */
  ghost predicate SameTables(s: State, s': State) {
    && s'.tasks == s.tasks && s'.history == s.history && s'.created == s.created && s'.nextTask == s.nextTask
    && s.nextHist <= s'.nextHist && s.now <= s'.now
    && Teams.Grows(s.org.members, s'.org.members)
  }

  lemma SameTablesKeep(s: State, s': State)
    requires TablesInv(s) && SameTables(s, s')
    ensures TablesInv(s')
  {
    forall t | t in s'.tasks ensures RowOk(s', t) { assert RowOk(s, t); }
    forall t, f | t in s'.tasks && t in s'.created ensures Chained(s', t, f) { assert Chained(s, t, f); }
    forall i | 0 <= i < |s'.history| ensures LineOk(s', i) { assert LineOk(s, i); }
  }

  /** What a step must leave alone for a transaction that it does not run. */
  ghost predicate Untouched(s: State, s': State, x: int) {
    && x in s.txs && x in s'.txs && s'.txs[x] == s.txs[x]
    && var t := s.txs[x].task;
    !s.txs[x].phase.Opened? ==>
      && t in s.locks && t in s'.locks && s'.locks[t] == s.locks[t]
      && t in s.tasks && t in s'.tasks && s'.tasks[t] == s.tasks[t]
      && forall k :: 0 <= k < |s'.history| && s'.history[k].taskId == t ==> s'.history[k] in s.history
  }

  lemma TxStays(s: State, s': State, x: int)
    requires Untouched(s, s', x) && TxOk(s, x)
    requires Teams.Grows(s.org.members, s'.org.members) && s.nextHist <= s'.nextHist && s.now <= s'.now
    requires s.txs[x].phase.Writing? ==> s.txs[x].phase.row.id == s.txs[x].task
    ensures TxOk(s', x)
  {
  }

  /** A step that only touches the transaction `x`, its lock and the id counter. */
  ghost predicate OnlyTx(s: State, s': State, x: int) {
    && SameTables(s, s') && s'.org == s.org && s'.creations == s.creations
    && (forall y :: y != x ==> (y in s'.txs <==> y in s.txs) && (y in s.txs ==> s'.txs[y] == s.txs[y]))
    && (forall t :: t in s.locks && s.locks[t] != x ==> t in s'.locks && s'.locks[t] == s.locks[t])
    && (forall t :: t in s'.locks && s'.locks[t] != x ==> t in s.locks && s.locks[t] == s'.locks[t])
  }

  lemma OnlyTxKeeps(s: State, s': State, x: int)
    requires Inv(s) && OnlyTx(s, s', x)
    requires x in s'.txs ==> TxOk(s', x)
    requires forall t :: t in s'.locks && s'.locks[t] == x ==> LockOk(s', t)
    ensures Inv(s')
  {
    SameTablesKeep(s, s');
    forall t | t in s'.locks ensures LockOk(s', t) {
      if s'.locks[t] != x { assert LockOk(s, t); }
    }
    forall y | y in s'.txs ensures TxOk(s', y) {
      if y != x {
        assert TxOk(s, y);
        if s.txs[y].task in s.tasks { assert RowOk(s, s.txs[y].task); }
        TxStays(s, s', y);
      }
    }
    forall r | r in s'.creations ensures CreationOk(s', r) { assert CreationOk(s, r); }
  }

  // ---------------------------------------------------------------- each step keeps the invariant

  lemma EndKeeps(s: State, x: int)
    requires Inv(s) && x in s.txs
    ensures Inv(Ended(s, x))
  {
    assert TxOk(s, x);
    var s' := Ended(s, x);
    forall t | t in s.locks && s.locks[t] == x ensures t !in s'.locks { assert LockOk(s, t); }
    OnlyTxKeeps(s, s', x);
  }

  lemma LockKeeps(s: State, x: int, s': State)
    requires Inv(s) && Next(s, Lock(x), s')
    ensures Inv(s')
  {
    assert TxOk(s', x);
    forall t | t in s.locks ensures s.locks[t] != x { assert LockOk(s, t); }
    OnlyTxKeeps(s, s', x);
  }

  lemma MoveKeeps(s: State, x: int, p: Phase, s': State)
    requires Inv(s) && x in s.txs && !s.txs[x].phase.Opened? && !p.Opened? && p.row == s.txs[x].phase.row
    requires s.nextHist <= s'.nextHist && s.now <= s'.now
    requires s' == Moved(s, x, p).(nextHist := s'.nextHist, now := s'.now)
    requires !p.Locked? ==>
      && (p.row.teamId, s.txs[x].user) in s.org.members
      && s.org.members[(p.row.teamId, s.txs[x].user)].role == p.role
    requires p.Writing? ==>
      && WritesOk(s', s.txs[x].user, p) && MarksOk(s', p)
      && s.txs[x].job.Update? && PatchOk(s.txs[x].job.raw, p)
    requires p.Erasing? ==> s.txs[x].job.Delete? && (p.role.Owner? || p.role.Admin?)
    ensures Inv(s')
  {
    assert TxOk(s, x);
    assert TxOk(s', x);
    forall t | t in s'.locks && s'.locks[t] == x ensures LockOk(s', t) { assert LockOk(s, t); }
    OnlyTxKeeps(s, s', x);
  }

  /** What parsing and diffing guarantee about the columns to be written. */
  lemma DecidedUpdates(
    users: set<int>, storeFails: bool, raw: map<string, Json>, patch: map<Field, Value>, row: Task, user: int,
    updates: map<Field, Value>, entries: seq<Entry>)
    requires ParseOutcome(users, storeFails, raw, Ok(patch)) && IsDiff(row, user, patch, updates, entries)
    ensures PatchTyped(updates) && updates.Keys <= patch.Keys
    ensures AssigneeId in updates && updates[AssigneeId].Number? ==> updates[AssigneeId].n in users
  {
    forall f | f in updates ensures Typed(f, updates[f]) && !updates[f].Date? {
      ParsedIsLegal(users, storeFails, raw, patch, f);
    }
    if AssigneeId in updates {
      ParsedIsLegal(users, storeFails, raw, patch, AssigneeId);
    }
  }

  /** A patch that is not refused is one the role may send, and its update carries its values. */
  lemma DecidedPatch(
    users: set<int>, storeFails: bool, raw: map<string, Json>, patch: map<Field, Value>, row: Task, user: int,
    role: Role, updates: map<Field, Value>, entries: seq<Entry>)
    requires ParseOutcome(users, storeFails, raw, Ok(patch)) && patch.Keys <= AllowedFields(role)
    requires IsDiff(row, user, patch, updates, entries)
    ensures MayPatch(role, raw) && PatchTyped(updates) && Carries(raw, row, Apply(row, updates))
  {
    OutcomeIsAccepted(users, storeFails, raw, Ok(patch));
    AllowedMeans(users, raw, patch, role);
    PatchIsCarried(raw, row, user, patch, updates, entries);
  }

  lemma DecideKeeps(
    s: State, x: int, storeFails: bool, parsed: Result<map<Field, Value>>, updates: map<Field, Value>,
    entries: seq<Entry>, s': State)
    requires Inv(s) && DecideStep(s, x, storeFails, parsed, updates, entries, s')
    ensures Inv(s')
  {
    var row, role := s.txs[x].phase.row, s.txs[x].phase.role;
    if Refuses(role, parsed) || updates == map[] {
      EndKeeps(s, x);
    } else {
      assert TxOk(s, x);
      forall k | k in s.txs[x].job.raw
        ensures FieldOf(k).Some? && FieldOf(k).value in AllowedFields(role)
      {
        NameIsUnique(k);
      }
      DecidedUpdates(TeamUsers(s, row.teamId), storeFails, s.txs[x].job.raw, parsed.value, row, s.txs[x].user,
        updates, entries);
      DecidedPatch(TeamUsers(s, row.teamId), storeFails, s.txs[x].job.raw, parsed.value, row, s.txs[x].user, role,
        updates, entries);
      MoveKeeps(s, x, Writing(row, role, updates, entries, []), s');
    }
  }

  lemma NewMarkIsOk(s: State, p: Phase, mark: Mark, s': State)
    requires p.Writing? && MarksOk(s, p) && |p.marks| < |p.entries|
    requires forall k :: 0 <= k < |s.history| ==> Before(s.history[k].mark, mark)
    requires mark.id == s.nextHist < s'.nextHist && s.now <= mark.at <= s'.now && s'.history == s.history
    ensures MarksOk(s', p.(marks := p.marks + [mark]))
  {
  }

  lemma LogOneKeeps(s: State, x: int, at: int, s': State)
    requires Inv(s) && Next(s, LogOne(x, at), s')
    ensures Inv(s')
  {
    assert TxOk(s, x);
    var p := s.txs[x].phase;
    var p' := p.(marks := p.marks + [Mark(s.nextHist, at)]);
    forall k | 0 <= k < |s.history| ensures Before(s.history[k].mark, Mark(s.nextHist, at)) { assert LineOk(s, k); }
    NewMarkIsOk(s, p, Mark(s.nextHist, at), s');
    MoveKeeps(s, x, p', s');
  }

  lemma OrgKeeps(s: State, st: Teams.Step, s': State)
    requires Inv(s) && Next(s, Org(st), s')
    ensures Inv(s')
  {
    Teams.NextGrows(s.org, st, s'.org);
    SameTablesKeep(s, s');
    forall t | t in s'.locks ensures LockOk(s', t) { assert LockOk(s, t); }
    forall y | y in s'.txs ensures TxOk(s', y) {
      assert TxOk(s, y);
      if s.txs[y].task in s.tasks { assert RowOk(s, s.txs[y].task); }
      TxStays(s, s', y);
    }
    forall r | r in s'.creations ensures CreationOk(s', r) { assert CreationOk(s, r); }
  }

  /** The steps of CreateTask before its insert. */
  lemma CreationKeeps(s: State, step: Step, s': State)
    requires Inv(s) && Next(s, step, s')
    requires step.BeginCreate? || step.SeeAuthor? || step.SeeAssignee? || step.DropCreate?
    ensures Inv(s')
  {
    SameTablesKeep(s, s');
    forall t | t in s'.locks ensures LockOk(s', t) { assert LockOk(s, t); }
    forall y | y in s'.txs ensures TxOk(s', y) {
      assert TxOk(s, y);
      if s.txs[y].task in s.tasks { assert RowOk(s, s.txs[y].task); }
      TxStays(s, s', y);
    }
    forall r | r in s'.creations ensures CreationOk(s', r) {
      if r in s.creations { assert CreationOk(s, r); }
    }
  }

  lemma InsertKeeps(s: State, r: int, s': State)
    requires Inv(s) && Next(s, Insert(r), s')
    ensures Inv(s')
  {
    var fresh_ := s.nextTask;
    assert CreationOk(s, r);
    forall t | t in s.tasks ensures t < fresh_ { assert RowOk(s, t); }
    forall i | 0 <= i < |s.history| ensures s.history[i].taskId != fresh_ && LineOk(s', i) {
      assert LineOk(s, i);
    }
    forall t | t in s'.tasks ensures RowOk(s', t) {
      if t != fresh_ { assert RowOk(s, t); }
    }
    forall t, f | t in s'.tasks && t in s'.created ensures Chained(s', t, f) {
      if t == fresh_ {
        LogOfOthers(s.history, fresh_, f);
      } else {
        assert RowOk(s, t);
        assert Chained(s, t, f);
      }
    }
    forall t | t in s'.locks ensures LockOk(s', t) { assert LockOk(s, t); }
    forall y | y in s'.txs ensures TxOk(s', y) {
      assert TxOk(s, y);
      if s.txs[y].task in s.tasks { assert RowOk(s, s.txs[y].task); }
      TxStays(s, s', y);
    }
    forall q | q in s'.creations ensures CreationOk(s', q) { assert CreationOk(s, q); }
  }

  /** The requests that survive the commit of `x`. */
  lemma CommitKeepsRequests(s: State, x: int, s': State)
    requires Inv(s) && (CommitUpdate(s, x, s') || CommitDelete(s, x, s'))
    requires forall k :: 0 <= k < |s'.history| && s'.history[k].taskId != s.txs[x].task ==> s'.history[k] in s.history
    ensures RequestsInv(s')
  {
    assert TxOk(s, x);
    forall t | t in s'.locks ensures LockOk(s', t) {
      assert LockOk(s, t);
    }
    forall y | y in s'.txs ensures TxOk(s', y) {
      assert TxOk(s, y);
      if s.txs[y].task in s.tasks { assert RowOk(s, s.txs[y].task); }
      assert Untouched(s, s', y);
      TxStays(s, s', y);
    }
    forall r | r in s'.creations ensures CreationOk(s', r) { assert CreationOk(s, r); }
  }

  /** One more link, or none, takes a chain from the old row to the updated one. */
  lemma ChainGrows(
    a: Value, log: seq<(Value, Value)>, row: Task, updates: map<Field, Value>, f: Field,
    more: seq<(Value, Value)>)
    requires PatchTyped(updates) && Chain(a, log, Logged(Column(row, f)))
    requires more == if f in updates then [(Logged(Column(row, f)), Logged(updates[f]))] else []
    ensures Chain(a, log + more, Logged(Column(Apply(row, updates), f)))
  {
    if f in updates {
      assert (log + more)[..|log|] == log;
    } else {
      assert log + more == log;
    }
  }

  lemma CommitUpdateChains(s: State, x: int, s': State, t: int, f: Field)
    requires CommitUpdate(s, x, s') && TxOk(s, x) && RowOk(s, s.txs[x].task)
    requires t in s.tasks && t in s.created && Chained(s, t, f)
    ensures Chained(s', t, f)
  {
    var p := s.txs[x].phase;
    var rows := Rows(p.entries, p.marks);
    LogOfAppend(s.history, rows, t, f);
    if t == s.txs[x].task {
      LogOfRows(p.row, s.txs[x].user, p.updates, p.entries, p.marks, f);
      ChainGrows(Logged(Column(s.created[t], f)), LogOf(s.history, t, f), p.row, p.updates, f, LogOf(rows, t, f));
    } else {
      forall i | 0 <= i < |rows| ensures rows[i].taskId != t { assert p.entries[i].taskId == p.row.id; }
      LogOfOthers(rows, t, f);
      assert LogOf(s.history, t, f) + [] == LogOf(s.history, t, f);
    }
  }

  /** Each row that a transaction is about to commit is one its author may write. */
  lemma PendingRow(s: State, user: int, p: Phase, i: nat)
    requires p.Writing? && WritesOk(s, user, p) && MarksOk(s, p) && i < |p.marks|
    ensures var r := Rows(p.entries, p.marks)[i];
      && Shown(r) && r.mark == p.marks[i] && r.taskId == p.row.id && r.author == user
      && r.what.field in AllowedFields(p.role)
  {
    var e := p.entries[i];
    assert e.field in FieldsOf(p.entries);
    assert e == EntryFor(p.row, user, e.field, p.updates[e.field]);
  }

  lemma CommitUpdateLines(s: State, x: int, s': State, i: int)
    requires Inv(s) && CommitUpdate(s, x, s') && 0 <= i < |s'.history|
    ensures LineOk(s', i)
  {
    assert TxOk(s, x);
    assert RowOk(s, s.txs[x].task);
    if i < |s.history| {
      assert LineOk(s, i);
    } else {
      PendingRow(s, s.txs[x].user, s.txs[x].phase, i - |s.history|);
    }
  }

  lemma CommitUpdateOrder(s: State, x: int, s': State)
    requires Inv(s) && CommitUpdate(s, x, s')
    ensures Ordered(s'.history)
  {
    assert TxOk(s, x);
    assert RowOk(s, s.txs[x].task);
    var p := s.txs[x].phase;
    var rows := Rows(p.entries, p.marks);
    forall i | 0 <= i < |rows| ensures rows[i].mark == p.marks[i] && rows[i].taskId == p.row.id {
      PendingRow(s, s.txs[x].user, p, i);
    }
  }

  lemma CommitUpdateRow(s: State, x: int, s': State, t: int)
    requires Inv(s) && CommitUpdate(s, x, s') && t in s'.tasks
    ensures RowOk(s', t)
  {
    assert TxOk(s, x);
    assert RowOk(s, t);
    var p := s.txs[x].phase;
    assert Column(s'.tasks[s.txs[x].task], AssigneeId)
        == if AssigneeId in p.updates then p.updates[AssigneeId] else Column(p.row, AssigneeId);
  }

  lemma CommitUpdateKeeps(s: State, x: int, s': State)
    requires Inv(s) && CommitUpdate(s, x, s')
    ensures Inv(s')
  {
    assert TxOk(s, x);
    forall k | 0 <= k < |s'.history| && s'.history[k].taskId != s.txs[x].task ensures s'.history[k] in s.history {
      if k >= |s.history| {
        assert RowOk(s, s.txs[x].task);
        PendingRow(s, s.txs[x].user, s.txs[x].phase, k - |s.history|);
        assert false;
      }
    }
    CommitKeepsRequests(s, x, s');
    forall t | t in s'.tasks ensures RowOk(s', t) { CommitUpdateRow(s, x, s', t); }
    forall t, f | t in s'.tasks && t in s'.created ensures Chained(s', t, f) {
      assert RowOk(s, s.txs[x].task) && Chained(s, t, f);
      CommitUpdateChains(s, x, s', t, f);
    }
    forall i | 0 <= i < |s'.history| ensures LineOk(s', i) { CommitUpdateLines(s, x, s', i); }
    CommitUpdateOrder(s, x, s');
  }

  lemma {:induction false} WithoutKeepsOrder(h: seq<HistRow>, task: int)
    requires Ordered(h)
    ensures Ordered(Without(h, task))
  {
    if h != [] {
      var n := |h| - 1;
      WithoutKeepsOrder(h[..n], task);
      var w := Without(h[..n], task);
      forall i | 0 <= i < |w| && w[i].taskId == h[n].taskId ensures Before(w[i].mark, h[n].mark) {
        var k :| 0 <= k < n && h[..n][k] == w[i];
      }
    }
  }

  /** The cascade takes the deletion record with it. */
  lemma DeletionCascades(s: State, x: int, s': State)
    requires CommitDelete(s, x, s')
    ensures s'.history == Without(s.history, s.txs[x].task)
  {
    var t := s.txs[x].task;
    var last := HistRow(s.txs[x].phase.mark, t, s.txs[x].user, TaskDeleted(s.txs[x].phase.row));
    assert (s.history + [last])[..|s.history|] == s.history;
  }

  lemma CommitDeleteKeeps(s: State, x: int, s': State)
    requires Inv(s) && CommitDelete(s, x, s')
    ensures Inv(s')
  {
    assert TxOk(s, x);
    var task := s.txs[x].task;
    DeletionCascades(s, x, s');
    CommitKeepsRequests(s, x, s');
    forall t | t in s'.tasks ensures RowOk(s', t) { assert RowOk(s, t); }
    forall t, f | t in s'.tasks && t in s'.created ensures Chained(s', t, f) {
      assert Chained(s, t, f);
      LogOfWithout(s.history, task, t, f);
    }
    forall i | 0 <= i < |s'.history| ensures LineOk(s', i) {
      var k :| 0 <= k < |s.history| && s.history[k] == s'.history[i];
      assert LineOk(s, k);
    }
    WithoutKeepsOrder(s.history, task);
  }

  lemma NextKeepsInv(s: State, step: Step, s': State)
    requires Inv(s) && Next(s, step, s')
    ensures Inv(s')
  {
    match step {
      case Org(st) => OrgKeeps(s, st, s');
      case BeginCreate(_, _, _) => CreationKeeps(s, step, s');
      case SeeAuthor(_) => CreationKeeps(s, step, s');
      case SeeAssignee(_) => CreationKeeps(s, step, s');
      case Insert(r) => InsertKeeps(s, r, s');
      case DropCreate(_) => CreationKeeps(s, step, s');
      case Begin(x, _, _, _) =>
        assert TxOk(s', x);
        forall t | t in s.locks ensures s.locks[t] != x { assert LockOk(s, t); }
        OnlyTxKeeps(s, s', x);
      case Lock(x) => LockKeeps(s, x, s');
      case Clear(x) =>
        var row := s.txs[x].phase.row;
        if IsMember(s, row.teamId, s.txs[x].user) {
          MoveKeeps(s, x, Cleared(row, s.org.members[(row.teamId, s.txs[x].user)].role), s');
        } else {
          EndKeeps(s, x);
        }
      case Decide(x, storeFails, parsed, updates, entries) =>
        DecideKeeps(s, x, storeFails, parsed, updates, entries, s');
      case LogOne(x, at) => LogOneKeeps(s, x, at, s');
      case Erase(x, at) =>
        assert TxOk(s, x);
        if s.txs[x].phase.role.Owner? || s.txs[x].phase.role.Admin? {
          MoveKeeps(s, x, Erasing(s.txs[x].phase.row, s.txs[x].phase.role, Mark(s.nextHist, at)), s');
        } else {
          EndKeeps(s, x);
        }
      case Commit(x) =>
        if CommitUpdate(s, x, s') { CommitUpdateKeeps(s, x, s'); } else { CommitDeleteKeeps(s, x, s'); }
      case Rollback(x) => EndKeeps(s, x);
    }
  }

  lemma {:induction false} RunKeepsInv(tr: seq<State>, steps: seq<Step>, n: nat)
    requires Run(tr, steps) && n < |tr|
    ensures Inv(tr[n])
  {
    if n > 0 {
      RunKeepsInv(tr, steps, n - 1);
      assert StepAt(tr, steps, n - 1);
      NextKeepsInv(tr[n - 1], steps[n - 1], tr[n]);
    }
  }

  // ---------------------------------------------------------------- what every run guarantees

  /**
    For each column of a live task the history is a chain from the value at creation to the
    current one, whatever transactions ran, failed or rolled back in between.
   */
  lemma HistoryIsAChain(tr: seq<State>, steps: seq<Step>, n: nat, t: int, f: Field)
    requires Run(tr, steps) && n < |tr| && t in tr[n].tasks
    ensures t in tr[n].created
    ensures var s := tr[n];
      var log := LogOf(s.history, t, f);
      && (log == [] ==> Logged(Column(s.tasks[t], f)) == Logged(Column(s.created[t], f)))
      && (log != [] ==>
            && log[0].0 == Logged(Column(s.created[t], f))
            && log[|log| - 1].1 == Logged(Column(s.tasks[t], f)))
      && (forall i :: 0 < i < |log| ==> log[i].0 == log[i - 1].1)
  {
    RunKeepsInv(tr, steps, n);
    var s := tr[n];
    assert RowOk(s, t);
    assert Chained(s, t, f);
    ChainMeans(Logged(Column(s.created[t], f)), LogOf(s.history, t, f), Logged(Column(s.tasks[t], f)));
  }

  lemma ReplayedColumn(tr: seq<State>, steps: seq<Step>, n: nat, t: int, f: Field)
    requires Run(tr, steps) && n < |tr| && t in tr[n].tasks && t in tr[n].created
    ensures var s := tr[n];
      var r := Replay(s.created[t], s.history, t);
      && r.id == s.created[t].id && r.teamId == s.created[t].teamId && r.createdBy == s.created[t].createdBy
      && Logged(Column(r, f)) == Logged(Column(s.tasks[t], f))
  {
    RunKeepsInv(tr, steps, n);
    HistoryIsAChain(tr, steps, n, t, f);
    forall i | 0 <= i < |tr[n].history| ensures Shown(tr[n].history[i]) { assert LineOk(tr[n], i); }
    ReplayColumn(tr[n].created[t], tr[n].history, t, f);
  }

  /** Replaying a live task's history on the row it was created with yields its current row. */
  lemma ReplayYieldsRow(tr: seq<State>, steps: seq<Step>, n: nat, t: int)
    requires Run(tr, steps) && n < |tr| && t in tr[n].tasks
    ensures t in tr[n].created && SameAtDates(Replay(tr[n].created[t], tr[n].history, t), tr[n].tasks[t])
  {
    RunKeepsInv(tr, steps, n);
    assert RowOk(tr[n], t);
    var r := Replay(tr[n].created[t], tr[n].history, t);
    forall f ensures Logged(Column(r, f)) == Logged(Column(tr[n].tasks[t], f)) {
      ReplayedColumn(tr, steps, n, t, f);
    }
    ReplayedColumn(tr, steps, n, t, Title);
    SameWhenColumnsAgree(r, tr[n].tasks[t]);
  }

  /** ORDER BY created_at DESC, id DESC */
  predicate ListedFirst(a: HistRow, b: HistRow) {
    a.mark.at > b.mark.at || (a.mark.at == b.mark.at && a.mark.id > b.mark.id)
  }

  /**
    ListByTask shows the rows of a task in the order they were committed, latest first, and no
    deletion record is ever visible: the cascade takes it away in the transaction that wrote it.
   */
  lemma HistoryOrder(tr: seq<State>, steps: seq<Step>, n: nat)
    requires Run(tr, steps) && n < |tr|
    ensures var h := tr[n].history;
      forall i, j :: 0 <= i < j < |h| && h[i].taskId == h[j].taskId ==>
        ListedFirst(h[j], h[i]) && h[i].mark.id < h[j].mark.id
    ensures forall i :: 0 <= i < |tr[n].history| ==>
      tr[n].history[i].taskId in tr[n].tasks && tr[n].history[i].what.FieldChange?
  {
    RunKeepsInv(tr, steps, n);
    forall i | 0 <= i < |tr[n].history|
      ensures tr[n].history[i].taskId in tr[n].tasks && tr[n].history[i].what.FieldChange?
    {
      assert LineOk(tr[n], i);
    }
  }

  /** The integrity query: tasks whose assignee is not a member of the task's team. */
  function IntegrityIssues(s: State): set<int> {
    set t | t in s.tasks && s.tasks[t].assignee.Some?
      && (s.tasks[t].teamId, s.tasks[t].assignee.value) !in s.org.members
  }

  /** Although membership is checked without a lock, the integrity query always returns nothing. */
  lemma NoIntegrityIssues(tr: seq<State>, steps: seq<Step>, n: nat)
    requires Run(tr, steps) && n < |tr|
    ensures IntegrityIssues(tr[n]) == {}
  {
    RunKeepsInv(tr, steps, n);
    forall t | t in tr[n].tasks ensures t !in IntegrityIssues(tr[n]) { assert RowOk(tr[n], t); }
  }

  /** A user whose role is member only ever authors history rows about status or assignee. */
  lemma MembersStayInScope(tr: seq<State>, steps: seq<Step>, n: nat, i: nat)
    requires Run(tr, steps) && n < |tr| && i < |tr[n].history|
    ensures var s := tr[n];
      var r := s.history[i];
      && r.taskId in s.tasks && r.what.FieldChange?
      && (s.tasks[r.taskId].teamId, r.author) in s.org.members
      && (s.org.members[(s.tasks[r.taskId].teamId, r.author)].role.Member? ==>
        r.what.field == Status || r.what.field == AssigneeId)
  {
    RunKeepsInv(tr, steps, n);
    assert LineOk(tr[n], i);
  }

  // ---------------------------------------------------------------- no request is stuck

  /** In every reachable state an update that has logged all its entries can commit. */
  lemma CommitIsPossible(s: State, x: int) returns (s': State)
    requires Inv(s) && x in s.txs && s.txs[x].phase.Writing? && |s.txs[x].phase.marks| == |s.txs[x].phase.entries|
    ensures Next(s, Commit(x), s') && CommitUpdate(s, x, s')
  {
    assert TxOk(s, x);
    var p := s.txs[x].phase;
    s' := Ended(s, x).(tasks := s.tasks[s.txs[x].task := Apply(p.row, p.updates)],
                       history := s.history + Rows(p.entries, p.marks));
  }

  /** Whatever a patch looks like, its transaction can parse and decide it. */
  lemma DecideIsPossible(s: State, x: int, storeFails: bool) returns (step: Step, s': State)
    requires x in s.txs && s.txs[x].phase.Cleared? && s.txs[x].job.Update?
    ensures Next(s, step, s') && step.Decide? && step.x == x && step.storeFails == storeFails
    ensures var raw, users := s.txs[x].job.raw, TeamUsers(s, s.txs[x].phase.row.teamId);
      step.parsed.Ok? <==> raw != map[] && forall k :: k in raw ==> ParseKey(users, storeFails, k, raw[k]).Ok?
  {
    var row, user := s.txs[x].phase.row, s.txs[x].user;
    var parsed := SomeParse(TeamUsers(s, row.teamId), storeFails, s.txs[x].job.raw);
    var patch := if parsed.Ok? then parsed.value else map[];
    var updates, entries := SomeDiff(row, user, patch);
    step := Decide(x, storeFails, parsed, updates, entries);
    s' := if Refuses(s.txs[x].phase.role, parsed) || updates == map[] then Ended(s, x)
          else Moved(s, x, Writing(row, s.txs[x].phase.role, updates, entries, []));
  }

  lemma Extend(tr: seq<State>, steps: seq<Step>, step: Step, s': State)
    requires Run(tr, steps) && Next(tr[|steps|], step, s')
    ensures Run(tr + [s'], steps + [step])
  {
    var tr', steps' := tr + [s'], steps + [step];
    forall i | 0 <= i < |steps'| ensures StepAt(tr', steps', i) {
      if i < |steps| { assert StepAt(tr, steps, i); }
    }
  }

  lemma LogIsPossible(s: State, x: int) returns (s': State)
    requires x in s.txs && s.txs[x].phase.Writing? && |s.txs[x].phase.marks| < |s.txs[x].phase.entries|
    ensures Next(s, LogOne(x, s.now), s') && s'.history == s.history && x in s'.txs
    ensures s'.txs[x] == s.txs[x].(phase := s.txs[x].phase.(marks := s.txs[x].phase.marks + [Mark(s.nextHist, s.now)]))
  {
    var p := s.txs[x].phase;
    s' := Moved(s, x, p.(marks := p.marks + [Mark(s.nextHist, s.now)])).(nextHist := s.nextHist + 1);
  }

  /** The update of `tx` is in the tables, with one history row for each of its entries. */
  ghost predicate Recorded(s: State, tx: Tx, s': State)
    requires tx.phase.Writing?
  {
    && |s'.history| == |s.history| + |tx.phase.entries|
    && PatchTyped(tx.phase.updates) && tx.task in s'.tasks
    && s'.tasks[tx.task] == Apply(tx.phase.row, tx.phase.updates)
  }

  lemma CommitStepOf(tr: seq<State>, steps: seq<Step>, x: int) returns (s': State)
    requires Run(tr, steps) && x in tr[|steps|].txs && tr[|steps|].txs[x].phase.Writing?
    requires |tr[|steps|].txs[x].phase.marks| == |tr[|steps|].txs[x].phase.entries|
    ensures Run(tr + [s'], steps + [Commit(x)]) && Recorded(tr[|steps|], tr[|steps|].txs[x], s')
  {
    RunKeepsInv(tr, steps, |steps|);
    s' := CommitIsPossible(tr[|steps|], x);
    Extend(tr, steps, Commit(x), s');
  }

  lemma MarksFit(tr: seq<State>, steps: seq<Step>, x: int)
    requires Run(tr, steps) && x in tr[|steps|].txs && tr[|steps|].txs[x].phase.Writing?
    ensures |tr[|steps|].txs[x].phase.marks| <= |tr[|steps|].txs[x].phase.entries|
  {
    RunKeepsInv(tr, steps, |steps|);
    assert TxOk(tr[|steps|], x);
  }

  /** Every run in which an update has been executed goes on to one that commits it, with all its history rows. */
  lemma {:induction false} UpdateCanFinish(tr: seq<State>, steps: seq<Step>, x: int)
    returns (tr': seq<State>, steps': seq<Step>)
    requires Run(tr, steps) && x in tr[|steps|].txs && tr[|steps|].txs[x].phase.Writing?
    ensures Run(tr', steps') && |steps| < |steps'| && steps'[|steps'| - 1] == Commit(x)
    ensures Recorded(tr[|steps|], tr[|steps|].txs[x], tr'[|steps'|])
    decreases |tr[|steps|].txs[x].phase.entries| - |tr[|steps|].txs[x].phase.marks|
  {
    var s := tr[|steps|];
    MarksFit(tr, steps, x);
    if |s.txs[x].phase.marks| == |s.txs[x].phase.entries| {
      var s' := CommitStepOf(tr, steps, x);
      tr', steps' := tr + [s'], steps + [Commit(x)];
    } else {
      var s' := LogIsPossible(s, x);
      var step := LogOne(x, s.now);
      Extend(tr, steps, step, s');
      assert (tr + [s'])[|steps + [step]|] == s';
      tr', steps' := UpdateCanFinish(tr + [s'], steps + [step], x);
    }
  }

  // ---------------------------------------------------------------- disallowed patches

  /** The key is one that the user's role in the task's team does not let them patch. */
  ghost predicate MayNot(s: State, user: int, team: int, key: string) {
    && (team, user) in s.org.members
    && !(FieldOf(key).Some? && FieldOf(key).value in AllowedFields(s.org.members[(team, user)].role))
  }

  /** The transaction `x` still serves the request that opened it, for a task of `team`. */
  ghost predicate Serves(s: State, x: int, user: int, task: int, job: Job, team: int) {
    && x in s.txs && s.txs[x].user == user && s.txs[x].task == task && s.txs[x].job == job
    && task in s.created && s.created[task].teamId == team && task < s.nextTask
  }

  /** Decide ends its transaction or moves it on, and does nothing else. */
  lemma DecideFrame(s: State, x: int, refused: bool, updates: map<Field, Value>, entries: seq<Entry>, s': State)
    requires x in s.txs && s.txs[x].phase.Cleared? && GoesOn(s, x, refused, updates, entries, s')
    ensures s' == s.(txs := s'.txs, locks := s'.locks)
    ensures var p := Writing(s.txs[x].phase.row, s.txs[x].phase.role, updates, entries, []);
      s'.txs == s.txs - {x} || s'.txs == s.txs[x := s.txs[x].(phase := p)]
  {
  }

  lemma CommitFrame(s: State, x: int, s': State)
    requires CommitUpdate(s, x, s') || CommitDelete(s, x, s')
    ensures s' == s.(txs := s.txs - {x}, locks := s'.locks, tasks := s'.tasks, history := s'.history)
  {
  }

  predicate Elsewhere(step: Step) {
    step.Org? || step.BeginCreate? || step.SeeAuthor? || step.SeeAssignee? || step.Insert? || step.DropCreate?
  }

  /** Team steps and creations leave the transactions alone. */
  lemma ElsewhereFrame(s: State, step: Step, s': State)
    requires Next(s, step, s') && Elsewhere(step)
    ensures s'.txs == s.txs && s'.history == s.history && (step.Insert? || s'.tasks == s.tasks)
    ensures forall t :: t in s.created && t < s.nextTask ==>
      t in s'.created && s'.created[t] == s.created[t] && t < s'.nextTask
  {
  }

  /** The other steps of transactions write nothing and keep serving the same requests. */
  lemma OpenFrame(s: State, step: Step, s': State)
    requires Next(s, step, s') && !Elsewhere(step) && !step.Decide? && !step.Commit?
    ensures s'.tasks == s.tasks && s'.history == s.history && s'.created == s.created && s'.nextTask == s.nextTask
    ensures s'.creations == s.creations
    ensures forall y :: y in s.txs && y in s'.txs ==> SameRequest(s, s', y)
  {
  }

  ghost predicate SameRequest(s: State, s': State, y: int)
    requires y in s.txs && y in s'.txs
  {
    s'.txs[y].user == s.txs[y].user && s'.txs[y].task == s.txs[y].task && s'.txs[y].job == s.txs[y].job
  }

  lemma NextFrame(s: State, step: Step, s': State, x: int, t: int)
    requires Next(s, step, s') && x in s.txs && x in s'.txs
    ensures SameRequest(s, s', x)
    ensures t in s.created && t < s.nextTask ==>
      t in s'.created && s'.created[t] == s.created[t] && t < s'.nextTask
  {
    if Elsewhere(step) {
      ElsewhereFrame(s, step, s');
    } else {
      match step
      case Decide(y, _, parsed, updates, entries) =>
        DecideFrame(s, y, Refuses(s.txs[y].phase.role, parsed), updates, entries, s');
      case Commit(y) => CommitFrame(s, y, s');
      case _ => OpenFrame(s, step, s');
    }
  }

  lemma NextKeepsMembers(s: State, step: Step, s': State)
    requires Next(s, step, s') && Teams.TeamsInv(s.org)
    ensures Teams.Grows(s.org.members, s'.org.members)
  {
    if step.Org? { Teams.NextGrows(s.org, step.step, s'.org); } else { assert s'.org == s.org; }
  }

  lemma NextKeepsServes(s: State, step: Step, s': State, x: int, user: int, task: int, job: Job, team: int, key: string)
    requires Next(s, step, s') && Teams.TeamsInv(s.org) && x in s'.txs
    requires Serves(s, x, user, task, job, team) && MayNot(s, user, team, key)
    ensures Serves(s', x, user, task, job, team) && MayNot(s', user, team, key)
  {
    NextKeepsMembers(s, step, s');
    NextFrame(s, step, s', x, task);
  }

  /** Only a transaction whose whole patch is allowed gets to commit. */
  lemma CommittedPatchIsAllowed(tr: seq<State>, steps: seq<Step>, n: nat, x: int)
    requires Run(tr, steps) && n < |steps| && steps[n] == Commit(x)
    ensures x in tr[n].txs && tr[n].txs[x].task in tr[n].tasks
    ensures var tx := tr[n].txs[x];
      var who := (tr[n].tasks[tx.task].teamId, tx.user);
      && who in tr[n].org.members
      && (tx.job.Update? ==> KeysAllowed(tx.job.raw, tr[n].org.members[who].role))
  {
    RunKeepsInv(tr, steps, n);
    assert StepAt(tr, steps, n);
    assert TxOk(tr[n], x);
  }

  lemma CommittedKeyIsAllowed(
    tr: seq<State>, steps: seq<Step>, n: nat, x: int, user: int, task: int, job: Job, team: int, key: string)
    requires Run(tr, steps) && n < |steps| && steps[n] == Commit(x)
    requires Serves(tr[n], x, user, task, job, team) && job.Update? && key in job.raw
    ensures !MayNot(tr[n], user, team, key)
  {
    CommittedPatchIsAllowed(tr, steps, n, x);
    RunKeepsInv(tr, steps, n);
    assert RowOk(tr[n], task);
  }

  /** A step that is no commit and no insert leaves both tables alone. */
  lemma OtherStepsWriteNothing(s: State, step: Step, s': State)
    requires Next(s, step, s') && !step.Commit? && !step.Insert?
    ensures s'.tasks == s.tasks && s'.history == s.history
  {
    if Elsewhere(step) {
      ElsewhereFrame(s, step, s');
    } else {
      match step
      case Decide(y, _, parsed, updates, entries) =>
        DecideFrame(s, y, Refuses(s.txs[y].phase.role, parsed), updates, entries, s');
      case _ => OpenFrame(s, step, s');
    }
  }

  lemma {:induction false} RequestStays(tr: seq<State>, steps: seq<Step>, m: nat, n: nat, key: string)
    requires Run(tr, steps) && m < n < |tr| && steps[m].Begin?
    requires forall i :: m < i <= n ==> steps[m].x in tr[i].txs
    requires steps[m].task in tr[m].tasks && MayNot(tr[m], steps[m].user, tr[m].tasks[steps[m].task].teamId, key)
    ensures Serves(tr[n], steps[m].x, steps[m].user, steps[m].task, steps[m].job, tr[m].tasks[steps[m].task].teamId)
    ensures MayNot(tr[n], steps[m].user, tr[m].tasks[steps[m].task].teamId, key)
  {
    RunKeepsInv(tr, steps, n - 1);
    assert StepAt(tr, steps, n - 1);
    if n == m + 1 {
      assert RowOk(tr[m], steps[m].task);
    } else {
      RequestStays(tr, steps, m, n - 1, key);
      NextKeepsServes(tr[n - 1], steps[n - 1], tr[n], steps[m].x, steps[m].user, steps[m].task, steps[m].job,
                      tr[m].tasks[steps[m].task].teamId, key);
    }
  }

  predicate TakesStep(step: Step, x: int) {
    match step
    case Begin(y, _, _, _) => y == x
    case Lock(y) => y == x
    case Clear(y) => y == x
    case Decide(y, _, _, _, _) => y == x
    case LogOne(y, _) => y == x
    case Erase(y, _) => y == x
    case Commit(y) => y == x
    case Rollback(y) => y == x
    case _ => false
  }

  /**
    A patch that names one field its author may not write, alone or mixed with allowed ones:
    whatever runs in between, none of the steps of its request changes either table.
   */
  lemma DisallowedPatchWritesNothing(tr: seq<State>, steps: seq<Step>, m: nat, n: nat, key: string)
    requires Run(tr, steps) && m <= n < |steps| && steps[m].Begin? && steps[m].job.Update? && key in steps[m].job.raw
    requires steps[m].task in tr[m].tasks && MayNot(tr[m], steps[m].user, tr[m].tasks[steps[m].task].teamId, key)
    requires forall i :: m < i <= n ==> steps[m].x in tr[i].txs
    requires TakesStep(steps[n], steps[m].x)
    ensures !steps[n].Commit? && tr[n + 1].tasks == tr[n].tasks && tr[n + 1].history == tr[n].history
  {
    assert StepAt(tr, steps, n);
    if steps[n].Commit? {
      RequestStays(tr, steps, m, n, key);
      CommittedKeyIsAllowed(tr, steps, n, steps[m].x, steps[m].user, steps[m].task, steps[m].job,
                            tr[m].tasks[steps[m].task].teamId, key);
    } else {
      OtherStepsWriteNothing(tr[n], steps[n], tr[n + 1]);
    }
  }

  // ---------------------------------------------------------------- what a commit does

  /** Until it ends, a transaction serves the request that opened it. */
  lemma {:induction false} RequestIsKept(tr: seq<State>, steps: seq<Step>, m: nat, n: nat)
    requires Run(tr, steps) && m < n < |tr| && steps[m].Begin?
    requires forall i :: m < i <= n ==> steps[m].x in tr[i].txs
    ensures tr[n].txs[steps[m].x].user == steps[m].user && tr[n].txs[steps[m].x].task == steps[m].task
    ensures tr[n].txs[steps[m].x].job == steps[m].job
  {
    assert StepAt(tr, steps, n - 1);
    if m + 1 < n {
      RequestIsKept(tr, steps, m, n - 1);
      NextFrame(tr[n - 1], steps[n - 1], tr[n], steps[m].x, 0);
    }
  }

  /** The transaction begun by step `m` commits at step `n`. */
  ghost predicate Commits(tr: seq<State>, steps: seq<Step>, m: nat, n: nat) {
    && Run(tr, steps) && m < n < |steps| && steps[m].Begin? && steps[n] == Commit(steps[m].x)
    && forall i :: m < i <= n ==> steps[m].x in tr[i].txs
  }

  /** Both tables are as before as far as other tasks are concerned. */
  ghost predicate OthersStay(s: State, s': State, t: int) {
    && (forall u :: u != t ==> (u in s'.tasks <==> u in s.tasks))
    && (forall u :: u != t && u in s.tasks ==> s'.tasks[u] == s.tasks[u])
    && (forall u :: u != t ==> RowsOf(s'.history, u) == RowsOf(s.history, u))
  }

  /** The history rows of one task. */
  function RowsOf(h: seq<HistRow>, task: int): seq<HistRow> {
    if h == [] then []
    else
      var last := h[|h| - 1];
      RowsOf(h[..|h| - 1], task) + if last.taskId == task then [last] else []
  }

  lemma {:induction false} RowsOfAppend(h: seq<HistRow>, p: seq<HistRow>, task: int)
    ensures RowsOf(h + p, task) == RowsOf(h, task) + RowsOf(p, task)
  {
    if p == [] {
      assert h + p == h;
    } else {
      var n := |p| - 1;
      assert (h + p)[..|h + p| - 1] == h + p[..n];
      RowsOfAppend(h, p[..n], task);
    }
  }

  lemma {:induction false} RowsOfOne(p: seq<HistRow>, t: int, task: int)
    requires forall i :: 0 <= i < |p| ==> p[i].taskId == t
    ensures RowsOf(p, task) == if task == t then p else []
  {
    if p != [] { RowsOfOne(p[..|p| - 1], t, task); }
  }

  lemma {:induction false} RowsOfWithout(h: seq<HistRow>, gone: int, task: int)
    ensures RowsOf(Without(h, gone), task) == if task == gone then [] else RowsOf(h, task)
  {
    if h != [] {
      var n := |h| - 1;
      RowsOfWithout(h[..n], gone, task);
      var tail := if h[n].taskId == gone then [] else [h[n]];
      RowsOfAppend(Without(h[..n], gone), tail, task);
      RowsOfOne(tail, h[n].taskId, task);
    }
  }

  lemma PendingRows(s: State, user: int, p: Phase)
    requires p.Writing? && WritesOk(s, user, p) && MarksOk(s, p)
    ensures forall i :: 0 <= i < |Rows(p.entries, p.marks)| ==>
      Rows(p.entries, p.marks)[i].taskId == p.row.id && Rows(p.entries, p.marks)[i].author == user
  {
    forall i | 0 <= i < |Rows(p.entries, p.marks)|
      ensures Rows(p.entries, p.marks)[i].taskId == p.row.id && Rows(p.entries, p.marks)[i].author == user
    {
      PendingRow(s, user, p, i);
    }
  }

  /**
    The commit of an update writes the values of its own patch into the row that it locked, appends
    history rows in its author's name, and leaves every other task and its history alone.
   */
  lemma CommittedUpdate(tr: seq<State>, steps: seq<Step>, m: nat, n: nat)
    requires Commits(tr, steps, m, n) && steps[m].job.Update?
    ensures var s, s', t, user, raw := tr[n], tr[n + 1], steps[m].task, steps[m].user, steps[m].job.raw;
      && t in s.tasks && t in s'.tasks && Carries(raw, s.tasks[t], s'.tasks[t]) && OthersStay(s, s', t)
      && (s.tasks[t].teamId, user) in s.org.members && MayPatch(s.org.members[(s.tasks[t].teamId, user)].role, raw)
      && s.history <= s'.history
      && forall i :: |s.history| <= i < |s'.history| ==> s'.history[i].taskId == t && s'.history[i].author == user
  {
    RequestIsKept(tr, steps, m, n);
    RunKeepsInv(tr, steps, n);
    assert StepAt(tr, steps, n);
    var s, t := tr[n], steps[m].task;
    assert TxOk(s, steps[m].x);
    assert RowOk(s, t);
    var p := s.txs[steps[m].x].phase;
    PendingRows(s, steps[m].user, p);
    forall u | u != t ensures RowsOf(tr[n + 1].history, u) == RowsOf(s.history, u) {
      RowsOfAppend(s.history, Rows(p.entries, p.marks), u);
      RowsOfOne(Rows(p.entries, p.marks), t, u);
    }
  }

  lemma DeletedRows(s: State, x: int, s': State)
    requires CommitDelete(s, x, s')
    ensures OthersStay(s, s', s.txs[x].task) && RowsOf(s'.history, s.txs[x].task) == []
  {
    DeletionCascades(s, x, s');
    forall u ensures RowsOf(s'.history, u) == if u == s.txs[x].task then [] else RowsOf(s.history, u) {
      RowsOfWithout(s.history, s.txs[x].task, u);
    }
  }

  /**
    The commit of a deletion removes the task with all of its history, and nothing else; its author
    is an owner or an admin of the task's team.
   */
  lemma CommittedDeletion(tr: seq<State>, steps: seq<Step>, m: nat, n: nat)
    requires Commits(tr, steps, m, n) && steps[m].job.Delete?
    ensures var s, s', t := tr[n], tr[n + 1], steps[m].task;
      && t in s.tasks && t !in s'.tasks && RowsOf(s'.history, t) == [] && OthersStay(s, s', t)
      && var who := (s.tasks[t].teamId, steps[m].user);
      who in s.org.members && (s.org.members[who].role.Owner? || s.org.members[who].role.Admin?)
  {
    RequestIsKept(tr, steps, m, n);
    RunKeepsInv(tr, steps, n);
    assert StepAt(tr, steps, n);
    assert TxOk(tr[n], steps[m].x);
    DeletedRows(tr[n], steps[m].x, tr[n + 1]);
  }

  // ---------------------------------------------------------------- what gets through

  /** The patch is readable, the caller may send it, and it shows something that the row does not. */
  ghost predicate HasEffect(s: State, user: int, row: Task, storeFails: bool, raw: map<string, Json>) {
    && (row.teamId, user) in s.org.members
    && Accepted(TeamUsers(s, row.teamId), storeFails, raw)
    && MayPatch(s.org.members[(row.teamId, user)].role, raw)
    && !Carries(raw, row, row)
  }

  /**
    A readable patch that the caller may send is executed if it shows something the row does not; any
    other patch is not, the row's due date being a day of the calendar.
   */
  lemma PatchIsExecuted(tr: seq<State>, steps: seq<Step>, n: nat)
    requires Run(tr, steps) && n < |steps| && steps[n].Decide?
    ensures var s, x := tr[n], steps[n].x;
      && x in s.txs && s.txs[x].job.Update? && s.txs[x].task in s.tasks
      && var tx, row := s.txs[x], s.tasks[s.txs[x].task];
      && (HasEffect(s, tx.user, row, steps[n].storeFails, tx.job.raw) ==>
            x in tr[n + 1].txs && tr[n + 1].txs[x].phase.Writing?)
      && (x in tr[n + 1].txs && (row.due.Some? ==> IsDay(row.due.value.date)) ==>
            HasEffect(s, tx.user, row, steps[n].storeFails, tx.job.raw))
  {
    RunKeepsInv(tr, steps, n);
    assert StepAt(tr, steps, n);
    var s, x := tr[n], steps[n].x;
    assert TxOk(s, x);
    var tx, row := s.txs[x], s.txs[x].phase.row;
    DecisionMeans(TeamUsers(s, row.teamId), steps[n].storeFails, tx.job.raw, steps[n].parsed, row, tx.user,
      tx.phase.role, steps[n].updates, steps[n].entries);
  }

  lemma DecisionMeans(
    users: set<int>, storeFails: bool, raw: map<string, Json>, parsed: Result<map<Field, Value>>, row: Task, user: int,
    role: Role, updates: map<Field, Value>, entries: seq<Entry>)
    requires ParseOutcome(users, storeFails, raw, parsed)
    requires !Refuses(role, parsed) ==> IsDiff(row, user, parsed.value, updates, entries)
    ensures Refuses(role, parsed) <==> !(Accepted(users, storeFails, raw) && MayPatch(role, raw))
    ensures !Refuses(role, parsed) && updates == map[] ==> Carries(raw, row, row)
    ensures !Refuses(role, parsed) && Carries(raw, row, row) && (row.due.Some? ==> IsDay(row.due.value.date)) ==>
      updates == map[]
  {
    OutcomeIsAccepted(users, storeFails, raw, parsed);
    if parsed.Ok? {
      AllowedMeans(users, raw, parsed.value, role);
      if !Refuses(role, parsed) {
        EmptyDiff(raw, row, user, parsed.value, updates, entries);
      }
    }
  }

  /** A new request of a member gets past the lock and the look-up of its role. */
  lemma ClearIsPossible(tr: seq<State>, steps: seq<Step>, x: int, user: int, t: int, job: Job)
    returns (tr': seq<State>, steps': seq<Step>)
    requires Run(tr, steps) && x !in tr[|steps|].txs && t in tr[|steps|].tasks && t !in tr[|steps|].locks
    requires (tr[|steps|].tasks[t].teamId, user) in tr[|steps|].org.members
    ensures Run(tr', steps') && steps' == steps + [Begin(x, user, t, job), Lock(x), Clear(x)]
    ensures var s, s' := tr[|steps|], tr'[|steps'|];
      && var role := s.org.members[(s.tasks[t].teamId, user)].role;
      && s' == s.(txs := s.txs[x := Tx(user, t, job, Cleared(s.tasks[t], role))], locks := s.locks[t := x])
  {
    var s := tr[|steps|];
    var role := s.org.members[(s.tasks[t].teamId, user)].role;
    var s1 := s.(txs := s.txs[x := Tx(user, t, job, Opened)]);
    Extend(tr, steps, Begin(x, user, t, job), s1);
    var tr1, steps1 := tr + [s1], steps + [Begin(x, user, t, job)];
    var s2 := Moved(s1, x, Locked(s.tasks[t])).(locks := s.locks[t := x]);
    Extend(tr1, steps1, Lock(x), s2);
    var tr2, steps2 := tr1 + [s2], steps1 + [Lock(x)];
    var s3 := Moved(s2, x, Cleared(s.tasks[t], role));
    Extend(tr2, steps2, Clear(x), s3);
    tr', steps' := tr2 + [s3], steps2 + [Clear(x)];
    assert s3.txs == s.txs[x := Tx(user, t, job, Cleared(s.tasks[t], role))];
  }

  lemma ExecutionIsPossible(tr: seq<State>, steps: seq<Step>, x: int) returns (tr': seq<State>, steps': seq<Step>)
    requires Run(tr, steps) && x in tr[|steps|].txs && tr[|steps|].txs[x].phase.Cleared?
    requires tr[|steps|].txs[x].job.Update?
    requires var s, tx := tr[|steps|], tr[|steps|].txs[x];
      tx.task in s.tasks && HasEffect(s, tx.user, s.tasks[tx.task], false, tx.job.raw)
    ensures Run(tr', steps') && |steps'| == |steps| + 1 && x in tr'[|steps'|].txs
    ensures var tx, tx' := tr[|steps|].txs[x], tr'[|steps'|].txs[x];
      tx'.phase.Writing? && tx'.phase.row == tx.phase.row && tx' == tx.(phase := tx'.phase)
  {
    var s := tr[|steps|];
    var step, s' := DecideIsPossible(s, x, false);
    Extend(tr, steps, step, s');
    tr', steps' := tr + [s'], steps + [step];
    PatchIsExecuted(tr', steps', |steps|);
    DecideFrame(s, x, Refuses(s.txs[x].phase.role, step.parsed), step.updates, step.entries, s');
  }

  /**
    In every reachable state, any patch with an effect on a task that nobody holds can run to a
    commit, after which the row carries the values of the patch.
   */
  lemma UpdateIsPossible(tr: seq<State>, steps: seq<Step>, x: int, user: int, t: int, raw: map<string, Json>)
    returns (tr': seq<State>, steps': seq<Step>)
    requires Run(tr, steps) && x !in tr[|steps|].txs && t in tr[|steps|].tasks && t !in tr[|steps|].locks
    requires HasEffect(tr[|steps|], user, tr[|steps|].tasks[t], false, raw)
    ensures Run(tr', steps') && |steps| < |steps'| && steps'[|steps'| - 1] == Commit(x)
    ensures t in tr'[|steps'|].tasks && Carries(raw, tr[|steps|].tasks[t], tr'[|steps'|].tasks[t])
  {
    var tr1, steps1 := ClearIsPossible(tr, steps, x, user, t, Update(raw));
    var tr2, steps2 := ExecutionIsPossible(tr1, steps1, x);
    RunKeepsInv(tr2, steps2, |steps2|);
    assert TxOk(tr2[|steps2|], x);
    tr', steps' := UpdateCanFinish(tr2, steps2, x);
  }

  /** Likewise an owner or admin can delete any task that nobody holds. */
  lemma DeletionIsPossible(tr: seq<State>, steps: seq<Step>, x: int, user: int, t: int)
    returns (tr': seq<State>, steps': seq<Step>)
    requires Run(tr, steps) && x !in tr[|steps|].txs && t in tr[|steps|].tasks && t !in tr[|steps|].locks
    requires (tr[|steps|].tasks[t].teamId, user) in tr[|steps|].org.members
    requires var role := tr[|steps|].org.members[(tr[|steps|].tasks[t].teamId, user)].role; role.Owner? || role.Admin?
    ensures Run(tr', steps') && |steps| < |steps'| && steps'[|steps'| - 1] == Commit(x)
    ensures tr'[|steps'|].tasks == tr[|steps|].tasks - {t}
  {
    var tr1, steps1 := ClearIsPossible(tr, steps, x, user, t, Delete);
    var s := tr1[|steps1|];
    var p := s.txs[x].phase;
    var s1 := Moved(s, x, Erasing(p.row, p.role, Mark(s.nextHist, s.now))).(nextHist := s.nextHist + 1);
    Extend(tr1, steps1, Erase(x, s.now), s1);
    var tr2, steps2 := tr1 + [s1], steps1 + [Erase(x, s.now)];
    var last := HistRow(s1.txs[x].phase.mark, t, user, TaskDeleted(p.row));
    var s2 := Ended(s1, x).(tasks := s1.tasks - {t}, history := Without(s1.history + [last], t));
    assert CommitDelete(s1, x, s2);
    Extend(tr2, steps2, Commit(x), s2);
    tr', steps' := tr2 + [s2], steps2 + [Commit(x)];
  }

  // ---------------------------------------------------------------- creation

  /** The request `r` still wants to insert what it was asked to. */
  ghost predicate Creates(s: State, r: int, user: int, i: CreateInput) {
    r in s.creations && NewRow(user, i).Ok? && s.creations[r].user == user
      && s.creations[r].row == NewRow(user, i).value
  }

  lemma {:induction false} CreationIsKept(tr: seq<State>, steps: seq<Step>, m: nat, n: nat)
    requires Run(tr, steps) && m < n < |tr| && steps[m].BeginCreate?
    requires forall i :: m < i <= n ==> steps[m].r in tr[i].creations
    ensures Creates(tr[n], steps[m].r, steps[m].user, steps[m].input)
  {
    assert StepAt(tr, steps, n - 1);
    if m + 1 < n {
      CreationIsKept(tr, steps, m, n - 1);
      CreationFrame(tr[n - 1], steps[n - 1], tr[n], steps[m].r);
    }
  }

  lemma CreationFrame(s: State, step: Step, s': State, r: int)
    requires Next(s, step, s') && r in s.creations && r in s'.creations
    ensures s'.creations[r].user == s.creations[r].user && s'.creations[r].row == s.creations[r].row
  {
    if !Elsewhere(step) {
      match step
      case Decide(y, _, parsed, updates, entries) =>
        DecideFrame(s, y, Refuses(s.txs[y].phase.role, parsed), updates, entries, s');
      case Commit(y) => CommitFrame(s, y, s');
      case _ => OpenFrame(s, step, s');
    }
  }

  /** The inserted row is what the caller asked for, with the documented defaults. */
  ghost predicate AsAsked(user: int, i: CreateInput, row: Task) {
    && row.teamId == i.teamId && row.title == i.title && row.assignee == i.assignee && row.due == i.due
    && row.createdBy == Some(user)
    && row.description == (if Blank(i.description) then None else Some(i.description))
    && row.status == (if i.status == "" then "todo" else i.status)
    && row.priority == (if i.priority == "" then "medium" else i.priority)
    && row.status in ["todo", "in_progress", "done"] && row.priority in ["low", "medium", "high"]
  }

  /** The insert of a request adds one task, under a number not used before, with the values asked for. */
  lemma CreatedAsAsked(tr: seq<State>, steps: seq<Step>, m: nat, n: nat)
    requires Run(tr, steps) && m < n < |steps| && steps[m].BeginCreate? && steps[n] == Insert(steps[m].r)
    requires forall i :: m < i <= n ==> steps[m].r in tr[i].creations
    ensures var s, s', t := tr[n], tr[n + 1], tr[n].nextTask;
      && t !in s.tasks && t in s'.tasks && s'.tasks == s.tasks[t := s'.tasks[t]] && s'.tasks[t].id == t
      && s'.history == s.history
      && AsAsked(steps[m].user, steps[m].input, s'.tasks[t])
  {
    CreationIsKept(tr, steps, m, n);
    RunKeepsInv(tr, steps, n);
    assert StepAt(tr, steps, n);
    forall t | t in tr[n].tasks ensures t < tr[n].nextTask { assert RowOk(tr[n], t); }
  }

  /** A member can create any task with known status and priority, or none, for a member or nobody. */
  lemma CreationIsPossible(tr: seq<State>, steps: seq<Step>, r: int, user: int, i: CreateInput)
    returns (tr': seq<State>, steps': seq<Step>)
    requires Run(tr, steps) && r !in tr[|steps|].creations
    requires i.teamId in tr[|steps|].org.teams && (i.teamId, user) in tr[|steps|].org.members
    requires i.assignee.Some? ==> (i.teamId, i.assignee.value) in tr[|steps|].org.members
    requires i.status in ["", "todo", "in_progress", "done"] && i.priority in ["", "low", "medium", "high"]
    ensures Run(tr', steps') && steps' == steps + [BeginCreate(r, user, i), SeeAuthor(r), SeeAssignee(r), Insert(r)]
    ensures var s, s' := tr[|steps|], tr'[|steps'|];
      s.nextTask in s'.tasks && AsAsked(user, i, s'.tasks[s.nextTask])
  {
    var s := tr[|steps|];
    var row := NewRow(user, i).value;
    var s1 := s.(creations := s.creations[r := Creation(user, row, TeamFound)]);
    Extend(tr, steps, BeginCreate(r, user, i), s1);
    var tr1, steps1 := tr + [s1], steps + [BeginCreate(r, user, i)];
    var s2 := s1.(creations := s1.creations[r := Creation(user, row, AuthorSeen)]);
    Extend(tr1, steps1, SeeAuthor(r), s2);
    var tr2, steps2 := tr1 + [s2], steps1 + [SeeAuthor(r)];
    var s3 := s2.(creations := s2.creations[r := Creation(user, row, AssigneeSeen)]);
    Extend(tr2, steps2, SeeAssignee(r), s3);
    var tr3, steps3 := tr2 + [s3], steps2 + [SeeAssignee(r)];
    var s4 := InsertIsPossible(s3, r);
    Extend(tr3, steps3, Insert(r), s4);
    tr', steps' := tr3 + [s4], steps3 + [Insert(r)];
  }

  lemma InsertIsPossible(s: State, r: int) returns (s': State)
    requires r in s.creations && s.creations[r].phase.AssigneeSeen?
    ensures Next(s, Insert(r), s') && s'.tasks == s.tasks[s.nextTask := s.creations[r].row.(id := s.nextTask)]
  {
    var row := s.creations[r].row.(id := s.nextTask);
    s' := s.(tasks := s.tasks[s.nextTask := row], created := s.created[s.nextTask := row],
             nextTask := s.nextTask + 1, creations := s.creations - {r});
  }

  /** Rows change only when a transaction that holds their lock commits. */
  lemma TablesChangeOnlyByCommit(tr: seq<State>, steps: seq<Step>, n: nat, t: int)
    requires Run(tr, steps) && n < |steps| && t in tr[n].tasks
    requires !(t in tr[n + 1].tasks && tr[n + 1].tasks[t] == tr[n].tasks[t])
    ensures steps[n].Commit? && t in tr[n].locks && tr[n].locks[t] == steps[n].x && steps[n].x in tr[n].txs
    ensures tr[n].txs[steps[n].x].task == t
  {
    RunKeepsInv(tr, steps, n);
    var s := tr[n];
    assert StepAt(tr, steps, n);
    assert RowOk(s, t);
    if steps[n].Commit? { assert TxOk(s, steps[n].x); }
  }
}
