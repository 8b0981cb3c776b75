/**
  Teams, membership and the invite protocol.

  An invite reads the inviter's role, takes a lease on (team, user), checks membership, sends the
  email, inserts the member row and releases the lease, each as its own step, so that any number of
  invites interleave. The primary key of team_members is what finally decides a race.
 */
module Teams {
  import opened Common
  import Lease

  type Pair = (int, int)  // (team, user)

  /** A row of team_members; `addedBy` is the user whose request inserted it. */
  datatype Membership = Membership(role: Role, addedBy: int)

  datatype Phase =
    | Opened      // the team was found
    | Cleared     // the inviter's role allows the invite
    | Guarded     // the lease was taken, or taking it failed and was bypassed
    | Checked     // the user was seen not to be a member
    | Mailed      // the invite email went out
    | Leaving     // returned; the deferred release is still to run

  datatype LockUse = Free | Leased | Bypassed

  datatype Invite = Invite(inviter: int, team: int, user: int, role: Role, lock: LockUse, phase: Phase)

  /** `mailed`, `failed` and `joined` count emails sent, failed inserts and successful invites. */
  datatype State = State(
    teams: map<int, int>,             // team -> creator
    nextTeam: int,
    members: map<Pair, Membership>,
    invites: map<int, Invite>,
    lease: Lease.State<Pair, int>,
    mailed: multiset<Pair>,
    failed: multiset<Pair>,
    joined: multiset<Pair>,
    disturbed: set<Pair>)             // pairs whose lock was bypassed, or ran out with its holder inside

  datatype Mail = Sent | NotConfigured | Refused

  /** `Lost`: the row is written but the reply does not arrive, so the caller sees an error. */
  datatype Insert = Inserted | Lost | Rejected

  datatype Step =
    | CreateTeam(user: int)
    | Open(r: int, inviter: int, team: int, user: int, role: Role)
    | Clear(r: int)
    | Acquire(r: int, token: string, ttl: nat)
    | Bypass(r: int)
    | BypassLost(r: int, token: string, ttl: nat)   // SET NX ran, but its reply did not arrive
    | Check(r: int)
    | Send(r: int, mail: Mail)
    | Add(r: int, insert: Insert)
    | Quit(r: int)
    | Release(r: int, ok: bool)
    | Tick(now: nat)

  predicate CanInvite(inviter: Role, target: Role) {
    match inviter
    case Owner => target == Member || target == Admin
    case Admin => target == Member
    case _ => false
  }

  predicate MayInvite(members: map<Pair, Membership>, i: Invite) {
    (i.team, i.inviter) in members && CanInvite(members[(i.team, i.inviter)].role, i.role)
  }

  function PairOf(i: Invite): Pair {
    (i.team, i.user)
  }

  function Moved(s: State, r: int, p: Phase): State
    requires r in s.invites
  {
    s.(invites := s.invites[r := s.invites[r].(phase := p)])
  }

  function Gone(s: State, r: int): State {
    s.(invites := s.invites - {r})
  }

  ghost predicate Init(s: State) {
    && s.teams == map[] && s.members == map[] && s.invites == map[] && Lease.Init(s.lease)
    && s.mailed == multiset{} && s.failed == multiset{} && s.joined == multiset{} && s.disturbed == {}
  }

  ghost predicate Next(s: State, step: Step, s': State) {
    match step
    case CreateTeam(user) =>
      && s' == s.(teams := s.teams[s.nextTeam := user],
                  nextTeam := s.nextTeam + 1,
                  members := s.members[(s.nextTeam, user) := Membership(Owner, user)])
    case Open(r, inviter, team, user, role) =>
      && r !in s.invites && r !in s.lease.inside && team in s.teams
      && s' == s.(invites := s.invites[r := Invite(inviter, team, user, role, Free, Opened)])
    case Clear(r) =>
      && r in s.invites && s.invites[r].phase == Opened
      && s' == if MayInvite(s.members, s.invites[r]) then Moved(s, r, Cleared) else Gone(s, r)
    case Acquire(r, token, ttl) =>
      && r in s.invites && s.invites[r].phase == Cleared
      && if Lease.Taken(s.lease.locks, s.lease.now, PairOf(s.invites[r]))
      then s' == Gone(s, r)
      else
        && Lease.Next(s.lease, Lease.Acquire(r, PairOf(s.invites[r]), token, ttl), s'.lease)
        && s' == s.(lease := s'.lease, invites := s.invites[r := s.invites[r].(lock := Leased, phase := Guarded)])
    case Bypass(r) =>
      && r in s.invites && s.invites[r].phase == Cleared
      && s' == s.(invites := s.invites[r := s.invites[r].(lock := Bypassed, phase := Guarded)],
                  disturbed := s.disturbed + {PairOf(s.invites[r])})
    case BypassLost(r, token, ttl) =>
      && r in s.invites && s.invites[r].phase == Cleared
      && Lease.Next(s.lease, Lease.Orphan(PairOf(s.invites[r]), token, ttl), s'.lease)
      && s' == s.(lease := s'.lease,
                  invites := s.invites[r := s.invites[r].(lock := Bypassed, phase := Guarded)],
                  disturbed := s.disturbed + {PairOf(s.invites[r])})
    case Check(r) =>
      && r in s.invites && s.invites[r].phase == Guarded
      && s' == Moved(s, r, if PairOf(s.invites[r]) in s.members then Leaving else Checked)
    case Send(r, mail) =>
      && r in s.invites && s.invites[r].phase == Checked
      && s' == s.(invites := s.invites[r := s.invites[r].(phase := if mail.Refused? then Leaving else Mailed)],
                  mailed := if mail.Sent? then s.mailed + multiset{PairOf(s.invites[r])} else s.mailed)
    case Add(r, insert) =>
      && r in s.invites && s.invites[r].phase == Mailed
      && var i := s.invites[r];
      var written := PairOf(i) !in s.members && !insert.Rejected?;
      var ok := written && insert.Inserted?;
      s' == s.(invites := s.invites[r := i.(phase := Leaving)],
               members := if written then s.members[PairOf(i) := Membership(i.role, i.inviter)] else s.members,
               joined := if ok then s.joined + multiset{PairOf(i)} else s.joined,
               failed := if ok then s.failed else s.failed + multiset{PairOf(i)})
    case Quit(r) =>  // a read fails or the request is cancelled before the email
      && r in s.invites && s.invites[r].phase != Mailed && s.invites[r].phase != Leaving
      && var early := s.invites[r].phase == Opened || s.invites[r].phase == Cleared;
      s' == if early then Gone(s, r) else Moved(s, r, Leaving)
    case Release(r, ok) =>
      && r in s.invites && s.invites[r].phase == Leaving
      && if s.invites[r].lock != Leased then s' == Gone(s, r)
      else
        && Lease.Next(s.lease, if ok then Lease.Release(r) else Lease.Abandon(r), s'.lease)
        && s' == Gone(s, r).(lease := s'.lease)
    case Tick(now) =>
      && Lease.Next(s.lease, Lease.Tick(now), s'.lease)
      && s' == s.(lease := s'.lease,
                  disturbed := s.disturbed
                    + set r | r in s.lease.inside && s.lease.inside[r].expiry <= now :: s.lease.inside[r].key)
  }

  ghost predicate Run(tr: seq<State>, steps: seq<Step>) {
    && |tr| == |steps| + 1
    && Init(tr[0])
    && forall i {:trigger StepAt(tr, steps, i)} :: 0 <= i < |steps| ==> StepAt(tr, steps, i)
  }

  ghost predicate StepAt(tr: seq<State>, steps: seq<Step>, i: int)
    requires |tr| == |steps| + 1 && 0 <= i < |steps|
  {
    Next(tr[i], steps[i], tr[i + 1])
  }

  // ---------------------------------------------------------------- membership only grows

  /** Rows are only added; a row never changes. */
  ghost predicate Grows(a: map<Pair, Membership>, b: map<Pair, Membership>) {
    forall p :: p in a ==> p in b && b[p] == a[p]
  }

  ghost predicate TeamsInv(s: State) {
    && (forall t :: t in s.teams ==> t < s.nextTeam && (t, s.teams[t]) in s.members)
    && (forall p :: p in s.members ==> p.0 in s.teams)
    && (forall r :: r in s.invites ==> s.invites[r].team in s.teams)
  }

  /** Who may hold which role, and who may have given it. */
  ghost predicate RoleFits(teams: map<int, int>, members: map<Pair, Membership>, p: Pair)
    requires p in members && p.0 in teams
  {
    var m := members[p];
    && (m.role.Owner? <==> teams[p.0] == p.1)
    && match m.role
       case Owner => m.addedBy == p.1
       case Admin => m.addedBy == teams[p.0]
       case Member => (p.0, m.addedBy) in members && !members[(p.0, m.addedBy)].role.Member?
       case Other(_) => false
  }

  ghost predicate Roles(s: State)
    requires TeamsInv(s)
  {
    && (forall p :: p in s.members ==> RoleFits(s.teams, s.members, p))
    && (forall r :: r in s.invites && s.invites[r].phase != Opened ==> MayInvite(s.members, s.invites[r]))
  }

  predicate SameRequest(a: Invite, b: Invite) {
    a.inviter == b.inviter && a.team == b.team && a.user == b.user && a.role == b.role
  }

  /** Only these two steps write the membership table. */
  lemma NextWrites(s: State, step: Step, s': State)
    requires Next(s, step, s')
    ensures !step.CreateTeam? ==> s'.teams == s.teams && s'.nextTeam == s.nextTeam
    ensures !step.CreateTeam? && !step.Add? ==> s'.members == s.members && s'.joined == s.joined
    ensures step.Add? && s'.members != s.members ==>
      var i := s.invites[step.r];
      PairOf(i) !in s.members && s'.members == s.members[PairOf(i) := Membership(i.role, i.inviter)]
    ensures forall r :: r in s'.invites && !(step.Open? && step.r == r) ==>
      r in s.invites && SameRequest(s'.invites[r], s.invites[r])
  {
  }

  lemma NextGrows(s: State, step: Step, s': State)
    requires TeamsInv(s) && Next(s, step, s')
    ensures TeamsInv(s') && Grows(s.members, s'.members)
    ensures forall t :: t in s.teams ==> t in s'.teams && s'.teams[t] == s.teams[t]
  {
    NextWrites(s, step, s');
    if step.CreateTeam? {
      assert forall p :: p in s.members ==> p.0 in s.teams;
    } else {
      forall r | r in s'.invites ensures s'.invites[r].team in s'.teams {
        if !(step.Open? && step.r == r) {
          assert SameRequest(s'.invites[r], s.invites[r]);
        }
      }
      if step.Add? {
        assert s.invites[step.r].team in s.teams;
      }
    }
  }

  lemma NextKeepsRoles(s: State, step: Step, s': State)
    requires TeamsInv(s) && Roles(s) && Next(s, step, s')
    ensures TeamsInv(s') && Roles(s')
  {
    NextGrows(s, step, s');
    forall p | p in s'.members ensures RoleFits(s'.teams, s'.members, p) {
      if p in s.members {
      } else if step.Add? {
        assert MayInvite(s.members, s.invites[step.r]);
      }
    }
    forall r | r in s'.invites && s'.invites[r].phase != Opened ensures MayInvite(s'.members, s'.invites[r]) {
      NextKeepsMayInvite(s, step, s', r);
    }
  }

  lemma NextKeepsMayInvite(s: State, step: Step, s': State, r: int)
    requires Next(s, step, s') && Grows(s.members, s'.members)
    requires r in s'.invites && s'.invites[r].phase != Opened
    requires r in s.invites && s.invites[r].phase != Opened ==> MayInvite(s.members, s.invites[r])
    ensures MayInvite(s'.members, s'.invites[r])
  {
  }

  lemma {:induction false} RunKeepsRoles(tr: seq<State>, steps: seq<Step>, n: nat)
    requires Run(tr, steps) && n < |tr|
    ensures TeamsInv(tr[n]) && Roles(tr[n])
  {
    if n > 0 {
      RunKeepsRoles(tr, steps, n - 1);
      assert StepAt(tr, steps, n - 1);
      NextGrows(tr[n - 1], steps[n - 1], tr[n]);
      NextKeepsRoles(tr[n - 1], steps[n - 1], tr[n]);
    }
  }

  /** Each team has exactly one owner, its creator, in every reachable state. */
  lemma OneOwner(tr: seq<State>, steps: seq<Step>, n: nat, team: int)
    requires Run(tr, steps) && n < |tr| && team in tr[n].teams
    ensures (team, tr[n].teams[team]) in tr[n].members
    ensures forall u :: (team, u) in tr[n].members && tr[n].members[(team, u)].role.Owner? <==> u == tr[n].teams[team]
  {
    RunKeepsRoles(tr, steps, n);
  }

  /** Admins were added by the owner; plain members by the owner or an admin; nobody has another role. */
  lemma WhoAddedWhom(tr: seq<State>, steps: seq<Step>, n: nat, team: int, user: int)
    requires Run(tr, steps) && n < |tr| && (team, user) in tr[n].members
    ensures team in tr[n].teams
    ensures var m := tr[n].members[(team, user)];
      var adder := (team, m.addedBy);
      && adder in tr[n].members
      && !m.role.Other?
      && (m.role.Admin? ==> tr[n].members[adder].role.Owner?)
      && (m.role.Member? ==> tr[n].members[adder].role.Owner? || tr[n].members[adder].role.Admin?)
  {
    RunKeepsRoles(tr, steps, n);
  }

  /** Between any two moments of a run nobody leaves a team and no role changes. */
  lemma {:induction false} RolesNeverChange(tr: seq<State>, steps: seq<Step>, m: nat, n: nat)
    requires Run(tr, steps) && m <= n < |tr|
    ensures Grows(tr[m].members, tr[n].members)
    decreases n
  {
    if m < n {
      RolesNeverChange(tr, steps, m, n - 1);
      RunKeepsRoles(tr, steps, n - 1);
      assert StepAt(tr, steps, n - 1);
      NextGrows(tr[n - 1], steps[n - 1], tr[n]);
    }
  }

  // ---------------------------------------------------------------- the invite race

  ghost predicate JoinInv(s: State) {
    forall p :: s.joined[p] <= 1 && (s.joined[p] == 1 ==> p in s.members)
  }

  /** A lease is held by an invite, and is live unless the pair was disturbed. */
  ghost predicate Holder(s: State, r: int)
    requires r in s.lease.inside
  {
    && r in s.invites && s.invites[r].lock == Leased && s.invites[r].phase != Opened && s.invites[r].phase != Cleared
    && s.lease.inside[r].key == PairOf(s.invites[r])
    && (PairOf(s.invites[r]) !in s.disturbed ==> s.lease.now < s.lease.inside[r].expiry)
  }

  /** An invite past the lock holds a lease, or bypassed the lock. */
  ghost predicate Holding(s: State, r: int)
    requires r in s.invites
  {
    match s.invites[r].lock
    case Free => s.invites[r].phase == Opened || s.invites[r].phase == Cleared
    case Leased => r in s.lease.inside
    case Bypassed => PairOf(s.invites[r]) in s.disturbed
  }

  ghost predicate Absent(s: State, r: int)
    requires r in s.invites
  {
    (s.invites[r].phase == Checked || s.invites[r].phase == Mailed) && PairOf(s.invites[r]) !in s.disturbed ==>
      PairOf(s.invites[r]) !in s.members
  }

  ghost predicate SectionInv(s: State) {
    && Lease.Inv(s.lease)
    && (forall r {:trigger Holder(s, r)} :: r in s.lease.inside ==> Holder(s, r))
    && (forall r {:trigger Holding(s, r)} :: r in s.invites ==> Holding(s, r))
    && (forall r {:trigger Absent(s, r)} :: r in s.invites ==> Absent(s, r))
  }

  /** Emails of an undisturbed pair are accounted for by what became of each of them. */
  ghost predicate MailInv(s: State) {
    forall p {:trigger MailOk(s, p)} :: p !in s.disturbed ==> MailOk(s, p)
  }

  ghost predicate MailOk(s: State, p: Pair) {
    || s.mailed[p] <= s.joined[p] + s.failed[p]
    || (&& s.mailed[p] == s.joined[p] + s.failed[p] + 1
        && exists r :: r in s.invites && s.invites[r].phase == Mailed && PairOf(s.invites[r]) == p)
  }

  lemma SectionIsExclusive(s: State, q: int, r: int)
    requires SectionInv(s)
    requires q in s.invites && r in s.invites && s.invites[q].lock != Free && s.invites[r].lock != Free
    requires PairOf(s.invites[q]) == PairOf(s.invites[r]) && PairOf(s.invites[q]) !in s.disturbed
    ensures q == r
  {
    assert Holding(s, q) && Holding(s, r) && Holder(s, q) && Holder(s, r);
    Lease.LeaseExcludes(s.lease, q, r);
  }

  lemma NextKeepsJoin(s: State, step: Step, s': State)
    requires TeamsInv(s) && JoinInv(s) && Next(s, step, s')
    ensures JoinInv(s')
  {
    NextGrows(s, step, s');
  }

  lemma NextKeepsLease(s: State, step: Step, s': State)
    requires Lease.Inv(s.lease) && Next(s, step, s')
    ensures Lease.Inv(s'.lease)
  {
    match step {
      case Acquire(r, token, ttl) =>
        if !Lease.Taken(s.lease.locks, s.lease.now, PairOf(s.invites[r])) {
          Lease.NextKeepsInv(s.lease, Lease.Acquire(r, PairOf(s.invites[r]), token, ttl), s'.lease);
        }
      case BypassLost(r, token, ttl) =>
        Lease.NextKeepsInv(s.lease, Lease.Orphan(PairOf(s.invites[r]), token, ttl), s'.lease);
      case Release(r, ok) =>
        if s.invites[r].lock == Leased {
          Lease.NextKeepsInv(s.lease, if ok then Lease.Release(r) else Lease.Abandon(r), s'.lease);
        }
      case Tick(now) => Lease.NextKeepsInv(s.lease, Lease.Tick(now), s'.lease);
      case _ =>
    }
  }

  lemma EnterStepKeepsHolds(s: State, step: Step, s': State, q: int)
    requires Next(s, step, s') && (step.Acquire? || step.Bypass? || step.BypassLost?)
    requires (q in s.lease.inside ==> Holder(s, q)) && (q in s.invites ==> Holding(s, q))
    ensures (q in s'.lease.inside ==> Holder(s', q)) && (q in s'.invites ==> Holding(s', q))
  {
  }

  lemma LeaveStepKeepsHolds(s: State, step: Step, s': State, q: int)
    requires Next(s, step, s') && (step.Release? || step.Tick?)
    requires (q in s.lease.inside ==> Holder(s, q)) && (q in s.invites ==> Holding(s, q))
    ensures (q in s'.lease.inside ==> Holder(s', q)) && (q in s'.invites ==> Holding(s', q))
  {
  }

  lemma CheckStepKeepsHolds(s: State, step: Step, s': State, q: int)
    requires Next(s, step, s') && (step.Clear? || step.Check? || step.Quit?)
    requires (q in s.lease.inside ==> Holder(s, q)) && (q in s.invites ==> Holding(s, q))
    ensures (q in s'.lease.inside ==> Holder(s', q)) && (q in s'.invites ==> Holding(s', q))
  {
  }

  lemma WriteStepKeepsHolds(s: State, step: Step, s': State, q: int)
    requires Next(s, step, s') && (step.CreateTeam? || step.Open? || step.Send? || step.Add?)
    requires (q in s.lease.inside ==> Holder(s, q)) && (q in s.invites ==> Holding(s, q))
    ensures (q in s'.lease.inside ==> Holder(s', q)) && (q in s'.invites ==> Holding(s', q))
  {
  }

  lemma NextKeepsHolds(s: State, step: Step, s': State, q: int)
    requires SectionInv(s) && Next(s, step, s')
    ensures (q in s'.lease.inside ==> Holder(s', q)) && (q in s'.invites ==> Holding(s', q))
  {
    if q in s.lease.inside { assert Holder(s, q); }
    if q in s.invites { assert Holding(s, q); }
    if step.Clear? || step.Check? || step.Quit? {
      CheckStepKeepsHolds(s, step, s', q);
    } else if step.Acquire? || step.Bypass? || step.BypassLost? {
      EnterStepKeepsHolds(s, step, s', q);
    } else if step.Release? || step.Tick? {
      LeaveStepKeepsHolds(s, step, s', q);
    } else {
      WriteStepKeepsHolds(s, step, s', q);
    }
  }

  lemma AddKeepsAbsent(s: State, r: int, insert: Insert, s': State, q: int)
    requires SectionInv(s) && Next(s, Add(r, insert), s') && q in s'.invites
    ensures Absent(s', q)
  {
    assert Absent(s, q);
    if r != q && PairOf(s.invites[q]) == PairOf(s.invites[r])
      && (s.invites[q].phase == Checked || s.invites[q].phase == Mailed) && PairOf(s.invites[q]) !in s.disturbed {
      assert Holding(s, q) && Holding(s, r);
      SectionIsExclusive(s, q, r);
    }
  }

  lemma CreateTeamKeepsAbsent(s: State, user: int, s': State, q: int)
    requires TeamsInv(s) && Next(s, CreateTeam(user), s') && q in s.invites && Absent(s, q)
    ensures Absent(s', q)
  {
    assert s.invites[q].team in s.teams;
  }

  lemma OtherStepKeepsAbsent(s: State, step: Step, s': State, q: int)
    requires Next(s, step, s') && !step.Add? && !step.CreateTeam? && q in s'.invites
    requires (q in s.invites ==> Absent(s, q))
    requires s'.members == s.members
    ensures Absent(s', q)
  {
  }

  lemma NextKeepsAbsent(s: State, step: Step, s': State, q: int)
    requires TeamsInv(s) && SectionInv(s) && Next(s, step, s') && q in s'.invites
    ensures Absent(s', q)
  {
    if q in s.invites { assert Absent(s, q); }
    match step {
      case Add(r, insert) => AddKeepsAbsent(s, r, insert, s', q);
      case CreateTeam(user) => CreateTeamKeepsAbsent(s, user, s', q);
      case _ =>
        NextWrites(s, step, s');
        OtherStepKeepsAbsent(s, step, s', q);
    }
  }

  lemma NextKeepsSection(s: State, step: Step, s': State)
    requires TeamsInv(s) && SectionInv(s) && Next(s, step, s')
    ensures SectionInv(s')
  {
    NextKeepsLease(s, step, s');
    forall q | q in s'.lease.inside ensures Holder(s', q) { NextKeepsHolds(s, step, s', q); }
    forall q | q in s'.invites ensures Holding(s', q) { NextKeepsHolds(s, step, s', q); }
    forall q | q in s'.invites ensures Absent(s', q) {
      NextKeepsAbsent(s, step, s', q);
    }
  }

  lemma NextKeepsMail(s: State, step: Step, s': State)
    requires TeamsInv(s) && SectionInv(s) && JoinInv(s) && MailInv(s) && Next(s, step, s')
    ensures MailInv(s')
  {
    forall p | p !in s'.disturbed ensures MailOk(s', p) {
      assert p !in s.disturbed && MailOk(s, p);
      if s.mailed[p] == s.joined[p] + s.failed[p] + 1 {
        var q :| q in s.invites && s.invites[q].phase == Mailed && PairOf(s.invites[q]) == p;
        MailedOne(s, step, s', p, q);
      } else {
        MailedNone(s, step, s', p);
      }
    }
  }

  /** Between its email and its insert an invite can only be overtaken by steps that do not concern it. */
  lemma MailedStays(s: State, step: Step, s': State, q: int)
    requires Next(s, step, s') && !step.Send? && !step.Add? && q in s.invites && s.invites[q].phase == Mailed
    ensures q in s'.invites && s'.invites[q] == s.invites[q]
    ensures s'.mailed == s.mailed && s'.joined == s.joined && s'.failed == s.failed
  {
  }

  lemma MailedOne(s: State, step: Step, s': State, p: Pair, q: int)
    requires SectionInv(s) && Next(s, step, s') && p !in s.disturbed
    requires q in s.invites && s.invites[q].phase == Mailed && PairOf(s.invites[q]) == p
    requires s.mailed[p] == s.joined[p] + s.failed[p] + 1
    ensures MailOk(s', p)
  {
    match step {
      case Send(r, mail) =>
        if PairOf(s.invites[r]) == p {
          assert Holding(s, q) && Holding(s, r);
          SectionIsExclusive(s, q, r);
        }
        assert q in s'.invites && s'.invites[q] == s.invites[q];
      case Add(r, insert) =>
        if r != q { assert q in s'.invites && s'.invites[q] == s.invites[q]; }
      case _ =>
        MailedStays(s, step, s', q);
    }
  }

  lemma MailedNone(s: State, step: Step, s': State, p: Pair)
    requires TeamsInv(s) && Next(s, step, s')
    requires s.mailed[p] <= s.joined[p] + s.failed[p]
    ensures MailOk(s', p)
  {
    if step.Send? && step.mail.Sent? && PairOf(s.invites[step.r]) == p {
      assert step.r in s'.invites && s'.invites[step.r].phase == Mailed;
    }
  }

  lemma {:induction false} RunKeepsInvites(tr: seq<State>, steps: seq<Step>, n: nat)
    requires Run(tr, steps) && n < |tr|
    ensures TeamsInv(tr[n]) && JoinInv(tr[n]) && SectionInv(tr[n]) && MailInv(tr[n])
  {
    if n > 0 {
      RunKeepsInvites(tr, steps, n - 1);
      assert StepAt(tr, steps, n - 1);
      var s, step, s' := tr[n - 1], steps[n - 1], tr[n];
      NextGrows(s, step, s');
      NextKeepsJoin(s, step, s');
      NextKeepsSection(s, step, s');
      NextKeepsMail(s, step, s');
    }
  }

  /** A release that reaches Redis before the lease has run out frees the lock of its pair. */
  lemma ReleaseUnlocks(tr: seq<State>, steps: seq<Step>, n: nat)
    requires Run(tr, steps) && n < |steps| && steps[n].Release? && steps[n].ok && steps[n].r in tr[n].lease.inside
    requires tr[n].lease.now < tr[n].lease.inside[steps[n].r].expiry
    ensures steps[n].r in tr[n].invites
    ensures !Lease.Taken(tr[n + 1].lease.locks, tr[n + 1].lease.now, PairOf(tr[n].invites[steps[n].r]))
  {
    RunKeepsInvites(tr, steps, n);
    assert StepAt(tr, steps, n);
    assert Holder(tr[n], steps[n].r) && Lease.Own(tr[n].lease, steps[n].r);
  }

  /** No row is inserted unless the email of its invite went out, or none is configured. */
  lemma {:induction false} NoRowWithoutMail(tr: seq<State>, steps: seq<Step>, n: nat, r: int) returns (k: nat)
    requires Run(tr, steps) && n < |tr| && r in tr[n].invites && tr[n].invites[r].phase == Mailed
    ensures k < n && steps[k].Send? && steps[k].r == r && (steps[k].mail.Sent? || steps[k].mail.NotConfigured?)
    ensures forall i :: k < i <= n ==> r in tr[i].invites && tr[i].invites[r] == tr[n].invites[r]
  {
    assert StepAt(tr, steps, n - 1);
    if r in tr[n - 1].invites && tr[n - 1].invites[r].phase == Mailed {
      k := NoRowWithoutMail(tr, steps, n - 1, r);
    } else {
      k := n - 1;
    }
  }

  // ---------------------------------------------------------------- who gets in

  lemma Extend(tr: seq<State>, steps: seq<Step>, step: Step, s': State)
    requires Run(tr, steps) && Next(tr[|steps|], step, s')
    ensures Run(tr + [s'], steps + [step])
  {
    var tr', steps' := tr + [s'], steps + [step];
    forall i | 0 <= i < |steps'| ensures StepAt(tr', steps', i) {
      if i < |steps| { assert StepAt(tr, steps, i); }
    }
  }

  /** The owner may invite members and admins, an admin may invite members. */
  predicate Entitled(inviter: Role, target: Role) {
    (inviter.Owner? && (target.Member? || target.Admin?)) || (inviter.Admin? && target.Member?)
  }

  /** An entitled invite passes the role check and, when nobody holds its lock, takes it. */
  lemma LockIsPossible(
    tr: seq<State>, steps: seq<Step>, r: int, inviter: int, team: int, user: int, role: Role, token: string, ttl: nat)
    returns (tr': seq<State>, steps': seq<Step>)
    requires Run(tr, steps) && r !in tr[|steps|].invites && r !in tr[|steps|].lease.inside
    requires (team, inviter) in tr[|steps|].members && Entitled(tr[|steps|].members[(team, inviter)].role, role)
    requires !Lease.Taken(tr[|steps|].lease.locks, tr[|steps|].lease.now, (team, user))
    requires ttl > 0 && token !in tr[|steps|].lease.issued
    ensures Run(tr', steps')
    ensures steps' == steps + [Open(r, inviter, team, user, role), Clear(r), Acquire(r, token, ttl)]
    ensures var s, s' := tr[|steps|], tr'[|steps'|];
      s' == s.(lease := s'.lease, invites := s.invites[r := Invite(inviter, team, user, role, Leased, Guarded)])
  {
    RunKeepsRoles(tr, steps, |steps|);
    var s := tr[|steps|];
    var s1 := s.(invites := s.invites[r := Invite(inviter, team, user, role, Free, Opened)]);
    Extend(tr, steps, Open(r, inviter, team, user, role), s1);
    var tr1, steps1 := tr + [s1], steps + [Open(r, inviter, team, user, role)];
    var s2 := Moved(s1, r, Cleared);
    Extend(tr1, steps1, Clear(r), s2);
    var tr2, steps2 := tr1 + [s2], steps1 + [Clear(r)];
    var s3 := AcquireIsPossible(s2, r, token, ttl);
    Extend(tr2, steps2, Acquire(r, token, ttl), s3);
    tr', steps' := tr2 + [s3], steps2 + [Acquire(r, token, ttl)];
    assert s3.invites == s.invites[r := Invite(inviter, team, user, role, Leased, Guarded)];
  }

  lemma AcquireIsPossible(s: State, r: int, token: string, ttl: nat) returns (s': State)
    requires r in s.invites && s.invites[r].phase == Cleared && r !in s.lease.inside
    requires !Lease.Taken(s.lease.locks, s.lease.now, PairOf(s.invites[r]))
    requires ttl > 0 && token !in s.lease.issued
    ensures Next(s, Acquire(r, token, ttl), s')
    ensures s' == s.(lease := s'.lease, invites := s.invites[r := s.invites[r].(lock := Leased, phase := Guarded)])
  {
    var l, p := s.lease, PairOf(s.invites[r]);
    var l' := l.(locks := Lease.SetNX(l.locks, l.now, p, token, ttl), issued := l.issued + {token},
                 acquired := l.acquired + 1,
                 inside := l.inside[r := Lease.Hold(p, token, l.now, l.now + ttl, l.acquired)]);
    s' := s.(lease := l', invites := s.invites[r := s.invites[r].(lock := Leased, phase := Guarded)]);
  }

  /** Past the lock, an invite of somebody who is not a member sends its email and inserts the row. */
  lemma JoinIsPossible(tr: seq<State>, steps: seq<Step>, r: int) returns (tr': seq<State>, steps': seq<Step>)
    requires Run(tr, steps) && r in tr[|steps|].invites && tr[|steps|].invites[r].phase == Guarded
    requires PairOf(tr[|steps|].invites[r]) !in tr[|steps|].members
    ensures Run(tr', steps') && steps' == steps + [Check(r), Send(r, Sent), Add(r, Inserted)]
    ensures var s, s', i := tr[|steps|], tr'[|steps'|], tr[|steps|].invites[r];
      && s'.members == s.members[(i.team, i.user) := Membership(i.role, i.inviter)]
      && s'.mailed[(i.team, i.user)] == s.mailed[(i.team, i.user)] + 1
  {
    var s := tr[|steps|];
    var i := s.invites[r];
    var s1 := Moved(s, r, Checked);
    Extend(tr, steps, Check(r), s1);
    var tr1, steps1 := tr + [s1], steps + [Check(r)];
    var s2 := Moved(s1, r, Mailed).(mailed := s.mailed + multiset{PairOf(i)});
    Extend(tr1, steps1, Send(r, Sent), s2);
    var tr2, steps2 := tr1 + [s2], steps1 + [Send(r, Sent)];
    var s3 := Moved(s2, r, Leaving).(members := s.members[PairOf(i) := Membership(i.role, i.inviter)],
                                     joined := s.joined + multiset{PairOf(i)});
    Extend(tr2, steps2, Add(r, Inserted), s3);
    tr', steps' := tr2 + [s3], steps2 + [Add(r, Inserted)];
  }

  /**
    In every reachable state the owner's invite of a member or an admin, and an admin's invite of a
    member, can run to the inserted row with that role, if the user is no member and nobody holds
    the lock.
   */
  lemma InviteIsPossible(
    tr: seq<State>, steps: seq<Step>, r: int, inviter: int, team: int, user: int, role: Role, token: string, ttl: nat)
    returns (tr': seq<State>, steps': seq<Step>)
    requires Run(tr, steps) && r !in tr[|steps|].invites && r !in tr[|steps|].lease.inside
    requires (team, inviter) in tr[|steps|].members && Entitled(tr[|steps|].members[(team, inviter)].role, role)
    requires (team, user) !in tr[|steps|].members
    requires !Lease.Taken(tr[|steps|].lease.locks, tr[|steps|].lease.now, (team, user))
    requires ttl > 0 && token !in tr[|steps|].lease.issued
    ensures Run(tr', steps') && steps < steps'
    ensures tr'[|steps'|].members == tr[|steps|].members[(team, user) := Membership(role, inviter)]
  {
    var tr1, steps1 := LockIsPossible(tr, steps, r, inviter, team, user, role, token, ttl);
    tr', steps' := JoinIsPossible(tr1, steps1, r);
  }

  /** And nobody else's: a row not of the creator was invited by somebody entitled to give that role. */
  lemma OnlyEntitledInvites(tr: seq<State>, steps: seq<Step>, n: nat, p: Pair)
    requires Run(tr, steps) && n < |steps| && p !in tr[n].members && p in tr[n + 1].members && !steps[n].CreateTeam?
    ensures var m := tr[n + 1].members[p];
      (p.0, m.addedBy) in tr[n].members && Entitled(tr[n].members[(p.0, m.addedBy)].role, m.role)
  {
    RunKeepsRoles(tr, steps, n);
    assert StepAt(tr, steps, n);
    NextWrites(tr[n], steps[n], tr[n + 1]);
    assert MayInvite(tr[n].members, tr[n].invites[steps[n].r]);
  }

  // ---------------------------------------------------------------- successes and emails

  /** At most one invite per (team, user) ever succeeds, whatever happens to the lock. */
  lemma InviteSucceedsOnce(tr: seq<State>, steps: seq<Step>, n: nat, p: Pair)
    requires Run(tr, steps) && n < |tr|
    ensures tr[n].joined[p] <= 1
    ensures tr[n].joined[p] == 1 ==> p in tr[n].members
  {
    RunKeepsInvites(tr, steps, n);
  }

  /** With a lock that is neither bypassed nor outlived, a user gets at most one email more than failed inserts. */
  lemma EmailsBounded(tr: seq<State>, steps: seq<Step>, n: nat, p: Pair)
    requires Run(tr, steps) && n < |tr| && p !in tr[n].disturbed
    ensures tr[n].mailed[p] <= 1 + tr[n].failed[p]
  {
    RunKeepsInvites(tr, steps, n);
    var s := tr[n];
    assert MailOk(s, p);
    if s.mailed[p] == s.joined[p] + s.failed[p] + 1 {
      var r :| r in s.invites && s.invites[r].phase == Mailed && PairOf(s.invites[r]) == p;
      assert Absent(s, r);
    }
  }
}
