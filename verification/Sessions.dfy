/**
  Login and refresh-token rotation.

  A login inserts a session for a fresh refresh token; the insert may fail, or take effect and lose
  its reply, and then the login fails although its session exists. A refresh checks the token, locks the session
  row of its hash, and, in one transaction, revokes that session and inserts the one of a fresh
  token. Any number of logins and refreshes interleave, and a transaction may fail at any point.
  Tokens stand for signed JWTs with their unique id, hashing is injective, so the table is keyed by
  token. `parent` and the four log fields of the state are bookkeeping that the program never reads.
 */
module Sessions {
  import opened Common

  datatype TokenType = Access | Refresh

  /** A signed token; `id` is its uuid. */
  datatype Token = Token(id: nat, subject: int, kind: TokenType, exp: int)

  datatype Session = Session(user: int, expiresAt: int, revokedAt: Option<int>, parent: Option<Token>)

  datatype Phase = Started | Locked | Swapped(child: Token)

  /** A running Refresh: the presented token and the time it read before the transaction. */
  datatype Tx = Tx(token: Token, now: int, phase: Phase)

  datatype Config = Config(accessTtl: nat, refreshTtl: nat, clockSkew: nat)

  datatype State = State(
    now: int,
    issued: set<Token>,
    nextId: nat,
    sessions: map<Token, Session>,
    locks: map<Token, int>,
    txs: map<int, Tx>,
    logins: multiset<int>,           // successful logins per user
    unheard: multiset<int>,          // logins per user that failed although their session was inserted
    redeemed: multiset<Token>,       // committed rotations per presented token
    lines: seq<seq<Token>>)          // one line of tokens per inserted login session

  /** How the insert of a login's session ends. */
  datatype Reply = Inserted | ReplyLost | NotInserted

  datatype Step =
    | Tick(now: int)
    | Login(user: int, reply: Reply)
    | Begin(x: int, token: Token)
    | Lock(x: int)
    | Swap(x: int)
    | Commit(x: int)
    | Fail(x: int)

  /** newTokenPair at time `at`: an access and a refresh token with the next two ids. */
  function AccessToken(c: Config, s: State, user: int, at: int): Token {
    Token(s.nextId, user, Access, at + c.accessTtl)
  }

  function RefreshToken(c: Config, s: State, user: int, at: int): Token {
    Token(s.nextId + 1, user, Refresh, at + c.refreshTtl)
  }

  function WithPair(c: Config, s: State, user: int, at: int): State {
    s.(issued := s.issued + {AccessToken(c, s, user, at), RefreshToken(c, s, user, at)}, nextId := s.nextId + 2)
  }

  /** Signed by this service, of type refresh, and not expired beyond the allowed clock skew. */
  predicate Parses(c: Config, s: State, t: Token) {
    t in s.issued && t.kind == Refresh && s.now < t.exp + c.clockSkew
  }

  predicate Usable(s: State, tx: Tx) {
    && tx.token in s.sessions
    && s.sessions[tx.token].revokedAt.None?
    && s.sessions[tx.token].expiresAt >= tx.now
  }

  function Ended(s: State, x: int): State
    requires x in s.txs
  {
    s.(txs := s.txs - {x}, locks := if s.txs[x].phase.Started? then s.locks else s.locks - {s.txs[x].token})
  }

  /** The index of the line that holds a token. */
  ghost predicate On(s: State, t: Token, l: nat) {
    l < |s.lines| && t in s.lines[l]
  }

  ghost predicate Init(s: State) {
    && s.issued == {} && s.sessions == map[] && s.locks == map[] && s.txs == map[]
    && s.logins == multiset{} && s.unheard == multiset{} && s.redeemed == multiset{} && s.lines == []
  }

  ghost predicate LoginStep(c: Config, s: State, user: int, heard: bool, s': State) {
    var t := RefreshToken(c, s, user, s.now);
    s' == WithPair(c, s, user, s.now).(
            sessions := s.sessions[t := Session(user, s.now + c.refreshTtl, None, None)],
            logins := if heard then s.logins + multiset{user} else s.logins,
            unheard := if heard then s.unheard else s.unheard + multiset{user},
            lines := s.lines + [[t]])
  }

  /** Revoke and insert, still inside the transaction: only the token ids are spent for good. */
  ghost predicate SwapStep(c: Config, s: State, x: int, s': State) {
    && x in s.txs && s.txs[x].phase.Locked? && Usable(s, s.txs[x])
    && var user := s.txs[x].token.subject;
    && s' == WithPair(c, s, user, s.now).(
         txs := s.txs[x := s.txs[x].(phase := Swapped(RefreshToken(c, s, user, s.now)))])
  }

  ghost predicate CommitStep(c: Config, s: State, x: int, l: nat, s': State) {
    && x in s.txs && s.txs[x].phase.Swapped?
    && var tx := s.txs[x];
    var child := tx.phase.child;
    && tx.token in s.sessions && On(s, tx.token, l)
    && s' == s.(
         txs := s.txs - {x},
         locks := s.locks - {tx.token},
         sessions := s.sessions[tx.token := s.sessions[tx.token].(revokedAt := Some(tx.now))]
                       [child := Session(tx.token.subject, tx.now + c.refreshTtl, None, Some(tx.token))],
         redeemed := s.redeemed + multiset{tx.token},
         lines := s.lines[l := s.lines[l] + [child]])
  }

  /**
    `Fail` is every way a refresh ends without a commit: a token that does not parse, a missing,
    revoked or expired session, a database error, a failed commit.
   */
  ghost predicate Next(c: Config, s: State, step: Step, s': State) {
    match step
    case Tick(now) => s.now <= now && s' == s.(now := now)
    case Login(user, reply) =>
      if reply.NotInserted? then s' == WithPair(c, s, user, s.now) else LoginStep(c, s, user, reply.Inserted?, s')
    case Begin(x, token) =>
      x !in s.txs && Parses(c, s, token) && s' == s.(txs := s.txs[x := Tx(token, s.now, Started)])
    case Lock(x) =>
      && x in s.txs && s.txs[x].phase.Started? && s.txs[x].token in s.sessions && s.txs[x].token !in s.locks
      && s' == s.(txs := s.txs[x := s.txs[x].(phase := Locked)], locks := s.locks[s.txs[x].token := x])
    case Swap(x) => SwapStep(c, s, x, s')
    case Commit(x) => exists l :: CommitStep(c, s, x, l, s')
    case Fail(x) => x in s.txs && s' == Ended(s, x)
  }

  ghost predicate StepAt(c: Config, tr: seq<State>, steps: seq<Step>, i: int)
    requires |tr| == |steps| + 1 && 0 <= i < |steps|
  {
    Next(c, tr[i], steps[i], tr[i + 1])
  }

  ghost predicate Run(c: Config, tr: seq<State>, steps: seq<Step>) {
    && |tr| == |steps| + 1
    && Init(tr[0])
    && forall i {:trigger StepAt(c, tr, steps, i)} :: 0 <= i < |steps| ==> StepAt(c, tr, steps, i)
  }

  // ---------------------------------------------------------------- the invariant

  ghost predicate SessionOk(s: State, t: Token)
    requires t in s.sessions
  {
    && t in s.issued && t.kind == Refresh
    && s.sessions[t].user == t.subject
    && (exists l :: On(s, t, l))
    && s.redeemed[t] == (if s.sessions[t].revokedAt.Some? then 1 else 0)
  }

  /** A line: tokens of one user, each redeemed for the next one, only the last one still active. */
  ghost predicate LineOk(s: State, l: int)
    requires 0 <= l < |s.lines|
  {
    var line := s.lines[l];
    && line != []
    && (forall i :: 0 <= i < |line| ==> line[i] in s.sessions)
    && (forall i :: 0 <= i < |line| ==> line[i].subject == line[0].subject)
    && (forall i :: 0 <= i < |line| ==> (s.sessions[line[i]].revokedAt.None? <==> i == |line| - 1))
    && s.sessions[line[0]].parent == None
    && (forall i :: 0 < i < |line| ==> s.sessions[line[i]].parent == Some(line[i - 1]))
    && (forall i, j :: 0 <= i < j < |line| ==> line[i] != line[j])
  }

  ghost predicate LinesDisjoint(s: State) {
    forall t, l, m :: On(s, t, l) && On(s, t, m) ==> l == m
  }

  ghost predicate TxOk(s: State, x: int)
    requires x in s.txs
  {
    var tx := s.txs[x];
    && tx.token.kind == Refresh
    && (!tx.phase.Started? ==> tx.token in s.sessions && tx.token in s.locks && s.locks[tx.token] == x)
    && (tx.phase.Swapped? ==>
          && s.sessions[tx.token].revokedAt.None?
          && tx.phase.child in s.issued && tx.phase.child !in s.sessions && tx.phase.child.kind == Refresh
          && tx.phase.child.subject == tx.token.subject)
  }

  ghost predicate Inv(s: State) {
    && (forall t :: t in s.issued ==> t.id < s.nextId)
    && (forall t {:trigger SessionOk(s, t)} :: t in s.sessions ==> SessionOk(s, t))
    && (forall t :: t !in s.sessions ==> s.redeemed[t] == 0)
    && (forall l {:trigger LineOk(s, l)} :: 0 <= l < |s.lines| ==> LineOk(s, l))
    && LinesDisjoint(s)
    && (forall x {:trigger TxOk(s, x)} :: x in s.txs ==> TxOk(s, x))
    && (forall x, y :: x in s.txs && y in s.txs && x != y && s.txs[x].phase.Swapped? && s.txs[y].phase.Swapped? ==>
          s.txs[x].phase.child != s.txs[y].phase.child)
  }

  /** Only these parts matter to sessions, lines and redemptions. */
  ghost predicate SameTable(s: State, s': State) {
    && s'.sessions == s.sessions && s'.redeemed == s.redeemed && s'.lines == s.lines
    && s'.logins == s.logins && s'.unheard == s.unheard
    && s.issued <= s'.issued && s.nextId <= s'.nextId
  }

  ghost predicate TableInv(s: State) {
    && (forall t {:trigger SessionOk(s, t)} :: t in s.sessions ==> SessionOk(s, t))
    && (forall t :: t !in s.sessions ==> s.redeemed[t] == 0)
    && (forall l {:trigger LineOk(s, l)} :: 0 <= l < |s.lines| ==> LineOk(s, l))
    && LinesDisjoint(s)
  }

  lemma SameTableKeeps(s: State, s': State)
    requires TableInv(s) && SameTable(s, s')
    ensures TableInv(s')
  {
    forall t, l ensures On(s', t, l) == On(s, t, l) {}
    forall t | t in s'.sessions ensures SessionOk(s', t) {
      assert SessionOk(s, t);
      var l :| On(s, t, l);
      assert On(s', t, l);
    }
    forall l | 0 <= l < |s'.lines| ensures LineOk(s', l) { assert LineOk(s, l); }
  }

  lemma KnownIds(s: State)
    requires Inv(s)
    ensures forall t :: t in s.sessions ==> t.id < s.nextId
  {
    forall t | t in s.sessions ensures t.id < s.nextId { assert SessionOk(s, t); }
  }

  lemma SwapKeepsTxs(c: Config, s: State, x: int, s': State, y: int)
    requires Inv(s) && SwapStep(c, s, x, s') && y in s'.txs
    ensures TxOk(s', y)
    ensures y != x && s'.txs[y].phase.Swapped? ==> s'.txs[y].phase.child != s'.txs[x].phase.child
  {
    KnownIds(s);
    assert TxOk(s, x) && TxOk(s, y);
  }

  lemma QuietKeeps(c: Config, s: State, step: Step, s': State)
    requires Inv(s) && Next(c, s, step, s') && !(step.Login? && !step.reply.NotInserted?) && !step.Commit?
    ensures Inv(s')
  {
    SameTableKeeps(s, s');
    forall x | x in s'.txs ensures TxOk(s', x) {
      if x in s.txs { assert TxOk(s, x); }
      match step {
        case Swap(y) => SwapKeepsTxs(c, s, y, s', x);
        case Fail(y) => assert TxOk(s, y);
        case Lock(y) => assert TxOk(s, y);
        case _ =>
      }
    }
    if step.Swap? {
      forall y | y in s'.txs
        ensures y != step.x && s'.txs[y].phase.Swapped? ==> s'.txs[y].phase.child != s'.txs[step.x].phase.child
      {
        SwapKeepsTxs(c, s, step.x, s', y);
      }
    }
  }

  /** A line that holds none of the changed tokens stays as it is. */
  lemma LineStays(s: State, s': State, l: int)
    requires 0 <= l < |s.lines| && l < |s'.lines| && s'.lines[l] == s.lines[l] && LineOk(s, l)
    requires forall t :: t in s.lines[l] && t in s.sessions ==> t in s'.sessions && s'.sessions[t] == s.sessions[t]
    ensures LineOk(s', l)
  {
  }

  lemma LoginKeepsLine(c: Config, s: State, user: int, heard: bool, s': State, l: int)
    requires Inv(s) && LoginStep(c, s, user, heard, s') && 0 <= l < |s.lines|
    ensures RefreshToken(c, s, user, s.now) !in s.lines[l] && LineOk(s', l)
  {
    KnownIds(s);
    assert LineOk(s, l);
    assert s'.lines[l] == s.lines[l];
    LineStays(s, s', l);
  }

  lemma LoginAddsLine(c: Config, s: State, user: int, heard: bool, s': State)
    requires LoginStep(c, s, user, heard, s')
    ensures LineOk(s', |s.lines|)
  {
    assert s'.lines[|s.lines|] == [RefreshToken(c, s, user, s.now)];
  }

  /** Tokens stay on their lines, and only the new one comes in. */
  lemma LoginOn(c: Config, s: State, user: int, heard: bool, s': State, u: Token, l: nat)
    requires LoginStep(c, s, user, heard, s')
    ensures On(s', u, l) <==> On(s, u, l) || (u == RefreshToken(c, s, user, s.now) && l == |s.lines|)
  {
    if l < |s.lines| { assert s'.lines[l] == s.lines[l]; }
  }

  lemma LoginKeepsDisjoint(c: Config, s: State, user: int, heard: bool, s': State)
    requires Inv(s) && LoginStep(c, s, user, heard, s')
    ensures LinesDisjoint(s')
  {
    forall u, l: nat, m: nat | On(s', u, l) && On(s', u, m) ensures l == m {
      LoginOn(c, s, user, heard, s', u, l);
      LoginOn(c, s, user, heard, s', u, m);
      if l < |s.lines| { LoginKeepsLine(c, s, user, heard, s', l); }
      if m < |s.lines| { LoginKeepsLine(c, s, user, heard, s', m); }
    }
  }

  lemma LoginKeepsSession(c: Config, s: State, user: int, heard: bool, s': State, u: Token)
    requires Inv(s) && LoginStep(c, s, user, heard, s') && u in s'.sessions
    ensures SessionOk(s', u)
  {
    KnownIds(s);
    if u == RefreshToken(c, s, user, s.now) {
      LoginOn(c, s, user, heard, s', u, |s.lines|);
    } else {
      assert SessionOk(s, u);
      var l :| On(s, u, l);
      LoginOn(c, s, user, heard, s', u, l);
    }
  }

  lemma LoginKeepsTable(c: Config, s: State, user: int, heard: bool, s': State)
    requires Inv(s) && LoginStep(c, s, user, heard, s')
    ensures TableInv(s')
  {
    LoginAddsLine(c, s, user, heard, s');
    LoginKeepsDisjoint(c, s, user, heard, s');
    forall l | 0 <= l < |s.lines| ensures LineOk(s', l) { LoginKeepsLine(c, s, user, heard, s', l); }
    forall u | u in s'.sessions ensures SessionOk(s', u) { LoginKeepsSession(c, s, user, heard, s', u); }
  }

  lemma LoginKeeps(c: Config, s: State, user: int, heard: bool, s': State)
    requires Inv(s) && LoginStep(c, s, user, heard, s')
    ensures Inv(s')
  {
    LoginKeepsTable(c, s, user, heard, s');
    KnownIds(s);
    forall x | x in s'.txs ensures TxOk(s', x) { assert TxOk(s, x); }
  }

  lemma CommitKeepsLine(c: Config, s: State, x: int, l: nat, s': State)
    requires CommitStep(c, s, x, l, s') && TxOk(s, x) && LineOk(s, l)
    ensures LineOk(s', l)
  {
    var token, child := s.txs[x].token, s.txs[x].phase.child;
    var line, line' := s.lines[l], s'.lines[l];
    var i :| 0 <= i < |line| && line[i] == token;
    assert i == |line| - 1;
    forall j | 0 <= j < |line| ensures line[j] != child { assert line[j] in s.sessions; }
    assert forall j :: 0 <= j < |line| ==> line'[j] == line[j];
    assert line'[|line|] == child;
  }

  lemma CommitKeepsTable(c: Config, s: State, x: int, l: nat, s': State)
    requires Inv(s) && CommitStep(c, s, x, l, s')
    ensures TableInv(s')
  {
    var token, child := s.txs[x].token, s.txs[x].phase.child;
    assert TxOk(s, x) && SessionOk(s, token) && LineOk(s, l);
    CommitKeepsLine(c, s, x, l, s');
    forall k | 0 <= k < |s.lines| ensures child !in s.lines[k] { assert LineOk(s, k); }
    forall u, k ensures On(s', u, k) <==> On(s, u, k) || (u == child && k == l) {}
    forall k | 0 <= k < |s'.lines| ensures LineOk(s', k) {
      if k != l {
        assert LineOk(s, k);
        assert !On(s, token, k);
        LineStays(s, s', k);
      }
    }
    forall u | u in s'.sessions ensures SessionOk(s', u) {
      if u == child {
        assert On(s', child, l);
      } else {
        assert SessionOk(s, u);
        var k :| On(s, u, k);
        assert On(s', u, k);
      }
    }
  }

  lemma CommitKeeps(c: Config, s: State, x: int, l: nat, s': State)
    requires Inv(s) && CommitStep(c, s, x, l, s')
    ensures Inv(s')
  {
    assert TxOk(s, x);
    CommitKeepsTable(c, s, x, l, s');
    forall y | y in s'.txs ensures TxOk(s', y) { assert TxOk(s, y); }
  }

  lemma NextKeepsInv(c: Config, s: State, step: Step, s': State)
    requires Inv(s) && Next(c, s, step, s')
    ensures Inv(s')
  {
    match step {
      case Login(user, reply) =>
        if reply.NotInserted? { QuietKeeps(c, s, step, s'); } else { LoginKeeps(c, s, user, reply.Inserted?, s'); }
      case Commit(x) =>
        var l :| CommitStep(c, s, x, l, s');
        CommitKeeps(c, s, x, l, s');
      case _ => QuietKeeps(c, s, step, s');
    }
  }

  lemma {:induction false} RunKeepsInv(c: Config, tr: seq<State>, steps: seq<Step>, n: nat)
    requires Run(c, tr, steps) && n < |tr|
    ensures Inv(tr[n])
  {
    if n > 0 {
      RunKeepsInv(c, tr, steps, n - 1);
      assert StepAt(c, tr, steps, n - 1);
      NextKeepsInv(c, tr[n - 1], steps[n - 1], tr[n]);
    }
  }

  // ---------------------------------------------------------------- what every run guarantees

  /** No refresh token is ever redeemed twice, and a revoked session was redeemed exactly once. */
  lemma RedeemedAtMostOnce(c: Config, tr: seq<State>, steps: seq<Step>, n: nat, t: Token)
    requires Run(c, tr, steps) && n < |tr|
    ensures tr[n].redeemed[t] <= 1
    ensures t in tr[n].sessions ==> (tr[n].redeemed[t] == 1 <==> tr[n].sessions[t].revokedAt.Some?)
  {
    RunKeepsInv(c, tr, steps, n);
    if t in tr[n].sessions { assert SessionOk(tr[n], t); }
  }

  /** Every session's user is its token's subject. */
  lemma SessionUserIsSubject(c: Config, tr: seq<State>, steps: seq<Step>, n: nat, t: Token)
    requires Run(c, tr, steps) && n < |tr| && t in tr[n].sessions
    ensures tr[n].sessions[t].user == t.subject && t.kind == Refresh
  {
    RunKeepsInv(c, tr, steps, n);
    assert SessionOk(tr[n], t);
  }

  /** Tokens with sessions, each the parent of the next, all but the last revoked. */
  ghost predicate IsLine(s: State, line: seq<Token>) {
    && line != []
    && (forall i :: 0 <= i < |line| ==>
      line[i] in s.sessions && (s.sessions[line[i]].revokedAt.None? <==> i == |line| - 1))
    && (forall i :: 0 <= i < |line| ==> s.sessions[line[i]].parent == if i == 0 then None else Some(line[i - 1]))
  }

  /**
    The sessions of each login form a line: every session lies on exactly one, its parent is the
    token before it, and exactly the last one is unrevoked.
   */
  lemma LoginsAreLines(c: Config, tr: seq<State>, steps: seq<Step>, n: nat, t: Token)
    requires Run(c, tr, steps) && n < |tr| && t in tr[n].sessions
    ensures exists l :: On(tr[n], t, l) && forall m :: On(tr[n], t, m) ==> m == l
    ensures forall l :: 0 <= l < |tr[n].lines| ==> IsLine(tr[n], tr[n].lines[l])
  {
    var s := tr[n];
    RunKeepsInv(c, tr, steps, n);
    assert SessionOk(s, t);
    var l :| On(s, t, l);
    forall k | 0 <= k < |s.lines| ensures IsLine(s, s.lines[k]) { assert LineOk(s, k); }
  }

  /** A refresh that has swapped its sessions can always commit: the bookkeeping never stands in the way. */
  lemma CommitIsPossible(c: Config, s: State, x: int) returns (s': State)
    requires Inv(s) && x in s.txs && s.txs[x].phase.Swapped?
    ensures Next(c, s, Commit(x), s')
  {
    var token, child := s.txs[x].token, s.txs[x].phase.child;
    assert TxOk(s, x) && SessionOk(s, token);
    var l: nat :| On(s, token, l);
    s' := s.(
      txs := s.txs - {x},
      locks := s.locks - {token},
      sessions := s.sessions[token := s.sessions[token].(revokedAt := Some(s.txs[x].now))]
                    [child := Session(token.subject, s.txs[x].now + c.refreshTtl, None, Some(token))],
      redeemed := s.redeemed + multiset{token},
      lines := s.lines[l := s.lines[l] + [child]]);
    assert CommitStep(c, s, x, l, s');
  }

  /** No token was redeemed for two different sessions. */
  lemma OneChildEach(c: Config, tr: seq<State>, steps: seq<Step>, n: nat, a: Token, b: Token)
    requires Run(c, tr, steps) && n < |tr| && a in tr[n].sessions && b in tr[n].sessions
    requires tr[n].sessions[a].parent.Some? && tr[n].sessions[a].parent == tr[n].sessions[b].parent
    ensures a == b
  {
    var s := tr[n];
    RunKeepsInv(c, tr, steps, n);
    assert SessionOk(s, a) && SessionOk(s, b);
    var k, i := PlaceOf(s, a);
    var l, j := PlaceOf(s, b);
    assert LineOk(s, k) && LineOk(s, l);
    var p := s.sessions[a].parent.value;
    assert s.lines[k][i - 1] == p && s.lines[l][j - 1] == p;
    assert On(s, p, k) && On(s, p, l);
  }

  lemma PlaceOf(s: State, t: Token) returns (l: nat, i: nat)
    requires t in s.sessions && SessionOk(s, t)
    ensures l < |s.lines| && i < |s.lines[l]| && s.lines[l][i] == t
  {
    l :| On(s, t, l);
    i :| 0 <= i < |s.lines[l]| && s.lines[l][i] == t;
  }

  // ---------------------------------------------------------------- counting

  function Active(sessions: map<Token, Session>, user: int): set<Token> {
    set t | t in sessions && sessions[t].user == user && sessions[t].revokedAt.None?
  }

  lemma AddedSession(sessions: map<Token, Session>, t: Token, v: Session, user: int)
    requires t !in sessions && v.revokedAt.None?
    ensures |Active(sessions[t := v], user)| == |Active(sessions, user)| + if v.user == user then 1 else 0
  {
    if v.user == user {
      assert Active(sessions[t := v], user) == Active(sessions, user) + {t};
    } else {
      assert Active(sessions[t := v], user) == Active(sessions, user);
    }
  }

  lemma RevokedSession(sessions: map<Token, Session>, t: Token, at: int, user: int)
    requires t in sessions && sessions[t].revokedAt.None?
    ensures |Active(sessions[t := sessions[t].(revokedAt := Some(at))], user)|
      == |Active(sessions, user)| - if sessions[t].user == user then 1 else 0
  {
    var sessions' := sessions[t := sessions[t].(revokedAt := Some(at))];
    if sessions[t].user == user {
      assert Active(sessions', user) == Active(sessions, user) - {t};
    } else {
      assert Active(sessions', user) == Active(sessions, user);
    }
  }

  lemma LoginCounts(c: Config, s: State, u: int, heard: bool, s': State, user: int)
    requires Inv(s) && LoginStep(c, s, u, heard, s')
    ensures |Active(s'.sessions, user)| == |Active(s.sessions, user)| + if u == user then 1 else 0
  {
    KnownIds(s);
    AddedSession(s.sessions, RefreshToken(c, s, u, s.now), Session(u, s.now + c.refreshTtl, None, None), user);
  }

  lemma CommitCounts(c: Config, s: State, x: int, l: nat, s': State, user: int)
    requires Inv(s) && CommitStep(c, s, x, l, s')
    ensures |Active(s'.sessions, user)| == |Active(s.sessions, user)|
  {
    var tx := s.txs[x];
    assert TxOk(s, x) && SessionOk(s, tx.token);
    RevokedSession(s.sessions, tx.token, tx.now, user);
    AddedSession(s.sessions[tx.token := s.sessions[tx.token].(revokedAt := Some(tx.now))], tx.phase.child,
                 Session(tx.token.subject, tx.now + c.refreshTtl, None, Some(tx.token)), user);
  }

  lemma NextKeepsCount(c: Config, s: State, step: Step, s': State, user: int)
    requires Inv(s) && Next(c, s, step, s') && |Active(s.sessions, user)| == s.logins[user] + s.unheard[user]
    ensures |Active(s'.sessions, user)| == s'.logins[user] + s'.unheard[user]
  {
    match step {
      case Login(u, reply) => if !reply.NotInserted? { LoginCounts(c, s, u, reply.Inserted?, s', user); }
      case Commit(x) =>
        var l :| CommitStep(c, s, x, l, s');
        CommitCounts(c, s, x, l, s', user);
      case _ =>
    }
  }

  /**
    A user's unrevoked sessions are as many as that user's successful logins, plus the logins that
    failed only because the reply to their insert was lost.
   */
  lemma {:induction false} ActiveSessionsCountLogins(c: Config, tr: seq<State>, steps: seq<Step>, n: nat, user: int)
    requires Run(c, tr, steps) && n < |tr|
    ensures |Active(tr[n].sessions, user)| == tr[n].logins[user] + tr[n].unheard[user]
  {
    if n == 0 {
      assert Active(tr[0].sessions, user) == {};
    } else {
      ActiveSessionsCountLogins(c, tr, steps, n - 1, user);
      RunKeepsInv(c, tr, steps, n - 1);
      assert StepAt(c, tr, steps, n - 1);
      NextKeepsCount(c, tr[n - 1], steps[n - 1], tr[n], user);
    }
  }

  /** Presenting a token again after it was redeemed can only fail, and leaves the table as it is. */
  lemma ReuseFails(c: Config, s: State, x: int, step: Step, s': State)
    requires Inv(s) && Next(c, s, step, s')
    requires x in s.txs && s.redeemed[s.txs[x].token] == 1
    requires (step == Swap(x) || step == Commit(x) || step == Fail(x) || step == Lock(x))
    ensures step != Swap(x) && step != Commit(x)
    ensures s'.sessions == s.sessions && s'.redeemed == s.redeemed
  {
    assert TxOk(s, x);
    if s.txs[x].token in s.sessions { assert SessionOk(s, s.txs[x].token); }
  }

  // ---------------------------------------------------------------- lifetimes

  /** Session `t` came into the table at step `m`. */
  ghost predicate Born(tr: seq<State>, m: int, t: Token) {
    0 <= m < |tr| - 1 && t !in tr[m].sessions && t in tr[m + 1].sessions
  }

  /** The time that its life counts from: the login, or the time its parent's refresh began. */
  function BirthTime(tr: seq<State>, steps: seq<Step>, m: nat): int
    requires m < |steps| < |tr|
  {
    if steps[m].Commit? && steps[m].x in tr[m].txs then tr[m].txs[steps[m].x].now else tr[m].now
  }

  /** A login, heard or not, and the swap of a refresh issue an access and a refresh token for their user. */
  lemma PairIsIssued(c: Config, tr: seq<State>, steps: seq<Step>, m: nat) returns (a: Token, r: Token)
    requires Run(c, tr, steps) && m < |steps| && (steps[m].Login? || steps[m].Swap?)
    ensures tr[m + 1].issued == tr[m].issued + {a, r} && a != r && a !in tr[m].issued && r !in tr[m].issued
    ensures a.kind == Access && a.exp == tr[m].now + c.accessTtl
    ensures r.kind == Refresh && r.exp == tr[m].now + c.refreshTtl
    ensures steps[m].Login? ==> a.subject == r.subject == steps[m].user
    ensures steps[m].Swap? ==>
      && steps[m].x in tr[m].txs && a.subject == r.subject == tr[m].txs[steps[m].x].token.subject
      && steps[m].x in tr[m + 1].txs && tr[m + 1].txs[steps[m].x].phase == Swapped(r)
  {
    RunKeepsInv(c, tr, steps, m);
    assert StepAt(c, tr, steps, m);
    var s := tr[m];
    var user := if steps[m].Login? then steps[m].user else s.txs[steps[m].x].token.subject;
    a, r := AccessToken(c, s, user, s.now), RefreshToken(c, s, user, s.now);
  }

  /** What one step does to a running refresh. */
  lemma TxStep(c: Config, s: State, step: Step, s': State, x: int)
    requires Next(c, s, step, s') && x in s'.txs
    ensures s.now <= s'.now
    ensures x !in s.txs ==> step == Begin(x, s'.txs[x].token) && s'.txs[x] == Tx(s'.txs[x].token, s.now, Started)
    ensures x in s.txs ==> s'.txs[x].token == s.txs[x].token && s'.txs[x].now == s.txs[x].now
    ensures x in s.txs && step != Swap(x) && s'.txs[x].phase.Swapped? ==> s'.txs[x].phase == s.txs[x].phase
    ensures step == Swap(x) ==>
      x in s.txs && s'.txs[x].phase.Swapped? && s'.txs[x].phase.child.exp == s.now + c.refreshTtl
  {
  }

  /** The child that a refresh is about to store was issued after the refresh began, for the full time. */
  lemma {:induction false} ChildTime(c: Config, tr: seq<State>, steps: seq<Step>, n: nat, x: int)
    requires Run(c, tr, steps) && n < |tr| && x in tr[n].txs
    ensures tr[n].txs[x].now <= tr[n].now
    ensures tr[n].txs[x].phase.Swapped? ==> tr[n].txs[x].phase.child.exp >= tr[n].txs[x].now + c.refreshTtl
  {
    if n > 0 {
      assert StepAt(c, tr, steps, n - 1);
      TxStep(c, tr[n - 1], steps[n - 1], tr[n], x);
      if x in tr[n - 1].txs { ChildTime(c, tr, steps, n - 1, x); }
    }
  }

  /** Every session lives for the refresh time, counted from its birth, and its token at least as long. */
  lemma {:induction false} SessionTime(c: Config, tr: seq<State>, steps: seq<Step>, n: nat, t: Token) returns (m: nat)
    requires Run(c, tr, steps) && n < |tr| && t in tr[n].sessions
    ensures m < n && Born(tr, m, t)
    ensures tr[n].sessions[t].expiresAt == BirthTime(tr, steps, m) + c.refreshTtl
    ensures t.exp >= BirthTime(tr, steps, m) + c.refreshTtl
    ensures steps[m].Login? ==> t.exp == BirthTime(tr, steps, m) + c.refreshTtl
  {
    if t in tr[n - 1].sessions {
      m := SessionTime(c, tr, steps, n - 1, t);
      ExpiryStays(c, tr, steps, n - 1, t);
    } else {
      m := n - 1;
      NewSessionTime(c, tr, steps, m, t);
    }
  }

  lemma ExpiryStays(c: Config, tr: seq<State>, steps: seq<Step>, n: nat, t: Token)
    requires Run(c, tr, steps) && n < |steps| && t in tr[n].sessions
    ensures t in tr[n + 1].sessions && tr[n + 1].sessions[t].expiresAt == tr[n].sessions[t].expiresAt
  {
    RunKeepsInv(c, tr, steps, n);
    assert StepAt(c, tr, steps, n);
    KnownIds(tr[n]);
    if steps[n].Commit? { assert TxOk(tr[n], steps[n].x); }
  }

  lemma NewSessionTime(c: Config, tr: seq<State>, steps: seq<Step>, m: nat, t: Token)
    requires Run(c, tr, steps) && m < |steps| && Born(tr, m, t)
    ensures tr[m + 1].sessions[t].expiresAt == BirthTime(tr, steps, m) + c.refreshTtl
    ensures t.exp >= BirthTime(tr, steps, m) + c.refreshTtl
    ensures steps[m].Login? ==> t.exp == BirthTime(tr, steps, m) + c.refreshTtl
  {
    assert StepAt(c, tr, steps, m);
    if steps[m].Commit? { ChildTime(c, tr, steps, m, steps[m].x); }
  }

  lemma {:induction false} SessionStays(c: Config, tr: seq<State>, steps: seq<Step>, m: nat, n: nat, t: Token)
    requires Run(c, tr, steps) && m <= n < |tr| && t in tr[m].sessions
    ensures t in tr[n].sessions
    decreases n
  {
    if m < n {
      SessionStays(c, tr, steps, m, n - 1, t);
      assert StepAt(c, tr, steps, n - 1);
    }
  }

  lemma BornOnce(c: Config, tr: seq<State>, steps: seq<Step>, m: nat, k: nat, t: Token)
    requires Run(c, tr, steps) && Born(tr, m, t) && Born(tr, k, t)
    ensures m == k
  {
    if m < k { SessionStays(c, tr, steps, m + 1, k, t); }
    if k < m { SessionStays(c, tr, steps, k + 1, m, t); }
  }

  /** The transaction remembers the step and time at which it began. */
  lemma {:induction false} BeganAt(c: Config, tr: seq<State>, steps: seq<Step>, n: nat, x: int) returns (b: nat)
    requires Run(c, tr, steps) && n < |tr| && x in tr[n].txs
    ensures b < n && steps[b] == Begin(x, tr[n].txs[x].token) && tr[n].txs[x].now == tr[b].now
    ensures forall i :: b < i <= n ==> x in tr[i].txs
    ensures tr[n].txs[x].phase.Swapped? ==> exists w :: b < w < n && steps[w] == Swap(x)
  {
    assert StepAt(c, tr, steps, n - 1);
    TxStep(c, tr[n - 1], steps[n - 1], tr[n], x);
    if x in tr[n - 1].txs {
      b := BeganAt(c, tr, steps, n - 1, x);
      if steps[n - 1] != Swap(x) && tr[n].txs[x].phase.Swapped? {
        var w :| b < w < n - 1 && steps[w] == Swap(x);
        assert b < w < n;
      }
    } else {
      b := n - 1;
    }
  }

  /** Only refreshes that begin within the refresh time of their token swap. */
  lemma SwapIsInTime(c: Config, tr: seq<State>, steps: seq<Step>, n: nat, m: nat, b: nat)
    requires Run(c, tr, steps) && n < |steps| && steps[n].Swap?
    requires steps[n].x in tr[n].txs && Born(tr, m, tr[n].txs[steps[n].x].token)
    requires b < n && steps[b].Begin? && steps[b].x == steps[n].x && forall i :: b < i <= n ==> steps[n].x in tr[i].txs
    ensures tr[b].now <= BirthTime(tr, steps, m) + c.refreshTtl
  {
    assert StepAt(c, tr, steps, n);
    var t := tr[n].txs[steps[n].x].token;
    var b' := BeganAt(c, tr, steps, n, steps[n].x);
    assert StepAt(c, tr, steps, b) && StepAt(c, tr, steps, b');
    var k := SessionTime(c, tr, steps, n, t);
    BornOnce(c, tr, steps, m, k, t);
  }

  /** And only those commit. */
  lemma {:induction false} CommitIsInTime(c: Config, tr: seq<State>, steps: seq<Step>, n: nat, m: nat)
    requires Run(c, tr, steps) && n < |steps| && steps[n].Commit? && steps[n].x in tr[n].txs
    requires Born(tr, m, tr[n].txs[steps[n].x].token)
    ensures tr[n].txs[steps[n].x].now <= BirthTime(tr, steps, m) + c.refreshTtl
  {
    assert StepAt(c, tr, steps, n);
    var x := steps[n].x;
    SwappedInTime(c, tr, steps, n, x, m);
  }

  lemma {:induction false} SwappedInTime(c: Config, tr: seq<State>, steps: seq<Step>, n: nat, x: int, m: nat)
    requires Run(c, tr, steps) && n < |tr| && x in tr[n].txs && tr[n].txs[x].phase.Swapped?
    requires Born(tr, m, tr[n].txs[x].token)
    ensures tr[n].txs[x].now <= BirthTime(tr, steps, m) + c.refreshTtl
  {
    assert StepAt(c, tr, steps, n - 1);
    if steps[n - 1] == Swap(x) {
      var b := BeganAt(c, tr, steps, n - 1, x);
      SwapIsInTime(c, tr, steps, n - 1, m, b);
    } else {
      SwappedInTime(c, tr, steps, n - 1, x, m);
    }
  }

  lemma Extend(c: Config, tr: seq<State>, steps: seq<Step>, step: Step, s': State)
    requires Run(c, tr, steps) && Next(c, tr[|steps|], step, s')
    ensures Run(c, tr + [s'], steps + [step])
  {
    var tr', steps' := tr + [s'], steps + [step];
    forall i | 0 <= i < |steps'| ensures StepAt(c, tr', steps', i) {
      if i < |steps| { assert StepAt(c, tr, steps, i); }
    }
  }

  /**
    Within the refresh time of its birth an active session that no refresh has locked can be
    rotated: its token is accepted, locked, swapped for a child and committed. At the last moment
    itself this needs a positive clock skew.
   */
  lemma RefreshIsPossible(c: Config, tr: seq<State>, steps: seq<Step>, m: nat, t: Token, x: int)
    returns (tr': seq<State>, steps': seq<Step>)
    requires Run(c, tr, steps) && Born(tr, m, t)
    requires var s := tr[|steps|]; t in s.sessions && s.sessions[t].revokedAt.None? && t !in s.locks && x !in s.txs
    requires tr[|steps|].now <= BirthTime(tr, steps, m) + c.refreshTtl
    requires tr[|steps|].now < BirthTime(tr, steps, m) + c.refreshTtl || c.clockSkew > 0
    ensures Run(c, tr', steps') && steps' == steps + [Begin(x, t), Lock(x), Swap(x), Commit(x)]
    ensures var s, s' := tr[|steps|], tr'[|steps'|];
      && t in s'.sessions && s'.sessions[t].revokedAt == Some(s.now)
      && exists child :: child !in s.sessions && child in s'.sessions && s'.sessions[child].parent == Some(t)
           && s'.sessions[child].user == t.subject && s'.sessions[child].revokedAt.None?
  {
    var n := |steps|;
    var s := tr[n];
    var k := SessionTime(c, tr, steps, n, t);
    BornOnce(c, tr, steps, m, k, t);
    RunKeepsInv(c, tr, steps, n);
    assert SessionOk(s, t);
    var s1 := s.(txs := s.txs[x := Tx(t, s.now, Started)]);
    Extend(c, tr, steps, Begin(x, t), s1);
    var tr1, steps1 := tr + [s1], steps + [Begin(x, t)];
    var s2 := s1.(txs := s1.txs[x := Tx(t, s.now, Locked)], locks := s1.locks[t := x]);
    Extend(c, tr1, steps1, Lock(x), s2);
    var tr2, steps2 := tr1 + [s2], steps1 + [Lock(x)];
    var child := RefreshToken(c, s2, t.subject, s2.now);
    var s3 := WithPair(c, s2, t.subject, s2.now).(txs := s2.txs[x := Tx(t, s.now, Swapped(child))]);
    Extend(c, tr2, steps2, Swap(x), s3);
    var tr3, steps3 := tr2 + [s3], steps2 + [Swap(x)];
    RunKeepsInv(c, tr3, steps3, n + 3);
    KnownIds(s);
    var s4 := CommitIsPossible(c, s3, x);
    Extend(c, tr3, steps3, Commit(x), s4);
    tr', steps' := tr3 + [s4], steps3 + [Commit(x)];
    assert tr'[|steps'|] == s4 && child !in s.sessions;
    var l :| CommitStep(c, s3, x, l, s4);
    assert s4.sessions[child].parent == Some(t);
  }
}
