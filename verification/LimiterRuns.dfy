/**
  Runs of the memory limiter.

  A call reads the clock and computes its reset before it takes the mutex, and the cleanup goroutine
  reads the clock before it does. So a run is a sequence of operations in the order in which they
  hold the mutex, and their readings may come in any order.
 */
module LimiterRuns {
  import opened RateLimit

  datatype Op = Call(now: nat, reset: nat, key: Key) | Clean(now: nat)

  function Exec(c: Config, es: map<Key, Entry>, op: Op): map<Key, Entry> {
    match op
    case Call(now, reset, key) => AllowAt(c, es, now, reset, key).0
    case Clean(now) => Cleaned(es, now)
  }

  function After(c: Config, ops: seq<Op>): map<Key, Entry> {
    if ops == [] then map[] else Exec(c, After(c, ops[..|ops| - 1]), ops[|ops| - 1])
  }

  predicate IsCall(op: Op, key: Key) {
    op.Call? && op.key == key
  }

  function ResetOf(c: Config): nat -> nat {
    (t: nat) => FixedWindowReset(t, c.window)
  }

  /** Every call computed its reset from its reading. */
  predicate Computed(resetOf: nat -> nat, ops: seq<Op>) {
    forall i :: 0 <= i < |ops| && ops[i].Call? ==> ops[i].reset == resetOf(ops[i].now)
  }

  // ---------------------------------------------------------------- measures of a run

  predicate Counted(op: Op, key: Key, a: nat, b: nat) {
    IsCall(op, key) && a <= op.now <= b
  }

  function Hit(c: Config, es: map<Key, Entry>, op: Op, key: Key, a: nat, b: nat): nat {
    if Counted(op, key, a, b) && AllowAt(c, es, op.now, op.reset, key).1.allowed then 1 else 0
  }

  /** How many calls of the key with a reading between `a` and `b` a run admits. */
  function Admitted(c: Config, ops: seq<Op>, key: Key, a: nat, b: nat): nat {
    if ops == [] then 0
    else
      var n := |ops| - 1;
      Admitted(c, ops[..n], key, a, b) + Hit(c, After(c, ops[..n]), ops[n], key, a, b)
  }

  /** The latest reading so far. */
  function Latest(ops: seq<Op>): nat {
    if ops == [] then 0
    else
      var n := |ops| - 1;
      if Latest(ops[..n]) < ops[n].now then ops[n].now else Latest(ops[..n])
  }

  /** A reset that one of the calls for the key computed. */
  predicate WasReset(ops: seq<Op>, key: Key, r: nat) {
    exists k :: 0 <= k < |ops| && IsCall(ops[k], key) && ops[k].reset == r
  }

  /** The call has not read past a reset of its key that an operation before it had read past. */
  predicate Late(pre: seq<Op>, op: Op) {
    op.Call? && exists k :: 0 <= k < |pre| && IsCall(pre[k], op.key) && op.now <= pre[k].reset < Latest(pre)
  }

  function LateHit(pre: seq<Op>, op: Op, key: Key, a: nat, b: nat): nat {
    if Counted(op, key, a, b) && Late(pre, op) then 1 else 0
  }

  /** How many calls of the key with a reading between `a` and `b` are late. */
  function LateCalls(ops: seq<Op>, key: Key, a: nat, b: nat): nat {
    if ops == [] then 0
    else
      var n := |ops| - 1;
      LateCalls(ops[..n], key, a, b) + LateHit(ops[..n], ops[n], key, a, b)
  }

  predicate OnTime(ops: seq<Op>, key: Key) {
    forall j :: 0 <= j < |ops| && IsCall(ops[j], key) ==> !Late(ops[..j], ops[j])
  }

  predicate InOrder(ops: seq<Op>) {
    forall i, j :: 0 <= i < j < |ops| ==> ops[i].now <= ops[j].now
  }

  /** One more operation, for each of the measures. */
  lemma OneMore(c: Config, ops: seq<Op>, op: Op, key: Key, a: nat, b: nat)
    ensures After(c, ops + [op]) == Exec(c, After(c, ops), op)
    ensures Admitted(c, ops + [op], key, a, b) == Admitted(c, ops, key, a, b) + Hit(c, After(c, ops), op, key, a, b)
    ensures LateCalls(ops + [op], key, a, b) == LateCalls(ops, key, a, b) + LateHit(ops, op, key, a, b)
    ensures Latest(ops + [op]) == if Latest(ops) < op.now then op.now else Latest(ops)
  {
    assert (ops + [op])[..|ops|] == ops;
  }

  lemma {:induction false} LatestIsReached(ops: seq<Op>)
    ensures forall i :: 0 <= i < |ops| ==> ops[i].now <= Latest(ops)
    ensures ops != [] && Latest(ops) > 0 ==> exists i :: 0 <= i < |ops| && ops[i].now == Latest(ops)
  {
    if ops != [] {
      var n := |ops| - 1;
      LatestIsReached(ops[..n]);
      assert ops[n].now <= Latest(ops);
      if Latest(ops) != ops[n].now && Latest(ops) > 0 {
        var i :| 0 <= i < n && ops[..n][i].now == Latest(ops[..n]);
        assert ops[i].now == Latest(ops);
      }
    }
  }

  /** Calls that enter in the order of their readings are never late. */
  lemma InOrderIsOnTime(ops: seq<Op>, key: Key)
    requires InOrder(ops)
    ensures OnTime(ops, key)
  {
    forall j | 0 <= j < |ops| && IsCall(ops[j], key) ensures !Late(ops[..j], ops[j]) {
      LatestIsReached(ops[..j]);
      if Latest(ops[..j]) > 0 && j > 0 {
        var i :| 0 <= i < j && ops[..j][i].now == Latest(ops[..j]);
        assert ops[i].now <= ops[j].now;
      }
    }
  }

  lemma PrefixOnTime(ops: seq<Op>, op: Op, key: Key)
    requires OnTime(ops + [op], key)
    ensures OnTime(ops, key) && (IsCall(op, key) ==> !Late(ops, op))
  {
    var ops' := ops + [op];
    assert ops'[..|ops|] == ops;
    forall j | 0 <= j < |ops| && IsCall(ops[j], key) ensures !Late(ops[..j], ops[j]) {
      assert ops'[..j] == ops[..j] && ops'[j] == ops[j];
    }
  }

  lemma {:induction false} NoLateCalls(ops: seq<Op>, key: Key, a: nat, b: nat)
    requires OnTime(ops, key)
    ensures LateCalls(ops, key, a, b) == 0
  {
    if ops != [] {
      var pre, op := ops[..|ops| - 1], ops[|ops| - 1];
      assert ops == pre + [op];
      PrefixOnTime(pre, op, key);
      NoLateCalls(pre, key, a, b);
    }
  }

  /** Entries count the calls since a reset that was computed for their key. */
  ghost predicate TableOk(c: Config, ops: seq<Op>) {
    var es := After(c, ops);
    forall k :: k in es ==> !Unlimited(c, k) && 1 <= es[k].count <= c.limit && WasReset(ops, k, es[k].reset)
  }

  lemma {:induction false} TableIsOk(c: Config, ops: seq<Op>)
    ensures TableOk(c, ops)
  {
    if ops != [] {
      var n := |ops| - 1;
      TableIsOk(c, ops[..n]);
      var es, es' := After(c, ops[..n]), After(c, ops);
      forall k | k in es'
        ensures !Unlimited(c, k) && 1 <= es'[k].count <= c.limit && WasReset(ops, k, es'[k].reset)
      {
        if k in es && es'[k].reset == es[k].reset {
          var i :| 0 <= i < n && IsCall(ops[..n][i], k) && ops[..n][i].reset == es[k].reset;
          assert IsCall(ops[i], k);
        } else {
          assert IsCall(ops[n], k);
        }
      }
    }
  }

  // ---------------------------------------------------------------- at most two generations a span

  /** A reset lies ahead of its reading, and a reading past another reset leads to one a span later. */
  predicate SpacedAfter(x: Op, y: Op, span: nat) {
    x.Call? && y.Call? ==> x.now < x.reset && (y.now > x.reset ==> y.reset >= x.reset + span)
  }

  /** The resets of two calls are equal or a span apart. */
  predicate SpanApart(x: Op, y: Op, span: nat) {
    x.Call? && y.Call? ==> y.reset <= x.reset || y.reset >= x.reset + span
  }

  ghost predicate Spaced(ops: seq<Op>, span: nat) {
    forall i, j {:trigger SpacedAfter(ops[i], ops[j], span)} ::
      0 <= i < |ops| && 0 <= j < |ops| ==> SpacedAfter(ops[i], ops[j], span)
  }

  ghost predicate OnLattice(ops: seq<Op>, span: nat) {
    forall i, j {:trigger SpanApart(ops[i], ops[j], span)} ::
      0 <= i < |ops| && 0 <= j < |ops| ==> SpanApart(ops[i], ops[j], span)
  }

  lemma ComputedIsSpaced(c: Config, ops: seq<Op>)
    requires Computed(ResetOf(c), ops)
    ensures Spaced(ops, Span(c.window)) && (WholeSeconds(c.window) > 0 ==> OnLattice(ops, Span(c.window)))
  {
    forall i, j | 0 <= i < |ops| && 0 <= j < |ops| ensures SpacedAfter(ops[i], ops[j], Span(c.window)) {
      if ops[i].Call? && ops[j].Call? && ops[j].now > ops[i].reset {
        GenerationsApart(ops[i].now, ops[j].now, c.window);
      }
    }
    if WholeSeconds(c.window) > 0 {
      forall i, j | 0 <= i < |ops| && 0 <= j < |ops| ensures SpanApart(ops[i], ops[j], Span(c.window)) {
        if ops[i].Call? && ops[j].Call? { ResetsApart(ops[i].now, ops[j].now, c.window); }
      }
    }
  }

  /** How an operation's reset relates to those before it, as far as `key` is concerned. */
  ghost predicate Fits(ops: seq<Op>, op: Op, key: Key, span: nat) {
    && (op.Call? ==> op.now < op.reset)
    && (forall k :: 0 <= k < |ops| ==> SpacedAfter(ops[k], op, span))
    && ((forall k :: 0 <= k < |ops| ==> SpanApart(ops[k], op, span)) || (IsCall(op, key) ==> !Late(ops, op)))
  }

  /**
    What `n` admitted calls that were not late say about the interval of one span from `a`: they
    used no generation yet; one, in force or passed, whose reset is `r`; or two, the later one, in
    force or passed, with a reset `r` at or beyond the end of the interval.
   */
  ghost predicate First(c: Config, ops: seq<Op>, key: Key, a: nat, span: nat, n: nat, r: nat) {
    var es := After(c, ops);
    && a <= r && WasReset(ops, key, r) && n <= c.limit
    && ((key in es && es[key].reset == r && n <= es[key].count)
        || (r < Latest(ops) && (key in es ==> es[key].reset <= r || es[key].reset >= r + span)))
  }

  ghost predicate Second(c: Config, ops: seq<Op>, key: Key, a: nat, span: nat, n: nat, r: nat) {
    var es := After(c, ops);
    && a + span <= r && WasReset(ops, key, r)
    && ((key in es && es[key].reset == r && n <= c.limit + es[key].count) || (r < Latest(ops) && n <= 2 * c.limit))
  }

  ghost predicate Stage(c: Config, ops: seq<Op>, key: Key, a: nat, span: nat, n: nat) {
    || n == 0
    || (exists r: nat :: First(c, ops, key, a, span, n, r))
    || (exists r: nat :: Second(c, ops, key, a, span, n, r))
  }

  lemma CallOfReset(ops: seq<Op>, key: Key, r: nat) returns (k: nat)
    requires WasReset(ops, key, r)
    ensures k < |ops| && IsCall(ops[k], key) && ops[k].reset == r
  {
    k :| 0 <= k < |ops| && IsCall(ops[k], key) && ops[k].reset == r;
  }

  lemma WasResetStays(ops: seq<Op>, op: Op, key: Key, r: nat)
    requires WasReset(ops, key, r)
    ensures WasReset(ops + [op], key, r)
  {
    var k := CallOfReset(ops, key, r);
    assert IsCall((ops + [op])[k], key);
  }

  lemma NotLate(ops: seq<Op>, op: Op, r: nat)
    requires op.Call? && !Late(ops, op) && WasReset(ops, op.key, r) && r < Latest(ops)
    ensures r < op.now
  {
    var k := CallOfReset(ops, op.key, r);
  }

  /** A call computes a reset a span beyond each one that it or an operation before it has passed, or an old one. */
  lemma NewReset(ops: seq<Op>, op: Op, r: nat, span: nat)
    requires op.Call? && Fits(ops, op, op.key, span) && WasReset(ops, op.key, r) && (r < op.now || r < Latest(ops))
    ensures op.reset <= r || op.reset >= r + span
    ensures r < op.now ==> op.reset >= r + span
  {
    var k := CallOfReset(ops, op.key, r);
    assert SpacedAfter(ops[k], op, span);
    if r < Latest(ops) && op.now <= r { assert Late(ops, op); }
  }

  /** Any operation keeps what is known of the calls before it. */
  lemma OpKeepsFirst(c: Config, ops: seq<Op>, op: Op, key: Key, a: nat, span: nat, n: nat, r: nat)
    requires c.limit > 0 && key != Named("") && First(c, ops, key, a, span, n, r) && Fits(ops, op, key, span)
    ensures First(c, ops + [op], key, a, span, n, r)
  {
    OneMore(c, ops, op, key, 0, 0);
    WasResetStays(ops, op, key, r);
    if IsCall(op, key) && !Live(After(c, ops), op.now, key) && (r < op.now || r < Latest(ops)) {
      NewReset(ops, op, r, span);
    }
  }

  lemma OpKeepsSecond(c: Config, ops: seq<Op>, op: Op, key: Key, a: nat, span: nat, n: nat, r: nat)
    requires c.limit > 0 && key != Named("") && TableOk(c, ops) && Second(c, ops, key, a, span, n, r)
    ensures Second(c, ops + [op], key, a, span, n, r)
  {
    OneMore(c, ops, op, key, 0, 0);
    WasResetStays(ops, op, key, r);
  }

  lemma OpKeepsStage(c: Config, ops: seq<Op>, op: Op, key: Key, a: nat, span: nat, n: nat)
    requires c.limit > 0 && key != Named("") && TableOk(c, ops) && Stage(c, ops, key, a, span, n)
    requires Fits(ops, op, key, span)
    ensures Stage(c, ops + [op], key, a, span, n)
  {
    if n > 0 {
      if r: nat :| First(c, ops, key, a, span, n, r) {
        OpKeepsFirst(c, ops, op, key, a, span, n, r);
      } else {
        var r: nat :| Second(c, ops, key, a, span, n, r);
        OpKeepsSecond(c, ops, op, key, a, span, n, r);
      }
    }
  }

  /** An admitted call that is not late. */
  ghost predicate Enters(c: Config, ops: seq<Op>, op: Op, key: Key, span: nat) {
    && c.limit > 0 && key != Named("") && TableOk(c, ops) && IsCall(op, key) && Fits(ops, op, key, span)
    && !Late(ops, op) && AllowAt(c, After(c, ops), op.now, op.reset, key).1.allowed
  }

  lemma CurrentWasReset(c: Config, ops: seq<Op>, op: Op)
    requires op.Call? && TableOk(c, ops)
    ensures WasReset(ops + [op], op.key, Current(After(c, ops), op.now, op.reset, op.key).reset)
  {
    var e := Current(After(c, ops), op.now, op.reset, op.key);
    if Live(After(c, ops), op.now, op.key) {
      WasResetStays(ops, op, op.key, e.reset);
    } else {
      assert IsCall((ops + [op])[|ops|], op.key);
    }
  }

  lemma EntersFirst(c: Config, ops: seq<Op>, op: Op, key: Key, a: nat, span: nat)
    requires Enters(c, ops, op, key, span) && a <= op.now
    ensures First(c, ops + [op], key, a, span, 1, Current(After(c, ops), op.now, op.reset, key).reset)
  {
    CurrentWasReset(c, ops, op);
    OneMore(c, ops, op, key, 0, 0);
  }

  lemma EntersAfterFirst(c: Config, ops: seq<Op>, op: Op, key: Key, a: nat, span: nat, n: nat, r: nat)
    requires Enters(c, ops, op, key, span) && First(c, ops, key, a, span, n, r)
    ensures Stage(c, ops + [op], key, a, span, n + 1)
  {
    var es := After(c, ops);
    OneMore(c, ops, op, key, 0, 0);
    CurrentWasReset(c, ops, op);
    if op.now <= r && key in es && es[key].reset == r {
      WasResetStays(ops, op, key, r);
      assert First(c, ops + [op], key, a, span, n + 1, r);
    } else {
      if r < Latest(ops) { NotLate(ops, op, r); }
      if !Live(es, op.now, key) { NewReset(ops, op, r, span); }
      assert Second(c, ops + [op], key, a, span, n + 1, Current(es, op.now, op.reset, key).reset);
    }
  }

  lemma EntersAfterSecond(c: Config, ops: seq<Op>, op: Op, key: Key, a: nat, span: nat, n: nat, r: nat)
    requires Enters(c, ops, op, key, span) && op.now <= a + span && Second(c, ops, key, a, span, n, r)
    ensures Second(c, ops + [op], key, a, span, n + 1, r)
  {
    if r < Latest(ops) { NotLate(ops, op, r); }
    OneMore(c, ops, op, key, 0, 0);
    WasResetStays(ops, op, key, r);
  }

  lemma EntersNextStage(c: Config, ops: seq<Op>, op: Op, key: Key, a: nat, span: nat, n: nat)
    requires Enters(c, ops, op, key, span) && a <= op.now <= a + span && Stage(c, ops, key, a, span, n)
    ensures Stage(c, ops + [op], key, a, span, n + 1)
  {
    if n == 0 {
      EntersFirst(c, ops, op, key, a, span);
    } else if r: nat :| First(c, ops, key, a, span, n, r) {
      EntersAfterFirst(c, ops, op, key, a, span, n, r);
    } else {
      var r: nat :| Second(c, ops, key, a, span, n, r);
      EntersAfterSecond(c, ops, op, key, a, span, n, r);
    }
  }

  lemma StageBound(c: Config, ops: seq<Op>, key: Key, a: nat, span: nat, n: nat)
    requires c.limit > 0 && Stage(c, ops, key, a, span, n)
    ensures n <= 2 * c.limit
  {
    TableIsOk(c, ops);
  }

  lemma PrefixFits(ops: seq<Op>, op: Op, key: Key, span: nat)
    requires Spaced(ops + [op], span) && (OnLattice(ops + [op], span) || OnTime(ops + [op], key))
    ensures Fits(ops, op, key, span) && Spaced(ops, span) && (OnLattice(ops, span) || OnTime(ops, key))
  {
    var ops', n := ops + [op], |ops|;
    assert SpacedAfter(ops'[n], ops'[n], span);
    forall k | 0 <= k < n ensures SpacedAfter(ops[k], op, span) { assert SpacedAfter(ops'[k], ops'[n], span); }
    forall i, j | 0 <= i < n && 0 <= j < n ensures SpacedAfter(ops[i], ops[j], span) {
      assert SpacedAfter(ops'[i], ops'[j], span);
    }
    if OnLattice(ops', span) {
      forall k | 0 <= k < n ensures SpanApart(ops[k], op, span) { assert SpanApart(ops'[k], ops'[n], span); }
      forall i, j | 0 <= i < n && 0 <= j < n ensures SpanApart(ops[i], ops[j], span) {
        assert SpanApart(ops'[i], ops'[j], span);
      }
    } else {
      PrefixOnTime(ops, op, key);
    }
  }

  lemma NextStage(c: Config, ops: seq<Op>, op: Op, key: Key, a: nat, span: nat, n: nat) returns (n': nat)
    requires c.limit > 0 && key != Named("") && Stage(c, ops, key, a, span, n) && Fits(ops, op, key, span)
    ensures Stage(c, ops + [op], key, a, span, n')
    ensures n + Hit(c, After(c, ops), op, key, a, a + span) <= n' + LateHit(ops, op, key, a, a + span)
  {
    TableIsOk(c, ops);
    n' := n;
    if Hit(c, After(c, ops), op, key, a, a + span) == 1 && !Late(ops, op) {
      EntersNextStage(c, ops, op, key, a, span, n);
      n' := n + 1;
    } else {
      OpKeepsStage(c, ops, op, key, a, span, n);
    }
  }

  lemma {:induction false} RunStage(c: Config, ops: seq<Op>, key: Key, a: nat, span: nat) returns (n: nat)
    requires c.limit > 0 && key != Named("")
    requires Spaced(ops, span) && (OnLattice(ops, span) || OnTime(ops, key))
    ensures Stage(c, ops, key, a, span, n)
    ensures Admitted(c, ops, key, a, a + span) <= n + LateCalls(ops, key, a, a + span)
  {
    n := 0;
    if ops != [] {
      var pre, op := ops[..|ops| - 1], ops[|ops| - 1];
      assert ops == pre + [op];
      PrefixFits(pre, op, key, span);
      n := RunStage(c, pre, key, a, span);
      n := NextStage(c, pre, op, key, a, span, n);
    }
  }

  /**
    In any closed interval of one span, the admitted calls of a key number at most twice the limit
    plus the calls that were late; so at most twice the limit, if none was. Windows below a second
    have no lattice of resets, and there the bound needs that no call of the key is late. For a
    window of whole seconds the span is the window.
   */
  lemma TwiceLimitPerSpan(c: Config, ops: seq<Op>, key: Key, a: nat)
    requires c.limit > 0 && key != Named("") && Computed(ResetOf(c), ops)
    requires WholeSeconds(c.window) > 0 || OnTime(ops, key)
    ensures Admitted(c, ops, key, a, a + Span(c.window)) <= 2 * c.limit + LateCalls(ops, key, a, a + Span(c.window))
    ensures OnTime(ops, key) ==> Admitted(c, ops, key, a, a + Span(c.window)) <= 2 * c.limit
    ensures InOrder(ops) ==> OnTime(ops, key)
  {
    ComputedIsSpaced(c, ops);
    var n := RunStage(c, ops, key, a, Span(c.window));
    StageBound(c, ops, key, a, Span(c.window), n);
    if OnTime(ops, key) { NoLateCalls(ops, key, a, a + Span(c.window)); }
    if InOrder(ops) { InOrderIsOnTime(ops, key); }
  }

  // ---------------------------------------------------------------- the bound is sharp

  /** The same call `n` times over. */
  function Burst(op: Op, n: nat): seq<Op> {
    seq(n, _ => op)
  }

  lemma OneBurstCall(c: Config, ops: seq<Op>, op: Op, a: nat, b: nat)
    requires op.Call? && c.limit > 0 && op.key != Named("") && a <= op.now <= b && Latest(ops) <= op.now <= op.reset
    requires Current(After(c, ops), op.now, op.reset, op.key).count < c.limit
    ensures var e := Current(After(c, ops), op.now, op.reset, op.key);
      && Admitted(c, ops + [op], op.key, a, b) == Admitted(c, ops, op.key, a, b) + 1
      && LateCalls(ops + [op], op.key, a, b) == LateCalls(ops, op.key, a, b)
      && Current(After(c, ops + [op]), op.now, op.reset, op.key) == e.(count := e.count + 1)
      && Live(After(c, ops + [op]), op.now, op.key) && Latest(ops + [op]) == op.now
  {
    OneMore(c, ops, op, op.key, a, b);
  }

  lemma {:induction false} BurstIsAdmitted(c: Config, pre: seq<Op>, op: Op, n: nat, a: nat, b: nat)
    returns (ops: seq<Op>)
    requires op.Call? && c.limit > 0 && op.key != Named("") && a <= op.now <= b && Latest(pre) <= op.now <= op.reset
    requires Current(After(c, pre), op.now, op.reset, op.key).count + n <= c.limit
    ensures ops == pre + Burst(op, n)
    ensures Admitted(c, ops, op.key, a, b) == Admitted(c, pre, op.key, a, b) + n
    ensures LateCalls(ops, op.key, a, b) == LateCalls(pre, op.key, a, b)
    ensures var e := Current(After(c, pre), op.now, op.reset, op.key);
      Current(After(c, ops), op.now, op.reset, op.key) == e.(count := e.count + n)
    ensures n > 0 ==> Live(After(c, ops), op.now, op.key) && Latest(ops) == op.now
    ensures Latest(ops) <= op.now
  {
    if n == 0 {
      ops := pre;
      assert pre + Burst(op, 0) == pre;
    } else {
      var ops0 := BurstIsAdmitted(c, pre, op, n - 1, a, b);
      OneBurstCall(c, ops0, op, a, b);
      ops := ops0 + [op];
      assert Burst(op, n) == Burst(op, n - 1) + [op];
    }
  }

  /** The run began with this call, and its key's entry still has the reset of that call. */
  ghost predicate BeganWith(c: Config, ops: seq<Op>, op: Op)
    requires op.Call?
  {
    && op.now <= op.reset && ops != [] && ops[0] == op && Latest(ops) <= op.reset + 1
    && op.key in After(c, ops) && After(c, ops)[op.key].reset == op.reset
  }

  lemma OneStaleCall(c: Config, ops: seq<Op>, op: Op, a: nat, b: nat)
    requires op.Call? && c.limit > 0 && op.key != Named("") && a <= op.now <= b && BeganWith(c, ops, op)
    ensures var ops' := ops + [Clean(op.reset + 1)] + [op];
      && Admitted(c, ops', op.key, a, b) == Admitted(c, ops, op.key, a, b) + 1
      && LateCalls(ops', op.key, a, b) == LateCalls(ops, op.key, a, b) + 1
      && BeganWith(c, ops', op)
  {
    var mid := ops + [Clean(op.reset + 1)];
    OneMore(c, ops, Clean(op.reset + 1), op.key, a, b);
    OneMore(c, mid, op, op.key, a, b);
    assert IsCall(mid[0], op.key);
    assert Late(mid, op);
  }

  lemma FirstBurst(c: Config, op: Op, a: nat, b: nat)
    requires op.Call? && c.limit > 0 && op.key != Named("") && a <= op.now <= b && op.now <= op.reset
    ensures var ops := Burst(op, c.limit);
      && Admitted(c, ops, op.key, a, b) == c.limit && LateCalls(ops, op.key, a, b) == 0
      && BeganWith(c, ops, op) && After(c, ops)[op.key].count == c.limit
  {
    var ops := BurstIsAdmitted(c, [], op, c.limit, a, b);
    assert ops == Burst(op, c.limit);
  }

  /**
    A full limit, and then cleanups with a reading past the reset, each followed by a call with a
    reading before it.
   */
  lemma {:induction false} StaleRun(c: Config, op: Op, a: nat, b: nat, n: nat) returns (ops: seq<Op>)
    requires op.Call? && c.limit > 0 && op.key != Named("") && a <= op.now <= b && op.now <= op.reset
    ensures Admitted(c, ops, op.key, a, b) == c.limit + n && LateCalls(ops, op.key, a, b) == n
    ensures BeganWith(c, ops, op) && forall i :: 0 <= i < |ops| && ops[i].Call? ==> ops[i] == op
    ensures n == 0 ==> ops == Burst(op, c.limit)
  {
    if n == 0 {
      FirstBurst(c, op, a, b);
      ops := Burst(op, c.limit);
    } else {
      var pre := StaleRun(c, op, a, b, n - 1);
      OneStaleCall(c, pre, op, a, b);
      ops := pre + [Clean(op.reset + 1)] + [op];
    }
  }

  lemma SharpRun(c: Config, op: Op, op': Op, n: nat, b: nat) returns (ops: seq<Op>)
    requires op.Call? && op'.Call? && op'.key == op.key && c.limit > 0 && op.key != Named("")
    requires op.now <= op.reset < op'.now <= b && op'.now <= op'.reset
    ensures Admitted(c, ops, op.key, op.now, b) == 2 * c.limit + n && LateCalls(ops, op.key, op.now, b) == n
    ensures forall i :: 0 <= i < |ops| && ops[i].Call? ==> ops[i] == op || ops[i] == op'
    ensures n == 0 ==> ops == Burst(op, c.limit) + Burst(op', c.limit)
  {
    var pre := StaleRun(c, op, op.now, b, n);
    ops := BurstIsAdmitted(c, pre, op', c.limit, op.now, b);
  }

  lemma BurstsInOrder(op: Op, op': Op, n: nat)
    requires op.now <= op'.now
    ensures InOrder(Burst(op, n) + Burst(op', n))
  {
  }

  /** Two readings `a` and `b` around the reset of the first. */
  lemma BoundAround(c: Config, resetOf: nat -> nat, key: Key, n: nat, a: nat, b: nat, end: nat) returns (ops: seq<Op>)
    requires c.limit > 0 && key != Named("") && a <= resetOf(a) < b <= end && b <= resetOf(b)
    ensures Computed(resetOf, ops)
    ensures Admitted(c, ops, key, a, end) == 2 * c.limit + n && LateCalls(ops, key, a, end) == n
    ensures n == 0 ==> InOrder(ops)
  {
    var op, op' := Call(a, resetOf(a), key), Call(b, resetOf(b), key);
    ops := SharpRun(c, op, op', n, end);
    BurstsInOrder(op, op', c.limit);
  }

  lemma JustBeforeReset(window: int)
    requires window > 0 && window % SECOND == 0
    ensures Span(window) == window && FixedWindowReset(window - 1, window) == window
  {
    var start := FixedWindowReset(window - 1, window) - window;
    assert WholeSeconds(window) * SECOND == window;
    assert 0 <= start < window && start % window == 0;
  }

  /**
    For every limit, every window of whole seconds and every number of late calls the bound is
    reached: a full limit just before the reset, late calls after cleanups, and a full limit just
    after the reset. Without late calls these come in the order of their readings.
   */
  lemma BoundIsReached(c: Config, key: Key, n: nat) returns (ops: seq<Op>, a: nat)
    requires c.limit > 0 && key != Named("") && c.window > 0 && c.window % SECOND == 0
    ensures Computed(ResetOf(c), ops)
    ensures Admitted(c, ops, key, a, a + Span(c.window)) == 2 * c.limit + n
    ensures LateCalls(ops, key, a, a + Span(c.window)) == n
    ensures n == 0 ==> InOrder(ops)
  {
    JustBeforeReset(c.window);
    a := c.window - 1;
    ops := BoundAround(c, ResetOf(c), key, n, a, a + 2, a + c.window);
  }

  // ---------------------------------------------------------------- when cleanup shows

  /** What a call works on and what it answers. */
  datatype Sight = Sight(entry: Entry, verdict: Verdict)

  function SightOf(c: Config, es: map<Key, Entry>, op: Op): Sight
    requires op.Call?
  {
    Sight(Current(es, op.now, op.reset, op.key), AllowAt(c, es, op.now, op.reset, op.key).1)
  }

  /** What each call of a run sees. */
  function Seen(c: Config, ops: seq<Op>): seq<Sight> {
    if ops == [] then []
    else
      var n := |ops| - 1;
      Seen(c, ops[..n]) + if ops[n].Call? then [SightOf(c, After(c, ops[..n]), ops[n])] else []
  }

  function Calls(ops: seq<Op>): seq<Op> {
    if ops == [] then []
    else Calls(ops[..|ops| - 1]) + if ops[|ops| - 1].Call? then [ops[|ops| - 1]] else []
  }

  /** Exactly when dropping the entries past `tc` shows to a call, and when it changes the verdict. */
  lemma CleanupShows(c: Config, ops: seq<Op>, tc: nat, op: Op)
    requires op.Call?
    ensures var es, es' := After(c, ops), Cleaned(After(c, ops), tc);
      var dropped := op.key in es && op.now <= es[op.key].reset < tc;
      && (SightOf(c, es', op).entry != SightOf(c, es, op).entry <==> dropped)
      && (SightOf(c, es', op).verdict != SightOf(c, es, op).verdict <==> dropped && es[op.key].count == c.limit)
  {
    TableIsOk(c, ops);
  }

  /** The cleanup at `i` dropped an entry of which the call at `j` would still have taken notice. */
  predicate Dropped(c: Config, ops: seq<Op>, i: int, j: int)
    requires 0 <= i < j < |ops|
  {
    && ops[i].Clean? && ops[j].Call?
    && (forall k :: i < k < j ==> !IsCall(ops[k], ops[j].key))
    && var es := After(c, ops[..i]);
    ops[j].key in es && ops[j].now <= es[ops[j].key].reset < ops[i].now
  }

  predicate NothingDropped(c: Config, ops: seq<Op>) {
    forall i, j :: 0 <= i < j < |ops| ==> !Dropped(c, ops, i, j)
  }

  predicate NoCallSince(ops: seq<Op>, i: int, key: Key) {
    forall k :: i <= k < |ops| && 0 <= k ==> !IsCall(ops[k], key)
  }

  /** The table with cleanups is the one without, less what cleanups dropped since a key's last call. */
  ghost predicate Missing(c: Config, ops: seq<Op>, key: Key) {
    var y := After(c, Calls(ops));
    key in y && exists i :: 0 <= i < |ops| && DroppedAt(c, ops, i, key, y[key])
  }

  ghost predicate DroppedAt(c: Config, ops: seq<Op>, i: int, key: Key, e: Entry)
    requires 0 <= i < |ops|
  {
    && ops[i].Clean? && NoCallSince(ops, i, key)
    && key in After(c, ops[..i]) && After(c, ops[..i])[key] == e && e.reset < ops[i].now
  }

  ghost predicate Alike(c: Config, ops: seq<Op>, key: Key) {
    var x, y := After(c, ops), After(c, Calls(ops));
    if key in x then key in y && y[key] == x[key] else key !in y || Missing(c, ops, key)
  }

  lemma AfterMore(c: Config, ops: seq<Op>, op: Op)
    ensures After(c, ops + [op]) == Exec(c, After(c, ops), op)
  {
    assert (ops + [op])[..|ops|] == ops;
  }

  lemma CallsOfMore(ops: seq<Op>, op: Op)
    ensures Calls(ops + [op]) == if op.Call? then Calls(ops) + [op] else Calls(ops)
  {
    assert (ops + [op])[..|ops|] == ops;
  }

  lemma PrefixIsNotDropped(c: Config, ops: seq<Op>, op: Op)
    requires NothingDropped(c, ops + [op])
    ensures NothingDropped(c, ops)
  {
    forall i, j | 0 <= i < j < |ops| ensures !Dropped(c, ops, i, j) {
      assert (ops + [op])[..i] == ops[..i];
      assert !Dropped(c, ops + [op], i, j);
    }
  }

  lemma OtherCallKeeps(c: Config, ops: seq<Op>, op: Op, key: Key)
    requires !IsCall(op, key) && key in After(c, Calls(ops))
    ensures key in After(c, Calls(ops + [op])) && After(c, Calls(ops + [op]))[key] == After(c, Calls(ops))[key]
  {
    CallsOfMore(ops, op);
    if op.Call? { AfterMore(c, Calls(ops), op); }
  }

  lemma MissingStays(c: Config, ops: seq<Op>, op: Op, key: Key)
    requires Missing(c, ops, key) && !IsCall(op, key)
    ensures Missing(c, ops + [op], key)
  {
    OtherCallKeeps(c, ops, op, key);
    var e := After(c, Calls(ops))[key];
    var i :| 0 <= i < |ops| && DroppedAt(c, ops, i, key, e);
    assert (ops + [op])[..i] == ops[..i];
    assert DroppedAt(c, ops + [op], i, key, e);
  }

  lemma CleanKeepsAlike(c: Config, ops: seq<Op>, now: nat, key: Key)
    requires Alike(c, ops, key)
    ensures Alike(c, ops + [Clean(now)], key)
  {
    var ops' := ops + [Clean(now)];
    AfterMore(c, ops, Clean(now));
    CallsOfMore(ops, Clean(now));
    if key in After(c, ops) {
      assert ops'[..|ops|] == ops;
      assert key !in After(c, ops') ==> DroppedAt(c, ops', |ops|, key, After(c, ops)[key]);
    } else if Missing(c, ops, key) {
      MissingStays(c, ops, Clean(now), key);
    }
  }

  /** A call of which nothing was dropped sees the same entry in both tables. */
  lemma AlikeIsSeen(c: Config, ops: seq<Op>, op: Op)
    requires op.Call? && Alike(c, ops, op.key) && NothingDropped(c, ops + [op])
    ensures SightOf(c, After(c, ops), op) == SightOf(c, After(c, Calls(ops)), op)
  {
    var y := After(c, Calls(ops));
    if op.key !in After(c, ops) && op.key in y {
      var i :| 0 <= i < |ops| && DroppedAt(c, ops, i, op.key, y[op.key]);
      assert (ops + [op])[..i] == ops[..i];
      assert !Dropped(c, ops + [op], i, |ops|);
    }
  }

  lemma CallKeepsAlike(c: Config, ops: seq<Op>, op: Op, key: Key)
    requires op.Call? && Alike(c, ops, op.key) && Alike(c, ops, key) && NothingDropped(c, ops + [op])
    ensures Alike(c, ops + [op], key)
  {
    AlikeIsSeen(c, ops, op);
    AfterMore(c, ops, op);
    CallsOfMore(ops, op);
    AfterMore(c, Calls(ops), op);
    if op.key != key {
      if Missing(c, ops, key) { MissingStays(c, ops, op, key); }
    } else if Unlimited(c, key) {
      TableIsOk(c, ops);
      TableIsOk(c, Calls(ops));
    }
  }

  lemma {:induction false} NothingDroppedIsUnseen(c: Config, ops: seq<Op>)
    requires NothingDropped(c, ops)
    ensures Seen(c, ops) == Seen(c, Calls(ops))
    ensures forall key :: Alike(c, ops, key)
  {
    if ops != [] {
      var pre, op := ops[..|ops| - 1], ops[|ops| - 1];
      assert ops == pre + [op];
      PrefixIsNotDropped(c, pre, op);
      NothingDroppedIsUnseen(c, pre);
      CallsOfMore(pre, op);
      if op.Call? {
        AlikeIsSeen(c, pre, op);
        assert (Calls(pre) + [op])[..|Calls(pre)|] == Calls(pre);
        forall key ensures Alike(c, ops, key) { CallKeepsAlike(c, pre, op, key); }
      } else {
        forall key ensures Alike(c, ops, key) { CleanKeepsAlike(c, pre, op.now, key); }
      }
    } else {
      forall key ensures Alike(c, ops, key) {}
    }
  }

  /** As long as its key is not called, a dropped entry stays away. */
  lemma {:induction false} DroppedStaysAway(c: Config, ops: seq<Op>, i: nat, key: Key)
    requires i < |ops| && ops[i].Clean? && NoCallSince(ops, i, key)
    requires key in After(c, ops[..i]) ==> After(c, ops[..i])[key].reset < ops[i].now
    ensures key !in After(c, ops)
    decreases |ops|
  {
    var pre, op := ops[..|ops| - 1], ops[|ops| - 1];
    if i < |pre| {
      assert pre[..i] == ops[..i];
      DroppedStaysAway(c, pre, i, key);
    } else {
      assert pre == ops[..i];
    }
  }

  /** Without cleanups it would stay as it is. */
  lemma {:induction false} UncalledStays(c: Config, ops: seq<Op>, i: nat, key: Key)
    requires i <= |ops| && NoCallSince(ops, i, key) && key in After(c, Calls(ops[..i]))
    ensures key in After(c, Calls(ops)) && After(c, Calls(ops))[key] == After(c, Calls(ops[..i]))[key]
    decreases |ops|
  {
    if i < |ops| {
      var pre, op := ops[..|ops| - 1], ops[|ops| - 1];
      assert pre[..i] == ops[..i] && ops == pre + [op];
      UncalledStays(c, pre, i, key);
      CallsOfMore(pre, op);
      if op.Call? { AfterMore(c, Calls(pre), op); }
    } else {
      assert ops[..i] == ops;
    }
  }

  lemma {:induction false} UnseenMeansNothingDropped(c: Config, ops: seq<Op>)
    requires Seen(c, ops) == Seen(c, Calls(ops))
    ensures NothingDropped(c, ops)
  {
    if ops != [] {
      var pre, op := ops[..|ops| - 1], ops[|ops| - 1];
      assert ops == pre + [op];
      CallsOfMore(pre, op);
      SeenLength(c, pre);
      SeenLength(c, Calls(pre));
      CallsOfCalls(pre);
      if op.Call? {
        assert (Calls(pre) + [op])[..|Calls(pre)|] == Calls(pre);
        assert Seen(c, ops)[..|Calls(pre)|] == Seen(c, pre);
        assert Seen(c, Calls(ops))[..|Calls(pre)|] == Seen(c, Calls(pre));
        assert Seen(c, ops)[|Calls(pre)|] == SightOf(c, After(c, pre), op);
        assert Seen(c, Calls(ops))[|Calls(pre)|] == SightOf(c, After(c, Calls(pre)), op);
      }
      UnseenMeansNothingDropped(c, pre);
      NothingDroppedIsUnseen(c, pre);
      forall i, j | 0 <= i < j < |ops| ensures !Dropped(c, ops, i, j) {
        assert ops[..i] == pre[..i];
        if j < |pre| {
          assert !Dropped(c, pre, i, j);
        } else if Dropped(c, ops, i, j) {
          DroppedIsSeen(c, pre, op, i);
        }
      }
    }
  }

  lemma DroppedIsSeen(c: Config, pre: seq<Op>, op: Op, i: nat)
    requires i < |pre| && Dropped(c, pre + [op], i, |pre|) && NothingDropped(c, pre)
    ensures SightOf(c, After(c, pre), op) != SightOf(c, After(c, Calls(pre)), op)
  {
    var ops := pre + [op];
    assert ops[..i] == pre[..i];
    forall k | i <= k < |pre| ensures !IsCall(pre[k], op.key) { assert ops[k] == pre[k]; }
    PrefixOfNothing(c, pre, i);
    NothingDroppedIsUnseen(c, pre[..i]);
    assert Alike(c, pre[..i], op.key);
    DroppedStaysAway(c, pre, i, op.key);
    UncalledStays(c, pre, i, op.key);
    TableIsOk(c, pre[..i]);
  }

  lemma PrefixOfNothing(c: Config, ops: seq<Op>, n: nat)
    requires n <= |ops| && NothingDropped(c, ops)
    ensures NothingDropped(c, ops[..n])
  {
    forall i, j | 0 <= i < j < n ensures !Dropped(c, ops[..n], i, j) {
      assert ops[..n][..i] == ops[..i];
      assert !Dropped(c, ops, i, j);
    }
  }

  lemma {:induction false} SeenLength(c: Config, ops: seq<Op>)
    ensures |Seen(c, ops)| == |Calls(ops)|
  {
    if ops != [] { SeenLength(c, ops[..|ops| - 1]); }
  }

  lemma {:induction false} CallsOfCalls(ops: seq<Op>)
    ensures Calls(Calls(ops)) == Calls(ops)
  {
    if ops != [] {
      var pre, op := ops[..|ops| - 1], ops[|ops| - 1];
      assert ops == pre + [op];
      CallsOfCalls(pre);
      CallsOfMore(pre, op);
      if op.Call? { CallsOfMore(Calls(pre), op); }
    }
  }

  lemma InOrderDropsNothing(c: Config, ops: seq<Op>)
    requires InOrder(ops)
    ensures NothingDropped(c, ops)
  {
  }

  /**
    Exactly when the cleanups of a run go unnoticed: no call comes, as the first of its key, after a
    cleanup that had read past the entry's reset while the call has not. Then no verdict changes.
   */
  lemma CleanupIsUnobservable(c: Config, ops: seq<Op>)
    ensures Seen(c, ops) == Seen(c, Calls(ops)) <==> NothingDropped(c, ops)
    ensures InOrder(ops) ==> NothingDropped(c, ops)
  {
    if NothingDropped(c, ops) { NothingDroppedIsUnseen(c, ops); }
    if Seen(c, ops) == Seen(c, Calls(ops)) { UnseenMeansNothingDropped(c, ops); }
    if InOrder(ops) { InOrderDropsNothing(c, ops); }
  }

  lemma {:induction false} CallsOfBurst(op: Op, n: nat)
    requires op.Call?
    ensures Calls(Burst(op, n)) == Burst(op, n)
  {
    if n > 0 {
      CallsOfBurst(op, n - 1);
      assert Burst(op, n) == Burst(op, n - 1) + [op];
      CallsOfMore(Burst(op, n - 1), op);
    }
  }

  lemma LastSeen(c: Config, ops: seq<Op>, op: Op)
    requires op.Call?
    ensures |Seen(c, ops + [op])| == |Calls(ops)| + 1
    ensures Seen(c, ops + [op])[|Calls(ops)|] == SightOf(c, After(c, ops), op)
  {
    SeenLength(c, ops);
    assert (ops + [op])[..|ops|] == ops;
  }

  /** After a full burst, a cleanup past the reset lets in one more call that had read the clock before it. */
  lemma StaleCallShows(c: Config, burst: seq<Op>, op: Op) returns (ops: seq<Op>)
    requires op.Call? && !Unlimited(c, op.key) && op.now <= op.reset && Calls(burst) == burst
    requires op.key in After(c, burst) && After(c, burst)[op.key] == Entry(c.limit, op.reset)
    ensures ops == burst + [Clean(op.reset + 1)] + [op]
    ensures |Seen(c, ops)| == |Seen(c, Calls(ops))| == |burst| + 1
    ensures Seen(c, ops)[|burst|].verdict.allowed && !Seen(c, Calls(ops))[|burst|].verdict.allowed
  {
    var mid := burst + [Clean(op.reset + 1)];
    ops := mid + [op];
    CallsOfMore(burst, Clean(op.reset + 1));
    CallsOfMore(mid, op);
    AfterMore(c, burst, Clean(op.reset + 1));
    LastSeen(c, mid, op);
    LastSeen(c, burst, op);
  }

  lemma FullBurst(c: Config, op: Op) returns (burst: seq<Op>)
    requires op.Call? && c.limit > 0 && op.key != Named("") && op.now <= op.reset
    ensures |burst| == c.limit && Calls(burst) == burst && forall i :: 0 <= i < |burst| ==> burst[i] == op
    ensures op.key in After(c, burst) && After(c, burst)[op.key] == Entry(c.limit, op.reset)
  {
    burst := Burst(op, c.limit);
    FirstBurst(c, op, op.now, op.now);
    CallsOfBurst(op, c.limit);
  }

  lemma StaleCallAt(c: Config, resetOf: nat -> nat, key: Key, t: nat) returns (ops: seq<Op>)
    requires c.limit > 0 && key != Named("") && t <= resetOf(t)
    ensures Computed(resetOf, ops) && |Seen(c, ops)| == |Seen(c, Calls(ops))| == c.limit + 1
    ensures Seen(c, ops)[c.limit].verdict.allowed && !Seen(c, Calls(ops))[c.limit].verdict.allowed
  {
    var op := Call(t, resetOf(t), key);
    var burst := FullBurst(c, op);
    ops := StaleCallShows(c, burst, op);
  }

  /** Such a run exists for every limit, every window and every reading. */
  lemma CleanupCanShow(c: Config, key: Key, t: nat) returns (ops: seq<Op>)
    requires c.limit > 0 && key != Named("")
    ensures Computed(ResetOf(c), ops) && |Seen(c, ops)| == |Seen(c, Calls(ops))| == c.limit + 1
    ensures Seen(c, ops)[c.limit].verdict.allowed && !Seen(c, Calls(ops))[c.limit].verdict.allowed
  {
    ops := StaleCallAt(c, ResetOf(c), key, t);
  }
}
