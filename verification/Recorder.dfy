/**
  The response recorder of the idempotency middleware, and the replay of what it recorded.

  `HttpWriter` is the server's response writer: headers go out with the first final WriteHeader or
  with the first Write, informational statuses do not count, later WriteHeader calls are ignored,
  and some statuses carry no body. `Recorder` sits on top of it.
 */
module Recorder {
  import opened Common
  import Idempotency

  type Bytes = seq<int>
  type Header = map<string, seq<string>>

  datatype Head = Head(status: int, header: Header)

  /** What a handler has set and what has gone out. */
  datatype Wire = Wire(header: Header, sent: Option<Head>, body: Bytes)

  const FRESH := Wire(map[], None, [])

  const CONTENT_TYPE := "Content-Type"
  const LOCATION := "Location"

  /** Header.Get: the first value, or the empty string. */
  function Get(h: Header, key: string): string {
    if key in h && h[key] != [] then h[key][0] else ""
  }

  predicate Informational(code: int) {
    100 <= code <= 199 && code != 101
  }

  predicate BodyAllowed(status: int) {
    !(100 <= status <= 199) && status != 204 && status != 304
  }

  function WireHead(w: Wire, code: int): Wire {
    if w.sent.Some? || Informational(code) then w else w.(sent := Some(Head(code, w.header)))
  }

  function WireWrite(w: Wire, p: Bytes): Wire {
    var w := WireHead(w, 200);
    if BodyAllowed(w.sent.value.status) then w.(body := w.body + p) else w
  }

  /** The server's part when the handler returns without having written. */
  function Finished(w: Wire): Wire {
    WireHead(w, 200)
  }

  datatype Rec = Rec(wire: Wire, status: int, body: Bytes, headers: Header, wroteHeader: bool, contentType: string)

  function NewRec(w: Wire): Rec {
    Rec(w, 200, [], map[], false, "")
  }

  function RecHead(r: Rec, code: int): Rec {
    if r.wroteHeader then r
    else Rec(WireHead(r.wire, code), code, r.body, r.headers + r.wire.header, true, Get(r.wire.header, CONTENT_TYPE))
  }

  function RecWrite(r: Rec, p: Bytes): Rec {
    var r := RecHead(r, 200);
    r.(body := r.body + p, wire := WireWrite(r.wire, p))
  }

  datatype Stored = Stored(status: int, body: Bytes, contentType: string, headers: map<string, string>)

  function ReplayHeaders(h: Header): map<string, string> {
    if Get(h, LOCATION) != "" then map[LOCATION := Get(h, LOCATION)] else map[]
  }

  function Record(r: Rec): Stored {
    Stored(r.status, r.body, r.contentType, ReplayHeaders(r.headers))
  }

  // ---------------------------------------------------------------- the objects

  class HttpWriter {
    var wire: Wire

    constructor ()
      ensures wire == FRESH
    {
      wire := FRESH;
    }

    method SetHeader(key: string, value: string)
      modifies this
      ensures wire == old(wire).(header := old(wire).header[key := [value]])
    {
      wire := wire.(header := wire.header[key := [value]]);
    }

    method WriteHeader(code: int)
      modifies this
      ensures wire == WireHead(old(wire), code)
    {
      if wire.sent.Some? || Informational(code) {
        return;
      }
      wire := wire.(sent := Some(Head(code, wire.header)));
    }

    method Write(p: Bytes)
      modifies this
      ensures wire == WireWrite(old(wire), p)
    {
      if wire.sent.None? {
        WriteHeader(200);
      }
      if BodyAllowed(wire.sent.value.status) {
        wire := wire.(body := wire.body + p);
      }
    }
  }

  class ResponseRecorder {
    const w: HttpWriter
    var status: int
    var body: Bytes
    var headers: Header
    var wroteHeader: bool
    var contentType: string

    constructor (w: HttpWriter)
      ensures this.w == w && View() == NewRec(w.wire)
    {
      this.w := w;
      status, body, headers, wroteHeader, contentType := 200, [], map[], false, "";
    }

    ghost function View(): Rec
      reads this, w
    {
      Rec(w.wire, status, body, headers, wroteHeader, contentType)
    }

    method WriteHeader(code: int)
      modifies this, w
      ensures View() == RecHead(old(View()), code)
    {
      if wroteHeader {
        return;
      }
      status := code;
      wroteHeader := true;
      contentType := Get(w.wire.header, CONTENT_TYPE);
      var todo := w.wire.header.Keys;
      while todo != {}
        invariant todo <= w.wire.header.Keys && w.wire == old(w.wire)
        invariant status == code && wroteHeader && body == old(body) && contentType == Get(w.wire.header, CONTENT_TYPE)
        invariant headers.Keys == old(headers).Keys + (w.wire.header.Keys - todo)
        invariant forall k :: k in headers ==>
          headers[k] == if k in w.wire.header && k !in todo then w.wire.header[k] else old(headers)[k]
      {
        var k :| k in todo;
        headers := headers[k := w.wire.header[k]];
        todo := todo - {k};
      }
      assert headers == old(headers) + w.wire.header;
      w.WriteHeader(code);
    }

    method Write(p: Bytes)
      modifies this, w
      ensures View() == RecWrite(old(View()), p)
    {
      if !wroteHeader {
        WriteHeader(200);
      }
      body := body + p;
      w.Write(p);
    }
  }

  method ReplayStoredResponse(w: HttpWriter, sr: Stored)
    modifies w
    ensures w.wire == Replay(old(w.wire), sr)
  {
    if sr.contentType != "" {
      w.SetHeader(CONTENT_TYPE, sr.contentType);
    }
    ghost var h := w.wire.header;
    var todo := sr.headers.Keys;
    while todo != {}
      invariant todo <= sr.headers.Keys
      invariant w.wire == old(w.wire).(header := w.wire.header)
      invariant forall k :: k in w.wire.header <==> k in h || (k in sr.headers && k !in todo && sr.headers[k] != "")
      invariant forall k :: k in w.wire.header ==>
        w.wire.header[k] == if k in sr.headers && k !in todo && sr.headers[k] != "" then [sr.headers[k]] else h[k]
    {
      var k :| k in todo;
      if sr.headers[k] != "" {
        w.SetHeader(k, sr.headers[k]);
      }
      todo := todo - {k};
    }
    assert w.wire.header == WithHeaders(h, sr.headers);
    w.WriteHeader(sr.status);
    if |sr.body| > 0 {
      w.Write(sr.body);
    }
  }

  /** Non-empty values replace what was there. */
  function WithHeaders(h: Header, extra: map<string, string>): Header {
    h + map k | k in extra && extra[k] != "" :: [extra[k]]
  }

  function Replay(w: Wire, sr: Stored): Wire {
    var h := if sr.contentType != "" then w.header[CONTENT_TYPE := [sr.contentType]] else w.header;
    var w := WireHead(w.(header := WithHeaders(h, sr.headers)), sr.status);
    if |sr.body| > 0 then WireWrite(w, sr.body) else w
  }

  // ---------------------------------------------------------------- every handler

  datatype Op = SetHeader(key: string, value: string) | WriteHeader(code: int) | Write(p: Bytes)

  function Exec(r: Rec, op: Op): Rec {
    match op
    case SetHeader(k, v) => r.(wire := r.wire.(header := r.wire.header[k := [v]]))
    case WriteHeader(code) => RecHead(r, code)
    case Write(p) => RecWrite(r, p)
  }

  function After(ops: seq<Op>): Rec {
    if ops == [] then NewRec(FRESH) else Exec(After(ops[..|ops| - 1]), ops[|ops| - 1])
  }

  /** A response that was begun is recorded as it went out, unless it began with an informational status. */
  ghost predicate Ok(r: Rec) {
    if !r.wroteHeader then r.wire.sent.None? && r.wire.body == [] && r.body == [] && r.headers == map[]
      && r.status == 200 && r.contentType == ""
    else !Informational(r.status) ==>
      && r.wire.sent == Some(Head(r.status, r.headers))
      && r.contentType == Get(r.headers, CONTENT_TYPE)
      && r.wire.body == if BodyAllowed(r.status) then r.body else []
  }

  lemma {:induction false} AfterOk(ops: seq<Op>)
    ensures Ok(After(ops))
  {
    if ops != [] {
      AfterOk(ops[..|ops| - 1]);
      var r := After(ops[..|ops| - 1]);
      assert map[] + r.wire.header == r.wire.header;
    }
  }

  /** What a client sees of a response. */
  ghost predicate SameToClient(a: Wire, b: Wire)
    requires a.sent.Some? && b.sent.Some?
  {
    && a.sent.value.status == b.sent.value.status
    && a.body == b.body
    && Get(a.sent.value.header, CONTENT_TYPE) == Get(b.sent.value.header, CONTENT_TYPE)
    && Get(a.sent.value.header, LOCATION) == Get(b.sent.value.header, LOCATION)
  }

  lemma HeadersOfReplay(r: Rec)
    ensures var h := WithHeaders(if r.contentType != "" then map[CONTENT_TYPE := [r.contentType]] else map[],
      ReplayHeaders(r.headers));
      Get(h, CONTENT_TYPE) == r.contentType && Get(h, LOCATION) == Get(r.headers, LOCATION)
  {
    assert CONTENT_TYPE != LOCATION;
  }

  /**
    For every sequence of calls that ends in a cacheable status, replaying the record on a fresh
    writer shows the client what the original showed, exactly when the handler wrote at least once
    or set neither a content type nor a location.
   */
  lemma ReplayShowsOriginal(ops: seq<Op>)
    requires Idempotency.Cacheable(After(ops).status)
    ensures var r := After(ops);
      var original, replayed := Finished(r.wire), Replay(FRESH, Record(r));
      && original.sent.Some? && replayed.sent.Some?
      && (SameToClient(original, replayed) <==>
            r.wroteHeader || (Get(r.wire.header, CONTENT_TYPE) == "" && Get(r.wire.header, LOCATION) == ""))
  {
    AfterOk(ops);
    HeadersOfReplay(After(ops));
  }

  predicate Writes(op: Op) {
    op.WriteHeader? || op.Write?
  }

  lemma {:induction false} WroteHeader(ops: seq<Op>)
    ensures After(ops).wroteHeader <==> exists i :: 0 <= i < |ops| && Writes(ops[i])
  {
    if ops != [] {
      var n := |ops| - 1;
      WroteHeader(ops[..n]);
      if After(ops[..n]).wroteHeader {
        var i :| 0 <= i < n && Writes(ops[..n][i]);
        assert Writes(ops[i]);
      }
      if Writes(ops[n]) { assert After(ops).wroteHeader; }
    }
  }

  lemma LastCall(ops: seq<Op>, op: Op)
    ensures After(ops + [op]) == Exec(After(ops), op)
  {
    assert (ops + [op])[..|ops|] == ops;
  }

  /** Dropping a call that changes nothing changes nothing later. */
  lemma {:induction false} SameFromThere(a: seq<Op>, b: seq<Op>, post: seq<Op>)
    requires After(a) == After(b)
    ensures After(a + post) == After(b + post)
    decreases |post|
  {
    if post == [] {
      assert a + post == a && b + post == b;
    } else {
      var op, rest := post[0], post[1..];
      LastCall(a, op);
      LastCall(b, op);
      SameFromThere(a + [op], b + [op], rest);
      assert a + [op] + rest == a + post && b + [op] + rest == b + post;
    }
  }

  /**
    A WriteHeader call anywhere after the first write leaves no trace: neither in what goes out nor
    in what is recorded, whatever the handler does before and after it.
   */
  lemma LaterWriteHeaderIsIgnored(pre: seq<Op>, code: int, post: seq<Op>)
    requires exists i :: 0 <= i < |pre| && Writes(pre[i])
    ensures After(pre + [WriteHeader(code)] + post) == After(pre + post)
  {
    WroteHeader(pre);
    SameFromThere(pre + [WriteHeader(code)], pre, post);
  }

  // ---------------------------------------------------------------- what goes out through the recorder

  /** A call made on the server's writer itself. */
  function WireExec(w: Wire, op: Op): Wire {
    match op
    case SetHeader(k, v) => w.(header := w.header[k := [v]])
    case WriteHeader(code) => WireHead(w, code)
    case Write(p) => WireWrite(w, p)
  }

  function Bare(ops: seq<Op>): Wire {
    if ops == [] then FRESH else WireExec(Bare(ops[..|ops| - 1]), ops[|ops| - 1])
  }

  lemma LastBare(ops: seq<Op>, op: Op)
    ensures Bare(ops + [op]) == WireExec(Bare(ops), op)
  {
    assert (ops + [op])[..|ops|] == ops;
  }

  /** The first writing call was an informational WriteHeader, and nothing was written to the body yet. */
  ghost predicate OnlyInformed(ops: seq<Op>) {
    && (forall k :: 0 <= k < |ops| ==> !ops[k].Write?)
    && exists i :: 0 <= i < |ops| && BeginsInformed(ops, i)
  }

  ghost predicate BeginsInformed(ops: seq<Op>, i: nat)
    requires i < |ops|
  {
    ops[i].WriteHeader? && Informational(ops[i].code) && forall k :: 0 <= k < i ==> !Writes(ops[k])
  }

  /** In that situation call `j` sets the final status. */
  ghost predicate StatusIsLost(ops: seq<Op>, j: nat) {
    j < |ops| && OnlyInformed(ops[..j]) && ops[j].WriteHeader? && !Informational(ops[j].code)
  }

  lemma InformedStep(pre: seq<Op>, op: Op)
    ensures OnlyInformed(pre + [op]) <==>
            || (OnlyInformed(pre) && !op.Write?)
            || ((forall k :: 0 <= k < |pre| ==> !Writes(pre[k])) && op.WriteHeader? && Informational(op.code))
  {
    var ops := pre + [op];
    if OnlyInformed(pre) && !op.Write? {
      var i :| 0 <= i < |pre| && BeginsInformed(pre, i);
      assert BeginsInformed(ops, i);
    } else if (forall k :: 0 <= k < |pre| ==> !Writes(pre[k])) && op.WriteHeader? && Informational(op.code) {
      assert BeginsInformed(ops, |pre|);
    } else if OnlyInformed(ops) {
      var i :| 0 <= i < |ops| && BeginsInformed(ops, i);
      assert !ops[|pre|].Write?;
      forall k | 0 <= k < |pre| ensures !pre[k].Write? && (k < i ==> !Writes(pre[k])) {
        assert ops[k] == pre[k];
      }
      if i < |pre| { assert BeginsInformed(pre, i); }
    }
  }

  lemma {:induction false} InformedMeans(ops: seq<Op>)
    ensures OnlyInformed(ops) <==> After(ops).wroteHeader && After(ops).wire.sent.None?
  {
    if ops != [] {
      var pre, op := ops[..|ops| - 1], ops[|ops| - 1];
      assert ops == pre + [op];
      InformedMeans(pre);
      WroteHeader(pre);
      InformedStep(pre, op);
      AfterOk(pre);
    }
  }

  /** One more call goes out alike, unless it is the final status after an informational one. */
  lemma OneMoreCall(ops: seq<Op>, op: Op)
    requires After(ops).wire == Bare(ops)
    ensures After(ops + [op]).wire == Bare(ops + [op]) <==> !StatusIsLost(ops + [op], |ops|)
  {
    assert (ops + [op])[..|ops|] == ops;
    LastCall(ops, op);
    LastBare(ops, op);
    InformedMeans(ops);
  }

  ghost predicate Transparent(ops: seq<Op>) {
    forall n :: 0 <= n <= |ops| ==> After(ops[..n]).wire == Bare(ops[..n])
  }

  lemma {:induction false} NothingLost(ops: seq<Op>)
    requires forall j :: 0 <= j < |ops| ==> !StatusIsLost(ops, j)
    ensures After(ops).wire == Bare(ops)
  {
    if ops != [] {
      var n := |ops| - 1;
      forall j | 0 <= j < n ensures !StatusIsLost(ops[..n], j) {
        assert ops[..n][..j] == ops[..j];
        assert !StatusIsLost(ops, j);
      }
      NothingLost(ops[..n]);
      assert ops[..n] + [ops[n]] == ops;
      assert !StatusIsLost(ops, n);
      OneMoreCall(ops[..n], ops[n]);
    }
  }

  /**
    The recorder is transparent: after every call the server's writer is as if the calls had been
    made on it directly. This holds exactly when no final status follows an informational one that
    began the response, before the first Write.
   */
  lemma RecorderIsTransparent(ops: seq<Op>)
    ensures Transparent(ops) <==> forall j :: 0 <= j < |ops| ==> !StatusIsLost(ops, j)
  {
    if forall j :: 0 <= j < |ops| ==> !StatusIsLost(ops, j) {
      forall n | 0 <= n <= |ops| ensures After(ops[..n]).wire == Bare(ops[..n]) {
        forall j | 0 <= j < n ensures !StatusIsLost(ops[..n], j) {
          assert ops[..n][..j] == ops[..j];
          assert !StatusIsLost(ops, j);
        }
        NothingLost(ops[..n]);
      }
    } else {
      var j :| 0 <= j < |ops| && StatusIsLost(ops, j);
      assert ops[..j + 1] == ops[..j] + [ops[j]] && ops[..j + 1][..j] == ops[..j];
      if Transparent(ops) { OneMoreCall(ops[..j], ops[j]); }
    }
  }

  /** Early hints before a 201 make the client see a 200. */
  lemma StatusCanBeLost() returns (ops: seq<Op>)
    ensures StatusIsLost(ops, 1) && !Transparent(ops)
    ensures Finished(After(ops).wire).sent == Some(Head(200, map[]))
    ensures Finished(Bare(ops)).sent == Some(Head(201, map[]))
  {
    var hints, created := WriteHeader(103), WriteHeader(201);
    ops := [hints, created];
    InformedStep([], hints);
    assert [] + [hints] == [hints] == ops[..1] && [hints] + [created] == ops;
    LastCall([], hints);
    LastCall([hints], created);
    LastBare([], hints);
    LastBare([hints], created);
    assert ops[..2] == ops;
  }
}
