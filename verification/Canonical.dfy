/**
  Canonical forms: the query string inside a request fingerprint, the filter string inside a cache
  key, and the fingerprint itself. Go maps are visited in any order; keys and values are sorted.
 */
module Canonical {

  // ---------------------------------------------------------------- sorted strings

  /** The byte-wise order of sort.Strings. */
  predicate Leq(a: string, b: string) {
    a == [] || (b != [] && (a[0] < b[0] || (a[0] == b[0] && Leq(a[1..], b[1..]))))
  }

  lemma LeqTotal(a: string, b: string)
    ensures Leq(a, b) || Leq(b, a)
  {
  }

  lemma LeqAntisymmetric(a: string, b: string)
    requires Leq(a, b) && Leq(b, a)
    ensures a == b
  {
    if a != [] {
      LeqAntisymmetric(a[1..], b[1..]);
      assert a == [a[0]] + a[1..] && b == [b[0]] + b[1..];
    }
  }

  lemma LeqTransitive(a: string, b: string, c: string)
    requires Leq(a, b) && Leq(b, c)
    ensures Leq(a, c)
  {
  }

  predicate Sorted(s: seq<string>) {
    forall i, j :: 0 <= i < j < |s| ==> Leq(s[i], s[j])
  }

  function Insert(x: string, s: seq<string>): (r: seq<string>)
    requires Sorted(s)
    ensures Sorted(r) && multiset(r) == multiset(s) + multiset{x}
  {
    if s == [] then [x]
    else if Leq(x, s[0]) then
      assert forall i :: 0 <= i < |s| ==> Leq(x, s[i]) by {
        forall i | 0 <= i < |s| ensures Leq(x, s[i]) { if i > 0 { LeqTransitive(x, s[0], s[i]); } }
      }
      [x] + s
    else
      var r := Insert(x, s[1..]);
      assert s == [s[0]] + s[1..];
      assert forall i :: 0 <= i < |r| ==> Leq(s[0], r[i]) by {
        forall i | 0 <= i < |r| ensures Leq(s[0], r[i]) {
          LeqTotal(x, s[0]);
          assert r[i] in multiset(r);
          if r[i] != x { assert r[i] in multiset(s[1..]) && r[i] in s[1..]; }
        }
      }
      [s[0]] + r
  }

  function Sort(s: seq<string>): (r: seq<string>)
    ensures Sorted(r) && multiset(r) == multiset(s)
  {
    if s == [] then []
    else
      assert s == s[..|s| - 1] + [s[|s| - 1]];
      Insert(s[|s| - 1], Sort(s[..|s| - 1]))
  }

  /** There is only one way to sort a bag of strings. */
  lemma {:induction false} SortedIsUnique(a: seq<string>, b: seq<string>)
    requires Sorted(a) && Sorted(b) && multiset(a) == multiset(b)
    ensures a == b
    decreases |a|
  {
    assert |multiset(a)| == |a| && |multiset(b)| == |b|;
    if a != [] {
      FirstIsLeast(a, b[0]);
      FirstIsLeast(b, a[0]);
      LeqAntisymmetric(a[0], b[0]);
      BagOfTail(a);
      BagOfTail(b);
      SortedIsUnique(a[1..], b[1..]);
      assert a == [a[0]] + a[1..] && b == [b[0]] + b[1..];
    }
  }

  lemma BagOfTail(a: seq<string>)
    requires a != []
    ensures multiset(a[1..]) == multiset(a) - multiset{a[0]}
  {
    assert a == [a[0]] + a[1..];
  }

  lemma FirstIsLeast(a: seq<string>, x: string)
    requires Sorted(a) && a != [] && x in multiset(a)
    ensures Leq(a[0], x)
  {
    assert x in a;
    LeqTotal(a[0], a[0]);
  }

  // ---------------------------------------------------------------- joining and splitting

  function Join(parts: seq<string>, sep: char): string {
    if parts == [] then ""
    else if |parts| == 1 then parts[0]
    else parts[0] + [sep] + Join(parts[1..], sep)
  }

  /** Everything before the first separator, and what follows it if there is one. */
  function Cut(s: string, sep: char): (string, string, bool) {
    if s == "" then ("", "", false)
    else if s[0] == sep then ("", s[1..], true)
    else
      var (a, b, found) := Cut(s[1..], sep);
      ([s[0]] + a, b, found)
  }

  lemma {:induction false} CutJoined(a: string, b: string, sep: char)
    requires sep !in a
    ensures Cut(a + [sep] + b, sep) == (a, b, true)
  {
    var s := a + [sep] + b;
    if a == "" {
      assert s == [sep] + b;
    } else {
      assert s[1..] == a[1..] + [sep] + b;
      CutJoined(a[1..], b, sep);
      assert [a[0]] + a[1..] == a;
    }
  }

  lemma {:induction false} CutAlone(a: string, sep: char)
    requires sep !in a
    ensures Cut(a, sep) == (a, "", false)
  {
    if a != "" {
      CutAlone(a[1..], sep);
      assert [a[0]] + a[1..] == a;
    }
  }

  lemma {:induction false} CutShrinks(s: string, sep: char)
    ensures Cut(s, sep).2 ==> |Cut(s, sep).1| < |s|
  {
    if s != "" && s[0] != sep { CutShrinks(s[1..], sep); }
  }

  /** The same piece before the same separator means the same rest. */
  lemma JoinedIsInjective(a: string, b: string, a': string, b': string, sep: char)
    requires sep !in a && sep !in a' && a + [sep] + b == a' + [sep] + b'
    ensures a == a' && b == b'
  {
    CutJoined(a, b, sep);
    CutJoined(a', b', sep);
  }

  function Split(s: string, sep: char): seq<string>
    decreases |s|
  {
    var (a, b, found) := Cut(s, sep);
    CutShrinks(s, sep);
    if found then [a] + Split(b, sep) else [a]
  }

  lemma {:induction false} SplitJoin(parts: seq<string>, sep: char)
    requires parts != [] && forall i :: 0 <= i < |parts| ==> sep !in parts[i]
    ensures Split(Join(parts, sep), sep) == parts
  {
    if |parts| == 1 {
      CutAlone(parts[0], sep);
    } else {
      CutJoined(parts[0], Join(parts[1..], sep), sep);
      SplitJoin(parts[1..], sep);
      assert [parts[0]] + parts[1..] == parts;
    }
  }

  // ---------------------------------------------------------------- the query of a fingerprint

  function Pairs(k: string, vals: seq<string>): seq<string> {
    if vals == [] then [] else Pairs(k, vals[..|vals| - 1]) + [k + "=" + vals[|vals| - 1]]
  }

  /** One part per value, keys in the given order, values sorted. */
  function Parts(keys: seq<string>, v: map<string, seq<string>>): seq<string>
    requires forall i :: 0 <= i < |keys| ==> keys[i] in v
  {
    if keys == [] then []
    else Parts(keys[..|keys| - 1], v) + Pairs(keys[|keys| - 1], Sort(v[keys[|keys| - 1]]))
  }

  ghost predicate IsSortedKeys(keys: seq<string>, all: set<string>) {
    Sorted(keys) && multiset(keys) == multiset(all)
  }

  lemma KeysAreKeys(keys: seq<string>, all: set<string>)
    requires multiset(keys) == multiset(all)
    ensures forall i :: 0 <= i < |keys| ==> keys[i] in all
    ensures forall k :: k in all ==> k in keys
    ensures |keys| == |all|
  {
    forall i | 0 <= i < |keys| ensures keys[i] in all { assert keys[i] in multiset(keys); }
    forall k | k in all ensures k in keys { assert k in multiset(keys); }
    assert |multiset(keys)| == |keys| && |multiset(all)| == |all|;
  }

  /** What a run of canonicalQuery may return. */
  ghost predicate IsCanonicalQuery(v: map<string, seq<string>>, r: string) {
    exists keys {:trigger IsSortedKeys(keys, v.Keys)} ::
      && IsSortedKeys(keys, v.Keys) && (forall i :: 0 <= i < |keys| ==> keys[i] in v) && r == Join(Parts(keys, v), '&')
  }

  method CollectKeys(all: set<string>) returns (keys: seq<string>)
    ensures IsSortedKeys(keys, all)
  {
    keys := [];
    var todo := all;
    while todo != {}
      invariant todo <= all
      invariant multiset(keys) == multiset(all - todo)
    {
      var k :| k in todo;
      assert all - (todo - {k}) == (all - todo) + {k};
      keys, todo := keys + [k], todo - {k};
    }
    assert all - todo == all;
    keys := Sort(keys);
  }

  /** The inner loop: one part per sorted value of a key. */
  method AppendValues(parts: seq<string>, key: string, values: seq<string>) returns (r: seq<string>)
    ensures r == parts + Pairs(key, Sort(values))
  {
    var vals := Sort(values);
    r := parts;
    for j := 0 to |vals|
      invariant r == parts + Pairs(key, vals[..j])
    {
      assert vals[..j + 1][..j] == vals[..j];
      r := r + [key + "=" + vals[j]];
    }
    assert vals[..|vals|] == vals;
  }

  lemma PartsGrow(keys: seq<string>, v: map<string, seq<string>>, i: nat)
    requires i < |keys| && forall j :: 0 <= j < |keys| ==> keys[j] in v
    ensures Parts(keys[..i + 1], v) == Parts(keys[..i], v) + Pairs(keys[i], Sort(v[keys[i]]))
  {
    assert keys[..i + 1][..i] == keys[..i];
  }

  method BuildParts(keys: seq<string>, v: map<string, seq<string>>) returns (parts: seq<string>)
    requires forall i :: 0 <= i < |keys| ==> keys[i] in v
    ensures parts == Parts(keys, v)
  {
    parts := [];
    for i := 0 to |keys|
      invariant parts == Parts(keys[..i], v)
    {
      PartsGrow(keys, v, i);
      parts := AppendValues(parts, keys[i], v[keys[i]]);
    }
    assert keys[..|keys|] == keys;
  }

  method CanonicalQuery(v: map<string, seq<string>>) returns (r: string)
    ensures IsCanonicalQuery(v, r)
  {
    var keys := CollectKeys(v.Keys);
    KeysAreKeys(keys, v.Keys);
    if |v| == 0 {
      assert keys == [];
      return "";
    }
    var parts := BuildParts(keys, v);
    r := Join(parts, '&');
  }

  lemma {:induction false} PartsAgree(keys: seq<string>, v: map<string, seq<string>>, w: map<string, seq<string>>)
    requires forall i :: 0 <= i < |keys| ==>
      keys[i] in v && keys[i] in w && multiset(v[keys[i]]) == multiset(w[keys[i]])
    ensures Parts(keys, v) == Parts(keys, w)
  {
    if keys != [] {
      var k := keys[|keys| - 1];
      PartsAgree(keys[..|keys| - 1], v, w);
      SortedIsUnique(Sort(v[k]), Sort(w[k]));
    }
  }

  /**
    Whatever order the map is visited in, and however the values of a key are ordered, the
    canonical query is the same.
   */
  lemma CanonicalQueryIsOrderFree(v: map<string, seq<string>>, w: map<string, seq<string>>, r: string, r': string)
    requires v.Keys == w.Keys && forall k :: k in v ==> multiset(v[k]) == multiset(w[k])
    requires IsCanonicalQuery(v, r) && IsCanonicalQuery(w, r')
    ensures r == r'
  {
    var a :| IsSortedKeys(a, v.Keys) && (forall i :: 0 <= i < |a| ==> a[i] in v) && r == Join(Parts(a, v), '&');
    var b :| IsSortedKeys(b, w.Keys) && (forall i :: 0 <= i < |b| ==> b[i] in w) && r' == Join(Parts(b, w), '&');
    SortedIsUnique(a, b);
    PartsAgree(a, v, w);
  }

  // ---------------------------------------------------------------- reading a canonical query back

  /** The values that a list of parts holds for one key. */
  function ValuesFor(parts: seq<string>, k: string): seq<string> {
    if parts == [] then []
    else
      var (key, val, _) := Cut(parts[|parts| - 1], '=');
      ValuesFor(parts[..|parts| - 1], k) + if key == k then [val] else []
  }

  function ReadQuery(r: string, k: string): seq<string> {
    if r == "" then [] else ValuesFor(Split(r, '&'), k)
  }

  /** The values of a key, none if it is absent. */
  function Values(v: map<string, seq<string>>, k: string): seq<string> {
    if k in v then v[k] else []
  }

  /** Keys without '&' or '=', values without '&'. */
  ghost predicate PlainQuery(v: map<string, seq<string>>) {
    forall k :: k in v ==> '&' !in k && '=' !in k && forall i :: 0 <= i < |v[k]| ==> '&' !in v[k][i]
  }

  lemma {:induction false} ValuesForAppend(a: seq<string>, b: seq<string>, k: string)
    ensures ValuesFor(a + b, k) == ValuesFor(a, k) + ValuesFor(b, k)
  {
    if b == [] {
      assert a + b == a;
    } else {
      var n := |b| - 1;
      assert (a + b)[..|a| + n] == a + b[..n];
      ValuesForAppend(a, b[..n], k);
    }
  }

  lemma {:induction false} ValuesForPairs(key: string, vals: seq<string>, k: string)
    requires '=' !in key
    ensures ValuesFor(Pairs(key, vals), k) == if key == k then vals else []
  {
    if vals != [] {
      var n := |vals| - 1;
      ValuesForPairs(key, vals[..n], k);
      assert Pairs(key, vals)[..|Pairs(key, vals)| - 1] == Pairs(key, vals[..n]);
      assert key + "=" + vals[n] == key + ['='] + vals[n];
      CutJoined(key, vals[n], '=');
    }
  }

  lemma {:induction false} ValuesForParts(keys: seq<string>, v: map<string, seq<string>>, k: string)
    requires (forall i :: 0 <= i < |keys| ==> keys[i] in v && '=' !in keys[i]) && multiset(keys)[k] <= 1
    ensures ValuesFor(Parts(keys, v), k) == if k in keys then Sort(v[k]) else []
  {
    if keys != [] {
      var n := |keys| - 1;
      var init, last := keys[..n], keys[n];
      assert keys == init + [last];
      assert multiset(keys) == multiset(init) + multiset{last};
      if last == k { assert k !in multiset(init) && k !in init; }
      ValuesForParts(init, v, k);
      ValuesForPairs(last, Sort(v[last]), k);
      ValuesForAppend(Parts(init, v), Pairs(last, Sort(v[last])), k);
    }
  }

  /** A part is never empty, and holds a separator or line break only if its key or value does. */
  ghost predicate PartFree(part: string, c: char) {
    part != "" && c !in part
  }

  lemma {:induction false} PairsFree(key: string, vals: seq<string>, c: char)
    requires c !in key && c != '=' && forall i :: 0 <= i < |vals| ==> c !in vals[i]
    ensures forall i :: 0 <= i < |Pairs(key, vals)| ==> PartFree(Pairs(key, vals)[i], c)
  {
    if vals != [] { PairsFree(key, vals[..|vals| - 1], c); }
  }

  lemma {:induction false} PartsFree(keys: seq<string>, v: map<string, seq<string>>, c: char)
    requires c != '=' && forall i :: 0 <= i < |keys| ==>
      keys[i] in v && c !in keys[i] && forall j :: 0 <= j < |v[keys[i]]| ==> c !in v[keys[i]][j]
    ensures forall i :: 0 <= i < |Parts(keys, v)| ==> PartFree(Parts(keys, v)[i], c)
  {
    if keys != [] {
      var n := |keys| - 1;
      PartsFree(keys[..n], v, c);
      var vals := Sort(v[keys[n]]);
      forall i | 0 <= i < |vals| ensures c !in vals[i] {
        assert vals[i] in multiset(vals);
        assert vals[i] in v[keys[n]];
      }
      PairsFree(keys[n], vals, c);
    }
  }

  lemma ReadParts(parts: seq<string>, k: string)
    requires forall i :: 0 <= i < |parts| ==> PartFree(parts[i], '&')
    ensures ReadQuery(Join(parts, '&'), k) == ValuesFor(parts, k)
  {
    if parts != [] {
      assert PartFree(parts[0], '&');
      forall i | 0 <= i < |parts| ensures '&' !in parts[i] { assert PartFree(parts[i], '&'); }
      SplitJoin(parts, '&');
    }
  }

  /** Reading a canonical query gives back the sorted values of each key. */
  lemma QueryRoundTrip(v: map<string, seq<string>>, r: string, k: string)
    requires PlainQuery(v) && IsCanonicalQuery(v, r)
    ensures ReadQuery(r, k) == Sort(Values(v, k))
  {
    var keys :| IsSortedKeys(keys, v.Keys) && (forall i :: 0 <= i < |keys| ==> keys[i] in v)
      && r == Join(Parts(keys, v), '&');
    KeysAreKeys(keys, v.Keys);
    assert multiset(keys)[k] <= 1;
    PartsFree(keys, v, '&');
    ReadParts(Parts(keys, v), k);
    ValuesForParts(keys, v, k);
  }

  /** So on plain queries the canonical form is injective up to the order of values. */
  lemma CanonicalQueryIsInjective(v: map<string, seq<string>>, w: map<string, seq<string>>, r: string)
    requires PlainQuery(v) && PlainQuery(w) && IsCanonicalQuery(v, r) && IsCanonicalQuery(w, r)
    ensures forall k :: multiset(Values(v, k)) == multiset(Values(w, k))
  {
    forall k ensures multiset(Values(v, k)) == multiset(Values(w, k)) {
      QueryRoundTrip(v, r, k);
      QueryRoundTrip(w, r, k);
    }
  }

  // ---------------------------------------------------------------- the filters of a cache key

  function FilterParts(keys: seq<string>, m: map<string, string>): (parts: seq<string>)
    requires forall i :: 0 <= i < |keys| ==> keys[i] in m
    ensures |parts| == |keys|
  {
    seq(|keys|, i requires 0 <= i < |keys| => keys[i] + "=" + m[keys[i]])
  }

  ghost predicate IsCanonicalFilter(m: map<string, string>, r: string) {
    exists keys {:trigger IsSortedKeys(keys, m.Keys)} ::
      && IsSortedKeys(keys, m.Keys) && (forall i :: 0 <= i < |keys| ==> keys[i] in m)
      && r == Join(FilterParts(keys, m), '&')
  }

  method CanonicalQueryString(filters: map<string, string>) returns (r: string)
    ensures IsCanonicalFilter(filters, r)
  {
    var keys := CollectKeys(filters.Keys);
    KeysAreKeys(keys, filters.Keys);
    if |filters| == 0 {
      assert keys == [];
      return "";
    }
    var parts: seq<string> := [];
    for i := 0 to |keys|
      invariant parts == FilterParts(keys[..i], filters)
    {
      parts := parts + [keys[i] + "=" + filters[keys[i]]];
    }
    assert keys[..|keys|] == keys;
    r := Join(parts, '&');
  }

  /** Keys without '&' or '=', values without '&'. */
  ghost predicate Plain(m: map<string, string>) {
    forall k :: k in m ==> '&' !in k && '=' !in k && '&' !in m[k]
  }

  function Decode(parts: seq<string>): map<string, string> {
    if parts == [] then map[]
    else
      var (k, v, _) := Cut(parts[|parts| - 1], '=');
      Decode(parts[..|parts| - 1])[k := v]
  }

  /** Reading a canonical filter string back. */
  function Parse(r: string): map<string, string> {
    if r == "" then map[] else Decode(Split(r, '&'))
  }

  lemma {:induction false} DecodeParts(keys: seq<string>, m: map<string, string>)
    requires Plain(m) && forall i :: 0 <= i < |keys| ==> keys[i] in m
    ensures Decode(FilterParts(keys, m)) == map k | k in keys :: m[k]
  {
    if keys != [] {
      var n := |keys| - 1;
      DecodeParts(keys[..n], m);
      var parts := FilterParts(keys, m);
      assert parts[..n] == FilterParts(keys[..n], m);
      assert parts[n] == keys[n] + ['='] + m[keys[n]];
      CutJoined(keys[n], m[keys[n]], '=');
    }
  }

  /** Parsing inverts canonicalisation on plain maps. */
  lemma FilterRoundTrip(m: map<string, string>, r: string)
    requires Plain(m) && IsCanonicalFilter(m, r)
    ensures Parse(r) == m
  {
    var keys :| IsSortedKeys(keys, m.Keys) && (forall i :: 0 <= i < |keys| ==> keys[i] in m)
      && r == Join(FilterParts(keys, m), '&');
    KeysAreKeys(keys, m.Keys);
    var parts := FilterParts(keys, m);
    DecodeParts(keys, m);
    assert (map k | k in keys :: m[k]) == m;
    if keys == [] {
      assert m == map[];
    } else {
      forall i | 0 <= i < |parts| ensures '&' !in parts[i] { assert parts[i] == keys[i] + "=" + m[keys[i]]; }
      SplitJoin(parts, '&');
      assert |parts[0]| > 0;
    }
  }

  /** So on plain maps the canonical filter is injective. */
  lemma FilterIsInjective(m: map<string, string>, m': map<string, string>, r: string)
    requires Plain(m) && Plain(m') && IsCanonicalFilter(m, r) && IsCanonicalFilter(m', r)
    ensures m == m'
  {
    FilterRoundTrip(m, r);
    FilterRoundTrip(m', r);
  }

  // ---------------------------------------------------------------- the filters that the list handler builds

  /** The four query parameters that a cached page is keyed by. */
  datatype ListRequest = ListRequest(assignee: string, limit: string, offset: string, status: string)

  /** Limit and offset are formatted integers. */
  predicate Numbered(q: ListRequest) {
    '&' !in q.limit && '&' !in q.offset
  }

  function HandlerFilters(q: ListRequest): map<string, string> {
    map["status" := q.status, "assignee_id" := q.assignee, "limit" := q.limit, "offset" := q.offset]
  }

  /** What stands between the assignee and the status. */
  function Middle(q: ListRequest): string {
    "&limit=" + (q.limit + ("&offset=" + (q.offset + "&status=")))
  }

  function HandlerString(q: ListRequest): string {
    "assignee_id=" + (q.assignee + (Middle(q) + q.status))
  }

  lemma JoinFour(x: string, y: string, z: string, w: string, sep: char)
    ensures Join([x, y, z, w], sep) == x + [sep] + (y + [sep] + (z + [sep] + w))
  {
    assert [x, y, z, w][1..] == [y, z, w] && [y, z, w][1..] == [z, w] && [z, w][1..] == [w];
    assert Join([z, w], sep) == z + [sep] + w;
    assert Join([y, z, w], sep) == y + [sep] + Join([z, w], sep);
  }

  lemma HandlerStringUnfolds(q: ListRequest)
    ensures HandlerString(q)
         == ("assignee_id=" + q.assignee) + ['&']
           + (("limit=" + q.limit) + ['&'] + (("offset=" + q.offset) + ['&'] + ("status=" + q.status)))
  {
    var o := ("offset=" + q.offset) + ['&'] + ("status=" + q.status);
    var l := ("limit=" + q.limit) + ['&'] + o;
    assert "&offset=" == ['&'] + "offset=" && "&status=" == ['&'] + "status=" && "&limit=" == ['&'] + "limit=";
    assert "&offset=" + (q.offset + "&status=") + q.status == ['&'] + o;
    assert Middle(q) + q.status == "&limit=" + (q.limit + ("&offset=" + (q.offset + "&status=") + q.status));
    assert Middle(q) + q.status == ['&'] + l;
    assert HandlerString(q) == ("assignee_id=" + q.assignee) + (Middle(q) + q.status);
  }

  lemma HandlerKeys(q: ListRequest)
    ensures IsSortedKeys(["assignee_id", "limit", "offset", "status"], HandlerFilters(q).Keys)
  {
    var k0, k1, k2, k3 := "assignee_id", "limit", "offset", "status";
    assert k0[0] != k1[0] && k0[0] != k2[0] && k0[0] != k3[0] && k1[0] != k2[0] && k1[0] != k3[0] && k2[0] != k3[0];
    assert HandlerFilters(q).Keys == {k0, k1, k2, k3};
    assert multiset([k0, k1, k2, k3]) == multiset(HandlerFilters(q).Keys);
  }

  lemma HandlerStringIsCanonical(q: ListRequest)
    ensures IsCanonicalFilter(HandlerFilters(q), HandlerString(q))
  {
    var m := HandlerFilters(q);
    var k0, k1, k2, k3 := "assignee_id", "limit", "offset", "status";
    var keys := [k0, k1, k2, k3];
    HandlerKeys(q);
    assert FilterParts(keys, m)
      == [k0 + "=" + q.assignee, k1 + "=" + q.limit, k2 + "=" + q.offset, k3 + "=" + q.status];
    assert k0 + "=" == "assignee_id=" && k1 + "=" == "limit=" && k2 + "=" == "offset=" && k3 + "=" == "status=";
    JoinFour("assignee_id=" + q.assignee, "limit=" + q.limit, "offset=" + q.offset, "status=" + q.status, '&');
    HandlerStringUnfolds(q);
  }

  lemma SamePrefix(p: string, a: string, a': string)
    requires p + a == p + a'
    ensures a == a'
  {
    assert (p + a)[|p|..] == a && (p + a')[|p|..] == a';
  }

  /** Two ways to write one string: the longer first piece takes over the start of the other rest. */
  lemma Overlap(a: string, x: string, a': string, x': string) returns (d: string)
    requires a + x == a' + x' && |a| <= |a'|
    ensures a' == a + d && x == d + x'
  {
    d := a'[|a|..];
    assert (a' + x')[..|a|] == a == a'[..|a|];
    assert a' == a + d;
    assert a + x == a + (d + x');
    SamePrefix(a, x, d + x');
  }

  /** In front of the status no '&' but the first is followed by an 'l'. */
  lemma MiddleAt(q: ListRequest, i: nat)
    requires Numbered(q) && 0 < i < |Middle(q)| && Middle(q)[i] == '&'
    ensures i + 1 < |Middle(q)| && Middle(q)[i + 1] != 'l'
  {
    var l, o := 7 + |q.limit|, 15 + |q.limit| + |q.offset|;
    var m := Middle(q);
    if l <= i < l + 8 {
      assert m[i] == "&offset="[i - l];
      assert i == l && m[i + 1] == "&offset="[1];
    } else if o <= i {
      assert m[i] == "&status="[i - o];
      assert i == o && m[i + 1] == "&status="[1];
    }
  }

  /** The assignee of `p` contains the end of `q`'s key up to `t`, and the status of `q` that of `p`. */
  ghost predicate Swallows(p: ListRequest, q: ListRequest) {
    exists t: string :: p.assignee == q.assignee + (Middle(q) + t) && q.status == t + (Middle(p) + p.status)
  }

  lemma LongerAssigneeSwallows(p: ListRequest, q: ListRequest)
    requires Numbered(q) && |q.assignee| < |p.assignee| && HandlerString(p) == HandlerString(q)
    ensures Swallows(p, q)
  {
    SamePrefix("assignee_id=", q.assignee + (Middle(q) + q.status), p.assignee + (Middle(p) + p.status));
    var d := Overlap(q.assignee, Middle(q) + q.status, p.assignee, Middle(p) + p.status);
    if |d| < |Middle(q)| {
      var whole := Middle(q) + q.status;
      assert Middle(p)[0] == "&limit="[0] && Middle(p)[1] == "&limit="[1];
      assert whole[|d|] == (d + (Middle(p) + p.status))[|d|] == Middle(p)[0];
      assert whole[|d| + 1] == (d + (Middle(p) + p.status))[|d| + 1] == Middle(p)[1];
      MiddleAt(q, |d|);
      assert false;
    }
    var t := Overlap(Middle(q), q.status, d, Middle(p) + p.status);
  }

  lemma FourIsInjective(
    x: string, y: string, z: string, w: string, x': string, y': string, z': string, w': string, sep: char)
    requires |x| == |x'| && sep !in y && sep !in z && sep !in y' && sep !in z'
    requires x + [sep] + (y + [sep] + (z + [sep] + w)) == x' + [sep] + (y' + [sep] + (z' + [sep] + w'))
    ensures x == x' && y == y' && z == z' && w == w'
  {
    var r, r' := y + [sep] + (z + [sep] + w), y' + [sep] + (z' + [sep] + w');
    assert x == (x + [sep] + r)[..|x|] && x' == (x' + [sep] + r')[..|x|];
    SamePrefix(x + [sep], r, r');
    JoinedIsInjective(y, z + [sep] + w, y', z' + [sep] + w', sep);
    JoinedIsInjective(z, w, z', w', sep);
  }

  lemma SameLengthAssignee(p: ListRequest, q: ListRequest)
    requires Numbered(p) && Numbered(q) && |p.assignee| == |q.assignee| && HandlerString(p) == HandlerString(q)
    ensures p == q
  {
    HandlerStringUnfolds(p);
    HandlerStringUnfolds(q);
    var a, l, o, s := "assignee_id=", "limit=", "offset=", "status=";
    assert '&' !in l && '&' !in o;
    FourIsInjective(a + p.assignee, l + p.limit, o + p.offset, s + p.status, a + q.assignee, l + q.limit,
      o + q.offset, s + q.status, '&');
    SamePrefix(a, p.assignee, q.assignee);
    SamePrefix(l, p.limit, q.limit);
    SamePrefix(o, p.offset, q.offset);
    SamePrefix(s, p.status, q.status);
  }

  /** Exactly when two list requests share a cache key. */
  lemma HandlerStringsAgree(p: ListRequest, q: ListRequest)
    requires Numbered(p) && Numbered(q)
    ensures HandlerString(p) == HandlerString(q) <==> p == q || Swallows(p, q) || Swallows(q, p)
  {
    if HandlerString(p) == HandlerString(q) {
      if |p.assignee| == |q.assignee| {
        SameLengthAssignee(p, q);
      } else if |q.assignee| < |p.assignee| {
        LongerAssigneeSwallows(p, q);
      } else {
        LongerAssigneeSwallows(q, p);
      }
    }
  }

  /** So they share one only if one of them smuggles an '&' into its assignee. */
  lemma HandlerStringIsInjective(p: ListRequest, q: ListRequest)
    requires Numbered(p) && Numbered(q) && '&' !in p.assignee && '&' !in q.assignee
    requires HandlerString(p) == HandlerString(q)
    ensures p == q
  {
    HandlerStringsAgree(p, q);
  }

  /** Every request is overtaken by one whose assignee quotes its key and whose own end it carries in its status. */
  lemma HandlerStringCollides(q: ListRequest, limit: string, offset: string, status: string)
    ensures var p := ListRequest(q.assignee + Middle(q) + q.status, limit, offset, status);
      var q' := q.(status := q.status + Middle(p) + status);
      p != q' && HandlerString(p) == HandlerString(q')
  {
    var p := ListRequest(q.assignee + Middle(q) + q.status, limit, offset, status);
    var q' := q.(status := q.status + Middle(p) + status);
    assert Middle(q') == Middle(q);
    assert p.assignee == q'.assignee + (Middle(q') + q.status) && q'.status == q.status + (Middle(p) + p.status);
  }

  // ---------------------------------------------------------------- the fingerprint of a request

  /** The five normalised parts, before hashing. */
  function Fingerprint(verb: string, route: string, contentType: string, query: string, body: string): string {
    Join([verb, route, contentType, query, body], '\n')
  }

  lemma FingerprintUnfolds(verb: string, route: string, contentType: string, query: string, body: string)
    ensures Fingerprint(verb, route, contentType, query, body)
         == verb + ['\n'] + (route + ['\n'] + (contentType + ['\n'] + (query + ['\n'] + body)))
  {
    var p := [verb, route, contentType, query, body];
    assert p[1..] == [route, contentType, query, body];
    assert [route, contentType, query, body][1..] == [contentType, query, body];
    assert [contentType, query, body][1..] == [query, body];
    assert [query, body][1..] == [body];
    assert Join([query, body], '\n') == query + ['\n'] + body;
    assert Join([contentType, query, body], '\n') == contentType + ['\n'] + Join([query, body], '\n');
    assert Join([route, contentType, query, body], '\n') == route + ['\n'] + Join([contentType, query, body], '\n');
  }

  /** One piece reaches beyond the separator of the other pair. */
  ghost predicate Reaches(a: string, b: string, a': string, b': string, sep: char) {
    exists t: string :: a' == a + ([sep] + t) && b == t + ([sep] + b')
  }

  lemma LongerReaches(a: string, b: string, a': string, b': string, sep: char)
    requires a + [sep] + b == a' + [sep] + b' && |a| < |a'|
    ensures Reaches(a, b, a', b', sep)
  {
    assert a + [sep] + b == a + ([sep] + b) && a' + [sep] + b' == a' + ([sep] + b');
    var d := Overlap(a, [sep] + b, a', [sep] + b');
    var t := Overlap([sep], b, d, [sep] + b');
    assert a' == a + ([sep] + t);
  }

  /** Exactly when two pairs join to one string. */
  lemma JoinedAgree(a: string, b: string, a': string, b': string, sep: char)
    ensures a + [sep] + b == a' + [sep] + b' <==>
      (a == a' && b == b') || Reaches(a, b, a', b', sep) || Reaches(a', b', a, b, sep)
  {
    if a + [sep] + b == a' + [sep] + b' {
      if |a| < |a'| {
        LongerReaches(a, b, a', b', sep);
      } else if |a'| < |a| {
        LongerReaches(a', b', a, b, sep);
      } else {
        assert a == (a + [sep] + b)[..|a|] && a' == (a' + [sep] + b')[..|a|];
        SamePrefix(a + [sep], b, b');
      }
    }
  }

  /**
    Exactly when two requests share a fingerprint. A method, a route pattern and a media type are
    header text and hold no line break; a query value may hold any.
   */
  lemma FingerprintsAgree(
    verb: string, route: string, contentType: string, query: string, body: string,
    verb': string, route': string, contentType': string, query': string, body': string)
    requires '\n' !in verb && '\n' !in route && '\n' !in contentType
    requires '\n' !in verb' && '\n' !in route' && '\n' !in contentType'
    ensures Fingerprint(verb, route, contentType, query, body)
      == Fingerprint(verb', route', contentType', query', body')
      <==> && verb == verb' && route == route' && contentType == contentType'
           && ((query == query' && body == body') || Reaches(query, body, query', body', '\n')
             || Reaches(query', body', query, body, '\n'))
  {
    FingerprintUnfolds(verb, route, contentType, query, body);
    FingerprintUnfolds(verb', route', contentType', query', body');
    var q, q' := query + ['\n'] + body, query' + ['\n'] + body';
    if Fingerprint(verb, route, contentType, query, body) == Fingerprint(verb', route', contentType', query', body') {
      var c, c' := contentType + ['\n'] + q, contentType' + ['\n'] + q';
      JoinedIsInjective(verb, route + ['\n'] + c, verb', route' + ['\n'] + c', '\n');
      JoinedIsInjective(route, c, route', c', '\n');
      JoinedIsInjective(contentType, q, contentType', q', '\n');
    }
    JoinedAgree(query, body, query', body', '\n');
  }

  /** Without line breaks before the body, equal fingerprints mean equal requests, whatever the body. */
  lemma FingerprintIsInjective(
    verb: string, route: string, contentType: string, query: string, body: string,
    verb': string, route': string, contentType': string, query': string, body': string)
    requires '\n' !in verb && '\n' !in route && '\n' !in contentType && '\n' !in query
    requires '\n' !in verb' && '\n' !in route' && '\n' !in contentType' && '\n' !in query'
    requires Fingerprint(verb, route, contentType, query, body)
      == Fingerprint(verb', route', contentType', query', body')
    ensures verb == verb' && route == route' && contentType == contentType' && query == query' && body == body'
  {
    FingerprintsAgree(verb, route, contentType, query, body, verb', route', contentType', query', body');
  }

  /** A line break in the query makes two different requests share a fingerprint. */
  lemma FingerprintCollides(verb: string, route: string, contentType: string, query: string, x: string, body: string)
    ensures Fingerprint(verb, route, contentType, query + ['\n'] + x, body)
      == Fingerprint(verb, route, contentType, query, x + ['\n'] + body)
  {
    FingerprintUnfolds(verb, route, contentType, query + ['\n'] + x, body);
    FingerprintUnfolds(verb, route, contentType, query, x + ['\n'] + body);
    assert query + ['\n'] + x + ['\n'] + body == query + ['\n'] + (x + ['\n'] + body);
  }

  ghost predicate OneLine(v: map<string, seq<string>>) {
    forall k :: k in v ==> '\n' !in k && forall i :: 0 <= i < |v[k]| ==> '\n' !in v[k][i]
  }

  lemma {:induction false} JoinFree(parts: seq<string>, sep: char, c: char)
    requires c != sep && forall i :: 0 <= i < |parts| ==> c !in parts[i]
    ensures c !in Join(parts, sep)
  {
    if |parts| > 1 { JoinFree(parts[1..], sep, c); }
  }

  lemma CanonicalQueryIsOneLine(v: map<string, seq<string>>, r: string)
    requires OneLine(v) && IsCanonicalQuery(v, r)
    ensures '\n' !in r
  {
    var keys :| IsSortedKeys(keys, v.Keys) && (forall i :: 0 <= i < |keys| ==> keys[i] in v)
      && r == Join(Parts(keys, v), '&');
    PartsFree(keys, v, '\n');
    forall i | 0 <= i < |Parts(keys, v)| ensures '\n' !in Parts(keys, v)[i] {
      assert PartFree(Parts(keys, v)[i], '\n');
    }
    JoinFree(Parts(keys, v), '&', '\n');
  }

  /**
    Requests with the same fingerprint are the same request, down to the order of the values of a
    query key, if their queries have no line breaks, no '&', and no '=' in a key.
   */
  lemma FingerprintIdentifiesRequest(
    verb: string, route: string, contentType: string, v: map<string, seq<string>>, r: string, body: string,
    verb': string, route': string, contentType': string, w: map<string, seq<string>>, r': string, body': string)
    requires '\n' !in verb && '\n' !in route && '\n' !in contentType && OneLine(v) && PlainQuery(v)
    requires IsCanonicalQuery(v, r)
    requires '\n' !in verb' && '\n' !in route' && '\n' !in contentType' && OneLine(w) && PlainQuery(w)
    requires IsCanonicalQuery(w, r')
    requires Fingerprint(verb, route, contentType, r, body) == Fingerprint(verb', route', contentType', r', body')
    ensures verb == verb' && route == route' && contentType == contentType' && body == body'
    ensures forall k :: multiset(Values(v, k)) == multiset(Values(w, k))
  {
    CanonicalQueryIsOneLine(v, r);
    CanonicalQueryIsOneLine(w, r');
    FingerprintIsInjective(verb, route, contentType, r, body, verb', route', contentType', r', body');
    CanonicalQueryIsInjective(v, w, r);
  }
}
