/** sn/discovery.ts and sn/query-budget.ts: cutting an exact table allowlist into queries that fit.

    Names are ASCII here; a configured table name has at most 80 characters of [a-z0-9_]. */
module AllowlistChunks {
  import opened Names
  import RB = RunBudget

  const MAX_QUERY_STRING_BYTES := 8192

  // ---------------------------------------------------------------- the encoded query

  type Ascii = s: string | forall i :: 0 <= i < |s| ==> s[i] < 128 as char

  predicate Unescaped(c: char) {
    'a' <= c <= 'z' || 'A' <= c <= 'Z' || '0' <= c <= '9' || c == '*' || c == '-' || c == '.' || c == '_'
  }

  function HexDigit(n: nat): (c: char)
    requires n < 16
    ensures c < 128 as char
  {
    if n < 10 then ('0' as int + n) as char else ('A' as int + n - 10) as char
  }

  /** application/x-www-form-urlencoded, as URLSearchParams.toString writes it. */
  function EncodeChar(c: char): (r: string)
    requires c < 128 as char
    ensures 1 <= |r| <= 3 && (Unescaped(c) ==> |r| == 1) && forall i :: 0 <= i < |r| ==> r[i] < 128 as char
    ensures |r| == if 'a' <= c <= 'z' || 'A' <= c <= 'Z' || '0' <= c <= '9' || c == '*' || c == '-' || c == '.' || c == '_' || c == ' ' then 1 else 3
  {
    if Unescaped(c) then [c] else if c == ' ' then ['+'] else ['%', HexDigit(c as int / 16), HexDigit(c as int % 16)]
  }

  function Encode(s: Ascii): (r: string)
    ensures |r| <= 3 * |s| && forall i :: 0 <= i < |r| ==> r[i] < 128 as char
  {
    if s == "" then "" else EncodeChar(s[0]) + Encode(s[1..])
  }

  lemma {:induction false} EncodeJoin(a: Ascii, b: Ascii)
    ensures |Encode(a + b)| == |Encode(a)| + |Encode(b)|
  {
    if a == "" {
      assert a + b == b;
    } else {
      assert (a + b)[1..] == a[1..] + b;
      EncodeJoin(a[1..], b);
    }
  }

  datatype Param = Param(key: Ascii, value: Ascii)

  function EncodeParam(p: Param): string { Encode(p.key) + "=" + Encode(p.value) }

  /** key=value pairs joined by ampersands; every character is ASCII, so its UTF-8 length is its length. */
  function QueryString(q: seq<Param>): string {
    if q == [] then "" else if |q| == 1 then EncodeParam(q[0])
    else QueryString(q[..|q| - 1]) + "&" + EncodeParam(q[|q| - 1])
  }

  /** The parameters' encoded keys and values, an equals sign each, and the ampersands between them. */
  lemma {:induction false} QueryStringAddsUp(q: seq<Param>, p: Param)
    ensures |QueryString([])| == 0
    ensures |QueryString(q + [p])| == |QueryString(q)| + (if q == [] then 0 else 1) + |Encode(p.key)| + 1 + |Encode(p.value)|
  {
    assert (q + [p])[..|q|] == q;
  }

  /** Characters outside letters, digits, the blank and four signs take three bytes. */
  lemma {:induction false} EncodedWidth(s: Ascii, c: char)
    requires c < 128 as char
    ensures |Encode("")| == 0
    ensures |Encode([c] + s)| == |Encode(s)| +
      if 'a' <= c <= 'z' || 'A' <= c <= 'Z' || '0' <= c <= '9' || c in "*-._ " then 1 else 3
  {
    assert ([c] + s)[0] == c && ([c] + s)[1..] == s;
  }

  method ServiceNowQueryStringBytes(q: seq<Param>) returns (n: nat)
    ensures n == |QueryString(q)|
  {
    if |q| == 0 {
      return 0;
    }
    var text := "";
    for i := 0 to |q|
      invariant text == QueryString(q[..i])
    {
      assert q[..i + 1][..i] == q[..i];
      text := if i == 0 then EncodeParam(q[i]) else text + "&" + EncodeParam(q[i]);
    }
    assert q[..|q|] == q;
    n := |text|;
  }

  datatype Counted = Sent | PathDenied(bytes: nat) | BudgetExceeded

  /** A query over the cap is refused before the run's meter is touched. */
  method CountServiceNowQueryBytes(budget: RB.RunBudget, q: seq<Param>) returns (r: Counted)
    modifies budget
    ensures var n := |QueryString(q)|;
      if n == 0 then r == Sent && budget.Snapshot() == old(budget.Snapshot())
      else if n > MAX_QUERY_STRING_BYTES then r == PathDenied(n) && budget.Snapshot() == old(budget.Snapshot())
      else ((budget.Snapshot(), r == Sent) == RB.Counted(old(budget.Snapshot()), budget.limits, budget.caps, RB.OutboundBytes(n)) && !r.PathDenied?)
    ensures r.PathDenied? <==> |QueryString(q)| > 8192
    ensures r.BudgetExceeded? <==> 0 < |QueryString(q)| <= 8192 && old(budget.outboundBytesSent) + |QueryString(q)| > budget.limits.maxOutboundBytes
    ensures budget.outboundBytesSent == old(budget.outboundBytesSent) + if r.Sent? then |QueryString(q)| else 0
  {
    var bytes := ServiceNowQueryStringBytes(q);
    if bytes == 0 {
      return Sent;
    }
    if bytes > MAX_QUERY_STRING_BYTES {
      return PathDenied(bytes);
    }
    var passed := budget.CountOutboundBytes(bytes);
    r := if passed then Sent else BudgetExceeded;
  }

  // ---------------------------------------------------------------- the query of a chunk

  /** Strips the characters that carry query grammar. */
  function Esc(v: Ascii): (r: Ascii)
    ensures |r| <= |v|
  {
    if v == "" then "" else (if v[0] == '^' || v[0] == '=' then "" else [v[0]]) + Esc(v[1..])
  }

  function JoinNames(names: seq<Ascii>): Ascii {
    if names == [] then "" else if |names| == 1 then Esc(names[0]) else JoinNames(names[..|names| - 1]) + "," + Esc(names[|names| - 1])
  }

  /** The fixed texts of a table-list query. */
  datatype Texts = Texts(queryKey: Ascii, before: Ascii, after: Ascii, fieldsKey: Ascii, fields: Ascii,
                         excludeKey: Ascii, exclude: Ascii, limitKey: Ascii, limit: Ascii)

  const TEXTS := Texts("sysparm_query", "nameIN", "^ORDERBYname", "sysparm_fields", "name,label",
                       "sysparm_exclude_reference_link", "true", "sysparm_limit", "1000")

  function TableListQuery(t: Texts, names: seq<Ascii>): seq<Param> {
    [Param(t.queryKey, t.before + JoinNames(names) + t.after), Param(t.fieldsKey, t.fields),
     Param(t.excludeKey, t.exclude), Param(t.limitKey, t.limit)]
  }

  /** Names with commas between them. */
  function Listed(names: seq<Ascii>): Ascii {
    if names == [] then "" else if |names| == 1 then names[0] else Listed(names[..|names| - 1]) + "," + names[|names| - 1]
  }

  lemma {:induction false} EscKeepsName(v: Ascii)
    requires forall i :: 0 <= i < |v| ==> NameChar(v[i])
    ensures Esc(v) == v
  {
    if v != "" {
      EscKeepsName(v[1..]);
      assert v == [v[0]] + v[1..];
    }
  }

  lemma {:induction false} NamesAreListed(names: seq<Ascii>)
    requires forall n <- names :: TableName(n)
    ensures JoinNames(names) == Listed(names)
  {
    if names != [] {
      var last := names[|names| - 1];
      assert last in names;
      EscKeepsName(last);
      assert forall n <- names[..|names| - 1] :: n in names;
      NamesAreListed(names[..|names| - 1]);
    }
  }

  /** The query of a chunk of valid names, as it is sent. */
  lemma QueryIsSpelled(names: seq<Ascii>)
    requires forall n <- names :: TableName(n)
    ensures TableListQuery(TEXTS, names) ==
      [Param("sysparm_query", "nameIN" + Listed(names) + "^ORDERBYname"), Param("sysparm_fields", "name,label"),
       Param("sysparm_exclude_reference_link", "true"), Param("sysparm_limit", "1000")]
  {
    NamesAreListed(names);
  }

  function Bytes(t: Texts, names: seq<Ascii>): nat { |QueryString(TableListQuery(t, names))| }

  predicate Fits(t: Texts, names: seq<Ascii>) { Bytes(t, names) <= MAX_QUERY_STRING_BYTES }

  function Pair(k: Ascii, v: Ascii): nat { |Encode(k)| + 1 + |Encode(v)| }

  /** What every query of the kind costs. */
  function Overhead(t: Texts): nat {
    |Encode(t.queryKey)| + |Encode(t.before)| + |Encode(t.after)| + 4 + Pair(t.fieldsKey, t.fields) + Pair(t.excludeKey, t.exclude) + Pair(t.limitKey, t.limit)
  }

  lemma FourParams(a: Param, b: Param, c: Param, d: Param)
    ensures |QueryString([a, b, c, d])| == |EncodeParam(a)| + |EncodeParam(b)| + |EncodeParam(c)| + |EncodeParam(d)| + 3
  {
    assert [a, b, c, d][..3] == [a, b, c] && [a, b, c][..2] == [a, b] && [a, b][..1] == [a];
    assert |QueryString([a, b])| == |EncodeParam(a)| + 1 + |EncodeParam(b)|;
    assert |QueryString([a, b, c])| == |QueryString([a, b])| + 1 + |EncodeParam(c)|;
  }

  function Size(names: seq<Ascii>): nat { |Encode(JoinNames(names))| }

  lemma BytesSplit(t: Texts, names: seq<Ascii>)
    ensures Bytes(t, names) == Overhead(t) + Size(names)
  {
    EncodeJoin(t.before, JoinNames(names));
    EncodeJoin(t.before + JoinNames(names), t.after);
    FourParams(Param(t.queryKey, t.before + JoinNames(names) + t.after), Param(t.fieldsKey, t.fields),
               Param(t.excludeKey, t.exclude), Param(t.limitKey, t.limit));
  }

  function Comma(): nat { |Encode(",")| }

  lemma {:induction false} OneMore(a: seq<Ascii>, front: seq<Ascii>, last: Ascii)
    requires a != [] && front != [] && Size(a + front) == Size(a) + Comma() + Size(front)
    ensures Size(a + (front + [last])) == Size(a) + Comma() + Size(front + [last])
  {
    AddName(a + front, last);
    AddName(front, last);
    assert (a + front) + [last] == a + (front + [last]);
  }

  /** The encoded size of the joined names adds up over concatenation. */
  lemma {:induction false} NamesAddUp(a: seq<Ascii>, b: seq<Ascii>)
    requires a != [] && b != []
    ensures Size(a + b) == Size(a) + Comma() + Size(b)
  {
    var front, last := b[..|b| - 1], b[|b| - 1];
    assert b == front + [last];
    if front == [] {
      assert b == [last];
      AddName(a, last);
    } else {
      NamesAddUp(a, front);
      OneMore(a, front, last);
    }
  }

  lemma AddName(a: seq<Ascii>, name: Ascii)
    requires a != []
    ensures Size(a + [name]) == Size(a) + Comma() + |Encode(Esc(name))|
  {
    assert (a + [name])[..|a|] == a && (a + [name])[|a|] == name;
    var comma: Ascii := ",";
    EncodeJoin(JoinNames(a), comma);
    EncodeJoin(JoinNames(a) + comma, Esc(name));
  }

  /** Parts of a fitting list fit. */
  lemma PartsFit(t: Texts, a: seq<Ascii>, b: seq<Ascii>)
    requires Fits(t, a + b)
    ensures a != [] ==> Fits(t, a)
    ensures b != [] ==> Fits(t, b)
  {
    if a == [] {
      assert a + b == b;
    } else if b == [] {
      assert a + b == a;
    } else {
      BytesSplit(t, a + b);
      BytesSplit(t, a);
      BytesSplit(t, b);
      NamesAddUp(a, b);
    }
  }

  // ---------------------------------------------------------------- the greedy cut

  /** What the loop makes of the names still to come after an open chunk. */
  function Cut(t: Texts, chunk: seq<Ascii>, names: seq<Ascii>): seq<seq<Ascii>>
    decreases |names|
  {
    if names == [] then if chunk == [] then [] else [chunk]
    else if chunk != [] && !Fits(t, chunk + [names[0]]) then [chunk] + Cut(t, [names[0]], names[1..])
    else Cut(t, chunk + [names[0]], names[1..])
  }

  method ExactAllowlistChunks(t: Texts, names: seq<Ascii>) returns (chunks: seq<seq<Ascii>>)
    ensures chunks == Cut(t, [], names)
  {
    chunks := [];
    var chunk: seq<Ascii> := [];
    for i := 0 to |names|
      invariant chunks + Cut(t, chunk, names[i..]) == Cut(t, [], names)
    {
      var name := names[i];
      var candidate := chunk + [name];
      assert names[i..][0] == name && names[i..][1..] == names[i + 1..];
      var bytes := ServiceNowQueryStringBytes(TableListQuery(t, candidate));
      if |chunk| > 0 && bytes > MAX_QUERY_STRING_BYTES {
        assert chunks + ([chunk] + Cut(t, [name], names[i + 1..])) == chunks + [chunk] + Cut(t, [name], names[i + 1..]);
        chunks := chunks + [chunk];
        chunk := [name];
      } else {
        chunk := candidate;
      }
    }
    assert names[|names|..] == [];
    if |chunk| > 0 {
      chunks := chunks + [chunk];
    }
  }

  function Concat(p: seq<seq<Ascii>>): seq<Ascii> { if p == [] then [] else p[0] + Concat(p[1..]) }

  /** Nothing is lost, added or reordered, and no chunk is empty. */
  lemma {:induction false} CutKeepsAll(t: Texts, chunk: seq<Ascii>, names: seq<Ascii>)
    ensures Concat(Cut(t, chunk, names)) == chunk + names
    ensures forall c <- Cut(t, chunk, names) :: c != []
    decreases |names|
  {
    if names == [] {
      assert [chunk][1..] == [] && chunk + [] == chunk;
    } else if chunk != [] && !Fits(t, chunk + [names[0]]) {
      CutKeepsAll(t, [names[0]], names[1..]);
      var rest := Cut(t, [names[0]], names[1..]);
      assert ([chunk] + rest)[1..] == rest && [names[0]] + names[1..] == names;
    } else {
      CutKeepsAll(t, chunk + [names[0]], names[1..]);
      assert chunk + [names[0]] + names[1..] == chunk + names;
    }
  }

  /** A chunk fits unless it is a single name that does not. */
  lemma {:induction false} CutFits(t: Texts, chunk: seq<Ascii>, names: seq<Ascii>)
    requires |chunk| > 1 ==> Fits(t, chunk)
    ensures forall c <- Cut(t, chunk, names) :: |c| > 1 ==> Fits(t, c)
    decreases |names|
  {
    if names != [] {
      if chunk != [] && !Fits(t, chunk + [names[0]]) {
        CutFits(t, [names[0]], names[1..]);
      } else {
        CutFits(t, chunk + [names[0]], names[1..]);
      }
    }
  }

  function Length(t: Texts): nat {
    |t.queryKey| + |t.before| + |t.after| + |t.fieldsKey| + |t.fields| + |t.excludeKey| + |t.exclude| + |t.limitKey| + |t.limit|
  }

  lemma OneNameFits(t: Texts, name: Ascii)
    requires |name| <= 80 && Length(t) <= 200
    ensures Fits(t, [name])
  {
    BytesSplit(t, [name]);
    assert JoinNames([name]) == Esc(name);
  }

  lemma TextsAreShort()
    ensures Length(TEXTS) <= 200
  {
  }

  /** With valid names every chunk passes the query-size check. */
  lemma {:induction false} ChunksFit(names: seq<Ascii>)
    requires forall n <- names :: TableName(n)
    ensures forall c <- Cut(TEXTS, [], names) :: Fits(TEXTS, c)
  {
    TextsAreShort();
    CutFits(TEXTS, [], names);
    CutKeepsAll(TEXTS, [], names);
    forall c <- Cut(TEXTS, [], names) ensures Fits(TEXTS, c) {
      if |c| == 1 {
        InConcat(Cut(TEXTS, [], names), c, c[0]);
        assert [] + names == names;
        assert c == [c[0]];
        OneNameFits(TEXTS, c[0]);
      }
    }
  }

  lemma {:induction false} InConcat(p: seq<seq<Ascii>>, c: seq<Ascii>, n: Ascii)
    requires c in p && n in c
    ensures n in Concat(p)
  {
    if c != p[0] {
      InConcat(p[1..], c, n);
    }
  }

  // ---------------------------------------------------------------- no shorter partition

  predicate AllFit(t: Texts, p: seq<seq<Ascii>>) { forall c <- p :: c != [] && Fits(t, c) }

  ghost predicate FittingPartition(t: Texts, p: seq<seq<Ascii>>, names: seq<Ascii>) {
    Concat(p) == names && AllFit(t, p)
  }

  /** A partition without its first d names. */
  function Dropped(p: seq<seq<Ascii>>, d: nat): seq<seq<Ascii>>
    requires d <= |Concat(p)|
    decreases |p|
  {
    if d == 0 then p
    else if d >= |p[0]| then Dropped(p[1..], d - |p[0]|)
    else [p[0][d..]] + p[1..]
  }

  lemma FrontReplaced(t: Texts, p: seq<seq<Ascii>>, front: seq<Ascii>)
    requires p != [] && AllFit(t, p) && front != [] && Fits(t, front)
    ensures AllFit(t, [front] + p[1..])
  {
    forall c <- [front] + p[1..] ensures c == front || c in p {
    }
  }

  lemma {:induction false} DroppedConcat(p: seq<seq<Ascii>>, d: nat)
    requires d <= |Concat(p)|
    ensures Concat(Dropped(p, d)) == Concat(p)[d..] && |Dropped(p, d)| <= |p|
    decreases |p|
  {
    if 0 < d && d >= |p[0]| {
      DroppedConcat(p[1..], d - |p[0]|);
      assert Concat(p)[d..] == Concat(p[1..])[d - |p[0]|..];
    } else if 0 < d {
      var q := [p[0][d..]] + p[1..];
      assert q[1..] == p[1..] && q[0] == p[0][d..];
      assert Concat(p)[d..] == p[0][d..] + Concat(p[1..]);
    }
  }

  lemma {:induction false} DroppedFits(t: Texts, p: seq<seq<Ascii>>, d: nat)
    requires d <= |Concat(p)| && AllFit(t, p)
    ensures AllFit(t, Dropped(p, d))
    decreases |p|
  {
    if 0 < d && d >= |p[0]| {
      assert AllFit(t, p[1..]) by {
        forall c <- p[1..] ensures c in p {
        }
      }
      DroppedFits(t, p[1..], d - |p[0]|);
    } else if 0 < d {
      assert p[0] == p[0][..d] + p[0][d..] && p[0] in p;
      PartsFit(t, p[0][..d], p[0][d..]);
      FrontReplaced(t, p, p[0][d..]);
    }
  }

  /** No partition into fitting chunks, in order, has fewer chunks. */
  lemma {:induction false} CutIsShortest(t: Texts, chunk: seq<Ascii>, names: seq<Ascii>, p: seq<seq<Ascii>>)
    requires FittingPartition(t, p, chunk + names)
    ensures |Cut(t, chunk, names)| <= |p|
    decreases |names|
  {
    if names == [] {
    } else if chunk != [] && !Fits(t, chunk + [names[0]]) {
      var first := p[0];
      assert first in p && first <= chunk + names;
      FirstIsShort(t, chunk, names, first);
      var rest := p[1..];
      assert (chunk + names)[|first|..] == Concat(rest);
      var d := |chunk| - |first|;
      DroppedConcat(rest, d);
      DroppedFits(t, rest, d);
      assert Concat(rest)[d..] == names;
      assert [names[0]] + names[1..] == names;
      CutIsShortest(t, [names[0]], names[1..], Dropped(rest, d));
    } else {
      assert chunk + names == chunk + [names[0]] + names[1..];
      CutIsShortest(t, chunk + [names[0]], names[1..], p);
    }
  }

  /** A fitting first chunk cannot reach past the greedy one. */
  lemma FirstIsShort(t: Texts, chunk: seq<Ascii>, names: seq<Ascii>, first: seq<Ascii>)
    requires names != [] && !Fits(t, chunk + [names[0]]) && first <= chunk + names && Fits(t, first)
    ensures |first| <= |chunk|
  {
    if |first| > |chunk| {
      var cand := chunk + [names[0]];
      assert first == cand + first[|cand|..];
      PartsFit(t, cand, first[|cand|..]);
    }
  }
}
