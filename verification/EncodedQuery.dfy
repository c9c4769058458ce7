/** sn/validate.ts and applyRowFilter of authz/actor-policy.ts: putting a caller's encoded query
    behind a mandatory row filter. */
module EncodedQuery {
  import opened Wrappers

  // ---------------------------------------------------------------- clauses

  const CARET := '^'

  function FirstCaret(q: string): (k: nat)
    ensures k <= |q| && CARET !in q[..k] && (k < |q| ==> q[k] == CARET)
  {
    if q == "" || q[0] == CARET then 0 else 1 + FirstCaret(q[1..])
  }

  /** q.split("^") */
  function Clauses(q: string): (r: seq<string>)
    ensures r != []
    decreases |q|
  {
    var k := FirstCaret(q);
    if k == |q| then [q] else [q[..k]] + Clauses(q[k + 1..])
  }

  function UpperChar(c: char): char { if 'a' <= c <= 'z' then (c as int - 32) as char else c }

  predicate Operator(a: char, b: char) {
    (a == 'O' && b == 'R') || (a == 'N' && b == 'Q') || (a == 'E' && b == 'Q')
  }

  /** The exact-case ordering keyword; ORDERBYDESC starts with it. */
  const ORDERBY := "ORDERBY"

  /** A clause that opens with OR, NQ or EQ in any case and is not an ordering clause. */
  predicate Structural(clause: string) {
    !(ORDERBY <= clause) && |clause| >= 2 && Operator(UpperChar(clause[0]), UpperChar(clause[1]))
  }

  /** What an instance can read as more than a condition: OR, NQ or EQ at the start, each letter in either
      case, of a clause that is no ordering. */
  predicate OperatorClause(c: string) {
    && |c| >= 2 && !("ORDERBY" <= c)
    && (((c[0] == 'O' || c[0] == 'o') && (c[1] == 'R' || c[1] == 'r')) ||
        ((c[0] == 'N' || c[0] == 'n') && (c[1] == 'Q' || c[1] == 'q')) ||
        ((c[0] == 'E' || c[0] == 'e') && (c[1] == 'Q' || c[1] == 'q')))
  }

  lemma StructuralIsOperator(c: string)
    ensures Structural(c) <==> OperatorClause(c)
  {
  }

  predicate AnyStructural(cs: seq<string>) { exists c <- cs :: Structural(c) }

  predicate HasStructural(q: string) { AnyStructural(Clauses(q)) }

  lemma AnyJoin(a: seq<string>, b: seq<string>)
    ensures AnyStructural(a + b) <==> AnyStructural(a) || AnyStructural(b)
  {
    if AnyStructural(a + b) {
      var c :| c in a + b && Structural(c);
      assert c in a || c in b;
    }
    forall c <- a ensures c in a + b {
    }
    forall c <- b ensures c in a + b {
    }
  }

  /** What follows the next caret does not matter. */
  lemma StructuralToCaret(q: string)
    ensures Structural(q) <==> Structural(q[..FirstCaret(q)])
  {
    var k := FirstCaret(q);
    var c := q[..k];
    assert q == c + q[k..];
    assert forall i :: 0 <= i < |ORDERBY| ==> ORDERBY[i] != CARET;
    if ORDERBY <= q {
      assert forall i :: 0 <= i < |ORDERBY| ==> q[i] == ORDERBY[i];
      assert k >= |ORDERBY|;
    }
  }

  lemma ClausesJoin(a: string, b: string)
    ensures Clauses(a + [CARET] + b) == Clauses(a) + Clauses(b)
    decreases |a|
  {
    var q := a + [CARET] + b;
    var k := FirstCaret(a);
    FirstCaretIs(q, k);
    if k == |a| {
      assert q[..k] == a && q[k + 1..] == b;
    } else {
      assert q[..k] == a[..k] && q[k + 1..] == a[k + 1..] + [CARET] + b;
      ClausesJoin(a[k + 1..], b);
    }
  }

  function Joined(cs: seq<string>): string {
    if cs == [] then "" else if |cs| == 1 then cs[0] else cs[0] + "^" + Joined(cs[1..])
  }

  lemma {:induction false} ClausesHaveNoCaret(q: string)
    ensures forall c <- Clauses(q) :: '^' !in c
    decreases |q|
  {
    var k := FirstCaret(q);
    if k == |q| {
      assert q[..k] == q;
    } else {
      ClausesHaveNoCaret(q[k + 1..]);
    }
  }

  lemma JoinedMore(c: string, cs: seq<string>)
    requires cs != []
    ensures Joined([c] + cs) == c + "^" + Joined(cs)
  {
    assert ([c] + cs)[1..] == cs;
  }

  /** The clauses are what stands between the carets. */
  lemma {:induction false} ClausesAreTheSplit(q: string)
    ensures Joined(Clauses(q)) == q && forall c <- Clauses(q) :: '^' !in c
    decreases |q|
  {
    ClausesHaveNoCaret(q);
    var k := FirstCaret(q);
    if k < |q| {
      ClausesAreTheSplit(q[k + 1..]);
      JoinedMore(q[..k], Clauses(q[k + 1..]));
      assert q == q[..k] + "^" + q[k + 1..];
    }
  }

  lemma {:induction false} FirstCaretIs(q: string, k: nat)
    requires k < |q| && q[k] == CARET && CARET !in q[..k]
    ensures FirstCaret(q) == k
  {
    if k > 0 {
      assert q[0] == q[..k][0];
      assert q[1..][..k - 1] == q[..k][1..];
      FirstCaretIs(q[1..], k - 1);
    }
  }

  /** The structural check of a composed query is that of its halves. */
  lemma StructuralDistributes(a: string, b: string)
    ensures HasStructural(a + [CARET] + b) <==> HasStructural(a) || HasStructural(b)
  {
    ClausesJoin(a, b);
    AnyJoin(Clauses(a), Clauses(b));
  }

  /** Where a clause starts. */
  predicate Starts(q: string, k: nat) { k <= |q| && (k == 0 || q[k - 1] == CARET) }

  lemma StartAfter(q: string, f: nat, k: nat)
    requires f == FirstCaret(q) < |q| && Starts(q, k) && k > 0
    ensures k > f && Starts(q[f + 1..], k - f - 1) && q[f + 1..][k - f - 1..] == q[k..]
  {
    forall j | 0 <= j < f ensures q[j] != CARET {
      assert q[j] == q[..f][j];
    }
    assert q[f + 1..][k - f - 1..] == q[k..];
  }

  lemma StartBefore(q: string, f: nat, j: nat)
    requires f == FirstCaret(q) < |q| && Starts(q[f + 1..], j)
    ensures Starts(q, j + f + 1) && q[j + f + 1..] == q[f + 1..][j..]
  {
    assert q[f + 1..][j..] == q[j + f + 1..];
  }

  lemma OnlyStart(q: string, k: nat)
    requires FirstCaret(q) == |q| && Starts(q, k)
    ensures k == 0
  {
    assert q[..|q|] == q;
  }

  lemma {:induction false} ClausesAreStarts(q: string)
    ensures HasStructural(q) <==> exists k: nat :: Starts(q, k) && Structural(q[k..])
    decreases |q|
  {
    var f := FirstCaret(q);
    StructuralToCaret(q);
    assert q[0..] == q && Starts(q, 0);
    if f == |q| {
      assert q[..f] == q && Clauses(q) == [q];
      forall k: nat | Starts(q, k) ensures k == 0 {
        OnlyStart(q, k);
      }
    } else {
      var rest := q[f + 1..];
      ClausesAreStarts(rest);
      InClauses(q, f);
      if k: nat :| Starts(q, k) && Structural(q[k..]) {
        if k > 0 {
          StartAfter(q, f, k);
        }
      }
      if j: nat :| Starts(rest, j) && Structural(rest[j..]) {
        StartBefore(q, f, j);
      }
    }
  }

  lemma InClauses(q: string, f: nat)
    requires f == FirstCaret(q) < |q|
    ensures HasStructural(q) <==> Structural(q[..f]) || HasStructural(q[f + 1..])
  {
    AnyJoin([q[..f]], Clauses(q[f + 1..]));
  }

  /** Said letter by letter. */
  lemma HasStructuralExactly(q: string)
    ensures HasStructural(q) <==> exists c <- Clauses(q) :: OperatorClause(c)
  {
    forall c <- Clauses(q) ensures Structural(c) <==> OperatorClause(c) {
      StructuralIsOperator(c);
    }
  }

  method HasEncodedQueryStructuralOperator(query: string) returns (found: bool)
    ensures found <==> HasStructural(query)
  {
    ClausesAreStarts(query);
    assert query[0..] == query;
    for i := 0 to |query|
      invariant forall k: nat :: Starts(query, k) && k <= i && (k == 0 ==> i > 0) ==> !Structural(query[k..])
    {
      var afterCaret := query[i] == CARET;
      if i != 0 && !afterCaret {
        continue;
      }
      var tokenStart := if afterCaret then i + 1 else i;
      var rest := query[tokenStart..];
      if ORDERBY <= rest {
        continue;
      }
      if |rest| >= 2 && Operator(UpperChar(rest[0]), UpperChar(rest[1])) {
        assert Starts(query, tokenStart) && Structural(query[tokenStart..]);
        return true;
      }
    }
    found := false;
  }

  // ---------------------------------------------------------------- the validators

  const MAX_ENCODED_QUERY_CHARS := 4096

  datatype Validated = Valid(query: string) | Denied

  function ValidateUserQuery(query: Option<string>, hasMandatoryFilter: bool): Validated {
    if query.None? then Valid("")
    else if |query.value| > MAX_ENCODED_QUERY_CHARS then Denied
    else if hasMandatoryFilter && HasStructural(query.value) then Denied
    else Valid(query.value)
  }

  /** A query passes exactly when it has at most 4096 characters and, behind a mandatory filter, no operator
      clause. */
  lemma ValidatedExactly(query: Option<string>, hasMandatoryFilter: bool)
    ensures ValidateUserQuery(query, hasMandatoryFilter).Valid? <==>
      (query.Some? ==> |query.value| <= 4096 && (hasMandatoryFilter ==> forall c <- Clauses(query.value) :: !OperatorClause(c)))
    ensures ValidateUserQuery(query, hasMandatoryFilter).Valid? ==>
      ValidateUserQuery(query, hasMandatoryFilter).query == if query.Some? then query.value else ""
  {
    if query.Some? {
      forall c <- Clauses(query.value) ensures Structural(c) <==> OperatorClause(c) {
        StructuralIsOperator(c);
      }
    }
  }

  /** An empty filter counts as none. */
  function Mandatory(filter: Option<string>): string { if filter.Some? then filter.value else "" }

  function ApplyRowFilter(filter: Option<string>, userQuery: string): string {
    if Mandatory(filter) == "" then userQuery
    else if userQuery != "" then Mandatory(filter) + [CARET] + userQuery
    else Mandatory(filter)
  }

  // ---------------------------------------------------------------- which rows a query selects

  /** How the instance reads a clause. */
  datatype Reading = Nothing | Ordering | Condition(text: string) | OrCondition(text: string) | NewQuery(text: string) | EndQuery

  type Row(!new)

  /** The instance: how it reads clauses, and which rows meet a condition. Outside clauses with a
      structural operator it can only read a condition or an ordering. */
  datatype Instance = Instance(read: string -> Reading, holds: (string, Row) -> bool)

  ghost predicate Plausible(inst: Instance) {
    forall c: string :: !OperatorClause(c) ==>
      inst.read(c) == if c == "" then Nothing else if ORDERBY <= c then Ordering else Condition(c)
  }

  /** done: an earlier alternative is met; conj: the closed conditions of this one; last: its open
      condition with the OR-conditions joined to it so far; ended: after an EQ. */
  datatype Eval = Eval(done: bool, conj: bool, last: bool, ended: bool)

  function Step(inst: Instance, row: Row, e: Eval, clause: string): Eval {
    if e.ended then e
    else match inst.read(clause)
      case Nothing => e
      case Ordering => e
      case Condition(t) => e.(conj := e.conj && e.last, last := inst.holds(t, row))
      case OrCondition(t) => e.(last := e.last || inst.holds(t, row))
      case NewQuery(t) => Eval(e.done || (e.conj && e.last), true, t == "" || inst.holds(t, row), false)
      case EndQuery => e.(ended := true)
  }

  function Steps(inst: Instance, row: Row, e: Eval, cs: seq<string>): Eval
    decreases |cs|
  {
    if cs == [] then e else Steps(inst, row, Step(inst, row, e, cs[0]), cs[1..])
  }

  predicate Met(e: Eval) { e.done || (e.conj && e.last) }

  const START := Eval(false, true, true, false)

  predicate Selects(inst: Instance, row: Row, q: string) { Met(Steps(inst, row, START, Clauses(q))) }

  lemma {:induction false} StepsJoin(inst: Instance, row: Row, e: Eval, a: seq<string>, b: seq<string>)
    ensures Steps(inst, row, e, a + b) == Steps(inst, row, Steps(inst, row, e, a), b)
    decreases |a|
  {
    if a == [] {
      assert a + b == b;
    } else {
      assert (a + b)[1..] == a[1..] + b && (a + b)[0] == a[0];
      StepsJoin(inst, row, Step(inst, row, e, a[0]), a[1..], b);
    }
  }

  /** Without structural operators the clauses only narrow. */
  lemma {:induction false} SafeNarrows(inst: Instance, row: Row, e: Eval, cs: seq<string>)
    requires Plausible(inst) && !AnyStructural(cs) && !e.done && !e.ended
    ensures !Steps(inst, row, e, cs).done && !Steps(inst, row, e, cs).ended
    ensures Met(Steps(inst, row, e, cs)) <==> Met(e) && Met(Steps(inst, row, START, cs))
    decreases |cs|
  {
    if cs != [] {
      var c := cs[0];
      assert !Structural(c);
      SafeNarrows(inst, row, Step(inst, row, e, c), cs[1..]);
      SafeNarrows(inst, row, Step(inst, row, START, c), cs[1..]);
    }
  }

  /** Whatever the instance makes of operators in any case, a safe filter in front of an accepted query
      selects exactly the rows that both select. */
  lemma ConjunctionIsExact(inst: Instance, row: Row, m: string, u: string)
    requires Plausible(inst) && !HasStructural(m) && !HasStructural(u)
    ensures Selects(inst, row, m + [CARET] + u) <==> Selects(inst, row, m) && Selects(inst, row, u)
  {
    ClausesJoin(m, u);
    StepsJoin(inst, row, START, Clauses(m), Clauses(u));
    SafeNarrows(inst, row, START, Clauses(m));
    SafeNarrows(inst, row, Steps(inst, row, START, Clauses(m)), Clauses(u));
  }

  /** The query a table read sends: behind a mandatory filter a caller only ever sees rows of the
      filter; without one its query is untouched, operators and all. */
  lemma RowFilterIsExact(inst: Instance, row: Row, filter: Option<string>, query: Option<string>)
    requires Plausible(inst) && !HasStructural(Mandatory(filter))
    requires ValidateUserQuery(query, Mandatory(filter) != "").Valid?
    ensures var u := if query.Some? then query.value else "";
      Selects(inst, row, ApplyRowFilter(filter, u)) <==>
        (Mandatory(filter) == "" || Selects(inst, row, Mandatory(filter))) && Selects(inst, row, u)
  {
    var u := if query.Some? then query.value else "";
    EverythingSelected(inst, row);
    if Mandatory(filter) != "" && u != "" {
      ConjunctionIsExact(inst, row, Mandatory(filter), u);
    }
  }

  lemma EverythingSelected(inst: Instance, row: Row)
    requires Plausible(inst)
    ensures Selects(inst, row, "")
  {
    assert Clauses("") == [""];
    assert !Structural("");
    assert Steps(inst, row, START, [""]) == START by {
      assert [""][1..] == [];
      assert Step(inst, row, START, "") == START;
    }
  }

  /** The lookup before a write: the row with this sys_id, and only inside the filter. */
  lemma ScopedLookup(inst: Instance, row: Row, filter: Option<string>, sysId: string)
    requires Plausible(inst) && !HasStructural(Mandatory(filter)) && CARET !in sysId
    ensures Selects(inst, row, ApplyRowFilter(filter, "sys_id=" + sysId)) <==>
      (Mandatory(filter) == "" || Selects(inst, row, Mandatory(filter))) && inst.holds("sys_id=" + sysId, row)
  {
    var q := "sys_id=" + sysId;
    assert q[0] == 's' && q[1] == 'y';
    NoCaret("sys_id=", sysId);
    assert Clauses(q) == [q] && !Structural(q);
    assert !(ORDERBY <= q) by {
      assert ORDERBY[0] == 'O';
    }
    OneCondition(inst, row, q);
    if Mandatory(filter) != "" {
      ConjunctionIsExact(inst, row, Mandatory(filter), q);
    }
  }

  lemma NoCaret(a: string, b: string)
    requires CARET !in a && CARET !in b
    ensures FirstCaret(a + b) == |a + b|
  {
    assert CARET !in a + b;
  }

  lemma OneCondition(inst: Instance, row: Row, q: string)
    requires Plausible(inst) && q != "" && Clauses(q) == [q] && !Structural(q) && !(ORDERBY <= q)
    ensures Selects(inst, row, q) <==> inst.holds(q, row)
  {
    assert Steps(inst, row, START, [q]) == Step(inst, row, START, q) by {
      assert [q][1..] == [];
    }
  }

  // ---------------------------------------------------------------- why the check is needed

  /** The documented reading of the operators. */
  function Documented(c: string): Reading {
    if c == "" then Nothing
    else if ORDERBY <= c then Ordering
    else if !OperatorClause(c) then Condition(c)
    else if UpperChar(c[0]) == 'O' then OrCondition(c[2..])
    else if UpperChar(c[0]) == 'N' then NewQuery(c[2..])
    else EndQuery
  }

  /** OR or NQ, in any case. */
  predicate Alternative(op: string) {
    |op| == 2 && ((UpperChar(op[0]) == 'O' && UpperChar(op[1]) == 'R') || (UpperChar(op[0]) == 'N' && UpperChar(op[1]) == 'Q'))
  }

  lemma AlternativeReads(op: string, t: string)
    requires Alternative(op) && CARET !in t && !(ORDERBY <= op + t)
    ensures Structural(op + t) && FirstCaret(op + t) == |op + t|
    ensures Documented(op + t) == OrCondition(t) || Documented(op + t) == NewQuery(t)
  {
    assert CARET !in op by {
      assert op[0] != CARET && op[1] != CARET;
    }
    NoCaret(op, t);
    assert (op + t)[2..] == t && (op + t)[0] == op[0] && (op + t)[1] == op[1];
  }

  /** Under the documented reading an OR or NQ clause in any case, behind a filter of one condition, lets a
      row outside the filter through. */
  lemma OperatorsEscape(m: string, t: string, row: Row, holds: (string, Row) -> bool, op: string)
    requires m != "" && CARET !in m && !Structural(m) && !(ORDERBY <= m)
    requires t != "" && CARET !in t && Alternative(op) && !(ORDERBY <= op + t)
    requires !holds(m, row) && holds(t, row)
    ensures Selects(Instance(Documented, holds), row, m + [CARET] + (op + t)) && !Selects(Instance(Documented, holds), row, m)
  {
    var inst := Instance(Documented, holds);
    var c := op + t;
    AlternativeReads(op, t);
    NoCaret(m, "");
    assert m + "" == m;
    assert Clauses(m) == [m] && Clauses(c) == [c] by {
      assert m[..|m|] == m && c[..|c|] == c;
    }
    ClausesJoin(m, c);
    OneCondition(inst, row, m);
    OneStep(inst, row, START, m);
    OneStep(inst, row, Step(inst, row, START, m), c);
    StepsJoin(inst, row, START, [m], [c]);
  }

  ghost predicate OnlyEnds(inst: Instance, cs: seq<string>) {
    forall c <- cs :: OperatorClause(c) ==> inst.read(c) == EndQuery
  }

  lemma {:induction false} EndedStays(inst: Instance, row: Row, e: Eval, cs: seq<string>)
    requires e.ended
    ensures Steps(inst, row, e, cs) == e
    decreases |cs|
  {
    if cs != [] {
      EndedStays(inst, row, e, cs[1..]);
    }
  }

  lemma {:induction false} EndsNarrow(inst: Instance, row: Row, e: Eval, cs: seq<string>)
    requires Plausible(inst) && OnlyEnds(inst, cs) && !e.done && !e.ended
    ensures Met(Steps(inst, row, e, cs)) <==> Met(e) && Met(Steps(inst, row, START, cs))
    decreases |cs|
  {
    if cs != [] {
      var c := cs[0];
      if Structural(c) {
        EndedStays(inst, row, Step(inst, row, e, c), cs[1..]);
        EndedStays(inst, row, Step(inst, row, START, c), cs[1..]);
      } else {
        EndsNarrow(inst, row, Step(inst, row, e, c), cs[1..]);
        EndsNarrow(inst, row, Step(inst, row, START, c), cs[1..]);
      }
    }
  }

  /** An EQ clause, read as the end of the query, does no such harm: the check refuses it without need. */
  lemma EndQueryKeepsConjunction(inst: Instance, row: Row, m: string, u: string)
    requires Plausible(inst) && !HasStructural(m) && OnlyEnds(inst, Clauses(u))
    ensures Selects(inst, row, m + [CARET] + u) <==> Selects(inst, row, m) && Selects(inst, row, u)
  {
    ClausesJoin(m, u);
    StepsJoin(inst, row, START, Clauses(m), Clauses(u));
    SafeNarrows(inst, row, START, Clauses(m));
    EndsNarrow(inst, row, Steps(inst, row, START, Clauses(m)), Clauses(u));
  }

  lemma OneStep(inst: Instance, row: Row, e: Eval, c: string)
    ensures Steps(inst, row, e, [c]) == Step(inst, row, e, c)
  {
    assert [c][1..] == [];
  }
}
