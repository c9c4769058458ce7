/** authz/actor-policy.ts: which rows and queries may show a masked field.

    A mask is the set of field names masked on one table, in lower case. */
module QueryScreening {
  import opened EncodedQuery

  // ---------------------------------------------------------------- characters

  predicate Space(c: char) {
    var n := c as int;
    || 9 <= n <= 13 || n == 32 || n == 0xA0 || n == 0x1680 || 0x2000 <= n <= 0x200A || n == 0x2028 || n == 0x2029
    || n == 0x202F || n == 0x205F || n == 0x3000 || n == 0xFEFF
  }

  predicate Letter(c: char) { 'a' <= c <= 'z' || 'A' <= c <= 'Z' }

  predicate FieldChar(c: char) { Letter(c) || '0' <= c <= '9' || c == '_' || c == '.' }

  function LowerChar(c: char): char { if 'A' <= c <= 'Z' then (c as int + 32) as char else c }

  function Lower(s: string): (r: string)
    ensures |r| == |s| && forall i :: 0 <= i < |s| ==> r[i] == LowerChar(s[i])
  {
    seq(|s|, i requires 0 <= i < |s| => LowerChar(s[i]))
  }

  function TrimStart(s: string): string { if s != "" && Space(s[0]) then TrimStart(s[1..]) else s }

  /** The length of the initial run of field characters. */
  function RunLength(s: string): (n: nat)
    ensures n <= |s| && (forall i :: 0 <= i < n ==> FieldChar(s[i])) && (n < |s| ==> !FieldChar(s[n]))
  {
    if s != "" && FieldChar(s[0]) then 1 + RunLength(s[1..]) else 0
  }

  function LeadingFieldToken(clause: string): string {
    var s := TrimStart(clause);
    Lower(s[..RunLength(s)])
  }

  /** The alternatives of QUERY_OP_PREFIX, in the order they are tried, folded to lower case. */
  const KEYWORDS: seq<string> := ["orderbydesc", "orderby", "groupby", "nq", "or", "eq"]

  predicate StartsWith(s: string, keyword: string) { |keyword| <= |s| && Lower(s[..|keyword|]) == keyword }

  function StripFrom(s: string, i: nat): string
    requires i <= |KEYWORDS|
    decreases |KEYWORDS| - i
  {
    if i == |KEYWORDS| then s
    else if StartsWith(s, KEYWORDS[i]) then s[|KEYWORDS[i]|..]
    else StripFrom(s, i + 1)
  }

  function StripKeyword(s: string): string { StripFrom(s, 0) }

  // ---------------------------------------------------------------- masks

  type Mask = set<string>

  /** The field itself, or a prefix of it that ends before a dot, is masked. */
  predicate Masked(mask: Mask, field: string) {
    field in mask || exists d :: 0 <= d < |field| && field[d] == '.' && field[..d] in mask
  }

  /** Said of the masks: the field is one, or goes on after one with a dot. */
  lemma MaskedByPrefix(mask: Mask, field: string)
    ensures Masked(mask, field) <==> exists m <- mask :: field == m || m + "." <= field
  {
    if d :| 0 <= d < |field| && field[d] == '.' && field[..d] in mask {
      assert field[..d] + "." <= field;
    }
    if m :| m in mask && m + "." <= field {
      assert field[|m|] == '.' && field[..|m|] == m;
    }
  }

  predicate Glued(mask: Mask, token: string) {
    exists m <- mask :: |m| < |token| && m <= token && Letter(token[|m|])
  }

  predicate RejectsToken(mask: Mask, token: string) { token != "" && (Masked(mask, token) || Glued(mask, token)) }

  predicate RejectsClause(mask: Mask, clause: string) {
    var s := TrimStart(clause);
    RejectsToken(mask, LeadingFieldToken(s)) || RejectsToken(mask, LeadingFieldToken(StripKeyword(s)))
  }

  method IsFieldMaskedByIndex(mask: Mask, field: string) returns (masked: bool)
    ensures masked <==> Masked(mask, field)
    ensures masked <==> exists m <- mask :: field == m || m + "." <= field
  {
    MaskedByPrefix(mask, field);
    if field in mask {
      return true;
    }
    var dot := IndexOfDot(field, 0);
    while dot != -1
      invariant -1 <= dot < |field| && (dot != -1 ==> field[dot] == '.')
      invariant forall d :: 0 <= d < (if dot == -1 then |field| else dot) && field[d] == '.' ==> field[..d] !in mask
      decreases if dot == -1 then 0 else |field| - dot
    {
      if field[..dot] in mask {
        return true;
      }
      dot := IndexOfDot(field, dot + 1);
    }
    masked := false;
  }

  method IndexOfDot(s: string, from: nat) returns (i: int)
    requires from <= |s|
    ensures i == -1 || (from <= i < |s| && s[i] == '.')
    ensures forall d :: from <= d < (if i == -1 then |s| else i) ==> s[d] != '.'
  {
    i := from;
    while i < |s|
      invariant from <= i <= |s| && forall d :: from <= d < i ==> s[d] != '.'
    {
      if s[i] == '.' {
        return i;
      }
      i := i + 1;
    }
    i := -1;
  }

  method MaskedFieldWithGluedOperator(mask: Mask, token: string) returns (found: bool)
    ensures found <==> Glued(mask, token)
    ensures found <==> exists m <- mask ::
      |m| < |token| && m <= token && ('a' <= token[|m|] <= 'z' || 'A' <= token[|m|] <= 'Z')
  {
    var todo := mask;
    while todo != {}
      invariant todo <= mask
      invariant forall m <- mask - todo :: !(|m| < |token| && m <= token && Letter(token[|m|]))
    {
      var m :| m in todo;
      todo := todo - {m};
      if |token| > |m| && m <= token && Letter(token[|m|]) {
        return true;
      }
    }
    found := false;
  }

  method ClauseAllowed(mask: Mask, clause: string) returns (allowed: bool)
    ensures allowed <==> !RejectsClause(mask, clause)
  {
    var normalized := TrimStart(clause);
    var candidates := [LeadingFieldToken(normalized), LeadingFieldToken(StripKeyword(normalized))];
    for j := 0 to 2
      invariant forall k :: 0 <= k < j ==> !RejectsToken(mask, candidates[k])
    {
      var f := candidates[j];
      if f == "" {
        continue;
      }
      var masked := IsFieldMaskedByIndex(mask, f);
      var glued := MaskedFieldWithGluedOperator(mask, f);
      if masked || glued {
        assert RejectsToken(mask, candidates[j]);
        return false;
      }
    }
    assert !RejectsToken(mask, candidates[0]) && !RejectsToken(mask, candidates[1]);
    allowed := true;
  }

  method AssertQueryFieldsAllowed(mask: Mask, userQuery: string) returns (allowed: bool)
    ensures allowed <==> userQuery == "" || forall c <- Clauses(userQuery) :: !RejectsClause(mask, c)
  {
    if mask == {} || userQuery == "" {
      return true;
    }
    allowed := ClausesAllowed(mask, Clauses(userQuery));
  }

  /** The loop over the clauses. */
  method ClausesAllowed(mask: Mask, clauses: seq<string>) returns (allowed: bool)
    ensures allowed <==> forall c <- clauses :: !RejectsClause(mask, c)
  {
    for i := 0 to |clauses|
      invariant forall j :: 0 <= j < i ==> !RejectsClause(mask, clauses[j])
    {
      var ok := ClauseAllowed(mask, clauses[i]);
      if !ok {
        assert clauses[i] in clauses;
        return false;
      }
    }
    allowed := true;
  }

  /** Masked keys go, dot-walked ones too; all others stay as they are. */
  method MaskRow<V>(mask: Mask, row: map<string, V>) returns (out: map<string, V>)
    ensures out == map k | k in row && !Masked(mask, k) :: row[k]
    ensures forall k <- out :: k in row && out[k] == row[k]
    ensures forall k <- row :: k !in out <==> exists m <- mask :: k == m || m + "." <= k
  {
    forall k ensures Masked(mask, k) <==> exists m <- mask :: k == m || m + "." <= k {
      MaskedByPrefix(mask, k);
    }
    if mask == {} {
      return row;
    }
    out := map[];
    var todo := row.Keys;
    while todo != {}
      invariant todo <= row.Keys
      invariant forall k :: k in out <==> k in row && k !in todo && !Masked(mask, k)
      invariant forall k <- out :: out[k] == row[k]
    {
      var k :| k in todo;
      todo := todo - {k};
      var masked := IsFieldMaskedByIndex(mask, k);
      if !masked {
        out := out[k := row[k]];
      }
    }
  }

  // ---------------------------------------------------------------- completeness

  predicate Spaces(s: string) { forall i :: 0 <= i < |s| ==> Space(s[i]) }

  /** A field name as masks hold it. */
  predicate Canonical(f: string) { f != "" && Lower(f) == f && forall i :: 0 <= i < |f| ==> FieldChar(f[i]) }

  /** The text starts with the field, in any case, followed by its end, a character no field has, a
      dot or a letter. */
  predicate StartsWithField(text: string, f: string) {
    && StartsWith(text, f)
    && (|text| == |f| || !FieldChar(text[|f|]) || text[|f|] == '.' || Letter(text[|f|]))
  }

  /** The keyword could not have been a longer one. */
  predicate Unambiguous(keyword: string, rest: string) {
    !(Lower(keyword) == "or" && StartsWith(rest, "derby")) && !(Lower(keyword) == "orderby" && StartsWith(rest, "desc"))
  }

  lemma {:induction false} TrimSpaces(w: string, s: string)
    requires Spaces(w) && (s != "" ==> !Space(s[0]))
    ensures TrimStart(w + s) == s
  {
    if w == "" {
      assert w + s == s;
    } else {
      assert (w + s)[1..] == w[1..] + s;
      TrimSpaces(w[1..], s);
    }
  }

  lemma SpaceIsNoFieldChar(c: char)
    requires Space(c)
    ensures !FieldChar(c) && !Letter(c)
  {
  }

  lemma LowerKeepsClass(c: char)
    ensures FieldChar(LowerChar(c)) <==> FieldChar(c)
    ensures Letter(LowerChar(c)) <==> Letter(c)
    ensures LowerChar(c) == '.' <==> c == '.'
  {
  }

  /** The token of a text that starts with these field characters. */
  lemma TokenBegins(text: string, p: string)
    requires Canonical(p) && StartsWith(text, p)
    ensures TrimStart(text) == text && p <= LeadingFieldToken(text)
    ensures |text| == |p| || !FieldChar(text[|p|]) ==> LeadingFieldToken(text) == p
    ensures |text| > |p| && FieldChar(text[|p|]) ==>
      |LeadingFieldToken(text)| > |p| && LeadingFieldToken(text)[|p|] == LowerChar(text[|p|])
  {
    var head := text[..|p|];
    forall i | 0 <= i < |p| ensures FieldChar(text[i]) {
      assert Lower(head)[i] == LowerChar(head[i]);
      LowerKeepsClass(text[i]);
    }
    if Space(text[0]) {
      SpaceIsNoFieldChar(text[0]);
    }
    var n := RunLength(text);
    assert n >= |p|;
    assert Lower(text[..n])[..|p|] == p;
  }

  /** A rejected token stays rejected when a dot or a letter follows. */
  lemma RejectionExtends(mask: Mask, base: string, token: string)
    requires RejectsToken(mask, base) && base <= token
    requires |token| == |base| || token[|base|] == '.' || Letter(token[|base|])
    ensures RejectsToken(mask, token)
  {
    if base in mask {
      assert token[..|base|] == base && (|token| == |base| ==> token == base);
    } else if Masked(mask, base) {
      var d :| 0 <= d < |base| && base[d] == '.' && base[..d] in mask;
      assert token[d] == '.' && token[..d] == base[..d];
    } else {
      var m :| m in mask && |m| < |base| && m <= base && Letter(base[|m|]);
      assert m <= token && token[|m|] == base[|m|];
    }
  }

  /** The token of a text that starts with a rejected one is rejected. */
  lemma StartIsRejected(mask: Mask, text: string, base: string)
    requires Canonical(base) && RejectsToken(mask, base) && StartsWithField(text, base)
    ensures TrimStart(text) == text && RejectsToken(mask, LeadingFieldToken(text))
  {
    TokenBegins(text, base);
    if |base| < |text| {
      LowerKeepsClass(text[|base|]);
    }
    RejectionExtends(mask, base, LeadingFieldToken(text));
  }

  lemma FieldIsRejected(mask: Mask, text: string, f: string)
    requires f in mask && Canonical(f) && StartsWithField(text, f)
    ensures TrimStart(text) == text && RejectsToken(mask, LeadingFieldToken(text))
  {
    StartIsRejected(mask, text, f);
  }

  /** Nothing but the keyword is stripped from keyword plus rest. */
  lemma KeywordStripped(keyword: string, rest: string)
    requires Lower(keyword) in KEYWORDS && Unambiguous(keyword, rest)
    ensures StripKeyword(keyword + rest) == rest
  {
    var s := keyword + rest;
    assert s[..|keyword|] == keyword && s[|keyword|..] == rest;
    StripUnfolds(s);
    OtherFamily(s, keyword, "orderbydesc");
    OtherFamily(s, keyword, "orderby");
    OtherFamily(s, keyword, "groupby");
    OtherFamily(s, keyword, "nq");
    OtherFamily(s, keyword, "or");
    LongestOfFamily(keyword, rest);
  }

  lemma LongestOfFamily(keyword: string, rest: string)
    requires Unambiguous(keyword, rest)
    ensures Lower(keyword) == "or" ==> !StartsWith(keyword + rest, "orderby") && !StartsWith(keyword + rest, "orderbydesc")
    ensures Lower(keyword) == "orderby" ==> !StartsWith(keyword + rest, "orderbydesc")
  {
    LongerKeyword(keyword, rest, "or", "derby");
    LongerKeyword(keyword, rest, "orderby", "desc");
    assert "or" + "derby" == "orderby" && "orderby" + "desc" == "orderbydesc";
    ShorterPrefix(keyword + rest, "orderby", "orderbydesc");
  }

  /** A keyword of another first letter does not match. */
  lemma OtherFamily(s: string, keyword: string, other: string)
    requires keyword <= s && keyword != "" && other != ""
    ensures other[0] != LowerChar(keyword[0]) ==> !StartsWith(s, other)
  {
    assert StartsWith(s, other) ==> Lower(s[..|other|])[0] == LowerChar(s[0]);
  }

  lemma StripUnfolds(s: string)
    ensures StripKeyword(s) ==
      if StartsWith(s, "orderbydesc") then s[11..]
      else if StartsWith(s, "orderby") then s[7..]
      else if StartsWith(s, "groupby") then s[7..]
      else if StartsWith(s, "nq") then s[2..]
      else if StartsWith(s, "or") then s[2..]
      else if StartsWith(s, "eq") then s[2..]
      else s
  {
    assert StripFrom(s, 5) == if StartsWith(s, "eq") then s[2..] else StripFrom(s, 6);
    assert StripFrom(s, 4) == if StartsWith(s, "or") then s[2..] else StripFrom(s, 5);
    assert StripFrom(s, 3) == if StartsWith(s, "nq") then s[2..] else StripFrom(s, 4);
    assert StripFrom(s, 2) == if StartsWith(s, "groupby") then s[7..] else StripFrom(s, 3);
    assert StripFrom(s, 1) == if StartsWith(s, "orderby") then s[7..] else StripFrom(s, 2);
  }

  lemma LowerJoin(a: string, b: string)
    ensures Lower(a + b) == Lower(a) + Lower(b)
  {
  }

  /** A longer keyword a + b matches keyword plus rest exactly when b matches the rest. */
  lemma LongerKeyword(keyword: string, rest: string, a: string, b: string)
    ensures Lower(keyword) == a ==> (StartsWith(keyword + rest, a + b) <==> StartsWith(rest, b))
  {
    if Lower(keyword) == a && |b| <= |rest| {
      assert (keyword + rest)[..|a + b|] == keyword + rest[..|b|];
      LowerJoin(keyword, rest[..|b|]);
      assert Lower(rest[..|b|]) == Lower(keyword + rest[..|b|])[|a|..];
      assert (a + b)[|a|..] == b;
    }
  }

  lemma ShorterPrefix(s: string, a: string, b: string)
    requires a <= b
    ensures StartsWith(s, b) ==> StartsWith(s, a)
  {
    if StartsWith(s, b) {
      assert Lower(s[..|a|]) == Lower(s[..|b|])[..|a|];
    }
  }

  /** One keyword, in any case, or none. */
  predicate Keyword(k: string) { k == "" || Lower(k) in KEYWORDS }

  lemma Regroup(w: string, k: string, w2: string, text: string)
    ensures w + k + w2 + text == w + (k + (w2 + text)) && (k == "" ==> w + k + w2 + text == (w + w2) + text)
  {
  }

  lemma RejectedBehindSpaces(mask: Mask, w: string, s: string)
    requires Spaces(w) && s != "" && !Space(s[0])
    requires RejectsToken(mask, LeadingFieldToken(s)) || RejectsToken(mask, LeadingFieldToken(StripKeyword(s)))
    ensures RejectsClause(mask, w + s)
  {
    TrimSpaces(w, s);
  }

  lemma BehindKeyword(mask: Mask, keyword: string, w2: string, text: string, f: string)
    requires Lower(keyword) in KEYWORDS && Spaces(w2)
    requires f in mask && Canonical(f) && StartsWithField(text, f) && Unambiguous(keyword, w2 + text)
    ensures RejectsToken(mask, LeadingFieldToken(StripKeyword(keyword + (w2 + text))))
  {
    FieldIsRejected(mask, text, f);
    FirstIsNoSpace(text, f);
    KeywordStripped(keyword, w2 + text);
    TrimTwice(w2, text);
  }

  /** A clause that names a masked field, after optional spaces and one keyword, is rejected unless the
      keyword and the text behind it together read as a longer keyword. */
  lemma ScreeningComplete(mask: Mask, w: string, keyword: string, w2: string, text: string, f: string)
    requires Spaces(w) && Keyword(keyword) && Spaces(w2)
    requires f in mask && Canonical(f) && StartsWithField(text, f) && Unambiguous(keyword, w2 + text)
    ensures RejectsClause(mask, w + keyword + w2 + text)
  {
    Regroup(w, keyword, w2, text);
    if keyword == "" {
      FieldIsRejected(mask, text, f);
      FirstIsNoSpace(text, f);
      RejectedBehindSpaces(mask, w + w2, text);
    } else {
      BehindKeyword(mask, keyword, w2, text, f);
      KeywordStart(keyword);
      RejectedBehindSpaces(mask, w, keyword + (w2 + text));
    }
  }

  lemma FirstIsNoSpace(text: string, f: string)
    requires Canonical(f) && StartsWithField(text, f)
    ensures text != "" && !Space(text[0])
  {
    assert Lower(text[..|f|])[0] == LowerChar(text[0]);
    LowerKeepsClass(text[0]);
  }

  lemma KeywordStart(keyword: string)
    requires Lower(keyword) in KEYWORDS
    ensures keyword != "" && !Space(keyword[0])
  {
    assert Lower(keyword)[0] == LowerChar(keyword[0]);
    LowerKeepsClass(keyword[0]);
  }

  lemma TrimTwice(w: string, text: string)
    requires Spaces(w) && text != "" && !Space(text[0])
    ensures LeadingFieldToken(w + text) == LeadingFieldToken(text)
  {
    TrimSpaces(w, text);
  }

  /** The text starts with this mask, in any case, followed by its end, a character no field has, a dot or
      a letter. */
  predicate Names(mask: Mask, t: string, m: string) {
    && m in mask && |m| <= |t| && Lower(t[..|m|]) == m
    && (|t| > |m| ==> !FieldChar(t[|m|]) || t[|m|] == '.' || Letter(t[|m|]))
  }

  lemma TokenBehindSpaces(mask: Mask, s: string) returns (w: string, t: string, m: string)
    requires RejectsToken(mask, LeadingFieldToken(s))
    ensures s == w + t && Spaces(w) && Names(mask, t, m)
  {
    w, t := Trimmed(s);
    TrimTwiceSame(s);
    m := TokenNames(mask, t);
  }

  /** Nothing else is rejected: a rejected clause names a masked field behind optional spaces and one
      keyword. */
  lemma RejectedNamesAMask(mask: Mask, clause: string) returns (w: string, k: string, w2: string, t: string, m: string)
    requires RejectsClause(mask, clause)
    ensures clause == w + (k + (w2 + t)) && Spaces(w) && Keyword(k) && Spaces(w2) && Names(mask, t, m)
  {
    var s := TrimStart(clause);
    w, t := Trimmed(clause);
    if RejectsToken(mask, LeadingFieldToken(s)) {
      k := "";
      w2, t, m := TokenBehindSpaces(mask, s);
    } else {
      k := KeywordOf(s);
      w2, t, m := TokenBehindSpaces(mask, StripKeyword(s));
    }
  }

  lemma {:induction false} Trimmed(s: string) returns (w: string, t: string)
    ensures s == w + t && Spaces(w) && t == TrimStart(s)
  {
    if s != "" && Space(s[0]) {
      w, t := Trimmed(s[1..]);
      w := [s[0]] + w;
      assert s == [s[0]] + s[1..];
    } else {
      w, t := "", s;
    }
  }

  lemma {:induction false} TrimTwiceSame(s: string)
    ensures TrimStart(TrimStart(s)) == TrimStart(s)
  {
    if s != "" && Space(s[0]) {
      TrimTwiceSame(s[1..]);
    }
  }

  /** What StripKeyword takes away. */
  lemma KeywordOf(s: string) returns (k: string)
    ensures s == k + StripKeyword(s) && Keyword(k)
  {
    StripUnfolds(s);
    k := s[..|s| - |StripKeyword(s)|];
    assert forall i :: 0 <= i < |KEYWORDS| ==> KEYWORDS[i] in KEYWORDS;
    assert KEYWORDS[0] == "orderbydesc" && KEYWORDS[1] == "orderby" && KEYWORDS[2] == "groupby";
    assert KEYWORDS[3] == "nq" && KEYWORDS[4] == "or" && KEYWORDS[5] == "eq";
  }

  /** A text whose token is rejected starts with a mask. */
  lemma TokenNames(mask: Mask, t: string) returns (m: string)
    requires TrimStart(t) == t && RejectsToken(mask, LeadingFieldToken(t))
    ensures Names(mask, t, m)
  {
    var n := RunLength(t);
    var token := LeadingFieldToken(t);
    MaskedByPrefix(mask, token);
    if Masked(mask, token) {
      m :| m in mask && (token == m || m + "." <= token);
      if token != m {
        assert token[|m|] == '.' && m == token[..|m|];
      }
    } else {
      m :| m in mask && |m| < |token| && m <= token && Letter(token[|m|]);
    }
    assert token[..|m|] == m && Lower(t[..n])[..|m|] == Lower(t[..|m|]);
    if |m| < n {
      assert token[|m|] == LowerChar(t[|m|]);
      LowerKeepsClass(t[|m|]);
    }
  }

  /** For any query, not only one clause. */
  lemma QueryRejected(mask: Mask, query: string, i: nat, w: string, keyword: string, w2: string, text: string, f: string)
    requires i < |Clauses(query)| && Clauses(query)[i] == w + keyword + w2 + text
    requires Spaces(w) && Keyword(keyword) && Spaces(w2)
    requires f in mask && Canonical(f) && StartsWithField(text, f) && Unambiguous(keyword, w2 + text)
    ensures exists c <- Clauses(query) :: RejectsClause(mask, c)
  {
    ScreeningComplete(mask, w, keyword, w2, text, f);
  }

  /** Spaces behind the keyword, or a field and boundary that do not spell out derby or desc, keep it
      unambiguous: so for a mask that starts with neither, only a letter after a field that is itself
      the beginning of derby or desc can escape. */
  lemma UsuallyUnambiguous(keyword: string, w2: string, text: string, f: string)
    requires Spaces(w2) && Canonical(f) && StartsWithField(text, f)
    requires !("derby" <= f) && !("desc" <= f)
    requires f <= "derby" || f <= "desc" ==> |text| == |f| || !Letter(text[|f|]) || w2 != ""
    ensures Unambiguous(keyword, w2 + text)
  {
    if w2 != "" {
      NoSpaceStart(w2 + text, "derby");
      NoSpaceStart(w2 + text, "desc");
    } else {
      assert w2 + text == text;
      Diverges(text, f, "derby");
      Diverges(text, f, "desc");
    }
  }

  lemma NoSpaceStart(s: string, word: string)
    requires s != "" && Space(s[0]) && word != "" && Letter(word[0])
    ensures !StartsWith(s, word)
  {
    if StartsWith(s, word) {
      assert Lower(s[..|word|])[0] == LowerChar(s[0]);
      SpaceIsNoFieldChar(s[0]);
      LowerKeepsClass(s[0]);
    }
  }

  /** A text that starts with the field and with the word makes one the beginning of the other. */
  lemma SharedStart(text: string, f: string, word: string)
    requires StartsWith(text, f)
    ensures StartsWith(text, word) && |word| <= |f| ==> word <= f
    ensures StartsWith(text, word) && |f| < |word| ==> f <= word && LowerChar(text[|f|]) == word[|f|]
  {
    if StartsWith(text, word) {
      var n := if |f| < |word| then |f| else |word|;
      assert Lower(text[..|f|])[..n] == Lower(text[..|word|])[..n];
      if |f| < |word| {
        assert word[..|f|] == f;
        assert Lower(text[..|word|])[|f|] == LowerChar(text[|f|]);
      }
    }
  }

  lemma Diverges(text: string, f: string, word: string)
    requires Canonical(f) && StartsWithField(text, f) && !(word <= f)
    requires forall i :: 0 <= i < |word| ==> Letter(word[i])
    requires f <= word ==> |text| == |f| || !Letter(text[|f|])
    ensures !StartsWith(text, word)
  {
    SharedStart(text, f, word);
    if |f| < |text| {
      LowerKeepsClass(text[|f|]);
    }
  }

  // ---------------------------------------------------------------- where it fails

  /** One of the two is the beginning of the other. */
  predicate Comparable(f: string, word: string) { f <= word || word <= f }

  /** No clause that names the field, after spaces, a keyword in any case and spaces, and followed by its
      end, a character no field has, a dot or a letter, passes. */
  ghost predicate Screened(mask: Mask, f: string) {
    forall w: string, k: string, w2: string, t: string ::
      Spaces(w) && Keyword(k) && Spaces(w2) && StartsWithField(t, f) ==> RejectsClause(mask, w + k + w2 + t)
  }

  // ---------------------------------------------------------------- clauses that read as a longer keyword

  /** Some mask is a beginning of these letters, and shorter. */
  predicate Begun(mask: Mask, letters: string) { exists m <- mask :: m < letters }

  /** What rejects the clauses in which the keyword runs into the word: the clause of keyword and field, or a
      mask that begins the keyword. */
  predicate Rescued(mask: Mask, k: string, word: string, f: string) {
    if word <= f then RejectsClause(mask, k + f) && (f < "derbydesc" ==> Begun(mask, "orderbydesc"))
    else Begun(mask, k + word)
  }

  predicate Letters(s: string) { forall i :: 0 <= i < |s| ==> 'a' <= s[i] <= 'z' }

  lemma LettersAreCanonical(s: string)
    requires Letters(s) && s != ""
    ensures Canonical(s)
  {
    assert Lower(s) == s;
  }

  lemma BegunRejects(mask: Mask, s: string, letters: string)
    requires Begun(mask, letters) && Letters(letters) && StartsWith(s, letters)
    ensures TrimStart(s) == s && RejectsToken(mask, LeadingFieldToken(s))
  {
    var m :| m in mask && m < letters;
    LettersAreCanonical(letters);
    TokenBegins(s, letters);
    assert Letter(LeadingFieldToken(s)[|m|]);
  }

  /** Lower-case field characters, possibly none. */
  predicate Plain(t: string) { Lower(t) == t && forall i :: 0 <= i < |t| ==> FieldChar(t[i]) }

  lemma PlainToken(t: string)
    requires Plain(t)
    ensures TrimStart(t) == t && LeadingFieldToken(t) == t
  {
    if t != "" && Space(t[0]) {
      SpaceIsNoFieldChar(t[0]);
    }
    assert t[..|t|] == t;
  }

  lemma PlainSuffix(f: string, n: nat)
    requires Plain(f) && n <= |f|
    ensures Plain(f[n..])
  {
    assert Lower(f[n..]) == Lower(f)[n..];
  }

  lemma PlainStarts(s: string, k: string)
    requires Plain(s)
    ensures StartsWith(s, k) <==> k <= s
  {
    if |k| <= |s| {
      assert Lower(s[..|k|]) == Lower(s)[..|k|];
    }
  }

  function Cut(s: string): nat { if StartsWith(s, "orderbydesc") then 11 else 7 }

  lemma CutAt(s: string)
    requires StartsWith(s, "orderby")
    ensures Cut(s) <= |s| && StripKeyword(s) == s[Cut(s)..]
  {
    StripUnfolds(s);
  }

  /** A clause of field characters that starts with orderby: both its tokens. */
  lemma PlainClause(mask: Mask, s: string)
    requires Plain(s) && "orderby" <= s
    ensures Cut(s) <= |s| && Plain(s[Cut(s)..])
    ensures RejectsClause(mask, s) <==> RejectsToken(mask, s) || RejectsToken(mask, s[Cut(s)..])
  {
    PlainStarts(s, "orderby");
    CutAt(s);
    PlainToken(s);
    PlainSuffix(s, Cut(s));
    PlainToken(s[Cut(s)..]);
  }

  /** The two ways a keyword runs into a word. */
  predicate RunsInto(k: string, word: string) { (k == "or" && word == "derby") || (k == "orderby" && word == "desc") }

  lemma RunsIntoOrderBy(k: string, word: string)
    requires RunsInto(k, word)
    ensures k + word == "orderby" || k + word == "orderbydesc"
    ensures Lower(k) == k && Keyword(k) && Letters(k) && Letters(word) && Letters(k + word) && "orderby" <= k + word
  {
    assert KEYWORDS[4] == "or" && KEYWORDS[1] == "orderby";
    assert "or" + "derby" == "orderby" && "orderby" + "desc" == "orderbydesc";
    assert "orderbydesc"[..7] == "orderby";
    assert Lower(k) == k;
  }

  lemma Suffix(text: string, a: string, n: nat)
    requires StartsWithField(text, a) && n <= |a|
    ensures StartsWithField(text[n..], a[n..])
  {
    assert text[n..][..|a| - n] == text[..|a|][n..];
    assert Lower(text[..|a|][n..]) == Lower(text[..|a|])[n..];
  }

  lemma Joined(k: string, low: string, text: string, a: string)
    requires Lower(k) == low
    ensures StartsWith(text, a) ==> StartsWith(k + text, low + a)
    ensures StartsWithField(text, a) ==> StartsWithField(k + text, low + a)
  {
    if StartsWith(text, a) {
      assert (k + text)[..|low + a|] == k + text[..|a|];
      LowerJoin(k, text[..|a|]);
    }
  }

  /** What is left of the text is what is left of the field, unless together they spell orderbydesc. */
  lemma SameCut(s: string, base: string)
    requires Plain(base) && "orderby" <= base && StartsWith(s, base)
    ensures Cut(s) == Cut(base) || (base < "orderbydesc" && StartsWith(s, "orderbydesc"))
  {
    PlainStarts(base, "orderbydesc");
    SharedStart(s, base, "orderbydesc");
    if "orderbydesc" <= base {
      ShorterPrefix(s, "orderbydesc", base);
    }
  }

  lemma RemainderRejected(mask: Mask, s: string, base: string)
    requires Canonical(base) && "orderby" <= base && StartsWithField(s, base) && Cut(s) == Cut(base) <= |base|
    requires RejectsToken(mask, base[Cut(base)..]) && Plain(base[Cut(base)..])
    ensures RejectsToken(mask, LeadingFieldToken(StripKeyword(s)))
  {
    ShorterPrefix(s, "orderby", base);
    CutAt(s);
    Suffix(s, base, Cut(base));
    StartIsRejected(mask, s[Cut(base)..], base[Cut(base)..]);
  }

  lemma {:induction false} RestIsRejected(mask: Mask, s: string, base: string)
    requires Canonical(base) && "orderby" <= base && StartsWithField(s, base) && Cut(base) <= |base|
    requires RejectsToken(mask, base[Cut(base)..]) && Plain(base[Cut(base)..])
    requires base < "orderbydesc" ==> Begun(mask, "orderbydesc")
    ensures RejectsToken(mask, LeadingFieldToken(s)) || RejectsToken(mask, LeadingFieldToken(StripKeyword(s)))
  {
    SameCut(s, base);
    if Cut(s) == Cut(base) {
      RemainderRejected(mask, s, base);
    } else {
      BegunRejects(mask, s, "orderbydesc");
    }
  }

  lemma {:induction false} LongerIsRejected(mask: Mask, s: string, base: string)
    requires Canonical(base) && "orderby" <= base && StartsWithField(s, base) && RejectsClause(mask, base)
    requires base < "orderbydesc" ==> Begun(mask, "orderbydesc")
    ensures RejectsToken(mask, LeadingFieldToken(s)) || RejectsToken(mask, LeadingFieldToken(StripKeyword(s)))
  {
    PlainClause(mask, base);
    if RejectsToken(mask, base) {
      StartIsRejected(mask, s, base);
    } else {
      RestIsRejected(mask, s, base);
    }
  }

  /** A rescued clause is rejected. */
  lemma RunIsRejected(mask: Mask, w: string, k: string, low: string, word: string, t: string, f: string)
    requires Spaces(w) && RunsInto(low, word) && Lower(k) == low && Canonical(f)
    requires StartsWithField(t, f) && StartsWith(t, word) && Rescued(mask, low, word, f)
    ensures RejectsClause(mask, w + (k + t))
  {
    RunsIntoOrderBy(low, word);
    SharedStart(t, f, word);
    Joined(k, low, t, word);
    Joined(k, low, t, f);
    if word <= f {
      assert low + word <= low + f;
      LowerJoin(low, f);
      BaseBegins(low, f);
      LongerIsRejected(mask, k + t, low + f);
    } else {
      BegunRejects(mask, k + t, low + word);
    }
    KeywordStart(k);
    RejectedBehindSpaces(mask, w, k + t);
  }

  lemma BaseBegins(low: string, f: string)
    requires low == "or" || (low == "orderby" && "desc" <= f)
    ensures low + f < "orderbydesc" ==> f < "derbydesc"
  {
    if low + f < "orderbydesc" {
      assert low == "or" ==> f == (low + f)[2..] && "derbydesc" == "orderbydesc"[2..];
    }
  }

  /** A word begins with no space. */
  lemma NothingBetween(w2: string, t: string, word: string)
    requires Spaces(w2) && Letters(word) && word != "" && StartsWith(w2 + t, word)
    ensures w2 == "" && w2 + t == t
  {
    if w2 != "" {
      NoSpaceStart(w2 + t, word);
    }
  }

  lemma AmbiguousIsRejected(mask: Mask, w: string, k: string, low: string, word: string, w2: string, t: string, f: string)
    requires Canonical(f) && Spaces(w) && Spaces(w2) && StartsWithField(t, f)
    requires RunsInto(low, word) && Lower(k) == low && StartsWith(w2 + t, word)
    requires Comparable(f, word) ==> Rescued(mask, low, word, f)
    ensures RejectsClause(mask, w + k + w2 + t)
  {
    RunsIntoOrderBy(low, word);
    NothingBetween(w2, t, word);
    SharedStart(t, f, word);
    RunIsRejected(mask, w, k, low, word, t, f);
    Regroup(w, k, w2, t);
  }

  lemma RescuedIsScreened(mask: Mask, w: string, k: string, w2: string, t: string, f: string)
    requires f in mask && Canonical(f) && Spaces(w) && Keyword(k) && Spaces(w2) && StartsWithField(t, f)
    requires Comparable(f, "derby") ==> Rescued(mask, "or", "derby", f)
    requires Comparable(f, "desc") ==> Rescued(mask, "orderby", "desc", f)
    ensures RejectsClause(mask, w + k + w2 + t)
  {
    if Unambiguous(k, w2 + t) {
      ScreeningComplete(mask, w, k, w2, t, f);
    } else if Lower(k) == "or" {
      AmbiguousIsRejected(mask, w, k, "or", "derby", w2, t, f);
    } else {
      AmbiguousIsRejected(mask, w, k, "orderby", "desc", w2, t, f);
    }
  }

  // ---------------------------------------------------------------- texts that escape

  function Zeros(n: nat): string { seq(n, i => '0') }

  lemma {:induction false} LongerThanAll(mask: Mask) returns (n: nat)
    ensures forall m <- mask :: |m| < n
    decreases |mask|
  {
    n := 0;
    if mask != {} {
      var m :| m in mask;
      n := LongerThanAll(mask - {m});
      if n <= |m| {
        n := |m| + 1;
      }
    }
  }

  /** Letters that no mask begins, and more zeros than any mask has characters. */
  lemma ZerosPass(mask: Mask, letters: string, n: nat)
    requires Letters(letters) && !Begun(mask, letters) && forall m <- mask :: |m| < n
    ensures Plain(letters + Zeros(n)) && !RejectsToken(mask, letters + Zeros(n))
  {
    var token := letters + Zeros(n);
    assert Lower(token) == token;
    forall m | m in mask && |m| < |token| && m <= token ensures !Letter(token[|m|]) {
      if |m| < |letters| {
        assert false;
      }
    }
  }

  lemma CutOfZeros(key: string, n: nat, longer: string)
    requires (key == "orderby" || key == longer) && longer == "orderbydesc" && Plain(key + Zeros(n))
    ensures Cut(key + Zeros(n)) == |key|
  {
    var s := key + Zeros(n);
    PlainStarts(s, longer);
    assert longer[7] == 'd' && (key == "orderby" && |s| > 7 ==> s[7] == '0');
  }

  lemma ZerosRest(mask: Mask, key: string, n: nat)
    requires key == "orderby" || key == "orderbydesc"
    requires Letters(key) && "orderby" <= key && !Begun(mask, key) && forall m <- mask :: |m| < n
    ensures !RejectsClause(mask, key + Zeros(n))
  {
    ZerosPass(mask, key, n);
    ZerosPass(mask, "", n);
    CutOfZeros(key, n, "orderbydesc");
    PlainClause(mask, key + Zeros(n));
    assert (key + Zeros(n))[|key|..] == "" + Zeros(n);
  }

  lemma ZerosEscape(mask: Mask, k: string, long: string, f: string) returns (t: string)
    requires Canonical(f) && f < long && Letters(long) && (k + long == "orderby" || k + long == "orderbydesc")
    requires Letters(k + long) && "orderby" <= k + long && !Begun(mask, k + long)
    ensures StartsWithField(t, f) && !RejectsClause(mask, k + t)
  {
    var n := LongerThanAll(mask);
    t := long + Zeros(n);
    assert t[..|f|] == f;
    ZerosRest(mask, k + long, n);
    assert k + t == k + long + Zeros(n);
  }

  lemma {:induction false} Unrescued(mask: Mask, k: string, word: string, f: string) returns (t: string)
    requires Canonical(f) && RunsInto(k, word) && Comparable(f, word) && !Rescued(mask, k, word, f)
    ensures Keyword(k) && StartsWithField(t, f) && !RejectsClause(mask, k + t)
  {
    RunsIntoOrderBy(k, word);
    t := f;
    assert f[..|f|] == f;
    if !(word <= f) {
      t := ZerosEscape(mask, k, word, f);
    } else if RejectsClause(mask, k + f) {
      BothWords(k, word, f);
      t := ZerosEscape(mask, k, "derbydesc", f);
    }
  }

  lemma BothWords(k: string, word: string, f: string)
    requires RunsInto(k, word) && word <= f < "derbydesc"
    ensures k + "derbydesc" == "orderbydesc" && Letters(k + "derbydesc") && Letters("derbydesc") && "orderby" <= k + "derbydesc"
  {
    assert word[2] == "derbydesc"[2];
    assert "or" + "derbydesc" == "orderbydesc" && "orderbydesc"[..7] == "orderby";
  }

  lemma NotScreened(mask: Mask, none: string, k: string, t: string, f: string)
    requires none == "" && Keyword(k) && StartsWithField(t, f) && !RejectsClause(mask, k + t)
    ensures !Screened(mask, f)
  {
    assert none + k + none + t == k + t;
    assert Spaces(none);
  }

  /** Screening is complete for a masked field exactly when each of the two words that a keyword can run into
      is no beginning of the field, nor the field of it, or another mask rescues those clauses. */
  lemma ScreenedExact(mask: Mask, f: string)
    requires f in mask && Canonical(f)
    ensures Screened(mask, f) <==>
      && (Comparable(f, "derby") ==> Rescued(mask, "or", "derby", f))
      && (Comparable(f, "desc") ==> Rescued(mask, "orderby", "desc", f))
  {
    if Comparable(f, "derby") && !Rescued(mask, "or", "derby", f) {
      var t := Unrescued(mask, "or", "derby", f);
      NotScreened(mask, "", "or", t, f);
    } else if Comparable(f, "desc") && !Rescued(mask, "orderby", "desc", f) {
      var t := Unrescued(mask, "orderby", "desc", f);
      NotScreened(mask, "", "orderby", t, f);
    } else {
      forall w: string, k: string, w2: string, t: string | Spaces(w) && Keyword(k) && Spaces(w2) && StartsWithField(t, f)
        ensures RejectsClause(mask, w + k + w2 + t)
      {
        RescuedIsScreened(mask, w, k, w2, t, f);
      }
    }
  }

  // ---------------------------------------------------------------- a single mask

  lemma NotRejected(f: string, t: string)
    requires f != "" && (t == "" || t[0] != f[0] || |t| < |f|)
    ensures !RejectsToken({f}, t)
  {
    forall d | 0 <= d < |t| ensures t[..d] != f {
      assert d > 0 ==> t[..d][0] == t[0];
    }
  }

  /** A single mask does not see a clause of which too little is left. */
  lemma SoloEscapes(f: string, s: string)
    requires f != "" && f[0] == 'd' && Plain(s) && "orderby" <= s && Cut(s) <= |s| && |s| - Cut(s) < |f|
    ensures !RejectsClause({f}, s)
  {
    PlainClause({f}, s);
    NotRejected(f, s);
    NotRejected(f, s[Cut(s)..]);
  }

  lemma SoloUnrescued(f: string, k: string, word: string)
    requires Canonical(f) && RunsInto(k, word) && Comparable(f, word)
    ensures !Rescued({f}, k, word, f)
  {
    RunsIntoOrderBy(k, word);
    if word <= f {
      LowerJoin(k, f);
      assert k + word <= k + f;
      PlainStarts(k + f, "orderbydesc");
      SoloEscapes(f, k + f);
    }
  }

  /** With one mask only, nothing rescues: screening is complete exactly when the field and the words derby
      and desc are no beginnings of each other. */
  lemma SingleMaskExact(f: string)
    requires Canonical(f)
    ensures Screened({f}, f) <==> !Comparable(f, "derby") && !Comparable(f, "desc")
  {
    ScreenedExact({f}, f);
    if Comparable(f, "derby") {
      SoloUnrescued(f, "or", "derby");
    }
    if Comparable(f, "desc") {
      SoloUnrescued(f, "orderby", "desc");
    }
  }

  /** On two inputs: a field that starts with desc, and one that is a beginning of desc. */
  lemma {:induction false} DescriptionIsMissed()
    ensures !RejectsClause({"description"}, "orderby" + "description")
    ensures !RejectsClause({"des"}, "orderby" + "desc")
  {
    ReadsDesc("orderby" + "description");
    SoloEscapes("description", "orderby" + "description");
    ReadsDesc("orderby" + "desc");
    SoloEscapes("des", "orderby" + "desc");
  }

  lemma ReadsDesc(s: string)
    requires s == "orderbydescription" || s == "orderbydesc"
    ensures Plain(s) && "orderby" <= s && Cut(s) == 11
  {
    assert s[..7] == "orderby" && s[..11] == "orderbydesc";
    assert Lower(s) == s;
    PlainStarts(s, "orderbydesc");
  }
}
