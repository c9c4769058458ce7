/** Two readers of the same policy settings: the loader of authz/actor-policy.ts, which throws at the
    first fault, and the posture validator of authz/production-posture-core.ts, which lists all.

    Number(value) is a parameter: it gives the integer a setting denotes, if any. */
module PolicyConfig {
  import opened EncodedQuery
  import opened Names
  import opened QueryScreening
  import opened Wrappers

  // ---------------------------------------------------------------- the shared grammar

  function SplitOn(s: string, sep: char): (r: seq<string>)
    ensures r != []
  {
    if s == "" then [""]
    else
      var rest := SplitOn(s[1..], sep);
      if s[0] == sep then [""] + rest else [[s[0]] + rest[0]] + rest[1..]
  }

  function TrimEnd(s: string): string { if s != "" && Space(s[|s| - 1]) then TrimEnd(s[..|s| - 1]) else s }

  function Trim(s: string): string { TrimEnd(TrimStart(s)) }

  function Kept(parts: seq<string>): seq<string> {
    if parts == [] then [] else (if Trim(parts[0]) == "" then [] else [Trim(parts[0])]) + Kept(parts[1..])
  }

  /** A setting as both readers see it: whether it has text, and its trimmed non-empty items. */
  datatype Setting = Setting(hasText: bool, items: seq<string>)

  function Read(value: Option<string>, sep: char): Setting {
    Setting(value.Some? && Trim(value.value) != "", Kept(SplitOn(if value.Some? then value.value else "", sep)))
  }

  function Csv(raw: string): seq<string> { Read(Some(raw), ',').items }

  function Colon(entry: string): (i: int)
    ensures -1 <= i < |entry|
  {
    if entry == "" then -1 else if entry[0] == ':' then 0
    else if Colon(entry[1..]) == -1 then -1 else 1 + Colon(entry[1..])
  }

  /** An entry cut at its first colon, which must not come first. */
  datatype Entry = Malformed(entry: string) | Entry(entry: string, table: string, rawValue: string)

  function Cut(entry: string): Entry {
    if Colon(entry) > 0 then Entry(entry, Trim(entry[..Colon(entry)]), entry[Colon(entry) + 1..]) else Malformed(entry)
  }

  function CutAll(items: seq<string>): (r: seq<Entry>)
    ensures |r| == |items| && forall i :: 0 <= i < |items| ==> r[i] == Cut(items[i])
  {
    seq(|items|, i requires 0 <= i < |items| => Cut(items[i]))
  }

  /** A table setting: its entries, cut. */
  datatype TableSetting = TableSetting(hasText: bool, entries: seq<Entry>)

  function ReadTables(value: Option<string>): TableSetting {
    var s := Read(value, ';');
    TableSetting(s.hasText, CutAll(s.items))
  }

  function JoinedWith(parts: seq<string>, sep: char): string {
    if parts == [] then "" else if |parts| == 1 then parts[0] else parts[0] + [sep] + JoinedWith(parts[1..], sep)
  }

  /** The parts are what stands between the separators. */
  lemma {:induction false} PartsAreTheSplit(s: string, sep: char)
    ensures JoinedWith(SplitOn(s, sep), sep) == s && forall p <- SplitOn(s, sep) :: sep !in p
  {
    if s != "" {
      var rest := SplitOn(s[1..], sep);
      PartsAreTheSplit(s[1..], sep);
      if s[0] == sep {
        assert ([""] + rest)[1..] == rest;
        assert s == "" + [sep] + s[1..];
      } else {
        assert SplitOn(s, sep)[1..] == rest[1..];
        assert s == [s[0]] + s[1..];
      }
    }
  }

  /** Trimming takes the spaces at both ends and nothing else. */
  lemma TrimTakesSpaces(s: string) returns (before: string, after: string)
    ensures s == before + Trim(s) + after && Spaces(before) && Spaces(after)
    ensures Trim(s) != "" ==> !Space(Trim(s)[0]) && !Space(Trim(s)[|Trim(s)| - 1])
  {
    var rest: string;
    before, rest := Trimmed(s);
    after := EndTrimmed(rest);
    FirstStays(s);
  }

  lemma {:induction false} EndTrimmed(s: string) returns (after: string)
    ensures s == TrimEnd(s) + after && Spaces(after)
    ensures TrimEnd(s) != "" ==> !Space(TrimEnd(s)[|TrimEnd(s)| - 1])
  {
    if s != "" && Space(s[|s| - 1]) {
      after := EndTrimmed(s[..|s| - 1]);
      after := after + [s[|s| - 1]];
      assert s == s[..|s| - 1] + [s[|s| - 1]];
    } else {
      after := "";
    }
  }

  lemma {:induction false} FirstStays(s: string)
    ensures TrimStart(s) != "" ==> !Space(TrimStart(s)[0])
  {
    if s != "" && Space(s[0]) {
      FirstStays(s[1..]);
    }
  }

  /** The kept items are the trimmed parts that are not empty, in their order. */
  lemma {:induction false} KeptAreTrimmed(a: seq<string>, part: string)
    ensures Kept([]) == [] && Kept(a + [part]) == Kept(a) + if Trim(part) == "" then [] else [Trim(part)]
  {
    if a == [] {
      assert [] + [part] == [part] && [part][1..] == [];
    } else {
      assert (a + [part])[1..] == a[1..] + [part];
      KeptAreTrimmed(a[1..], part);
    }
  }

  lemma {:induction false} ColonIsFirst(s: string)
    ensures if Colon(s) == -1 then ':' !in s else s[Colon(s)] == ':' && ':' !in s[..Colon(s)]
  {
    if s != "" && s[0] != ':' {
      ColonIsFirst(s[1..]);
      if Colon(s) != -1 {
        assert s[..Colon(s)] == [s[0]] + s[1..][..Colon(s) - 1];
      }
    }
  }

  /** An entry is cut at its first colon, and malformed without one or when it comes first. */
  lemma CutExactly(entry: string)
    ensures Cut(entry).Malformed? <==> ':' !in entry || entry[0] == ':'
    ensures Cut(entry).entry == entry
    ensures Cut(entry).Entry? ==> exists i ::
      (0 < i < |entry| && entry[i] == ':' && ':' !in entry[..i] && Cut(entry).table == Trim(entry[..i]) && Cut(entry).rawValue == entry[i + 1..])
  {
    ColonIsFirst(entry);
    if Colon(entry) > 0 {
      assert entry[0] == entry[..Colon(entry)][0];
    }
  }

  /** The two kinds of table setting and what their entries may hold. */
  datatype Kind = FieldMasks | RowFilters

  datatype Value = Fields(fields: seq<string>) | Filter(query: string)

  predicate ValueOk(kind: Kind, raw: string) {
    match kind
    case FieldMasks => Csv(raw) != [] && forall f <- Csv(raw) :: FieldName(f)
    case RowFilters => Trim(raw) != ""
  }

  function ValueOf(kind: Kind, raw: string): Value {
    match kind
    case FieldMasks => Fields(Csv(raw))
    case RowFilters => Filter(Trim(raw))
  }

  // ---------------------------------------------------------------- what each reader accepts

  /** Assigning this key to a plain object sets its prototype and creates no property. */
  const PROTO := "__proto__"

  predicate EntryOk(kind: Kind, e: Entry) { e.Entry? && TableName(e.table) && ValueOk(kind, e.rawValue) }

  predicate NotOnlySeparators<T>(hasText: bool, items: seq<T>) { hasText ==> items != [] }

  predicate EntriesOk(kind: Kind, s: TableSetting) {
    NotOnlySeparators(s.hasText, s.entries) && forall i :: 0 <= i < |s.entries| ==> EntryOk(kind, s.entries[i])
  }

  predicate TablesOk(s: Setting) {
    NotOnlySeparators(s.hasText, s.items) && forall i :: 0 <= i < |s.items| ==> TableName(s.items[i])
  }

  predicate SameTable(d: Entry, e: Entry) { d.Entry? && e.Entry? && d.table == e.table }

  /** No table is named twice. */
  predicate Distinct(es: seq<Entry>) { forall i, j :: 0 <= i < j < |es| ==> !SameTable(es[i], es[j]) }

  predicate IsProto(e: Entry) { e.Entry? && e.table == PROTO }

  /** No table but the prototype key is named twice. */
  predicate DistinctKeys(es: seq<Entry>) { forall i, j :: 0 <= i < j < |es| && SameTable(es[i], es[j]) ==> IsProto(es[i]) }

  predicate SafeEntry(e: Entry) { e.Entry? ==> !HasStructural(Trim(e.rawValue)) }

  predicate PositiveOk(number: string -> Option<int>, value: Option<string>) {
    value.Some? ==> number(value.value).Some? && number(value.value).value >= 1
  }

  datatype Settings = Settings(allowlist: Setting, fieldMasks: TableSetting, rowFilters: TableSetting, maxRows: Option<string>, maxBytes: Option<string>)

  predicate Loads(number: string -> Option<int>, s: Settings) {
    && TablesOk(s.allowlist)
    && EntriesOk(FieldMasks, s.fieldMasks) && DistinctKeys(s.fieldMasks.entries)
    && EntriesOk(RowFilters, s.rowFilters) && DistinctKeys(s.rowFilters.entries)
    && (forall i :: 0 <= i < |s.rowFilters.entries| && !IsProto(s.rowFilters.entries[i]) ==> SafeEntry(s.rowFilters.entries[i]))
    && PositiveOk(number, s.maxRows) && PositiveOk(number, s.maxBytes)
  }

  predicate Clean(number: string -> Option<int>, s: Settings) {
    && TablesOk(s.allowlist)
    && EntriesOk(FieldMasks, s.fieldMasks) && Distinct(s.fieldMasks.entries)
    && EntriesOk(RowFilters, s.rowFilters) && Distinct(s.rowFilters.entries)
    && (forall i :: 0 <= i < |s.rowFilters.entries| ==> SafeEntry(s.rowFilters.entries[i]))
    && PositiveOk(number, s.maxRows) && PositiveOk(number, s.maxBytes)
  }

  datatype Env = Env(allowlist: Option<string>, fieldMasks: Option<string>, rowFilters: Option<string>,
                     maxRows: Option<string>, maxBytes: Option<string>)

  function ReadAll(env: Env): Settings {
    Settings(Read(env.allowlist, ','), ReadTables(env.fieldMasks), ReadTables(env.rowFilters), env.maxRows, env.maxBytes)
  }

  // ---------------------------------------------------------------- the loader

  /** The own properties of the record the loader builds. */
  function Put(out: map<string, Value>, table: string, v: Value): map<string, Value> {
    if table == PROTO then out else out[table := v]
  }

  /** The record holds exactly what the first n entries say. */
  ghost predicate Recorded(kind: Kind, out: map<string, Value>, es: seq<Entry>, n: nat)
    requires n <= |es|
  {
    && (forall i :: 0 <= i < n && es[i].Entry? && !IsProto(es[i]) ==> es[i].table in out && out[es[i].table] == ValueOf(kind, es[i].rawValue))
    && (forall t <- out :: t != PROTO && exists i :: 0 <= i < n && es[i].Entry? && es[i].table == t)
  }

  lemma {:induction false} OneMoreDistinct(kind: Kind, es: seq<Entry>, n: nat, out: map<string, Value>)
    requires n < |es| && Recorded(kind, out, es, n) && DistinctKeys(es[..n]) && es[n].Entry? && es[n].table !in out
    ensures DistinctKeys(es[..n + 1])
  {
    forall i, j | 0 <= i < j < n + 1 && SameTable(es[i], es[j]) ensures IsProto(es[i]) {
      if j < n {
        assert es[..n][i] == es[i] && es[..n][j] == es[j];
      }
    }
  }

  lemma OneMoreRecorded(kind: Kind, es: seq<Entry>, n: nat, out: map<string, Value>)
    requires n < |es| && Recorded(kind, out, es, n) && es[n].Entry? && es[n].table !in out
    ensures Recorded(kind, Put(out, es[n].table, ValueOf(kind, es[n].rawValue)), es, n + 1)
  {
  }

  lemma DuplicateFound(kind: Kind, es: seq<Entry>, n: nat, out: map<string, Value>)
    requires n < |es| && Recorded(kind, out, es, n) && es[n].Entry? && es[n].table in out
    ensures !DistinctKeys(es)
  {
    var i :| 0 <= i < n && es[i].Entry? && es[i].table == es[n].table;
    assert SameTable(es[i], es[n]);
  }

  method ParseValue(kind: Kind, raw: string) returns (v: Option<Value>)
    ensures v == if ValueOk(kind, raw) then Some(ValueOf(kind, raw)) else None
  {
    match kind
    case FieldMasks =>
      var fields := Csv(raw);
      if |fields| == 0 {
        return None;
      }
      var bad := FirstBadField(fields);
      v := if bad < |fields| then None else Some(Fields(fields));
    case RowFilters =>
      var filter := Trim(raw);
      v := if filter == "" then None else Some(Filter(filter));
  }

  method FirstBadField(fields: seq<string>) returns (i: nat)
    ensures i <= |fields| && (i < |fields| ==> !FieldName(fields[i]))
    ensures i == |fields| <==> forall f <- fields :: FieldName(f)
    ensures i == |fields| <==>
      forall f <- fields :: 1 <= |f| <= 80 && forall i :: 0 <= i < |f| ==> 'a' <= f[i] <= 'z' || '0' <= f[i] <= '9' || f[i] == '_' || f[i] == '.'
  {
    i := 0;
    while i < |fields| && FieldName(fields[i])
      invariant i <= |fields| && forall j :: 0 <= j < i ==> FieldName(fields[j])
    {
      i := i + 1;
    }
    if i < |fields| {
      assert fields[i] in fields;
    }
  }

  method ParseTableScopedConfig(kind: Kind, s: TableSetting) returns (r: Option<map<string, Value>>)
    ensures r.Some? <==> EntriesOk(kind, s) && DistinctKeys(s.entries)
    ensures r.Some? ==> Recorded(kind, r.value, s.entries, |s.entries|)
  {
    var out: map<string, Value> := map[];
    var entries := s.entries;
    if s.hasText && |entries| == 0 {
      return None;
    }
    for i := 0 to |entries|
      invariant forall j :: 0 <= j < i ==> EntryOk(kind, entries[j])
      invariant DistinctKeys(entries[..i]) && Recorded(kind, out, entries, i)
    {
      var e := entries[i];
      if e.Malformed? || !TableName(e.table) {
        return None;
      }
      if e.table in out {
        DuplicateFound(kind, entries, i, out);
        return None;
      }
      var v := ParseValue(kind, e.rawValue);
      if v.None? {
        return None;
      }
      OneMoreDistinct(kind, entries, i, out);
      OneMoreRecorded(kind, entries, i, out);
      out := Put(out, e.table, v.value);
    }
    assert entries[..|entries|] == entries;
    r := Some(out);
  }

  method ParseTableAllowlist(s: Setting) returns (r: Option<seq<string>>)
    ensures r == if TablesOk(s) then Some(s.items) else None
    ensures r.Some? <==>
      && (s.hasText ==> s.items != [])
      && forall t <- s.items :: 1 <= |t| <= 80 && forall i :: 0 <= i < |t| ==> 'a' <= t[i] <= 'z' || '0' <= t[i] <= '9' || t[i] == '_'
  {
    if s.hasText && |s.items| == 0 {
      return None;
    }
    for i := 0 to |s.items|
      invariant forall j :: 0 <= j < i ==> TableName(s.items[j])
    {
      if !TableName(s.items[i]) {
        return None;
      }
    }
    r := Some(s.items);
  }

  method ParsePositiveInt(number: string -> Option<int>, value: Option<string>, default: int) returns (r: Option<int>)
    ensures r == if value.None? then Some(default) else if PositiveOk(number, value) then number(value.value) else None
    ensures value.Some? ==> (r.Some? <==> number(value.value).Some? && number(value.value).value >= 1) && (r.Some? ==> r == number(value.value))
  {
    if value.None? {
      return Some(default);
    }
    var n := number(value.value);
    if n.None? || n.value < 1 {
      return None;
    }
    r := n;
  }

  predicate Safe(v: Value) { v.Filter? ==> !HasStructural(v.query) }

  method RowFiltersSafe(filters: map<string, Value>) returns (safe: bool)
    ensures safe <==> forall t <- filters :: Safe(filters[t])
  {
    var todo := filters.Keys;
    while todo != {}
      invariant todo <= filters.Keys
      invariant forall t <- filters.Keys - todo :: Safe(filters[t])
    {
      var t :| t in todo;
      todo := todo - {t};
      if filters[t].Filter? {
        var bad := HasEncodedQueryStructuralOperator(filters[t].query);
        if bad {
          return false;
        }
      }
    }
    safe := true;
  }

  lemma FilterIsEntry(filters: map<string, Value>, es: seq<Entry>, i: nat)
    requires i < |es| && Recorded(RowFilters, filters, es, |es|) && es[i].Entry? && !IsProto(es[i])
    ensures es[i].table in filters && (Safe(filters[es[i].table]) <==> SafeEntry(es[i]))
  {
    assert filters[es[i].table] == ValueOf(RowFilters, es[i].rawValue);
  }

  lemma FiltersAgree(filters: map<string, Value>, es: seq<Entry>)
    requires Recorded(RowFilters, filters, es, |es|)
    ensures (forall t <- filters :: Safe(filters[t])) <==>
      forall i :: 0 <= i < |es| && !IsProto(es[i]) ==> SafeEntry(es[i])
  {
    if forall t <- filters :: Safe(filters[t]) {
      forall i | 0 <= i < |es| && !IsProto(es[i]) ensures SafeEntry(es[i]) {
        if es[i].Entry? {
          FilterIsEntry(filters, es, i);
        }
      }
    } else {
      var t :| t in filters && !Safe(filters[t]);
      var i :| 0 <= i < |es| && es[i].Entry? && es[i].table == t;
      FilterIsEntry(filters, es, i);
    }
  }

  datatype Policy = Policy(tables: seq<string>, fieldMasks: map<string, Value>, rowFilters: map<string, Value>, maxRows: int, maxBytes: int)

  const DENY_ALL := Policy([], map[], map[], 1, 1)

  predicate Unconfigured(s: Settings) {
    !s.allowlist.hasText && !s.fieldMasks.hasText && !s.rowFilters.hasText && s.maxRows.None? && s.maxBytes.None?
  }

  /** The policy says what the settings say; with no setting at all it denies everything. */
  ghost predicate Reflects(number: string -> Option<int>, p: Policy, s: Settings) {
    if Unconfigured(s) then p == Policy([], map[], map[], 1, 1)
    else
      && p.tables == s.allowlist.items
      && Recorded(FieldMasks, p.fieldMasks, s.fieldMasks.entries, |s.fieldMasks.entries|)
      && Recorded(RowFilters, p.rowFilters, s.rowFilters.entries, |s.rowFilters.entries|)
      && p.maxRows == (if s.maxRows.None? || number(s.maxRows.value).None? then 10_000 else number(s.maxRows.value).value)
      && p.maxBytes == (if s.maxBytes.None? || number(s.maxBytes.value).None? then 5_000_000 else number(s.maxBytes.value).value)
  }

  method LoadSettings(number: string -> Option<int>, s: Settings) returns (r: Option<Policy>)
    requires !s.rowFilters.hasText ==> s.rowFilters.entries == []
    ensures r.Some? <==> Loads(number, s)
    ensures r.Some? ==> forall t <- r.value.rowFilters :: Safe(r.value.rowFilters[t])
    ensures r.Some? ==> Reflects(number, r.value, s)
  {
    var allow := ParseTableAllowlist(s.allowlist);
    if allow.None? {
      return None;
    }
    var masks := ParseTableScopedConfig(FieldMasks, s.fieldMasks);
    if masks.None? {
      return None;
    }
    var filters := ParseTableScopedConfig(RowFilters, s.rowFilters);
    if filters.None? {
      return None;
    }
    FiltersAgree(filters.value, s.rowFilters.entries);
    if !s.allowlist.hasText && !s.fieldMasks.hasText && !s.rowFilters.hasText && s.maxRows.None? && s.maxBytes.None? {
      return Some(DENY_ALL);
    }
    var maxRows := ParsePositiveInt(number, s.maxRows, 10_000);
    if maxRows.None? {
      return None;
    }
    var maxBytes := ParsePositiveInt(number, s.maxBytes, 5_000_000);
    if maxBytes.None? {
      return None;
    }
    var safe := RowFiltersSafe(filters.value);
    if !safe {
      return None;
    }
    r := Some(Policy(allow.value, masks.value, filters.value, maxRows.value, maxBytes.value));
  }

  /** The loader accepts exactly these settings, and no policy it builds has a filter that a caller
      could escape. */
  method LoadActorPolicy(number: string -> Option<int>, env: Env) returns (r: Option<Policy>)
    ensures r.Some? <==> Loads(number, ReadAll(env))
    ensures r.Some? ==> forall t <- r.value.rowFilters :: Safe(r.value.rowFilters[t])
    ensures r.Some? ==> Reflects(number, r.value, ReadAll(env))
  {
    NoTextNoItems(env.rowFilters, ';');
    r := LoadSettings(number, ReadAll(env));
  }

  predicate Blank(s: string) { forall i :: 0 <= i < |s| ==> Space(s[i]) }

  lemma {:induction false} BlankSplit(s: string, sep: char)
    requires Blank(s) && !Space(sep)
    ensures SplitOn(s, sep) == [s]
  {
    if s != "" {
      BlankSplit(s[1..], sep);
      assert [s[0]] + s[1..] == s;
    }
  }

  lemma {:induction false} BlankTrims(s: string)
    requires Blank(s)
    ensures Trim(s) == ""
  {
    if s != "" {
      BlankTrims(s[1..]);
    }
  }

  lemma {:induction false} TrimEndKeeps(s: string)
    requires TrimEnd(s) == ""
    ensures Blank(s)
  {
    if s != "" {
      TrimEndKeeps(s[..|s| - 1]);
      forall i | 0 <= i < |s| ensures Space(s[i]) {
        assert i < |s| - 1 ==> s[..|s| - 1][i] == s[i];
      }
    }
  }

  lemma {:induction false} TrimStartKeeps(s: string)
    requires Blank(TrimStart(s))
    ensures Blank(s)
  {
    if s != "" && Space(s[0]) {
      TrimStartKeeps(s[1..]);
      forall i | 0 <= i < |s| ensures Space(s[i]) {
        assert i > 0 ==> s[1..][i - 1] == s[i];
      }
    }
  }

  /** A setting that is absent or blank has no items. */
  lemma NoTextNoItems(value: Option<string>, sep: char)
    requires !Space(sep)
    ensures !Read(value, sep).hasText ==> Read(value, sep).items == []
  {
    var s := if value.Some? then value.value else "";
    if Trim(s) == "" {
      TrimEndKeeps(TrimStart(s));
      TrimStartKeeps(s);
      BlankSplit(s, sep);
      assert [s][1..] == [] && Kept([s]) == [] + Kept([]);
    }
  }

  // ---------------------------------------------------------------- the validator

  datatype Violation =
    | NoTableNames | InvalidTable(table: string) | NoEntries | BadShape(entry: string) | InvalidEntryTable(table: string, entry: string)
    | DuplicateTable(table: string, entry: string) | NoFields(entry: string) | InvalidField(field: string, entry: string)
    | NoFilter(entry: string) | SelfDefeating | NotPositive

  method ValidateTableAllowlist(s: Setting) returns (violations: seq<Violation>)
    ensures violations == [] <==> TablesOk(s)
  {
    violations := [];
    if s.hasText && |s.items| == 0 {
      violations := [NoTableNames];
    }
    for i := 0 to |s.items|
      invariant violations == [] <==> NotOnlySeparators(s.hasText, s.items) && forall j :: 0 <= j < i ==> TableName(s.items[j])
    {
      if !TableName(s.items[i]) {
        violations := violations + [InvalidTable(s.items[i])];
      }
    }
  }

  /** With no violation the parsed entries are all of them, in order. */
  method ActorPolicyTableEntries(s: TableSetting) returns (violations: seq<Violation>, parsed: seq<Entry>)
    ensures violations == [] <==> NotOnlySeparators(s.hasText, s.entries) && forall i :: 0 <= i < |s.entries| ==> s.entries[i].Entry?
    ensures forall e <- parsed :: e.Entry?
    ensures violations == [] ==> parsed == s.entries
  {
    violations, parsed := [], [];
    if s.hasText && |s.entries| == 0 {
      violations := [NoEntries];
    }
    for i := 0 to |s.entries|
      invariant violations == [] <==> NotOnlySeparators(s.hasText, s.entries) && forall j :: 0 <= j < i ==> s.entries[j].Entry?
      invariant forall e <- parsed :: e.Entry?
      invariant violations == [] ==> parsed == s.entries[..i]
    {
      if s.entries[i].Malformed? {
        violations := violations + [BadShape(s.entries[i].entry)];
        continue;
      }
      parsed := parsed + [s.entries[i]];
    }
    assert s.entries[..|s.entries|] == s.entries;
  }

  predicate NewTable(es: seq<Entry>, i: nat)
    requires i < |es|
  {
    es[i].Entry? && TableName(es[i].table) && forall j :: 0 <= j < i ==> !SameTable(es[j], es[i])
  }

  /** The tables seen so far: those of the entries before with a valid name. */
  ghost predicate Seen(seen: set<string>, es: seq<Entry>, n: nat)
    requires n <= |es|
  {
    forall t :: t in seen <==> TableName(t) && exists j :: 0 <= j < n && es[j].Entry? && es[j].table == t
  }

  method ValidateUniqueTable(seen: set<string>, e: Entry) returns (violations: seq<Violation>, seenAfter: set<string>)
    requires e.Entry?
    ensures violations == [] <==> TableName(e.table) && e.table !in seen
    ensures seenAfter == if TableName(e.table) then seen + {e.table} else seen
  {
    if !TableName(e.table) {
      return [InvalidEntryTable(e.table, e.entry)], seen;
    }
    if e.table in seen {
      return [DuplicateTable(e.table, e.entry)], seen;
    }
    return [], seen + {e.table};
  }

  /** Field names are only looked at when the table is valid and new. */
  method ValidateFields(e: Entry, validTable: bool) returns (violations: seq<Violation>)
    requires e.Entry?
    ensures validTable ==> (violations == [] <==> ValueOk(FieldMasks, e.rawValue))
  {
    violations := [];
    var fields := Csv(e.rawValue);
    if |fields| == 0 {
      violations := [NoFields(e.entry)];
    }
    if validTable {
      var more := BadFields(fields, e.entry);
      violations := violations + more;
    }
  }

  method BadFields(fields: seq<string>, entry: string) returns (violations: seq<Violation>)
    ensures violations == [] <==> forall f <- fields :: FieldName(f)
  {
    violations := [];
    for i := 0 to |fields|
      invariant violations == [] <==> forall j :: 0 <= j < i ==> FieldName(fields[j])
    {
      if !FieldName(fields[i]) {
        violations := violations + [InvalidField(fields[i], entry)];
      }
    }
    assert (forall f <- fields :: FieldName(f)) <==> forall j :: 0 <= j < |fields| ==> FieldName(fields[j]);
  }

  method ValidateFilter(e: Entry) returns (violations: seq<Violation>)
    requires e.Entry?
    ensures violations == [] <==> ValueOk(RowFilters, e.rawValue) && SafeEntry(e)
  {
    violations := [];
    var filter := Trim(e.rawValue);
    if filter == "" {
      violations := [NoFilter(e.entry)];
    } else {
      var bad := HasEncodedQueryStructuralOperator(filter);
      if bad {
        violations := [SelfDefeating];
      }
    }
  }

  predicate ParsedOk(kind: Kind, es: seq<Entry>, i: nat)
    requires i < |es|
  {
    NewTable(es, i) && ValueOk(kind, es[i].rawValue) && (kind == RowFilters ==> SafeEntry(es[i]))
  }

  lemma SeenMore(seen: set<string>, es: seq<Entry>, n: nat)
    requires n < |es| && Seen(seen, es, n) && es[n].Entry?
    ensures Seen(if TableName(es[n].table) then seen + {es[n].table} else seen, es, n + 1)
    ensures TableName(es[n].table) && es[n].table !in seen <==> NewTable(es, n)
  {
    if !NewTable(es, n) && TableName(es[n].table) {
      var j :| 0 <= j < n && SameTable(es[j], es[n]);
      assert es[j].table == es[n].table;
    }
  }

  /** What one entry adds to the violations. */
  method ValidateEntry(kind: Kind, e: Entry, validTable: bool) returns (violations: seq<Violation>)
    requires e.Entry?
    ensures validTable ==> (violations == [] <==> ValueOk(kind, e.rawValue) && (kind == RowFilters ==> SafeEntry(e)))
  {
    match kind
    case FieldMasks => violations := ValidateFields(e, validTable);
    case RowFilters => violations := ValidateFilter(e);
  }

  /** The loop of both validators. */
  method ValidateEntries(kind: Kind, es: seq<Entry>) returns (violations: seq<Violation>)
    requires forall e <- es :: e.Entry?
    ensures violations == [] <==> forall i :: 0 <= i < |es| ==> ParsedOk(kind, es, i)
  {
    violations := [];
    var seen: set<string> := {};
    for i := 0 to |es|
      invariant Seen(seen, es, i)
      invariant violations == [] <==> forall j :: 0 <= j < i ==> ParsedOk(kind, es, j)
    {
      SeenMore(seen, es, i);
      var unique, after := ValidateUniqueTable(seen, es[i]);
      var values := ValidateEntry(kind, es[i], unique == []);
      assert unique == [] && values == [] <==> ParsedOk(kind, es, i);
      violations := violations + (unique + values);
      seen := after;
    }
  }

  method ValidateTableSetting(kind: Kind, s: TableSetting) returns (violations: seq<Violation>)
    ensures violations == [] <==>
      EntriesOk(kind, s) && Distinct(s.entries) && (kind == RowFilters ==> forall i :: 0 <= i < |s.entries| ==> SafeEntry(s.entries[i]))
  {
    var shape, parsed := ActorPolicyTableEntries(s);
    var more := ValidateEntries(kind, parsed);
    violations := shape + more;
    ParsedOkMeans(kind, s.entries);
    AllParsedOk(kind, s.entries);
  }

  lemma ParsedOkMeans(kind: Kind, es: seq<Entry>)
    ensures (forall i :: 0 <= i < |es| ==> ParsedOk(kind, es, i)) ==>
      && (forall i :: 0 <= i < |es| ==> EntryOk(kind, es[i]) && (kind == RowFilters ==> SafeEntry(es[i])))
      && Distinct(es)
  {
    if forall i :: 0 <= i < |es| ==> ParsedOk(kind, es, i) {
      forall i | 0 <= i < |es| ensures EntryOk(kind, es[i]) && (kind == RowFilters ==> SafeEntry(es[i])) {
        assert ParsedOk(kind, es, i);
      }
      forall i, j | 0 <= i < j < |es| ensures !SameTable(es[i], es[j]) {
        assert ParsedOk(kind, es, j);
      }
    }
  }

  lemma AllParsedOk(kind: Kind, es: seq<Entry>)
    ensures Distinct(es) && (forall i :: 0 <= i < |es| ==> EntryOk(kind, es[i]) && (kind == RowFilters ==> SafeEntry(es[i]))) ==>
      forall i :: 0 <= i < |es| ==> ParsedOk(kind, es, i)
  {
  }

  method ValidatePositiveInt(number: string -> Option<int>, value: Option<string>) returns (violations: seq<Violation>)
    ensures violations == [] <==> PositiveOk(number, value)
  {
    violations := [];
    if value.None? {
      return;
    }
    var n := number(value.value);
    if n.None? || n.value < 1 {
      violations := [NotPositive];
    }
  }

  /** The validator reports nothing exactly on these settings. */
  method ValidateActorPolicyEnv(number: string -> Option<int>, env: Env) returns (violations: seq<Violation>)
    ensures violations == [] <==> Clean(number, ReadAll(env))
  {
    var s := ReadAll(env);
    violations := ValidateTableAllowlist(s.allowlist);
    var masks := ValidateTableSetting(FieldMasks, s.fieldMasks);
    var filters := ValidateTableSetting(RowFilters, s.rowFilters);
    var rows := ValidatePositiveInt(number, s.maxRows);
    var bytes := ValidatePositiveInt(number, s.maxBytes);
    violations := violations + masks + filters + rows + bytes;
  }

  // ---------------------------------------------------------------- they agree

  /** The prototype key is named at most once. */
  predicate OneProto(es: seq<Entry>) { forall i, j :: 0 <= i < j < |es| ==> !(IsProto(es[i]) && IsProto(es[j])) }

  /** The settings on which the two cannot differ: the prototype key at most once in each, and not with
      a structural filter. */
  predicate ProtoRegular(s: Settings) {
    && OneProto(s.fieldMasks.entries) && OneProto(s.rowFilters.entries)
    && forall i :: 0 <= i < |s.rowFilters.entries| && IsProto(s.rowFilters.entries[i]) ==> SafeEntry(s.rowFilters.entries[i])
  }

  lemma DistinctSplits(es: seq<Entry>)
    ensures Distinct(es) <==> DistinctKeys(es) && OneProto(es)
  {
    if !Distinct(es) && DistinctKeys(es) {
      var i, j :| 0 <= i < j < |es| && SameTable(es[i], es[j]);
      assert IsProto(es[i]) && IsProto(es[j]);
    }
    forall i, j | 0 <= i < j < |es| && IsProto(es[i]) && IsProto(es[j]) ensures SameTable(es[i], es[j]) {
    }
  }

  /** A clean posture always loads; a policy that loads is clean exactly when it uses the prototype key
      regularly, in particular when no table is called __proto__. */
  lemma PostureMeetsLoader(number: string -> Option<int>, env: Env)
    ensures Clean(number, ReadAll(env)) <==> Loads(number, ReadAll(env)) && ProtoRegular(ReadAll(env))
  {
    SettingsAgree(number, ReadAll(env));
  }

  lemma SettingsAgree(number: string -> Option<int>, s: Settings)
    ensures Clean(number, s) <==> Loads(number, s) && ProtoRegular(s)
  {
    DistinctSplits(s.fieldMasks.entries);
    DistinctSplits(s.rowFilters.entries);
  }

  predicate NamesProto(s: TableSetting) { exists e <- s.entries :: IsProto(e) }

  /** For tables of any other name the two readers accept the same settings. */
  lemma ReadersAgree(number: string -> Option<int>, env: Env)
    requires !NamesProto(ReadAll(env).fieldMasks) && !NamesProto(ReadAll(env).rowFilters)
    ensures Clean(number, ReadAll(env)) <==> Loads(number, ReadAll(env))
  {
    PostureMeetsLoader(number, env);
  }

  // ---------------------------------------------------------------- settings on which they differ

  lemma {:induction false} SplitFirst(a: string, sep: char, rest: string)
    requires sep !in a
    ensures SplitOn(a + [sep] + rest, sep) == [a] + SplitOn(rest, sep)
  {
    var s := a + [sep] + rest;
    if a == "" {
      assert s[1..] == rest;
    } else {
      assert s[1..] == a[1..] + [sep] + rest && [a[0]] + a[1..] == a;
      SplitFirst(a[1..], sep, rest);
    }
  }

  lemma {:induction false} SplitNone(a: string, sep: char)
    requires sep !in a
    ensures SplitOn(a, sep) == [a]
  {
    if a != "" {
      SplitNone(a[1..], sep);
      assert [a[0]] + a[1..] == a;
    }
  }

  /** No space at either end. */
  predicate Tight(s: string) { s != "" && !Space(s[0]) && !Space(s[|s| - 1]) }

  lemma TightStays(s: string)
    requires Tight(s)
    ensures Trim(s) == s
  {
  }

  lemma {:induction false} ColonAfter(t: string, v: string)
    requires ':' !in t
    ensures Colon(t + [':'] + v) == |t|
  {
    if t == "" {
      assert (t + [':'] + v)[0] == ':';
    } else {
      assert (t + [':'] + v)[1..] == t[1..] + [':'] + v;
      ColonAfter(t[1..], v);
    }
  }

  lemma CutTight(t: string, v: string)
    requires ':' !in t && Tight(t)
    ensures Cut(t + [':'] + v) == Entry(t + [':'] + v, t, v)
  {
    var e := t + [':'] + v;
    ColonAfter(t, v);
    assert e[..|t|] == t && e[|t| + 1..] == v;
    TightStays(t);
  }

  lemma OneItem(e: string, sep: char)
    requires Tight(e) && sep !in e
    ensures Read(Some(e), sep) == Setting(true, [e])
  {
    SplitNone(e, sep);
    TightStays(e);
    assert [e][1..] == [] && Kept([e]) == [e] + Kept([]);
  }

  lemma TwoItems(e: string, sep: char)
    requires Tight(e) && sep !in e
    ensures Read(Some(e + [sep] + e), sep) == Setting(true, [e, e])
  {
    var s := e + [sep] + e;
    SplitFirst(e, sep, e);
    SplitNone(e, sep);
    TightStays(e);
    TightStays(s);
    assert [e] + [e] == [e, e] && [e, e][1..] == [e] && [e][1..] == [];
    assert Kept([e]) == [e] + Kept([]);
  }

  lemma Unset(sep: char)
    requires !Space(sep)
    ensures Read(None, sep) == Setting(false, [])
  {
    NoTextNoItems(None, sep);
  }

  lemma ProtoEntry(proto: string, v: string)
    requires proto == PROTO && Tight(v) && ';' !in v
    ensures Tight(proto + [':'] + v) && ';' !in proto + [':'] + v
    ensures Cut(proto + [':'] + v) == Entry(proto + [':'] + v, proto, v) && TableName(proto)
  {
    CutTight(proto, v);
    assert forall c <- proto :: c != ';' by {
      assert forall i :: 0 <= i < |proto| ==> proto[i] != ';';
    }
  }

  lemma UnsetTables()
    ensures ReadTables(None) == TableSetting(false, [])
  {
    Unset(';');
  }

  lemma CutItems(items: seq<string>, es: seq<Entry>)
    requires |items| == |es| && forall i :: 0 <= i < |items| ==> Cut(items[i]) == es[i]
    ensures CutAll(items) == es
  {
  }

  lemma ReadOne(e: string, d: Entry)
    requires Tight(e) && ';' !in e && Cut(e) == d
    ensures ReadTables(Some(e)) == TableSetting(true, [d])
  {
    OneItem(e, ';');
    CutItems([e], [d]);
  }

  lemma ReadTwice(e: string, d: Entry)
    requires Tight(e) && ';' !in e && Cut(e) == d
    ensures ReadTables(Some(e + [';'] + e)) == TableSetting(true, [d, d])
  {
    TwoItems(e, ';');
    CutItems([e, e], [d, d]);
  }

  lemma MaskValue(v: string)
    requires FieldName(v) && Tight(v) && ',' !in v
    ensures ValueOk(FieldMasks, v)
  {
    OneItem(v, ',');
  }

  lemma FieldIsTight(v: string)
    requires FieldName(v)
    ensures Tight(v) && ',' !in v && ';' !in v
  {
  }

  lemma TwiceDiffers(number: string -> Option<int>, s: Settings, d: Entry)
    requires IsProto(d) && TableName(d.table) && ValueOk(FieldMasks, d.rawValue)
    requires s == Settings(Setting(false, []), TableSetting(true, [d, d]), TableSetting(false, []), None, None)
    ensures Loads(number, s) && !Clean(number, s)
  {
    assert SameTable(s.fieldMasks.entries[0], s.fieldMasks.entries[1]);
  }

  lemma StructuralDiffers(number: string -> Option<int>, s: Settings, d: Entry)
    requires IsProto(d) && TableName(d.table) && ValueOk(RowFilters, d.rawValue) && !SafeEntry(d)
    requires s == Settings(Setting(false, []), TableSetting(false, []), TableSetting(true, [d]), None, None)
    ensures Loads(number, s) && !Clean(number, s)
  {
    assert s.rowFilters.entries[0] == d;
  }

  lemma MaskEnv(x: string, ts: TableSetting, env: Env)
    requires env == Env(None, Some(x), None, None, None) && ReadTables(Some(x)) == ts
    ensures ReadAll(env) == Settings(Setting(false, []), ts, TableSetting(false, []), None, None)
  {
    UnsetTables();
    Unset(',');
  }

  lemma FilterEnv(x: string, ts: TableSetting, env: Env)
    requires env == Env(None, None, Some(x), None, None) && ReadTables(Some(x)) == ts
    ensures ReadAll(env) == Settings(Setting(false, []), TableSetting(false, []), ts, None, None)
  {
    UnsetTables();
    Unset(',');
  }

  /** A mask list that names the prototype key twice loads, and is reported. */
  lemma TwiceProtoLoads(number: string -> Option<int>, proto: string, v: string, e: string, env: Env)
    requires proto == PROTO && FieldName(v) && e == proto + [':'] + v
    requires env == Env(None, Some(e + [';'] + e), None, None, None)
    ensures Loads(number, ReadAll(env)) && !Clean(number, ReadAll(env))
  {
    FieldIsTight(v);
    ProtoEntry(proto, v);
    var d := Entry(e, proto, v);
    ReadTwice(e, d);
    MaskEnv(e + [';'] + e, TableSetting(true, [d, d]), env);
    MaskValue(v);
    TwiceDiffers(number, ReadAll(env), d);
  }

  /** A structural row filter for the prototype key loads, and is reported. */
  lemma StructuralProtoLoads(number: string -> Option<int>, proto: string, q: string, e: string, env: Env)
    requires proto == PROTO && Tight(q) && ';' !in q && HasStructural(q) && e == proto + [':'] + q
    requires env == Env(None, None, Some(e), None, None)
    ensures Loads(number, ReadAll(env)) && !Clean(number, ReadAll(env))
  {
    ProtoEntry(proto, q);
    var d := Entry(e, proto, q);
    ReadOne(e, d);
    FilterEnv(e, TableSetting(true, [d]), env);
    TightStays(q);
    StructuralDiffers(number, ReadAll(env), d);
  }

  const TWICE := "__proto__:name;__proto__:name"
  const STRUCTURAL := "__proto__:ORactive=true"

  lemma TwiceSpelled(proto: string, name: string)
    requires proto == PROTO && name == "name"
    ensures TWICE == (proto + [':'] + name) + [';'] + (proto + [':'] + name) && FieldName(name)
  {
  }

  lemma StructuralSpelled(proto: string, q: string)
    requires proto == PROTO && q == "ORactive=true"
    ensures STRUCTURAL == proto + [':'] + q && Tight(q) && ';' !in q && CARET !in q && Structural(q)
  {
    assert forall i :: 0 <= i < |q| ==> q[i] != ';' && q[i] != CARET;
    assert q[2] != ORDERBY[2];
  }

  /** Two settings an operator could write. */
  lemma {:induction false} ProtoSettings(number: string -> Option<int>, twice: Env, structural: Env)
    requires twice == Env(None, Some(TWICE), None, None, None)
    requires structural == Env(None, None, Some(STRUCTURAL), None, None)
    ensures Loads(number, ReadAll(twice)) && !Clean(number, ReadAll(twice))
    ensures Loads(number, ReadAll(structural)) && !Clean(number, ReadAll(structural))
  {
    MaskSetting(number, PROTO, "name", twice);
    FilterSetting(number, PROTO, "ORactive=true", structural);
  }

  lemma {:induction false} MaskSetting(number: string -> Option<int>, proto: string, name: string, env: Env)
    requires proto == PROTO && name == "name" && env == Env(None, Some(TWICE), None, None, None)
    ensures Loads(number, ReadAll(env)) && !Clean(number, ReadAll(env))
  {
    TwiceSpelled(proto, name);
    TwiceProtoLoads(number, proto, name, proto + [':'] + name, env);
  }

  lemma {:induction false} FilterSetting(number: string -> Option<int>, proto: string, q: string, env: Env)
    requires proto == PROTO && q == "ORactive=true" && env == Env(None, None, Some(STRUCTURAL), None, None)
    ensures Loads(number, ReadAll(env)) && !Clean(number, ReadAll(env))
  {
    StructuralSpelled(proto, q);
    WholeClause(q);
    StructuralProtoLoads(number, proto, q, proto + [':'] + q, env);
  }

  lemma WholeClause(q: string)
    requires CARET !in q && Structural(q)
    ensures HasStructural(q)
  {
    assert q[..|q|] == q;
    assert Clauses(q) == [q];
  }
}
