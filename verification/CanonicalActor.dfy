/** The string that is signed: auth/actor.ts on the host, x_mcp_verify.js in the instance.

    Both sides rebuild it independently, so it must come out the same on both, in plain ASCII, and
    no two actors may share one. */
module CanonicalActor {
  import opened Utf8

  const QUOTE: CodeUnit := 0x22
  const BACKSLASH: CodeUnit := 0x5C
  const COLON: CodeUnit := 0x3A
  const COMMA: CodeUnit := 0x2C
  const LOWER_U: CodeUnit := 0x75

  // ---------------------------------------------------------------- the escaped form

  function HexDigit(d: nat): (u: CodeUnit)
    requires d < 16
    ensures 0x30 <= u <= 0x66
  {
    if d < 10 then 0x30 + d else 0x61 + (d - 10)
  }

  /** Number.prototype.toString(16). */
  function Hex(n: nat): (u: Utf16)
    ensures u != []
    decreases n
  {
    if n < 16 then [HexDigit(n)] else Hex(n / 16) + [HexDigit(n % 16)]
  }

  function Hex4(c: CodeUnit): (u: Utf16)
    ensures |u| == 4
  {
    [HexDigit(c / 0x1000), HexDigit(c / 0x100 % 16), HexDigit(c / 16 % 16), HexDigit(c % 16)]
  }

  function Zeros(n: nat): Utf16 { seq(n, i => 0x30) }

  function EscapedUnit(c: CodeUnit): (u: Utf16)
    ensures u != [] && u[0] != QUOTE
  {
    if c == QUOTE then [BACKSLASH, QUOTE]
    else if c == BACKSLASH then [BACKSLASH, BACKSLASH]
    else if c < 0x20 || c >= 0x7F then [BACKSLASH, LOWER_U] + Hex4(c)
    else [c]
  }

  function Escaped(s: Utf16): Utf16 {
    if s == [] then [] else EscapedUnit(s[0]) + Escaped(s[1..])
  }

  function Quoted(s: Utf16): Utf16 { [QUOTE] + Escaped(s) + [QUOTE] }

  /** Padding the shortest hexadecimal text to four digits gives the four digits. */
  lemma {:induction false} PaddedHex(c: CodeUnit)
    ensures |Hex(c)| <= 4 && Zeros(4 - |Hex(c)|) + Hex(c) == Hex4(c)
  {
    if c >= 16 {
      assert Hex(c) == Hex(c / 16) + [HexDigit(c % 16)];
      if c >= 0x100 {
        assert c / 16 / 16 == c / 0x100;
        assert Hex(c / 16) == Hex(c / 0x100) + [HexDigit(c / 16 % 16)];
        if c >= 0x1000 {
          assert c / 0x100 / 16 == c / 0x1000;
          assert Hex(c / 0x100) == Hex(c / 0x1000) + [HexDigit(c / 0x100 % 16)];
        }
      }
    }
  }

  lemma OneMoreUnit(s: Utf16, i: nat)
    requires i < |s|
    ensures [QUOTE] + Escaped(s[..i + 1]) == [QUOTE] + Escaped(s[..i]) + EscapedUnit(s[i])
  {
    assert s[..i + 1] == s[..i] + [s[i]];
    EscapedAppend(s[..i], s[i]);
  }

  lemma {:induction false} EscapedAppend(s: Utf16, c: CodeUnit)
    ensures Escaped(s + [c]) == Escaped(s) + EscapedUnit(c)
  {
    if s == [] {
      assert [c][1..] == [] && [] + [c] == [c];
    } else {
      assert (s + [c])[1..] == s[1..] + [c];
      EscapedAppend(s[1..], c);
    }
  }

  /** c.toString(16).padStart(4, "0") */
  function PadStart(c: CodeUnit): (u: Utf16)
    ensures u == Hex4(c)
  {
    PaddedHex(c);
    var hex := Hex(c);
    Zeros(4 - |hex|) + hex
  }

  /** asciiJsonString of actor.ts. */
  method AsciiJsonString(s: Utf16) returns (out: Utf16)
    ensures out == Quoted(s)
  {
    out := [QUOTE];
    var i := 0;
    while i < |s|
      invariant 0 <= i <= |s| && out == [QUOTE] + Escaped(s[..i])
    {
      var c := s[i];
      ghost var before := out;
      if c == 0x22 {
        out := out + [BACKSLASH, QUOTE];
      } else if c == 0x5C {
        out := out + [BACKSLASH, BACKSLASH];
      } else if c < 0x20 || c >= 0x7F {
        out := out + ([BACKSLASH, LOWER_U] + PadStart(c));
      } else {
        out := out + [c];
      }
      assert out == before + EscapedUnit(c);
      OneMoreUnit(s, i);
      i := i + 1;
    }
    assert s[..|s|] == s;
    out := out + [QUOTE];
  }

  /** x_mcp_verify.js: a loop that prefixes zeros. */
  method ExecutorAsciiJsonString(s: Utf16) returns (out: Utf16)
    ensures out == Quoted(s)
  {
    out := [QUOTE];
    var i := 0;
    while i < |s|
      invariant 0 <= i <= |s| && out == [QUOTE] + Escaped(s[..i])
    {
      var c := s[i];
      ghost var before := out;
      if c == 0x22 {
        out := out + [BACKSLASH, QUOTE];
      } else if c == 0x5C {
        out := out + [BACKSLASH, BACKSLASH];
      } else if c < 0x20 || c >= 0x7F {
        var hex := PrefixZeros(c);
        out := out + ([BACKSLASH, LOWER_U] + hex);
      } else {
        out := out + [c];
      }
      assert out == before + EscapedUnit(c);
      OneMoreUnit(s, i);
      i := i + 1;
    }
    assert s[..|s|] == s;
    out := out + [QUOTE];
  }

  method PrefixZeros(c: CodeUnit) returns (hex: Utf16)
    ensures hex == Hex4(c)
  {
    PaddedHex(c);
    hex := Hex(c);
    hex := Prefixed(hex);
  }

  method Prefixed(text: Utf16) returns (hex: Utf16)
    requires |text| <= 4
    ensures hex == Zeros(4 - |text|) + text
  {
    hex := text;
    while |hex| < 4
      invariant |text| <= |hex| <= 4 && hex == Zeros(|hex| - |text|) + text
      decreases 4 - |hex|
    {
      hex := [0x30] + hex;
    }
  }

  // ---------------------------------------------------------------- the canonical string

  /** Nine texts in the fixed order: the keys, or the values of one actor. */
  type Nine = t: seq<Utf16> | |t| == 9 witness [[], [], [], [], [], [], [], [], []]

  /** issued_at goes in bare, the other values quoted. */
  const ISSUED_AT := 6

  function Part(keys: Nine, t: Nine, k: nat): Utf16
    requires k < 9
  {
    Quoted(keys[k]) + [COLON] + (if k == ISSUED_AT then t[k] else Quoted(t[k]))
  }

  /** The parts from k on, joined by commas. */
  function JoinedFrom(keys: Nine, t: Nine, k: nat): Utf16
    requires k < 9
    decreases |keys| - k
  {
    if k == 8 then Part(keys, t, 8) else Part(keys, t, k) + [COMMA] + JoinedFrom(keys, t, k + 1)
  }

  function Canonical(keys: Nine, t: Nine): Utf16 { [0x7B] + JoinedFrom(keys, t, 0) + [0x7D] }

  /** Decimal text of an integer, as String(n) gives it for safe integers. */
  function IntText(n: int): Utf16
    decreases if n < 0 then 1 - n else n
  {
    if n < 0 then [0x2D] + IntText(-n)
    else if n < 10 then [0x30 + n]
    else IntText(n / 10) + [0x30 + n % 10]
  }

  datatype SignedActorPayload = SignedActorPayload(
    mcp_actor_user_id: Utf16, mcp_actor_email: Utf16, snow_effective_user_sys_id: Utf16, instance: Utf16,
    request_id: Utf16, script_sha256: Utf16, issued_at: int, nonce: Utf16, reason: Utf16)

  function Texts(p: SignedActorPayload): Nine {
    [p.mcp_actor_user_id, p.mcp_actor_email, p.snow_effective_user_sys_id, p.instance, p.request_id,
     p.script_sha256, IntText(p.issued_at), p.nonce, p.reason]
  }

  /** The actor the executor received: the texts of its fields, null or absent ones left out. */
  type Received = map<Utf16, Utf16>

  /** String(undefined) */
  const UNDEFINED: Utf16 := [0x75, 0x6E, 0x64, 0x65, 0x66, 0x69, 0x6E, 0x65, 0x64]

  function TextAt(keys: Nine, actor: Received, k: nat): Utf16
    requires k < 9
  {
    if keys[k] in actor then actor[keys[k]] else if k == ISSUED_AT then UNDEFINED else []
  }

  function ReceivedTexts(keys: Nine, actor: Received): Nine {
    seq(9, k requires 0 <= k < 9 => TextAt(keys, actor, k))
  }

  function Join(parts: seq<Utf16>): Utf16 {
    if parts == [] then [] else if |parts| == 1 then parts[0]
    else parts[0] + [COMMA] + Join(parts[1..])
  }

  function PartsFrom(keys: Nine, t: Nine, k: nat): (r: seq<Utf16>)
    requires k <= 9
    ensures |r| == 9 - k
  {
    seq(9 - k, i requires 0 <= i < 9 - k => Part(keys, t, k + i))
  }

  lemma {:induction false} JoinParts(keys: Nine, t: Nine, k: nat)
    requires k < 9
    ensures Join(PartsFrom(keys, t, k)) == JoinedFrom(keys, t, k)
    decreases 9 - k
  {
    if k < 8 {
      assert PartsFrom(keys, t, k)[1..] == PartsFrom(keys, t, k + 1);
      assert PartsFrom(keys, t, k)[0] == Part(keys, t, k);
      JoinParts(keys, t, k + 1);
    } else {
      assert PartsFrom(keys, t, k) == [Part(keys, t, 8)];
    }
  }

  /** The host's canonicalize over its key list. */
  method Canonicalize(keys: Nine, payload: SignedActorPayload) returns (r: Utf16)
    ensures r == Canonical(keys, Texts(payload))
  {
    var values := Texts(payload);
    var parts: seq<Utf16> := [];
    for k := 0 to 9
      invariant |parts| == k && forall j :: 0 <= j < k ==> parts[j] == Part(keys, values, j)
    {
      var valStr := values[k];
      if k != ISSUED_AT {
        valStr := AsciiJsonString(values[k]);
      }
      var key := AsciiJsonString(keys[k]);
      parts := parts + [key + [COLON] + valStr];
    }
    assert parts == PartsFrom(keys, values, 0);
    JoinParts(keys, values, 0);
    r := [0x7B] + Join(parts) + [0x7D];
  }

  method ExecutorPart(keys: Nine, actor: Received, k: nat) returns (part: Utf16)
    requires k < 9
    ensures part == Part(keys, ReceivedTexts(keys, actor), k)
  {
    var valStr := TextAt(keys, actor, k);
    if k != ISSUED_AT {
      valStr := ExecutorAsciiJsonString(valStr);
    }
    var key := ExecutorAsciiJsonString(keys[k]);
    part := key + [COLON] + valStr;
  }

  /** The executor's _canonical over its key list. */
  method ExecutorCanonical(keys: Nine, actor: Received) returns (r: Utf16)
    ensures r == Canonical(keys, ReceivedTexts(keys, actor))
  {
    ghost var values := ReceivedTexts(keys, actor);
    var parts: seq<Utf16> := [];
    for k := 0 to 9
      invariant |parts| == k && forall j :: 0 <= j < k ==> parts[j] == Part(keys, values, j)
    {
      var part := ExecutorPart(keys, actor, k);
      parts := parts + [part];
    }
    assert parts == PartsFrom(keys, values, 0);
    JoinParts(keys, values, 0);
    r := [0x7B] + Join(parts) + [0x7D];
  }

  /** A field that did not arrive counts as empty, and the time stamp as the text undefined. */
  lemma AbsentFields(keys: Nine, actor: Received, k: nat)
    requires k < 9
    ensures ReceivedTexts(keys, actor)[k] ==
      if keys[k] in actor then actor[keys[k]]
      else if k == 6 then [0x75, 0x6E, 0x64, 0x65, 0x66, 0x69, 0x6E, 0x65, 0x64] else []
  {
  }

  /** When every field arrives as it was signed, the executor rebuilds the host's string. */
  lemma EncodersAgree(keys: Nine, p: SignedActorPayload, actor: Received)
    requires forall k :: 0 <= k < 9 ==> keys[k] in actor && actor[keys[k]] == Texts(p)[k]
    ensures Canonical(keys, ReceivedTexts(keys, actor)) == Canonical(keys, Texts(p))
  {
    assert ReceivedTexts(keys, actor) == Texts(p);
  }

  /** The key lists of the two sides, written down in two places. */
  const CANONICAL_KEYS: seq<string> := [
    "mcp_actor_user_id", "mcp_actor_email", "snow_effective_user_sys_id", "instance", "request_id",
    "script_sha256", "issued_at", "nonce", "reason"]

  const EXECUTOR_KEYS: seq<string> := [
    "mcp_actor_user_id", "mcp_actor_email", "snow_effective_user_sys_id",
    "instance", "request_id", "script_sha256", "issued_at", "nonce", "reason"]

  function NameUnits(name: string): Utf16 {
    seq(|name|, i requires 0 <= i < |name| => if name[i] as int < 0x1_0000 then name[i] as int else 0)
  }

  function KeyUnits(names: seq<string>): Nine
    requires |names| == 9
  {
    seq(9, i requires 0 <= i < 9 => NameUnits(names[i]))
  }

  /** With the lists as they are: an actor that arrives as it was signed gives the executor the string the
      host signed. */
  lemma HostAndExecutorAgree(p: SignedActorPayload, actor: Received)
    requires forall k :: 0 <= k < 9 ==>
      KeyUnits(EXECUTOR_KEYS)[k] in actor && actor[KeyUnits(EXECUTOR_KEYS)[k]] == Texts(p)[k]
    ensures Canonical(KeyUnits(EXECUTOR_KEYS), ReceivedTexts(KeyUnits(EXECUTOR_KEYS), actor)) ==
      Canonical(KeyUnits(CANONICAL_KEYS), Texts(p))
  {
    assert EXECUTOR_KEYS == CANONICAL_KEYS;
    EncodersAgree(KeyUnits(EXECUTOR_KEYS), p, actor);
  }

  // ---------------------------------------------------------------- the text, spelled out

  predicate LowerHex(u: CodeUnit) { 0x30 <= u <= 0x39 || 0x61 <= u <= 0x66 }

  function DigitOf(u: CodeUnit): int { if u <= 0x39 then u - 0x30 else u - 0x57 }

  /** A quote and a backslash get a backslash, anything outside printable ASCII its four lower-case
      hexadecimal digits, and nothing else changes. */
  lemma EscapeSpelled(c: CodeUnit)
    ensures c == 0x22 || c == 0x5C ==> EscapedUnit(c) == [0x5C, c]
    ensures 0x20 <= c < 0x7F && c != 0x22 && c != 0x5C ==> EscapedUnit(c) == [c]
    ensures c < 0x20 || c >= 0x7F ==>
      var e := EscapedUnit(c);
      && |e| == 6 && e[0] == 0x5C && e[1] == 0x75
      && LowerHex(e[2]) && LowerHex(e[3]) && LowerHex(e[4]) && LowerHex(e[5])
      && DigitOf(e[2]) * 4096 + DigitOf(e[3]) * 256 + DigitOf(e[4]) * 16 + DigitOf(e[5]) == c
  {
    if c < 0x20 || c >= 0x7F {
      DigitsOf(c / 0x1000);
      DigitsOf(c / 0x100 % 16);
      DigitsOf(c / 16 % 16);
      DigitsOf(c % 16);
      assert c / 0x100 == c / 0x1000 * 16 + c / 0x100 % 16;
      assert c / 16 == c / 0x100 * 16 + c / 16 % 16;
    }
  }

  lemma DigitsOf(d: nat)
    requires d < 16
    ensures LowerHex(HexDigit(d)) && DigitOf(HexDigit(d)) == d
  {
  }

  /** One member of the object: the quoted key, a colon, and the quoted value, or the bare time stamp. */
  function Member(keys: Nine, t: Nine, k: nat): Utf16
    requires k < 9
  {
    [0x22] + Escaped(keys[k]) + [0x22] + [0x3A] + (if k == 6 then t[6] else [0x22] + Escaped(t[k]) + [0x22])
  }

  /** The nine members in order, between braces and with commas. */
  lemma CanonicalSpelled(keys: Nine, t: Nine)
    ensures Canonical(keys, t) ==
      [0x7B] + (Member(keys, t, 0) + [0x2C] + (Member(keys, t, 1) + [0x2C] + (Member(keys, t, 2) + [0x2C] +
      (Member(keys, t, 3) + [0x2C] + (Member(keys, t, 4) + [0x2C] + (Member(keys, t, 5) + [0x2C] +
      (Member(keys, t, 6) + [0x2C] + (Member(keys, t, 7) + [0x2C] + Member(keys, t, 8)))))))))  + [0x7D]
  {
    JoinedLast(keys, t);
    JoinedOneMore(keys, t, 7);
    JoinedOneMore(keys, t, 6);
    JoinedOneMore(keys, t, 5);
    JoinedOneMore(keys, t, 4);
    JoinedOneMore(keys, t, 3);
    JoinedOneMore(keys, t, 2);
    JoinedOneMore(keys, t, 1);
    JoinedOneMore(keys, t, 0);
  }

  lemma JoinedLast(keys: Nine, t: Nine)
    ensures JoinedFrom(keys, t, 8) == Member(keys, t, 8)
  {
    assert Part(keys, t, 8) == Member(keys, t, 8);
  }

  lemma JoinedOneMore(keys: Nine, t: Nine, k: nat)
    requires k < 8
    ensures JoinedFrom(keys, t, k) == Member(keys, t, k) + [0x2C] + JoinedFrom(keys, t, k + 1)
  {
    assert Part(keys, t, k) == Member(keys, t, k);
  }

  function Decimal(u: Utf16): int { if u == [] then 0 else Decimal(u[..|u| - 1]) * 10 + (u[|u| - 1] as int - 0x30) }

  /** The time stamp is written in decimal digits, without leading zeros. */
  lemma {:induction false} IntTextIsDecimal(n: nat)
    ensures IntText(n) != [] && Decimal(IntText(n)) == n
    ensures forall i :: 0 <= i < |IntText(n)| ==> 0x30 <= IntText(n)[i] <= 0x39
    ensures n > 0 ==> IntText(n)[0] != 0x30
    ensures n > 0 ==> IntText(0 - n) == [0x2D] + IntText(n)
  {
    if n >= 10 {
      IntTextIsDecimal(n / 10);
      assert IntText(n)[..|IntText(n)| - 1] == IntText(n / 10);
    } else {
      assert IntText(n)[..0] == [];
    }
  }

  // ---------------------------------------------------------------- plain ASCII

  predicate Printable(u: Utf16) { forall i :: 0 <= i < |u| ==> 0x20 <= u[i] < 0x7F }

  lemma {:induction false} EscapedIsPrintable(s: Utf16)
    ensures Printable(Escaped(s))
  {
    if s != [] {
      EscapedIsPrintable(s[1..]);
    }
  }

  lemma {:induction false} IntTextIsPrintable(n: int)
    ensures Printable(IntText(n))
    decreases if n < 0 then 1 - n else n
  {
    if n < 0 {
      IntTextIsPrintable(-n);
    } else if n >= 10 {
      IntTextIsPrintable(n / 10);
    }
  }

  lemma PrintableAppend(a: Utf16, b: Utf16)
    requires Printable(a) && Printable(b)
    ensures Printable(a + b)
  {
  }

  lemma PartIsPrintable(keys: Nine, t: Nine, k: nat)
    requires k < 9 && Printable(t[ISSUED_AT])
    ensures Printable(Part(keys, t, k))
  {
    QuotedIsPrintable(keys[k]);
    QuotedIsPrintable(t[k]);
    PrintableAppend(Quoted(keys[k]), [COLON]);
    PrintableAppend(Quoted(keys[k]) + [COLON], if k == ISSUED_AT then t[k] else Quoted(t[k]));
  }

  lemma QuotedIsPrintable(s: Utf16)
    ensures Printable(Quoted(s))
  {
    EscapedIsPrintable(s);
    PrintableAppend([QUOTE], Escaped(s));
    PrintableAppend([QUOTE] + Escaped(s), [QUOTE]);
  }

  lemma {:induction false} JoinedIsPrintable(keys: Nine, t: Nine, k: nat)
    requires k < 9 && Printable(t[ISSUED_AT])
    ensures Printable(JoinedFrom(keys, t, k))
    decreases 9 - k
  {
    PartIsPrintable(keys, t, k);
    if k < 8 {
      JoinedIsPrintable(keys, t, k + 1);
      PrintableAppend(Part(keys, t, k), [COMMA]);
      PrintableAppend(Part(keys, t, k) + [COMMA], JoinedFrom(keys, t, k + 1));
    }
  }

  /** Whatever UTF-16 the fields hold, the signed string is printable ASCII. */
  lemma CanonicalIsPrintable(keys: Nine, p: SignedActorPayload)
    ensures Printable(Canonical(keys, Texts(p)))
  {
    IntTextIsPrintable(p.issued_at);
    JoinedIsPrintable(keys, Texts(p), 0);
  }

  // ---------------------------------------------------------------- one actor per string

  lemma HexDigitInjective(a: nat, b: nat)
    requires a < 16 && b < 16 && HexDigit(a) == HexDigit(b)
    ensures a == b
  {
  }

  lemma {:induction false} HexValue(c: nat)
    ensures c == c / 0x1000 * 0x1000 + c / 0x100 % 16 * 0x100 + c / 16 % 16 * 16 + c % 16
  {
    assert c / 16 / 16 == c / 0x100 && c / 0x100 / 16 == c / 0x1000;
  }

  lemma {:induction false} Hex4Injective(c: CodeUnit, d: CodeUnit)
    requires Hex4(c) == Hex4(d)
    ensures c == d
  {
    HexValue(c);
    HexValue(d);
    var x, y := Hex4(c), Hex4(d);
    HexDigitInjective(c / 0x1000, d / 0x1000) by { assert x[0] == y[0]; }
    HexDigitInjective(c / 0x100 % 16, d / 0x100 % 16) by { assert x[1] == y[1]; }
    HexDigitInjective(c / 16 % 16, d / 16 % 16) by { assert x[2] == y[2]; }
    HexDigitInjective(c % 16, d % 16) by { assert x[3] == y[3]; }
  }

  /** No escaped unit is the start of another. */
  lemma EscapedUnitPrefixFree(c: CodeUnit, x: Utf16, d: CodeUnit, y: Utf16)
    requires EscapedUnit(c) + x == EscapedUnit(d) + y
    ensures c == d && x == y
  {
    var l, r := EscapedUnit(c) + x, EscapedUnit(d) + y;
    assert l[0] == EscapedUnit(c)[0] && r[0] == EscapedUnit(d)[0];
    if l[0] == BACKSLASH {
      assert l[1] == EscapedUnit(c)[1] && r[1] == EscapedUnit(d)[1];
      if l[1] == LOWER_U {
        assert l[2..6] == Hex4(c) && r[2..6] == Hex4(d);
        Hex4Injective(c, d);
      }
    }
    assert c == d;
    assert l[|EscapedUnit(c)|..] == x && r[|EscapedUnit(c)|..] == y;
  }

  lemma ClosingQuote(s: Utf16, x: Utf16)
    ensures (Escaped(s) + [QUOTE] + x)[0] == QUOTE <==> s == []
  {
    if s != [] {
      assert (Escaped(s) + [QUOTE] + x)[0] == Escaped(s)[0] == EscapedUnit(s[0])[0];
    }
  }

  lemma Associate(a: Utf16, b: Utf16, x: Utf16)
    ensures a + b + [QUOTE] + x == a + (b + [QUOTE] + x)
  {
  }

  /** A quoted text can be read back from the left. */
  lemma {:induction false} EscapedReadBack(s: Utf16, x: Utf16, t: Utf16, y: Utf16)
    requires Escaped(s) + [QUOTE] + x == Escaped(t) + [QUOTE] + y
    ensures s == t && x == y
  {
    ClosingQuote(s, x);
    ClosingQuote(t, y);
    if s == [] {
      assert (Escaped(s) + [QUOTE] + x)[1..] == x && (Escaped(t) + [QUOTE] + y)[1..] == y;
    } else {
      Associate(EscapedUnit(s[0]), Escaped(s[1..]), x);
      Associate(EscapedUnit(t[0]), Escaped(t[1..]), y);
      EscapedUnitPrefixFree(s[0], Escaped(s[1..]) + [QUOTE] + x, t[0], Escaped(t[1..]) + [QUOTE] + y);
      EscapedReadBack(s[1..], x, t[1..], y);
    }
  }

  /** Inside an escaped text every quote follows a backslash. */
  lemma {:induction false} QuotesAreEscaped(s: Utf16, i: nat)
    requires i < |Escaped(s)| && Escaped(s)[i] == QUOTE
    ensures i > 0 && Escaped(s)[i - 1] == BACKSLASH
  {
    var n := |EscapedUnit(s[0])|;
    if i >= n {
      QuotesAreEscaped(s[1..], i - n);
    }
  }

  /** Read from the right, the last colon-quote opens the last quoted text, whatever comes before. */
  lemma LastQuotedText(a: Utf16, s: Utf16, b: Utf16, t: Utf16, tail: Utf16)
    requires a + [COLON, QUOTE] + Escaped(s) + tail == b + [COLON, QUOTE] + Escaped(t) + tail
    ensures a == b && s == t
  {
    NotLonger(a, s, b, t, tail);
    NotLonger(b, t, a, s, tail);
    var l, r := a + [COLON, QUOTE] + Escaped(s) + tail, b + [COLON, QUOTE] + Escaped(t) + tail;
    assert a == l[..|a|] && b == r[..|a|];
    assert Escaped(s) == l[|a| + 2..|a| + 2 + |Escaped(s)|] && Escaped(t) == r[|a| + 2..|a| + 2 + |Escaped(s)|];
    EscapedReadBack(s, [], t, []);
  }

  lemma NotLonger(a: Utf16, s: Utf16, b: Utf16, t: Utf16, tail: Utf16)
    requires a + [COLON, QUOTE] + Escaped(s) + tail == b + [COLON, QUOTE] + Escaped(t) + tail
    ensures |a| <= |b|
  {
    if |b| < |a| {
      var l, r := a + [COLON, QUOTE] + Escaped(s) + tail, b + [COLON, QUOTE] + Escaped(t) + tail;
      var j := |a| - |b| - 1;
      assert l[|a| + 1] == QUOTE && r[|b| + 2 + j] == Escaped(t)[j];
      assert j > 0 ==> l[|a|] == COLON && r[|b| + 1 + j] == Escaped(t)[j - 1];
      QuotesAreEscaped(t, j);
    }
  }

  /** Plain sequences: dropping a common key and its colon and quote. */
  lemma DropKey(key: Utf16, e: Utf16, rest: Utf16, f: Utf16, rest2: Utf16)
    requires (key + [COLON] + ([QUOTE] + e + [QUOTE])) + [COMMA] + rest == (key + [COLON] + ([QUOTE] + f + [QUOTE])) + [COMMA] + rest2
    ensures e + [QUOTE] + ([COMMA] + rest) == f + [QUOTE] + ([COMMA] + rest2)
  {
    Regroup(key, e, rest);
    Regroup(key, f, rest2);
  }

  lemma Regroup(key: Utf16, e: Utf16, rest: Utf16)
    ensures ((key + [COLON] + ([QUOTE] + e + [QUOTE])) + [COMMA] + rest)[|key| + 2..] == e + [QUOTE] + ([COMMA] + rest)
  {
  }

  lemma ReadOneText(key: Utf16, s: Utf16, rest: Utf16, t: Utf16, rest2: Utf16)
    requires (key + [COLON] + Quoted(s)) + [COMMA] + rest == (key + [COLON] + Quoted(t)) + [COMMA] + rest2
    ensures s == t && rest == rest2
  {
    DropKey(key, Escaped(s), rest, Escaped(t), rest2);
    EscapedReadBack(s, [COMMA] + rest, t, [COMMA] + rest2);
    assert ([COMMA] + rest)[1..] == rest && ([COMMA] + rest2)[1..] == rest2;
  }

  /** One text before the time stamp is read back from the left. */
  lemma ReadOne(keys: Nine, t: Nine, u: Nine, k: nat)
    requires k < ISSUED_AT && JoinedFrom(keys, t, k) == JoinedFrom(keys, u, k)
    ensures t[k] == u[k] && JoinedFrom(keys, t, k + 1) == JoinedFrom(keys, u, k + 1)
  {
    ReadOneText(Quoted(keys[k]), t[k], JoinedFrom(keys, t, k + 1), u[k], JoinedFrom(keys, u, k + 1));
  }

  lemma {:induction false} LeftReadBack(keys: Nine, t: Nine, u: Nine, k: nat, n: nat)
    requires k <= n <= ISSUED_AT && JoinedFrom(keys, t, k) == JoinedFrom(keys, u, k)
    ensures JoinedFrom(keys, t, n) == JoinedFrom(keys, u, n)
  {
    if n > k {
      var m := n - 1;
      LeftReadBack(keys, t, u, k, m);
      ReadOne(keys, t, u, m);
    }
  }

  /** The last three parts as plain sequences: bare text v under key a, quoted n and r. */
  function Ending(a: Utf16, v: Utf16, b: Utf16, n: Utf16, c: Utf16, r: Utf16): Utf16 {
    (a + [COLON] + v) + [COMMA] + ((b + [COLON] + ([QUOTE] + n + [QUOTE])) + [COMMA] + (c + [COLON] + ([QUOTE] + r + [QUOTE])))
  }

  /** Everything before the last text. */
  function BeforeLast(x: Utf16, n: Utf16, c: Utf16): Utf16 { x + [COLON, QUOTE] + n + ([QUOTE, COMMA] + c) }

  lemma EndingFromRight(a: Utf16, v: Utf16, b: Utf16, n: Utf16, c: Utf16, r: Utf16)
    ensures Ending(a, v, b, n, c, r) == BeforeLast((a + [COLON]) + v + ([COMMA] + b), n, c) + [COLON, QUOTE] + r + [QUOTE]
  {
  }

  lemma LastParts(keys: Nine, t: Nine)
    ensures JoinedFrom(keys, t, ISSUED_AT) ==
      Ending(Quoted(keys[6]), t[6], Quoted(keys[7]), Escaped(t[7]), Quoted(keys[8]), Escaped(t[8]))
  {
    assert JoinedFrom(keys, t, 8) == Part(keys, t, 8);
    assert JoinedFrom(keys, t, 7) == Part(keys, t, 7) + [COMMA] + JoinedFrom(keys, t, 8);
  }

  /** The time stamp and what follows it are read back from the right. */
  lemma {:induction false} RightReadBack(a: Utf16, v: Utf16, v2: Utf16, b: Utf16, n: Utf16, n2: Utf16, c: Utf16, r: Utf16, r2: Utf16)
    requires Ending(a, v, b, Escaped(n), c, Escaped(r)) == Ending(a, v2, b, Escaped(n2), c, Escaped(r2))
    ensures v == v2 && n == n2 && r == r2
  {
    EndingFromRight(a, v, b, Escaped(n), c, Escaped(r));
    EndingFromRight(a, v2, b, Escaped(n2), c, Escaped(r2));
    LastTwoTexts((a + [COLON]) + v + ([COMMA] + b), (a + [COLON]) + v2 + ([COMMA] + b), n, n2, c, r, r2);
    MiddleText(a + [COLON], v, v2, [COMMA] + b);
  }

  lemma {:induction false} LastTwoTexts(x: Utf16, x2: Utf16, n: Utf16, n2: Utf16, c: Utf16, r: Utf16, r2: Utf16)
    requires BeforeLast(x, Escaped(n), c) + [COLON, QUOTE] + Escaped(r) + [QUOTE] ==
      BeforeLast(x2, Escaped(n2), c) + [COLON, QUOTE] + Escaped(r2) + [QUOTE]
    ensures x == x2 && n == n2 && r == r2
  {
    LastQuotedText(BeforeLast(x, Escaped(n), c), r, BeforeLast(x2, Escaped(n2), c), r2, [QUOTE]);
    LastQuotedText(x, n, x2, n2, [QUOTE, COMMA] + c);
  }

  /** No two sets of nine texts share a canonical string, even when the time stamp is any text at
      all: the parts before it are read from the left, those after it from the right. */
  lemma CanonicalInjective(keys: Nine, t: Nine, u: Nine)
    requires Canonical(keys, t) == Canonical(keys, u)
    ensures t == u
  {
    MiddleText([0x7B], JoinedFrom(keys, t, 0), JoinedFrom(keys, u, 0), [0x7D]);
    AllTexts(keys, t, u);
  }

  lemma AllTexts(keys: Nine, t: Nine, u: Nine)
    requires JoinedFrom(keys, t, 0) == JoinedFrom(keys, u, 0)
    ensures t == u
  {
    forall i | 0 <= i < 6 ensures t[i] == u[i] {
      LeftReadBack(keys, t, u, 0, i);
      ReadOne(keys, t, u, i);
    }
    LeftReadBack(keys, t, u, 0, ISSUED_AT);
    LastThree(keys, t, u);
    SameNine(t, u);
  }

  lemma SameNine(t: Nine, u: Nine)
    requires (forall i :: 0 <= i < 6 ==> t[i] == u[i]) && t[6] == u[6] && t[7] == u[7] && t[8] == u[8]
    ensures t == u
  {
    forall i | 0 <= i < 9 ensures t[i] == u[i] {
    }
  }

  lemma LastThree(keys: Nine, t: Nine, u: Nine)
    requires JoinedFrom(keys, t, ISSUED_AT) == JoinedFrom(keys, u, ISSUED_AT)
    ensures t[6] == u[6] && t[7] == u[7] && t[8] == u[8]
  {
    LastParts(keys, t);
    LastParts(keys, u);
    RightReadBack(Quoted(keys[6]), t[6], u[6], Quoted(keys[7]), t[7], u[7], Quoted(keys[8]), t[8], u[8]);
  }

  lemma MiddleText(a: Utf16, x: Utf16, y: Utf16, b: Utf16)
    requires a + x + b == a + y + b
    ensures x == y
  {
    var l, r := a + x + b, a + y + b;
    assert |x| == |y| && x == l[|a|..|a| + |x|] && y == r[|a|..|a| + |x|];
  }

  lemma {:induction false} IntTextInjective(m: int, n: int)
    requires IntText(m) == IntText(n)
    ensures m == n
    decreases if m < 0 then 1 - m else m
  {
    IntTextStart(m);
    IntTextStart(n);
    if m < 0 {
      assert IntText(m)[1..] == IntText(-m) && IntText(n)[1..] == IntText(-n);
      IntTextInjective(-m, -n);
    } else if m >= 10 && n >= 10 {
      var k := |IntText(m)| - 1;
      assert IntText(m)[..k] == IntText(m / 10) && IntText(n)[..k] == IntText(n / 10);
      assert IntText(m)[k] == 0x30 + m % 10 && IntText(n)[k] == 0x30 + n % 10;
      IntTextInjective(m / 10, n / 10);
    }
  }

  lemma {:induction false} IntTextStart(n: int)
    ensures IntText(n) != [] && (IntText(n)[0] == 0x2D <==> n < 0)
    ensures n >= 10 ==> |IntText(n)| > 1
    ensures 0 <= n < 10 ==> |IntText(n)| == 1
    decreases if n < 0 then 1 - n else n
  {
    if n >= 10 {
      IntTextStart(n / 10);
    }
  }

  /** Two payloads with one signature input are one payload. */
  lemma PayloadInjective(keys: Nine, p: SignedActorPayload, q: SignedActorPayload)
    requires Canonical(keys, Texts(p)) == Canonical(keys, Texts(q))
    ensures p == q
  {
    CanonicalInjective(keys, Texts(p), Texts(q));
    var t, u := Texts(p), Texts(q);
    assert t[0] == u[0] && t[1] == u[1] && t[2] == u[2] && t[3] == u[3] && t[4] == u[4];
    assert t[5] == u[5] && t[6] == u[6] && t[7] == u[7] && t[8] == u[8];
    IntTextInjective(p.issued_at, q.issued_at);
  }

  /** An actor whose rebuilt string equals a signed one carries the signed texts, field by field. */
  lemma VerifiedActorIsTheSignedOne(keys: Nine, p: SignedActorPayload, actor: Received)
    requires Canonical(keys, ReceivedTexts(keys, actor)) == Canonical(keys, Texts(p))
    ensures forall k :: 0 <= k < 9 ==> TextAt(keys, actor, k) == Texts(p)[k]
  {
    CanonicalInjective(keys, ReceivedTexts(keys, actor), Texts(p));
    assert forall k :: 0 <= k < 9 ==> ReceivedTexts(keys, actor)[k] == TextAt(keys, actor, k);
  }
}
