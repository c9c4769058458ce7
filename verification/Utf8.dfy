/** Byte-bounded text: sandbox/serialize.ts on the host, utf8Len and utf8Slice in the executor.

    A JavaScript string is a sequence of 16-bit code units, well formed or not. The host measures
    and cuts UTF-8 bytes (section 3 of RFC 3629); the executor has no encoder, so it walks code
    units and adds up widths. */
module Utf8 {
  type CodeUnit = c: int | 0 <= c < 0x1_0000
  type Byte = b: int | 0 <= b < 0x100
  type Scalar = c: int | 0 <= c < 0xD800 || 0xE000 <= c < 0x11_0000 witness 0

  type Utf16 = seq<CodeUnit>

  const BOM: Scalar := 0xFEFF
  const REPLACEMENT: Scalar := 0xFFFD

  predicate IsHigh(c: CodeUnit) { 0xD800 <= c < 0xDC00 }
  predicate IsLow(c: CodeUnit) { 0xDC00 <= c < 0xE000 }
  predicate IsContinuation(b: Byte) { 0x80 <= b < 0xC0 }

  // ---------------------------------------------------------------- encodings of scalar values

  function Units(c: Scalar): (u: Utf16)
    ensures 1 <= |u| <= 2
  {
    if c < 0x1_0000 then [c]
    else [0xD800 + (c - 0x1_0000) / 0x400, 0xDC00 + (c - 0x1_0000) % 0x400]
  }

  /** The byte forms of RFC 3629, section 3. */
  function Bytes(c: Scalar): (b: seq<Byte>)
    ensures 1 <= |b| <= 4 && !IsContinuation(b[0])
    ensures forall i :: 1 <= i < |b| ==> IsContinuation(b[i])
  {
    if c < 0x80 then [c]
    else if c < 0x800 then [0xC0 + c / 0x40, 0x80 + c % 0x40]
    else if c < 0x1_0000 then [0xE0 + c / 0x1000, 0x80 + c / 0x40 % 0x40, 0x80 + c % 0x40]
    else [0xF0 + c / 0x4_0000, 0x80 + c / 0x1000 % 0x40, 0x80 + c / 0x40 % 0x40, 0x80 + c % 0x40]
  }

  function ToUtf16(cs: seq<Scalar>): Utf16 {
    if cs == [] then [] else Units(cs[0]) + ToUtf16(cs[1..])
  }

  function ToUtf8(cs: seq<Scalar>): seq<Byte> {
    if cs == [] then [] else Bytes(cs[0]) + ToUtf8(cs[1..])
  }

  // ---------------------------------------------------------------- reading UTF-16 and UTF-8

  /** The scalar value at the front of s and the units it takes; a lone surrogate reads as U+FFFD. */
  function Front(s: Utf16): (r: (Scalar, nat))
    requires s != []
    ensures 1 <= r.1 <= |s| && r.1 <= 2
  {
    if IsHigh(s[0]) && |s| > 1 && IsLow(s[1]) then
      (0x1_0000 + (s[0] as int - 0xD800) * 0x400 + (s[1] as int - 0xDC00), 2)
    else if IsHigh(s[0]) || IsLow(s[0]) then (REPLACEMENT, 1)
    else (s[0], 1)
  }

  function Scalars(s: Utf16): seq<Scalar> {
    if s == [] then [] else [Front(s).0] + Scalars(s[Front(s).1..])
  }

  /** Every surrogate is half of a pair. */
  predicate WellFormed(s: Utf16) {
    s == [] ||
    ((IsHigh(s[0]) ==> Front(s).1 == 2) && !IsLow(s[0]) && WellFormed(s[Front(s).1..]))
  }

  /** TextEncoder. */
  function Encode(s: Utf16): seq<Byte> { ToUtf8(Scalars(s)) }

  function ByteWidth(lead: Byte): (w: nat)
    ensures 1 <= w <= 4
  {
    if lead < 0x80 then 1 else if lead < 0xE0 then 2 else if lead < 0xF0 then 3 else 4
  }

  function Assemble(b: seq<Byte>): int
    requires 1 <= |b| <= 4
  {
    if |b| == 1 then b[0]
    else if |b| == 2 then (b[0] as int - 0xC0) * 0x40 + (b[1] as int - 0x80)
    else if |b| == 3 then (b[0] as int - 0xE0) * 0x1000 + (b[1] as int - 0x80) * 0x40 + (b[2] as int - 0x80)
    else (b[0] as int - 0xF0) * 0x4_0000 + (b[1] as int - 0x80) * 0x1000 + (b[2] as int - 0x80) * 0x40 + (b[3] as int - 0x80)
  }

  /** Reads UTF-8. On bytes that are not UTF-8 the exact run of replacement characters is not
      modelled; the host only ever decodes whole encoded sequences. */
  function Decode(b: seq<Byte>): seq<Scalar> {
    if b == [] then []
    else
      var w := ByteWidth(b[0]);
      if w > |b| then [REPLACEMENT]
      else
        var c := Assemble(b[..w]);
        [if 0 <= c < 0xD800 || 0xE000 <= c < 0x11_0000 then c else REPLACEMENT] + Decode(b[w..])
  }

  /** TextDecoder with its defaults: one leading byte-order mark is dropped. */
  function DecodeText(b: seq<Byte>): Utf16 {
    var cs := Decode(b);
    ToUtf16(if cs != [] && cs[0] == BOM then cs[1..] else cs)
  }

  lemma Digits(c: nat)
    ensures c == c / 0x1000 * 0x1000 + c / 0x40 % 0x40 * 0x40 + c % 0x40
    ensures c == c / 0x4_0000 * 0x4_0000 + c / 0x1000 % 0x40 * 0x1000 + c / 0x40 % 0x40 * 0x40 + c % 0x40
  {
    assert c / 0x40 / 0x40 == c / 0x1000 && c / 0x1000 / 0x40 == c / 0x4_0000;
  }

  lemma BytesRoundTrip(c: Scalar)
    ensures ByteWidth(Bytes(c)[0]) == |Bytes(c)| && Assemble(Bytes(c)) == c
  {
    Digits(c);
    var b := Bytes(c);
    if c < 0x80 {
    } else if c < 0x800 {
      assert Assemble(b) == c / 0x40 * 0x40 + c % 0x40;
    } else if c < 0x1_0000 {
      assert Assemble(b) == c / 0x1000 * 0x1000 + c / 0x40 % 0x40 * 0x40 + c % 0x40;
    } else {
      assert Assemble(b) == c / 0x4_0000 * 0x4_0000 + c / 0x1000 % 0x40 * 0x1000 + c / 0x40 % 0x40 * 0x40 + c % 0x40;
    }
  }

  lemma {:induction false} DecodeEncode(cs: seq<Scalar>)
    ensures Decode(ToUtf8(cs)) == cs
  {
    if cs != [] {
      BytesRoundTrip(cs[0]);
      var b := ToUtf8(cs);
      assert b[..|Bytes(cs[0])|] == Bytes(cs[0]) && b[|Bytes(cs[0])|..] == ToUtf8(cs[1..]);
      DecodeEncode(cs[1..]);
    }
  }

  lemma FrontUnits(s: Utf16)
    requires s != [] && WellFormed(s)
    ensures Units(Front(s).0) == s[..Front(s).1]
  {
    if Front(s).1 == 2 {
      var low := s[1] as int - 0xDC00;
      assert Front(s).0 - 0x1_0000 == (s[0] as int - 0xD800) * 0x400 + low && 0 <= low < 0x400;
    }
  }

  lemma {:induction false} WellFormedRoundTrip(s: Utf16)
    requires WellFormed(s)
    ensures ToUtf16(Scalars(s)) == s
  {
    if s != [] {
      var (c, n) := Front(s);
      FrontUnits(s);
      WellFormedRoundTrip(s[n..]);
      assert Scalars(s)[1..] == Scalars(s[n..]);
    }
  }

  // ---------------------------------------------------------------- the longest prefix that fits

  /** How many leading scalar values fit in max bytes. */
  function Fitting(cs: seq<Scalar>, max: nat): (k: nat)
    ensures k <= |cs|
  {
    if cs == [] || |Bytes(cs[0])| > max then 0
    else 1 + Fitting(cs[1..], max - |Bytes(cs[0])|)
  }

  /** Fitting is exactly the longest whole-code-point prefix within the cap. */
  lemma {:induction false} FittingIsLongest(cs: seq<Scalar>, max: nat, k: nat)
    requires k <= |cs|
    ensures |ToUtf8(cs[..k])| <= max <==> k <= Fitting(cs, max)
  {
    if k > 0 {
      assert cs[..k][1..] == cs[1..][..k - 1];
      if |Bytes(cs[0])| <= max {
        FittingIsLongest(cs[1..], max - |Bytes(cs[0])|, k - 1);
      }
    }
  }

  lemma {:induction false} ToUtf8Split(cs: seq<Scalar>, k: nat)
    requires k <= |cs|
    ensures ToUtf8(cs) == ToUtf8(cs[..k]) + ToUtf8(cs[k..])
  {
    if k > 0 {
      ToUtf8Split(cs[1..], k - 1);
      assert cs[..k][1..] == cs[1..][..k - 1];
    } else {
      assert cs[..k] == [] && cs[k..] == cs;
    }
  }

  lemma {:induction false} ToUtf16Split(cs: seq<Scalar>, k: nat)
    requires k <= |cs|
    ensures ToUtf16(cs) == ToUtf16(cs[..k]) + ToUtf16(cs[k..])
  {
    if k > 0 {
      ToUtf16Split(cs[1..], k - 1);
      assert cs[..k][1..] == cs[1..][..k - 1];
    } else {
      assert cs[..k] == [] && cs[k..] == cs;
    }
  }

  // ---------------------------------------------------------------- host: cut the encoded bytes

  /** The last position at or before end that does not hold a continuation byte. */
  function BackedOff(bytes: seq<Byte>, end: nat): (e: nat)
    requires end < |bytes|
    ensures e <= end
  {
    if end > 0 && IsContinuation(bytes[end]) then BackedOff(bytes, end - 1) else end
  }

  lemma {:induction false} BackedOffPast(a: seq<Byte>, b: seq<Byte>, end: nat)
    requires |a| <= end < |a| + |b| && !IsContinuation(b[0])
    ensures BackedOff(a + b, end) == |a| + BackedOff(b, end - |a|)
  {
    assert (a + b)[end] == b[end - |a|];
    if end > |a| && IsContinuation(b[end - |a|]) {
      BackedOffPast(a, b, end - 1);
    }
  }

  lemma {:induction false} BackedOffWithin(a: seq<Byte>, b: seq<Byte>, end: nat)
    requires end < |a| && forall i :: 1 <= i < |a| ==> IsContinuation(a[i])
    ensures BackedOff(a + b, end) == 0
  {
    if end > 0 {
      BackedOffWithin(a, b, end - 1);
    }
  }

  /** Backing off from the cap lands exactly after the last scalar value that fits. */
  lemma {:induction false} BackedOffIsBoundary(cs: seq<Scalar>, max: nat)
    requires max < |ToUtf8(cs)|
    ensures BackedOff(ToUtf8(cs), max) == |ToUtf8(cs[..Fitting(cs, max)])|
  {
    var w := |Bytes(cs[0])|;
    var rest := ToUtf8(cs[1..]);
    if max < w {
      BackedOffWithin(Bytes(cs[0]), rest, max);
    } else {
      assert rest[0] == Bytes(cs[1..][0])[0];
      BackedOffPast(Bytes(cs[0]), rest, max);
      BackedOffIsBoundary(cs[1..], max - w);
      var k := Fitting(cs[1..], max - w);
      assert cs[..k + 1][1..] == cs[1..][..k];
    }
  }

  method TruncateEncodedUtf8(bytes: seq<Byte>, maxBytes: nat) returns (r: Utf16)
    requires maxBytes < |bytes|
    ensures r == DecodeText(bytes[..BackedOff(bytes, maxBytes)])
  {
    var end := maxBytes;
    while end > 0 && IsContinuation(bytes[end])
      invariant 0 <= end <= maxBytes && BackedOff(bytes, end) == BackedOff(bytes, maxBytes)
    {
      end := end - 1;
    }
    r := DecodeText(bytes[..end]);
  }

  /** What the host returns: the longest whole-code-point prefix, or the string itself. */
  function HostTruncated(s: Utf16, maxBytes: nat): Utf16 {
    if |Encode(s)| <= maxBytes then s
    else
      var kept := Scalars(s)[..Fitting(Scalars(s), maxBytes)];
      ToUtf16(if kept != [] && kept[0] == BOM then kept[1..] else kept)
  }

  lemma CutDecodes(cs: seq<Scalar>, max: nat)
    requires max < |ToUtf8(cs)|
    ensures Decode(ToUtf8(cs)[..BackedOff(ToUtf8(cs), max)]) == cs[..Fitting(cs, max)]
  {
    var k := Fitting(cs, max);
    BackedOffIsBoundary(cs, max);
    ToUtf8Split(cs, k);
    assert ToUtf8(cs)[..BackedOff(ToUtf8(cs), max)] == ToUtf8(cs[..k]);
    DecodeEncode(cs[..k]);
  }

  method TruncateUtf8(s: Utf16, maxBytes: nat) returns (r: Utf16)
    ensures r == HostTruncated(s, maxBytes)
  {
    var bytes := Encode(s);
    if |bytes| <= maxBytes {
      return s;
    }
    CutDecodes(Scalars(s), maxBytes);
    r := TruncateEncodedUtf8(bytes, maxBytes);
  }

  /** The cap holds for every input, well formed or not. */
  lemma HostTruncatedFits(s: Utf16, maxBytes: nat)
    ensures |Encode(HostTruncated(s, maxBytes))| <= maxBytes
  {
    if |Encode(s)| > maxBytes {
      var k := Fitting(Scalars(s), maxBytes);
      var kept := Scalars(s)[..k];
      FittingIsLongest(Scalars(s), maxBytes, k);
      var out := if kept != [] && kept[0] == BOM then kept[1..] else kept;
      ScalarsRoundTrip(out);
    }
  }

  lemma {:induction false} ScalarsRoundTrip(cs: seq<Scalar>)
    ensures Scalars(ToUtf16(cs)) == cs && WellFormed(ToUtf16(cs))
  {
    if cs != [] {
      var s := ToUtf16(cs);
      var u := Units(cs[0]);
      assert s[..|u|] == u && s[|u|..] == ToUtf16(cs[1..]);
      assert s[0] == u[0] && (|u| == 2 ==> s[1] == u[1]);
      assert Front(s) == (cs[0], |u|);
      ScalarsRoundTrip(cs[1..]);
    }
  }

  // ---------------------------------------------------------------- executor: count widths

  /** The executor's width of a code unit; a high surrogate stands for its whole pair. */
  function UnitWidth(c: CodeUnit): nat {
    if c < 0x80 then 1 else if c < 0x800 then 2 else if IsHigh(c) then 4 else 3
  }

  function Step(s: Utf16): nat
    requires s != []
  {
    if IsHigh(s[0]) && |s| > 1 then 2 else 1
  }

  function WidthSum(s: Utf16): nat {
    if s == [] then 0 else UnitWidth(s[0]) + WidthSum(s[Step(s)..])
  }

  function UnitsFitting(s: Utf16, max: nat): (i: nat)
    ensures i <= |s|
  {
    if s == [] || UnitWidth(s[0]) > max then 0
    else Step(s) + UnitsFitting(s[Step(s)..], max - UnitWidth(s[0]))
  }

  method Utf8Len(s: Utf16) returns (n: nat)
    ensures n == WidthSum(s)
  {
    n := 0;
    var i := 0;
    while i < |s|
      invariant 0 <= i <= |s| + 1
      invariant n + WidthSum(if i <= |s| then s[i..] else []) == WidthSum(s)
    {
      var c := s[i];
      ghost var tail := s[i..];
      assert i + Step(tail) <= |s| && tail[Step(tail)..] == s[i + Step(tail)..];
      if c < 0x80 {
        n := n + 1;
      } else if c < 0x800 {
        n := n + 2;
      } else if 0xD800 <= c <= 0xDBFF {
        n := n + 4;
        i := i + 1;
      } else {
        n := n + 3;
      }
      i := i + 1;
      assert (if i <= |s| then s[i..] else []) == tail[Step(tail)..];
    }
  }

  lemma UnitsFittingStep(s: Utf16, i: nat, left: nat)
    requires i < |s|
    ensures UnitsFitting(s[i..], left) ==
      if UnitWidth(s[i]) > left then 0
      else Step(s[i..]) + UnitsFitting(s[i + Step(s[i..])..], left - UnitWidth(s[i]))
  {
    assert s[i..][Step(s[i..])..] == s[i + Step(s[i..])..];
  }

  method Utf8Slice(s: Utf16, maxBytes: nat) returns (r: Utf16)
    ensures r == s[..UnitsFitting(s, maxBytes)]
  {
    var n := 0;
    var i := 0;
    ghost var all := UnitsFitting(s, maxBytes);
    assert s[0..] == s;
    while i < |s|
      invariant 0 <= i && 0 <= n <= maxBytes
      invariant if i <= |s| then all == i + UnitsFitting(s[i..], maxBytes - n) else all == |s|
    {
      var c := s[i];
      UnitsFittingStep(s, i, maxBytes - n);
      var w := 3;
      if c < 0x80 { w := 1; } else if c < 0x800 { w := 2; } else if 0xD800 <= c <= 0xDBFF { w := 4; }
      if n + w > maxBytes {
        return s[..i];
      }
      n := n + w;
      if w == 4 {
        i := i + 1;
      }
      i := i + 1;
    }
    r := s;
  }

  lemma UnitMatchesBytes(c: Scalar, rest: Utf16)
    ensures UnitWidth((Units(c) + rest)[0]) == |Bytes(c)|
    ensures Step(Units(c) + rest) == |Units(c)|
    ensures (Units(c) + rest)[|Units(c)|..] == rest
  {
  }

  lemma {:induction false} WidthsOfScalars(cs: seq<Scalar>, max: nat)
    ensures WidthSum(ToUtf16(cs)) == |ToUtf8(cs)|
    ensures UnitsFitting(ToUtf16(cs), max) == |ToUtf16(cs[..Fitting(cs, max)])|
  {
    if cs != [] {
      UnitMatchesBytes(cs[0], ToUtf16(cs[1..]));
      if |Bytes(cs[0])| <= max {
        var left := max - |Bytes(cs[0])|;
        WidthsOfScalars(cs[1..], left);
        assert cs[..Fitting(cs, max)][1..] == cs[1..][..Fitting(cs[1..], left)];
      } else {
        WidthsOfScalars(cs[1..], 0);
      }
    }
  }

  /** On well-formed text the executor's count is the number of UTF-8 bytes. */
  lemma WidthSumIsByteLength(s: Utf16)
    requires WellFormed(s)
    ensures WidthSum(s) == |Encode(s)|
  {
    WellFormedRoundTrip(s);
    WidthsOfScalars(Scalars(s), 0);
  }

  /** The executor's cut is the longest whole-code-point prefix within the cap. */
  lemma UnitsFittingIsBoundary(s: Utf16, max: nat)
    requires WellFormed(s)
    ensures s[..UnitsFitting(s, max)] == ToUtf16(Scalars(s)[..Fitting(Scalars(s), max)])
  {
    WellFormedRoundTrip(s);
    WidthsOfScalars(Scalars(s), max);
    ToUtf16Split(Scalars(s), Fitting(Scalars(s), max));
  }

  /** The two cuts agree on well-formed text except when the host's decoder drops a kept
      byte-order mark: the text starts with U+FEFF, is over the cap, and the cap holds the mark. */
  lemma TruncationsAgree(s: Utf16, max: nat)
    requires WellFormed(s)
    ensures HostTruncated(s, max) == s[..UnitsFitting(s, max)]
       <==> !(s != [] && s[0] == 0xFEFF && WidthSum(s) > max && max >= 3)
  {
    WidthSumIsByteLength(s);
    UnitsFittingIsBoundary(s, max);
    WellFormedRoundTrip(s);
    var cs := Scalars(s);
    if |Encode(s)| <= max {
      FittingIsLongest(cs, max, |cs|);
      assert cs[..|cs|] == cs;
    } else if s != [] && s[0] == 0xFEFF && max >= 3 {
      assert cs[0] == BOM && Fitting(cs, max) >= 1;
      var kept := cs[..Fitting(cs, max)];
      assert |ToUtf16(kept)| == 1 + |ToUtf16(kept[1..])|;
    }
  }

  /** A lone high surrogate makes them differ: the executor counts it as a pair and swallows the
      next unit, the host encodes it as three bytes of U+FFFD. */
  lemma IllFormedTextDiffers()
    ensures WidthSum([0xD800, 0x61]) == 4 && |Encode([0xD800, 0x61])| == 4
    ensures [0xD800, 0x61][..UnitsFitting([0xD800, 0x61], 3)] == []
    ensures HostTruncated([0xD800, 0x61], 3) == [REPLACEMENT]
  {
    var s: Utf16 := [0xD800, 0x61];
    assert s[1..] == [0x61] && s[1..][1..] == [] && s[2..] == [];
    assert Scalars(s[1..]) == [0x61];
    assert Scalars(s) == [REPLACEMENT, 0x61];
    var cs: seq<Scalar> := [REPLACEMENT, 0x61];
    assert cs[1..] == [0x61] && cs[1..][1..] == [];
    assert ToUtf8(cs[1..]) == [0x61];
    assert Fitting(cs[1..], 0) == 0 && Fitting(cs, 3) == 1;
    assert cs[..1] == [REPLACEMENT] && cs[..1][1..] == [];
  }

  // ---------------------------------------------------------------- ill-formed text

  /** A surrogate without its other half comes first. */
  predicate Lone(s: Utf16) { s != [] && (IsLow(s[0]) || (IsHigh(s[0]) && Front(s).1 == 1)) }

  /** The number of units before the first lone surrogate. */
  function CleanUnits(s: Utf16): (c: nat)
    ensures c <= |s|
  {
    if s == [] || Lone(s) then 0 else Front(s).1 + CleanUnits(s[Front(s).1..])
  }

  lemma FrontOfPrefix(s: Utf16, c: nat)
    requires s != [] && Front(s).1 <= c <= |s| && !Lone(s)
    ensures Front(s[..c]) == Front(s) && s[..c][Front(s).1..] == s[Front(s).1..][..c - Front(s).1]
  {
  }

  lemma {:induction false} CleanIsWellFormed(s: Utf16)
    ensures WellFormed(s[..CleanUnits(s)])
  {
    if s != [] && !Lone(s) {
      CleanIsWellFormed(s[Front(s).1..]);
      FrontOfPrefix(s, CleanUnits(s));
    }
  }

  lemma Prepend(f: Scalar, a: seq<Scalar>, b: seq<Scalar>)
    ensures [f] + (a + b) == ([f] + a) + b
  {
  }

  lemma {:induction false} CleanSplits(s: Utf16)
    ensures Scalars(s) == Scalars(s[..CleanUnits(s)]) + Scalars(s[CleanUnits(s)..])
  {
    var c := CleanUnits(s);
    if s == [] || Lone(s) {
      assert s[..c] == [] && s[c..] == s;
    } else {
      var n := Front(s).1;
      CleanSplits(s[n..]);
      FrontOfPrefix(s, c);
      assert s[n..][c - n..] == s[c..];
      Prepend(Front(s).0, Scalars(s[n..][..c - n]), Scalars(s[c..]));
    }
  }

  lemma {:induction false} ThenLone(s: Utf16)
    ensures CleanUnits(s) < |s| ==> Lone(s[CleanUnits(s)..])
  {
    var c := CleanUnits(s);
    if s == [] || Lone(s) {
      assert s[c..] == s;
    } else {
      var n := Front(s).1;
      ThenLone(s[n..]);
      assert s[n..][c - n..] == s[c..];
    }
  }

  lemma {:induction false} CleanPrefix(s: Utf16)
    ensures WellFormed(s[..CleanUnits(s)])
    ensures Scalars(s) == Scalars(s[..CleanUnits(s)]) + Scalars(s[CleanUnits(s)..])
    ensures CleanUnits(s) < |s| ==> Lone(s[CleanUnits(s)..])
  {
    CleanIsWellFormed(s);
    CleanSplits(s);
    ThenLone(s);
  }

  lemma {:induction false} FittingStops(cs: seq<Scalar>, tail: seq<Scalar>, max: nat)
    requires tail != [] && max < |ToUtf8(cs)| + |Bytes(tail[0])|
    ensures Fitting(cs + tail, max) == Fitting(cs, max)
  {
    if cs == [] {
      assert cs + tail == tail;
    } else {
      assert (cs + tail)[1..] == cs[1..] + tail;
      if |Bytes(cs[0])| <= max {
        FittingStops(cs[1..], tail, max - |Bytes(cs[0])|);
      }
    }
  }

  /** A clean front takes as many units, and as much room, on both sides. */
  lemma FrontWidth(s: Utf16)
    requires s != [] && !Lone(s)
    ensures Step(s) == Front(s).1 && UnitWidth(s[0]) == |Bytes(Front(s).0)|
  {
  }

  lemma {:induction false} UnitsStop(s: Utf16, max: nat)
    requires CleanUnits(s) < |s| ==> max < |Encode(s[..CleanUnits(s)])| + 3
    ensures UnitsFitting(s, max) == UnitsFitting(s[..CleanUnits(s)], max)
  {
    var c := CleanUnits(s);
    if s == [] || Lone(s) {
      assert s[..c] == [];
    } else {
      var n := Front(s).1;
      FrontOfPrefix(s, c);
      FrontWidth(s);
      FrontWidth(s[..c]);
      assert Scalars(s[..c])[1..] == Scalars(s[..c][n..]);
      if UnitWidth(s[0]) <= max {
        UnitsStop(s[n..], max - UnitWidth(s[0]));
      }
    }
  }

  lemma {:induction false} AllUnitsFit(s: Utf16, max: nat)
    ensures UnitsFitting(s, max) == |s| <==> WidthSum(s) <= max
  {
    if s != [] && UnitWidth(s[0]) <= max {
      AllUnitsFit(s[Step(s)..], max - UnitWidth(s[0]));
    }
  }

  lemma FittingInCleanPart(s: Utf16, max: nat)
    requires CleanUnits(s) < |s| ==> max < |Encode(s[..CleanUnits(s)])| + 3
    ensures Fitting(Scalars(s), max) == Fitting(Scalars(s[..CleanUnits(s)]), max)
  {
    var c := CleanUnits(s);
    CleanPrefix(s);
    if c < |s| {
      FittingStops(Scalars(s[..c]), Scalars(s[c..]), max);
    } else {
      assert s[..c] == s;
    }
  }

  /** When the cut falls before the first lone surrogate is written, the executor keeps the units of the
      scalar values the host keeps. */
  lemma CutInCleanPart(s: Utf16, max: nat)
    requires CleanUnits(s) < |s| ==> max < |Encode(s[..CleanUnits(s)])| + 3
    ensures s[..UnitsFitting(s, max)] == ToUtf16(Scalars(s)[..Fitting(Scalars(s), max)])
  {
    var c, k := CleanUnits(s), UnitsFitting(s, max);
    CleanPrefix(s);
    UnitsStop(s, max);
    UnitsFittingIsBoundary(s[..c], max);
    FittingInCleanPart(s, max);
    SamePrefix(Scalars(s), Scalars(s[..c]), Scalars(s[c..]), Fitting(Scalars(s), max));
    assert s[..c][..k] == s[..k];
  }

  lemma PrefixOfPrefix(all: seq<Scalar>, k: nat, n: nat)
    requires n <= k <= |all|
    ensures all[..k][..n] == all[..n]
  {
  }

  lemma SamePrefix(all: seq<Scalar>, head: seq<Scalar>, tail: seq<Scalar>, k: nat)
    requires all == head + tail && k <= |head|
    ensures all[..k] == head[..k]
  {
  }

  /** When a lone surrogate is written, the host has replaced it. */
  lemma ReplacementKept(s: Utf16, max: nat) returns (rest: Utf16)
    requires CleanUnits(s) < |s| && |Encode(s[..CleanUnits(s)])| + 3 <= max
    ensures Fitting(Scalars(s), max) > |Scalars(s[..CleanUnits(s)])|
    ensures ToUtf16(Scalars(s)[..Fitting(Scalars(s), max)]) == s[..CleanUnits(s)] + [REPLACEMENT] + rest
  {
    var c := CleanUnits(s);
    var head, tail := Scalars(s[..c]), Scalars(s[c..]);
    CleanPrefix(s);
    WellFormedRoundTrip(s[..c]);
    var n, k := |head| + 1, Fitting(Scalars(s), max);
    assert Scalars(s)[..n] == head + [REPLACEMENT];
    ToUtf8Split(head + [REPLACEMENT], |head|);
    assert (head + [REPLACEMENT])[..|head|] == head && (head + [REPLACEMENT])[|head|..] == [REPLACEMENT];
    assert [REPLACEMENT][1..] == [];
    FittingIsLongest(Scalars(s), max, n);
    var kept := Scalars(s)[..k];
    ToUtf16Split(kept, n);
    PrefixOfPrefix(Scalars(s), k, n);
    ToUtf16Split(head + [REPLACEMENT], |head|);
    assert ToUtf16([REPLACEMENT]) == [REPLACEMENT];
    rest := ToUtf16(kept[n..]);
  }

  lemma BomDropped(kept: seq<Scalar>)
    requires kept != [] && kept[0] == BOM
    ensures ToUtf16(kept) == [0xFEFF] + ToUtf16(kept[1..])
  {
  }

  /** Neither with nor without its first unit does a text with a replacement agree with the original. */
  lemma ReplacedDiffers(s: Utf16, c: nat, k: nat, rest: Utf16)
    requires c < |s| && k <= |s| && s[c] != REPLACEMENT
    ensures s[..k] != s[..c] + [REPLACEMENT] + rest
    ensures c > 0 && s[0] == 0xFEFF ==> s[..k] != (s[..c] + [REPLACEMENT] + rest)[1..]
  {
    var h := s[..c] + [REPLACEMENT] + rest;
    assert h[c] == REPLACEMENT;
    assert k > c ==> s[..k][c] == s[c];
    if c > 0 && s[0] == 0xFEFF && s[..k] == h[1..] {
      assert h[1..][c - 1] == REPLACEMENT;
      AllSame(s, c, k, h);
    }
  }

  lemma {:induction false} AllSame(s: Utf16, c: nat, k: nat, h: Utf16)
    requires 0 < c <= |s| && k <= |s| && |h| > c && s[..c] == h[..c] && s[..k] == h[1..]
    ensures s[c - 1] == s[0]
    decreases c
  {
    if c > 1 {
      assert s[..c - 1] == s[..c][..c - 1] && h[..c - 1] == h[..c][..c - 1];
      AllSame(s, c - 1, k, h);
      assert h[1..][c - 2] == h[c - 1] && s[..k][c - 2] == s[c - 2];
      assert s[..c][c - 1] == h[..c][c - 1];
    }
  }

  /** For every text: when its bytes fit, the two cuts agree exactly when the executor's widths fit too;
      when they do not, exactly when no byte-order mark is dropped and the cap leaves no room for the
      first lone surrogate, if there is one. */
  lemma TruncationsAgreeExactly(s: Utf16, max: nat)
    ensures HostTruncated(s, max) == s[..UnitsFitting(s, max)] <==>
      if |Encode(s)| <= max then WidthSum(s) <= max
      else
        && !(s[0] == 0xFEFF && max >= 3)
        && (CleanUnits(s) < |s| ==> max < |Encode(s[..CleanUnits(s)])| + 3)
  {
    if |Encode(s)| <= max {
      AllUnitsFit(s, max);
      assert s[..|s|] == s;
    } else {
      var cs, k := Scalars(s), UnitsFitting(s, max);
      var kept := cs[..Fitting(cs, max)];
      FirstScalar(s, max);
      if CleanUnits(s) < |s| && |Encode(s[..CleanUnits(s)])| + 3 <= max {
        var rest := ReplacementKept(s, max);
        CleanPrefix(s);
        ReplacedDiffers(s, CleanUnits(s), k, rest);
        if kept[0] == BOM {
          BomDropped(kept);
        }
      } else {
        CutInCleanPart(s, max);
        if kept != [] && kept[0] == BOM {
          BomDropped(kept);
        }
      }
    }
  }

  /** The first scalar value is a byte-order mark exactly when the first unit is, and it is kept when
      three bytes fit. */
  lemma FirstScalar(s: Utf16, max: nat)
    requires s != []
    ensures Scalars(s)[0] == BOM <==> s[0] == 0xFEFF
    ensures s[0] == 0xFEFF ==> (Fitting(Scalars(s), max) > 0 <==> max >= 3) && CleanUnits(s) > 0
  {
  }
}
