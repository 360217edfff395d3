/** The machine's SMBIOS UUID: found in the table, rejected when blank, printed and read back. */
module SystemUuid {
  import opened ByteStrings
  import opened Smbios

  predicate IsSystemInfo(s: Structure) { s.typ == 1 && s.Length() >= 24 }

  predicate AllSame(b: Bytes, v: byte) { forall i :: 0 <= i < |b| ==> b[i] == v }

  /** The UUID field of the first Type 1 structure long enough to have one. */
  function FirstUuid(structures: seq<Structure>): Bytes {
    if structures == [] then []
    else if IsSystemInfo(structures[0]) then structures[0].data[8..24]
    else FirstUuid(structures[1..])
  }

  method IsAllZeroOrFF(b: Bytes) returns (r: bool)
    ensures r <==> AllSame(b, 0x00) || AllSame(b, 0xFF)
  {
    var all0, allF := true, true;
    for k := 0 to |b|
      invariant all0 == AllSame(b[..k], 0x00)
      invariant allF == AllSame(b[..k], 0xFF)
    {
      assert b[..k + 1] == b[..k] + [b[k]];
      if b[k] != 0x00 {
        assert b[..k + 1][k] != 0x00;
        all0 := false;
      }
      if b[k] != 0xFF {
        assert b[..k + 1][k] != 0xFF;
        allF := false;
      }
    }
    assert b[..|b|] == b;
    return all0 || allF;
  }

  lemma {:induction false} ReportedFindsFirst(vs: seq<Visit>)
    ensures var seen := Reported(vs, s => IsSystemInfo(s));
      FirstUuid(StructuresOf(vs)) ==
      if seen != [] && IsSystemInfo(seen[|seen| - 1]) then seen[|seen| - 1].data[8..24] else []
  {
    if vs == [] {
    } else {
      ReportedFindsFirst(vs[1..]);
    }
  }

  method FindType1UUIDFromTable(table: Bytes) returns (out: Bytes)
    ensures out == FirstUuid(StructuresOf(Visits(table, 0)))
    ensures out == [] || |out| == 16
  {
    out := [];
    var seen := WalkSMBIOSStructures(table, s => IsSystemInfo(s));
    ReportedFindsFirst(Visits(table, 0));
    if seen != [] && IsSystemInfo(seen[|seen| - 1]) {
      out := seen[|seen| - 1].data[8..24];
    }
  }

  // ---------- The text form ----------

  function HexDigit(n: nat): char
    requires n < 16
  {
    if n < 10 then '0' + n as char else 'a' + (n - 10) as char
  }

  function Pow16(n: nat): (p: nat)
    ensures p > 0
  {
    if n == 0 then 1 else 16 * Pow16(n - 1)
  }

  /** fmt's %0<width>x for a number that fits. */
  function Hex(n: nat, width: nat): (s: string)
    requires n < Pow16(width)
    ensures |s| == width
  {
    if width == 0 then [] else Hex(n / 16, width - 1) + [HexDigit(n % 16)]
  }

  function LittleEndian(b: Bytes): nat {
    if b == [] then 0 else b[0] + 256 * LittleEndian(b[1..])
  }

  lemma {:induction false} LittleEndianBound(b: Bytes)
    ensures LittleEndian(b) < Pow16(2 * |b|)
  {
    if b == [] {
    } else {
      LittleEndianBound(b[1..]);
      assert Pow16(2 * |b|) == 16 * Pow16(2 * |b| - 1) == 256 * Pow16(2 * |b[1..]|);
    }
  }

  function LittleHex(b: Bytes): string {
    LittleEndianBound(b);
    Hex(LittleEndian(b), 2 * |b|)
  }

  function BytesHex(b: Bytes): string {
    if b == [] then [] else ByteHex(b[0]) + BytesHex(b[1..])
  }

  function ByteHex(v: byte): string {
    assert Pow16(2) == 256;
    Hex(v, 2)
  }

  /** First three fields little-endian, the rest in order. */
  function UuidText(u: Bytes): string
    requires |u| == 16
  {
    LittleHex(u[0..4]) + "-" + LittleHex(u[4..6]) + "-" + LittleHex(u[6..8]) + "-" +
    BytesHex(u[8..10]) + "-" + BytesHex(u[10..16])
  }

  // ---------- Reading the text back ----------

  function HexValue(c: char): nat {
    if '0' <= c <= '9' then (c - '0') as int
    else if 'a' <= c <= 'f' then (c - 'a') as int + 10
    else 0
  }

  function FromHex(s: string): nat {
    if s == "" then 0 else FromHex(s[..|s| - 1]) * 16 + HexValue(s[|s| - 1])
  }

  function PutLittleEndian(n: nat, width: nat): Bytes {
    if width == 0 then [] else [n % 256] + PutLittleEndian(n / 256, width - 1)
  }

  function BytesFromHex(s: string): Bytes
    requires |s| % 2 == 0
  {
    if s == "" then [] else [FromHex(s[..2]) % 256] + BytesFromHex(s[2..])
  }

  /** The 16 bytes behind a UUID text, under the mixed-endian layout of DSP0134 section 7.2.1. */
  function ParseUuid(s: string): Bytes
    requires |s| == 36
  {
    PutLittleEndian(FromHex(s[0..8]), 4) + PutLittleEndian(FromHex(s[9..13]), 2) +
    PutLittleEndian(FromHex(s[14..18]), 2) + BytesFromHex(s[19..23]) + BytesFromHex(s[24..36])
  }

  lemma DigitReadsBack(s: string, d: nat)
    requires d < 16
    ensures FromHex(s + [HexDigit(d)]) == FromHex(s) * 16 + d
  {
    assert (s + [HexDigit(d)])[..|s|] == s;
    assert HexValue(HexDigit(d)) == d;
  }

  lemma {:induction false} HexReadsBack(n: nat, width: nat)
    requires n < Pow16(width)
    ensures FromHex(Hex(n, width)) == n
  {
    if width == 0 {
    } else {
      HexReadsBack(n / 16, width - 1);
      DigitReadsBack(Hex(n / 16, width - 1), n % 16);
    }
  }

  lemma {:induction false} LittleEndianReadsBack(b: Bytes)
    ensures PutLittleEndian(LittleEndian(b), |b|) == b
  {
    if b == [] {
    } else {
      LittleEndianReadsBack(b[1..]);
      assert b == [b[0]] + b[1..];
    }
  }

  lemma LittleHexReadsBack(b: Bytes)
    ensures |LittleHex(b)| == 2 * |b| && PutLittleEndian(FromHex(LittleHex(b)), |b|) == b
  {
    LittleEndianBound(b);
    HexReadsBack(LittleEndian(b), 2 * |b|);
    LittleEndianReadsBack(b);
  }

  lemma {:induction false} BytesHexReadsBack(b: Bytes)
    ensures |BytesHex(b)| == 2 * |b| && BytesFromHex(BytesHex(b)) == b
  {
    if b == [] {
    } else {
      BytesHexReadsBack(b[1..]);
      assert Pow16(2) == 256;
      HexReadsBack(b[0], 2);
      assert BytesHex(b)[..2] == ByteHex(b[0]) && BytesHex(b)[2..] == BytesHex(b[1..]);
      assert b == [b[0]] + b[1..];
    }
  }

  /** Hyphens at 8, 13, 18 and 23, and lower-case hexadecimal digits everywhere else. */
  ghost predicate UuidForm(s: string) {
    && |s| == 36 && s[8] == s[13] == s[18] == s[23] == '-'
    && forall i :: 0 <= i < 36 && i !in {8, 13, 18, 23} ==> s[i] in "0123456789abcdef"
  }

  /** The two digits of a byte stand at position `p`. */
  ghost predicate PairAt(s: string, p: nat, v: byte) {
    p + 1 < |s| && s[p] == "0123456789abcdef"[v / 16] && s[p + 1] == "0123456789abcdef"[v % 16]
  }

  /** The digits of the bytes stand from position `p` on, first byte first. */
  ghost predicate Forward(s: string, p: nat, b: Bytes) {
    forall k :: 0 <= k < |b| ==> PairAt(s, p + 2 * k, b[k])
  }

  /** The digits of the bytes stand from position `p` on, last byte first. */
  ghost predicate Backward(s: string, p: nat, b: Bytes) {
    forall k :: 0 <= k < |b| ==> PairAt(s, p + 2 * (|b| - 1 - k), b[k])
  }

  lemma BytePair(v: byte)
    ensures ByteHex(v) == [HexDigit(v / 16), HexDigit(v % 16)]
    ensures HexDigit(v / 16) == "0123456789abcdef"[v / 16] && HexDigit(v % 16) == "0123456789abcdef"[v % 16]
  {
    assert Hex(v / 16, 1) == [] + [HexDigit(v / 16 % 16)];
    DigitOf(v / 16);
    DigitOf(v % 16);
  }

  lemma DigitOf(d: nat)
    requires d < 16
    ensures HexDigit(d) == "0123456789abcdef"[d]
  {}

  lemma {:induction false} BytesHexForward(b: Bytes)
    ensures |BytesHex(b)| == 2 * |b| && Forward(BytesHex(b), 0, b)
  {
    if b == [] {
    } else {
      BytesHexForward(b[1..]);
      BytePair(b[0]);
      hide HexDigit, ByteHex;
      var s, t := BytesHex(b), BytesHex(b[1..]);
      forall k | 0 <= k < |b| ensures PairAt(s, 0 + 2 * k, b[k]) {
        if k > 0 {
          assert PairAt(t, 0 + 2 * (k - 1), b[1..][k - 1]);
          assert s[2 * k] == t[2 * k - 2] && s[2 * k + 1] == t[2 * k - 1];
        }
      }
    }
  }

  lemma LittleHexStep(b: Bytes)
    requires b != []
    ensures LittleHex(b) == LittleHex(b[1..]) + [HexDigit(b[0] / 16), HexDigit(b[0] % 16)]
  {
    LittleEndianBound(b);
    LittleEndianBound(b[1..]);
    var n, rest, w := LittleEndian(b), LittleEndian(b[1..]), 2 * |b|;
    assert n / 16 / 16 == rest && n / 16 % 16 == b[0] / 16 && n % 16 == b[0] % 16;
    assert Hex(n, w) == Hex(n / 16, w - 1) + [HexDigit(n % 16)];
    assert Hex(n / 16, w - 1) == Hex(n / 16 / 16, w - 2) + [HexDigit(n / 16 % 16)];
  }

  lemma {:induction false} LittleHexBackward(b: Bytes)
    ensures |LittleHex(b)| == 2 * |b| && Backward(LittleHex(b), 0, b)
  {
    if b == [] {
    } else {
      LittleHexBackward(b[1..]);
      LittleHexStep(b);
      BytePair(b[0]);
      hide HexDigit, LittleHex;
      var s, t := LittleHex(b), LittleHex(b[1..]);
      forall k | 0 <= k < |b| ensures PairAt(s, 0 + 2 * (|b| - 1 - k), b[k]) {
        if k > 0 { assert PairAt(t, 0 + 2 * (|b[1..]| - 1 - (k - 1)), b[1..][k - 1]); }
      }
    }
  }

  lemma Moved(part: string, s: string, p: nat, b: Bytes)
    requires p + |part| <= |s| && s[p..p + |part|] == part && |part| == 2 * |b|
    ensures Forward(part, 0, b) ==> Forward(s, p, b)
    ensures Backward(part, 0, b) ==> Backward(s, p, b)
  {
    forall i | 0 <= i < |part| ensures s[p + i] == part[i] { assert s[p..p + |part|][i] == part[i]; }
    if Forward(part, 0, b) {
      forall k | 0 <= k < |b| ensures PairAt(s, p + 2 * k, b[k]) { assert PairAt(part, 0 + 2 * k, b[k]); }
    }
    if Backward(part, 0, b) {
      forall k | 0 <= k < |b| ensures PairAt(s, p + 2 * (|b| - 1 - k), b[k]) {
        assert PairAt(part, 0 + 2 * (|b| - 1 - k), b[k]);
      }
    }
  }

  lemma UuidParts(u: Bytes)
    requires |u| == 16
    ensures var s := UuidText(u);
      && |s| == 36 && s[8] == s[13] == s[18] == s[23] == '-'
      && s[0..8] == LittleHex(u[0..4]) && s[9..13] == LittleHex(u[4..6]) && s[14..18] == LittleHex(u[6..8])
      && s[19..23] == BytesHex(u[8..10]) && s[24..36] == BytesHex(u[10..16])
  {
    hide LittleHex, BytesHex;
    LittleHexBackward(u[0..4]);
    LittleHexBackward(u[4..6]);
    LittleHexBackward(u[6..8]);
    BytesHexForward(u[8..10]);
    BytesHexForward(u[10..16]);
  }

  /** Where each byte is printed: the first three fields last byte first, the others in order. */
  lemma UuidLayout(u: Bytes)
    requires |u| == 16
    ensures var s := UuidText(u);
      && Backward(s, 0, u[0..4]) && Backward(s, 9, u[4..6]) && Backward(s, 14, u[6..8])
      && Forward(s, 19, u[8..10]) && Forward(s, 24, u[10..16])
  {
    hide LittleHex, BytesHex, UuidText, Forward, Backward;
    var s := UuidText(u);
    UuidParts(u);
    LittleHexBackward(u[0..4]);
    LittleHexBackward(u[4..6]);
    LittleHexBackward(u[6..8]);
    BytesHexForward(u[8..10]);
    BytesHexForward(u[10..16]);
    Moved(s[0..8], s, 0, u[0..4]);
    Moved(s[9..13], s, 9, u[4..6]);
    Moved(s[14..18], s, 14, u[6..8]);
    Moved(s[19..23], s, 19, u[8..10]);
    Moved(s[24..36], s, 24, u[10..16]);
  }

  lemma UuidHasForm(u: Bytes)
    requires |u| == 16
    ensures UuidForm(UuidText(u))
  {
    hide UuidText;
    var s := UuidText(u);
    UuidParts(u);
    UuidLayout(u);
    DigitsBackward(s, 0, u[0..4]);
    DigitsBackward(s, 9, u[4..6]);
    DigitsBackward(s, 14, u[6..8]);
    DigitsForward(s, 19, u[8..10]);
    DigitsForward(s, 24, u[10..16]);
    forall i | 0 <= i < 36 && i !in {8, 13, 18, 23} ensures s[i] in "0123456789abcdef" {
      assert DigitAt(s, i);
    }
  }

  ghost predicate DigitAt(s: string, i: nat) { i < |s| && s[i] in "0123456789abcdef" }

  lemma PairIsDigits(s: string, p: nat, v: byte, i: nat)
    requires PairAt(s, p, v) && p <= i <= p + 1
    ensures DigitAt(s, i)
  {
    var digits := "0123456789abcdef";
    assert digits[v / 16] in digits && digits[v % 16] in digits;
  }

  lemma DigitsForward(s: string, p: nat, b: Bytes)
    requires Forward(s, p, b)
    ensures forall i: nat :: p <= i < p + 2 * |b| ==> DigitAt(s, i)
  {
    forall i: nat | p <= i < p + 2 * |b| ensures DigitAt(s, i) {
      var k := (i - p) / 2;
      assert PairAt(s, p + 2 * k, b[k]);
      PairIsDigits(s, p + 2 * k, b[k], i);
    }
  }

  lemma DigitsBackward(s: string, p: nat, b: Bytes)
    requires Backward(s, p, b)
    ensures forall i: nat :: p <= i < p + 2 * |b| ==> DigitAt(s, i)
  {
    forall i: nat | p <= i < p + 2 * |b| ensures DigitAt(s, i) {
      var k := |b| - 1 - (i - p) / 2;
      assert PairAt(s, p + 2 * (|b| - 1 - k), b[k]);
      PairIsDigits(s, p + 2 * (|b| - 1 - k), b[k], i);
    }
  }

  /** The text is 36 characters of the usual form and determines the 16 bytes. */
  lemma UuidReadsBack(u: Bytes)
    requires |u| == 16
    ensures var s := UuidText(u);
      && |s| == 36 && s[8] == s[13] == s[18] == s[23] == '-'
      && (forall i :: 0 <= i < 36 && i !in {8, 13, 18, 23} ==> s[i] in "0123456789abcdef")
      && ParseUuid(s) == u
  {
    hide LittleHex, BytesHex, BytesFromHex, PutLittleEndian, FromHex, UuidText;
    UuidHasForm(u);
    UuidParts(u);
    LittleHexReadsBack(u[0..4]);
    LittleHexReadsBack(u[4..6]);
    LittleHexReadsBack(u[6..8]);
    BytesHexReadsBack(u[8..10]);
    BytesHexReadsBack(u[10..16]);
    assert u == u[0..4] + u[4..6] + u[6..8] + u[8..10] + u[10..16];
  }

  /** Machines with different UUIDs never get the same text. */
  lemma TextIdentifies(u: Bytes, v: Bytes)
    requires |u| == |v| == 16 && UuidText(u) == UuidText(v)
    ensures u == v
  {
    UuidReadsBack(u);
    UuidReadsBack(v);
  }

  ghost predicate Blank(u: Bytes) { |u| != 16 || AllSame(u, 0x00) || AllSame(u, 0xFF) }

  /** platformSMBIOSUUID, given the raw table: empty exactly when the first Type 1 structure with a
      UUID is missing or blank, and otherwise a text from which its 16 bytes can be read back. */
  method PlatformSMBIOSUUID(table: Bytes) returns (text: string)
    ensures text == "" <==> Blank(FirstUuid(StructuresOf(Visits(table, 0))))
    ensures text != "" ==>
              && |text| == 36 && text[8] == text[13] == text[18] == text[23] == '-'
              && (forall i :: 0 <= i < 36 && i !in {8, 13, 18, 23} ==> text[i] in "0123456789abcdef")
              && ParseUuid(text) == FirstUuid(StructuresOf(Visits(table, 0)))
    ensures text != "" ==> text == UuidText(FirstUuid(StructuresOf(Visits(table, 0))))
  {
    if table == [] { return ""; }
    var uuid := FindType1UUIDFromTable(table);
    if |uuid| != 16 { return ""; }
    var blank := IsAllZeroOrFF(uuid);
    if blank { return ""; }
    UuidReadsBack(uuid);
    return UuidText(uuid);
  }

  // ---------- Encoded tables ----------

  /** Among structures as firmware writes them, the UUID is that of the first one of type 1 that has its
      24 bytes, 6 bytes behind the handle's start; without one there is none. */
  lemma {:induction false} UuidOfSources(before: seq<Source>, s: Source, after: seq<Source>)
    requires forall x :: x in before ==> !(x.typ == 1 && |x.rest| >= 22)
    ensures s.typ == 1 && |s.rest| >= 22 && |s.rest| <= 253 ==>
              FirstUuid(WalkedAll(before + [s] + after)) == s.rest[6..22]
    ensures FirstUuid(WalkedAll(before)) == []
  {
    if before == [] {
      assert [] + [s] + after == [s] + after && ([s] + after)[1..] == after;
    } else {
      var all := before + [s] + after;
      assert before[0] in before;
      assert all[0] == before[0] && all[1..] == before[1..] + [s] + after;
      UuidOfSources(before[1..], s, after);
    }
  }

  lemma UuidOfEncoded(before: seq<Source>, s: Source, after: seq<Source>)
    requires AllWellFormed(before + [s] + after)
    requires forall x :: x in before ==> !(x.typ == 1 && |x.rest| >= 22)
    ensures s.typ == 1 && |s.rest| >= 22 ==>
              FirstUuid(StructuresOf(Visits(EncodeAll(before + [s] + after), 0))) == s.rest[6..22]
    ensures AllWellFormed(before) ==> FirstUuid(StructuresOf(Visits(EncodeAll(before), 0))) == []
  {
    var all := before + [s] + after;
    assert all[|before|] == s;
    UuidOfSources(before, s, after);
    RoundTrip(all);
    if AllWellFormed(before) { RoundTrip(before); }
  }
}
