/** The debug server's WebSocket client: reading one frame from the connection. */
module WebSocketFrame {
  import opened Options

  type Octets = seq<bv8>

  const INT64_LIMIT: nat := 0x8000_0000_0000_0000

  /** The longest slice Go's runtime agrees to make: 2^48 bytes on amd64. */
  type AllocLimit = n: nat | 0 < n < INT64_LIMIT witness 1

  datatype Error = EOF | UnexpectedEOF

  /** `Panics` is Go's run-time panic on making a slice of negative or excessive length. */
  datatype Outcome = Frame(opcode: bv8, payload: Octets) | Failed(error: Error) | Panics

  datatype Parsed = Parsed(outcome: Outcome, rest: Octets)

  // ---------- The frame as RFC 6455 section 5.2 lays it out ----------

  datatype Form = Short | Medium | Long {
    function ExtraBytes(): nat { match this case Short => 0 case Medium => 2 case Long => 8 }
    function Limit(): nat { match this case Short => 126 case Medium => 0x10000 case Long => INT64_LIMIT }
  }

  /** `flags` holds FIN and the reserved bits. The section asks senders for the shortest form;
      a reader meets any. */
  datatype Source = Source(flags: bv8, opcode: bv8, key: Option<Octets>, form: Form, payload: Octets) {
    predicate WellFormed() {
      && FitHeader(flags, opcode)
      && (key.Some? ==> |key.value| == 4)
      && |payload| < form.Limit()
    }
  }

  function OpcodeOf(b1: bv8): bv8 { b1 & 0x0f }

  predicate MaskedBit(b2: bv8) { b2 & 0x80 != 0 }

  function CodeOf(b2: bv8): bv8 { b2 & 0x7f }

  function FirstOctet(flags: bv8, opcode: bv8): bv8 { flags | opcode }

  function SecondOctet(masked: bool, code: bv8): bv8 { (if masked then 0x80 else 0) | code }

  predicate FitHeader(flags: bv8, opcode: bv8) { flags & 0x0f == 0 && opcode < 0x10 }

  /** Section 5.3: octet i is combined with octet i mod 4 of the masking key. */
  function Mask(payload: Octets, key: Octets): (r: Octets)
    requires |key| == 4
    ensures |r| == |payload|
  {
    seq(|payload|, i requires 0 <= i < |payload| => payload[i] ^ key[i % 4])
  }

  function Value(ext: Octets): nat {
    if ext == [] then 0 else Value(ext[..|ext| - 1]) * 256 + ext[|ext| - 1] as int
  }

  function PutValue(n: nat, width: nat): (r: Octets)
    ensures |r| == width
  {
    if width == 0 then [] else PutValue(n / 256, width - 1) + [(n % 256) as bv8]
  }

  function LengthCode(f: Source): bv8
    requires f.WellFormed()
  {
    match f.form case Short => |f.payload| as bv8 case Medium => 126 case Long => 127
  }

  function Encode(f: Source): Octets
    requires f.WellFormed()
  {
    [FirstOctet(f.flags, f.opcode), SecondOctet(f.key.Some?, LengthCode(f))] +
    (PutValue(|f.payload|, f.form.ExtraBytes()) + Tail(f))
  }

  function Tail(f: Source): Octets
    requires f.WellFormed()
  {
    if f.key.Some? then f.key.value + Mask(f.payload, f.key.value) else f.payload
  }

  // ---------- What readFrame makes of any input ----------

  /** io.ReadFull on an input that is too short consumes it. */
  function Cut(s: Octets): Parsed {
    Parsed(Failed(if s == [] then EOF else UnexpectedEOF), [])
  }

  function FormOf(code: bv8): Form {
    if code == 126 then Medium else if code == 127 then Long else Short
  }

  /** Go's conversion of a uint64 to int. */
  function ToInt(n: nat): int {
    if n < INT64_LIMIT then n else n - 2 * INT64_LIMIT
  }

  function LengthOf(code: bv8, ext: Octets): int {
    if FormOf(code).Short? then code as int else ToInt(Value(ext))
  }

  function Parse(max: AllocLimit, input: Octets): Parsed {
    if |input| < 2 then Cut(input) else ParseLength(max, input[0], input[1], input[2..])
  }

  function ParseLength(max: AllocLimit, b1: bv8, b2: bv8, s: Octets): Parsed {
    var k := FormOf(CodeOf(b2)).ExtraBytes();
    if |s| < k then Cut(s)
    else ParseKey(max, OpcodeOf(b1), MaskedBit(b2), LengthOf(CodeOf(b2), s[..k]), s[k..])
  }

  function ParseKey(max: AllocLimit, opcode: bv8, masked: bool, plen: int, s: Octets): Parsed {
    if !masked then ParsePayload(max, opcode, None, plen, s)
    else if |s| < 4 then Cut(s)
    else ParsePayload(max, opcode, Some(s[..4]), plen, s[4..])
  }

  function ParsePayload(max: AllocLimit, opcode: bv8, key: Option<Octets>, plen: int, s: Octets): Parsed
    requires key.Some? ==> |key.value| == 4
  {
    if plen < 0 || plen > max then Parsed(Panics, s)
    else if |s| < plen then Cut(s)
    else Parsed(Frame(opcode, Unmasked(s[..plen], key)), s[plen..])
  }

  function Unmasked(s: Octets, key: Option<Octets>): Octets
    requires key.Some? ==> |key.value| == 4
  {
    if key.Some? then Mask(s, key.value) else s
  }

  // ---------- The reader ----------

  class FrameReader {
    var input: Octets
    const maxAlloc: AllocLimit

    constructor (stream: Octets, maxAlloc: AllocLimit)
      ensures input == stream && this.maxAlloc == maxAlloc
    {
      this.input, this.maxAlloc := stream, maxAlloc;
    }

    method ReadFull(buf: array<bv8>) returns (error: Option<Error>)
      modifies this, buf
      ensures |old(input)| < buf.Length ==>
                error == Some(if old(input) == [] then EOF else UnexpectedEOF) && input == []
      ensures |old(input)| >= buf.Length ==>
                error == None && buf[..] == old(input)[..buf.Length] && input == old(input)[buf.Length..]
    {
      var n := if |input| < buf.Length then |input| else buf.Length;
      var i := 0;
      while i < n
        invariant 0 <= i <= n && input == old(input)
        invariant buf[..i] == input[..i]
      {
        buf[i] := input[i];
        i := i + 1;
      }
      error := if n == buf.Length then None else if n == 0 then Some(EOF) else Some(UnexpectedEOF);
      input := input[n..];
    }

    /** readFrame: two octets, the length, and then the rest of it. */
    method ReadFrame() returns (outcome: Outcome)
      modifies this
      ensures Parsed(outcome, input) == Parse(maxAlloc, old(input))
    {
      hide ParseKey, LengthOf, FormOf;
      var hdr := new bv8[2];
      var error := ReadFull(hdr);
      if error.Some? { return Failed(error.value); }
      var b1, b2 := hdr[0], hdr[1];
      assert Parse(maxAlloc, old(input)) == ParseLength(maxAlloc, b1, b2, input);
      var plen;
      plen, error := ReadLength(b2 & 0x7f);
      if error.Some? { return Failed(error.value); }
      outcome := ReadBody(b1 & 0x0f, b2 & 0x80 != 0, plen);
    }

    method ReadLength(code: bv8) returns (plen: int, error: Option<Error>)
      modifies this
      ensures var k := FormOf(code).ExtraBytes();
        if |old(input)| < k then
          error == Some(if old(input) == [] then EOF else UnexpectedEOF) && input == []
        else error == None && plen == LengthOf(code, old(input)[..k]) && input == old(input)[k..]
    {
      hide Value, FormOf, LengthOf;
      plen, error := code as int, None;
      LengthByForm(code, []);
      if code == 126 {
        var ext := new bv8[2];
        error := ReadFull(ext);
        if error.Some? { return; }
        plen := ext[0] as int * 256 + ext[1] as int;
        TwoOctets(ext[..]);
        LengthByForm(code, ext[..]);
      } else if code == 127 {
        var ext := new bv8[8];
        error := ReadFull(ext);
        if error.Some? { return; }
        var n := Fold(ext);
        plen := ToInt(n);
        LengthByForm(code, ext[..]);
      }
    }

    method ReadBody(opcode: bv8, masked: bool, plen: int) returns (outcome: Outcome)
      modifies this
      ensures Parsed(outcome, input) == ParseKey(maxAlloc, opcode, masked, plen, old(input))
    {
      hide Mask;
      var maskKey := new bv8[4];
      if masked {
        var error := ReadFull(maskKey);
        if error.Some? { return Failed(error.value); }
      }
      ghost var key := if masked then Some(maskKey[..]) else None;
      assert ParseKey(maxAlloc, opcode, masked, plen, old(input)) == ParsePayload(maxAlloc, opcode, key, plen, input);
      label body:
      if plen < 0 || plen > maxAlloc { return Panics; }
      var payload := new bv8[plen];
      if plen > 0 {
        var error := ReadFull(payload);
        if error.Some? { return Failed(error.value); }
      }
      assert payload[..] == old@body(input)[..plen] && input == old@body(input)[plen..];
      if masked { Unmask(payload, maskKey); }
      assert payload[..] == Unmasked(old@body(input)[..plen], key);
      return Frame(opcode, payload[..]);
    }
  }

  lemma LengthByForm(code: bv8, ext: Octets)
    ensures FormOf(code) == if code == 126 then Medium else if code == 127 then Long else Short
    ensures LengthOf(code, ext) == if FormOf(code).Short? then code as int else ToInt(Value(ext))
  {
    hide Value, ToInt;
  }

  /** The length bytes folded in 64 bits: eight of them never wrap. */
  method Fold(ext: array<bv8>) returns (n: nat)
    requires ext.Length == 8
    ensures n == Value(ext[..])
  {
    n := 0;
    var i, bound := 0, 1;
    while i < 8
      invariant 0 <= i <= 8
      invariant n == Value(ext[..i]) && n < bound
      invariant bound == match i case 0 => 1 case 1 => 0x100 case 2 => 0x1_0000 case 3 => 0x100_0000
        case 4 => 0x1_0000_0000 case 5 => 0x100_0000_0000 case 6 => 0x1_0000_0000_0000
        case 7 => 0x100_0000_0000_0000 case _ => 0x1_0000_0000_0000_0000
    {
      assert ext[..i + 1][..i] == ext[..i];
      n := n * 256 % (2 * INT64_LIMIT) + ext[i] as int;
      bound := bound * 256;
      i := i + 1;
    }
    assert ext[..8] == ext[..];
  }

  /** The in-place unmasking loop. */
  method Unmask(payload: array<bv8>, maskKey: array<bv8>)
    requires maskKey.Length == 4 && payload != maskKey
    modifies payload
    ensures payload[..] == Mask(old(payload[..]), maskKey[..])
  {
    ghost var before, key := payload[..], maskKey[..];
    hide Mask;
    var i := 0;
    while i < payload.Length
      invariant 0 <= i <= payload.Length && maskKey[..] == key
      invariant forall k :: 0 <= k < i ==> payload[k] == Mask(before, key)[k]
      invariant forall k :: i <= k < payload.Length ==> payload[k] == before[k]
    {
      MaskAt(before, key, i);
      payload[i] := payload[i] ^ maskKey[i % 4];
      i := i + 1;
    }
  }

  lemma MaskAt(payload: Octets, key: Octets, i: nat)
    requires |key| == 4 && i < |payload|
    ensures Mask(payload, key)[i] == payload[i] ^ key[i % 4]
  {}

  lemma TwoOctets(ext: Octets)
    requires |ext| == 2
    ensures Value(ext) == ext[0] as int * 256 + ext[1] as int < INT64_LIMIT
  {
    assert ext[..1][..0] == [];
    assert Value(ext[..1]) == ext[0] as int;
  }

  // ---------- Bits and bytes ----------

  lemma FirstReadsBack(flags: bv8, opcode: bv8)
    requires FitHeader(flags, opcode)
    ensures OpcodeOf(FirstOctet(flags, opcode)) == opcode
  {}

  lemma SecondReadsBack(masked: bool, code: bv8)
    requires code < 0x80
    ensures CodeOf(SecondOctet(masked, code)) == code
    ensures MaskedBit(SecondOctet(masked, code)) <==> masked
  {}

  lemma FirstWritesBack(b: bv8)
    ensures FitHeader(b & 0xf0, OpcodeOf(b))
    ensures FirstOctet(b & 0xf0, OpcodeOf(b)) == b
  {}

  lemma SecondWritesBack(b: bv8)
    ensures CodeOf(b) < 0x80
    ensures SecondOctet(MaskedBit(b), CodeOf(b)) == b
  {}

  lemma XorTwice(a: bv8, b: bv8)
    ensures (a ^ b) ^ b == a
  {}

  /** The n-th octet, counting up. */
  function Octet(n: nat): bv8 { if n == 0 then 0 else Octet(n - 1) + 1 }

  lemma Successor(b: bv8)
    requires b as int < 255
    ensures (b + 1) as int == b as int + 1
  {}

  lemma {:induction false} OctetValue(n: nat)
    requires n < 0x100
    ensures Octet(n) as int == n
  {
    if n == 0 {
    } else {
      OctetValue(n - 1);
      Successor(Octet(n - 1));
    }
  }

  lemma OctetBack(n: int)
    requires 0 <= n < 0x100
    ensures (n as bv8) as int == n
  {
    hide Octet;
    OctetValue(n);
    VectorBack(Octet(n));
  }

  lemma VectorBack(b: bv8)
    ensures (b as int) as bv8 == b
  {}

  function Cap(width: nat): nat { if width == 0 then 1 else 256 * Cap(width - 1) }

  lemma {:induction false} ValueOfPut(n: nat, width: nat)
    requires n < Cap(width)
    ensures Value(PutValue(n, width)) == n
  {
    if width == 0 {
    } else {
      ValueOfPut(n / 256, width - 1);
      OctetBack(n % 256);
      assert PutValue(n, width)[..width - 1] == PutValue(n / 256, width - 1);
    }
  }

  lemma {:induction false} PutOfValue(ext: Octets)
    ensures PutValue(Value(ext), |ext|) == ext
    ensures Value(ext) < Cap(|ext|)
  {
    if ext == [] {
    } else {
      var init, last := ext[..|ext| - 1], ext[|ext| - 1];
      PutOfValue(init);
      LastOctet(init, last);
      assert ext == init + [last];
    }
  }

  lemma LastOctet(init: Octets, last: bv8)
    ensures PutValue(Value(init + [last]), |init| + 1) == PutValue(Value(init), |init|) + [last]
    ensures Value(init + [last]) < 256 * Value(init) + 256
  {
    VectorBack(last);
    assert (init + [last])[..|init|] == init;
    var v := Value(init + [last]);
    assert v / 256 == Value(init) && v % 256 == last as int;
  }

  lemma Caps()
    ensures Cap(2) == 0x10000 && Cap(8) == 2 * INT64_LIMIT
  {
    assert Cap(4) == 0x1_0000_0000;
  }

  lemma MaskTwice(payload: Octets, key: Octets)
    requires |key| == 4
    ensures Mask(Mask(payload, key), key) == payload
  {
    forall i | 0 <= i < |payload| ensures Mask(Mask(payload, key), key)[i] == payload[i] {
      XorTwice(payload[i], key[i % 4]);
    }
  }

  // ---------- Reading undoes writing ----------

  lemma LengthReadsBack(f: Source)
    requires f.WellFormed()
    ensures var code, ext := LengthCode(f), PutValue(|f.payload|, f.form.ExtraBytes());
      code < 0x80 && FormOf(code) == f.form && LengthOf(code, ext) == |f.payload|
  {
    if f.form.Short? {
      OctetBack(|f.payload|);
      OctetBack(126);
      OctetBack(127);
      BelowHalf(|f.payload| as bv8);
    } else {
      Caps();
      ValueOfPut(|f.payload|, f.form.ExtraBytes());
    }
  }

  lemma BelowHalf(b: bv8)
    ensures b < 0x80 <==> (b as int) < 0x80
  {}

  /** readFrame returns the opcode and the unmasked payload of any encoded frame, in any length
      form, masked or not, and consumes exactly that frame, as long as a slice can hold it. */
  lemma RoundTrip(max: AllocLimit, f: Source, rest: Octets)
    requires f.WellFormed()
    ensures |f.payload| <= max ==> Parse(max, Encode(f) + rest) == Parsed(Frame(f.opcode, f.payload), rest)
    ensures |f.payload| > max ==> Parse(max, Encode(f) + rest).outcome == Panics
  {
    hide OpcodeOf, MaskedBit, CodeOf, FirstOctet, SecondOctet, FitHeader;
    hide LengthCode, LengthOf, FormOf, PutValue, Tail, Parse, ParseKey;
    var code, ext := LengthCode(f), PutValue(|f.payload|, f.form.ExtraBytes());
    var b1, b2 := FirstOctet(f.flags, f.opcode), SecondOctet(f.key.Some?, code);
    LengthReadsBack(f);
    FirstReadsBack(f.flags, f.opcode);
    SecondReadsBack(f.key.Some?, code);
    TailReadsBack(max, f, rest);
    HeaderReadsBack(max, b1, b2, ext, Tail(f) + rest);
    assert Encode(f) + rest == [b1, b2] + (ext + (Tail(f) + rest));
  }

  lemma HeaderReadsBack(max: AllocLimit, b1: bv8, b2: bv8, ext: Octets, t: Octets)
    requires |ext| == FormOf(CodeOf(b2)).ExtraBytes()
    ensures Parse(max, [b1, b2] + (ext + t)) ==
            ParseKey(max, OpcodeOf(b1), MaskedBit(b2), LengthOf(CodeOf(b2), ext), t)
  {
    hide LengthOf, FormOf, ParseKey, OpcodeOf, MaskedBit, CodeOf;
    var s := ext + t;
    assert ([b1, b2] + s)[2..] == s;
    assert s[..|ext|] == ext && s[|ext|..] == t;
  }

  lemma TailReadsBack(max: AllocLimit, f: Source, rest: Octets)
    requires f.WellFormed()
    ensures var p := ParseKey(max, f.opcode, f.key.Some?, |f.payload|, Tail(f) + rest);
      if |f.payload| <= max then p == Parsed(Frame(f.opcode, f.payload), rest) else p.outcome == Panics
  {
    hide Mask;
    if f.key.Some? {
      var key, masked := f.key.value, Mask(f.payload, f.key.value);
      MaskTwice(f.payload, key);
      assert Tail(f) + rest == key + (masked + rest);
      assert (masked + rest)[..|masked|] == masked && (masked + rest)[|masked|..] == rest;
    } else {
      assert (f.payload + rest)[..|f.payload|] == f.payload && (f.payload + rest)[|f.payload|..] == rest;
    }
  }

  // ---------- The layout in numbers ----------

  /** Four bits of opcode, the mask bit, and seven bits of length or its form. */
  ghost predicate HeaderLaidOut(f: Source, b1: bv8, b2: bv8) {
    && b1 & 0x0f == f.opcode && b1 & 0xf0 == f.flags && (b2 & 0x80 == 0x80 <==> f.key.Some?)
    && match f.form
       case Short => (b2 & 0x7f) as int == |f.payload| < 126
       case Medium => b2 & 0x7f == 126
       case Long => b2 & 0x7f == 127
  }

  /** A longer length most significant octet first, and the rest behind it. */
  ghost predicate RestLaidOut(f: Source, t: Octets)
    requires f.WellFormed()
  {
    match f.form
    case Short => Content(f, t)
    case Medium => |t| >= 2 && |f.payload| == t[0] as int * 0x100 + t[1] as int && Content(f, t[2..])
    case Long =>
      |t| >= 8 && |f.payload| == EightOctets(t[..8]) < 0x8000_0000_0000_0000 && Content(f, t[8..])
  }

  /** An encoded frame octet by octet. */
  lemma EncodeLayout(f: Source)
    requires f.WellFormed()
    ensures var e := Encode(f);
      |e| >= 2 && HeaderLaidOut(f, e[0], e[1]) && RestLaidOut(f, e[2..])
  {
    hide FirstOctet, SecondOctet, HeaderLaidOut, RestLaidOut, LengthCode, Encode;
    EncodeParts(f);
    HeaderBits(f);
    RestOfFrame(f);
  }

  lemma RestOfFrame(f: Source)
    requires f.WellFormed()
    ensures RestLaidOut(f, PutValue(|f.payload|, f.form.ExtraBytes()) + Tail(f))
  {
    hide Content, Tail, PutValue, Value, EightOctets;
    var ext := PutValue(|f.payload|, f.form.ExtraBytes());
    var t := ext + Tail(f);
    assert t[..|ext|] == ext && t[|ext|..] == Tail(f);
    ContentOfTail(f);
    if !f.form.Short? {
      Caps();
      ValueOfPut(|f.payload|, |ext|);
      if f.form.Medium? { TwoOctets(ext); } else { LongValue(ext); }
    }
  }

  lemma EncodeParts(f: Source)
    requires f.WellFormed()
    ensures var e := Encode(f);
      && |e| >= 2 && e[0] == FirstOctet(f.flags, f.opcode) && e[1] == SecondOctet(f.key.Some?, LengthCode(f))
      && e[2..] == PutValue(|f.payload|, f.form.ExtraBytes()) + Tail(f)
  {
    hide FirstOctet, SecondOctet, Tail, LengthCode, PutValue;
  }

  function EightOctets(x: Octets): nat
    requires |x| == 8
  {
    var high := ((x[0] as int * 0x100 + x[1] as int) * 0x100 + x[2] as int) * 0x100 + x[3] as int;
    (((high * 0x100 + x[4] as int) * 0x100 + x[5] as int) * 0x100 + x[6] as int) * 0x100 + x[7] as int
  }

  /** What stands behind the length: the key and the masked payload, or the payload itself. */
  ghost predicate Content(f: Source, t: Octets)
    requires f.WellFormed()
  {
    if f.key.Some? then
      && |t| == 4 + |f.payload| && t[..4] == f.key.value
      && forall i :: 0 <= i < |f.payload| ==> t[4 + i] == f.payload[i] ^ t[i % 4]
    else t == f.payload
  }

  lemma ContentOfTail(f: Source)
    requires f.WellFormed()
    ensures Content(f, Tail(f))
  {
    if f.key.Some? {
      var t := Tail(f);
      assert t[..4] == f.key.value;
      forall i | 0 <= i < |f.payload| ensures t[4 + i] == f.payload[i] ^ t[i % 4] {
        MaskAt(f.payload, f.key.value, i);
        assert t[4 + i] == Mask(f.payload, f.key.value)[i] && t[i % 4] == t[..4][i % 4];
      }
    }
  }

  lemma HeaderBits(f: Source)
    requires f.WellFormed()
    ensures HeaderLaidOut(f, FirstOctet(f.flags, f.opcode), SecondOctet(f.key.Some?, LengthCode(f)))
  {
    hide FirstOctet, SecondOctet, LengthCode;
    CodeIs(f);
    FirstBits(f.flags, f.opcode);
    SecondBits(f.key.Some?, LengthCode(f));
  }

  lemma CodeIs(f: Source)
    requires f.WellFormed()
    ensures var code := LengthCode(f);
      code < 0x80 && match f.form
                     case Short => code as int == |f.payload| < 126
                     case Medium => code == 126
                     case Long => code == 127
  {
    hide FormOf, LengthOf, PutValue;
    LengthReadsBack(f);
    if f.form.Short? { OctetBack(|f.payload|); }
  }

  lemma FirstBits(flags: bv8, opcode: bv8)
    requires FitHeader(flags, opcode)
    ensures FirstOctet(flags, opcode) & 0x0f == opcode && FirstOctet(flags, opcode) & 0xf0 == flags
  {}

  lemma SecondBits(masked: bool, code: bv8)
    requires code < 0x80
    ensures SecondOctet(masked, code) & 0x7f == code && (SecondOctet(masked, code) & 0x80 == 0x80 <==> masked)
  {}

  lemma LongValue(x: Octets)
    requires |x| == 8
    ensures Value(x) == EightOctets(x)
  {
    hide Value;
    assert x[..8] == x;
    NoValue();
    ValueStep(x, 7);
    ValueStep(x, 6);
    ValueStep(x, 5);
    ValueStep(x, 4);
    ValueStep(x, 3);
    ValueStep(x, 2);
    ValueStep(x, 1);
    ValueStep(x, 0);
    assert x[..0] == [];
  }

  lemma NoValue()
    ensures Value([]) == 0
  {}

  lemma ValueStep(x: Octets, i: nat)
    requires i < |x|
    ensures Value(x[..i + 1]) == Value(x[..i]) * 256 + x[i] as int
  {
    assert x[..i + 1][..i] == x[..i];
  }

  /** A stream that ends between two reads is EOF, one that ends inside a read is UnexpectedEOF, and nothing
      else fails: two octets, the length and the key as far as they are announced, and the payload. */
  lemma FailsExactly(max: AllocLimit, input: Octets)
    ensures |input| < 2 ==> Ends(max, input, 0)
    ensures |input| >= 2 ==>
              var k := if input[1] & 0x7f == 126 then 2 else if input[1] & 0x7f == 127 then 8 else 0;
              var h := 2 + k + if input[1] & 0x80 != 0 then 4 else 0;
              if |input| < 2 + k then Ends(max, input, 2)
              else if |input| < h then Ends(max, input, 2 + k)
              else
                var n := Announced(input[1] & 0x7f, input[2..2 + k]);
                if n <= max && |input| < h + n then Ends(max, input, h) else !Parse(max, input).outcome.Failed?
  {
    hide Mask, Value;
    if |input| >= 2 {
      var s, k := input[2..], FormOf(CodeOf(input[1])).ExtraBytes();
      if |s| >= k {
        assert s[..k] == input[2..2 + k];
        AnnouncedAsInt(CodeOf(input[1]), s[..k]);
      }
    }
  }

  /** The stream ends during the read that starts at position `from`. */
  ghost predicate Ends(max: AllocLimit, input: Octets, from: nat) {
    Parse(max, input) == Parsed(Failed(if |input| == from then EOF else UnexpectedEOF), [])
  }

  /** The outcomes of reading `n` frames one after the other, and what is left. */
  function ParseMany(max: AllocLimit, input: Octets, n: nat): (seq<Outcome>, Octets)
    decreases n
  {
    if n == 0 then ([], input)
    else
      var p := Parse(max, input);
      var (outcomes, rest) := ParseMany(max, p.rest, n - 1);
      ([p.outcome] + outcomes, rest)
  }

  function EncodeAll(fs: seq<Source>): Octets
    requires forall f :: f in fs ==> f.WellFormed()
  {
    if fs == [] then [] else Encode(fs[0]) + EncodeAll(fs[1..])
  }

  function Contents(fs: seq<Source>): seq<Outcome> {
    if fs == [] then [] else [Frame(fs[0].opcode, fs[0].payload)] + Contents(fs[1..])
  }

  lemma ParseManyStep(max: AllocLimit, input: Octets, n: nat)
    ensures var p := Parse(max, input); var (outcomes, rest) := ParseMany(max, p.rest, n);
      ParseMany(max, input, n + 1) == ([p.outcome] + outcomes, rest)
    ensures ParseMany(max, input, 0) == ([], input)
  {}

  lemma EncodeAllStep(fs: seq<Source>, rest: Octets)
    requires forall f :: f in fs ==> f.WellFormed()
    ensures fs == [] ==> EncodeAll(fs) + rest == rest
    ensures fs != [] ==> EncodeAll(fs) + rest == Encode(fs[0]) + (EncodeAll(fs[1..]) + rest)
  {
    hide Encode, Source.WellFormed;
  }

  /** A concatenation of frames reads back frame by frame. */
  lemma {:induction false} StreamReadsBack(max: AllocLimit, fs: seq<Source>, rest: Octets)
    requires forall f :: f in fs ==> f.WellFormed() && |f.payload| <= max
    ensures ParseMany(max, EncodeAll(fs) + rest, |fs|) == (Contents(fs), rest)
  {
    hide Parse, ParseMany, Encode, EncodeAll, Source.WellFormed;
    EncodeAllStep(fs, rest);
    if fs == [] {
      ParseManyStep(max, rest, 0);
    } else {
      var head, tail := fs[0], fs[1..];
      assert head in fs;
      forall f | f in tail ensures f in fs {}
      StreamReadsBack(max, tail, rest);
      RoundTrip(max, head, EncodeAll(tail) + rest);
      ParseManyStep(max, EncodeAll(fs) + rest, |tail|);
    }
  }

  // ---------- And accepts nothing else ----------

  /** The frame spelled by a header, its length bytes and what follows, when that parses. */
  function SourceFrom(max: AllocLimit, b1: bv8, b2: bv8, ext: Octets, t: Octets): Source {
    var p := ParseKey(max, OpcodeOf(b1), MaskedBit(b2), LengthOf(CodeOf(b2), ext), t);
    Source(b1 & 0xf0, OpcodeOf(b1), if MaskedBit(b2) && |t| >= 4 then Some(t[..4]) else None, FormOf(CodeOf(b2)),
           if p.outcome.Frame? then p.outcome.payload else [])
  }

  lemma SpelledOut(max: AllocLimit, b1: bv8, b2: bv8, ext: Octets, t: Octets)
    requires |ext| == FormOf(CodeOf(b2)).ExtraBytes()
    requires ParseKey(max, OpcodeOf(b1), MaskedBit(b2), LengthOf(CodeOf(b2), ext), t).outcome.Frame?
    ensures var f := SourceFrom(max, b1, b2, ext, t);
      var p := ParseKey(max, OpcodeOf(b1), MaskedBit(b2), LengthOf(CodeOf(b2), ext), t);
      && f.WellFormed() && |f.payload| <= max
      && p.outcome == Frame(f.opcode, f.payload)
      && [b1, b2] + (ext + t) == Encode(f) + p.rest
  {
    hide OpcodeOf, MaskedBit, CodeOf, FirstOctet, SecondOctet, FitHeader;
    hide LengthCode, LengthOf, FormOf, PutValue, ParseKey, Mask;
    var f, plen := SourceFrom(max, b1, b2, ext, t), LengthOf(CodeOf(b2), ext);
    var p := ParseKey(max, OpcodeOf(b1), MaskedBit(b2), plen, t);
    FirstWritesBack(b1);
    SecondWritesBack(b2);
    KeyedTail(max, f.opcode, MaskedBit(b2), plen, t);
    LengthWritesBack(CodeOf(b2), ext, f);
    assert t == Tail(f) + p.rest;
    assert Encode(f) == [b1, b2] + (ext + Tail(f));
    Regroup([b1, b2], ext, Tail(f), p.rest);
  }

  lemma Regroup(a: Octets, b: Octets, c: Octets, d: Octets)
    ensures a + (b + (c + d)) == (a + (b + c)) + d
  {}

  /** Where the length bytes of an accepted input end. */
  lemma HeaderEnd(max: AllocLimit, input: Octets) returns (ext: Octets, t: Octets)
    requires Parse(max, input).outcome.Frame?
    ensures |input| >= 2 && |ext| == FormOf(CodeOf(input[1])).ExtraBytes()
    ensures input == [input[0], input[1]] + (ext + t)
    ensures Parse(max, input) ==
            ParseKey(max, OpcodeOf(input[0]), MaskedBit(input[1]), LengthOf(CodeOf(input[1]), ext), t)
  {
    hide OpcodeOf, MaskedBit, CodeOf, FormOf, LengthOf, ParseKey;
    var s, k := input[2..], FormOf(CodeOf(input[1])).ExtraBytes();
    assert |s| >= k;
    ext, t := s[..k], s[k..];
  }

  /** Whenever readFrame returns a frame, the bytes it consumed are an encoding of that frame. */
  lemma AcceptsOnlyFrames(max: AllocLimit, input: Octets) returns (f: Source)
    requires Parse(max, input).outcome.Frame?
    ensures f.WellFormed() && |f.payload| <= max && Parse(max, input).outcome == Frame(f.opcode, f.payload)
    ensures input == Encode(f) + Parse(max, input).rest
  {
    hide Parse, OpcodeOf, MaskedBit, CodeOf, FormOf, LengthOf, ParseKey, Encode, SourceFrom, Source.WellFormed;
    var ext, t := HeaderEnd(max, input);
    SpelledOut(max, input[0], input[1], ext, t);
    f := SourceFrom(max, input[0], input[1], ext, t);
  }

  lemma KeyedTail(max: AllocLimit, opcode: bv8, masked: bool, plen: int, t: Octets)
    requires ParseKey(max, opcode, masked, plen, t).outcome.Frame?
    ensures var p := ParseKey(max, opcode, masked, plen, t);
      && p.outcome.opcode == opcode && |p.outcome.payload| == plen <= max
      && (masked ==> |t| >= 4 && t == t[..4] + Mask(p.outcome.payload, t[..4]) + p.rest)
      && (!masked ==> t == p.outcome.payload + p.rest)
  {
    hide Mask;
    if masked {
      MaskTwice(t[4..][..plen], t[..4]);
    }
  }

  lemma LengthWritesBack(code: bv8, ext: Octets, f: Source)
    requires code < 0x80 && |ext| == FormOf(code).ExtraBytes()
    requires f.form == FormOf(code) && |f.payload| == LengthOf(code, ext)
    ensures |f.payload| < f.form.Limit()
    ensures PutValue(|f.payload|, |ext|) == ext
    ensures f.WellFormed() ==> LengthCode(f) == code
  {
    if FormOf(code).Short? {
      VectorBack(code);
      BelowHalf(code);
      VectorBack(126);
      VectorBack(127);
    } else {
      Caps();
      PutOfValue(ext);
    }
  }

  /** Two octets, the longer length and the key, as far as the first two announce them. */
  function HeaderSize(b2: bv8): nat {
    2 + FormOf(CodeOf(b2)).ExtraBytes() + if MaskedBit(b2) then 4 else 0
  }

  /** The payload length that a header announces. */
  function Announced(code: bv8, ext: Octets): nat {
    if FormOf(code).Short? then code as int else Value(ext)
  }

  /** The reader panics exactly when a complete header announces more than a slice can hold, which
      covers the lengths with the top bit set. */
  lemma PanicsExactlyOnHugeLengths(max: AllocLimit, input: Octets)
    ensures Parse(max, input).outcome.Panics? <==>
      && |input| >= 2 && |input| >= HeaderSize(input[1])
      && Announced(CodeOf(input[1]), input[2..2 + FormOf(CodeOf(input[1])).ExtraBytes()]) > max
  {
    hide Mask, Value, OpcodeOf, MaskedBit, CodeOf;
    if |input| >= 2 {
      var s, k := input[2..], FormOf(CodeOf(input[1])).ExtraBytes();
      if |s| >= k {
        assert s[..k] == input[2..2 + k];
        AnnouncedAsInt(CodeOf(input[1]), s[..k]);
      }
    }
  }

  /** Converting the length to int keeps it or makes it negative. */
  lemma AnnouncedAsInt(code: bv8, ext: Octets)
    requires |ext| == FormOf(code).ExtraBytes()
    ensures var n := Announced(code, ext);
      if n < INT64_LIMIT then LengthOf(code, ext) == n else LengthOf(code, ext) < 0
  {
    if !FormOf(code).Short? {
      Caps();
      PutOfValue(ext);
    }
  }
}
