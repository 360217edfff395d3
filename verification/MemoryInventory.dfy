/** The memory inventory: Type 17 structures decoded into module descriptions. */
module MemoryInventory {
  import opened ByteStrings
  import opened Smbios

  datatype RamInfo = RamInfo(slot: Bytes, sizeBytes: nat, speedMHz: nat, manufacturer: Bytes, memoryType: string)

  const DIMM: Bytes := [68, 73, 77, 77]

  /** smbiosMemoryTypeToString: a name, nothing for 0, or the code itself as 0x and two digits. */
  function TypeName(code: byte): string {
    match code
    case 0x12 => "DDR"
    case 0x13 => "DDR2"
    case 0x18 => "DDR3"
    case 0x1A => "DDR4"
    case 0x22 => "DDR5"
    case 0x1F => "LPDDR"
    case 0x20 => "LPDDR2"
    case 0x21 => "LPDDR3"
    case 0x24 => "LPDDR4"
    case 0x25 => "LPDDR5"
    case 0 => ""
    case _ => ['0', 'x', UpperDigit(code / 16), UpperDigit(code % 16)]
  }

  function UpperDigit(n: nat): char
    requires n < 16
  {
    "0123456789ABCDEF"[n]
  }

  /** The names of the ten types it knows, and how it prints the others. */
  lemma TypeNames(code: byte)
    ensures TypeName(0x12) == "DDR" && TypeName(0x13) == "DDR2" && TypeName(0x18) == "DDR3"
    ensures TypeName(0x1A) == "DDR4" && TypeName(0x22) == "DDR5"
    ensures TypeName(0x1F) == "LPDDR" && TypeName(0x20) == "LPDDR2" && TypeName(0x21) == "LPDDR3"
    ensures TypeName(0x24) == "LPDDR4" && TypeName(0x25) == "LPDDR5" && TypeName(0) == ""
    ensures code !in {0, 0x12, 0x13, 0x18, 0x1A, 0x1F, 0x20, 0x21, 0x22, 0x24, 0x25} ==>
              TypeName(code) == "0x" + ["0123456789ABCDEF"[code / 16], "0123456789ABCDEF"[code % 16]]
  {}

  lemma UpperDigitsDiffer(m: nat, n: nat)
    requires m < 16 && n < 16
    ensures UpperDigit(m) == UpperDigit(n) <==> m == n
  {}

  /** No two memory types share a name. */
  lemma TypeNamesDiffer(a: byte, b: byte)
    requires TypeName(a) == TypeName(b)
    ensures a == b
  {
    hide UpperDigit;
    UpperDigitsDiffer(a / 16, b / 16);
    UpperDigitsDiffer(a % 16, b % 16);
    var x, y := TypeName(a), TypeName(b);
    if |x| == 4 { assert x[0] == y[0] && x[2] == y[2] && x[3] == y[3]; }
    if |x| == 6 { assert x[5] == y[5]; }
  }

  function Word(data: Bytes, at: nat): (w: nat)
    requires at + 2 <= |data|
    ensures w < 0x10000
  {
    var low: int, high: int := data[at], data[at + 1];
    low + 256 * high
  }

  function DWord(data: Bytes, at: nat): uint32
    requires at + 4 <= |data|
  {
    Word(data, at) + 0x10000 * Word(data, at + 2)
  }

  predicate IsMemoryDevice(s: Structure) { s.typ == 17 && s.Length() >= 0x15 }

  /** The switch on the size field, bit 15 tested and cleared arithmetically. */
  function SizeOf(data: Bytes): nat
    requires |data| >= 0x15
  {
    var field := Word(data, 0x0C);
    if field == 0 || field == 0xFFFF then 0
    else if field == 0x7FFF then
      if |data| >= 0x20 then DWord(data, 0x1C) * 1024 * 1024 else 0
    else if field / 0x8000 % 2 == 1 then (field - 0x8000) * 1024
    else field * 1024 * 1024
  }

  /** Capacity as DSP0134 section 7.18 defines it: the field as a number of units, with bit 15 the
      unit and two reserved values; the extended size counts megabytes. */
  datatype Capacity = Empty | Unknown | Kilobytes(n: nat) | Megabytes(n: nat) {
    function InBytes(): nat {
      match this
      case Empty => 0
      case Unknown => 0
      case Kilobytes(n) => n * 0x400
      case Megabytes(n) => n * 0x100000
    }
  }

  function CapacityOf(field: nat, extended: Capacity): Capacity {
    if field % 0x8000 == 0x7FFF then if field / 0x8000 == 0 then extended else Unknown
    else if field == 0 then Empty
    else if field / 0x8000 == 1 then Kilobytes(field % 0x8000)
    else Megabytes(field)
  }

  /** The decoded size is the capacity the standard means, and fits far below 64 bits. */
  lemma SizeIsCapacity(data: Bytes)
    requires |data| >= 0x15
    ensures SizeOf(data) ==
            CapacityOf(Word(data, 0x0C), if |data| >= 0x20 then Megabytes(DWord(data, 0x1C)) else Unknown).InBytes()
    ensures SizeOf(data) < 0x10_0000_0000_0000
  {
  }

  /** The callback's decoding of one structure; `trim` is strings.TrimSpace. */
  function Decode(s: Structure, trim: Bytes -> Bytes): RamInfo
    requires IsMemoryDevice(s)
  {
    var locator, bank := SmbiosString(s.strs, s.data[0x10]), SmbiosString(s.strs, s.data[0x11]);
    var slot := if trim(locator) != [] then trim(locator) else if trim(bank) != [] then trim(bank) else DIMM;
    var configured := if s.Length() >= 0x22 then Word(s.data, 0x20) else 0;
    var speed := if configured == 0 && s.Length() >= 0x17 then Word(s.data, 0x15) else configured;
    var manufacturer := if s.Length() >= 0x18 then SmbiosString(s.strs, s.data[0x17]) else [];
    RamInfo(slot, SizeOf(s.data), speed, trim(manufacturer), TypeName(s.data[0x12]))
  }

  /** One description per memory device, in table order. */
  function Inventory(structures: seq<Structure>, trim: Bytes -> Bytes): seq<RamInfo> {
    if structures == [] then []
    else
      var last := structures[|structures| - 1];
      Inventory(structures[..|structures| - 1], trim) +
      if IsMemoryDevice(last) then [Decode(last, trim)] else []
  }

  function MemoryDevices(structures: seq<Structure>): seq<Structure> {
    if structures == [] then []
    else
      var last := structures[|structures| - 1];
      MemoryDevices(structures[..|structures| - 1]) + if IsMemoryDevice(last) then [last] else []
  }

  method ParseSMBIOSMemoryDevices(table: Bytes, trim: Bytes -> Bytes) returns (out: seq<RamInfo>)
    ensures out == Inventory(StructuresOf(Visits(table, 0)), trim)
  {
    hide Visits, Reported, SizeOf, Word, TypeName;
    out := [];
    var seen := WalkSMBIOSStructures(table, s => false);
    ReportedAll(Visits(table, 0), s => false);
    var k := 0;
    while k < |seen|
      invariant 0 <= k <= |seen|
      invariant out == Inventory(seen[..k], trim)
    {
      var s := seen[k];
      assert seen[..k + 1][..k] == seen[..k];
      k := k + 1;
      if s.typ != 17 || s.Length() < 0x15 { continue; }
      var sizeBytes := SizeOf(s.data);
      var locator := SmbiosString(s.strs, s.data[0x10]);
      var bank := SmbiosString(s.strs, s.data[0x11]);
      var slot := trim(locator);
      if slot == [] { slot := trim(bank); }
      if slot == [] { slot := DIMM; }
      var memoryType := TypeName(s.data[0x12]);
      var speed := 0;
      if s.Length() >= 0x22 { speed := Word(s.data, 0x20); }
      if speed == 0 && s.Length() >= 0x17 { speed := Word(s.data, 0x15); }
      var manu: Bytes := [];
      if s.Length() >= 0x18 { manu := SmbiosString(s.strs, s.data[0x17]); }
      if sizeBytes == 0 && speed == 0 && manu == [] && memoryType == "" && slot == [] { continue; }
      out := out + [RamInfo(slot, sizeBytes, speed, trim(manu), memoryType)];
    }
    assert seen[..k] == seen;
  }

  /** Exactly one entry per memory device, in table order, each with a named slot and the capacity
      the standard gives its structure: no device is skipped as empty. */
  lemma {:induction false} OneEntryPerDevice(structures: seq<Structure>, trim: Bytes -> Bytes, k: nat)
    requires k < |Inventory(structures, trim)|
    ensures |Inventory(structures, trim)| == |MemoryDevices(structures)|
    ensures var s, e := MemoryDevices(structures)[k], Inventory(structures, trim)[k];
      && IsMemoryDevice(s) && e == Decode(s, trim) && e.slot != [] && e.sizeBytes < 0x10_0000_0000_0000
      && e.sizeBytes == CapacityOf(Word(s.data, 0x0C),
           if s.Length() >= 0x20 then Megabytes(DWord(s.data, 0x1C)) else Unknown).InBytes()
  {
    var init, last := structures[..|structures| - 1], structures[|structures| - 1];
    SameCount(init, trim);
    if k < |Inventory(init, trim)| {
      OneEntryPerDevice(init, trim, k);
    } else {
      SizeIsCapacity(last.data);
    }
  }

  lemma {:induction false} SameCount(structures: seq<Structure>, trim: Bytes -> Bytes)
    ensures |Inventory(structures, trim)| == |MemoryDevices(structures)|
  {
    if structures == [] {
    } else {
      SameCount(structures[..|structures| - 1], trim);
    }
  }

  // ---------- Encoded devices ----------

  function Little(n: nat, width: nat): (r: Bytes)
    ensures |r| == width
  {
    if width == 0 then [] else [n % 256] + Little(n / 256, width - 1)
  }

  /** A memory device as section 7.18 lays it out, cut to its length: `size` bytes with the header. */
  datatype Device = Device(
    handles: Bytes, sizeField: nat, form: Bytes,
    locator: byte, bank: byte, typ: byte, detail: Bytes,
    rated: nat, manufacturer: byte, numbers: Bytes,
    extended: nat, configured: nat, rest: Bytes,
    size: nat, strings: seq<Bytes>
  )
  {
    ghost predicate WellFormed() {
      && |handles| == 10 && |form| == 2 && |detail| == 2 && |numbers| == 4
      && sizeField < 0x10000 && rated < 0x10000 && configured < 0x10000 && extended < 0x1_0000_0000
      && 0x15 <= size <= 0xFF && size <= 0x22 + |rest|
      && forall t :: t in strings ==> t != [] && NulFree(t)
    }

    /** Offsets 0x02 to 0x15. */
    function FirstPart(): Bytes { handles + Little(sizeField, 2) + form + [locator, bank, typ] + detail }

    /** Offsets 0x15 on. */
    function SecondPart(): Bytes {
      Little(rated, 2) + [manufacturer] + numbers + Little(extended, 4) + Little(configured, 2) + rest
    }

    function ToSource(): Source
      requires 2 <= size <= 2 + |FirstPart() + SecondPart()|
    {
      Source(17, (FirstPart() + SecondPart())[..size - 2], strings)
    }
  }

  /** The string a number refers to, unless it is the last one, which the walker drops. */
  function TextOf(strings: seq<Bytes>, n: byte): Bytes {
    if 1 <= n < |strings| then strings[n - 1] else []
  }

  /** The description of a device: its locator, or its bank, or DIMM; its capacity; its configured speed, or
      its rated one; its manufacturer and its type, each as far as the device is long enough to tell. */
  ghost predicate Describes(e: RamInfo, d: Device, trim: Bytes -> Bytes) {
    var locator, bank := trim(TextOf(d.strings, d.locator)), trim(TextOf(d.strings, d.bank));
    && e.slot == (if locator != [] then locator else if bank != [] then bank else [68, 73, 77, 77])
    && e.sizeBytes ==
       (if d.sizeField == 0 || d.sizeField == 0xFFFF then 0
        else if d.sizeField == 0x7FFF then if d.size >= 0x20 then d.extended * 1_048_576 else 0
        else if d.sizeField >= 0x8000 then (d.sizeField - 0x8000) * 1024
        else d.sizeField * 1_048_576)
    && e.speedMHz ==
       (if d.size >= 0x22 && d.configured != 0 then d.configured else if d.size >= 0x17 then d.rated else 0)
    && e.manufacturer == trim(if d.size >= 0x18 then TextOf(d.strings, d.manufacturer) else [])
    && e.memoryType == TypeName(d.typ)
  }

  lemma LittleWord(n: nat)
    requires n < 0x10000
    ensures Little(n, 2) == [n % 256, n / 256]
  {
    assert Little(n / 256, 1) == [n / 256 % 256];
  }

  lemma LittleDWord(n: nat)
    requires n < 0x1_0000_0000
    ensures Little(n, 4) == Little(n % 0x10000, 2) + Little(n / 0x10000, 2)
  {
    assert Little(n / 0x10000, 2) == Little(n / 256 / 256, 2);
    assert Little(n / 256, 3) == [n / 256 % 256] + Little(n / 256 / 256, 2);
    assert Little(n % 0x10000 / 256, 1) == [n / 256 % 256];
  }

  lemma WordOf(data: Bytes, at: nat, n: nat)
    requires n < 0x10000 && at + 2 <= |data| && data[at..at + 2] == Little(n, 2)
    ensures Word(data, at) == n
  {
    LittleWord(n);
    assert data[at] == data[at..at + 2][0] && data[at + 1] == data[at..at + 2][1];
  }

  lemma DWordOf(data: Bytes, at: nat, n: nat)
    requires n < 0x1_0000_0000 && at + 4 <= |data| && data[at..at + 4] == Little(n, 4)
    ensures DWord(data, at) == n
  {
    LittleDWord(n);
    assert data[at..at + 2] == data[at..at + 4][..2];
    assert data[at + 2..at + 4] == data[at..at + 4][2..];
    WordOf(data, at, n % 0x10000);
    WordOf(data, at + 2, n / 0x10000);
  }

  /** The formatted area of a device before it is cut. */
  function Whole(d: Device): Bytes { [17, d.size % 256] + (d.FirstPart() + d.SecondPart()) }

  lemma FirstPartAt(d: Device)
    requires d.WellFormed()
    ensures var f := Whole(d);
      && |f| == 0x22 + |d.rest| && f[0x0C..0x0E] == Little(d.sizeField, 2)
      && f[0x10] == d.locator && f[0x11] == d.bank && f[0x12] == d.typ
  {
    hide Little;
  }

  lemma SecondPartAt(d: Device)
    requires d.WellFormed()
    ensures var f := Whole(d);
      && |f| == 0x22 + |d.rest| && f[0x15..0x17] == Little(d.rated, 2) && f[0x17] == d.manufacturer
      && f[0x1C..0x20] == Little(d.extended, 4) && f[0x20..0x22] == Little(d.configured, 2)
  {
    hide Little;
    var s := d.SecondPart();
    assert |d.FirstPart()| == 0x13;
    assert s[0..2] == Little(d.rated, 2) && s[2] == d.manufacturer;
    assert s[7..11] == Little(d.extended, 4) && s[11..13] == Little(d.configured, 2);
  }

  lemma CutWhole(d: Device)
    requires d.WellFormed()
    ensures 2 <= d.size <= 2 + |d.FirstPart() + d.SecondPart()|
    ensures Formatted(d.ToSource()) == Whole(d)[..d.size] && WellFormed(d.ToSource())
  {
    hide Little, NulFree;
  }

  lemma CutSlice(f: Bytes, size: nat, a: nat, b: nat)
    requires a <= b <= size <= |f|
    ensures f[..size][a..b] == f[a..b]
  {}

  /** The walker's view of an encoded device decodes to its description. */
  lemma DeviceReadsBack(d: Device, trim: Bytes -> Bytes)
    requires d.WellFormed()
    ensures 2 <= d.size <= 2 + |d.FirstPart() + d.SecondPart()|
    ensures IsMemoryDevice(Walked(d.ToSource())) && Describes(Decode(Walked(d.ToSource()), trim), d, trim)
  {
    hide Device.FirstPart, Device.SecondPart, Whole, Formatted, Word, DWord, Little, TypeName, NulFree;
    CutWhole(d);
    FirstPartAt(d);
    SecondPartAt(d);
    FieldsReadBack(d, Whole(d)[..d.size]);
    TextReadsBack(d.strings, d.locator);
    TextReadsBack(d.strings, d.bank);
    TextReadsBack(d.strings, d.manufacturer);
  }

  lemma FieldsReadBack(d: Device, data: Bytes)
    requires d.WellFormed() && d.size <= |Whole(d)| && data == Whole(d)[..d.size]
    ensures Word(data, 0x0C) == d.sizeField
    ensures d.size >= 0x17 ==> Word(data, 0x15) == d.rated
    ensures d.size >= 0x20 ==> DWord(data, 0x1C) == d.extended
    ensures d.size >= 0x22 ==> Word(data, 0x20) == d.configured
  {
    FirstPartAt(d);
    SecondPartAt(d);
    hide Whole, Word, DWord, Little, NulFree;
    CutSlice(Whole(d), d.size, 0x0C, 0x0E);
    WordOf(data, 0x0C, d.sizeField);
    if d.size >= 0x17 {
      CutSlice(Whole(d), d.size, 0x15, 0x17);
      WordOf(data, 0x15, d.rated);
    }
    if d.size >= 0x20 {
      CutSlice(Whole(d), d.size, 0x1C, 0x20);
      DWordOf(data, 0x1C, d.extended);
    }
    if d.size >= 0x22 {
      CutSlice(Whole(d), d.size, 0x20, 0x22);
      WordOf(data, 0x20, d.configured);
    }
  }

  lemma TextReadsBack(strings: seq<Bytes>, n: byte)
    ensures SmbiosString(Kept(strings), n) == TextOf(strings, n)
  {}

  /** A table holds memory devices and other structures, and those too short to be decoded. */
  datatype Part = Module(d: Device) | Other(s: Source) {
    ghost predicate WellFormed() {
      match this
      case Module(d) => d.WellFormed()
      case Other(s) => Smbios.WellFormed(s) && (s.typ != 17 || |s.rest| < 0x13)
    }
    ghost function ToSource(): Source
      requires WellFormed()
    {
      match this
      case Module(d) => CutWhole(d); d.ToSource()
      case Other(s) => s
    }
  }

  ghost function Sources(parts: seq<Part>): seq<Source>
    requires forall p :: p in parts ==> p.WellFormed()
  {
    if parts == [] then []
    else
      var last := parts[|parts| - 1];
      assert last in parts && last.WellFormed();
      Sources(parts[..|parts| - 1]) + [last.ToSource()]
  }

  function Modules(parts: seq<Part>): seq<Device> {
    if parts == [] then []
    else
      var last := parts[|parts| - 1];
      Modules(parts[..|parts| - 1]) + if last.Module? then [last.d] else []
  }

  lemma {:induction false} WalkedSnoc(ss: seq<Source>, s: Source)
    ensures WalkedAll(ss + [s]) == WalkedAll(ss) + [Walked(s)]
  {
    if ss == [] {
    } else {
      assert (ss + [s])[1..] == ss[1..] + [s];
      WalkedSnoc(ss[1..], s);
    }
  }

  lemma InventorySnoc(structures: seq<Structure>, s: Structure, trim: Bytes -> Bytes)
    ensures Inventory(structures + [s], trim) ==
            Inventory(structures, trim) + if IsMemoryDevice(s) then [Decode(s, trim)] else []
  {
    assert (structures + [s])[..|structures|] == structures;
  }

  /** One description for every memory device, in order. */
  ghost predicate DescribesAll(inventory: seq<RamInfo>, ds: seq<Device>, trim: Bytes -> Bytes) {
    |inventory| == |ds| && forall k :: 0 <= k < |ds| ==> Describes(inventory[k], ds[k], trim)
  }

  lemma {:induction false} SourcesReadBack(parts: seq<Part>, trim: Bytes -> Bytes)
    requires forall p :: p in parts ==> p.WellFormed()
    ensures AllWellFormed(Sources(parts))
    ensures DescribesAll(Inventory(WalkedAll(Sources(parts)), trim), Modules(parts), trim)
  {
    if parts == [] {
    } else {
      var init, last := parts[..|parts| - 1], parts[|parts| - 1];
      SourcesReadBack(init, trim);
      assert last in parts && parts == init + [last];
      PartReadsBack(last, trim);
      hide Inventory, IsMemoryDevice, Walked, Describes, Decode, Part.ToSource, Part.WellFormed;
      WalkedSnoc(Sources(init), last.ToSource());
      InventorySnoc(WalkedAll(Sources(init)), Walked(last.ToSource()), trim);
    }
  }

  lemma PartReadsBack(p: Part, trim: Bytes -> Bytes)
    requires p.WellFormed()
    ensures Smbios.WellFormed(p.ToSource())
    ensures var s := Walked(p.ToSource());
      (IsMemoryDevice(s) <==> p.Module?) && (p.Module? ==> Describes(Decode(s, trim), p.d, trim))
  {
    hide Describes, Decode, Device.FirstPart, Device.SecondPart, Device.WellFormed;
    match p
    case Module(d) =>
      CutWhole(d);
      DeviceReadsBack(d, trim);
    case Other(s) =>
  }

  /** The inventory of an encoded table describes its memory devices, all of them, in order, and nothing
      else: the round trip of the reader against the layout of the standard. */
  lemma InventoryOfDevices(parts: seq<Part>, trim: Bytes -> Bytes)
    requires forall p :: p in parts ==> p.WellFormed()
    ensures DescribesAll(Inventory(StructuresOf(Visits(EncodeAll(Sources(parts)), 0)), trim), Modules(parts), trim)
  {
    SourcesReadBack(parts, trim);
    RoundTrip(Sources(parts));
  }

  // ---------- Capacities as the standard writes them ----------

  /** The size field and the extended size field that section 7.18 prescribes for a capacity. */
  function SizeFields(c: Capacity): (nat, nat)
    requires Encodable(c)
  {
    match c
    case Empty => (0, 0)
    case Unknown => (0xFFFF, 0)
    case Kilobytes(n) => (0x8000 + n, 0)
    case Megabytes(n) => if n < 0x7FFF then (n, 0) else (0x7FFF, n)
  }

  predicate Encodable(c: Capacity) {
    match c
    case Empty => true
    case Unknown => true
    case Kilobytes(n) => n < 0x7FFF
    case Megabytes(n) => 0 < n < 0x8000_0000
  }

  /** A device long enough for both fields is described with the capacity written into them. */
  lemma CapacityReadsBack(e: RamInfo, d: Device, c: Capacity, trim: Bytes -> Bytes)
    requires Describes(e, d, trim) && Encodable(c) && (d.sizeField, d.extended) == SizeFields(c) && d.size >= 0x20
    ensures e.sizeBytes == c.InBytes()
  {}
}
