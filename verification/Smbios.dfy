/** The SMBIOS structure table: the walker over arbitrary bytes, and an encoder per sections 6.1.2
    and 6.1.3 of DMTF DSP0134 that it undoes. */
module Smbios {
  import opened ByteStrings

  /** A structure as reported: `data` is the formatted area, and the length field is its length. */
  datatype Structure = Structure(typ: byte, data: Bytes, strs: seq<Bytes>) {
    function Length(): nat { |data| }
  }

  /** A structure reported to the callback, and the part of the table it came from. */
  datatype Visit = Visit(off: nat, s: Structure, next: nat)

  ghost predicate NulFree(b: Bytes) { forall i :: 0 <= i < |b| ==> b[i] != 0 }

  /** The string-set loop from position `j`, the current string having begun at `start`: the strings
      it appends and the position where it stops. */
  function Scan(table: Bytes, j: nat, start: nat): (r: (seq<Bytes>, nat))
    requires start <= j <= |table|
    ensures j <= r.1 <= |table|
    decreases |table| - j
  {
    if j + 1 >= |table| then ([], j)
    else if table[j] != 0 then Scan(table, j + 1, start)
    else if table[j + 1] == 0 then ([], j + 2)
    else
      var (strs, end) := Scan(table, j + 1, j + 1);
      ([table[start..j]] + strs, end)
  }

  /** What the walker reports from position `i` on when the callback never stops it. */
  function Visits(table: Bytes, i: nat): seq<Visit>
    decreases |table| - i
  {
    if i + 4 > |table| then []
    else
      var l := table[i + 1];
      if l < 4 || i + l > |table| then []
      else
        var (strs, j) := Scan(table, i + l, i + l);
        if j <= i + l then []
        else [Visit(i, Structure(table[i], table[i..i + l], strs), j)] + Visits(table, j)
  }

  /** The callback sees structures up to and including the first it stops at. */
  function Reported(vs: seq<Visit>, stop: Structure -> bool): seq<Structure> {
    if vs == [] then []
    else if stop(vs[0].s) then [vs[0].s]
    else [vs[0].s] + Reported(vs[1..], stop)
  }

  /** The inner loop: the string set that begins at `from`. */
  method ScanStringSet(table: Bytes, from: nat) returns (strs: seq<Bytes>, j: nat)
    requires from <= |table|
    ensures (strs, j) == Scan(table, from, from)
  {
    strs, j := [], from;
    var start := j;
    ghost var all, end := Scan(table, from, from).0, Scan(table, from, from).1;
    while j + 1 < |table|
      invariant 0 <= start <= j <= |table|
      invariant strs + Scan(table, j, start).0 == all && Scan(table, j, start).1 == end
      decreases |table| - j
    {
      if table[j] == 0 {
        if table[j + 1] == 0 {
          j := j + 2;
          break;
        }
        strs := strs + [table[start..j]];
        j := j + 1;
        start := j;
        continue;
      }
      j := j + 1;
    }
    assert strs + [] == strs;
  }

  lemma {:induction false} VisitStep(table: Bytes, i: nat, strs: seq<Bytes>, j: nat, stop: Structure -> bool)
    requires i + 4 <= |table| && table[i + 1] >= 4 && i + table[i + 1] <= |table|
    requires Scan(table, i + table[i + 1], i + table[i + 1]) == (strs, j) && j > i + table[i + 1]
    ensures var s := Structure(table[i], table[i..i + table[i + 1]], strs);
      Reported(Visits(table, i), stop) == [s] + if stop(s) then [] else Reported(Visits(table, j), stop)
  {
    var v, vs := Visit(i, Structure(table[i], table[i..i + table[i + 1]], strs), j), Visits(table, j);
    assert Visits(table, i) == [v] + vs;
    assert ([v] + vs)[1..] == vs;
  }

  lemma ReportedAssoc(seen: seq<Structure>, s: Structure, rest: seq<Structure>)
    ensures seen + ([s] + rest) == (seen + [s]) + rest
  {
  }

  method WalkSMBIOSStructures(table: Bytes, stop: Structure -> bool) returns (seen: seq<Structure>)
    ensures seen == Reported(Visits(table, 0), stop)
  {
    seen := [];
    var i := 0;
    ghost var all := Reported(Visits(table, 0), stop);
    while i + 4 <= |table|
      invariant 0 <= i <= |table|
      invariant seen + Reported(Visits(table, i), stop) == all
      decreases |table| - i
    {
      var typ := table[i];
      var l := table[i + 1];
      if l < 4 || i + l > |table| { return; }
      var strs, j := ScanStringSet(table, i + l);
      if j <= i + l { return; }
      var s := Structure(typ, table[i..i + l], strs);
      VisitStep(table, i, strs, j, stop);
      ReportedAssoc(seen, s, if stop(s) then [] else Reported(Visits(table, j), stop));
      seen := seen + [s];
      if stop(s) { return; }
      i := j;
    }
  }

  /** smbiosString: string numbers count from one. */
  function SmbiosString(strs: seq<Bytes>, idx: byte): Bytes {
    if idx == 0 then []
    else if idx - 1 >= |strs| then []
    else strs[idx - 1]
  }

  // ---------- Arbitrary tables ----------

  /** The strings of a set, each with its terminator. */
  function Terminated(strs: seq<Bytes>): Bytes {
    if strs == [] then [] else strs[0] + [0] + Terminated(strs[1..])
  }

  /** What the string-set loop leaves of the bytes it passed: the strings it reports, then one more
      that it drops, then the double NUL unless the table ended first. */
  ghost predicate SetRead(bytes: Bytes, strs: seq<Bytes>, dropped: Bytes, complete: bool) {
    && bytes == Terminated(strs) + dropped + (if complete then [0, 0] else [])
    && NulFree(dropped) && forall s :: s in strs ==> NulFree(s)
  }

  lemma {:induction false} ScanReads(table: Bytes, j: nat, start: nat) returns (dropped: Bytes, complete: bool)
    requires start <= j <= |table| && NulFree(table[start..j])
    ensures var (strs, end) := Scan(table, j, start);
      SetRead(table[start..end], strs, dropped, complete) &&
      (!complete ==> end + 1 >= |table| && (end > j ==> end + 1 == |table|))
    decreases |table| - j
  {
    if j + 1 >= |table| {
      dropped, complete := table[start..j], false;
    } else if table[j] != 0 {
      assert table[start..j + 1] == table[start..j] + [table[j]];
      dropped, complete := ScanReads(table, j + 1, start);
    } else if table[j + 1] == 0 {
      dropped, complete := table[start..j], true;
      assert table[start..j + 2] == table[start..j] + [0, 0];
    } else {
      dropped, complete := ScanReads(table, j + 1, j + 1);
      var (strs, end) := Scan(table, j + 1, j + 1);
      ScanJoins(table[start..j], strs, dropped, complete, table[j + 1..end]);
      CutAtNul(table, start, j, end);
    }
  }

  /** It never goes past a double NUL. */
  lemma {:induction false} ScanStopsFirst(table: Bytes, j: nat, start: nat, p: nat)
    requires start <= j <= p && p + 1 < |table| && table[p] == table[p + 1] == 0
    ensures Scan(table, j, start).1 <= p + 2
    decreases |table| - j
  {
    if table[j] != 0 {
      ScanStopsFirst(table, j + 1, start, p);
    } else if table[j + 1] != 0 {
      ScanStopsFirst(table, j + 1, j + 1, p);
    }
  }

  lemma CutAtNul(table: Bytes, start: nat, j: nat, end: nat)
    requires start <= j < end <= |table| && table[j] == 0
    ensures table[start..end] == table[start..j] + [0] + table[j + 1..end]
  {
    assert table[j..end] == [table[j]] + table[j + 1..end];
    assert table[start..end] == table[start..j] + table[j..end];
  }

  lemma {:induction false} ScanJoins(s: Bytes, strs: seq<Bytes>, dropped: Bytes, complete: bool, rest: Bytes)
    requires NulFree(s) && SetRead(rest, strs, dropped, complete)
    ensures SetRead(s + [0] + rest, [s] + strs, dropped, complete)
  {
    assert ([s] + strs)[1..] == strs;
  }

  /** A visit lies where it says, and its strings are those of the bytes that follow. */
  ghost predicate VisitFits(table: Bytes, v: Visit, dropped: Bytes, complete: bool) {
    && 4 <= v.s.Length() && v.off + v.s.Length() < v.next <= |table|
    && v.s.data == table[v.off..v.off + v.s.Length()]
    && v.s.typ == v.s.data[0] && v.s.Length() == v.s.data[1]
    && SetRead(table[v.off + v.s.Length()..v.next], v.s.strs, dropped, complete)
  }

  /** Walking any bytes: the structures visited lie one behind the other, each takes at least five
      bytes, reports its bytes exactly, and each but the last ends at a double NUL. */
  lemma {:induction false} VisitsFit(table: Bytes, i: nat, k: nat) returns (dropped: Bytes, complete: bool)
    requires k < |Visits(table, i)|
    ensures var vs := Visits(table, i);
      && VisitFits(table, vs[k], dropped, complete)
      && vs[k].next >= vs[k].off + 5
      && vs[k].off == (if k == 0 then i else vs[k - 1].next)
      && (!complete ==> k == |vs| - 1 && vs[k].next == |table| - 1)
    decreases |table| - i
  {
    hide Scan, SetRead, NulFree;
    NulFreeEmpty();
    var l := table[i + 1];
    var (strs, j) := Scan(table, i + l, i + l);
    var v := Visit(i, Structure(table[i], table[i..i + l], strs), j);
    assert Visits(table, i) == [v] + Visits(table, j);
    if k == 0 {
      assert table[i + l..i + l] == [];
      dropped, complete := ScanReads(table, i + l, i + l);
    } else {
      dropped, complete := VisitsFit(table, j, k - 1);
    }
  }

  /** A structure of at least four bytes with at least two more behind it. */
  predicate Room(table: Bytes, i: nat) {
    i + 4 <= |table| && table[i + 1] >= 4 && i + table[i + 1] + 2 <= |table|
  }

  lemma {:induction false} ScanAdvances(table: Bytes, j: nat, start: nat)
    requires start <= j <= |table|
    ensures Scan(table, j, start).1 > j <==> j + 2 <= |table|
    decreases |table| - j
  {
    if j + 2 <= |table| {
      if table[j] != 0 {
        ScanAdvances(table, j + 1, start);
      } else if table[j + 1] != 0 {
        ScanAdvances(table, j + 1, j + 1);
      }
    }
  }

  /** The walk goes on as long as there is room, and no longer. */
  lemma {:induction false} WalkEndsExactly(table: Bytes, i: nat)
    ensures var vs := Visits(table, i);
      && (forall k :: 0 <= k < |vs| ==> Room(table, vs[k].off))
      && !Room(table, if vs == [] then i else vs[|vs| - 1].next)
    decreases |table| - i
  {
    hide Scan;
    var vs := Visits(table, i);
    if i + 4 <= |table| && table[i + 1] >= 4 && i + table[i + 1] <= |table| {
      var at := i + table[i + 1];
      ScanAdvances(table, at, at);
      if vs != [] {
        assert vs == [vs[0]] + Visits(table, vs[0].next);
        WalkEndsExactly(table, vs[0].next);
      }
    }
  }

  // ---------- The encoder and the round trip ----------

  /** A structure as DSP0134 lays it out: type, length, the rest of the formatted area (handle
      first) and the string set. */
  datatype Source = Source(typ: byte, rest: Bytes, strings: seq<Bytes>)

  ghost predicate WellFormed(s: Source) {
    && 2 <= |s.rest| <= 253
    && forall t :: t in s.strings ==> t != [] && NulFree(t)
  }

  ghost predicate AllWellFormed(ss: seq<Source>) { forall i :: 0 <= i < |ss| ==> WellFormed(ss[i]) }

  function Formatted(s: Source): Bytes { [s.typ, (2 + |s.rest|) % 256] + s.rest }

  function StringSet(strings: seq<Bytes>): Bytes {
    if strings == [] then [0, 0] else Terminated(strings) + [0]
  }

  function Encode(s: Source): Bytes { Formatted(s) + StringSet(s.strings) }

  function EncodeAll(ss: seq<Source>): Bytes {
    if ss == [] then [] else Encode(ss[0]) + EncodeAll(ss[1..])
  }

  /** All strings but the last. */
  function Kept(strings: seq<Bytes>): seq<Bytes> {
    if strings == [] then [] else strings[..|strings| - 1]
  }

  function Walked(s: Source): Structure {
    Structure(s.typ, Formatted(s), Kept(s.strings))
  }

  function WalkedAll(ss: seq<Source>): seq<Structure> {
    if ss == [] then [] else [Walked(ss[0])] + WalkedAll(ss[1..])
  }

  function StructuresOf(vs: seq<Visit>): seq<Structure> {
    if vs == [] then [] else [vs[0].s] + StructuresOf(vs[1..])
  }

  /** A run of non-zero bytes is skipped. */
  lemma {:induction false} ScanSkips(table: Bytes, j: nat, start: nat, end: nat)
    requires start <= j <= end && end + 1 < |table|
    requires NulFree(table[j..end])
    ensures Scan(table, j, start) == Scan(table, end, start)
    decreases end - j
  {
    if j < end {
      assert table[j] == table[j..end][0];
      assert table[j + 1..end] == table[j..end][1..];
      ScanSkips(table, j + 1, start, end);
    }
  }

  /** The bytes `b` stand in the table from position `i` on. */
  ghost predicate At(table: Bytes, i: nat, b: Bytes) {
    i + |b| <= |table| && table[i..i + |b|] == b
  }

  lemma AtSplit(table: Bytes, i: nat, a: Bytes, b: Bytes)
    requires At(table, i, a + b)
    ensures At(table, i, a) && At(table, i + |a|, b)
  {
    var ab := a + b;
    assert table[i..i + |a|] == ab[..|a|];
    assert table[i + |a|..i + |a| + |b|] == ab[|a|..];
  }

  lemma AtIndex(table: Bytes, i: nat, b: Bytes, k: nat)
    requires At(table, i, b) && k < |b|
    ensures table[i + k] == b[k]
  {
    assert table[i..i + |b|][k] == b[k];
  }

  lemma AtFits(table: Bytes, i: nat, b: Bytes)
    requires At(table, i, b)
    ensures i + |b| <= |table| && table[i..i + |b|] == b
  {}

  lemma ScanLastString(table: Bytes, i: nat, s: Bytes)
    requires NulFree(s) && At(table, i, s + [0, 0])
    ensures Scan(table, i, i) == ([], i + |s| + 2)
  {
    AtSplit(table, i, s, [0, 0]);
    AtIndex(table, i + |s|, [0, 0], 0);
    AtIndex(table, i + |s|, [0, 0], 1);
    ScanSkips(table, i, i, i + |s|);
  }

  lemma ScanString(table: Bytes, i: nat, s: Bytes, rest: Bytes)
    requires NulFree(s) && rest != [] && rest[0] != 0 && At(table, i, s + [0] + rest)
    ensures At(table, i + |s| + 1, rest)
    ensures var next := i + |s| + 1; var r := Scan(table, next, next);
      Scan(table, i, i) == ([s] + r.0, r.1)
  {
    AtSplit(table, i, s + [0], rest);
    AtSplit(table, i, s, [0]);
    AtIndex(table, i + |s|, [0], 0);
    AtIndex(table, i + |s| + 1, rest, 0);
    ScanSkips(table, i, i, i + |s|);
  }

  lemma NulFreeEmpty()
    ensures NulFree([])
  {}

  lemma StringSetStarts(strings: seq<Bytes>)
    requires strings != [] && strings[0] != [] && NulFree(strings[0])
    ensures StringSet(strings) != [] && StringSet(strings)[0] != 0
  {
    assert StringSet(strings)[0] == strings[0][0];
  }

  /** Scanning an encoded string set reports all strings but the last and ends right behind it. */
  lemma {:induction false} ScanEncoded(table: Bytes, i: nat, strings: seq<Bytes>)
    requires forall t :: t in strings ==> t != [] && NulFree(t)
    requires At(table, i, StringSet(strings))
    ensures Scan(table, i, i) == (Kept(strings), i + |StringSet(strings)|)
    decreases |strings|
  {
    hide Scan, At, NulFree, StringSet, Kept;
    if |strings| <= 1 {
      ScanShortSet(table, i, strings);
    } else {
      var s, rest := strings[0], strings[1..];
      assert s in strings && rest[0] in strings;
      forall t | t in rest ensures t in strings {}
      SetSplits(strings);
      ScanString(table, i, s, StringSet(rest));
      ScanEncoded(table, i + |s| + 1, rest);
    }
  }

  lemma ScanShortSet(table: Bytes, i: nat, strings: seq<Bytes>)
    requires |strings| <= 1 && forall t :: t in strings ==> NulFree(t)
    requires At(table, i, StringSet(strings))
    ensures Scan(table, i, i) == (Kept(strings), i + |StringSet(strings)|)
  {
    hide Scan, At, NulFree;
    var s := if strings == [] then [] else strings[0];
    NulFreeEmpty();
    if strings != [] { assert strings[1..] == [] && Terminated(strings) == s + [0]; }
    assert StringSet(strings) == s + [0, 0];
    ScanLastString(table, i, s);
  }

  lemma SetSplits(strings: seq<Bytes>)
    requires |strings| >= 2 && strings[1] != [] && NulFree(strings[1])
    ensures StringSet(strings) == strings[0] + [0] + StringSet(strings[1..])
    ensures Kept(strings) == [strings[0]] + Kept(strings[1..])
    ensures StringSet(strings[1..]) != [] && StringSet(strings[1..])[0] != 0
  {
    hide NulFree;
    StringSetStarts(strings[1..]);
    assert strings[..|strings| - 1] == [strings[0]] + strings[1..][..|strings| - 2];
  }

  lemma VisitEncoded(table: Bytes, i: nat, s: Source)
    requires WellFormed(s) && At(table, i, Encode(s))
    ensures var next := i + |Encode(s)|;
      Visits(table, i) == [Visit(i, Walked(s), next)] + Visits(table, next)
  {
    hide NulFree, Kept, Scan, At;
    var f := Formatted(s);
    AtFits(table, i, Encode(s));
    AtSplit(table, i, f, StringSet(s.strings));
    AtFits(table, i, f);
    ScanEncoded(table, i + |f|, s.strings);
    AtIndex(table, i, f, 0);
    AtIndex(table, i, f, 1);
  }

  /** Walking encoded structures, wherever they stand in a table, visits exactly them and goes on
      right behind them. */
  lemma {:induction false} WalkEncoded(table: Bytes, i: nat, ss: seq<Source>)
    requires AllWellFormed(ss) && At(table, i, EncodeAll(ss))
    ensures StructuresOf(Visits(table, i)) == WalkedAll(ss) + StructuresOf(Visits(table, i + |EncodeAll(ss)|))
    decreases |ss|
  {
    hide Visits, Scan, Encode, Walked, StructuresOf, At;
    if ss == [] {
    } else {
      var code, rest := Encode(ss[0]), EncodeAll(ss[1..]);
      AtSplit(table, i, code, rest);
      WalkEncoded(table, i + |code|, ss[1..]);
      WalkStep(table, i, ss[0]);
    }
  }

  lemma WalkStep(table: Bytes, i: nat, s: Source)
    requires WellFormed(s) && At(table, i, Encode(s))
    ensures StructuresOf(Visits(table, i)) == [Walked(s)] + StructuresOf(Visits(table, i + |Encode(s)|))
  {
    var next := i + |Encode(s)|;
    VisitEncoded(table, i, s);
    var vs := Visits(table, next);
    assert ([Visit(i, Walked(s), next)] + vs)[1..] == vs;
  }

  /** The round trip: walking an encoded table visits every structure in order, with its exact type,
      length and formatted bytes, and with its strings except the last. */
  lemma RoundTrip(ss: seq<Source>)
    requires AllWellFormed(ss)
    ensures StructuresOf(Visits(EncodeAll(ss), 0)) == WalkedAll(ss)
  {
    hide Visits, EncodeAll, WalkedAll;
    var table := EncodeAll(ss);
    assert table[0..|table|] == table;
    WalkEncoded(table, 0, ss);
    NothingBehind(table);
  }

  lemma NothingBehind(table: Bytes)
    ensures Visits(table, |table|) == []
  {}

  /** The string a structure refers to by number, as DSP0134 section 6.1.3 defines it. */
  function StringNumber(strings: seq<Bytes>, idx: byte): Bytes {
    if 1 <= idx <= |strings| then strings[idx - 1] else []
  }

  /** Looking up a string after the walk is right for every number except that of the last string. */
  lemma LookupFailsOnLastOnly(s: Source, idx: byte)
    requires WellFormed(s)
    ensures SmbiosString(Walked(s).strs, idx) == StringNumber(s.strings, idx)
            <==> idx == 0 || idx != |s.strings|
  {
    if s.strings != [] { assert s.strings[|s.strings| - 1] in s.strings; }
  }

  /** A callback that never stops sees everything. */
  lemma {:induction false} ReportedAll(vs: seq<Visit>, stop: Structure -> bool)
    requires forall v :: v in vs ==> !stop(v.s)
    ensures Reported(vs, stop) == StructuresOf(vs)
  {
    if vs == [] {
    } else {
      assert vs[0] in vs;
      ReportedAll(vs[1..], stop);
    }
  }
}
