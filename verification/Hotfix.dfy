/** Installed hotfixes: the latest time of each update, the ten newest first. */
module Hotfix {
  import opened ByteStrings
  import opened Options

  // ---------- FILETIME ----------

  /** A Go time as nanoseconds since the Unix epoch; time.Time{} is the first instant of year 1. */
  type Time = int

  const ZERO_TIME: Time := -62135596800_000_000_000

  const WINDOWS_TO_UNIX_100NS: nat := 116444736000000000

  function Ticks(high: uint32, low: uint32): uint64 { high * 0x1_0000_0000 + low }

  /** int64 of a uint64. */
  function Reinterpret(n: uint64): int {
    if n < 0x8000_0000_0000_0000 then n else n - 0x1_0000_0000_0000_0000
  }

  /** Multiplication in 64 bits. */
  function Wrap(n: nat): uint64 { n % 0x1_0000_0000_0000_0000 }

  function FiletimeToTime(high: uint32, low: uint32): Time {
    var ft := Ticks(high, low);
    if ft == 0 then ZERO_TIME
    else if ft <= WINDOWS_TO_UNIX_100NS then ZERO_TIME
    else Reinterpret(Wrap((ft - WINDOWS_TO_UNIX_100NS) * 100))
  }

  /** The two words count ticks of 100 ns from the start of 1601, 134774 days before the Unix epoch. Past the
      epoch the conversion is exact up to the year 2262 and no further, where it keeps the low 64 bits;
      up to the epoch it is the zero time, 719162 days before the epoch, which every converted time follows. */
  lemma FiletimeExactly(high: uint32, low: uint32)
    ensures var ticks, t := high * 0x1_0000_0000 + low - 134774 * 864_000_000_000, FiletimeToTime(high, low);
      && (ticks > 0 ==> (t == ticks * 100 <==> ticks <= 92_233_720_368_547_758))
      && (ticks > 0 ==> -0x8000_0000_0000_0000 <= t < 0x8000_0000_0000_0000)
      && (ticks > 0 ==> (ticks * 100 - t) % 0x1_0000_0000_0000_0000 == 0)
      && (ticks <= 0 <==> t == -719162 * 86_400_000_000_000)
  {
    var ticks := high * 0x1_0000_0000 + low - 134774 * 864_000_000_000;
    if ticks > 0 { LowBits(ticks * 100); }
  }

  lemma LowBits(n: nat)
    ensures -0x8000_0000_0000_0000 <= Reinterpret(Wrap(n)) < 0x8000_0000_0000_0000
    ensures (n - Reinterpret(Wrap(n))) % 0x1_0000_0000_0000_0000 == 0
  {}

  /** In that range later file times, compared word by word, are later times, and only there: one tick on,
      time runs backwards. */
  lemma FiletimeOrder(h1: uint32, l1: uint32, h2: uint32, l2: uint32)
    requires h1 < h2 || (h1 == h2 && l1 < l2)
    requires h1 * 0x1_0000_0000 + l1 > 134774 * 864_000_000_000
    ensures h2 * 0x1_0000_0000 + l2 - 134774 * 864_000_000_000 <= 92_233_720_368_547_758 ==>
              FiletimeToTime(h1, l1) < FiletimeToTime(h2, l2)
    ensures h1 * 0x1_0000_0000 + l1 - 134774 * 864_000_000_000 == 92_233_720_368_547_758 &&
            h2 * 0x1_0000_0000 + l2 == h1 * 0x1_0000_0000 + l1 + 1 ==>
              FiletimeToTime(h2, l2) < 0 < FiletimeToTime(h1, l1)
  {
    FiletimeExactly(h1, l1);
    FiletimeExactly(h2, l2);
  }

  // ---------- The ten newest ----------

  datatype Found = Found(kb: Bytes, t: Time)

  datatype HotfixInfo = HotfixInfo(kb: Bytes, installedAt: Option<Time>)

  const TOP := 10

  function Names(s: seq<Found>): set<Bytes> { set x | x in s :: x.kb }

  ghost predicate DistinctNames(s: seq<Found>) {
    forall i, j :: 0 <= i < j < |s| ==> s[i].kb != s[j].kb
  }

  ghost predicate NewestFirst(s: seq<Found>) {
    forall i, j :: 0 <= i < j < |s| ==> s[i].t >= s[j].t
  }

  /** The update with the latest time found for it. */
  ghost predicate IsLatest(found: seq<Found>, x: Found) {
    x in found && forall y :: y in found && y.kb == x.kb ==> y.t <= x.t
  }

  ghost predicate Listed(out: seq<Found>, kb: Bytes) {
    exists i :: 0 <= i < |out| && out[i].kb == kb
  }

  /** What the agent reports: distinct updates, each with its latest time, newest first, and no
      update left out that is newer than one listed, nor any while there is room. */
  ghost predicate Top(found: seq<Found>, out: seq<Found>) {
    && |out| == (if |Names(found)| < TOP then |Names(found)| else TOP)
    && DistinctNames(out) && NewestFirst(out)
    && (forall i :: 0 <= i < |out| ==> IsLatest(found, out[i]))
    && (forall x, i :: x in found && !Listed(out, x.kb) && 0 <= i < |out| ==> x.t <= out[i].t)
  }

  ghost predicate Deduplicated(found: seq<Found>, mm: map<Bytes, Time>) {
    && (forall x :: x in found ==> x.kb in mm && x.t <= mm[x.kb])
    && (forall kb :: kb in mm ==> Found(kb, mm[kb]) in found)
  }

  method Dedup(found: seq<Found>) returns (mm: map<Bytes, Time>)
    ensures Deduplicated(found, mm)
  {
    mm := map[];
    var i := 0;
    while i < |found|
      invariant 0 <= i <= |found|
      invariant Deduplicated(found[..i], mm)
    {
      var x := found[i];
      assert found[..i + 1] == found[..i] + [x];
      if x.kb !in mm || x.t > mm[x.kb] {
        mm := mm[x.kb := x.t];
      }
      i := i + 1;
    }
    assert found[..i] == found;
  }

  ghost predicate EntriesOf(mm: map<Bytes, Time>, s: seq<Found>) {
    && (forall i :: 0 <= i < |s| ==> s[i].kb in mm && s[i].t == mm[s[i].kb])
    && DistinctNames(s) && Names(s) == mm.Keys
  }

  ghost predicate Ranged(mm: map<Bytes, Time>, left: set<Bytes>, out: seq<Found>) {
    && left <= mm.Keys && left !! Names(out) && left + Names(out) == mm.Keys
    && (forall i :: 0 <= i < |out| ==> out[i].kb in mm && out[i].t == mm[out[i].kb])
    && DistinctNames(out)
  }

  lemma RangeStep(mm: map<Bytes, Time>, left: set<Bytes>, out: seq<Found>, kb: Bytes)
    requires Ranged(mm, left, out) && kb in left
    ensures Ranged(mm, left - {kb}, out + [Found(kb, mm[kb])])
  {
    NamesAppend(out, Found(kb, mm[kb]));
    NamesHold(out);
    hide Names;
  }

  lemma NamesHold(s: seq<Found>)
    ensures forall i :: 0 <= i < |s| ==> s[i].kb in Names(s)
  {}

  /** Ranging over a map: in whatever order. */
  method Entries(mm: map<Bytes, Time>) returns (out: seq<Found>)
    ensures EntriesOf(mm, out)
  {
    hide DistinctNames, Names;
    out := [];
    var left := mm.Keys;
    RangeStart(mm);
    while left != {}
      invariant Ranged(mm, left, out)
      decreases |left|
    {
      var kb :| kb in left;
      RangeStep(mm, left, out, kb);
      out := out + [Found(kb, mm[kb])];
      left := left - {kb};
    }
  }

  lemma RangeStart(mm: map<Bytes, Time>)
    ensures Ranged(mm, mm.Keys, [])
  {
    assert Names([]) == {};
  }

  lemma NamesAppend(s: seq<Found>, x: Found)
    ensures Names(s + [x]) == Names(s) + {x.kb}
  {
    forall kb | kb in Names(s) + {x.kb} ensures kb in Names(s + [x]) {
      if kb in Names(s) {
        var y :| y in s && y.kb == kb;
        assert y in s + [x];
      } else {
        assert x in s + [x];
      }
    }
  }

  lemma {:induction false} NamesCount(s: seq<Found>)
    requires DistinctNames(s)
    ensures |Names(s)| == |s|
  {
    if s == [] {
    } else {
      var init, last := s[..|s| - 1], s[|s| - 1];
      NamesCount(init);
      assert s == init + [last];
      NamesAppend(init, last);
      assert last.kb !in Names(init);
    }
  }

  /** sort.Slice by time, latest first; which of two equal times comes first is not promised. */
  method SortNewestFirst(s: seq<Found>) returns (out: seq<Found>)
    ensures multiset(out) == multiset(s) && NewestFirst(out)
  {
    hide NewestFirst;
    out := [];
    SortedStart();
    var i := 0;
    while i < |s|
      invariant 0 <= i <= |s|
      invariant multiset(out) == multiset(s[..i]) && NewestFirst(out)
    {
      assert s[..i + 1] == s[..i] + [s[i]];
      out := InsertNewestFirst(out, s[i]);
      i := i + 1;
    }
    assert s[..i] == s;
  }

  lemma SortedStart()
    ensures NewestFirst([])
  {}

  method InsertNewestFirst(s: seq<Found>, x: Found) returns (out: seq<Found>)
    requires NewestFirst(s)
    ensures multiset(out) == multiset(s) + multiset{x} && NewestFirst(out)
  {
    var j := 0;
    while j < |s| && s[j].t > x.t
      invariant 0 <= j <= |s|
      invariant forall k :: 0 <= k < j ==> s[k].t > x.t
    {
      j := j + 1;
    }
    InsertedAt(s, j, x);
    return s[..j] + [x] + s[j..];
  }

  lemma InsertedAt(s: seq<Found>, j: nat, x: Found)
    requires NewestFirst(s) && j <= |s|
    requires forall k :: 0 <= k < j ==> s[k].t > x.t
    requires j < |s| ==> s[j].t <= x.t
    ensures NewestFirst(s[..j] + [x] + s[j..])
    ensures multiset(s[..j] + [x] + s[j..]) == multiset(s) + multiset{x}
  {
    CutInOrder(s, j);
    hide NewestFirst;
    var a, b := s[..j], s[j..];
    AtMostHead(b, x);
    JoinedInOrder(a, x, b);
    SameElements(a, x, b);
    assert s == a + b;
  }

  lemma CutInOrder(s: seq<Found>, j: nat)
    requires NewestFirst(s) && j <= |s|
    ensures NewestFirst(s[..j]) && NewestFirst(s[j..])
  {}

  lemma SameElements(a: seq<Found>, x: Found, b: seq<Found>)
    ensures multiset(a + [x] + b) == multiset(a + b) + multiset{x}
  {}

  lemma AtMostHead(s: seq<Found>, x: Found)
    requires NewestFirst(s) && (s != [] ==> s[0].t <= x.t)
    ensures forall y :: y in s ==> y.t <= x.t
  {}

  lemma JoinedInOrder(a: seq<Found>, x: Found, b: seq<Found>)
    requires NewestFirst(a) && NewestFirst(b)
    requires forall y :: y in a ==> y.t >= x.t
    requires forall y :: y in b ==> x.t >= y.t
    ensures NewestFirst(a + [x] + b)
  {
    var r := a + [x] + b;
    forall i, j | 0 <= i < j < |r| ensures r[i].t >= r[j].t {
      assert r[i] == if i < |a| then a[i] else if i == |a| then x else b[i - |a| - 1];
      assert r[j] == if j < |a| then a[j] else if j == |a| then x else b[j - |a| - 1];
    }
  }

  /** The ten newest, as the agent reports them: a zero time becomes an empty text. */
  function Report(top: seq<Found>): seq<HotfixInfo> {
    seq(|top|, i requires 0 <= i < |top| => InfoOf(top[i]))
  }

  function InfoOf(x: Found): HotfixInfo {
    HotfixInfo(x.kb, if x.t == ZERO_TIME then None else Some(x.t))
  }

  /** Every listed update is shown, and its time unless that is the zero time. */
  lemma ReportShows(top: seq<Found>, i: nat)
    requires i < |top|
    ensures |Report(top)| == |top| && Report(top)[i].kb == top[i].kb
    ensures Report(top)[i].installedAt == None <==> top[i].t == -719162 * 86_400_000_000_000
    ensures Report(top)[i].installedAt != None ==> Report(top)[i].installedAt == Some(top[i].t)
  {}

  /** The list is as long as there are updates, but never longer than ten. */
  lemma TenAtMost(found: seq<Found>, top: seq<Found>)
    requires Top(found, top)
    ensures |top| == |Names(found)| <= 10 || |top| == 10 < |Names(found)|
  {}

  /** Whatever the map order, the report lists the top of what was found. */
  method CollectHotfixes(found: seq<Found>) returns (infos: seq<HotfixInfo>)
    ensures exists top :: Top(found, top) && infos == Report(top)
  {
    hide Top, Deduplicated, EntriesOf, NewestFirst;
    var mm := Dedup(found);
    var tmp := Entries(mm);
    ghost var entries := tmp;
    tmp := SortNewestFirst(tmp);
    SortedEntries(mm, entries, tmp);
    TopOfEntries(found, mm, tmp);
    if |tmp| > TOP { tmp := tmp[..TOP]; }
    infos := [];
    var i := 0;
    while i < |tmp|
      invariant 0 <= i <= |tmp|
      invariant infos == Report(tmp[..i])
    {
      var installedAt: Option<Time> := None;
      if tmp[i].t != ZERO_TIME { installedAt := Some(tmp[i].t); }
      assert Report(tmp[..i + 1]) == Report(tmp[..i]) + [InfoOf(tmp[i])];
      infos := infos + [HotfixInfo(tmp[i].kb, installedAt)];
      i := i + 1;
    }
    assert tmp[..i] == tmp;
  }

  lemma SortedEntries(mm: map<Bytes, Time>, entries: seq<Found>, sorted: seq<Found>)
    requires EntriesOf(mm, entries) && multiset(sorted) == multiset(entries)
    ensures EntriesOf(mm, sorted)
  {
    forall x ensures x in sorted <==> x in entries {
      assert x in multiset(sorted) <==> x in multiset(entries);
    }
    assert Names(sorted) == Names(entries);
    forall i, j | 0 <= i < j < |sorted| ensures sorted[i].kb != sorted[j].kb {
      if sorted[i].kb == sorted[j].kb {
        assert sorted[i] in entries && sorted[j] in entries;
        assert sorted[i] == sorted[j];
        TwiceIn(sorted, i, j);
        OnceIn(entries, sorted[i]);
      }
    }
  }

  lemma TwiceIn<T>(s: seq<T>, i: nat, j: nat)
    requires i < j < |s| && s[i] == s[j]
    ensures multiset(s)[s[i]] >= 2
  {
    assert s == s[..j] + [s[j]] + s[j + 1..];
    assert s[..j][i] == s[i];
  }

  lemma {:induction false} OnceIn(s: seq<Found>, x: Found)
    requires DistinctNames(s)
    ensures multiset(s)[x] <= 1
  {
    if s == [] {
    } else {
      var init, last := s[..|s| - 1], s[|s| - 1];
      assert s == init + [last];
      OnceIn(init, x);
    }
  }

  lemma TopOfEntries(found: seq<Found>, mm: map<Bytes, Time>, sorted: seq<Found>)
    requires Deduplicated(found, mm) && EntriesOf(mm, sorted) && NewestFirst(sorted)
    ensures Top(found, if |sorted| > TOP then sorted[..TOP] else sorted)
  {
    var out := if |sorted| > TOP then sorted[..TOP] else sorted;
    NamesCount(sorted);
    SameNames(found, mm);
    forall x, i | x in found && !Listed(out, x.kb) && 0 <= i < |out| ensures x.t <= out[i].t {
      LeftOut(mm, sorted, out, x.kb, i);
    }
    hide Names;
  }

  lemma SameNames(found: seq<Found>, mm: map<Bytes, Time>)
    requires Deduplicated(found, mm)
    ensures Names(found) == mm.Keys
  {
    forall kb | kb in mm.Keys ensures kb in Names(found) { assert Found(kb, mm[kb]) in found; }
  }

  lemma LeftOut(mm: map<Bytes, Time>, sorted: seq<Found>, out: seq<Found>, kb: Bytes, i: nat)
    requires EntriesOf(mm, sorted) && NewestFirst(sorted)
    requires out <= sorted && kb in mm && !Listed(out, kb) && i < |out|
    ensures mm[kb] <= out[i].t
  {
    assert forall n :: 0 <= n < |out| ==> out[n] == sorted[n];
    assert kb in Names(sorted);
    var y :| y in sorted && y.kb == kb;
    var k :| 0 <= k < |sorted| && sorted[k] == y;
  }

  /** The reported times do not depend on the order in which the map is ranged over or equal times
      are sorted; nor does the report itself when no two updates share a time. */
  lemma TopIsDetermined(found: seq<Found>, a: seq<Found>, b: seq<Found>)
    requires Top(found, a) && Top(found, b)
    ensures |a| == |b| && forall i :: 0 <= i < |a| ==> a[i].t == b[i].t
    ensures (forall x, y :: x in found && y in found && x.t == y.t ==> x.kb == y.kb) ==> a == b
  {
    forall i | 0 <= i < |a| ensures a[i].t == b[i].t {
      NoLater(found, a, b, i);
      NoLater(found, b, a, i);
    }
    if forall x, y :: x in found && y in found && x.t == y.t ==> x.kb == y.kb {
      forall i | 0 <= i < |a| ensures a[i] == b[i] {
        assert IsLatest(found, a[i]) && IsLatest(found, b[i]);
      }
    }
  }

  lemma NoLater(found: seq<Found>, a: seq<Found>, b: seq<Found>, i: nat)
    requires Top(found, a) && Top(found, b) && i < |a|
    ensures b[i].t <= a[i].t
  {
    if b[i].t > a[i].t {
      forall kb | kb in Names(b[..i + 1]) ensures kb in Names(a[..i]) {
        var x :| x in b[..i + 1] && x.kb == kb;
        var j :| 0 <= j < i + 1 && b[j] == x;
        AmongTheNewer(found, a, b, i, j);
      }
      NamesCount(a[..i]);
      NamesCount(b[..i + 1]);
      SubsetCount(Names(b[..i + 1]), Names(a[..i]));
    }
  }

  /** An update that one report puts above a[i].t stands before position i in the other. */
  lemma AmongTheNewer(found: seq<Found>, a: seq<Found>, b: seq<Found>, i: nat, j: nat)
    requires Top(found, a) && Top(found, b) && j <= i < |a| && b[i].t > a[i].t
    ensures b[j].kb in Names(a[..i])
  {
    hide Names;
    assert IsLatest(found, b[j]) && b[j].t >= b[i].t;
    assert Listed(a, b[j].kb);
    var m :| 0 <= m < |a| && a[m].kb == b[j].kb;
    assert IsLatest(found, a[m]);
    assert m < i;
    NamesHold(a[..i]);
    assert a[..i][m].kb in Names(a[..i]);
  }

  lemma {:induction false} SubsetCount<T>(x: set<T>, y: set<T>)
    requires x <= y
    ensures |x| <= |y|
    decreases |x|
  {
    if x == {} {
    } else {
      var e :| e in x;
      SubsetCount(x - {e}, y - {e});
    }
  }
}
