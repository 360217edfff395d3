/** Weighted round-robin over data types: which records of a window make up one batch. */
module FairBatch {
  import opened ByteStrings
  import opened Store

  function Ascii(s: string): Bytes
    requires forall i :: 0 <= i < |s| ==> s[i] < 128 as char
  {
    seq(|s|, i requires 0 <= i < |s| => s[i] as int)
  }

  const HOST_METRICS := Ascii("host_metrics")
  const HARDWARE_DETAILS := Ascii("hardware_details")
  const SOFTWARE_INVENTORY := Ascii("software_inventory")
  const SECURITY_SNAPSHOT := Ascii("security_snapshot")
  const PROCESS_SNAPSHOT := Ascii("process_snapshot")
  const SERVICE_SNAPSHOT := Ascii("service_snapshot")
  const NETWORK_CONNECTIONS := Ascii("network_connections")

  /** The seven types the collection engine saves. */
  const ENGINE_TYPES: set<Bytes> := {
    HOST_METRICS, HARDWARE_DETAILS, SOFTWARE_INVENTORY, SECURITY_SNAPSHOT,
    PROCESS_SNAPSHOT, SERVICE_SNAPSHOT, NETWORK_CONNECTIONS
  }

  /** The same types in lexicographic order. */
  const ENGINE_ORDER: seq<Bytes> := [
    HARDWARE_DETAILS, HOST_METRICS, NETWORK_CONNECTIONS, PROCESS_SNAPSHOT,
    SECURITY_SNAPSHOT, SERVICE_SNAPSHOT, SOFTWARE_INVENTORY
  ]

  function Weight(dataType: Bytes): (k: nat)
    ensures 1 <= k <= 3
  {
    if dataType in {HARDWARE_DETAILS, SOFTWARE_INVENTORY, SECURITY_SNAPSHOT} then 3
    else if dataType in {PROCESS_SNAPSHOT, SERVICE_SNAPSHOT, NETWORK_CONNECTIONS} then 2
    else 1
  }

  /** The value of a 64-bit signed machine integer after the exact result `x`. */
  function Int64(x: int): int {
    (x + 0x8000_0000_0000_0000) % 0x1_0000_0000_0000_0000 - 0x8000_0000_0000_0000
  }

  /** How many entries are scanned to fill a batch. */
  function ScanSize(limit: int): (scan: nat)
    ensures 200 <= scan <= 2000
  {
    var scan := Int64(limit * 20);
    if scan < 200 then 200 else if scan > 2000 then 2000 else scan
  }

  /** The number of entries is twenty times the limit as a machine integer holds it, kept between 200 and
      2000: for a limit up to 10 it is 200 and from 100 on 2000, until the product no longer fits. */
  lemma ScanLength(limit: int, product: int)
    requires -0x8000_0000_0000_0000 <= product < 0x8000_0000_0000_0000
    requires (limit * 20 - product) % 0x1_0000_0000_0000_0000 == 0
    ensures ScanSize(limit) == if product < 200 then 200 else if product > 2000 then 2000 else product
    ensures 0 < limit < 0x0666_6666_6666_6667 ==>
              ScanSize(limit) == if limit <= 10 then 200 else if limit >= 100 then 2000 else 20 * limit
  {
    assert Int64(limit * 20) == product;
    if 0 < limit < 0x0666_6666_6666_6667 { assert product == limit * 20; }
  }

  /** How many entries those are for a limit whose product fits. */
  ghost predicate Scans(limit: int, n: nat) {
    0 < limit < 0x0666_6666_6666_6667 && n == if limit <= 10 then 200 else if limit >= 100 then 2000 else 20 * limit
  }

  lemma ScansExactly(limit: int, n: nat)
    requires Scans(limit, n)
    ensures ScanSize(limit) == n
  {
    ScanLength(limit, limit * 20);
  }

  function Types(rs: seq<Record>): set<Bytes> { set r | r in rs :: r.dataType }

  /** How many records a type may send in a row: any positive assignment. */
  type Weights = f: Bytes -> nat | forall t :: f(t) >= 1 witness t => 1

  // ---------- The schedule ----------

  /** What a type contributes in the n-th round: its next `Weight` records, fewer when it runs out. */
  function Turn(wt: Weights, w: seq<Record>, t: Bytes, n: nat): seq<Record> {
    var rs := OfType(w, t);
    rs[Served(wt, w, t, n)..Served(wt, w, t, n + 1)]
  }

  /** How many records of a type the first `n` rounds take. */
  function Served(wt: Weights, w: seq<Record>, t: Bytes, n: nat): (k: nat)
    ensures k <= |OfType(w, t)|
  {
    if n == 0 then 0 else Min(Served(wt, w, t, n - 1) + wt(t), |OfType(w, t)|)
  }

  function Round(wt: Weights, w: seq<Record>, order: seq<Bytes>, n: nat): seq<Record> {
    if order == [] then []
    else Round(wt, w, order[..|order| - 1], n) + Turn(wt, w, order[|order| - 1], n)
  }

  function Rounds(wt: Weights, w: seq<Record>, order: seq<Bytes>, n: nat): seq<Record> {
    if n == 0 then [] else Rounds(wt, w, order, n - 1) + Round(wt, w, order, n - 1)
  }

  /** The whole window when it fits, otherwise the first `limit` records of the schedule. */
  function Batch(wt: Weights, w: seq<Record>, limit: int): seq<Record> {
    if limit <= 0 then []
    else if |w| <= limit then w
    else Take(Rounds(wt, w, Sorted(Types(w)), |w|), limit)
  }

  ghost predicate Distinct<T>(s: seq<T>) {
    s == [] || (s[|s| - 1] !in s[..|s| - 1] && Distinct(s[..|s| - 1]))
  }

  lemma {:induction false} PrefixesAreDistinct(ts: seq<Bytes>, n: nat)
    requires n <= |ts| && forall i, j :: 0 <= i < j < |ts| ==> Less(ts[i], ts[j])
    ensures Distinct(ts[..n])
  {
    if n == 0 {
    } else {
      PrefixesAreDistinct(ts, n - 1);
      assert ts[..n][..n - 1] == ts[..n - 1];
      forall i | 0 <= i < n - 1 ensures ts[i] != ts[n - 1] {
        LessIsTotal(ts[i], ts[n - 1]);
      }
    }
  }

  lemma SortedIsDistinct(s: set<Bytes>)
    ensures Distinct(Sorted(s))
    ensures forall k :: k in Sorted(s) <==> k in s
  {
    SortedMembers(s);
    SortedAscends(s);
    PrefixesAreDistinct(Sorted(s), |Sorted(s)|);
    assert Sorted(s)[..|Sorted(s)|] == Sorted(s);
  }

  lemma {:induction false} DistinctPrefix<T>(s: seq<T>, c: nat, i: nat)
    requires Distinct(s) && c <= |s| && i < |s|
    ensures Distinct(s[..c])
    ensures s[i] in s[..c] <==> i < c
  {
    var init := s[..|s| - 1];
    if c == |s| {
      assert s[..c] == s;
    } else {
      assert init[..c] == s[..c];
      if i < |s| - 1 {
        DistinctPrefix(init, c, i);
      } else if init != [] {
        DistinctPrefix(init, c, 0);
      }
    }
  }

  lemma DistinctIndices<T>(s: seq<T>, i: nat, j: nat)
    requires Distinct(s) && i < |s| && j < |s| && i != j
    ensures s[i] != s[j]
  {
    var lo, hi := Min(i, j), if i < j then j else i;
    DistinctPrefix(s, hi, lo);
    DistinctPrefix(s, hi, hi);
  }

  // ---------- What the schedule holds of each type ----------

  lemma {:induction false} OfTypeUniform(rs: seq<Record>, t: Bytes, u: Bytes)
    requires forall r :: r in rs ==> r.dataType == t
    ensures OfType(rs, u) == if t == u then rs else []
  {
    if rs == [] {
    } else {
      assert rs[0] in rs;
      OfTypeUniform(rs[1..], t, u);
    }
  }

  lemma OfTypeTurn(wt: Weights, w: seq<Record>, t: Bytes, n: nat, k: nat, u: Bytes)
    requires k <= |Turn(wt, w, t, n)|
    ensures OfType(Turn(wt, w, t, n)[..k], u) == if t == u then Turn(wt, w, t, n)[..k] else []
  {
    forall r | r in Turn(wt, w, t, n)[..k] ensures r.dataType == t {
      assert r in OfType(w, t);
      OfTypeMembers(w, t, r);
    }
    OfTypeUniform(Turn(wt, w, t, n)[..k], t, u);
  }

  lemma {:induction false} OfTypeRound(wt: Weights, w: seq<Record>, order: seq<Bytes>, n: nat, u: Bytes)
    requires Distinct(order)
    ensures OfType(Round(wt, w, order, n), u) == TurnOf(wt, w, order, n, u)
  {
    if order == [] {
    } else {
      var init, last := order[..|order| - 1], order[|order| - 1];
      OfTypeRound(wt, w, init, n, u);
      OfTypeLastTurn(wt, w, init, last, n, u);
      assert order == init + [last];
    }
  }

  /** What round `n` takes of type `u`. */
  function TurnOf(wt: Weights, w: seq<Record>, order: seq<Bytes>, n: nat, u: Bytes): seq<Record> {
    if u in order then Turn(wt, w, u, n) else []
  }

  lemma OfTypeLastTurn(wt: Weights, w: seq<Record>, init: seq<Bytes>, last: Bytes, n: nat, u: Bytes)
    requires last !in init && OfType(Round(wt, w, init, n), u) == TurnOf(wt, w, init, n, u)
    ensures OfType(Round(wt, w, init + [last], n), u) == TurnOf(wt, w, init + [last], n, u)
  {
    var turn := Turn(wt, w, last, n);
    assert (init + [last])[..|init|] == init;
    OfTypeConcat(Round(wt, w, init, n), turn, u);
    OfTypeTurn(wt, w, last, n, |turn|, u);
    assert turn[..|turn|] == turn;
  }

  lemma SliceJoin<T>(s: seq<T>, a: nat, b: nat)
    requires a <= b <= |s|
    ensures s[..b] == s[..a] + s[a..b]
  {
  }

  lemma {:induction false} ServedFormula(wt: Weights, w: seq<Record>, t: Bytes, n: nat)
    ensures Served(wt, w, t, n) == Min(n * wt(t), |OfType(w, t)|)
  {
    if n == 0 {
    } else {
      ServedFormula(wt, w, t, n - 1);
      assert n * wt(t) == (n - 1) * wt(t) + wt(t);
    }
  }

  lemma {:induction false} OfTypeRounds(wt: Weights, w: seq<Record>, order: seq<Bytes>, n: nat, u: Bytes)
    requires Distinct(order)
    ensures OfType(Rounds(wt, w, order, n), u) == FirstRounds(wt, w, order, n, u)
  {
    if n == 0 {
    } else {
      OfTypeRounds(wt, w, order, n - 1, u);
      OfTypeRoundsStep(wt, w, order, n - 1, u);
    }
  }

  lemma OfTypeRoundsStep(wt: Weights, w: seq<Record>, order: seq<Bytes>, n: nat, u: Bytes)
    requires Distinct(order)
    requires OfType(Rounds(wt, w, order, n), u) == FirstRounds(wt, w, order, n, u)
    ensures OfType(Rounds(wt, w, order, n + 1), u) == FirstRounds(wt, w, order, n + 1, u)
  {
    OfTypeRound(wt, w, order, n, u);
    OfTypeNextRound(wt, w, order, n, u);
    if u in order { ServedExtend(wt, w, u, n); }
  }

  /** What the first `n` rounds take of type `u`: a prefix of its records. */
  function FirstRounds(wt: Weights, w: seq<Record>, order: seq<Bytes>, n: nat, u: Bytes): seq<Record> {
    if u in order then OfType(w, u)[..Served(wt, w, u, n)] else []
  }

  lemma OfTypeNextRound(wt: Weights, w: seq<Record>, order: seq<Bytes>, n: nat, u: Bytes)
    ensures OfType(Rounds(wt, w, order, n + 1), u) ==
            OfType(Rounds(wt, w, order, n), u) + OfType(Round(wt, w, order, n), u)
  {
    OfTypeConcat(Rounds(wt, w, order, n), Round(wt, w, order, n), u);
  }

  lemma ServedExtend(wt: Weights, w: seq<Record>, t: Bytes, n: nat)
    ensures OfType(w, t)[..Served(wt, w, t, n + 1)] == OfType(w, t)[..Served(wt, w, t, n)] + Turn(wt, w, t, n)
  {
    SliceJoin(OfType(w, t), Served(wt, w, t, n), Served(wt, w, t, n + 1));
  }

  /** Sequences with the same records of each type have the same records. */
  lemma SameByType(a: seq<Record>, b: seq<Record>)
    requires forall t :: OfType(a, t) == OfType(b, t)
    ensures multiset(a) == multiset(b) && |a| == |b|
  {
    forall r: Record ensures multiset(a)[r] == multiset(b)[r] {
      OfTypeMultiplicity(a, r);
      OfTypeMultiplicity(b, r);
      assert OfType(a, r.dataType) == OfType(b, r.dataType);
    }
    assert |multiset(a)| == |a| && |multiset(b)| == |b|;
  }

  lemma OfAbsentType(w: seq<Record>, t: Bytes)
    requires t !in Types(w)
    ensures OfType(w, t) == []
  {
    forall r ensures r !in OfType(w, t) {
      OfTypeMembers(w, t, r);
    }
    if OfType(w, t) != [] { HeadIsMember(OfType(w, t)); }
  }

  /** Once every type is exhausted the schedule is a rearrangement of the window. */
  lemma ExhaustedRounds(wt: Weights, w: seq<Record>, order: seq<Bytes>, n: nat)
    requires Distinct(order) && forall t :: t in order <==> t in Types(w)
    requires forall t :: t in order ==> Served(wt, w, t, n) == |OfType(w, t)|
    ensures multiset(Rounds(wt, w, order, n)) == multiset(w) && |Rounds(wt, w, order, n)| == |w|
  {
    forall t ensures OfType(Rounds(wt, w, order, n), t) == OfType(w, t) {
      OfTypeRounds(wt, w, order, n, t);
      if t !in order { OfAbsentType(w, t); }
    }
    SameByType(Rounds(wt, w, order, n), w);
  }

  lemma {:induction false} OfTypeLength(w: seq<Record>, t: Bytes)
    ensures |OfType(w, t)| <= |w|
  {
    if w == [] {
    } else {
      OfTypeLength(w[1..], t);
    }
  }

  lemma {:induction false} ServedAtLeast(wt: Weights, w: seq<Record>, t: Bytes, n: nat)
    ensures Served(wt, w, t, n) >= Min(n, |OfType(w, t)|)
  {
    if n == 0 {
    } else {
      ServedAtLeast(wt, w, t, n - 1);
    }
  }

  lemma EnoughRounds(wt: Weights, w: seq<Record>, order: seq<Bytes>)
    requires Distinct(order) && forall t :: t in order <==> t in Types(w)
    ensures |Rounds(wt, w, order, |w|)| == |w|
    ensures multiset(Rounds(wt, w, order, |w|)) == multiset(w)
  {
    forall t | t in order ensures Served(wt, w, t, |w|) == |OfType(w, t)| {
      OfTypeLength(w, t);
      ServedAtLeast(wt, w, t, |w|);
    }
    ExhaustedRounds(wt, w, order, |w|);
  }

  lemma {:induction false} RoundsExtend(wt: Weights, w: seq<Record>, order: seq<Bytes>, m: nat, n: nat)
    requires m <= n
    ensures Rounds(wt, w, order, m) <= Rounds(wt, w, order, n)
  {
    if m < n { RoundsExtend(wt, w, order, m, n - 1); }
  }

  lemma {:induction false} RoundExtend(wt: Weights, w: seq<Record>, order: seq<Bytes>, n: nat, c: nat)
    requires c <= |order|
    ensures Round(wt, w, order[..c], n) <= Round(wt, w, order, n)
  {
    if c < |order| {
      RoundExtend(wt, w, order[..|order| - 1], n, c);
      assert order[..|order| - 1][..c] == order[..c];
    } else {
      assert order[..c] == order;
    }
  }

  // ---------- Where the schedule is cut ----------

  /** The last complete round before position `limit`. */
  lemma {:induction false} CutRound(wt: Weights, w: seq<Record>, order: seq<Bytes>, limit: nat, n: nat) returns (r: nat)
    requires limit < |Rounds(wt, w, order, n)|
    ensures r < n && |Rounds(wt, w, order, r)| <= limit < |Rounds(wt, w, order, r + 1)|
  {
    if |Rounds(wt, w, order, n - 1)| <= limit {
      r := n - 1;
    } else {
      r := CutRound(wt, w, order, limit, n - 1);
    }
  }

  /** The type whose turn holds position `k` of a round. */
  lemma {:induction false} CutTurn(wt: Weights, w: seq<Record>, order: seq<Bytes>, n: nat, k: nat) returns (c: nat)
    requires k < |Round(wt, w, order, n)|
    ensures c < |order|
    ensures |Round(wt, w, order[..c], n)| <= k < |Round(wt, w, order[..c + 1], n)|
  {
    hide Turn;
    var init := order[..|order| - 1];
    if |Round(wt, w, init, n)| <= k {
      c := |order| - 1;
      assert order[..c + 1] == order;
    } else {
      c := CutTurn(wt, w, init, n, k);
      assert init[..c] == order[..c] && init[..c + 1] == order[..c + 1];
    }
  }

  /** The schedule up to position `limit`: complete rounds, complete turns, part of a turn. */
  ghost predicate CutAt(wt: Weights, w: seq<Record>, order: seq<Bytes>, limit: nat, rounds: nat, cut: nat, part: nat) {
    && cut < |order| && part < |Turn(wt, w, order[cut], rounds)|
    && limit < |Rounds(wt, w, order, rounds + 1)|
    && Take(Rounds(wt, w, order, |w|), limit) ==
       Rounds(wt, w, order, rounds) + (Round(wt, w, order[..cut], rounds) + Turn(wt, w, order[cut], rounds)[..part])
  }

  lemma CutSchedule(wt: Weights, w: seq<Record>, order: seq<Bytes>, limit: nat)
    returns (rounds: nat, cut: nat, part: nat)
    requires limit < |Rounds(wt, w, order, |w|)|
    ensures CutAt(wt, w, order, limit, rounds, cut, part)
  {
    rounds := CutRound(wt, w, order, limit, |w|);
    cut := CutTurn(wt, w, order, rounds, limit - |Rounds(wt, w, order, rounds)|);
    part := limit - |Rounds(wt, w, order, rounds)| - |Round(wt, w, order[..cut], rounds)|;
    CutAtTurn(wt, w, order, limit, rounds, cut, part);
  }

  lemma CutAtTurn(wt: Weights, w: seq<Record>, order: seq<Bytes>, limit: nat, rounds: nat, cut: nat, part: nat)
    requires rounds < |w| && limit < |Rounds(wt, w, order, rounds + 1)|
    requires cut < |order| && limit < |Rounds(wt, w, order, rounds)| + |Round(wt, w, order[..cut + 1], rounds)|
    requires limit == |Rounds(wt, w, order, rounds)| + |Round(wt, w, order[..cut], rounds)| + part
    ensures CutAt(wt, w, order, limit, rounds, cut, part)
  {
    var all, done, next := Rounds(wt, w, order, |w|), Rounds(wt, w, order, rounds), Round(wt, w, order, rounds);
    var turns, turn := Round(wt, w, order[..cut], rounds), Turn(wt, w, order[cut], rounds);
    assert done + next <= all by { RoundsExtend(wt, w, order, rounds + 1, |w|); }
    RoundSplit(wt, w, order, rounds, cut);
    assert turns + turn <= next by { RoundExtend(wt, w, order, rounds, cut + 1); }
    CutPrefix(all, done, next, turns, turn, limit);
  }

  lemma RoundSplit(wt: Weights, w: seq<Record>, order: seq<Bytes>, n: nat, c: nat)
    requires c < |order|
    ensures Round(wt, w, order[..c + 1], n) == Round(wt, w, order[..c], n) + Turn(wt, w, order[c], n)
  {
    assert order[..c + 1][..c] == order[..c];
  }

  lemma CutPrefix<T>(all: seq<T>, a: seq<T>, b: seq<T>, c: seq<T>, d: seq<T>, limit: nat)
    requires a + b <= all && c + d <= b
    requires |a| + |c| <= limit < |a| + |c| + |d|
    ensures Take(all, limit) == a + (c + d[..limit - |a| - |c|])
  {
    var k := limit - |a|;
    assert all[..limit] == (a + b)[..limit] == a + b[..k];
    assert b[..k] == (c + d)[..k] == c + d[..k - |c|];
  }

  /** What the cut schedule holds of the i-th type. */
  lemma OfTypeCut(wt: Weights, w: seq<Record>, order: seq<Bytes>, limit: nat, rounds: nat, cut: nat, part: nat, i: nat)
    requires Distinct(order) && CutAt(wt, w, order, limit, rounds, cut, part) && i < |order|
    ensures OfType(Take(Rounds(wt, w, order, |w|), limit), order[i]) ==
            OfType(w, order[i])[..TakenAt(wt, w, order, rounds, cut, part, i)]
  {
    var before, t, u := order[..cut], order[cut], order[i];
    var done, tail := Rounds(wt, w, order, rounds), Turn(wt, w, t, rounds)[..part];
    OfTypeConcat(done, Round(wt, w, before, rounds) + tail, u);
    OfTypeConcat(Round(wt, w, before, rounds), tail, u);
    OfTypeRounds(wt, w, order, rounds, u);
    OfTypeLastRound(wt, w, order, rounds, cut, part, i);
    SliceJoin(OfType(w, u), Served(wt, w, u, rounds), TakenAt(wt, w, order, rounds, cut, part, i));
  }

  lemma OfTypeLastRound(wt: Weights, w: seq<Record>, order: seq<Bytes>, n: nat, cut: nat, part: nat, i: nat)
    requires Distinct(order) && i < |order| && cut < |order| && part < |Turn(wt, w, order[cut], n)|
    ensures OfType(Round(wt, w, order[..cut], n), order[i]) + OfType(Turn(wt, w, order[cut], n)[..part], order[i])
            == OfType(w, order[i])[Served(wt, w, order[i], n)..TakenAt(wt, w, order, n, cut, part, i)]
  {
    var before, u := order[..cut], order[i];
    DistinctPrefix(order, cut, i);
    if i != cut { DistinctIndices(order, cut, i); }
    OfTypeRound(wt, w, before, n, u);
    OfTypeTurn(wt, w, order[cut], n, part, u);
  }

  function TakenAt(wt: Weights, w: seq<Record>, order: seq<Bytes>, rounds: nat, cut: nat, part: nat, i: nat): (k: nat)
    requires cut < |order| && part < |Turn(wt, w, order[cut], rounds)| && i < |order|
    ensures Served(wt, w, order[i], rounds) <= k <= Served(wt, w, order[i], rounds + 1) <= |OfType(w, order[i])|
  {
    if i < cut then Served(wt, w, order[i], rounds + 1)
    else if i == cut then Served(wt, w, order[i], rounds) + part
    else Served(wt, w, order[i], rounds)
  }

  /** After `rounds` complete rounds the types before index `cut` had one more turn, the type at
      `cut` only part of it, and the later ones none. */
  ghost predicate Allocated(wt: Weights, w: seq<Record>, batch: seq<Record>, order: seq<Bytes>, rounds: nat, cut: nat) {
    && cut < |order|
    && forall i :: 0 <= i < |order| ==>
         var t := order[i];
         var taken := |OfType(batch, t)|;
         && OfType(batch, t) <= OfType(w, t)
         && (i < cut ==> taken == Min((rounds + 1) * wt(t), |OfType(w, t)|))
         && (i > cut ==> taken == Min(rounds * wt(t), |OfType(w, t)|))
         && (i == cut ==> Min(rounds * wt(t), |OfType(w, t)|) <= taken < Min((rounds + 1) * wt(t), |OfType(w, t)|))
  }

  /** Fair allocation of an overfull window, round by round and type by type. */
  lemma FairAllocation(wt: Weights, w: seq<Record>, limit: nat) returns (rounds: nat, cut: nat)
    requires 0 < limit < |w|
    ensures Allocated(wt, w, Batch(wt, w, limit), Sorted(Types(w)), rounds, cut)
    ensures |Rounds(wt, w, Sorted(Types(w)), rounds + 1)| > limit
  {
    var order := Sorted(Types(w));
    SortedIsDistinct(Types(w));
    EnoughRounds(wt, w, order);
    var part;
    rounds, cut, part := CutSchedule(wt, w, order, limit);
    forall i | 0 <= i < |order|
      ensures OfType(Batch(wt, w, limit), order[i]) ==
              OfType(w, order[i])[..TakenAt(wt, w, order, rounds, cut, part, i)]
      ensures Served(wt, w, order[i], rounds) == Min(rounds * wt(order[i]), |OfType(w, order[i])|)
      ensures Served(wt, w, order[i], rounds + 1) == Min((rounds + 1) * wt(order[i]), |OfType(w, order[i])|)
    {
      OfTypeCut(wt, w, order, limit, rounds, cut, part, i);
      ServedFormula(wt, w, order[i], rounds);
      ServedFormula(wt, w, order[i], rounds + 1);
    }
  }

  // ---------- Consequences ----------

  function TotalWeight(wt: Weights, order: seq<Bytes>): nat {
    if order == [] then 0 else TotalWeight(wt, order[..|order| - 1]) + wt(order[|order| - 1])
  }

  lemma {:induction false} RoundBound(wt: Weights, w: seq<Record>, order: seq<Bytes>, n: nat)
    ensures |Round(wt, w, order, n)| <= TotalWeight(wt, order)
  {
    if order == [] {
    } else {
      RoundBound(wt, w, order[..|order| - 1], n);
    }
  }

  lemma {:induction false} RoundsBound(wt: Weights, w: seq<Record>, order: seq<Bytes>, n: nat)
    ensures |Rounds(wt, w, order, n)| <= n * TotalWeight(wt, order)
  {
    if n == 0 {
    } else {
      RoundsBound(wt, w, order, n - 1);
      RoundBound(wt, w, order, n - 1);
      assert n * TotalWeight(wt, order) == (n - 1) * TotalWeight(wt, order) + TotalWeight(wt, order);
    }
  }

  /** Whenever `n` rounds of all the types present fit into the limit, every type gets its `n` turns:
      the oldest n * weight of its records, or all of them. */
  lemma FairShare(wt: Weights, w: seq<Record>, limit: nat, t: Bytes, n: nat)
    requires 0 < limit < |w| && t in Types(w)
    requires n * TotalWeight(wt, Sorted(Types(w))) <= limit
    ensures OfType(Batch(wt, w, limit), t) <= OfType(w, t)
    ensures |OfType(Batch(wt, w, limit), t)| >= Min(n * wt(t), |OfType(w, t)|)
  {
    var order := Sorted(Types(w));
    assert t in order by { SortedIsDistinct(Types(w)); }
    var rounds, cut := FairAllocation(wt, w, limit);
    RoundsThatFit(wt, w, order, limit, rounds, n);
    ShareOfRounds(wt, w, Batch(wt, w, limit), order, rounds, cut, n, t);
  }

  lemma ShareOfRounds(wt: Weights, w: seq<Record>, batch: seq<Record>, order: seq<Bytes>,
                      rounds: nat, cut: nat, n: nat, t: Bytes)
    requires Allocated(wt, w, batch, order, rounds, cut) && n <= rounds && t in order
    ensures OfType(batch, t) <= OfType(w, t)
    ensures |OfType(batch, t)| >= Min(n * wt(t), |OfType(w, t)|)
  {
    var i :| 0 <= i < |order| && order[i] == t;
    MulMonotone(n, rounds, wt(t));
    MulMonotone(n, rounds + 1, wt(t));
  }

  lemma RoundsThatFit(wt: Weights, w: seq<Record>, order: seq<Bytes>, limit: nat, rounds: nat, n: nat)
    requires n * TotalWeight(wt, order) <= limit < |Rounds(wt, w, order, rounds + 1)|
    ensures n <= rounds
  {
    RoundsBound(wt, w, order, rounds + 1);
    MulMonotone(rounds + 1, n, TotalWeight(wt, order));
  }

  /** A batch has exactly as many records as fit, and takes none of them twice. */
  lemma BatchSize(wt: Weights, w: seq<Record>, limit: nat)
    requires limit > 0
    ensures |Batch(wt, w, limit)| == Min(limit, |w|)
    ensures multiset(Batch(wt, w, limit)) <= multiset(w)
  {
    if limit < |w| {
      var order := Sorted(Types(w));
      SortedIsDistinct(Types(w));
      EnoughRounds(wt, w, order);
      var all := Rounds(wt, w, order, |w|);
      assert all == all[..limit] + all[limit..];
      assert multiset(all) == multiset(all[..limit]) + multiset(all[limit..]);
    }
  }

  lemma BatchMembers(wt: Weights, w: seq<Record>, limit: int, r: Record)
    requires r in Batch(wt, w, limit)
    ensures r in w
  {
    if limit > 0 {
      BatchSize(wt, w, limit);
      assert r in multiset(Batch(wt, w, limit));
      assert r in multiset(w);
    }
  }

  /** Of every type a batch takes the oldest records. */
  lemma BatchTakesOldest(wt: Weights, w: seq<Record>, limit: int, t: Bytes)
    ensures OfType(Batch(wt, w, limit), t) <= OfType(w, t)
  {
    if 0 < limit < |w| {
      if t in Types(w) {
        FairShare(wt, w, limit, t, 0);
      } else {
        forall r ensures r !in OfType(Batch(wt, w, limit), t) {
          OfTypeMembers(Batch(wt, w, limit), t, r);
          if r in Batch(wt, w, limit) { BatchMembers(wt, w, limit, r); }
        }
        if OfType(Batch(wt, w, limit), t) != [] { HeadIsMember(OfType(Batch(wt, w, limit), t)); }
      }
    }
  }

  /** The batch size the documentation's bound of 2000 stands for is met exactly when twenty times
      the limit either is small or has not wrapped around below 2000. */
  lemma EffectiveLimit(limit: int)
    requires 0 < limit < 0x8000_0000_0000_0000
    ensures Min(limit, ScanSize(limit)) == Min(limit, 2000)
            <==> limit <= 100 || Int64(limit * 20) >= 2000
  {
    if limit <= 100 {
      assert Int64(limit * 20) == limit * 20;
    } else if limit < 0x0400_0000_0000_0000 {
      assert Int64(limit * 20) == limit * 20;
    }
  }

  /** A limit for which it fails: twenty times 2^62 wraps to 0, and 200 entries are scanned. */
  lemma HugeLimitFallsBack()
    ensures ScanSize(0x4000_0000_0000_0000) == 200
  {}

  // ---------- The engine's own types ----------

  lemma {:induction false} TotalWeightConcat(wt: Weights, a: seq<Bytes>, b: seq<Bytes>)
    ensures TotalWeight(wt, a + b) == TotalWeight(wt, a) + TotalWeight(wt, b)
  {
    if b == [] {
      assert a + b == a;
    } else {
      var init := b[..|b| - 1];
      assert (a + b)[..|a + b| - 1] == a + init;
      TotalWeightConcat(wt, a, init);
    }
  }

  /** A list without repetitions weighs no more than any list that has all its members. */
  lemma {:induction false} TotalWeightMonotone(wt: Weights, a: seq<Bytes>, b: seq<Bytes>)
    requires Distinct(a) && forall t :: t in a ==> t in b
    ensures TotalWeight(wt, a) <= TotalWeight(wt, b)
  {
    if a == [] {
    } else {
      var init, last := a[..|a| - 1], a[|a| - 1];
      assert last in a;
      var i :| 0 <= i < |b| && b[i] == last;
      var rest := b[..i] + b[i + 1..];
      assert b == b[..i] + ([last] + b[i + 1..]);
      TotalWeightConcat(wt, b[..i], [last] + b[i + 1..]);
      TotalWeightConcat(wt, [last], b[i + 1..]);
      TotalWeightConcat(wt, b[..i], b[i + 1..]);
      var one := [last];
      assert one[..0] == [];
      forall t | t in init ensures t in rest {
        assert t in b;
      }
      TotalWeightMonotone(wt, init, rest);
    }
  }

  lemma EngineWeights()
    ensures Weight(HARDWARE_DETAILS) == Weight(SOFTWARE_INVENTORY) == Weight(SECURITY_SNAPSHOT) == 3
    ensures Weight(PROCESS_SNAPSHOT) == Weight(SERVICE_SNAPSHOT) == Weight(NETWORK_CONNECTIONS) == 2
    ensures Weight(HOST_METRICS) == 1
  {
    assert HARDWARE_DETAILS[0] == 'h' as int && PROCESS_SNAPSHOT[0] == 'p' as int;
    assert SERVICE_SNAPSHOT[0] == 's' as int;
    assert |HOST_METRICS| == 12 && |HARDWARE_DETAILS| == |PROCESS_SNAPSHOT| == |SERVICE_SNAPSHOT| == 16;
    assert |SECURITY_SNAPSHOT| == 17 && |SOFTWARE_INVENTORY| == 18 && |NETWORK_CONNECTIONS| == 19;
  }

  /** Which types have which weight; types nobody configured have weight 1. */
  lemma WeightExactly(t: Bytes)
    ensures Weight(t) == 3 <==> t in {HARDWARE_DETAILS, SOFTWARE_INVENTORY, SECURITY_SNAPSHOT}
    ensures Weight(t) == 2 <==> t in {PROCESS_SNAPSHOT, SERVICE_SNAPSHOT, NETWORK_CONNECTIONS}
  {
    EngineWeights();
  }

  lemma TotalWeightSnoc(wt: Weights, ts: seq<Bytes>, t: Bytes)
    ensures TotalWeight(wt, ts + [t]) == TotalWeight(wt, ts) + wt(t)
  {
    assert (ts + [t])[..|ts|] == ts;
  }

  // ---------- Which limits give every type its turn ----------

  /** A window that a scan for `limit` records can see, of the engine's types. */
  ghost predicate EngineWindow(w: seq<Record>, limit: nat) {
    limit < |w| <= ScanSize(limit) && Ordered(w) && Types(w) <= ENGINE_TYPES
  }

  lemma InEngineWindow(w: seq<Record>, limit: nat)
    requires limit < |w| <= 200 && Ordered(w) && Types(w) <= ENGINE_TYPES
    ensures EngineWindow(w, limit)
  {}

  /** The stronger promise of a full turn: whatever the window holds, each type present gets as many
      records as its weight, or all it has. */
  ghost predicate EveryTypeGetsItsTurn(limit: nat) {
    forall w: seq<Record>, t: Bytes :: EngineWindow(w, limit) && t in Types(w) ==>
      |OfType(Batch(Weight, w, limit), t)| >= Min(Weight(t), |OfType(w, t)|)
  }

  function Copies(t: Bytes, n: nat): seq<Record> {
    if n == 0 then [] else Copies(t, n - 1) + [Record(0, t, [])]
  }

  lemma {:induction false} CopiesCount(t: Bytes, n: nat, u: Bytes)
    ensures |Copies(t, n)| == n && |OfType(Copies(t, n), u)| == if t == u then n else 0
  {
    if n == 0 {
    } else {
      CopiesCount(t, n - 1, u);
      OfTypeSnoc(Copies(t, n - 1), Record(0, t, []), u);
    }
  }

  /** Exactly one turn's worth of each type. */
  function OneTurnEach(wt: Weights, order: seq<Bytes>): seq<Record> {
    if order == [] then []
    else OneTurnEach(wt, order[..|order| - 1]) + Copies(order[|order| - 1], wt(order[|order| - 1]))
  }

  lemma {:induction false} OneTurnCounts(wt: Weights, order: seq<Bytes>, u: Bytes)
    requires Distinct(order)
    ensures |OneTurnEach(wt, order)| == TotalWeight(wt, order)
    ensures |OfType(OneTurnEach(wt, order), u)| == if u in order then wt(u) else 0
  {
    if order == [] {
    } else {
      var init, t := order[..|order| - 1], order[|order| - 1];
      OneTurnCounts(wt, init, u);
      CopiesCount(t, wt(t), u);
      OfTypeConcat(OneTurnEach(wt, init), Copies(t, wt(t)), u);
      assert order == init + [t];
    }
  }

  /** The same records under the keys 0, 1, 2 and so on. */
  function Numbered(rs: seq<Record>): seq<Record>
    requires |rs| <= 200
  {
    if rs == [] then [] else Numbered(rs[..|rs| - 1]) + [rs[|rs| - 1].(key := |rs| - 1)]
  }

  lemma {:induction false} NumberedKeeps(rs: seq<Record>, t: Bytes)
    requires |rs| <= 200
    ensures |Numbered(rs)| == |rs| && Ordered(Numbered(rs))
    ensures forall r :: r in Numbered(rs) ==> r.key < |rs|
    ensures |OfType(Numbered(rs), t)| == |OfType(rs, t)|
  {
    if rs == [] {
    } else {
      var init, last := rs[..|rs| - 1], rs[|rs| - 1];
      NumberedKeeps(init, t);
      OrderedSnoc(Numbered(init), last.(key := |rs| - 1));
      OfTypeSnoc(Numbered(init), last.(key := |rs| - 1), t);
      OfTypeSnoc(init, last, t);
      assert rs == init + [last];
    }
  }

  lemma EngineTypesAreSeven()
    ensures Distinct(ENGINE_ORDER) && (forall t :: t in ENGINE_ORDER <==> t in ENGINE_TYPES)
    ensures TotalWeight(Weight, ENGINE_ORDER) == 16
  {
    EngineWeights();
    NamesDiffer();
    hide Distinct, TotalWeight, Weight;
    var one, two := [HARDWARE_DETAILS], [HARDWARE_DETAILS, HOST_METRICS];
    var three, four := two + [NETWORK_CONNECTIONS], two + [NETWORK_CONNECTIONS] + [PROCESS_SNAPSHOT];
    var five := four + [SECURITY_SNAPSHOT];
    var six := five + [SERVICE_SNAPSHOT];
    assert [] + [HARDWARE_DETAILS] == one && one + [HOST_METRICS] == two;
    assert six + [SOFTWARE_INVENTORY] == ENGINE_ORDER;
    NoTypes();
    TotalWeightSnoc(Weight, [], HARDWARE_DETAILS);
    TotalWeightSnoc(Weight, one, HOST_METRICS);
    TotalWeightSnoc(Weight, two, NETWORK_CONNECTIONS);
    TotalWeightSnoc(Weight, three, PROCESS_SNAPSHOT);
    TotalWeightSnoc(Weight, four, SECURITY_SNAPSHOT);
    TotalWeightSnoc(Weight, five, SERVICE_SNAPSHOT);
    TotalWeightSnoc(Weight, six, SOFTWARE_INVENTORY);
    DistinctSnoc([], HARDWARE_DETAILS);
    DistinctSnoc(one, HOST_METRICS);
    DistinctSnoc(two, NETWORK_CONNECTIONS);
    DistinctSnoc(three, PROCESS_SNAPSHOT);
    DistinctSnoc(four, SECURITY_SNAPSHOT);
    DistinctSnoc(five, SERVICE_SNAPSHOT);
    DistinctSnoc(six, SOFTWARE_INVENTORY);
  }

  lemma NoTypes()
    ensures Distinct<Bytes>([]) && TotalWeight(Weight, []) == 0
  {}

  lemma DistinctSnoc<T>(s: seq<T>, x: T)
    requires Distinct(s) && x !in s
    ensures Distinct(s + [x])
  {
    assert (s + [x])[..|s|] == s;
  }

  lemma NamesDiffer()
    ensures |HOST_METRICS| == 12 && |HARDWARE_DETAILS| == |PROCESS_SNAPSHOT| == |SERVICE_SNAPSHOT| == 16
    ensures |SECURITY_SNAPSHOT| == 17 && |SOFTWARE_INVENTORY| == 18 && |NETWORK_CONNECTIONS| == 19
    ensures HARDWARE_DETAILS[0] != PROCESS_SNAPSHOT[0]
    ensures SERVICE_SNAPSHOT[0] != HARDWARE_DETAILS[0] && SERVICE_SNAPSHOT[0] != PROCESS_SNAPSHOT[0]
  {
  }

  /** One round of any of the engine's types takes at most sixteen records. */
  lemma EngineRoundFits(types: set<Bytes>)
    requires types <= ENGINE_TYPES
    ensures TotalWeight(Weight, Sorted(types)) <= 16
  {
    EngineTypesAreSeven();
    SortedIsDistinct(types);
    TotalWeightMonotone(Weight, Sorted(types), ENGINE_ORDER);
  }

  /** A limit of at least 16 is exactly what a full turn for every type needs. */
  lemma TurnsNeedSixteen(limit: nat)
    requires limit > 0
    ensures EveryTypeGetsItsTurn(limit) <==> limit >= 16
  {
    if limit >= 16 {
      forall w: seq<Record>, t: Bytes | EngineWindow(w, limit) && t in Types(w)
        ensures |OfType(Batch(Weight, w, limit), t)| >= Min(Weight(t), |OfType(w, t)|)
      {
        EngineRoundFits(Types(w));
        FairShare(Weight, w, limit, t, 1);
      }
    } else {
      EngineTypesAreSeven();
      CutRoundMissesAType(ENGINE_ORDER, limit);
    }
  }

  /** A window of exactly one round does not fit a smaller batch, so some turn is cut. */
  lemma CutRoundMissesAType(all: seq<Bytes>, limit: nat)
    requires Distinct(all) && (forall t :: t in all ==> t in ENGINE_TYPES)
    requires 0 < limit < TotalWeight(Weight, all) <= 200
    ensures !EveryTypeGetsItsTurn(limit)
  {
    var w := OneRoundWindow(all, limit);
    BatchSize(Weight, w, limit);
    if EveryTypeGetsItsTurn(limit) {
      forall t | t in Types(w) ensures |OfType(Batch(Weight, w, limit), t)| >= |OfType(w, t)| {
        assert |OfType(w, t)| <= Weight(t);
      }
      hide EveryTypeGetsItsTurn, EngineWindow, Batch, OfType, Types, Weight;
      FullTurnsTakeAll(w, limit);
    }
  }

  lemma OneRoundWindow(all: seq<Bytes>, limit: nat) returns (w: seq<Record>)
    requires Distinct(all) && (forall t :: t in all ==> t in ENGINE_TYPES)
    requires 0 < limit < TotalWeight(Weight, all) <= 200
    ensures EngineWindow(w, limit)
    ensures forall t :: t in Types(w) ==> |OfType(w, t)| <= Weight(t)
  {
    hide OneTurnEach, Numbered, Distinct, TotalWeight, Weight, Ordered, EngineWindow;
    var round := OneTurnEach(Weight, all);
    OneTurnCounts(Weight, all, []);
    NumberedKeeps(round, []);
    w := Numbered(round);
    forall t | t in Types(w) ensures t in all && |OfType(w, t)| <= Weight(t) {
      OneTurnCounts(Weight, all, t);
      NumberedKeeps(round, t);
      var r :| r in w && r.dataType == t;
      OfTypeMembers(w, t, r);
    }
    InEngineWindow(w, limit);
  }

  lemma FullTurnsTakeAll(w: seq<Record>, limit: nat)
    requires 0 < limit < |w|
    requires forall t :: t in Types(w) ==> |OfType(Batch(Weight, w, limit), t)| >= |OfType(w, t)|
    ensures |Batch(Weight, w, limit)| == |w|
  {
    forall t ensures OfType(Batch(Weight, w, limit), t) == OfType(w, t) {
      BatchTakesOldest(Weight, w, limit, t);
      if t !in Types(w) { OfAbsentType(w, t); }
    }
    SameByType(Batch(Weight, w, limit), w);
  }
}
