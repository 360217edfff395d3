/** How far into the queue the dispatcher looks, in numbers. */
module ScanWindow {
  import opened ByteStrings
  import opened RecordCodec
  import opened Store
  import opened FairBatch
  import opened Airtime
  import opened RoundRobin
  import opened Dispatcher

  /** Queues that agree on those entries are answered alike. */
  lemma OnlyTheWindowCounts(a: seq<Entry>, b: seq<Entry>, limit: int, n: nat)
    requires Scans(limit, n) && Take(a, n) == Take(b, n)
    ensures BatchOf(a, limit) == BatchOf(b, limit)
    ensures Readable(WindowOf(a, limit)) <==> Readable(WindowOf(b, limit))
  {
    ScansExactly(limit, n);
  }

  /** The last of them does count: a record there is sent if all the others' types come after its own. */
  lemma TheWholeWindowCounts(q: seq<Entry>, limit: int, n: nat, x: Record)
    requires Scans(limit, n) && |q| >= n && RecordOf(q[n - 1]) == [x]
    requires forall r :: r in Records(q[..n - 1]) ==> Less(x.dataType, r.dataType)
    ensures x in BatchOf(q, limit)
  {
    ScansExactly(limit, n);
    LastRecord(q, n, x);
    hide Batch, Records, RecordOf, Weight, Less;
    FirstTypeIsSent(Weight, Records(q[..n - 1]), x, limit);
    assert WindowOf(q, limit) == q[..n];
  }

  lemma LastRecord(q: seq<Entry>, n: nat, x: Record)
    requires 0 < n <= |q| && RecordOf(q[n - 1]) == [x]
    ensures Records(q[..n]) == Records(q[..n - 1]) + [x]
  {
    var last := [q[n - 1]];
    assert q[..n] == q[..n - 1] + last && last[1..] == [];
    RecordsConcat(q[..n - 1], last);
    assert Records(last) == [x] + Records([]);
  }

  /** So does an entry there that makes the reader panic. */
  lemma UnreadableInWindow(q: seq<Entry>, limit: int, n: nat)
    requires Scans(limit, n) && |q| >= n && DecodeValue(q[n - 1].value).OutOfRange?
    ensures !Readable(WindowOf(q, limit))
  {
    ScansExactly(limit, n);
    assert WindowOf(q, limit)[n - 1] in WindowOf(q, limit);
  }

  lemma FirstTypeIsSent(wt: Weights, others: seq<Record>, x: Record, limit: nat)
    requires limit > 0 && forall r :: r in others ==> Less(x.dataType, r.dataType)
    ensures x in Batch(wt, others + [x], limit)
  {
    hide Batch, Less, Sorted, TotalWeight;
    var w, t := others + [x], x.dataType;
    OnlyOne(others, x);
    BatchOfAll(wt, w, limit);
    if limit < |w| {
      FirstInOrder(others, x);
      assert Sorted(Types(w))[..0] == [];
      NothingBefore(wt);
      FirstTurn(wt, w, limit, 0);
      BatchTakesOldest(wt, w, limit, t);
      assert OfType(Batch(wt, w, limit), t)[0] == x;
      OfTypeMembers(Batch(wt, w, limit), t, x);
    }
  }

  lemma NothingBefore(wt: Weights)
    ensures TotalWeight(wt, []) == 0
  {}

  lemma OnlyOne(others: seq<Record>, x: Record)
    requires forall r :: r in others ==> Less(x.dataType, r.dataType)
    ensures OfType(others + [x], x.dataType) == [x]
  {
    OfTypeSnoc(others, x, x.dataType);
    forall r ensures r !in OfType(others, x.dataType) {
      OfTypeMembers(others, x.dataType, r);
      LessIsTotal(x.dataType, x.dataType);
    }
    if OfType(others, x.dataType) != [] { HeadIsMember(OfType(others, x.dataType)); }
  }

  lemma FirstInOrder(others: seq<Record>, x: Record)
    requires forall r :: r in others ==> Less(x.dataType, r.dataType)
    ensures Sorted(Types(others + [x])) != [] && Sorted(Types(others + [x]))[0] == x.dataType
  {
    var types, t := Types(others + [x]), x.dataType;
    assert x in others + [x];
    SortedMembers(types);
    SortedAscends(types);
    hide Less, Sorted;
    assert t in types && t in Sorted(types);
    var i :| 0 <= i < |Sorted(types)| && Sorted(types)[i] == t;
    if i > 0 {
      var u := Sorted(types)[0];
      assert u in Sorted(types) && Less(u, t);
      var r :| r in others + [x] && r.dataType == u;
      LessIsTotal(t, u);
    }
  }
}
