/** How fast an undisturbed buffer empties. */
module Drain {
  import opened RecordCodec
  import opened Store
  import opened FairBatch
  import opened Dispatcher
  import opened Pipeline

  /** Every entry decodes, to valid JSON. */
  ghost predicate Sendable(c: Config, q: seq<Entry>) {
    forall e :: e in q ==> DecodeValue(e.value).Value? && c.validJson(DecodeValue(e.value).payload)
  }

  /** How many records one dispatch takes from a queue that has enough of them. */
  function Throughput(limit: int): int { Min(limit, ScanSize(limit)) }

  lemma {:induction false} SendableRecords(c: Config, q: seq<Entry>)
    requires Sendable(c, q)
    ensures |Records(q)| == |q|
    ensures forall i :: 0 <= i < |q| ==> Records(q)[i].key == q[i].key && RecordOf(q[i]) == [Records(q)[i]]
  {
    if q == [] {
    } else {
      assert q[0] in q;
      forall e | e in q[1..] ensures e in q {}
      SendableRecords(c, q[1..]);
    }
  }

  lemma KeysCons(r: Record, rs: seq<Record>)
    ensures RecordKeys([r] + rs) == {r.key} + RecordKeys(rs)
  {}

  lemma {:induction false} DistinctKeyCount(rs: seq<Record>)
    requires forall i, j :: 0 <= i < j < |rs| ==> rs[i].key != rs[j].key
    ensures |RecordKeys(rs)| == |rs|
  {
    if rs == [] {
    } else {
      var head, tail := rs[0], rs[1..];
      DistinctKeyCount(tail);
      forall r | r in tail ensures r.key != head.key {
        var j :| 0 <= j < |tail| && tail[j] == r;
        assert rs[j + 1] == r;
      }
      KeysCons(head, tail);
      assert rs == [head] + tail;
    }
  }

  /** A rearranged selection of records with different keys has different keys. */
  lemma {:induction false} SelectionKeyCount(b: seq<Record>, rs: seq<Record>)
    requires Ordered(rs) && multiset(b) <= multiset(rs)
    ensures |RecordKeys(b)| == |b|
  {
    forall i, j | 0 <= i < j < |b| ensures b[i].key != b[j].key {
      assert b[i] in multiset(b) && b[j] in multiset(b);
      assert b[i] in rs && b[j] in rs;
      if b[i].key == b[j].key {
        SameKeySameRecord(rs, b[i], b[j]);
        TwiceInMultiset(b, i, j);
        OrderedOnce(rs, b[i]);
      }
    }
    DistinctKeyCount(b);
  }

  lemma TwiceInMultiset(b: seq<Record>, i: nat, j: nat)
    requires i < j < |b| && b[i] == b[j]
    ensures multiset(b)[b[i]] >= 2
  {
    assert b == b[..j] + b[j..];
    assert multiset(b) == multiset(b[..j]) + multiset(b[j..]);
    assert b[i] in b[..j] by { assert b[..j][i] == b[i]; }
    assert b[j] in b[j..] by { assert b[j..][0] == b[j]; }
    assert multiset(b[..j])[b[i]] >= 1 && multiset(b[j..])[b[i]] >= 1;
  }

  lemma {:induction false} OrderedOnce(rs: seq<Record>, r: Record)
    requires Ordered(rs)
    ensures multiset(rs)[r] <= 1
  {
    if rs == [] {
    } else {
      OrderedOnce(rs[1..], r);
      assert rs == [rs[0]] + rs[1..];
      assert multiset(rs) == multiset{rs[0]} + multiset(rs[1..]);
      forall x | x in rs[1..] ensures x != rs[0] {
        var j :| 0 <= j < |rs| - 1 && rs[1..][j] == x;
        assert rs[0].key < rs[j + 1].key;
      }
    }
  }

  /** A batch holds as many different keys of the queue's window as it can. */
  lemma WindowAscends(q: seq<Entry>, limit: int)
    requires Ascending(q)
    ensures Ascending(WindowOf(q, limit)) && |WindowOf(q, limit)| == Min(ScanSize(limit), |q|)
  {
    hide ScanSize;
  }

  lemma BatchKeys(c: Config, q: seq<Entry>)
    requires c.limit > 0 && Ascending(q) && Sendable(c, WindowOf(q, c.limit))
    ensures |BatchOf(q, c.limit)| == Min(Throughput(c.limit), |q|)
    ensures |RecordKeys(BatchOf(q, c.limit))| == |BatchOf(q, c.limit)|
    ensures RecordKeys(BatchOf(q, c.limit)) <= Keys(WindowOf(q, c.limit))
  {
    hide Batch, Ordered, Ascending, Records, ScanSize;
    var w := WindowOf(q, c.limit);
    WindowAscends(q, c.limit);
    SendableRecords(c, w);
    BatchSize(Weight, Records(w), c.limit);
    RecordsOrdered(w);
    SelectionKeyCount(BatchOf(q, c.limit), Records(w));
    forall k | k in RecordKeys(BatchOf(q, c.limit)) ensures k in Keys(w) { BatchKeyInWindow(c, q, k); }
  }

  lemma BatchKeyInWindow(c: Config, q: seq<Entry>, k: Key)
    requires k in RecordKeys(BatchOf(q, c.limit))
    ensures k in Keys(WindowOf(q, c.limit))
  {
    hide Batch;
    var w := WindowOf(q, c.limit);
    var x :| x in BatchOf(q, c.limit) && x.key == k;
    BatchMembers(Weight, Records(w), c.limit, x);
    RecordsMembers(w, x);
  }

  lemma {:induction false} WithoutCount(q: seq<Entry>, keys: set<Key>)
    requires Ascending(q) && keys <= Keys(q)
    ensures |Without(q, keys)| == |q| - |keys|
  {
    if q == [] {
      assert keys == {};
    } else {
      AscendingTail(q);
      assert q == [q[0]] + q[1..];
      var k := q[0].key;
      assert k !in Keys(q[1..]);
      assert Keys(q) == {k} + Keys(q[1..]);
      WithoutCount(q[1..], keys - {k});
      WithoutForeign(q[1..], keys, k);
    }
  }

  lemma {:induction false} WithoutForeign(q: seq<Entry>, keys: set<Key>, k: Key)
    requires k !in Keys(q)
    ensures Without(q, keys) == Without(q, keys - {k})
  {
    if q == [] {
    } else {
      assert q[0] in q;
      forall e | e in q[1..] ensures e in q {}
      WithoutForeign(q[1..], keys, k);
    }
  }

  // ---------- Runs ----------

  /** Nothing is saved and nothing is pruned. */
  ghost predicate Undisturbed(steps: seq<Step>) {
    forall i :: 0 <= i < |steps| ==> !steps[i].Put? && !steps[i].PruneChunk?
  }

  /** After `k` successful dispatches of `m` records each, `n` records have shrunk to this. */
  function Remaining(n: int, m: int, k: int): int { n - Min(n, k * m) }

  ghost predicate Draining(c: Config, s: State, n: nat, base: nat) {
    && Ascending(s.queue) && Sendable(c, s.queue) && base <= s.successes
    && |s.queue| == Remaining(n, Throughput(c.limit), s.successes - base)
    && (!s.phase.Idle? ==>
          && s.phase.req < |s.requests| && s.requests[s.phase.req].batch == BatchOf(s.queue, c.limit))
  }

  lemma RemainingStep(n: nat, m: int, k: nat)
    ensures Remaining(n, m, k + 1) == Remaining(n, m, k) - Min(m, Remaining(n, m, k))
  {
    assert (k + 1) * m == k * m + m;
  }

  lemma DeleteDrains(c: Config, s: State, n: nat, base: nat)
    requires c.limit > 0 && Draining(c, s, n, base) && Enabled(c, s, Delete)
    ensures Draining(c, Do(c, s, Delete), n, base)
  {
    hide Throughput, Remaining, Sendable, Ascending, BatchOf, Without;
    DispatchShrinks(c, s.queue);
    RemainingStep(n, Throughput(c.limit), s.successes - base);
  }

  lemma StepDrains(c: Config, s: State, step: Step, n: nat, base: nat)
    requires c.limit > 0 && Draining(c, s, n, base) && Enabled(c, s, step)
    requires !step.Put? && !step.PruneChunk?
    ensures Draining(c, Do(c, s, step), n, base)
  {
    if step.Delete? {
      DeleteDrains(c, s, n, base);
    } else {
      hide Throughput, Remaining, Sendable, Ascending, BatchOf, Without, Insert, WindowOf, Readable, AllValid;
    }
  }

  lemma DispatchShrinks(c: Config, q: seq<Entry>)
    requires c.limit > 0 && Ascending(q) && Sendable(c, q)
    ensures var rest := Without(q, RecordKeys(BatchOf(q, c.limit)));
      |rest| == |q| - Min(Throughput(c.limit), |q|) && Ascending(rest) && Sendable(c, rest)
    ensures c.limit < 0x0666_6666_6666_6667 ==> Throughput(c.limit) == if c.limit < 2000 then c.limit else 2000
  {
    if c.limit < 0x0666_6666_6666_6667 { TwoThousandAtMost(c.limit); }
    var keys := RecordKeys(BatchOf(q, c.limit));
    SubWindow(c, q);
    BatchKeys(c, q);
    forall k | k in Keys(WindowOf(q, c.limit)) ensures k in Keys(q) {
      var e :| e in WindowOf(q, c.limit) && e.key == k;
      assert e in q;
    }
    WithoutCount(q, keys);
    WithoutAscending(q, keys);
    forall e | e in Without(q, keys) ensures e in q { WithoutMembers(q, keys, e); }
  }

  lemma TwoThousandAtMost(limit: nat)
    requires 0 < limit < 0x0666_6666_6666_6667
    ensures Throughput(limit) == if limit < 2000 then limit else 2000
  {
    ScanLength(limit, limit * 20);
  }

  lemma SubWindow(c: Config, q: seq<Entry>)
    requires Sendable(c, q)
    ensures Sendable(c, WindowOf(q, c.limit))
  {
    forall e | e in WindowOf(q, c.limit) ensures e in q {}
  }

  lemma {:induction false} RunsDrain(c: Config, s: State, steps: seq<Step>)
    requires c.limit > 0 && s.phase.Idle? && Ascending(s.queue) && Sendable(c, s.queue)
    requires Possible(c, s, steps) && Undisturbed(steps)
    ensures Draining(c, After(c, s, steps), |s.queue|, s.successes)
  {
    if steps == [] {
    } else {
      var n := |steps| - 1;
      RunsDrain(c, s, steps[..n]);
      StepDrains(c, After(c, s, steps[..n]), steps[n], |s.queue|, s.successes);
    }
  }

  /** Failed posts or not: the buffer is empty exactly from the successful dispatch on that brings
      the total capacity to the number of records. */
  lemma EmptyAfterExactlyEnough(c: Config, s: State, steps: seq<Step>)
    requires c.limit > 0 && s.phase.Idle? && Ascending(s.queue) && Sendable(c, s.queue)
    requires Possible(c, s, steps) && Undisturbed(steps)
    ensures After(c, s, steps).successes >= s.successes
    ensures After(c, s, steps).queue == [] <==>
            (After(c, s, steps).successes - s.successes) * Throughput(c.limit) >= |s.queue|
    ensures c.limit < 0x0666_6666_6666_6667 ==> Throughput(c.limit) == if c.limit < 2000 then c.limit else 2000
  {
    hide Possible, After, Throughput, ScanSize, Sendable;
    if c.limit < 0x0666_6666_6666_6667 { TwoThousandAtMost(c.limit); }
    RunsDrain(c, s, steps);
  }
}
