/** End-to-end order: of each type the backend has always applied a prefix of what was saved,
    up to records that were pruned. */
module DeliveryOrder {
  import opened ByteStrings
  import opened RecordCodec
  import opened Store
  import opened FairBatch
  import opened Dispatcher
  import opened Pipeline
  import opened Conservation

  ghost predicate SameType(e: Entry, f: Entry) {
    RecordOf(e) != [] && RecordOf(f) != [] && RecordOf(e)[0].dataType == RecordOf(f)[0].dataType
  }

  /** The assumption: within one type keys increase in the order of the commits. */
  ghost predicate InOrder(s: State, step: Step) {
    step.Put? ==> forall f :: f in s.saved && SameType(f, step.e) ==> f.key < step.e.key
  }

  ghost predicate AllInOrder(c: Config, s: State, steps: seq<Step>)
    requires Possible(c, s, steps)
    decreases |steps|
  {
    steps == [] ||
    (var n := |steps| - 1;
     AllInOrder(c, s, steps[..n]) && InOrder(After(c, s, steps[..n]), steps[n]))
  }

  ghost predicate IsApplied(s: State, k: Key) {
    exists r :: r in s.applied && r < |s.requests| && k in Sent(s, r)
  }

  /** Everything older of its type than a record of the request is in it too, applied, or pruned. */
  ghost predicate Closed(s: State, r: nat)
    requires r < |s.requests|
  {
    forall e, f :: e in s.saved && f in s.saved && SameType(e, f) && e.key < f.key && f.key in Sent(s, r)
      ==> e.key in Sent(s, r) || IsApplied(s, e.key) || e.key in s.pruned
  }

  ghost predicate AllClosed(s: State) {
    forall r :: 0 <= r < |s.requests| ==> Closed(s, r)
  }

  lemma SentWasSaved(s: State, r: nat, k: Key) returns (f: Entry)
    requires Conserved(s) && r < |s.requests| && k in Sent(s, r)
    ensures f in s.saved && f.key == k
  {
    var x :| x in s.requests[r].batch && x.key == k;
    assert SavedBefore(s.saved, s.requests[r].savedBefore, x);
    var i :| 0 <= i < s.requests[r].savedBefore && i < |s.saved| && RecordOf(s.saved[i]) == [x];
    f := s.saved[i];
  }

  lemma AppliedGrows(c: Config, s: State, step: Step, k: Key)
    requires Enabled(c, s, step) && IsApplied(s, k)
    ensures IsApplied(Do(c, s, step), k)
  {
    var s' := Do(c, s, step);
    var r :| r in s.applied && r < |s.requests| && k in Sent(s, r);
    assert r in s'.applied && Sent(s', r) == Sent(s, r);
  }

  /** A batch read from the queue is closed. */
  lemma BatchIsClosed(c: Config, s: State, e: Entry, f: Entry)
    requires Conserved(s) && Enabled(c, s, Peek)
    requires e in s.saved && f in s.saved && SameType(e, f) && e.key < f.key
    requires f.key in RecordKeys(BatchOf(s.queue, c.limit))
    ensures e.key in RecordKeys(BatchOf(s.queue, c.limit)) || IsApplied(s, e.key) || e.key in s.pruned
  {
    if e in s.queue {
      var batch := BatchOf(s.queue, c.limit);
      var x :| x in batch && x.key == f.key;
      var g := BatchFromQueue(s.queue, c.limit, x);
      SameKeySameSave(s, f, g);
      OlderInBatch(s.queue, c.limit, e, f);
    } else if e.key !in s.pruned {
      var r :| r in s.answered && r < |s.requests| && e.key in Sent(s, r);
    }
  }

  lemma OlderInBatch(q: seq<Entry>, limit: int, e: Entry, f: Entry)
    requires Ascending(q) && e in q && SameType(e, f) && e.key < f.key
    requires RecordOf(f)[0] in BatchOf(q, limit)
    ensures e.key in RecordKeys(BatchOf(q, limit))
  {
    var x, y := RecordOf(f)[0], RecordOf(e)[0];
    var t := x.dataType;
    BatchPrefixOfQueue(q, limit, t);
    RecordsOrdered(q);
    OfTypeOrdered(Records(q), t);
    OfTypeMembers(BatchOf(q, limit), t, x);
    RecordsMembers(q, y);
    OfTypeMembers(Records(q), t, y);
    PrefixHoldsOlder(OfType(BatchOf(q, limit), t), OfType(Records(q), t), x, y);
    OfTypeMembers(BatchOf(q, limit), t, y);
  }

  /** Of each type a batch is a prefix of what is queued. */
  lemma BatchPrefixOfQueue(q: seq<Entry>, limit: int, t: Bytes)
    ensures OfType(BatchOf(q, limit), t) <= OfType(Records(q), t)
  {
    PrefixByType(q, ScanSize(limit), t);
    BatchTakesOldest(Weight, Records(WindowOf(q, limit)), limit, t);
  }

  lemma PrefixByType(q: seq<Entry>, n: nat, t: Bytes)
    ensures OfType(Records(Take(q, n)), t) <= OfType(Records(q), t)
  {
    var w, rest := Take(q, n), Drop(q, n);
    assert q == w + rest;
    RecordsConcat(w, rest);
    OfTypeConcat(Records(w), Records(rest), t);
  }

  /** A request stays closed: whatever is saved later is not older. */
  lemma OldRequestStaysClosed(c: Config, s: State, step: Step, r: nat, e: Entry, f: Entry)
    requires Conserved(s) && Enabled(c, s, step) && InOrder(s, step)
    requires r < |s.requests| && Closed(s, r)
    requires e in Do(c, s, step).saved && f in Do(c, s, step).saved
    requires SameType(e, f) && e.key < f.key && f.key in Sent(s, r)
    ensures e.key in Sent(s, r) || IsApplied(Do(c, s, step), e.key) || e.key in s.pruned
  {
    var s' := Do(c, s, step);
    var g := SentWasSaved(s, r, f.key);
    StepConserves(c, s, step);
    assert g in s'.saved;
    SameKeySameSave(s', f, g);
    assert step.Put? ==> e != step.e;
    assert e in s.saved;
    if IsApplied(s, e.key) { AppliedGrows(c, s, step, e.key); }
  }

  lemma StepKeepsClosed(c: Config, s: State, step: Step, r: nat)
    requires Conserved(s) && AllClosed(s) && Enabled(c, s, step) && InOrder(s, step)
    requires r < |Do(c, s, step).requests|
    ensures Closed(Do(c, s, step), r)
  {
    var s' := Do(c, s, step);
    if r < |s.requests| {
      assert Closed(s, r) && Sent(s', r) == Sent(s, r);
      forall e, f | e in s'.saved && f in s'.saved && SameType(e, f) && e.key < f.key && f.key in Sent(s', r)
        ensures e.key in Sent(s', r) || IsApplied(s', e.key) || e.key in s'.pruned
      {
        OldRequestStaysClosed(c, s, step, r, e, f);
      }
    } else {
      forall e, f | e in s'.saved && f in s'.saved && SameType(e, f) && e.key < f.key && f.key in Sent(s', r)
        ensures e.key in Sent(s', r) || IsApplied(s', e.key) || e.key in s'.pruned
      {
        BatchIsClosed(c, s, e, f);
        if IsApplied(s, e.key) { AppliedGrows(c, s, step, e.key); }
      }
    }
  }

  lemma {:induction false} RunsKeepClosed(c: Config, s: State, steps: seq<Step>)
    requires Conserved(s) && AllClosed(s) && Possible(c, s, steps) && AllInOrder(c, s, steps)
    ensures Conserved(After(c, s, steps)) && AllClosed(After(c, s, steps))
  {
    RunsConserve(c, s, steps);
    if steps == [] {
    } else {
      var n := |steps| - 1;
      RunsKeepClosed(c, s, steps[..n]);
      var before := After(c, s, steps[..n]);
      forall r | 0 <= r < |Do(c, before, steps[n]).requests| ensures Closed(Do(c, before, steps[n]), r) {
        StepKeepsClosed(c, before, steps[n], r);
      }
    }
  }

  // ---------- Main results ----------

  lemma OlderApplied(s: State, e: Entry, f: Entry)
    requires AllClosed(s) && Conserved(s)
    requires e in s.saved && f in s.saved && SameType(e, f) && e.key < f.key && IsApplied(s, f.key)
    ensures IsApplied(s, e.key) || e.key in s.pruned
  {
    var r :| r in s.applied && r < |s.requests| && f.key in Sent(s, r);
    assert Closed(s, r);
  }

  /** Whatever replies are lost and whatever requests arrive late or twice: when a record was
      applied, every older record of its type was applied before or pruned. */
  lemma AppliedInOrder(c: Config, steps: seq<Step>, e: Entry, f: Entry)
    requires Possible(c, INITIAL, steps) && AllInOrder(c, INITIAL, steps)
    requires e in After(c, INITIAL, steps).saved && f in After(c, INITIAL, steps).saved
    requires SameType(e, f) && e.key < f.key && IsApplied(After(c, INITIAL, steps), f.key)
    ensures IsApplied(After(c, INITIAL, steps), e.key) || e.key in After(c, INITIAL, steps).pruned
  {
    RunsKeepClosed(c, INITIAL, steps);
    OlderApplied(After(c, INITIAL, steps), e, f);
  }

  /** What was saved of a type, in commit order. */
  function SavedOfType(s: State, t: Bytes): seq<Record> { OfType(Records(s.saved), t) }

  lemma SavedSnoc(saved: seq<Entry>, e: Entry, t: Bytes)
    ensures OfType(Records(saved + [e]), t) == OfType(Records(saved), t) + OfType(RecordOf(e), t)
  {
    RecordsConcat(saved, [e]);
    var one := [e];
    assert one[1..] == [];
    assert Records(one) == RecordOf(e);
    OfTypeConcat(Records(saved), RecordOf(e), t);
  }

  lemma OfTypeSingle(e: Entry, t: Bytes)
    ensures OfType(RecordOf(e), t) == if RecordOf(e) != [] && RecordOf(e)[0].dataType == t then RecordOf(e) else []
  {
    if RecordOf(e) != [] { assert RecordOf(e)[1..] == []; }
  }

  lemma {:induction false} SavedStaysOrdered(c: Config, steps: seq<Step>, t: Bytes)
    requires Possible(c, INITIAL, steps) && AllInOrder(c, INITIAL, steps)
    ensures Ordered(SavedOfType(After(c, INITIAL, steps), t))
  {
    if steps == [] {
    } else {
      var n := |steps| - 1;
      SavedStaysOrdered(c, steps[..n], t);
      StepKeepsOrder(c, After(c, INITIAL, steps[..n]), steps[n], t);
    }
  }

  lemma StepKeepsOrder(c: Config, s: State, step: Step, t: Bytes)
    requires Ordered(SavedOfType(s, t)) && Enabled(c, s, step) && InOrder(s, step)
    ensures Ordered(SavedOfType(Do(c, s, step), t))
  {
    if step.Put? { SaveKeepsOrder(s, step.e, t); }
  }

  lemma SaveKeepsOrder(s: State, e: Entry, t: Bytes)
    requires Ordered(SavedOfType(s, t)) && InOrder(s, Put(e))
    ensures Ordered(OfType(Records(s.saved + [e]), t))
  {
    SavedSnoc(s.saved, e, t);
    OfTypeSingle(e, t);
    if OfType(RecordOf(e), t) != [] {
      forall x | x in SavedOfType(s, t) ensures x.key < e.key {
        var f := SavedRecord(s, t, x);
        assert SameType(f, e);
      }
      OrderedSnoc(SavedOfType(s, t), RecordOf(e)[0]);
    }
  }

  lemma SavedRecord(s: State, t: Bytes, x: Record) returns (f: Entry)
    requires x in SavedOfType(s, t)
    ensures f in s.saved && RecordOf(f) == [x] && x.dataType == t
  {
    OfTypeMembers(Records(s.saved), t, x);
    RecordsMembers(s.saved, x);
    f :| f in s.saved && RecordOf(f) == [x];
  }

  /** Without pruning, the applied records of each type are exactly a prefix of the saved ones. */
  lemma AppliedPrefix(c: Config, steps: seq<Step>, t: Bytes) returns (n: nat)
    requires Possible(c, INITIAL, steps) && AllInOrder(c, INITIAL, steps)
    requires After(c, INITIAL, steps).pruned == {}
    ensures var s := After(c, INITIAL, steps);
      n <= |SavedOfType(s, t)| &&
      forall i :: 0 <= i < |SavedOfType(s, t)| ==> (IsApplied(s, SavedOfType(s, t)[i].key) <==> i < n)
  {
    RunsKeepClosed(c, INITIAL, steps);
    SavedStaysOrdered(c, steps, t);
    n := ClosedIsPrefix(After(c, INITIAL, steps), t);
  }

  /** Requests that hold everything older of their types leave a prefix applied. */
  lemma ClosedIsPrefix(s: State, t: Bytes) returns (n: nat)
    requires AllClosed(s) && Conserved(s) && s.pruned == {} && Ordered(SavedOfType(s, t))
    ensures n <= |SavedOfType(s, t)| &&
            forall i :: 0 <= i < |SavedOfType(s, t)| ==> (IsApplied(s, SavedOfType(s, t)[i].key) <==> i < n)
  {
    hide AllClosed, Conserved, SavedOfType, IsApplied, Ordered;
    var rs := SavedOfType(s, t);
    n := 0;
    while n < |rs| && IsApplied(s, rs[n].key)
      invariant n <= |rs| && forall i :: 0 <= i < n ==> IsApplied(s, rs[i].key)
    {
      n := n + 1;
    }
    forall i | n < i < |rs| ensures !IsApplied(s, rs[i].key) {
      GapStays(s, t, n, i);
    }
  }

  lemma GapStays(s: State, t: Bytes, i: nat, j: nat)
    requires AllClosed(s) && Conserved(s) && s.pruned == {} && Ordered(SavedOfType(s, t))
    requires i < j < |SavedOfType(s, t)| && !IsApplied(s, SavedOfType(s, t)[i].key)
    ensures !IsApplied(s, SavedOfType(s, t)[j].key)
  {
    hide SavedOfType;
    var rs := SavedOfType(s, t);
    var e := SavedRecord(s, t, rs[i]);
    var f := SavedRecord(s, t, rs[j]);
    if IsApplied(s, f.key) { OlderApplied(s, e, f); }
  }

  // ---------- The order of the keys is needed ----------

  /** Two saves of one type whose keys come in the wrong order, one dispatch of a single record. */
  function OutOfOrder(t: Bytes, payload: Bytes): seq<Step>
    requires |t| <= MAX_READABLE_NAME
  {
    [Put(Entry(2, EncodeValue(t, payload))), Put(Entry(1, EncodeValue(t, payload))), Peek, Apply(0)]
  }

  /** Without increasing keys AppliedPrefix fails: the record saved second is applied, the one saved
      first is not. */
  lemma OrderIsNeeded(t: Bytes, payload: Bytes, validJson: Bytes -> bool)
    requires |t| <= MAX_READABLE_NAME && validJson(payload)
    ensures Possible(Config(1, validJson), INITIAL, OutOfOrder(t, payload))
    ensures var s := After(Config(1, validJson), INITIAL, OutOfOrder(t, payload));
      && s.pruned == {} && SavedOfType(s, t) == [Record(2, t, payload), Record(1, t, payload)]
      && !IsApplied(s, 2) && IsApplied(s, 1)
  {
    var c, a, b := Config(1, validJson), Entry(2, EncodeValue(t, payload)), Entry(1, EncodeValue(t, payload));
    DecodeEncode(t, payload);
    TwoOfType(a, b, t, payload);
    OneOfTwo(a, b, t, payload);
    hide DecodeValue, EncodeValue, OfType, Records, BatchOf, WindowOf, Possible, After, Readable;
    var steps := TwoPuts(c, a, b);
    Extend(c, INITIAL, steps, Peek);
    Extend(c, INITIAL, steps + [Peek], Apply(0));
    assert steps + [Peek] + [Apply(0)] == OutOfOrder(t, payload);
    OnlyApplied(After(c, INITIAL, OutOfOrder(t, payload)), Record(1, t, payload));
  }

  lemma OnlyApplied(s: State, r: Record)
    requires s.applied == [0] && |s.requests| == 1 && s.requests[0].batch == [r]
    ensures forall k :: IsApplied(s, k) <==> k == r.key
  {
    assert r in s.requests[0].batch;
    assert r.key in Sent(s, 0);
  }

  lemma TwoPuts(c: Config, a: Entry, b: Entry) returns (steps: seq<Step>)
    requires b.key < a.key
    ensures steps == [Put(a), Put(b)] && Possible(c, INITIAL, steps)
    ensures After(c, INITIAL, steps) == INITIAL.(queue := [b, a], saved := [a, b])
  {
    assert Insert([], a) == [a] && Insert([a], b) == [b, a] by { assert [a][1..] == []; }
    Extend(c, INITIAL, [], Put(a));
    steps := [] + [Put(a)];
    hide Possible, After, Insert;
    Extend(c, INITIAL, steps, Put(b));
    steps := steps + [Put(b)];
  }

  lemma TwoOfType(a: Entry, b: Entry, t: Bytes, payload: Bytes)
    requires DecodeValue(a.value) == DecodeValue(b.value) == Value(t, payload)
    ensures Records([a, b]) == [Record(a.key, t, payload), Record(b.key, t, payload)]
    ensures OfType(Records([a, b]), t) == Records([a, b])
  {
    hide DecodeValue, OfType;
    assert [a, b][1..] == [b] && [b][1..] == [];
    assert Records([b]) == RecordOf(b) + Records([]);
    assert Records([a, b]) == RecordOf(a) + Records([b]);
    OfTypeUniform(Records([a, b]), t, t);
  }

  /** Of two queued records of one type a batch of one takes the older. */
  lemma OneOfTwo(a: Entry, b: Entry, t: Bytes, payload: Bytes)
    requires DecodeValue(a.value) == DecodeValue(b.value) == Value(t, payload)
    ensures Readable(WindowOf([b, a], 1)) && BatchOf([b, a], 1) == [Record(b.key, t, payload)]
  {
    TwoOfType(b, a, t, payload);
    hide DecodeValue, OfType, Records, Batch;
    assert WindowOf([b, a], 1) == [b, a];
    var w := Records([b, a]);
    var batch := Batch(Weight, w, 1);
    BatchSize(Weight, w, 1);
    forall r | r in batch ensures r.dataType == t { BatchMembers(Weight, w, 1, r); }
    OfTypeUniform(batch, t, t);
    BatchTakesOldest(Weight, w, 1, t);
    assert batch == w[..1];
  }
}
