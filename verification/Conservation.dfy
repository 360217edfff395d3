/** No record is lost: conservation and at-least-once delivery over every interleaving. */
module Conservation {
  import opened Store
  import opened Buffer
  import opened FairBatch
  import opened Dispatcher
  import opened Pipeline

  /** Every saved entry is in exactly one place: still queued as it was saved, deleted, or pruned. */
  ghost predicate Placed(s: State) {
    && (forall e :: e in s.queue ==> e in s.saved)
    && (forall e :: e in s.saved ==>
          && (e in s.queue || e.key in s.deleted || e.key in s.pruned)
          && !(e in s.queue && e.key in s.deleted)
          && !(e in s.queue && e.key in s.pruned)
          && !(e.key in s.deleted && e.key in s.pruned))
    && (forall k :: k in s.deleted || k in s.pruned ==> k in Keys(s.saved))
  }

  /** No two saves share a timestamp. */
  ghost predicate FreshKeys(s: State) {
    forall i, j :: 0 <= i < j < |s.saved| ==> s.saved[i].key != s.saved[j].key
  }

  /** Whatever was deleted was in a request that the backend applied and answered 200. */
  ghost predicate DeletedWereAnswered(s: State) {
    && (forall r :: r in s.answered ==> r in s.applied)
    && (forall r :: r in s.applied ==> r < |s.requests|)
    && (s.phase.Sending? ==> s.phase.req < |s.requests|)
    && (s.phase.Acked? ==> s.phase.req in s.answered)
    && (forall k :: k in s.deleted ==> exists r :: r in s.answered && r < |s.requests| && k in Sent(s, r))
  }

  /** One of the first `n` saves is this record. */
  ghost predicate SavedBefore(saved: seq<Entry>, n: nat, x: Record) {
    exists i :: 0 <= i < n && i < |saved| && RecordOf(saved[i]) == [x]
  }

  /** A request holds only records saved before it was read, each as it was saved. */
  ghost predicate RequestsAreOld(s: State) {
    forall r, x :: 0 <= r < |s.requests| && x in s.requests[r].batch ==>
      SavedBefore(s.saved, s.requests[r].savedBefore, x)
  }

  ghost predicate Conserved(s: State) {
    Ascending(s.queue) && Placed(s) && FreshKeys(s) && DeletedWereAnswered(s) && RequestsAreOld(s)
  }

  lemma SameKeySameSave(s: State, e: Entry, f: Entry)
    requires FreshKeys(s) && e in s.saved && f in s.saved && e.key == f.key
    ensures e == f
  {
    var i :| 0 <= i < |s.saved| && s.saved[i] == e;
    var j :| 0 <= j < |s.saved| && s.saved[j] == f;
    assert !(i < j) && !(j < i);
  }

  lemma PutConserves(c: Config, s: State, e: Entry)
    requires Conserved(s) && Enabled(c, s, Put(e))
    ensures Conserved(Do(c, s, Put(e)))
  {
    var s' := Do(c, s, Put(e));
    InsertAscending(s.queue, e);
    forall f ensures f in s'.queue <==> f == e || f in s.queue {
      InsertMembers(s.queue, e, f);
      if f in s.queue { assert f in s.saved; }
    }
    forall k | k in s.deleted || k in s.pruned ensures k in Keys(s'.saved) && k != e.key {
      var f :| f in s.saved && f.key == k;
      assert f in s'.saved;
    }
    forall f | f in s'.saved ensures f == e || f in s.saved {}
    forall r, x | 0 <= r < |s'.requests| && x in s'.requests[r].batch
      ensures SavedBefore(s'.saved, s'.requests[r].savedBefore, x)
    {
      var i :| 0 <= i < s.requests[r].savedBefore && i < |s.saved| && RecordOf(s.saved[i]) == [x];
      assert s'.saved[i] == s.saved[i];
    }
    assert forall r :: 0 <= r < |s.requests| ==> Sent(s', r) == Sent(s, r);
  }

  lemma PruneConserves(c: Config, s: State)
    requires Conserved(s)
    ensures Conserved(Do(c, s, PruneChunk))
  {
    var s' := Do(c, s, PruneChunk);
    var n := Min(PRUNE_CHUNK_SIZE, |s.queue|);
    var gone := Keys(s.queue[..n]);
    WithoutPrefix(s.queue, n);
    WithoutAscending(s.queue, gone);
    forall e ensures e in s'.queue <==> e in s.queue && e.key !in gone {
      WithoutMembers(s.queue, gone, e);
    }
    forall e | e in s.saved && e.key in gone ensures e in s.queue {
      var f :| f in s.queue[..n] && f.key == e.key;
      SameKeySameSave(s, e, f);
    }
    forall k | k in gone ensures k in Keys(s.saved) {
      var f :| f in s.queue[..n] && f.key == k;
      assert f in s.saved;
    }
    assert forall r :: 0 <= r < |s.requests| ==> Sent(s', r) == Sent(s, r);
  }

  lemma BatchFromQueue(q: seq<Entry>, limit: int, x: Record) returns (e: Entry)
    requires x in BatchOf(q, limit)
    ensures e in q && RecordOf(e) == [x]
  {
    var w := WindowOf(q, limit);
    BatchMembers(Weight, Records(w), limit, x);
    RecordsMembers(w, x);
    e :| e in w && RecordOf(e) == [x];
  }

  lemma PeekConserves(c: Config, s: State)
    requires Conserved(s) && Enabled(c, s, Peek)
    ensures Conserved(Do(c, s, Peek))
  {
    var s' := Do(c, s, Peek);
    forall r, x | 0 <= r < |s'.requests| && x in s'.requests[r].batch
      ensures SavedBefore(s'.saved, s'.requests[r].savedBefore, x)
    {
      if r == |s.requests| {
        var e := BatchFromQueue(s.queue, c.limit, x);
        assert e in s.saved;
        var i :| 0 <= i < |s.saved| && s.saved[i] == e;
      } else {
        assert s'.requests[r] == s.requests[r];
      }
    }
    assert forall r :: 0 <= r < |s.requests| ==> Sent(s', r) == Sent(s, r);
  }

  lemma DeleteConserves(c: Config, s: State)
    requires Conserved(s) && Enabled(c, s, Delete)
    ensures Conserved(Do(c, s, Delete))
  {
    var s' := Do(c, s, Delete);
    var gone := Sent(s, s.phase.req);
    WithoutAscending(s.queue, gone);
    forall e ensures e in s'.queue <==> e in s.queue && e.key !in gone {
      WithoutMembers(s.queue, gone, e);
    }
    forall e | e in s.saved && e.key in gone * Keys(s.queue) ensures e in s.queue {
      var f :| f in s.queue && f.key == e.key;
      SameKeySameSave(s, e, f);
    }
    forall k | k in gone * Keys(s.queue) ensures k in Keys(s.saved) {
      var f :| f in s.queue && f.key == k;
      assert f in s.saved;
    }
    assert forall r :: 0 <= r < |s.requests| ==> Sent(s', r) == Sent(s, r);
  }

  lemma StepConserves(c: Config, s: State, step: Step)
    requires Conserved(s) && Enabled(c, s, step)
    ensures Conserved(Do(c, s, step))
  {
    match step
    case Put(e) => PutConserves(c, s, e);
    case PruneChunk => PruneConserves(c, s);
    case Peek => PeekConserves(c, s);
    case Delete => DeleteConserves(c, s);
    case _ => HistoryConserves(c, s, step);
  }

  lemma HistoryConserves(c: Config, s: State, step: Step)
    requires Conserved(s) && Enabled(c, s, step)
    requires step.Apply? || step.ReplyOk? || step.ReplyFail? || step.DeleteFails?
    ensures Conserved(Do(c, s, step))
  {
    var s' := Do(c, s, step);
    assert forall r :: 0 <= r < |s.requests| ==> Sent(s', r) == Sent(s, r);
    assert forall r :: r in s.applied ==> r in s'.applied;
    forall k | k in s'.deleted ensures exists r :: r in s'.answered && r < |s'.requests| && k in Sent(s', r) {
      var r :| r in s.answered && r < |s.requests| && k in Sent(s, r);
      assert r in s'.answered && k in Sent(s', r);
    }
  }

  // ---------- Main results ----------

  /** Conservation holds after every run, whatever is interleaved. */
  lemma {:induction false} RunsConserve(c: Config, s: State, steps: seq<Step>)
    requires Conserved(s) && Possible(c, s, steps)
    ensures Conserved(After(c, s, steps))
  {
    if steps == [] {
    } else {
      var n := |steps| - 1;
      RunsConserve(c, s, steps[..n]);
      StepConserves(c, After(c, s, steps[..n]), steps[n]);
    }
  }

  /** At least once: a saved record that is neither queued nor pruned was in a request which the
      backend applied and the dispatcher saw answered 200. */
  lemma AtLeastOnce(c: Config, steps: seq<Step>, e: Entry) returns (r: nat)
    requires Possible(c, INITIAL, steps)
    requires e in After(c, INITIAL, steps).saved
    requires e !in After(c, INITIAL, steps).queue && e.key !in After(c, INITIAL, steps).pruned
    ensures var s := After(c, INITIAL, steps);
      r in s.answered && r in s.applied && r < |s.requests| && e.key in Sent(s, r)
  {
    RunsConserve(c, INITIAL, steps);
    var s := After(c, INITIAL, steps);
    assert e.key in s.deleted;
    r :| r in s.answered && r < |s.requests| && e.key in Sent(s, r);
  }

  /** A record saved between the peek and the delete of a dispatch survives that delete. */
  lemma LateSavesSurvive(c: Config, s: State, e: Entry, i: nat)
    requires Conserved(s) && Enabled(c, s, Delete)
    requires s.requests[s.phase.req].savedBefore <= i < |s.saved| && s.saved[i] == e && e in s.queue
    ensures e in Do(c, s, Delete).queue
  {
    forall x | x in s.requests[s.phase.req].batch ensures x.key != e.key {
      var j :| 0 <= j < s.requests[s.phase.req].savedBefore && j < |s.saved| && RecordOf(s.saved[j]) == [x];
      assert s.saved[j].key != s.saved[i].key;
    }
    WithoutMembers(s.queue, Sent(s, s.phase.req), e);
  }

  /** Pruning takes the oldest entries: whatever it removes is older than whatever stays. */
  lemma PruneTakesOldest(c: Config, s: State, e: Entry, f: Entry)
    requires Conserved(s)
    requires e in s.queue && e !in Do(c, s, PruneChunk).queue && f in Do(c, s, PruneChunk).queue
    ensures e.key < f.key
    ensures e.key in Do(c, s, PruneChunk).pruned
  {
    var n := Min(PRUNE_CHUNK_SIZE, |s.queue|);
    assert s.queue == s.queue[..n] + s.queue[n..];
    assert e in s.queue[..n];
    CutSeparatesKeys(s.queue, n, e, f);
  }
}
