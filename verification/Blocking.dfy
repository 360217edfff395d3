/** When the dispatcher sends nothing: records it cannot read or send, in places where it never gets
    past them. */
module Blocking {
  import opened ByteStrings
  import opened RecordCodec
  import opened Store
  import opened FairBatch
  import opened Airtime
  import opened RoundRobin
  import opened Dispatcher
  import opened Pipeline

  /** The dispatcher finds a batch it can post. */
  ghost predicate CanPeek(c: Config, q: seq<Entry>) {
    Readable(WindowOf(q, c.limit)) && BatchOf(q, c.limit) != [] && AllValid(c.validJson, BatchOf(q, c.limit))
  }

  /** The reader panics on this entry. */
  ghost predicate Unreadable(e: Entry) { DecodeValue(e.value).OutOfRange? }

  /** It does exactly if the scan meets no value that makes the reader panic, at least one that decodes,
      and the batch chosen from those holds valid JSON only. */
  lemma CanPeekExactly(c: Config, q: seq<Entry>)
    requires c.limit > 0
    ensures CanPeek(c, q) <==>
            && (forall e :: e in WindowOf(q, c.limit) ==> !Unreadable(e))
            && (exists e :: e in WindowOf(q, c.limit) && RecordOf(e) != [])
            && AllValid(c.validJson, BatchOf(q, c.limit))
  {
    var w := WindowOf(q, c.limit);
    BatchSize(Weight, Records(w), c.limit);
    SomethingDecodes(w);
    hide WindowOf, Batch, Records, RecordOf, DecodeValue, AllValid;
  }

  lemma SomethingDecodes(w: seq<Entry>)
    ensures Records(w) != [] <==> exists e :: e in w && RecordOf(e) != []
  {
    if Records(w) != [] {
      HeadIsMember(Records(w));
      RecordsMembers(w, Records(w)[0]);
    }
    if e :| e in w && RecordOf(e) != [] {
      assert RecordOf(e) == [RecordOf(e)[0]];
      RecordsMembers(w, RecordOf(e)[0]);
    }
  }

  // ---------- What blocks it until it is pruned ----------

  /** A scan full of entries none of which decodes. */
  ghost predicate NothingDecodes(c: Config, q: seq<Entry>) {
    |q| >= ScanSize(c.limit) && Records(WindowOf(q, c.limit)) == []
  }

  /** The first scanned record of type `t` is not valid JSON, and the type is in every batch. */
  ghost predicate InvalidHead(c: Config, q: seq<Entry>, t: Bytes) {
    && c.limit > Ahead(t) && Types(Records(WindowOf(q, c.limit))) <= ENGINE_TYPES
    && OfType(Records(WindowOf(q, c.limit)), t) != []
    && !c.validJson(OfType(Records(WindowOf(q, c.limit)), t)[0].payload)
  }

  ghost predicate Blocked(c: Config, q: seq<Entry>, t: Bytes) {
    !Readable(WindowOf(q, c.limit)) || NothingDecodes(c, q) || InvalidHead(c, q, t)
  }

  lemma BlockedCannotPeek(c: Config, q: seq<Entry>, t: Bytes)
    requires c.limit > 0 && Blocked(c, q, t)
    ensures !CanPeek(c, q)
  {
    var rs, batch := Records(WindowOf(q, c.limit)), BatchOf(q, c.limit);
    BatchSize(Weight, rs, c.limit);
    if InvalidHead(c, q, t) { HeadIsSent(rs, c.limit, t); }
  }

  /** The first record of a type with room for it is in the batch. */
  lemma HeadIsSent(w: seq<Record>, limit: nat, t: Bytes)
    requires Types(w) <= ENGINE_TYPES && OfType(w, t) != [] && limit > Ahead(t)
    ensures OfType(w, t)[0] in Batch(Weight, w, limit)
  {
    hide Types, Ahead, Share, Batch;
    var head := OfType(w, t)[0];
    BatchTakesOldest(Weight, w, limit, t);
    OfTypeMembers(w, t, head);
    OfTypeMembers(Batch(Weight, w, limit), t, head);
    if |w| > limit {
      if t !in Types(w) { OfAbsentType(w, t); }
      AirtimeShare(w, limit, t);
    } else {
      BatchOfAll(Weight, w, limit);
    }
  }

  /** The first record of type `t` is in the batch of every window it stands in. */
  ghost predicate HeadAlwaysSent(t: Bytes, limit: nat) {
    forall w: seq<Record> :: EngineWindow(w, limit) && OfType(w, t) != [] ==>
      OfType(w, t)[0] in Batch(Weight, w, limit)
  }

  /** So an invalid first record of type `t` blocks all windows it can stand in if and only if the limit
      exceeds what the types before it can use. */
  lemma InvalidHeadBlocksExactly(t: Bytes, limit: nat)
    requires t in ENGINE_TYPES && limit > 0
    ensures HeadAlwaysSent(t, limit) <==> limit > Ahead(t)
  {
    if limit > Ahead(t) {
      forall w: seq<Record> | EngineWindow(w, limit) && OfType(w, t) != []
        ensures OfType(w, t)[0] in Batch(Weight, w, limit)
      {
        HeadIsSent(w, limit, t);
      }
    } else {
      var w := MissedHead(t, limit);
    }
  }

  /** A window whose first record of the type is not in the batch. */
  lemma MissedHead(t: Bytes, limit: nat) returns (w: seq<Record>)
    requires t in ENGINE_TYPES && 0 < limit <= Ahead(t)
    ensures EngineWindow(w, limit) && OfType(w, t) != [] && OfType(w, t)[0] !in Batch(Weight, w, limit)
  {
    hide EngineWindow, Types, OfType, Batch, Ahead, Crowded, Ordered, Weight;
    w := CrowdedWindow(t);
    NoAirtime(w, limit, t);
    PresentType(w, t);
    var batch := Batch(Weight, w, limit);
    HeadNotSent(w, OfType(w, t)[0], batch, t);
    InEngineWindow(w, limit);
  }

  lemma HeadNotSent(w: seq<Record>, head: Record, batch: seq<Record>, t: Bytes)
    requires OfType(w, t) != [] && OfType(w, t)[0] == head && OfType(batch, t) == []
    ensures head !in batch
  {
    OfTypeMembers(w, t, head);
    OfTypeMembers(batch, t, head);
  }

  // ---------- Runs ----------

  /** Saves are newer than what is queued and of the engine's types; nothing is pruned. */
  ghost predicate Appends(s: State, step: Step) {
    match step
    case Put(e) => (forall f :: f in s.queue ==> f.key < e.key) && Types(RecordOf(e)) <= ENGINE_TYPES
    case PruneChunk => false
    case _ => true
  }

  ghost predicate AllAppend(c: Config, s: State, steps: seq<Step>)
    requires Possible(c, s, steps)
    decreases |steps|
  {
    steps == [] ||
    (var n := |steps| - 1; AllAppend(c, s, steps[..n]) && Appends(After(c, s, steps[..n]), steps[n]))
  }

  lemma PutKeepsBlocked(c: Config, q: seq<Entry>, e: Entry, t: Bytes)
    requires Blocked(c, q, t) && Types(RecordOf(e)) <= ENGINE_TYPES
    ensures Blocked(c, q + [e], t)
  {
    var w, w' := WindowOf(q, c.limit), WindowOf(q + [e], c.limit);
    if |q| >= ScanSize(c.limit) {
      assert w' == w;
    } else {
      assert w == q && w' == q + [e];
      RecordsConcat(q, [e]);
      assert [e][1..] == [] && Records([e]) == RecordOf(e);
      OfTypeConcat(Records(q), RecordOf(e), t);
      forall f | f in w ensures f in w' {}
    }
  }

  /** Whatever is saved, applied late or answered: with such a record in place the dispatcher posts
      nothing more until the size policy removes it. */
  lemma {:induction false} BlockedUntilPruned(c: Config, s: State, steps: seq<Step>, t: Bytes)
    requires c.limit > 0 && s.phase.Idle? && Blocked(c, s.queue, t)
    requires Possible(c, s, steps) && AllAppend(c, s, steps)
    ensures var s' := After(c, s, steps);
      && s'.requests == s.requests && s'.successes == s.successes && s'.phase.Idle?
      && s.queue <= s'.queue && Blocked(c, s'.queue, t)
  {
    if steps == [] {
    } else {
      var before, step := steps[..|steps| - 1], steps[|steps| - 1];
      var mid := After(c, s, before);
      BlockedUntilPruned(c, s, before, t);
      BlockedCannotPeek(c, mid.queue, t);
      hide Blocked, WindowOf, BatchOf;
      match step
      case Put(e) =>
        InsertNewest(mid.queue, e);
        PutKeepsBlocked(c, mid.queue, e, t);
      case _ =>
    }
  }
}
