/** When every posted batch is answered 200 exactly if it was applied, and nothing is pruned, each
    payload reaches the backend exactly once, in saved order, and the dashboard shows the newest. */
module ExactlyOnce {
  import opened ByteStrings
  import opened Store
  import opened Dispatcher
  import opened Pipeline
  import opened Conservation
  import opened DeliveryOrder
  import opened Dashboard
  import opened Options

  /** The assumption on a step: the backend applies the request being posted, once, and then the
      dispatcher sees 200; deletes commit; nothing is pruned; keys increase within each type. */
  ghost predicate Faithful(s: State, step: Step) {
    match step
    case Put(e) => InOrder(s, step)
    case PruneChunk => false
    case Apply(req) => s.phase == Sending(req) && req !in s.applied
    case ReplyFail => s.phase.Sending? && s.phase.req !in s.applied
    case DeleteFails => false
    case _ => true
  }

  ghost predicate AllFaithful(c: Config, s: State, steps: seq<Step>)
    requires Possible(c, s, steps)
    decreases |steps|
  {
    steps == [] ||
    (var n := |steps| - 1;
     AllFaithful(c, s, steps[..n]) && Faithful(After(c, s, steps[..n]), steps[n]))
  }

  /** Everything the backend applied, in that order, repetitions included. */
  function Delivered(requests: seq<Request>, applied: seq<nat>): seq<Record> {
    if applied == [] then []
    else
      var r := applied[|applied| - 1];
      Delivered(requests, applied[..|applied| - 1]) + if r < |requests| then requests[r].batch else []
  }

  /** Keys of the batch that was applied but not deleted yet. */
  ghost function InFlight(s: State): set<Key> {
    if !s.phase.Idle? && s.phase.req in s.applied && s.phase.req < |s.requests| then Sent(s, s.phase.req) else {}
  }

  /** What the backend has not seen. */
  ghost function Outstanding(s: State): seq<Entry> { Without(s.queue, InFlight(s)) }

  ghost predicate Exact(s: State, t: Bytes) {
    SavedOfType(s, t) == OfType(Delivered(s.requests, s.applied), t) + OfType(Records(Outstanding(s)), t)
  }

  /** The batch being posted is still the head of each type's queue. */
  ghost predicate BatchAtHead(s: State) {
    s.phase.Sending? && s.phase.req < |s.requests| && s.phase.req !in s.applied ==>
      forall t :: OfType(s.requests[s.phase.req].batch, t) <= OfType(Records(s.queue), t)
  }

  // ---------- Removing and inserting, per type ----------

  function DropKeys(rs: seq<Record>, keys: set<Key>): seq<Record> {
    if rs == [] then [] else (if rs[0].key in keys then [] else [rs[0]]) + DropKeys(rs[1..], keys)
  }

  lemma {:induction false} DropKeysConcat(a: seq<Record>, b: seq<Record>, keys: set<Key>)
    ensures DropKeys(a + b, keys) == DropKeys(a, keys) + DropKeys(b, keys)
  {
    if a == [] {
      assert a + b == b;
    } else {
      assert (a + b)[1..] == a[1..] + b;
      DropKeysConcat(a[1..], b, keys);
    }
  }

  lemma {:induction false} DropKeysAll(rs: seq<Record>, keys: set<Key>)
    requires forall r :: r in rs ==> r.key in keys
    ensures DropKeys(rs, keys) == []
  {
    if rs == [] {
    } else {
      assert rs[0] in rs;
      DropKeysAll(rs[1..], keys);
    }
  }

  lemma {:induction false} DropKeysNone(rs: seq<Record>, keys: set<Key>)
    requires forall r :: r in rs ==> r.key !in keys
    ensures DropKeys(rs, keys) == rs
  {
    if rs == [] {
    } else {
      assert rs[0] in rs;
      DropKeysNone(rs[1..], keys);
    }
  }

  lemma {:induction false} WithoutOfType(q: seq<Entry>, keys: set<Key>, t: Bytes)
    ensures OfType(Records(Without(q, keys)), t) == DropKeys(OfType(Records(q), t), keys)
  {
    if q == [] {
    } else {
      var rest := q[1..];
      WithoutOfType(rest, keys, t);
      OfTypeConcat(RecordOf(q[0]), Records(rest), t);
      OfTypeSingle(q[0], t);
      DropKeysConcat(OfType(RecordOf(q[0]), t), OfType(Records(rest), t), keys);
      DropKeysSingle(q[0], t, keys);
      if q[0].key in keys {
        assert Without(q, keys) == Without(rest, keys);
      } else {
        assert ([q[0]] + Without(rest, keys))[1..] == Without(rest, keys);
        OfTypeConcat(RecordOf(q[0]), Records(Without(rest, keys)), t);
      }
    }
  }

  lemma DropKeysSingle(e: Entry, t: Bytes, keys: set<Key>)
    ensures DropKeys(OfType(RecordOf(e), t), keys) == if e.key in keys then [] else OfType(RecordOf(e), t)
  {
    OfTypeSingle(e, t);
    var one := OfType(RecordOf(e), t);
    if one != [] { assert one[1..] == []; }
  }

  /** Deleting a batch that is at the head of each type's queue cuts it off there. */
  lemma RemoveHead(q: seq<Entry>, b: seq<Record>, t: Bytes)
    requires Ascending(q) && forall u :: OfType(b, u) <= OfType(Records(q), u)
    ensures OfType(Records(q), t) == OfType(b, t) + OfType(Records(Without(q, RecordKeys(b))), t)
  {
    var keys, head, rs := RecordKeys(b), OfType(b, t), OfType(Records(q), t);
    var tail := rs[|head|..];
    assert rs == head + tail;
    forall x | x in head ensures x.key in keys {
      OfTypeMembers(b, t, x);
    }
    forall z | z in tail ensures z.key !in keys {
      TailKeyIsNew(q, b, t, z);
    }
    WithoutOfType(q, keys, t);
    DropKeysHead(head, tail, keys);
  }

  lemma DropKeysHead(head: seq<Record>, tail: seq<Record>, keys: set<Key>)
    requires forall r :: r in head ==> r.key in keys
    requires forall r :: r in tail ==> r.key !in keys
    ensures DropKeys(head + tail, keys) == tail
  {
    DropKeysConcat(head, tail, keys);
    DropKeysAll(head, keys);
    DropKeysNone(tail, keys);
  }

  lemma TailKeyIsNew(q: seq<Entry>, b: seq<Record>, t: Bytes, z: Record)
    requires Ascending(q) && forall u :: OfType(b, u) <= OfType(Records(q), u)
    requires z in OfType(Records(q), t)[|OfType(b, t)|..]
    ensures z.key !in RecordKeys(b)
  {
    var rs := OfType(Records(q), t);
    RecordsOrdered(q);
    OfTypeOrdered(Records(q), t);
    assert z in rs;
    OfTypeMembers(Records(q), t, z);
    forall y | y in b ensures y.key != z.key {
      OfTypeMembers(b, y.dataType, y);
      assert OfType(b, y.dataType) <= OfType(Records(q), y.dataType);
      OfTypeMembers(Records(q), y.dataType, y);
      if y.dataType == t {
        HeadBeforeTail(OfType(b, t), rs, y, z);
      } else if y.key == z.key {
        SameKeySameRecord(Records(q), y, z);
      }
    }
  }

  lemma HeadBeforeTail(p: seq<Record>, rs: seq<Record>, y: Record, z: Record)
    requires Ordered(rs) && p <= rs && y in p && z in rs[|p|..]
    ensures y.key < z.key
  {
    var i :| 0 <= i < |p| && p[i] == y;
    var j :| 0 <= j < |rs| - |p| && rs[|p|..][j] == z;
    assert rs[i] == y && rs[|p| + j] == z;
  }

  /** A save that is the newest of its type goes to the end of that type's queue. */
  lemma {:induction false} InsertOfType(q: seq<Entry>, e: Entry, t: Bytes)
    requires Ascending(q) && forall f :: f in q ==> f.key != e.key
    requires forall f :: f in q && SameType(f, e) ==> f.key < e.key
    ensures OfType(Records(Insert(q, e)), t) == OfType(Records(q), t) + OfType(RecordOf(e), t)
  {
    hide OfType, Records, Ascending, SameType, RecordOf;
    if q == [] || e.key < q[0].key {
      InsertFront(q, e, t);
    } else {
      var head, tail := q[0], q[1..];
      AscendingTail(q);
      assert head in q && q == [head] + tail;
      forall f | f in tail ensures f in q {}
      InsertOfType(tail, e, t);
      InsertBehind(q, e);
      ConsOfType(head, Insert(tail, e), t);
      ConsOfType(head, tail, t);
    }
  }

  lemma InsertBehind(q: seq<Entry>, e: Entry)
    requires q != [] && e.key > q[0].key
    ensures Insert(q, e) == [q[0]] + Insert(q[1..], e)
  {}

  lemma ConsOfType(e: Entry, q: seq<Entry>, t: Bytes)
    ensures OfType(Records([e] + q), t) == OfType(RecordOf(e), t) + OfType(Records(q), t)
  {
    assert ([e] + q)[1..] == q;
    OfTypeConcat(RecordOf(e), Records(q), t);
  }

  lemma InsertFront(q: seq<Entry>, e: Entry, t: Bytes)
    requires Ascending(q) && (q != [] ==> e.key < q[0].key)
    requires forall f :: f in q && SameType(f, e) ==> f.key < e.key
    ensures OfType(Records([e] + q), t) == OfType(Records(q), t) + OfType(RecordOf(e), t)
  {
    OfTypeSingle(e, t);
    ConsOfType(e, q, t);
    if OfType(RecordOf(e), t) != [] { NoneOlder(q, e, t); }
  }

  lemma NoneOlder(q: seq<Entry>, e: Entry, t: Bytes)
    requires Ascending(q) && RecordOf(e) != [] && RecordOf(e)[0].dataType == t
    requires q != [] ==> e.key < q[0].key
    requires forall f :: f in q && SameType(f, e) ==> f.key < e.key
    ensures OfType(Records(q), t) == []
  {
    forall x ensures x !in OfType(Records(q), t) {
      OfTypeMembers(Records(q), t, x);
      RecordsMembers(q, x);
      forall f | f in q ensures RecordOf(f) != [x] || x.dataType != t {
        var i :| 0 <= i < |q| && q[i] == f;
        assert i == 0 || q[0].key < q[i].key;
      }
    }
    if OfType(Records(q), t) != [] { HeadIsMember(OfType(Records(q), t)); }
  }

  lemma WithoutInsert(q: seq<Entry>, e: Entry, keys: set<Key>)
    requires Ascending(q) && e.key !in keys && forall f :: f in q ==> f.key != e.key
    ensures Without(Insert(q, e), keys) == Insert(Without(q, keys), e)
  {
    InsertAscending(q, e);
    WithoutAscending(q, keys);
    WithoutAscending(Insert(q, e), keys);
    forall f | f in Without(q, keys) ensures f.key != e.key {
      WithoutMembers(q, keys, f);
    }
    InsertAscending(Without(q, keys), e);
    forall f ensures f in Without(Insert(q, e), keys) <==> f in Insert(Without(q, keys), e) {
      WithoutMembers(Insert(q, e), keys, f);
      InsertMembers(q, e, f);
      InsertMembers(Without(q, keys), e, f);
      WithoutMembers(q, keys, f);
    }
    AscendingIsUnique(Without(Insert(q, e), keys), Insert(Without(q, keys), e));
  }

  // ---------- The invariant, step by step ----------

  lemma {:induction false} DeliveredFrame(requests: seq<Request>, r: Request, applied: seq<nat>)
    requires forall a :: a in applied ==> a < |requests|
    ensures Delivered(requests + [r], applied) == Delivered(requests, applied)
  {
    if applied == [] {
    } else {
      var init := applied[..|applied| - 1];
      assert applied[|applied| - 1] in applied;
      forall a | a in init ensures a in applied {}
      DeliveredFrame(requests, r, init);
    }
  }

  lemma PutIsExact(c: Config, s: State, e: Entry, t: Bytes)
    requires Conserved(s) && Exact(s, t) && Enabled(c, s, Put(e)) && Faithful(s, Put(e))
    ensures Exact(Do(c, s, Put(e)), t)
  {
    PutOutstanding(c, s, e);
    JoinedOfType(s.saved, Outstanding(s), e, OfType(Delivered(s.requests, s.applied), t), t);
  }

  lemma JoinedOfType(saved: seq<Entry>, q: seq<Entry>, e: Entry, done: seq<Record>, t: Bytes)
    requires OfType(Records(saved), t) == done + OfType(Records(q), t)
    requires Ascending(q) && forall f :: f in q ==> f.key != e.key
    requires forall f :: f in q && SameType(f, e) ==> f.key < e.key
    ensures OfType(Records(saved + [e]), t) == done + OfType(Records(Insert(q, e)), t)
  {
    hide OfType, Records, Insert, Ascending;
    InsertOfType(q, e, t);
    SavedSnoc(saved, e, t);
  }

  /** A save joins what the backend has not seen, as the newest of its type. */
  lemma PutOutstanding(c: Config, s: State, e: Entry)
    requires Conserved(s) && Enabled(c, s, Put(e)) && Faithful(s, Put(e))
    ensures Outstanding(Do(c, s, Put(e))) == Insert(Outstanding(s), e)
    ensures Ascending(Outstanding(s))
    ensures forall f :: f in Outstanding(s) ==> f.key != e.key
    ensures forall f :: f in Outstanding(s) && SameType(f, e) ==> f.key < e.key
  {
    var keys := InFlight(s);
    assert InFlight(Do(c, s, Put(e))) == keys;
    if e.key in keys { var f := SentWasSaved(s, s.phase.req, e.key); }
    WithoutInsert(s.queue, e, keys);
    WithoutAscending(s.queue, keys);
    forall f | f in Outstanding(s) ensures f in s.saved {
      WithoutMembers(s.queue, keys, f);
    }
  }

  lemma ApplyIsExact(c: Config, s: State, req: nat, t: Bytes)
    requires Conserved(s) && Exact(s, t) && BatchAtHead(s)
    requires Enabled(c, s, Apply(req)) && Faithful(s, Apply(req))
    ensures Exact(Do(c, s, Apply(req)), t)
  {
    hide Do, Enabled, Faithful, Conserved, BatchAtHead, OfType, Records, Delivered, Outstanding, Without;
    ApplyOnly(c, s, req);
    OutstandingAround(c, s, req);
    AppliedHead(c, s, req, t);
    DeliveredSnoc(s.requests, s.applied, req, t);
  }

  lemma ApplyOnly(c: Config, s: State, req: nat)
    requires Enabled(c, s, Apply(req))
    ensures req < |s.requests| && Do(c, s, Apply(req)) == s.(applied := s.applied + [req])
  {}

  /** The batch being applied is what the queue loses of each type. */
  lemma AppliedHead(c: Config, s: State, req: nat, t: Bytes)
    requires Conserved(s) && BatchAtHead(s) && Enabled(c, s, Apply(req)) && Faithful(s, Apply(req))
    ensures var b := s.requests[req].batch;
      OfType(Records(s.queue), t) == OfType(b, t) + OfType(Records(Without(s.queue, RecordKeys(b))), t)
  {
    hide OfType, Records, Without, Placed, FreshKeys, DeletedWereAnswered, RequestsAreOld;
    RemoveHead(s.queue, s.requests[req].batch, t);
  }

  /** What the backend has not seen before and after it applies the request being posted. */
  lemma OutstandingAround(c: Config, s: State, req: nat)
    requires Enabled(c, s, Apply(req)) && Faithful(s, Apply(req))
    ensures Outstanding(s) == s.queue
    ensures Outstanding(Do(c, s, Apply(req))) == Without(s.queue, RecordKeys(s.requests[req].batch))
  {
    WithoutNone(s.queue, {});
  }

  lemma DeliveredSnoc(requests: seq<Request>, applied: seq<nat>, r: nat, t: Bytes)
    requires r < |requests|
    ensures OfType(Delivered(requests, applied + [r]), t)
            == OfType(Delivered(requests, applied), t) + OfType(requests[r].batch, t)
  {
    assert (applied + [r])[..|applied|] == applied;
    OfTypeConcat(Delivered(requests, applied), requests[r].batch, t);
  }

  lemma DeleteIsExact(c: Config, s: State, t: Bytes)
    requires Conserved(s) && Exact(s, t) && Enabled(c, s, Delete)
    ensures Exact(Do(c, s, Delete), t)
  {
    WithoutNone(Without(s.queue, Sent(s, s.phase.req)), {});
  }

  lemma StepIsExact(c: Config, s: State, step: Step, t: Bytes)
    requires Conserved(s) && Exact(s, t) && BatchAtHead(s) && Enabled(c, s, step) && Faithful(s, step)
    ensures Exact(Do(c, s, step), t)
  {
    match step
    case Put(e) => PutIsExact(c, s, e, t);
    case Apply(req) => ApplyIsExact(c, s, req, t);
    case Delete => DeleteIsExact(c, s, t);
    case Peek =>
      DeliveredFrame(s.requests, Request(BatchOf(s.queue, c.limit), |s.saved|), s.applied);
    case _ =>
  }

  lemma StepKeepsHead(c: Config, s: State, step: Step)
    requires Conserved(s) && BatchAtHead(s) && Enabled(c, s, step) && Faithful(s, step)
    ensures BatchAtHead(Do(c, s, step))
  {
    var s' := Do(c, s, step);
    if s'.phase.Sending? && s'.phase.req < |s'.requests| && s'.phase.req !in s'.applied {
      forall t ensures OfType(s'.requests[s'.phase.req].batch, t) <= OfType(Records(s'.queue), t) {
        match step
        case Put(e) =>
          forall f | f in s.queue ensures f in s.saved {}
          InsertOfType(s.queue, e, t);
        case Peek => BatchPrefixOfQueue(s.queue, c.limit, t);
        case _ =>
      }
    }
  }

  // ---------- Main results ----------

  lemma {:induction false} RunsAreExact(c: Config, steps: seq<Step>, t: Bytes)
    requires Possible(c, INITIAL, steps) && AllFaithful(c, INITIAL, steps)
    ensures Exact(After(c, INITIAL, steps), t) && BatchAtHead(After(c, INITIAL, steps))
  {
    if steps == [] {
    } else {
      var n := |steps| - 1;
      RunsAreExact(c, steps[..n], t);
      RunsConserve(c, INITIAL, steps[..n]);
      StepIsExact(c, After(c, INITIAL, steps[..n]), steps[n], t);
      StepKeepsHead(c, After(c, INITIAL, steps[..n]), steps[n]);
    }
  }

  /** Of each type the applied records, with repetitions, are a prefix of the saved sequence: each
      payload exactly once, in saved order. */
  lemma DeliveredExactlyOnce(c: Config, steps: seq<Step>, t: Bytes)
    requires Possible(c, INITIAL, steps) && AllFaithful(c, INITIAL, steps)
    ensures var s := After(c, INITIAL, steps);
      OfType(Delivered(s.requests, s.applied), t) <= SavedOfType(s, t)
  {
    RunsAreExact(c, steps, t);
  }

  function Items(rs: seq<Record>): seq<Item> {
    seq(|rs|, i requires 0 <= i < |rs| => Item(rs[i].dataType, rs[i].payload))
  }

  /** A dashboard field shows the last applied record of its type. */
  lemma {:induction false} FieldShowsLast(rs: seq<Record>, t: Bytes, norm: Bytes -> Bytes)
    requires forall r :: r in rs ==> norm(r.dataType) == r.dataType
    ensures var own := OfType(rs, t);
      LastOf(Items(rs), t, norm, None) == if own == [] then None else Some(own[|own| - 1].payload)
  {
    if rs == [] {
    } else {
      var init, last := rs[..|rs| - 1], rs[|rs| - 1];
      assert rs == init + [last];
      assert last in rs;
      OfTypeSnoc(init, last, t);
      assert Items(rs)[..|rs| - 1] == Items(init);
      FieldShowsLast(init, t, norm);
    }
  }

  /** The dashboard shows the newest record of each type among those that were applied: the n-th
      saved one, when n records of the type were applied. */
  lemma DashboardShowsNewest(c: Config, steps: seq<Step>, t: Bytes, norm: Bytes -> Bytes) returns (n: nat)
    requires Possible(c, INITIAL, steps) && AllFaithful(c, INITIAL, steps)
    requires var s := After(c, INITIAL, steps);
      forall r :: r in Delivered(s.requests, s.applied) ==> norm(r.dataType) == r.dataType
    ensures var s := After(c, INITIAL, steps);
      && n == |OfType(Delivered(s.requests, s.applied), t)| <= |SavedOfType(s, t)|
      && LastOf(Items(Delivered(s.requests, s.applied)), t, norm, None) ==
         if n == 0 then None else Some(SavedOfType(s, t)[n - 1].payload)
  {
    var s := After(c, INITIAL, steps);
    DeliveredExactlyOnce(c, steps, t);
    FieldShowsLast(Delivered(s.requests, s.applied), t, norm);
    n := |OfType(Delivered(s.requests, s.applied), t)|;
  }
}
