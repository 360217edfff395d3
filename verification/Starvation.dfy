/** Starvation freedom with a bound, over runs with any interleaving of saves, failed posts and prunes. */
module Starvation {
  import opened ByteStrings
  import opened RecordCodec
  import opened Store
  import opened Buffer
  import opened FairBatch
  import opened Airtime
  import opened Dispatcher
  import opened Pipeline
  import opened Conservation
  import DeliveryOrder
  import opened ExactlyOnce
  import opened Drain

  /** The assumption on stored data: the engine's own types, decodable, valid JSON. */
  ghost predicate EngineData(c: Config, q: seq<Entry>) {
    forall e :: e in q ==>
      && DecodeValue(e.value).Value? && c.validJson(DecodeValue(e.value).payload)
      && DecodeValue(e.value).dataType in ENGINE_TYPES
  }

  /** The assumption on a step: what is saved is the engine's, under a key newer than all present. */
  ghost predicate Regular(c: Config, s: State, step: Step) {
    step.Put? ==> EngineData(c, [step.e]) && forall f :: f in s.queue ==> f.key < step.e.key
  }

  ghost predicate AllRegular(c: Config, s: State, steps: seq<Step>)
    requires Possible(c, s, steps)
    decreases |steps|
  {
    steps == [] ||
    (var n := |steps| - 1;
     AllRegular(c, s, steps[..n]) && Regular(c, After(c, s, steps[..n]), steps[n]))
  }

  /** The entries ahead of a key. */
  function Before(q: seq<Entry>, key: Key): seq<Entry> {
    if q == [] || q[0].key >= key then [] else [q[0]] + Before(q[1..], key)
  }

  function TypeOf(x: Entry): Bytes
    requires DecodeValue(x.value).Value?
  {
    DecodeValue(x.value).dataType
  }

  function Quotient(a: nat, d: nat): nat
    requires d > 0
  {
    a / d
  }

  /** Dispatches until an entry with this many ahead of it is within the scan. */
  function Approach(limit: int, ahead: nat): nat
    requires limit > 0
  {
    var scan := ScanSize(limit);
    if ahead < scan then 0 else Quotient(ahead - scan, Min(limit, scan)) + 1
  }

  /** Dispatches until `x` is gone, by the number of entries ahead and of rivals. */
  function Bound(limit: int, w: nat, ahead: nat, rivals: nat): nat
    requires limit > 0 && w > 0
  {
    Approach(limit, ahead) + Quotient(rivals, w) + 1
  }

  /** The bound for an entry of type `t` with these entries ahead of it. */
  function Cost(limit: int, t: Bytes, ahead: seq<Entry>): nat
    requires limit > Ahead(t)
  {
    Bound(limit, Share(limit, t), |ahead|, |OfType(Records(ahead), t)|)
  }

  // ---------- Arithmetic of the bound ----------

  lemma QuotientMonotone(a: nat, b: nat, d: nat)
    requires d > 0 && a <= b
    ensures Quotient(a, d) <= Quotient(b, d)
  {
    var p, q := a / d, b / d;
    assert a == p * d + a % d && b == q * d + b % d;
    MulMonotone(q + 1, p, d);
  }

  lemma QuotientStep(a: nat, d: nat)
    requires d > 0
    ensures Quotient(a + d, d) == Quotient(a, d) + 1
  {
    var p, q := a / d, (a + d) / d;
    assert a == p * d + a % d && a + d == q * d + (a + d) % d;
    MulMonotone(q, p, d);
    MulMonotone(p + 2, q, d);
  }

  lemma ApproachMonotone(limit: int, a: nat, b: nat)
    requires limit > 0 && a <= b
    ensures Approach(limit, a) <= Approach(limit, b)
  {
    var scan := ScanSize(limit);
    if scan <= a { QuotientMonotone(a - scan, b - scan, Min(limit, scan)); }
  }

  lemma ApproachStep(limit: int, a: nat, b: nat)
    requires limit > 0 && b >= ScanSize(limit) && a + Min(limit, ScanSize(limit)) <= b
    ensures Approach(limit, a) + 1 <= Approach(limit, b)
  {
    var scan := ScanSize(limit);
    var m := Min(limit, scan);
    if scan <= a {
      QuotientMonotone(a - scan, b - m - scan, m);
      QuotientStep(b - m - scan, m);
    }
  }

  lemma BoundMonotone(limit: int, w: nat, a: nat, b: nat, r: nat, t: nat)
    requires limit > 0 && w > 0 && a <= b && r <= t
    ensures Bound(limit, w, a, r) <= Bound(limit, w, b, t)
  {
    ApproachMonotone(limit, a, b);
    QuotientMonotone(r, t, w);
  }

  /** Either phase of the bound shrinks: the way into the window, then the turns within it. */
  lemma BoundStep(limit: int, w: nat, a: nat, b: nat, r: nat, t: nat)
    requires limit > 0 && w > 0 && a <= b && r <= t
    requires b >= ScanSize(limit) ==> a + Min(limit, ScanSize(limit)) <= b
    requires b < ScanSize(limit) ==> r + w <= t
    ensures Bound(limit, w, a, r) + 1 <= Bound(limit, w, b, t)
  {
    if b < ScanSize(limit) {
      BoundMonotone(limit, w, a, b, r, t - w);
      QuotientStep(t - w, w);
    } else {
      ApproachStep(limit, a, b);
      QuotientMonotone(r, t, w);
    }
  }

  // ---------- What is ahead of an entry ----------

  lemma {:induction false} BeforeIsPrefix(q: seq<Entry>, p: nat)
    requires Ascending(q) && p < |q|
    ensures Before(q, q[p].key) == q[..p]
  {
    if p == 0 {
    } else {
      AscendingTail(q);
      BeforeIsPrefix(q[1..], p - 1);
      assert q[..p] == [q[0]] + q[1..][..p - 1];
    }
  }

  lemma {:induction false} BeforeNewest(q: seq<Entry>, e: Entry, key: Key)
    requires key <= e.key
    ensures Before(q + [e], key) == Before(q, key)
  {
    if q == [] {
    } else {
      assert (q + [e])[1..] == q[1..] + [e];
      BeforeNewest(q[1..], e, key);
    }
  }

  lemma BeforeDropped(q: seq<Entry>, n: nat, x: Entry)
    requires Ascending(q) && n <= |q| && x in q[n..]
    ensures n <= |Before(q, x.key)| && Before(q[n..], x.key) == Before(q, x.key)[n..]
  {
    var i :| 0 <= i < |q| - n && q[n..][i] == x;
    BeforeIsPrefix(q, n + i);
    BeforeIsPrefix(q[n..], i);
  }

  lemma {:induction false} WithoutShorter(q: seq<Entry>, keys: set<Key>, t: Bytes)
    ensures |Without(q, keys)| <= |q|
    ensures |OfType(Records(Without(q, keys)), t)| <= |OfType(Records(q), t)|
  {
    if q == [] {
    } else {
      WithoutShorter(q[1..], keys, t);
      ConsOfType(q[0], q[1..], t);
      ConsOfType(q[0], Without(q[1..], keys), t);
      assert q == [q[0]] + q[1..];
      if q[0].key in keys { assert Without(q, keys) == Without(q[1..], keys); }
    }
  }

  /** Whatever is taken from the front, the cost does not grow. */
  lemma CostOfSuffix(limit: int, t: Bytes, ahead: seq<Entry>, n: nat, keys: set<Key>)
    requires limit > Ahead(t) && n <= |ahead|
    ensures Cost(limit, t, Without(ahead[n..], keys)) <= Cost(limit, t, Without(ahead, keys))
  {
    var a, b := Without(ahead[..n], keys), Without(ahead[n..], keys);
    assert ahead == ahead[..n] + ahead[n..];
    WithoutConcat(ahead[..n], ahead[n..], keys);
    RecordsConcat(a, b);
    OfTypeConcat(Records(a), Records(b), t);
    BoundMonotone(limit, Share(limit, t), |b|, |a + b|, |OfType(Records(b), t)|, |OfType(Records(a + b), t)|);
  }

  // ---------- One dispatch ----------

  /** From behind the scan an entry advances by a full batch. */
  lemma DispatchBehindScan(c: Config, q: seq<Entry>, p: nat, t: Bytes)
    requires c.limit > Ahead(t) && Ascending(q) && Sendable(c, q) && ScanSize(c.limit) <= p < |q|
    ensures var keys := RecordKeys(BatchOf(q, c.limit));
      Cost(c.limit, t, Without(q[..p], keys)) + 1 <= Cost(c.limit, t, q[..p])
  {
    var keys, ahead := RecordKeys(BatchOf(q, c.limit)), q[..p];
    SubWindow(c, q);
    BatchKeys(c, q);
    forall k | k in keys ensures k in Keys(ahead) {
      var e :| e in WindowOf(q, c.limit) && e.key == k;
      var i :| 0 <= i < |WindowOf(q, c.limit)| && WindowOf(q, c.limit)[i] == e;
      assert ahead[i] == e;
    }
    WithoutCount(ahead, keys);
    WithoutShorter(ahead, keys, t);
    BoundStep(c.limit, Share(c.limit, t), |Without(ahead, keys)|, p,
              |OfType(Records(Without(ahead, keys)), t)|, |OfType(Records(ahead), t)|);
  }

  /** Within the scan the entries of its own type ahead of it get a full turn. */
  lemma DispatchWithinScan(c: Config, q: seq<Entry>, p: nat, x: Record)
    requires c.limit > Ahead(x.dataType) && Ascending(q) && EngineData(c, q) && p < |q| && p < ScanSize(c.limit)
    requires RecordOf(q[p]) == [x] && x.key !in RecordKeys(BatchOf(q, c.limit))
    ensures var keys := RecordKeys(BatchOf(q, c.limit));
      Cost(c.limit, x.dataType, Without(q[..p], keys)) + 1 <= Cost(c.limit, x.dataType, q[..p])
  {
    var keys, ahead, t := RecordKeys(BatchOf(q, c.limit)), q[..p], x.dataType;
    var own := OfType(Records(ahead), t);
    var taken := OwnTurn(c, q, p, x);
    WithoutOfType(ahead, keys, t);
    forall y | y in own[..taken] ensures y.key in keys {
      OfTypeMembers(BatchOf(q, c.limit), t, y);
    }
    assert own == own[..taken] + own[taken..];
    DropKeysConcat(own[..taken], own[taken..], keys);
    DropKeysAll(own[..taken], keys);
    DropKeysShorter(own[taken..], keys);
    WithoutShorter(ahead, keys, t);
    BoundStep(c.limit, Share(c.limit, t), |Without(ahead, keys)|, p, |OfType(Records(Without(ahead, keys)), t)|, |own|);
  }

  lemma {:induction false} DropKeysShorter(rs: seq<Record>, keys: set<Key>)
    ensures |DropKeys(rs, keys)| <= |rs|
  {
    if rs == [] {
    } else {
      DropKeysShorter(rs[1..], keys);
    }
  }

  /** When an entry within the scan is passed over, at least a turn's worth of its type ahead of it
      is taken. */
  lemma OwnTurn(c: Config, q: seq<Entry>, p: nat, x: Record) returns (taken: nat)
    requires c.limit > Ahead(x.dataType) && Ascending(q) && EngineData(c, q) && p < |q| && p < ScanSize(c.limit)
    requires RecordOf(q[p]) == [x] && x.key !in RecordKeys(BatchOf(q, c.limit))
    ensures Share(c.limit, x.dataType) <= taken <= |OfType(Records(q[..p]), x.dataType)|
    ensures OfType(BatchOf(q, c.limit), x.dataType) == OfType(Records(q[..p]), x.dataType)[..taken]
  {
    hide OfType, Records, Batch, Weight, EngineData, Share, Ahead, Ascending;
    var w, t := Records(WindowOf(q, c.limit)), x.dataType;
    var own, all, batch := OfType(Records(q[..p]), t), OfType(w, t), OfType(BatchOf(q, c.limit), t);
    OwnInWindow(c, q, p, x);
    assert all[|own|] == x;
    OfTypeMembers(w, t, x);
    WindowOverfull(c, q, x);
    TurnFits(c, q, t);
    BatchTakesOldest(Weight, w, c.limit, t);
    OfTypeMembers(BatchOf(q, c.limit), t, x);
    PassedOver(own, all, batch, x, Share(c.limit, t));
    taken := |batch|;
  }

  lemma PassedOver(own: seq<Record>, all: seq<Record>, batch: seq<Record>, x: Record, weight: nat)
    requires own + [x] <= all && batch <= all && x !in batch && |batch| >= Min(weight, |all|)
    ensures weight <= |batch| <= |own| && batch == own[..|batch|]
  {
    assert (own + [x])[|own|] == all[|own|] == x;
    assert forall i :: 0 <= i < |own| ==> (own + [x])[i] == own[i];
    PrefixElement(batch, all, |own|);
  }

  lemma PrefixElement(p: seq<Record>, s: seq<Record>, i: nat)
    requires p <= s
    ensures i < |p| ==> s[i] in p
  {
  }

  /** A type with room for it gets at least its share of an overfull window. */
  lemma TurnFits(c: Config, q: seq<Entry>, t: Bytes)
    requires Ahead(t) < c.limit < |Records(WindowOf(q, c.limit))| && EngineData(c, q)
    requires OfType(Records(WindowOf(q, c.limit)), t) != []
    ensures |OfType(BatchOf(q, c.limit), t)| >= Min(Share(c.limit, t), |OfType(Records(WindowOf(q, c.limit)), t)|)
  {
    var w := Records(WindowOf(q, c.limit));
    WindowTypes(c, q);
    if t !in Types(w) { OfAbsentType(w, t); }
    hide Types, OfType, Batch, Ahead, Share;
    AirtimeShare(w, c.limit, t);
  }

  /** The entry's record follows those of its type ahead of it in the window. */
  lemma OwnInWindow(c: Config, q: seq<Entry>, p: nat, x: Record)
    requires p < |q| && p < ScanSize(c.limit) && RecordOf(q[p]) == [x]
    ensures OfType(Records(q[..p]), x.dataType) + [x] <= OfType(Records(WindowOf(q, c.limit)), x.dataType)
  {
    var w, t := WindowOf(q, c.limit), x.dataType;
    assert w == q[..p] + ([q[p]] + w[p + 1..]);
    RecordsConcat(q[..p], [q[p]] + w[p + 1..]);
    OfTypeConcat(Records(q[..p]), Records([q[p]] + w[p + 1..]), t);
    ConsOfType(q[p], w[p + 1..], t);
    DeliveryOrder.OfTypeSingle(q[p], t);
  }

  /** An entry of the window is left behind only when the window does not fit. */
  lemma WindowOverfull(c: Config, q: seq<Entry>, x: Record)
    requires c.limit > 0 && x in Records(WindowOf(q, c.limit)) && x.key !in RecordKeys(BatchOf(q, c.limit))
    ensures c.limit < |Records(WindowOf(q, c.limit))|
  {
  }

  lemma WindowTypes(c: Config, q: seq<Entry>)
    requires EngineData(c, q)
    ensures Types(Records(WindowOf(q, c.limit))) <= ENGINE_TYPES
  {
    var w := WindowOf(q, c.limit);
    forall r | r in Records(w) ensures r.dataType in ENGINE_TYPES {
      RecordsMembers(w, r);
      var e :| e in w && RecordOf(e) == [r];
      assert e in q;
    }
  }

  /** One dispatch that passes an entry over lowers its cost. */
  lemma DispatchLowersCost(c: Config, q: seq<Entry>, x: Entry)
    requires Ascending(q) && EngineData(c, q) && x in q && c.limit > Ahead(TypeOf(x))
    requires x.key !in RecordKeys(BatchOf(q, c.limit))
    ensures var ahead := Before(q, x.key);
      Cost(c.limit, TypeOf(x), Without(ahead, RecordKeys(BatchOf(q, c.limit)))) + 1 <= Cost(c.limit, TypeOf(x), ahead)
  {
    var p :| 0 <= p < |q| && q[p] == x;
    BeforeIsPrefix(q, p);
    if p < ScanSize(c.limit) {
      DispatchWithinScan(c, q, p, RecordOf(x)[0]);
    } else {
      DispatchBehindScan(c, q, p, TypeOf(x));
    }
  }

  // ---------- Runs ----------

  lemma {:induction false} BeforeWithout(q: seq<Entry>, keys: set<Key>, key: Key)
    requires Ascending(q)
    ensures Before(Without(q, keys), key) == Without(Before(q, key), keys)
  {
    if q == [] {
    } else {
      AscendingTail(q);
      BeforeWithout(q[1..], keys, key);
      if q[0].key in keys {
        assert Without(q, keys) == Without(q[1..], keys);
        if q[0].key >= key { NothingBefore(q[1..], keys, key); }
      } else {
        assert ([q[0]] + Without(q[1..], keys))[1..] == Without(q[1..], keys);
      }
    }
  }

  lemma NothingBefore(q: seq<Entry>, keys: set<Key>, key: Key)
    requires forall e :: e in q ==> e.key >= key
    ensures Before(q, key) == Before(Without(q, keys), key) == []
  {
    var rest := Without(q, keys);
    if rest != [] {
      HeadIsMember(rest);
      WithoutMembers(q, keys, rest[0]);
    }
    if q != [] { HeadIsMember(q); }
  }

  /** The cost of a waiting entry and the dispatches so far never exceed the bound; while a batch
      without it is on its way, the dispatch under way is paid for already. */
  ghost predicate Waiting(c: Config, s: State, x: Entry, bound: int, base: nat)
    requires DecodeValue(x.value).Value? && c.limit > Ahead(TypeOf(x))
  {
    var ahead, spent := Before(s.queue, x.key), s.successes - base;
    x in s.queue ==>
      && Cost(c.limit, TypeOf(x), ahead) + spent <= bound
      && (!s.phase.Idle? && s.phase.req < |s.requests| && x.key !in Sent(s, s.phase.req) ==>
            Cost(c.limit, TypeOf(x), Without(ahead, Sent(s, s.phase.req))) + spent + 1 <= bound)
  }

  lemma PutKeepsWaiting(c: Config, s: State, e: Entry, x: Entry, bound: int, base: nat)
    requires DecodeValue(x.value).Value? && c.limit > Ahead(TypeOf(x)) && x in s.saved
    requires Waiting(c, s, x, bound, base) && Enabled(c, s, Put(e)) && Regular(c, s, Put(e))
    ensures Waiting(c, Do(c, s, Put(e)), x, bound, base)
  {
    InsertNewest(s.queue, e);
    if x in s.queue { BeforeNewest(s.queue, e, x.key); }
  }

  lemma PruneKeepsWaiting(c: Config, s: State, x: Entry, bound: int, base: nat)
    requires DecodeValue(x.value).Value? && c.limit > Ahead(TypeOf(x))
    requires Ascending(s.queue) && Waiting(c, s, x, bound, base)
    ensures Waiting(c, Do(c, s, PruneChunk), x, bound, base)
  {
    var s', n, ahead := Do(c, s, PruneChunk), Min(PRUNE_CHUNK_SIZE, |s.queue|), Before(s.queue, x.key);
    if x in s'.queue {
      assert x in s.queue[n..];
      BeforeDropped(s.queue, n, x);
      CostOfSuffix(c.limit, TypeOf(x), ahead, n, {});
      WithoutNone(ahead, {});
      WithoutNone(ahead[n..], {});
      if !s.phase.Idle? && s.phase.req < |s.requests| {
        CostOfSuffix(c.limit, TypeOf(x), ahead, n, Sent(s, s.phase.req));
      }
    }
  }

  lemma PeekKeepsWaiting(c: Config, s: State, x: Entry, bound: int, base: nat)
    requires DecodeValue(x.value).Value? && c.limit > Ahead(TypeOf(x)) && Ascending(s.queue) && EngineData(c, s.queue)
    requires Waiting(c, s, x, bound, base) && Enabled(c, s, Peek)
    ensures Waiting(c, Do(c, s, Peek), x, bound, base)
  {
    if x in s.queue && x.key !in RecordKeys(BatchOf(s.queue, c.limit)) {
      DispatchLowersCost(c, s.queue, x);
    }
  }

  lemma DeleteKeepsWaiting(c: Config, s: State, x: Entry, bound: int, base: nat)
    requires DecodeValue(x.value).Value? && c.limit > Ahead(TypeOf(x))
    requires Ascending(s.queue) && Waiting(c, s, x, bound, base)
    requires Enabled(c, s, Delete)
    ensures Waiting(c, Do(c, s, Delete), x, bound, base)
  {
    WithoutMembers(s.queue, Sent(s, s.phase.req), x);
    BeforeWithout(s.queue, Sent(s, s.phase.req), x.key);
  }

  lemma StepKeepsWaiting(c: Config, s: State, step: Step, x: Entry, bound: int, base: nat)
    requires DecodeValue(x.value).Value? && c.limit > Ahead(TypeOf(x)) && x in s.saved
    requires Ascending(s.queue) && EngineData(c, s.queue) && Waiting(c, s, x, bound, base)
    requires Enabled(c, s, step) && Regular(c, s, step)
    ensures Waiting(c, Do(c, s, step), x, bound, base)
  {
    match step
    case Put(e) => PutKeepsWaiting(c, s, e, x, bound, base);
    case PruneChunk => PruneKeepsWaiting(c, s, x, bound, base);
    case Peek => PeekKeepsWaiting(c, s, x, bound, base);
    case Delete => DeleteKeepsWaiting(c, s, x, bound, base);
    case _ =>
  }

  lemma StepKeepsEngineData(c: Config, s: State, step: Step)
    requires Ascending(s.queue) && EngineData(c, s.queue) && Enabled(c, s, step) && Regular(c, s, step)
    ensures EngineData(c, Do(c, s, step).queue)
  {
    var s' := Do(c, s, step);
    forall f | f in s'.queue ensures f in s.queue || (step.Put? && f == step.e) {
      match step
      case Put(e) => InsertMembers(s.queue, e, f);
      case Delete => WithoutMembers(s.queue, Sent(s, s.phase.req), f);
      case _ =>
    }
    if step.Put? { assert step.e in [step.e]; }
  }

  /** The bound at the start of a run; a dispatch already under way does not count for it. */
  ghost function BoundAt(c: Config, s: State, x: Entry): nat
    requires DecodeValue(x.value).Value? && c.limit > Ahead(TypeOf(x))
  {
    Cost(c.limit, TypeOf(x), Before(s.queue, x.key)) + if s.phase.Idle? then 0 else 1
  }

  lemma {:induction false} RunsKeepWaiting(c: Config, s: State, steps: seq<Step>, x: Entry)
    requires DecodeValue(x.value).Value? && c.limit > Ahead(TypeOf(x))
    requires Conserved(s) && EngineData(c, s.queue) && x in s.queue && Possible(c, s, steps) && AllRegular(c, s, steps)
    ensures var s' := After(c, s, steps);
      && Conserved(s') && EngineData(c, s'.queue) && x in s'.saved && s'.successes >= s.successes
      && Waiting(c, s', x, BoundAt(c, s, x), s.successes)
  {
    if steps == [] {
      if !s.phase.Idle? && s.phase.req < |s.requests| {
        var ahead, keys := Before(s.queue, x.key), Sent(s, s.phase.req);
        WithoutShorter(ahead, keys, TypeOf(x));
        BoundMonotone(c.limit, Share(c.limit, TypeOf(x)), |Without(ahead, keys)|, |ahead|,
                      |OfType(Records(Without(ahead, keys)), TypeOf(x))|, |OfType(Records(ahead), TypeOf(x))|);
      }
    } else {
      var n := |steps| - 1;
      RunsKeepWaiting(c, s, steps[..n], x);
      var before := After(c, s, steps[..n]);
      StepConserves(c, before, steps[n]);
      StepKeepsEngineData(c, before, steps[n]);
      StepKeepsWaiting(c, before, steps[n], x, BoundAt(c, s, x), s.successes);
    }
  }

  // ---------- Main result ----------

  /** The entry at position `p` of the queue, with `r` of its type ahead of it, has left the buffer after as
      many dispatches as bring it within the scan, one for each share of its rivals, and one more, whatever
      else happens, provided the limit exceeds what the types before its own can use. */
  lemma StarvationFreedom(c: Config, s: State, steps: seq<Step>, p: nat)
    requires Conserved(s) && s.phase.Idle? && EngineData(c, s.queue) && p < |s.queue|
    requires c.limit > Ahead(TypeOf(s.queue[p]))
    requires Possible(c, s, steps) && AllRegular(c, s, steps)
    ensures var x, s', scan := s.queue[p], After(c, s, steps), ScanSize(c.limit);
      var r := |OfType(Records(s.queue[..p]), TypeOf(x))|;
      var approach := if p < scan then 0 else (p - scan) / Min(c.limit, scan) + 1;
      var share := Min(Weight(TypeOf(x)), c.limit - Ahead(TypeOf(x)));
      s'.successes - s.successes >= approach + r / share + 1 ==> x !in s'.queue
  {
    hide Possible, After, AllRegular, Ahead, Weight, ScanSize, Records, OfType;
    BeforeIsPrefix(s.queue, p);
    RunsKeepWaiting(c, s, steps, s.queue[p]);
  }

  /** From a limit of 14 on that holds for records of every type. */
  lemma StarvationFreedomFromFourteen(c: Config, s: State, steps: seq<Step>, p: nat)
    requires c.limit >= 14 && Conserved(s) && s.phase.Idle? && EngineData(c, s.queue) && p < |s.queue|
    requires Possible(c, s, steps) && AllRegular(c, s, steps)
    ensures var x, s', scan := s.queue[p], After(c, s, steps), ScanSize(c.limit);
      var r := |OfType(Records(s.queue[..p]), TypeOf(x))|;
      var approach := if p < scan then 0 else (p - scan) / Min(c.limit, scan) + 1;
      && c.limit > Ahead(TypeOf(x))
      && var share := Min(Weight(TypeOf(x)), c.limit - Ahead(TypeOf(x)));
         s'.successes - s.successes >= approach + r / share + 1 ==> x !in s'.queue
  {
    hide Ahead, Conserved, After, AllRegular, Possible, ScanSize, Weight, Records;
    assert s.queue[p] in s.queue;
    EngineAhead();
    StarvationFreedom(c, s, steps, p);
  }
}
