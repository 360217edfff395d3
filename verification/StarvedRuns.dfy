/** Where the starvation bound ends: with a limit that the earlier types use up, the oldest record of
    all can wait for ever. */
module StarvedRuns {
  import opened ByteStrings
  import opened RecordCodec
  import opened Store
  import opened FairBatch
  import opened Airtime
  import opened Dispatcher
  import opened Pipeline
  import opened Conservation
  import opened DeliveryOrder
  import ExactlyOnce
  import opened Drain
  import opened Starvation

  const KEYS: nat := 0x1_0000_0000_0000_0000

  // ---------- Runs built step by step ----------

  /** A run from the empty buffer that meets the assumptions of the bound and never prunes. */
  ghost predicate Good(c: Config, steps: seq<Step>) {
    && Possible(c, INITIAL, steps) && AllRegular(c, INITIAL, steps)
    && forall step :: step in steps ==> !step.PruneChunk?
  }

  ghost function Reached(c: Config, steps: seq<Step>): State
    requires Good(c, steps)
  {
    After(c, INITIAL, steps)
  }

  lemma Grow(c: Config, steps: seq<Step>, step: Step)
    requires Good(c, steps) && Enabled(c, Reached(c, steps), step) && Regular(c, Reached(c, steps), step)
    requires !step.PruneChunk?
    ensures Good(c, steps + [step])
    ensures Reached(c, steps + [step]) == Do(c, Reached(c, steps), step)
  {
    assert (steps + [step])[..|steps|] == steps;
  }

  lemma GoodConserves(c: Config, steps: seq<Step>)
    requires Good(c, steps)
    ensures Conserved(Reached(c, steps))
  {
    RunsConserve(c, INITIAL, steps);
  }

  /** A dispatch that is answered 200 and deletes its batch. */
  lemma Dispatch(c: Config, steps: seq<Step>) returns (longer: seq<Step>)
    requires Good(c, steps) && Enabled(c, Reached(c, steps), Peek)
    ensures Good(c, longer) && steps <= longer
    ensures var s, s' := Reached(c, steps), Reached(c, longer);
      && s'.queue == Without(s.queue, RecordKeys(BatchOf(s.queue, c.limit)))
      && s'.phase.Idle? && s'.saved == s.saved && s'.successes == s.successes + 1
  {
    hide Good, Readable, AllValid, BatchOf, WindowOf, Without;
    var r := |Reached(c, steps).requests|;
    Grow(c, steps, Peek);
    longer := steps + [Peek];
    Grow(c, longer, Apply(r));
    longer := longer + [Apply(r)];
    Grow(c, longer, ReplyOk);
    longer := longer + [ReplyOk];
    Grow(c, longer, Delete);
    longer := longer + [Delete];
  }

  // ---------- Saving records again ----------

  predicate Named(rs: seq<Record>) { forall r :: r in rs ==> r.dataType in ENGINE_TYPES }

  lemma NamesFit(t: Bytes)
    requires t in ENGINE_TYPES
    ensures |t| <= MAX_READABLE_NAME
  {
    NamesDiffer();
    assert |HOST_METRICS| == 12;
  }

  function FreshEntry(dataType: Bytes, payload: Bytes, key: Key): Entry
    requires dataType in ENGINE_TYPES
  {
    NamesFit(dataType);
    Entry(key, EncodeValue(dataType, payload))
  }

  /** Entries of the same types under the keys from `next` on. */
  function Fresh(rs: seq<Record>, payload: Bytes, next: nat): seq<Entry>
    requires Named(rs) && next + |rs| <= KEYS
  {
    if rs == [] then []
    else
      var last := rs[|rs| - 1];
      assert last in rs;
      Fresh(rs[..|rs| - 1], payload, next) + [FreshEntry(last.dataType, payload, next + |rs| - 1)]
  }

  lemma FreshDecodes(dataType: Bytes, payload: Bytes, key: Key)
    requires dataType in ENGINE_TYPES
    ensures DecodeValue(FreshEntry(dataType, payload, key).value) == Value(dataType, payload)
    ensures RecordOf(FreshEntry(dataType, payload, key)) == [Record(key, dataType, payload)]
  {
    hide DecodeValue, EncodeValue;
    NamesFit(dataType);
    DecodeEncode(dataType, payload);
  }

  lemma FreshIsEngineData(c: Config, dataType: Bytes, payload: Bytes, key: Key)
    requires dataType in ENGINE_TYPES && c.validJson(payload)
    ensures EngineData(c, [FreshEntry(dataType, payload, key)])
    ensures FreshEntry(dataType, payload, key).key == key
  {
    FreshDecodes(dataType, payload, key);
  }

  lemma {:induction false} FreshKeys(rs: seq<Record>, payload: Bytes, next: nat)
    requires Named(rs) && next + |rs| <= KEYS
    ensures |Fresh(rs, payload, next)| == |rs|
    ensures forall e :: e in Fresh(rs, payload, next) ==> next <= e.key < next + |rs|
  {
    if rs == [] {
    } else {
      assert rs[|rs| - 1] in rs;
      FreshKeys(rs[..|rs| - 1], payload, next);
    }
  }

  lemma FreshSnoc(rs: seq<Record>, payload: Bytes, next: nat) returns (e: Entry)
    requires Named(rs) && next + |rs| <= KEYS && rs != []
    ensures Fresh(rs, payload, next) == Fresh(rs[..|rs| - 1], payload, next) + [e]
    ensures RecordOf(e) == [Record(next + |rs| - 1, rs[|rs| - 1].dataType, payload)]
  {
    var last := rs[|rs| - 1];
    assert last in rs;
    FreshDecodes(last.dataType, payload, next + |rs| - 1);
    e := FreshEntry(last.dataType, payload, next + |rs| - 1);
  }

  lemma {:induction false} FreshCounts(rs: seq<Record>, payload: Bytes, next: nat, u: Bytes)
    requires Named(rs) && next + |rs| <= KEYS
    ensures |OfType(Records(Fresh(rs, payload, next)), u)| == |OfType(rs, u)|
  {
    if rs == [] {
    } else {
      var init, last := rs[..|rs| - 1], rs[|rs| - 1];
      assert rs == init + [last];
      var e := FreshSnoc(rs, payload, next);
      FreshCounts(init, payload, next, u);
      hide Fresh, OfType, Records, Named, RecordOf;
      RecordsConcat(Fresh(init, payload, next), [e]);
      OneRecord(e);
      OfTypeConcat(Records(Fresh(init, payload, next)), RecordOf(e), u);
      OfTypeSnoc(init, last, u);
      OfTypeSingle(e, u);
    }
  }

  lemma OneRecord(e: Entry)
    ensures Records([e]) == RecordOf(e)
  {
    assert [e][1..] == [];
  }

  /** Saving them under keys that are all new. */
  lemma {:induction false} Refill(c: Config, steps: seq<Step>, rs: seq<Record>, payload: Bytes, next: nat)
    returns (longer: seq<Step>)
    requires Good(c, steps) && Named(rs) && next + |rs| <= KEYS && c.validJson(payload)
    requires forall f :: f in Reached(c, steps).saved ==> f.key < next
    ensures Good(c, longer) && steps <= longer
    ensures var s, s' := Reached(c, steps), Reached(c, longer);
      && s'.queue == s.queue + Fresh(rs, payload, next) && s'.saved == s.saved + Fresh(rs, payload, next)
      && s'.phase == s.phase && s'.successes == s.successes
  {
    hide Good, Reached, Conserved, EngineData, OfType, Records, FreshEntry;
    longer := steps;
    if rs == [] {
    } else {
      var init, last := rs[..|rs| - 1], rs[|rs| - 1];
      assert last in rs;
      longer := Refill(c, steps, init, payload, next);
      var e := FreshEntry(last.dataType, payload, next + |rs| - 1);
      FreshKeys(init, payload, next);
      FreshIsEngineData(c, last.dataType, payload, next + |rs| - 1);
      GoodConserves(c, longer);
      PutFresh(c, longer, e);
      longer := longer + [Put(e)];
    }
  }

  lemma PutFresh(c: Config, steps: seq<Step>, e: Entry)
    requires Good(c, steps) && Conserved(Reached(c, steps)) && EngineData(c, [e])
    requires forall f :: f in Reached(c, steps).saved ==> f.key < e.key
    ensures Good(c, steps + [Put(e)])
    ensures var s := Reached(c, steps);
      Reached(c, steps + [Put(e)]) == s.(queue := s.queue + [e], saved := s.saved + [e])
  {
    hide Good, EngineData, Ascending;
    var s := Reached(c, steps);
    InsertNewest(s.queue, e);
    Grow(c, steps, Put(e));
  }

  predicate IsOfType(e: Entry, t: Bytes) {
    DecodeValue(e.value).Value? && DecodeValue(e.value).dataType == t
  }

  // ---------- The crowd never thins ----------

  /** How many records of type `u` stand in the queue behind which `t` starves. */
  function Profile(t: Bytes, u: Bytes): nat {
    (if u in Earlier(t) then Weight(u) else 0) + if u == t then 1 else 0
  }

  ghost predicate HasProfile(rs: seq<Record>, t: Bytes) {
    forall u :: |OfType(rs, u)| == Profile(t, u)
  }

  /** Nothing on its way; `x` the oldest of all; behind it one full turn of every earlier type. */
  ghost predicate Starving(c: Config, s: State, t: Bytes, x: Entry, next: nat) {
    && s.phase.Idle? && Ascending(s.queue) && EngineData(c, s.queue)
    && |s.queue| == Ahead(t) + 1 && s.queue[0] == x && IsOfType(x, t)
    && HasProfile(Records(s.queue), t)
    && forall f :: f in s.saved ==> f.key < next
  }

  lemma ProfileCrowds(c: Config, q: seq<Entry>, t: Bytes)
    requires t in ENGINE_TYPES && EngineData(c, q) && HasProfile(Records(q), t)
    ensures Crowded(Records(q), t) && t in Types(Records(q)) && Types(Records(q)) <= ENGINE_TYPES
  {
    hide Earlier, Weight;
    var rs := Records(q);
    assert |OfType(rs, t)| >= 1;
    if t !in Types(rs) { OfAbsentType(rs, t); }
    forall u | u in Types(rs) ensures u in ENGINE_TYPES { TypeIsEngine(c, q, u); }
  }

  lemma TypeIsEngine(c: Config, q: seq<Entry>, u: Bytes)
    requires EngineData(c, q) && u in Types(Records(q))
    ensures u in ENGINE_TYPES
  {
    var r :| r in Records(q) && r.dataType == u;
    RecordsMembers(q, r);
    var e :| e in q && RecordOf(e) == [r];
  }

  lemma ShortQueue(c: Config, q: seq<Entry>)
    requires EngineData(c, q) && |q| <= 200
    ensures WindowOf(q, c.limit) == q && Sendable(c, q) && |Records(q)| == |q|
  {
    SendableRecords(c, q);
  }

  /** The batch passes `t` over. */
  lemma CrowdedBatch(c: Config, q: seq<Entry>, t: Bytes)
    requires t in ENGINE_TYPES && 0 < c.limit <= Ahead(t) && |q| == Ahead(t) + 1
    requires EngineData(c, q) && HasProfile(Records(q), t)
    ensures var b := BatchOf(q, c.limit);
      OfType(b, t) == [] && |b| == c.limit && Sendable(c, q) && WindowOf(q, c.limit) == q && Named(b)
  {
    EngineAhead();
    hide EngineData, HasProfile, Ahead, Crowded, Types, OfType, Batch;
    ShortQueue(c, q);
    ProfileCrowds(c, q, t);
    NoAirtime(Records(q), c.limit, t);
    BatchSize(Weight, Records(q), c.limit);
    forall r | r in BatchOf(q, c.limit) ensures r.dataType in ENGINE_TYPES {
      BatchMembers(Weight, Records(q), c.limit, r);
      MemberType(Records(q), r);
    }
  }

  lemma MemberType(rs: seq<Record>, r: Record)
    requires r in rs
    ensures r.dataType in Types(rs)
  {}

  /** What the batch leaves: `x` in front, and of each type what was not taken. */
  lemma AfterCrowdedBatch(c: Config, q: seq<Entry>, t: Bytes, x: Entry)
    requires t in ENGINE_TYPES && 0 < c.limit <= Ahead(t) && |q| == Ahead(t) + 1
    requires Ascending(q) && EngineData(c, q) && HasProfile(Records(q), t)
    requires q[0] == x && IsOfType(x, t)
    ensures var b := BatchOf(q, c.limit); var rest := Without(q, RecordKeys(b));
      && |rest| == |q| - c.limit && rest[0] == x && EngineData(c, rest)
      && forall u :: |OfType(Records(rest), u)| == Profile(t, u) - |OfType(b, u)|
  {
    hide HasProfile, Ahead, Throughput, ScanSize, Batch, BatchOf, OfType, Records, Profile, Ascending;
    hide Without, EngineData;
    CrowdedBatch(c, q, t);
    AheadFits(t);
    TakesItsLimit(c);
    var b := BatchOf(q, c.limit);
    DispatchShrinks(c, q);
    forall u ensures |OfType(Records(Without(q, RecordKeys(b))), u)| == Profile(t, u) - |OfType(b, u)| {
      ProfileAt(Records(q), t, u);
      LeftOfType(q, c.limit, u);
    }
    FrontStays(c, q, x);
    WithoutEngineData(c, q, RecordKeys(b));
  }

  lemma WithoutEngineData(c: Config, q: seq<Entry>, keys: set<Key>)
    requires EngineData(c, q)
    ensures EngineData(c, Without(q, keys))
  {
    forall e | e in Without(q, keys) ensures e in q { WithoutMembers(q, keys, e); }
  }

  /** Of each type the queue loses what the batch has. */
  lemma LeftOfType(q: seq<Entry>, limit: int, u: Bytes)
    requires Ascending(q)
    ensures var b := BatchOf(q, limit);
      |OfType(Records(Without(q, RecordKeys(b))), u)| == |OfType(Records(q), u)| - |OfType(b, u)|
  {
    hide OfType, Records, BatchOf, Without, Ascending;
    var b := BatchOf(q, limit);
    forall v ensures OfType(b, v) <= OfType(Records(q), v) { BatchPrefixOfQueue(q, limit, v); }
    ExactlyOnce.RemoveHead(q, b, u);
  }

  lemma ProfileAt(rs: seq<Record>, t: Bytes, u: Bytes)
    requires HasProfile(rs, t)
    ensures |OfType(rs, u)| == Profile(t, u)
  {}

  lemma TakesItsLimit(c: Config)
    requires 0 < c.limit <= 13
    ensures Throughput(c.limit) == c.limit
  {}

  lemma FrontStays(c: Config, q: seq<Entry>, x: Entry)
    requires q != [] && q[0] == x && Ascending(q) && RecordOf(x) != []
    requires OfType(BatchOf(q, c.limit), RecordOf(x)[0].dataType) == []
    ensures var rest := Without(q, RecordKeys(BatchOf(q, c.limit)));
      rest != [] && rest[0] == x
  {
    hide OfType, Batch;
    var b, r := BatchOf(q, c.limit), RecordOf(x)[0];
    if x.key in RecordKeys(b) {
      var y :| y in b && y.key == x.key;
      BatchMembers(Weight, Records(WindowOf(q, c.limit)), c.limit, y);
      WindowRecord(q, c.limit, y);
      RecordsOrdered(q);
      RecordsMembers(q, r);
      assert RecordOf(x) == [r];
      SameKeySameRecord(Records(q), r, y);
      OfTypeMembers(b, r.dataType, y);
    }
  }

  lemma WindowRecord(q: seq<Entry>, limit: int, y: Record)
    requires y in Records(WindowOf(q, limit))
    ensures y in Records(q)
  {
    RecordsMembers(WindowOf(q, limit), y);
    RecordsMembers(q, y);
    var e :| e in WindowOf(q, limit) && RecordOf(e) == [y];
    assert e in q;
  }

  // ---------- The runs ----------

  /** One successful dispatch and the saves that replace what it took. */
  lemma StarvingDispatch(c: Config, steps: seq<Step>, t: Bytes, payload: Bytes, x: Entry, next: nat)
    returns (longer: seq<Step>)
    requires t in ENGINE_TYPES && 0 < c.limit <= Ahead(t) && c.validJson(payload) && next + c.limit <= KEYS
    requires Good(c, steps) && Starving(c, Reached(c, steps), t, x, next)
    ensures Good(c, longer) && steps <= longer
    ensures Starving(c, Reached(c, longer), t, x, next + c.limit)
    ensures Reached(c, longer).successes == Reached(c, steps).successes + 1
  {
    var s := Reached(c, steps);
    var b := BatchOf(s.queue, c.limit);
    CrowdedBatch(c, s.queue, t);
    AfterCrowdedBatch(c, s.queue, t, x);
    CanPeek(c, s);
    hide Good, Profile, EngineData, HasProfile, Ahead, BatchOf, Without, Ascending;
    var mid := Dispatch(c, steps);
    longer := Refill(c, mid, b, payload, next);
    Refilled(c, longer, Reached(c, mid).queue, b, payload, next, t);
  }

  lemma CanPeek(c: Config, s: State)
    requires s.phase.Idle? && c.limit > 0 && BatchOf(s.queue, c.limit) != [] && Sendable(c, s.queue)
    requires WindowOf(s.queue, c.limit) == s.queue
    ensures Enabled(c, s, Peek)
  {
    forall r | r in BatchOf(s.queue, c.limit) ensures c.validJson(r.payload) {
      BatchMembers(Weight, Records(s.queue), c.limit, r);
      RecordsMembers(s.queue, r);
    }
  }

  lemma Refilled(c: Config, steps: seq<Step>, rest: seq<Entry>, b: seq<Record>, payload: Bytes, next: nat, t: Bytes)
    requires Good(c, steps) && Named(b) && next + |b| <= KEYS && c.validJson(payload)
    requires Reached(c, steps).queue == rest + Fresh(b, payload, next)
    requires forall u :: |OfType(Records(rest), u)| == Profile(t, u) - |OfType(b, u)|
    requires EngineData(c, rest)
    ensures HasProfile(Records(Reached(c, steps).queue), t)
    ensures Ascending(Reached(c, steps).queue) && EngineData(c, Reached(c, steps).queue)
    ensures |Fresh(b, payload, next)| == |b|
    ensures forall e :: e in Fresh(b, payload, next) ==> e.key < next + |b|
  {
    GoodConserves(c, steps);
    hide Profile, OfType, Records, Ascending;
    var added := Fresh(b, payload, next);
    RecordsConcat(rest, added);
    forall u ensures |OfType(Records(rest + added), u)| == Profile(t, u) {
      FreshCounts(b, payload, next, u);
      OfTypeConcat(Records(rest), Records(added), u);
    }
    FreshKeys(b, payload, next);
    FreshEngineData(c, b, payload, next);
  }

  lemma {:induction false} FreshEngineData(c: Config, rs: seq<Record>, payload: Bytes, next: nat)
    requires Named(rs) && next + |rs| <= KEYS && c.validJson(payload)
    ensures EngineData(c, Fresh(rs, payload, next))
  {
    if rs == [] {
    } else {
      var last := rs[|rs| - 1];
      assert last in rs;
      FreshEngineData(c, rs[..|rs| - 1], payload, next);
      FreshIsEngineData(c, last.dataType, payload, next + |rs| - 1);
      var e := FreshEntry(last.dataType, payload, next + |rs| - 1);
      hide FreshEntry, DecodeValue, Named;
      assert e in [e];
    }
  }

  /** The crowd is saved behind `x`. */
  lemma StarvingStart(c: Config, t: Bytes, payload: Bytes) returns (steps: seq<Step>, x: Entry)
    requires t in ENGINE_TYPES && c.validJson(payload)
    ensures Good(c, steps) && Starving(c, Reached(c, steps), t, x, Ahead(t) + 1)
    ensures Reached(c, steps).successes == 0
  {
    var round := CrowdedRound(t);
    AheadFits(t);
    RoundProfile(t);
    RoundIsNamed(t);
    StartOfRun(c);
    x := FreshEntry(t, payload, 0);
    FreshDecodes(t, payload, 0);
    hide CrowdedRound, Ahead, OfType, Profile, FreshEntry, EngineData, HasProfile, Ascending, Good, Reached, Named;
    FreshHead(round, payload, 0);
    steps := Refill(c, [], round, payload, 0);
    assert Reached(c, steps).queue == [] + Fresh(round, payload, 0);
    Refilled(c, steps, [], round, payload, 0, t);
  }

  lemma AheadFits(t: Bytes)
    requires t in ENGINE_TYPES
    ensures Ahead(t) <= 13
  {
    EngineAhead();
  }

  lemma StartOfRun(c: Config)
    ensures Good(c, []) && Reached(c, []) == INITIAL && EngineData(c, [])
  {}

  lemma RoundProfile(t: Bytes)
    ensures |CrowdedRound(t)| == Ahead(t) + 1
    ensures forall u :: |OfType(Records([]), u)| == Profile(t, u) - |OfType(CrowdedRound(t), u)|
  {
    CrowdedRoundCounts(t, t);
    forall u ensures |OfType(Records([]), u)| == Profile(t, u) - |OfType(CrowdedRound(t), u)| {
      CrowdedRoundCounts(t, u);
    }
  }

  lemma {:induction false} FreshHead(rs: seq<Record>, payload: Bytes, next: nat)
    requires Named(rs) && next + |rs| <= KEYS && rs != []
    ensures rs[0] in rs && Fresh(rs, payload, next) != []
    ensures Fresh(rs, payload, next)[0] == FreshEntry(rs[0].dataType, payload, next)
  {
    if |rs| > 1 { FreshHead(rs[..|rs| - 1], payload, next); }
  }

  lemma RoundIsNamed(t: Bytes)
    requires t in ENGINE_TYPES
    ensures Named(CrowdedRound(t)) && CrowdedRound(t) != [] && CrowdedRound(t)[0].dataType == t
  {
    var round := CrowdedRound(t);
    hide OfType, Weight, Earlier;
    forall r | r in round ensures r.dataType in ENGINE_TYPES {
      CrowdedRoundCounts(t, r.dataType);
      OfTypeMembers(round, r.dataType, r);
      assert r.dataType == t || r.dataType in Earlier(t);
      EarlierIsEngine(t);
    }
  }

  lemma EarlierIsEngine(t: Bytes)
    ensures Earlier(t) <= ENGINE_TYPES
  {}

  /** The first key that is still free after `n` dispatches. */
  function NextKey(limit: int, t: Bytes, n: nat): (k: nat)
    requires limit > 0
    ensures k > Ahead(t)
  {
    Ahead(t) + 1 + Product(n, limit)
  }

  function Product(n: nat, d: nat): nat { n * d }

  lemma NextKeyStep(limit: int, t: Bytes, n: nat)
    requires limit > 0
    ensures NextKey(limit, t, n + 1) == NextKey(limit, t, n) + limit
    ensures NextKey(limit, t, 0) == Ahead(t) + 1
  {}

  lemma {:induction false} StarvingRun(c: Config, t: Bytes, payload: Bytes, n: nat)
    returns (start: seq<Step>, steps: seq<Step>, x: Entry)
    requires t in ENGINE_TYPES && 0 < c.limit <= Ahead(t) && c.validJson(payload)
    requires NextKey(c.limit, t, n) <= KEYS
    ensures Good(c, start) && Good(c, steps) && start <= steps
    ensures Starving(c, Reached(c, start), t, x, Ahead(t) + 1) && Reached(c, start).successes == 0
    ensures Starving(c, Reached(c, steps), t, x, NextKey(c.limit, t, n)) && Reached(c, steps).successes == n
  {
    hide Ahead, Good, Starving, NextKey;
    if n == 0 {
      NextKeyStep(c.limit, t, 0);
      steps, x := StarvingStart(c, t, payload);
      start := steps;
    } else {
      NextKeyStep(c.limit, t, n - 1);
      start, steps, x := StarvingRun(c, t, payload, n - 1);
      steps := StarvingDispatch(c, steps, t, payload, x, NextKey(c.limit, t, n - 1));
    }
  }

  /** The oldest record of the whole buffer is `x`, of type `t`. */
  ghost predicate InFront(s: State, x: Entry, t: Bytes) {
    s.queue != [] && s.queue[0] == x && IsOfType(x, t)
  }

  /** The bound of StarvationFreedom needs its condition: with a limit of at most Ahead(t) there are
      runs that meet all its other assumptions, without pruning, and in which the oldest record of the
      whole buffer, of type `t`, is still the oldest after any number of successful dispatches for
      which there are keys. */
  lemma StarvesForEver(c: Config, t: Bytes, payload: Bytes, n: nat)
    returns (start: seq<Step>, steps: seq<Step>, x: Entry)
    requires t in ENGINE_TYPES && 0 < c.limit <= Ahead(t) && c.validJson(payload)
    requires NextKey(c.limit, t, n) <= KEYS
    ensures Good(c, start) && Good(c, steps) && start <= steps
    ensures var s := Reached(c, start);
      Conserved(s) && s.phase.Idle? && EngineData(c, s.queue) && InFront(s, x, t) && s.successes == 0
    ensures InFront(Reached(c, steps), x, t) && Reached(c, steps).successes == n
  {
    start, steps, x := StarvingRun(c, t, payload, n);
    GoodConserves(c, start);
  }

  // ---------- The exact condition ----------

  lemma {:induction false} GoodEngineData(c: Config, steps: seq<Step>)
    requires Good(c, steps)
    ensures EngineData(c, Reached(c, steps).queue)
  {
    if steps == [] {
    } else {
      var before := steps[..|steps| - 1];
      GoodEngineData(c, before);
      GoodConserves(c, before);
      StepKeepsEngineData(c, Reached(c, before), steps[|steps| - 1]);
    }
  }

  /** The second part of a run is a run from where the first ends. */
  lemma {:induction false} GoodSplit(c: Config, a: seq<Step>, b: seq<Step>)
    requires Good(c, b) && a <= b
    ensures Good(c, a) && Possible(c, Reached(c, a), b[|a|..]) && AllRegular(c, Reached(c, a), b[|a|..])
    ensures After(c, Reached(c, a), b[|a|..]) == Reached(c, b)
    decreases |b|
  {
    if |a| == |b| {
      assert a == b && b[|a|..] == [];
    } else {
      var init, rest := b[..|b| - 1], b[|a|..];
      assert a <= init;
      GoodSplit(c, a, init);
      assert rest[..|rest| - 1] == init[|a|..];
    }
  }

  /** The oldest record, when it is of type `t`, goes with the next successful dispatch. */
  ghost predicate OldestLeaves(c: Config, t: Bytes) {
    forall a, b, x ::
      (Good(c, a) && Good(c, b) && a <= b && Reached(c, a).phase.Idle? && InFront(Reached(c, a), x, t) &&
       Reached(c, b).successes > Reached(c, a).successes) ==> x !in Reached(c, b).queue
  }

  lemma OldestLeavesNext(c: Config, t: Bytes, a: seq<Step>, b: seq<Step>, x: Entry)
    requires c.limit > Ahead(t) && Good(c, a) && Good(c, b) && a <= b
    requires Reached(c, a).phase.Idle? && InFront(Reached(c, a), x, t)
    requires Reached(c, b).successes > Reached(c, a).successes
    ensures x !in Reached(c, b).queue
  {
    GoodConserves(c, a);
    GoodEngineData(c, a);
    GoodSplit(c, a, b);
    hide Good, Ahead, Share, EngineData, Conserved;
    StarvationFreedom(c, Reached(c, a), b[|a|..], 0);
    NothingAhead(c.limit, t, Reached(c, a).queue);
  }

  lemma NothingAhead(limit: int, t: Bytes, q: seq<Entry>)
    requires limit > Ahead(t)
    ensures Bound(limit, Share(limit, t), 0, |OfType(Records(q[..0]), t)|) == 1
  {
    assert q[..0] == [];
  }

  /** For each of the engine's types the dispatcher never starves its oldest record exactly if the
      limit exceeds what the types before it can use. */
  lemma StarvationExactly(c: Config, t: Bytes, payload: Bytes)
    requires t in ENGINE_TYPES && c.limit > 0 && c.validJson(payload)
    ensures OldestLeaves(c, t) <==> c.limit > Ahead(t)
  {
    if c.limit > Ahead(t) {
      forall a, b, x |
        Good(c, a) && Good(c, b) && a <= b && Reached(c, a).phase.Idle? && InFront(Reached(c, a), x, t) &&
        Reached(c, b).successes > Reached(c, a).successes
        ensures x !in Reached(c, b).queue
      {
        OldestLeavesNext(c, t, a, b, x);
      }
    } else {
      AheadFits(t);
      var start, steps, x := StarvesForEver(c, t, payload, 1);
      assert x in Reached(c, steps).queue;
    }
  }

  /** In particular a software inventory, under the default limit of 10 as under any up to 13. */
  lemma InventoryStarvesForEver(c: Config, payload: Bytes, n: nat)
    returns (start: seq<Step>, steps: seq<Step>, x: Entry)
    requires 0 < c.limit <= 13 && c.validJson(payload)
    requires NextKey(c.limit, SOFTWARE_INVENTORY, n) <= KEYS
    ensures Good(c, start) && Good(c, steps) && start <= steps
    ensures InFront(Reached(c, start), x, SOFTWARE_INVENTORY) && Reached(c, start).successes == 0
    ensures InFront(Reached(c, steps), x, SOFTWARE_INVENTORY) && Reached(c, steps).successes == n
  {
    EngineAhead();
    assert SOFTWARE_INVENTORY in ENGINE_TYPES;
    hide Ahead, Good, NextKey;
    start, steps, x := StarvesForEver(c, SOFTWARE_INVENTORY, payload, n);
  }
}
