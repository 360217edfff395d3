/** The exact condition for the applied records of each type to be a prefix of the saved ones: that
    timestamps follow the saves. */
module SaveOrder {
  import opened ByteStrings
  import opened Store
  import opened Dispatcher
  import opened Pipeline
  import opened Conservation
  import opened DeliveryOrder
  import opened Drain

  ghost predicate DistinctKeys(saves: seq<Entry>) {
    forall i, j :: 0 <= i < j < |saves| ==> saves[i].key != saves[j].key
  }

  /** Within each type keys increase from save to save. */
  ghost predicate KeysFollowSaves(saves: seq<Entry>) {
    forall i, j :: 0 <= i < j < |saves| && SameType(saves[i], saves[j]) ==> saves[i].key < saves[j].key
  }

  /** Of type `t` the first n saved records have been applied and no others. */
  ghost predicate AppliedUpTo(s: State, t: Bytes, n: nat) {
    n <= |SavedOfType(s, t)| &&
    forall i :: 0 <= i < |SavedOfType(s, t)| ==> (IsApplied(s, SavedOfType(s, t)[i].key) <==> i < n)
  }

  ghost predicate PrefixOfType(s: State, t: Bytes) { exists n :: AppliedUpTo(s, t, n) }

  ghost predicate AppliedIsPrefix(s: State) { forall t :: PrefixOfType(s, t) }

  /** After every run that saves just these records and prunes nothing, under whatever limit, the
      applied records of each type are a prefix of the saved ones. */
  ghost predicate PrefixInAllRuns(validJson: Bytes -> bool, saves: seq<Entry>) {
    forall limit: int, steps: seq<Step> | Possible(Config(limit, validJson), INITIAL, steps) ::
      var s := After(Config(limit, validJson), INITIAL, steps);
      s.saved == saves && s.pruned == {} ==> AppliedIsPrefix(s)
  }

  // ---------- Increasing keys suffice ----------

  lemma {:induction false} SavesGrow(c: Config, steps: seq<Step>, n: nat)
    requires Possible(c, INITIAL, steps) && n <= |steps|
    ensures Possible(c, INITIAL, steps[..n])
    ensures After(c, INITIAL, steps[..n]).saved <= After(c, INITIAL, steps).saved
  {
    if n == |steps| {
      assert steps[..n] == steps;
    } else {
      var init := steps[..|steps| - 1];
      SavesGrow(c, init, n);
      assert init[..n] == steps[..n];
    }
  }

  lemma {:induction false} FollowingIsInOrder(c: Config, steps: seq<Step>, saves: seq<Entry>)
    requires Possible(c, INITIAL, steps) && After(c, INITIAL, steps).saved <= saves && KeysFollowSaves(saves)
    ensures AllInOrder(c, INITIAL, steps)
  {
    if steps == [] {
    } else {
      var init, last := steps[..|steps| - 1], steps[|steps| - 1];
      var s := After(c, INITIAL, init);
      SavesGrow(c, steps, |init|);
      FollowingIsInOrder(c, init, saves);
      if last.Put? { PutFollows(s, last.e, saves); }
    }
  }

  lemma PutFollows(s: State, e: Entry, saves: seq<Entry>)
    requires s.saved + [e] <= saves && KeysFollowSaves(saves)
    ensures InOrder(s, Put(e))
  {
    var n := |s.saved|;
    assert saves[n] == (s.saved + [e])[n];
    forall f | f in s.saved && SameType(f, e) ensures f.key < e.key {
      var i :| 0 <= i < n && s.saved[i] == f;
      assert saves[i] == (s.saved + [e])[i];
    }
  }

  // ---------- Otherwise a run leaves a gap ----------

  /** An applied record with an earlier one of its type that is not applied: no prefix. */
  lemma GapIsNoPrefix(s: State, i: nat, j: nat)
    requires i < j < |s.saved| && SameType(s.saved[i], s.saved[j])
    requires !IsApplied(s, s.saved[i].key) && IsApplied(s, s.saved[j].key)
    ensures !AppliedIsPrefix(s)
  {
    var t := RecordOf(s.saved[i])[0].dataType;
    var p := PlaceOf(s.saved, i, t);
    var q := PlaceOf(s.saved, j, t);
    PlacesAscend(s.saved, i, j, t);
    forall n ensures !AppliedUpTo(s, t, n) { NoCutBetween(s, t, p, q, n); }
    assert !PrefixOfType(s, t);
  }

  lemma NoCutBetween(s: State, t: Bytes, p: nat, q: nat, n: nat)
    requires p < q < |SavedOfType(s, t)|
    requires !IsApplied(s, SavedOfType(s, t)[p].key) && IsApplied(s, SavedOfType(s, t)[q].key)
    ensures !AppliedUpTo(s, t, n)
  {
    hide SavedOfType, IsApplied;
  }

  /** Where a saved record stands among those of its type. */
  lemma PlaceOf(saved: seq<Entry>, i: nat, t: Bytes) returns (p: nat)
    requires i < |saved| && RecordOf(saved[i]) != [] && RecordOf(saved[i])[0].dataType == t
    ensures p == |OfType(Records(saved[..i]), t)|
    ensures p < |OfType(Records(saved), t)| && OfType(Records(saved), t)[p].key == saved[i].key
  {
    p := |OfType(Records(saved[..i]), t)|;
    var rest := saved[i + 1..];
    hide OfType, Records;
    assert saved == (saved[..i] + [saved[i]]) + rest;
    RecordsConcat(saved[..i] + [saved[i]], rest);
    OfTypeConcat(Records(saved[..i] + [saved[i]]), Records(rest), t);
    SavedSnoc(saved[..i], saved[i], t);
    OfTypeSingle(saved[i], t);
  }

  lemma PlacesAscend(saved: seq<Entry>, i: nat, j: nat, t: Bytes)
    requires i < j < |saved| && RecordOf(saved[i]) != [] && RecordOf(saved[i])[0].dataType == t
    ensures |OfType(Records(saved[..i]), t)| < |OfType(Records(saved[..j]), t)|
  {
    var p := PlaceOf(saved[..j], i, t);
    assert saved[..j][..i] == saved[..i];
  }

  /** The saves up to the m-th are committed one after the other. */
  lemma {:induction false} PutAll(c: Config, steps: seq<Step>, saves: seq<Entry>, m: nat) returns (longer: seq<Step>)
    requires Possible(c, INITIAL, steps) && DistinctKeys(saves)
    requires m <= |saves| && After(c, INITIAL, steps).saved <= saves[..m]
    ensures Possible(c, INITIAL, longer)
    ensures var s, s' := After(c, INITIAL, steps), After(c, INITIAL, longer);
      s' == s.(queue := s'.queue, saved := saves[..m])
    decreases m - |After(c, INITIAL, steps).saved|
  {
    var s := After(c, INITIAL, steps);
    var n := |s.saved|;
    longer := steps;
    if n < m {
      var e := saves[n];
      forall f | f in s.saved ensures f.key != e.key {
        var i :| 0 <= i < n && s.saved[i] == f;
        assert saves[i] == saves[..m][i];
      }
      hide Possible, After, DistinctKeys, Insert;
      Extend(c, INITIAL, steps, Put(e));
      assert s.saved + [e] == saves[..n + 1];
      longer := PutAll(c, steps + [Put(e)], saves, m);
    } else {
      assert s.saved == saves[..m];
    }
  }

  /** `a` and `b` of one type are queued, the older `b` saved later, and `a` is not applied. */
  ghost predicate Hunting(c: Config, s: State, a: Entry, b: Entry) {
    && s.phase.Idle? && Sendable(c, s.queue) && s.pruned == {}
    && a in s.queue && b in s.queue && SameType(a, b) && b.key < a.key
    && !IsApplied(s, a.key)
  }

  /** With a limit of 1 a batch is a single record, and it is not `a` before `b`. */
  lemma OlderFirst(c: Config, q: seq<Entry>, a: Entry, b: Entry)
    requires c.limit == 1 && Ascending(q) && Sendable(c, q)
    requires a in q && b in q && SameType(a, b) && b.key < a.key
    ensures |BatchOf(q, 1)| == 1 && a.key !in RecordKeys(BatchOf(q, 1))
  {
    var batch := BatchOf(q, 1);
    SubWindow(c, q);
    WindowAscends(q, 1);
    BatchKeys(c, q);
    HeadIsMember(q);
    OlderIsTaken(q, a, b);
    OneKey(batch, a.key, b.key);
  }

  lemma OneKey(batch: seq<Record>, j: Key, k: Key)
    ensures |batch| == 1 && j in RecordKeys(batch) && k in RecordKeys(batch) ==> j == k
  {}

  /** A batch that holds the newer of two records of a type holds the older. */
  lemma OlderIsTaken(q: seq<Entry>, a: Entry, b: Entry)
    requires Ascending(q) && a in q && b in q && SameType(a, b) && b.key < a.key
    ensures a.key in RecordKeys(BatchOf(q, 1)) ==> b.key in RecordKeys(BatchOf(q, 1))
  {
    if a.key in RecordKeys(BatchOf(q, 1)) {
      var y :| y in BatchOf(q, 1) && y.key == a.key;
      OlderIsWith(q, a, b, y);
    }
  }

  lemma OlderIsWith(q: seq<Entry>, a: Entry, b: Entry, y: Record)
    requires Ascending(q) && a in q && b in q && SameType(a, b) && b.key < a.key
    requires y in BatchOf(q, 1) && y.key == a.key
    ensures b.key in RecordKeys(BatchOf(q, 1))
  {
    hide OfType, Records, BatchOf;
    var x, z := RecordOf(a)[0], RecordOf(b)[0];
    var t, batch := x.dataType, BatchOf(q, 1);
    RecordsOrdered(q);
    OfTypeOrdered(Records(q), t);
    RecordsMembers(q, x);
    RecordsMembers(q, z);
    assert RecordOf(a) == [x] && RecordOf(b) == [z];
    var e := BatchFromQueue(q, 1, y);
    RecordsMembers(q, y);
    SameKeySameRecord(Records(q), x, y);
    BatchPrefixOfQueue(q, 1, t);
    OfTypeMembers(batch, t, x);
    OfTypeMembers(Records(q), t, z);
    PrefixHoldsOlder(OfType(batch, t), OfType(Records(q), t), x, z);
    OfTypeMembers(batch, t, z);
  }

  /** A dispatch up to the application, and what it adds to the applied keys. */
  lemma PeekAndApply(c: Config, steps: seq<Step>) returns (longer: seq<Step>)
    requires Possible(c, INITIAL, steps) && Enabled(c, After(c, INITIAL, steps), Peek)
    ensures Possible(c, INITIAL, longer)
    ensures var s, s', r := After(c, INITIAL, steps), After(c, INITIAL, longer), |After(c, INITIAL, steps).requests|;
      && s'.queue == s.queue && s'.saved == s.saved && s'.pruned == s.pruned && s'.phase == Sending(r)
      && r < |s'.requests| && r in s'.applied && Sent(s', r) == RecordKeys(BatchOf(s.queue, c.limit))
      && forall k :: IsApplied(s', k) <==> IsApplied(s, k) || k in RecordKeys(BatchOf(s.queue, c.limit))
  {
    var s := After(c, INITIAL, steps);
    var r, batch := |s.requests|, BatchOf(s.queue, c.limit);
    RunsConserve(c, INITIAL, steps);
    AppliedAfter(s, Request(batch, |s.saved|), r);
    hide Possible, After, Readable, BatchOf, AllValid, IsApplied, Conserved;
    Extend(c, INITIAL, steps, Peek);
    longer := steps + [Peek];
    Extend(c, INITIAL, longer, Apply(r));
    longer := longer + [Apply(r)];
    SameApplied(After(c, INITIAL, longer), s, Request(batch, |s.saved|), r);
  }

  lemma SameApplied(s': State, s: State, req: Request, r: nat)
    requires s'.requests == s.requests + [req] && s'.applied == s.applied + [r]
    ensures var t := s.(requests := s.requests + [req], applied := s.applied + [r]);
      forall k :: IsApplied(s', k) <==> IsApplied(t, k)
  {}

  lemma AppliedAfter(s: State, req: Request, r: nat)
    requires Conserved(s) && r == |s.requests|
    ensures var s' := s.(requests := s.requests + [req], applied := s.applied + [r]);
      forall k :: IsApplied(s', k) <==> IsApplied(s, k) || k in RecordKeys(req.batch)
  {
    var s' := s.(requests := s.requests + [req], applied := s.applied + [r]);
    hide Placed, FreshKeys, RequestsAreOld, Ascending;
    assert forall i :: 0 <= i < r ==> Sent(s', i) == Sent(s, i);
    assert Sent(s', r) == RecordKeys(req.batch);
    forall k ensures IsApplied(s', k) <==> IsApplied(s, k) || k in RecordKeys(req.batch) {
      if IsApplied(s, k) {
        var i :| i in s.applied && i < |s.requests| && k in Sent(s, i);
        assert i in s'.applied && k in Sent(s', i);
      }
      if k in RecordKeys(req.batch) { assert r in s'.applied && k in Sent(s', r); }
    }
  }

  /** Dispatching single records applies `b` while `a` still waits. */
  lemma {:induction false} Hunt(c: Config, steps: seq<Step>, a: Entry, b: Entry) returns (longer: seq<Step>)
    requires c.limit == 1 && Possible(c, INITIAL, steps) && Hunting(c, After(c, INITIAL, steps), a, b)
    ensures Possible(c, INITIAL, longer)
    ensures var s, s' := After(c, INITIAL, steps), After(c, INITIAL, longer);
      s'.saved == s.saved && s'.pruned == {} && IsApplied(s', b.key) && !IsApplied(s', a.key)
    decreases |After(c, INITIAL, steps).queue|
  {
    var s := After(c, INITIAL, steps);
    RunsConserve(c, INITIAL, steps);
    OlderFirst(c, s.queue, a, b);
    SendableCanPeek(c, s);
    var keys := RecordKeys(BatchOf(s.queue, 1));
    hide Possible, After, Conserved, IsApplied, BatchOf, Sendable, SameType;
    longer := PeekAndApply(c, steps);
    if b.key !in keys {
      DispatchShrinks(c, s.queue);
      WithoutMembers(s.queue, keys, a);
      WithoutMembers(s.queue, keys, b);
      SingleThroughput();
      longer := AnswerAndDelete(c, longer);
      longer := Hunt(c, longer, a, b);
    }
  }

  lemma SingleThroughput()
    ensures Throughput(1) == 1
  {}

  lemma AnswerAndDelete(c: Config, steps: seq<Step>) returns (longer: seq<Step>)
    requires Possible(c, INITIAL, steps)
    requires var s := After(c, INITIAL, steps);
      s.phase.Sending? && s.phase.req in s.applied && s.phase.req < |s.requests|
    ensures Possible(c, INITIAL, longer)
    ensures var s, s' := After(c, INITIAL, steps), After(c, INITIAL, longer);
      && s'.queue == Without(s.queue, Sent(s, s.phase.req)) && s'.phase.Idle?
      && s'.saved == s.saved && s'.pruned == s.pruned
      && forall k :: IsApplied(s', k) <==> IsApplied(s, k)
  {
    hide Possible, After, Without;
    Extend(c, INITIAL, steps, ReplyOk);
    longer := steps + [ReplyOk];
    Extend(c, INITIAL, longer, Delete);
    longer := longer + [Delete];
    AppliedFrame(After(c, INITIAL, steps), After(c, INITIAL, longer));
  }

  lemma AppliedFrame(s: State, s': State)
    requires s'.requests == s.requests && s'.applied == s.applied
    ensures forall k :: IsApplied(s', k) <==> IsApplied(s, k)
  {
    assert forall i :: 0 <= i < |s.requests| ==> Sent(s', i) == Sent(s, i);
  }

  lemma SendableCanPeek(c: Config, s: State)
    requires s.phase.Idle? && c.limit > 0 && Sendable(c, s.queue) && BatchOf(s.queue, c.limit) != []
    ensures Enabled(c, s, Peek)
  {
    var q := s.queue;
    hide BatchOf;
    forall e | e in WindowOf(q, c.limit) ensures e in q {}
    forall r | r in BatchOf(q, c.limit) ensures c.validJson(r.payload) {
      var e := BatchFromQueue(q, c.limit, r);
    }
  }

  /** Two saves of one type whose keys go down: some run applies the later one only. */
  lemma BackwardsKeysLeaveGap(validJson: Bytes -> bool, saves: seq<Entry>, i: nat, j: nat) returns (steps: seq<Step>)
    requires DistinctKeys(saves) && Sendable(Config(1, validJson), saves)
    requires i < j < |saves| && SameType(saves[i], saves[j]) && saves[j].key < saves[i].key
    ensures Possible(Config(1, validJson), INITIAL, steps)
    ensures var s := After(Config(1, validJson), INITIAL, steps);
      s.saved == saves && s.pruned == {} && !IsApplied(s, saves[i].key) && IsApplied(s, saves[j].key)
  {
    var c := Config(1, validJson);
    steps := PutAll(c, [], saves, j + 1);
    var s := After(c, INITIAL, steps);
    RunsConserve(c, INITIAL, steps);
    AllQueued(c, s, saves, j + 1);
    assert saves[..j + 1][i] == saves[i] && saves[..j + 1][j] == saves[j];
    hide Possible, After, Conserved, Sendable, SameType, DistinctKeys;
    steps := Hunt(c, steps, saves[i], saves[j]);
    var mid := After(c, INITIAL, steps);
    steps := PutAll(c, steps, saves, |saves|);
    assert saves[..|saves|] == saves;
    AppliedFrame(mid, After(c, INITIAL, steps));
  }

  /** Nothing was dispatched yet: what was saved is queued. */
  lemma AllQueued(c: Config, s: State, saves: seq<Entry>, m: nat)
    requires Conserved(s) && s.deleted == {} && s.pruned == {} && s.applied == []
    requires m <= |saves| && s.saved == saves[..m] && Sendable(c, saves)
    ensures (forall e :: e in saves[..m] ==> e in s.queue) && Sendable(c, s.queue)
    ensures forall k :: !IsApplied(s, k)
  {
    forall e | e in s.queue ensures e in saves { assert e in saves[..m]; }
  }

  // ---------- Main result ----------

  /** For any sequence of decodable, valid saves with timestamps of their own: the applied records of
      each type are a prefix of the saved ones in all runs if and only if, within each type, the
      timestamps increase in the order of the commits. */
  lemma PrefixExactly(validJson: Bytes -> bool, saves: seq<Entry>)
    requires DistinctKeys(saves) && Sendable(Config(1, validJson), saves)
    ensures PrefixInAllRuns(validJson, saves) <==> KeysFollowSaves(saves)
  {
    if KeysFollowSaves(saves) {
      forall limit: int, steps: seq<Step> | Possible(Config(limit, validJson), INITIAL, steps)
        ensures var s := After(Config(limit, validJson), INITIAL, steps);
          s.saved == saves && s.pruned == {} ==> AppliedIsPrefix(s)
      {
        FollowingRun(Config(limit, validJson), steps, saves);
      }
    } else {
      var i, j :| 0 <= i < j < |saves| && SameType(saves[i], saves[j]) && !(saves[i].key < saves[j].key);
      var steps := BackwardsKeysLeaveGap(validJson, saves, i, j);
      GapIsNoPrefix(After(Config(1, validJson), INITIAL, steps), i, j);
    }
  }

  lemma FollowingRun(c: Config, steps: seq<Step>, saves: seq<Entry>)
    requires Possible(c, INITIAL, steps) && KeysFollowSaves(saves)
    ensures var s := After(c, INITIAL, steps);
      s.saved == saves && s.pruned == {} ==> AppliedIsPrefix(s)
  {
    var s := After(c, INITIAL, steps);
    if s.saved == saves && s.pruned == {} {
      FollowingIsInOrder(c, steps, saves);
      forall t ensures PrefixOfType(s, t) {
        var n := AppliedPrefix(c, steps, t);
        assert AppliedUpTo(s, t, n);
      }
    }
  }
}
