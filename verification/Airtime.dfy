/** Which types a batch reaches at all: the dispatcher serves types in lexicographic order, so what a
    type can count on depends on the weights of the types before it. */
module Airtime {
  import opened ByteStrings
  import opened Store
  import opened FairBatch

  // ---------- The first round ----------

  lemma TotalWeightPrefix(wt: Weights, order: seq<Bytes>, i: nat, j: nat)
    requires i <= j <= |order|
    ensures TotalWeight(wt, order[..i]) <= TotalWeight(wt, order[..j])
  {
    assert order[..j] == order[..i] + order[i..j];
    TotalWeightConcat(wt, order[..i], order[i..j]);
  }

  /** If the types before the i-th weigh no more than the limit, the i-th type gets its turn as far as
      the limit reaches. */
  lemma FirstTurn(wt: Weights, w: seq<Record>, limit: nat, i: nat)
    requires 0 < limit < |w| && i < |Sorted(Types(w))|
    requires TotalWeight(wt, Sorted(Types(w))[..i]) <= limit
    ensures var order := Sorted(Types(w));
      |OfType(Batch(wt, w, limit), order[i])| >=
      Min(Min(wt(order[i]), limit - TotalWeight(wt, order[..i])), |OfType(w, order[i])|)
  {
    hide Round, Rounds, Turn, OfType, TotalWeight, Distinct;
    var order := Sorted(Types(w));
    SortedIsDistinct(Types(w));
    EnoughRounds(wt, w, order);
    var rounds, cut, part := CutSchedule(wt, w, order, limit);
    OfTypeCut(wt, w, order, limit, rounds, cut, part, i);
    hide Sorted, Types;
    FirstTurnCut(wt, w, order, limit, rounds, cut, part, i);
  }

  lemma FirstTurnCut(wt: Weights, w: seq<Record>, order: seq<Bytes>, limit: nat,
                     rounds: nat, cut: nat, part: nat, i: nat)
    requires CutAt(wt, w, order, limit, rounds, cut, part) && i < |order|
    requires |Rounds(wt, w, order, |w|)| >= limit >= TotalWeight(wt, order[..i])
    ensures TakenAt(wt, w, order, rounds, cut, part, i) >=
            Min(Min(wt(order[i]), limit - TotalWeight(wt, order[..i])), |OfType(w, order[i])|)
  {
    hide Round, Turn, OfType, TotalWeight;
    var t := order[i];
    ServedFormula(wt, w, t, rounds);
    if rounds > 0 {
      MulMonotone(1, rounds, wt(t));
    } else {
      ServedFormula(wt, w, t, 1);
      RoundBound(wt, w, order[..cut], 0);
      RoundBound(wt, w, order[..cut + 1], 0);
      RoundSplit(wt, w, order, 0, cut);
      if cut < i { TotalWeightPrefix(wt, order, cut + 1, i); }
    }
  }

  /** While full turns of the types before the i-th use up the limit, the i-th type gets nothing. */
  lemma NoTurn(wt: Weights, w: seq<Record>, limit: nat, i: nat)
    requires 0 < limit < |w| && i < |Sorted(Types(w))|
    requires limit <= TotalWeight(wt, Sorted(Types(w))[..i])
    requires forall u :: u in Sorted(Types(w))[..i] ==> |OfType(w, u)| >= wt(u)
    ensures OfType(Batch(wt, w, limit), Sorted(Types(w))[i]) == []
  {
    hide Round, Rounds, Turn, OfType, TotalWeight, Distinct;
    var order := Sorted(Types(w));
    SortedIsDistinct(Types(w));
    hide Sorted, Types;
    var before, first := order[..i], Round(wt, w, order, 0);
    FullRound(wt, w, before);
    RoundExtend(wt, w, order, 0, i);
    OneRound(wt, w, order);
    RoundsExtend(wt, w, order, 1, |w|);
    var all, turns := Rounds(wt, w, order, |w|), Round(wt, w, before, 0);
    assert turns <= all;
    assert all[..limit] == turns[..limit] && turns == turns[..limit] + turns[limit..];
    OfTypeConcat(turns[..limit], turns[limit..], order[i]);
    DistinctPrefix(order, i, i);
    OfTypeRound(wt, w, before, 0, order[i]);
    NoTurnOf(wt, w, before, order[i]);
  }

  lemma NoTurnOf(wt: Weights, w: seq<Record>, order: seq<Bytes>, u: Bytes)
    requires u !in order
    ensures TurnOf(wt, w, order, 0, u) == []
  {}

  lemma OneRound(wt: Weights, w: seq<Record>, order: seq<Bytes>)
    ensures Rounds(wt, w, order, 1) == Round(wt, w, order, 0)
  {
    hide Round;
    assert Rounds(wt, w, order, 0) == [];
  }

  lemma {:induction false} FullRound(wt: Weights, w: seq<Record>, order: seq<Bytes>)
    requires forall u :: u in order ==> |OfType(w, u)| >= wt(u)
    ensures |Round(wt, w, order, 0)| == TotalWeight(wt, order)
  {
    if order == [] {
    } else {
      var init, last := order[..|order| - 1], order[|order| - 1];
      assert last in order;
      FullRound(wt, w, init);
      ServedFormula(wt, w, last, 1);
    }
  }

  // ---------- The engine's types in lexicographic order ----------

  /** The engine's types whose turn comes before that of `t`. */
  function Earlier(t: Bytes): set<Bytes> { set u | u in ENGINE_TYPES && Less(u, t) }

  /** How many records of other types a round may put before the first one of type `t`. */
  function Ahead(t: Bytes): nat { TotalWeight(Weight, Sorted(Earlier(t))) }

  /** What is left of the turn of `t` when the limit cuts the first round. */
  function Share(limit: int, t: Bytes): (k: nat)
    requires limit > Ahead(t)
    ensures 1 <= k <= Weight(t)
  {
    Min(Weight(t), limit - Ahead(t))
  }

  lemma {:induction false} LessAt(a: Bytes, b: Bytes, k: nat)
    requires k < |a| && k < |b| && a[k] < b[k] && forall i :: 0 <= i < k ==> a[i] == b[i]
    ensures Less(a, b)
  {
    if k == 0 {
    } else {
      assert a[0] == b[0];
      LessAt(a[1..], b[1..], k - 1);
    }
  }

  lemma EngineOrderAscends()
    ensures Less(HARDWARE_DETAILS, HOST_METRICS) && Less(HOST_METRICS, NETWORK_CONNECTIONS)
    ensures Less(NETWORK_CONNECTIONS, PROCESS_SNAPSHOT) && Less(PROCESS_SNAPSHOT, SECURITY_SNAPSHOT)
    ensures Less(SECURITY_SNAPSHOT, SERVICE_SNAPSHOT) && Less(SERVICE_SNAPSHOT, SOFTWARE_INVENTORY)
  {
    hide Less;
    LessAt(HARDWARE_DETAILS, HOST_METRICS, 1);
    LessAt(HOST_METRICS, NETWORK_CONNECTIONS, 0);
    LessAt(NETWORK_CONNECTIONS, PROCESS_SNAPSHOT, 0);
    LessAt(PROCESS_SNAPSHOT, SECURITY_SNAPSHOT, 0);
    LessAt(SECURITY_SNAPSHOT, SERVICE_SNAPSHOT, 2);
    LessAt(SERVICE_SNAPSHOT, SOFTWARE_INVENTORY, 1);
  }

  /** A strictly ascending list. */
  ghost predicate Ascends(ts: seq<Bytes>) {
    forall i, j :: 0 <= i < j < |ts| ==> Less(ts[i], ts[j])
  }

  lemma {:induction false} AscendsSnoc(ts: seq<Bytes>, t: Bytes)
    requires Ascends(ts) && (ts != [] ==> Less(ts[|ts| - 1], t))
    ensures Ascends(ts + [t])
  {
    forall i | 0 <= i < |ts| ensures Less(ts[i], t) {
      if i < |ts| - 1 { LessIsTransitive(ts[i], ts[|ts| - 1], t); }
    }
  }

  lemma EngineOrder()
    ensures Ascends(ENGINE_ORDER) && forall t :: t in ENGINE_ORDER <==> t in ENGINE_TYPES
  {
    EngineOrderAscends();
    var two := [HARDWARE_DETAILS, HOST_METRICS];
    hide Less;
    AscendsSnoc([HARDWARE_DETAILS], HOST_METRICS);
    assert [HARDWARE_DETAILS] + [HOST_METRICS] == two;
    AscendsSnoc(two, NETWORK_CONNECTIONS);
    var three := two + [NETWORK_CONNECTIONS];
    AscendsSnoc(three, PROCESS_SNAPSHOT);
    var four := three + [PROCESS_SNAPSHOT];
    AscendsSnoc(four, SECURITY_SNAPSHOT);
    var five := four + [SECURITY_SNAPSHOT];
    AscendsSnoc(five, SERVICE_SNAPSHOT);
    var six := five + [SERVICE_SNAPSHOT];
    AscendsSnoc(six, SOFTWARE_INVENTORY);
    assert six + [SOFTWARE_INVENTORY] == ENGINE_ORDER;
  }

  /** In an ascending list of engine types those before the i-th are its earlier ones. */
  lemma EarlierInList(order: seq<Bytes>, i: nat, u: Bytes)
    requires Ascends(order) && i < |order| && forall t :: t in order ==> t in ENGINE_TYPES
    ensures u in order[..i] <==> u in order && u in Earlier(order[i])
  {
    hide Less;
    if u in order {
      var j :| 0 <= j < |order| && order[j] == u;
      LessIsTotal(order[j], order[i]);
      if j < i { assert order[..i][j] == u; }
      if u in order[..i] {
        var k :| 0 <= k < i && order[..i][k] == u;
        assert order[k] == u;
      }
    }
  }

  /** What the engine's types have before them. */
  lemma AheadOfPrefix(k: nat)
    requires k < |ENGINE_ORDER|
    ensures Ahead(ENGINE_ORDER[k]) == TotalWeight(Weight, ENGINE_ORDER[..k])
  {
    EngineOrder();
    var order, t := ENGINE_ORDER, ENGINE_ORDER[k];
    var before, sorted := order[..k], Sorted(Earlier(t));
    SortedIsDistinct(Earlier(t));
    PrefixesAreDistinct(order, k);
    forall u ensures u in before <==> u in Earlier(t) { EarlierInList(order, k, u); }
    hide TotalWeight, Weight, Distinct, Sorted;
    TotalWeightMonotone(Weight, sorted, before);
    TotalWeightMonotone(Weight, before, sorted);
  }

  lemma EngineAhead()
    ensures Ahead(HARDWARE_DETAILS) == 0 && Ahead(HOST_METRICS) == 3 && Ahead(NETWORK_CONNECTIONS) == 4
    ensures Ahead(PROCESS_SNAPSHOT) == 6 && Ahead(SECURITY_SNAPSHOT) == 8 && Ahead(SERVICE_SNAPSHOT) == 11
    ensures Ahead(SOFTWARE_INVENTORY) == 13
    ensures forall t :: t in ENGINE_TYPES ==> Ahead(t) <= 13
  {
    hide Ahead, TotalWeight, Weight;
    EngineWeights();
    var o := ENGINE_ORDER;
    assert o[..1] == [] + [o[0]] && o[..2] == o[..1] + [o[1]] && o[..3] == o[..2] + [o[2]];
    assert o[..4] == o[..3] + [o[3]] && o[..5] == o[..4] + [o[4]] && o[..6] == o[..5] + [o[5]];
    NoTypes();
    TotalWeightSnoc(Weight, [], o[0]);
    TotalWeightSnoc(Weight, o[..1], o[1]);
    TotalWeightSnoc(Weight, o[..2], o[2]);
    TotalWeightSnoc(Weight, o[..3], o[3]);
    TotalWeightSnoc(Weight, o[..4], o[4]);
    TotalWeightSnoc(Weight, o[..5], o[5]);
    assert o[..0] == [];
    AheadOfPrefix(0);
    AheadOfPrefix(1);
    AheadOfPrefix(2);
    AheadOfPrefix(3);
    AheadOfPrefix(4);
    AheadOfPrefix(5);
    AheadOfPrefix(6);
  }

  // ---------- Which types a batch reaches ----------

  /** The types before `t` in a window of the engine's types, and their position. */
  lemma BeforeInWindow(types: set<Bytes>, t: Bytes) returns (i: nat)
    requires types <= ENGINE_TYPES && t in types
    ensures i < |Sorted(types)| && Sorted(types)[i] == t
    ensures forall u :: u in Sorted(types)[..i] <==> u in types && u in Earlier(t)
    ensures Distinct(Sorted(types)[..i])
  {
    SortedIsDistinct(types);
    SortedAscends(types);
    var order := Sorted(types);
    i :| 0 <= i < |order| && order[i] == t;
    PrefixesAreDistinct(order, i);
    hide Sorted, Distinct;
    forall u ensures u in order[..i] <==> u in types && u in Earlier(t) { EarlierInList(order, i, u); }
  }

  /** The types before `t` in a window weigh at most Ahead(t), and that much if all are there. */
  lemma WeightBefore(types: set<Bytes>, t: Bytes) returns (i: nat)
    requires types <= ENGINE_TYPES && t in types
    ensures i < |Sorted(types)| && Sorted(types)[i] == t
    ensures forall u :: u in Sorted(types)[..i] ==> u in Earlier(t)
    ensures TotalWeight(Weight, Sorted(types)[..i]) <= Ahead(t)
    ensures Earlier(t) <= types ==> TotalWeight(Weight, Sorted(types)[..i]) == Ahead(t)
  {
    i := BeforeInWindow(types, t);
    var before, sorted := Sorted(types)[..i], Sorted(Earlier(t));
    SortedIsDistinct(Earlier(t));
    hide Distinct, Weight, Earlier, Sorted, TotalWeight;
    TotalWeightMonotone(Weight, before, sorted);
    if Earlier(t) <= types { TotalWeightMonotone(Weight, sorted, before); }
  }

  /** With more room than the earlier types can use, a type gets its share of every window it is in. */
  lemma AirtimeShare(w: seq<Record>, limit: nat, t: Bytes)
    requires Types(w) <= ENGINE_TYPES && t in Types(w) && Ahead(t) < limit < |w|
    ensures |OfType(Batch(Weight, w, limit), t)| >= Min(Share(limit, t), |OfType(w, t)|)
  {
    hide Batch, OfType, Types, Weight, Earlier, Ahead, Sorted, TotalWeight;
    var i := WeightBefore(Types(w), t);
    FirstTurn(Weight, w, limit, i);
  }

  /** Every earlier type has a full turn's worth of records in the window. */
  ghost predicate Crowded(w: seq<Record>, t: Bytes) {
    forall u :: u in Earlier(t) ==> |OfType(w, u)| >= Weight(u)
  }

  lemma CrowdedTypes(w: seq<Record>, t: Bytes)
    requires Crowded(w, t)
    ensures Earlier(t) <= Types(w)
  {
    forall u | u in Earlier(t) ensures u in Types(w) {
      if u !in Types(w) { OfAbsentType(w, u); }
    }
  }

  /** With no more room than that, a window crowded by the earlier types leaves the type out. */
  lemma NoAirtime(w: seq<Record>, limit: nat, t: Bytes)
    requires Types(w) <= ENGINE_TYPES && t in Types(w) && Crowded(w, t)
    requires 0 < limit <= Ahead(t) && limit < |w|
    ensures OfType(Batch(Weight, w, limit), t) == []
  {
    hide Batch, OfType, Types, Weight, Earlier, Ahead, Sorted, TotalWeight;
    CrowdedTypes(w, t);
    var i := WeightBefore(Types(w), t);
    NoTurn(Weight, w, limit, i);
  }

  /** Whatever the window holds, a type that is in it is in the batch. */
  ghost predicate GetsAirtime(t: Bytes, limit: nat) {
    forall w: seq<Record> :: EngineWindow(w, limit) && t in Types(w) ==> OfType(Batch(Weight, w, limit), t) != []
  }

  /** The promise in the comment on peekFairBatch: each type gets airtime. */
  ghost predicate EveryTypeGetsAirtime(limit: nat) {
    forall t :: t in ENGINE_TYPES ==> GetsAirtime(t, limit)
  }

  /** Exactly when a type is served from every window it is in. */
  lemma AirtimeExactly(t: Bytes, limit: nat)
    requires t in ENGINE_TYPES && limit > 0
    ensures GetsAirtime(t, limit) <==> limit > Ahead(t)
  {
    if limit > Ahead(t) {
      forall w: seq<Record> | EngineWindow(w, limit) && t in Types(w)
        ensures OfType(Batch(Weight, w, limit), t) != []
      {
        AirtimeShare(w, limit, t);
        if OfType(w, t) == [] { PresentType(w, t); }
      }
    } else {
      var w := CrowdedWindow(t);
      NoAirtime(w, limit, t);
      assert EngineWindow(w, limit);
    }
  }

  lemma PresentType(w: seq<Record>, t: Bytes)
    requires t in Types(w)
    ensures OfType(w, t) != []
  {
    var r :| r in w && r.dataType == t;
    OfTypeMembers(w, t, r);
  }

  /** One record of `t`, and one full turn of every earlier type. */
  function CrowdedRound(t: Bytes): seq<Record> {
    [Record(0, t, [])] + OneTurnEach(Weight, Sorted(Earlier(t)))
  }

  lemma CrowdedRoundCounts(t: Bytes, u: Bytes)
    ensures |CrowdedRound(t)| == Ahead(t) + 1
    ensures |OfType(CrowdedRound(t), u)| == (if u in Earlier(t) then Weight(u) else 0) + if u == t then 1 else 0
  {
    var order := Sorted(Earlier(t));
    SortedIsDistinct(Earlier(t));
    OneTurnCounts(Weight, order, u);
    OfTypeConcat([Record(0, t, [])], OneTurnEach(Weight, order), u);
    assert [Record(0, t, [])][1..] == [];
  }

  lemma CrowdedWindow(t: Bytes) returns (w: seq<Record>)
    requires t in ENGINE_TYPES
    ensures |w| == Ahead(t) + 1 <= 14 && Ordered(w) && t in Types(w) && Types(w) <= ENGINE_TYPES && Crowded(w, t)
  {
    hide Ordered, Numbered, Weight, Ahead, OfType, CrowdedRound;
    EngineAhead();
    CrowdedRoundCounts(t, t);
    NumberedKeeps(CrowdedRound(t), t);
    w := Numbered(CrowdedRound(t));
    forall u ensures |OfType(w, u)| == (if u in Earlier(t) then Weight(u) else 0) + if u == t then 1 else 0 {
      CrowdedRoundCounts(t, u);
      NumberedKeeps(CrowdedRound(t), u);
    }
    if t !in Types(w) { OfAbsentType(w, t); }
    forall u | u in Types(w) ensures u in ENGINE_TYPES { PresentType(w, u); }
  }

  /** The comment's promise holds for exactly the limits from 14 on: not for the default of 10. */
  lemma AirtimeNeedsFourteen(limit: nat)
    requires limit > 0
    ensures EveryTypeGetsAirtime(limit) <==> limit >= 14
  {
    hide GetsAirtime, Ahead;
    EngineAhead();
    forall t | t in ENGINE_TYPES ensures GetsAirtime(t, limit) <==> limit > Ahead(t) {
      AirtimeExactly(t, limit);
    }
    assert SOFTWARE_INVENTORY in ENGINE_TYPES;
  }
}
