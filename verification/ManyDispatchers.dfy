/** Several dispatchers on one buffer, as two engines running side by side bring about: each takes the
    pipeline's steps on the shared state, in a phase of its own. */
module ManyDispatchers {
  import opened ByteStrings
  import opened RecordCodec
  import opened Store
  import opened FairBatch
  import opened Airtime
  import opened Dispatcher
  import opened Pipeline
  import opened Conservation
  import opened DeliveryOrder
  import opened Starvation

  /** What they share, and the phases of those that are not idle. The phase in `shared` is unused. */
  datatype Many = Many(shared: State, phases: map<nat, Phase>)

  const NOBODY := Many(INITIAL, map[])

  /** A step, and the dispatcher that takes it; which one does not matter for saves, prunes and
      applications. */
  datatype Move = Move(who: nat, step: Step)

  function PhaseOf(m: Many, d: nat): Phase { if d in m.phases then m.phases[d] else Idle }

  /** The pipeline as dispatcher `d` sees it. */
  function Seen(m: Many, d: nat): State { m.shared.(phase := PhaseOf(m, d)) }

  ghost predicate Allowed(c: Config, m: Many, move: Move) { Enabled(c, Seen(m, move.who), move.step) }

  ghost function Make(c: Config, m: Many, move: Move): Many
    requires Allowed(c, m, move)
  {
    var s := Do(c, Seen(m, move.who), move.step);
    Many(s.(phase := Idle), m.phases[move.who := s.phase])
  }

  ghost predicate CanRun(c: Config, moves: seq<Move>)
    decreases |moves|, 0
  {
    moves == [] ||
    (var n := |moves| - 1; CanRun(c, moves[..n]) && Allowed(c, Ran(c, moves[..n]), moves[n]))
  }

  ghost function Ran(c: Config, moves: seq<Move>): Many
    requires CanRun(c, moves)
    decreases |moves|, 1
  {
    if moves == [] then NOBODY else Make(c, Ran(c, moves[..|moves| - 1]), moves[|moves| - 1])
  }

  // ---------- What any number of dispatchers keeps ----------

  ghost predicate AllConserved(m: Many) { forall d :: Conserved(Seen(m, d)) }

  /** What one dispatcher does leaves the phases of the others in order. */
  lemma OthersStay(c: Config, s: State, other: Phase, step: Step)
    requires Conserved(s) && Conserved(s.(phase := other)) && Enabled(c, s, step)
    requires Conserved(Do(c, s, step))
    ensures Conserved(Do(c, s, step).(phase := other))
  {
    var s' := Do(c, s, step);
    var t := s'.(phase := other);
    hide Insert, Without, BatchOf, WindowOf, Ascending;
    assert forall r :: 0 <= r < |s'.requests| ==> Sent(t, r) == Sent(s', r);
    assert forall r :: r in s.answered ==> r in s'.answered;
    assert |s'.requests| >= |s.requests|;
  }

  lemma MoveConserves(c: Config, m: Many, move: Move)
    requires AllConserved(m) && Allowed(c, m, move)
    ensures AllConserved(Make(c, m, move))
  {
    var s, m' := Seen(m, move.who), Make(c, m, move);
    hide Conserved, Enabled, Do;
    StepConserves(c, s, move.step);
    forall d ensures Conserved(Seen(m', d)) {
      var s' := Do(c, s, move.step);
      if d == move.who {
        assert Seen(m', d) == s';
      } else {
        assert Seen(m, d) == s.(phase := PhaseOf(m, d));
        OthersStay(c, s, PhaseOf(m, d), move.step);
        assert Seen(m', d) == s'.(phase := PhaseOf(m, d));
      }
    }
  }

  /** Conservation holds however many dispatchers there are. */
  lemma {:induction false} ManyConserve(c: Config, moves: seq<Move>)
    requires CanRun(c, moves)
    ensures AllConserved(Ran(c, moves))
  {
    if moves == [] {
      NobodyConserves();
    } else {
      ManyConserve(c, moves[..|moves| - 1]);
      MoveConserves(c, Ran(c, moves[..|moves| - 1]), moves[|moves| - 1]);
    }
  }

  lemma NobodyConserves()
    ensures AllConserved(NOBODY)
  {
    forall d ensures Conserved(Seen(NOBODY, d)) { assert Seen(NOBODY, d) == INITIAL; }
  }

  /** And so does delivery at least once. */
  lemma ManyDeliverAtLeastOnce(c: Config, moves: seq<Move>, e: Entry) returns (r: nat)
    requires CanRun(c, moves) && e in Ran(c, moves).shared.saved
    requires e !in Ran(c, moves).shared.queue && e.key !in Ran(c, moves).shared.pruned
    ensures var s := Ran(c, moves).shared;
      r in s.answered && r in s.applied && r < |s.requests| && e.key in Sent(s, r)
  {
    ManyConserve(c, moves);
    var s := Ran(c, moves).shared;
    r := DeletedWasSent(Seen(Ran(c, moves), 0), e);
    assert Sent(s, r) == Sent(Seen(Ran(c, moves), 0), r);
  }

  lemma DeletedWasSent(s: State, e: Entry) returns (r: nat)
    requires Conserved(s) && e in s.saved && e !in s.queue && e.key !in s.pruned
    ensures r in s.answered && r in s.applied && r < |s.requests| && e.key in Sent(s, r)
  {
    r :| r in s.answered && r < |s.requests| && e.key in Sent(s, r);
  }

  // ---------- Order ----------

  ghost predicate MovesInOrder(c: Config, moves: seq<Move>)
    requires CanRun(c, moves)
    decreases |moves|
  {
    moves == [] ||
    (var n := |moves| - 1; MovesInOrder(c, moves[..n]) && InOrder(Ran(c, moves[..n]).shared, moves[n].step))
  }

  lemma ClosedAnyPhase(s: State, phase: Phase)
    requires AllClosed(s)
    ensures AllClosed(s.(phase := phase))
  {
    var t := s.(phase := phase);
    assert forall r :: 0 <= r < |s.requests| ==> Sent(t, r) == Sent(s, r);
    forall k ensures IsApplied(t, k) <==> IsApplied(s, k) {}
    forall r | 0 <= r < |t.requests| ensures Closed(t, r) { assert Closed(s, r); }
  }

  lemma MoveKeepsClosed(c: Config, m: Many, move: Move)
    requires AllConserved(m) && AllClosed(m.shared) && Allowed(c, m, move) && InOrder(m.shared, move.step)
    ensures AllClosed(Make(c, m, move).shared)
  {
    hide Conserved, Enabled, Do, Closed;
    var s := Seen(m, move.who);
    ClosedAnyPhase(m.shared, s.phase);
    var s' := Do(c, s, move.step);
    forall r | 0 <= r < |s'.requests| ensures Closed(s', r) { StepKeepsClosed(c, s, move.step, r); }
    ClosedAnyPhase(s', Idle);
  }

  lemma {:induction false} ManyKeepOrder(c: Config, moves: seq<Move>, t: Bytes)
    requires CanRun(c, moves) && MovesInOrder(c, moves)
    ensures AllClosed(Ran(c, moves).shared) && Ordered(SavedOfType(Ran(c, moves).shared, t))
  {
    if moves == [] {
    } else {
      var before, move := moves[..|moves| - 1], moves[|moves| - 1];
      var m := Ran(c, before);
      ManyConserve(c, before);
      ManyKeepOrder(c, before, t);
      hide AllClosed, AllConserved, Ordered, Enabled, Do;
      MoveKeepsClosed(c, m, move);
      StepKeepsOrder(c, Seen(m, move.who), move.step, t);
    }
  }

  /** The applied records of each type stay a prefix of the saved ones, however many dispatchers there
      are. */
  lemma ManyApplyPrefix(c: Config, moves: seq<Move>, t: Bytes) returns (n: nat)
    requires CanRun(c, moves) && MovesInOrder(c, moves) && Ran(c, moves).shared.pruned == {}
    ensures var s := Ran(c, moves).shared;
      n <= |SavedOfType(s, t)| &&
      forall i :: 0 <= i < |SavedOfType(s, t)| ==> (IsApplied(s, SavedOfType(s, t)[i].key) <==> i < n)
  {
    ManyConserve(c, moves);
    ManyKeepOrder(c, moves, t);
    var s, seen := Ran(c, moves).shared, Seen(Ran(c, moves), 0);
    hide AllClosed, Ordered, IsApplied;
    ClosedAnyPhase(s, seen.phase);
    n := ClosedIsPrefix(seen, t);
    SeenApplied(s, seen.phase);
  }

  lemma SeenApplied(s: State, phase: Phase)
    ensures forall k :: IsApplied(s.(phase := phase), k) <==> IsApplied(s, k)
  {
    var t := s.(phase := phase);
    assert forall r :: 0 <= r < |s.requests| ==> Sent(t, r) == Sent(s, r);
  }

  // ---------- The starvation bound needs a single dispatcher ----------

  lemma ExtendMoves(c: Config, moves: seq<Move>, move: Move)
    requires CanRun(c, moves) && Allowed(c, Ran(c, moves), move)
    ensures CanRun(c, moves + [move]) && Ran(c, moves + [move]) == Make(c, Ran(c, moves), move)
  {
    assert (moves + [move])[..|moves|] == moves;
  }

  lemma PutMove(c: Config, moves: seq<Move>, e: Entry)
    requires CanRun(c, moves) && Ran(c, moves).shared.phase == Idle
    requires forall d :: PhaseOf(Ran(c, moves), d) == Idle
    requires Ran(c, moves).shared.saved == Ran(c, moves).shared.queue
    requires forall f :: f in Ran(c, moves).shared.queue ==> f.key < e.key
    ensures CanRun(c, moves + [Move(0, Put(e))])
    ensures var s, m := Ran(c, moves).shared, Ran(c, moves + [Move(0, Put(e))]);
      m.shared == s.(queue := s.queue + [e], saved := s.saved + [e]) && forall d :: PhaseOf(m, d) == Idle
  {
    hide CanRun, Ran, Insert;
    InsertNewest(Ran(c, moves).shared.queue, e);
    ExtendMoves(c, moves, Move(0, Put(e)));
    forall d ensures PhaseOf(Ran(c, moves + [Move(0, Put(e))]), d) == Idle {
      assert PhaseOf(Ran(c, moves), d) == Idle;
    }
  }

  /** Two records of one type are saved. */
  lemma TwoSaved(c: Config, a: Entry, x: Entry) returns (moves: seq<Move>)
    requires a.key < x.key
    ensures CanRun(c, moves) && Ran(c, moves).shared == INITIAL.(queue := [a, x], saved := [a, x])
    ensures forall d :: PhaseOf(Ran(c, moves), d) == Idle
  {
    hide CanRun, Ran;
    StartOfMoves(c);
    PutMove(c, [], a);
    moves := [] + [Move(0, Put(a))];
    assert [] + [a] == [a] && [a] + [x] == [a, x];
    PutMove(c, moves, x);
    moves := moves + [Move(0, Put(x))];
  }

  lemma StartOfMoves(c: Config)
    ensures CanRun(c, []) && Ran(c, []) == NOBODY
  {}

  /** Both have posted the same record, and both have the answer. */
  ghost predicate BothAcked(m: Many, a: Entry, x: Entry, r: Record) {
    && m.shared.queue == [a, x] && m.shared.successes == 0
    && PhaseOf(m, 0) == Acked(0) && PhaseOf(m, 1) == Acked(1)
    && |m.shared.requests| == 2 && m.shared.requests[0].batch == m.shared.requests[1].batch == [r]
  }

  ghost predicate BothSending(m: Many, a: Entry, x: Entry, r: Record) {
    && m.shared.queue == [a, x] && m.shared.successes == 0 && m.shared.applied == []
    && PhaseOf(m, 0) == Sending(0) && PhaseOf(m, 1) == Sending(1)
    && |m.shared.requests| == 2 && m.shared.requests[0].batch == m.shared.requests[1].batch == [r]
  }

  lemma BothPostTheSame(c: Config, start: seq<Move>, a: Entry, x: Entry, r: Record) returns (moves: seq<Move>)
    requires CanRun(c, start) && c.limit == 1 && c.validJson(r.payload)
    requires Ran(c, start).shared == INITIAL.(queue := [a, x], saved := [a, x])
    requires PhaseOf(Ran(c, start), 0) == Idle && PhaseOf(Ran(c, start), 1) == Idle
    requires Readable(WindowOf([a, x], 1)) && BatchOf([a, x], 1) == [r]
    ensures CanRun(c, moves) && start <= moves && BothSending(Ran(c, moves), a, x, r)
  {
    hide CanRun, Ran, Readable, WindowOf, BatchOf;
    ExtendMoves(c, start, Move(0, Peek));
    moves := start + [Move(0, Peek)];
    ExtendMoves(c, moves, Move(1, Peek));
    moves := moves + [Move(1, Peek)];
  }

  lemma BothAnswered(c: Config, start: seq<Move>, a: Entry, x: Entry, r: Record) returns (moves: seq<Move>)
    requires CanRun(c, start) && BothSending(Ran(c, start), a, x, r)
    ensures CanRun(c, moves) && start <= moves && BothAcked(Ran(c, moves), a, x, r)
  {
    hide CanRun, Ran, Readable, WindowOf, BatchOf, Without, Insert, Sent;
    ExtendMoves(c, start, Move(0, Apply(0)));
    moves := start + [Move(0, Apply(0))];
    ExtendMoves(c, moves, Move(0, ReplyOk));
    moves := moves + [Move(0, ReplyOk)];
    ExtendMoves(c, moves, Move(1, Apply(1)));
    moves := moves + [Move(1, Apply(1))];
    ExtendMoves(c, moves, Move(1, ReplyOk));
    moves := moves + [Move(1, ReplyOk)];
  }

  /** Both delete it: two successes, and the other record is still there. */
  lemma BothDelete(c: Config, start: seq<Move>, a: Entry, x: Entry, r: Record) returns (moves: seq<Move>)
    requires CanRun(c, start) && a.key < x.key && r.key == a.key && BothAcked(Ran(c, start), a, x, r)
    ensures CanRun(c, moves) && start <= moves
    ensures Ran(c, moves).shared.queue == [x] && Ran(c, moves).shared.successes == 2
  {
    OnlyFirstGoes(a, x, r);
    hide CanRun, Ran, Without, RecordKeys, Keys, BatchOf, WindowOf, Readable, Insert;
    ExtendMoves(c, start, Move(0, Delete));
    moves := start + [Move(0, Delete)];
    ExtendMoves(c, moves, Move(1, Delete));
    moves := moves + [Move(1, Delete)];
  }

  lemma OnlyFirstGoes(a: Entry, x: Entry, r: Record)
    requires a.key < x.key && r.key == a.key
    ensures RecordKeys([r]) == {a.key} && Without([a, x], {a.key}) == [x] && Without([x], {a.key}) == [x]
  {
    assert [a, x][1..] == [x] && [x][1..] == [];
    assert Without([], {a.key}) == [];
    assert Without([x], {a.key}) == [x] + Without([], {a.key});
    assert r in [r];
  }

  /** The bound of StarvationFreedom fails for two dispatchers: both delete the same batch, which
      counts as two successful dispatches, and the record that should be gone by then is not. */
  lemma StaleDeletesCount(payload: Bytes, validJson: Bytes -> bool)
    returns (start: seq<Move>, moves: seq<Move>, a: Entry, x: Entry)
    requires validJson(payload)
    ensures var c := Config(1, validJson);
      && CanRun(c, start) && CanRun(c, moves) && start <= moves
      && Ran(c, start).shared.queue == [a, x] && EngineData(c, [a, x]) && TypeOf(x) == HARDWARE_DETAILS
      && (forall d :: PhaseOf(Ran(c, start), d) == Idle) && c.limit > Ahead(TypeOf(x))
      && Ran(c, moves).shared.successes - Ran(c, start).shared.successes >=
         Bound(c.limit, Share(c.limit, TypeOf(x)), 1, |OfType(Records([a]), TypeOf(x))|)
      && x in Ran(c, moves).shared.queue
  {
    var c, t := Config(1, validJson), HARDWARE_DETAILS;
    NamesDiffer();
    DecodeEncode(t, payload);
    a, x := Entry(1, EncodeValue(t, payload)), Entry(2, EncodeValue(t, payload));
    OneOfTwo(x, a, t, payload);
    BoundIsTwo(a, t, payload);
    assert EngineData(c, [a, x]);
    hide DecodeValue, EncodeValue, BatchOf, WindowOf, Readable, Bound, Share, Ahead, OfType, Records, EngineData;
    start := TwoSaved(c, a, x);
    moves := BothPostTheSame(c, start, a, x, Record(1, t, payload));
    moves := BothAnswered(c, moves, a, x, Record(1, t, payload));
    moves := BothDelete(c, moves, a, x, Record(1, t, payload));
  }

  lemma OneOfType(a: Entry, t: Bytes, payload: Bytes)
    requires DecodeValue(a.value) == Value(t, payload)
    ensures |OfType(Records([a]), t)| == 1
  {
    hide DecodeValue;
    OfTypeSingle(a, t);
    assert [a][1..] == [] && Records([a]) == RecordOf(a);
  }

  lemma OneTurnOfOne(t: Bytes)
    requires Ahead(t) == 0
    ensures Bound(1, Share(1, t), 1, 1) == 2
  {
    hide Ahead, Weight;
  }

  lemma BoundIsTwo(a: Entry, t: Bytes, payload: Bytes)
    requires t == HARDWARE_DETAILS && DecodeValue(a.value) == Value(t, payload)
    ensures 1 > Ahead(t) && Bound(1, Share(1, t), 1, |OfType(Records([a]), t)|) == 2
  {
    OneOfType(a, t, payload);
    EngineAhead();
    hide Ahead, DecodeValue, OfType, Records;
    OneTurnOfOne(t);
  }
}
