/** The agent's data path as interleaved atomic steps: collectors saving, the size policy pruning,
    one dispatcher, the network and the backend. */
module Pipeline {
  import opened ByteStrings
  import opened Store
  import opened Buffer
  import opened Dispatcher

  datatype Config = Config(limit: int, validJson: Bytes -> bool)

  /** One posted batch, and how many records had been saved when it was read. */
  datatype Request = Request(batch: seq<Record>, savedBefore: nat)

  datatype Phase = Idle | Sending(req: nat) | Acked(req: nat)

  datatype State = State(
    queue: seq<Entry>,
    phase: Phase,
    saved: seq<Entry>,        // history: every committed Save, in commit order
    requests: seq<Request>,   // history: every request the dispatcher ever posted
    applied: seq<nat>,        // history: the requests the backend applied, in that order
    answered: set<nat>,       // history: the requests answered 200
    deleted: set<Key>,      // history: keys removed by DeleteBatch
    pruned: set<Key>,       // history: keys removed by the size policy
    successes: nat            // history: completed dispatches
  )

  const INITIAL := State([], Idle, [], [], [], {}, {}, {}, 0)

  datatype Step =
    | Put(e: Entry)      // the transaction of a Save commits
    | PruneChunk         // one chunk of the size policy, after any Save or DeleteBatch
    | Peek               // the dispatcher reads a batch and starts to post it
    | Apply(req: nat)    // the backend applies a request: perhaps late, perhaps again
    | ReplyOk            // the dispatcher sees 200
    | ReplyFail          // timeout, transport error or another status
    | Delete             // the transaction of DeleteBatch commits
    | DeleteFails        // it does not

  ghost predicate Enabled(c: Config, s: State, step: Step) {
    match step
    case Put(e) => forall f :: f in s.saved ==> f.key != e.key
    case PruneChunk => true
    case Peek =>
      && s.phase.Idle? && c.limit > 0 && Readable(WindowOf(s.queue, c.limit))
      && BatchOf(s.queue, c.limit) != [] && AllValid(c.validJson, BatchOf(s.queue, c.limit))
    case Apply(req) => req < |s.requests|
    case ReplyOk => s.phase.Sending? && s.phase.req in s.applied
    case ReplyFail => s.phase.Sending?
    case Delete => s.phase.Acked? && s.phase.req < |s.requests|
    case DeleteFails => s.phase.Acked?
  }

  function Sent(s: State, req: nat): set<Key>
    requires req < |s.requests|
  {
    RecordKeys(s.requests[req].batch)
  }

  ghost function Do(c: Config, s: State, step: Step): State
    requires Enabled(c, s, step)
  {
    match step
    case Put(e) => s.(queue := Insert(s.queue, e), saved := s.saved + [e])
    case PruneChunk =>
      s.(queue := Drop(s.queue, PRUNE_CHUNK_SIZE), pruned := s.pruned + Keys(Take(s.queue, PRUNE_CHUNK_SIZE)))
    case Peek =>
      s.(phase := Sending(|s.requests|),
         requests := s.requests + [Request(BatchOf(s.queue, c.limit), |s.saved|)])
    case Apply(req) => s.(applied := s.applied + [req])
    case ReplyOk => s.(phase := Acked(s.phase.req), answered := s.answered + {s.phase.req})
    case ReplyFail => s.(phase := Idle)
    case Delete =>
      s.(phase := Idle, queue := Without(s.queue, Sent(s, s.phase.req)),
         deleted := s.deleted + (Sent(s, s.phase.req) * Keys(s.queue)), successes := s.successes + 1)
    case DeleteFails => s.(phase := Idle)
  }

  // ---------- Runs ----------

  /** The steps can be taken one after the other from `s`. */
  ghost predicate Possible(c: Config, s: State, steps: seq<Step>)
    decreases |steps|, 0
  {
    steps == [] ||
    (var n := |steps| - 1;
     Possible(c, s, steps[..n]) && Enabled(c, After(c, s, steps[..n]), steps[n]))
  }

  ghost function After(c: Config, s: State, steps: seq<Step>): State
    requires Possible(c, s, steps)
    decreases |steps|, 1
  {
    if steps == [] then s
    else Do(c, After(c, s, steps[..|steps| - 1]), steps[|steps| - 1])
  }

  lemma Extend(c: Config, s: State, steps: seq<Step>, step: Step)
    requires Possible(c, s, steps) && Enabled(c, After(c, s, steps), step)
    ensures Possible(c, s, steps + [step])
    ensures After(c, s, steps + [step]) == Do(c, After(c, s, steps), step)
  {
    assert (steps + [step])[..|steps|] == steps;
  }

  lemma {:induction false} Append(c: Config, s: State, a: seq<Step>, b: seq<Step>)
    requires Possible(c, s, a) && Possible(c, After(c, s, a), b)
    ensures Possible(c, s, a + b) && After(c, s, a + b) == After(c, After(c, s, a), b)
  {
    hide Enabled, Do;
    if b == [] {
      assert a + b == a;
    } else {
      var init, last := b[..|b| - 1], b[|b| - 1];
      Append(c, s, a, init);
      Extend(c, s, a + init, last);
      assert a + b == (a + init) + [last];
    }
  }
}
