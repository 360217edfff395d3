/** The buffer and the dispatcher take only steps of the pipeline, also when saves come in the middle
    of a dispatch: what holds of every run holds of them. */
module Refinement {
  import opened ByteStrings
  import opened RecordCodec
  import opened Store
  import opened Buffer
  import opened Options
  import opened Dispatcher
  import opened Pipeline

  /** Only the queue and the pruned keys differ. */
  ghost predicate OnlyPruned(s: State, s': State) {
    s' == s.(queue := s'.queue, pruned := s'.pruned)
  }

  ghost predicate AllChunks(steps: seq<Step>) { forall step :: step in steps ==> step.PruneChunk? }

  lemma {:induction false} PruneRefines(c: Config, s: State, target: int, env: Env, k: nat, t: nat)
    returns (steps: seq<Step>)
    ensures Possible(c, s, steps) && OnlyPruned(s, After(c, s, steps)) && AllChunks(steps)
    ensures After(c, s, steps).queue == Prune(s.queue, target, env, k, t).0
    decreases |s.queue|
  {
    steps := [];
    if env.stat(k).Size? && env.stat(k).bytes > target && env.commits(t) && s.queue != [] {
      Extend(c, s, [], PruneChunk);
      var s1 := Do(c, s, PruneChunk);
      var rest := PruneRefines(c, s1, target, env, k + 1, t + 1);
      Append(c, s, [PruneChunk], rest);
      assert [] + [PruneChunk] == [PruneChunk];
      steps := [PruneChunk] + rest;
    }
  }

  /** The size policy is a number of chunk steps. */
  lemma PolicyRefines(c: Config, s: State, max: int, env: Env, t: nat) returns (steps: seq<Step>)
    ensures Possible(c, s, steps) && OnlyPruned(s, After(c, s, steps)) && AllChunks(steps)
    ensures After(c, s, steps).queue == EnforceSizePolicy(s.queue, max, env, t).0
  {
    steps := [];
    if max > 0 && env.stat(0).Size? && env.stat(0).bytes > max {
      steps := PruneRefines(c, s, PruneTarget(max), env, 1, t);
    }
  }

  /** The rest of a dispatch after its peek, up to the pruning. */
  ghost function Rest(req: nat, applied: bool, reply: Reply, commits: bool): seq<Step> {
    (if applied then [Apply(req)] else []) +
    if reply != Status(200) then [ReplyFail] else [ReplyOk, if commits then Delete else DeleteFails]
  }

  lemma RestRefines(c: Config, steps: seq<Step>, applied: bool, reply: Reply, commits: bool)
    requires Possible(c, INITIAL, steps) && (reply == Status(200) ==> applied)
    requires var s := After(c, INITIAL, steps); s.phase.Sending? && s.phase.req < |s.requests|
    ensures var s := After(c, INITIAL, steps);
      var rest := Rest(s.phase.req, applied, reply, commits);
      && Possible(c, INITIAL, steps + rest)
      && var s' := After(c, INITIAL, steps + rest); var cleared := reply == Status(200) && commits;
         && s'.phase.Idle? && s'.saved == s.saved
         && s'.queue == (if cleared then Without(s.queue, Sent(s, s.phase.req)) else s.queue)
         && s'.successes == s.successes + if cleared then 1 else 0
  {
    hide Possible, After, Without;
    var s, all := After(c, INITIAL, steps), steps;
    if applied {
      Extend(c, INITIAL, all, Apply(s.phase.req));
      all := all + [Apply(s.phase.req)];
    }
    if reply != Status(200) {
      Extend(c, INITIAL, all, ReplyFail);
      all := all + [ReplyFail];
    } else {
      var last := if commits then Delete else DeleteFails;
      Extend(c, INITIAL, all, ReplyOk);
      Extend(c, INITIAL, all + [ReplyOk], last);
      all := all + [ReplyOk] + [last];
    }
    assert all == steps + Rest(s.phase.req, applied, reply, commits);
  }

  /** One dispatcher on one buffer, and the run of the pipeline that the calls amount to. Saves may
      come while a batch is on its way. */
  class Agent {
    const buffer: DataBuffer
    const dispatcher: DataDispatcher
    const validJson: Bytes -> bool
    var onItsWay: Option<seq<Record>>
    ghost var steps: seq<Step>

    ghost function Setup(): Config { Config(dispatcher.batchLimit, validJson) }

    ghost predicate Valid()
      reads this, buffer
    {
      && buffer.Valid() && buffer.hasDb && dispatcher.buffer == buffer
      && Possible(Setup(), INITIAL, steps)
      && After(Setup(), INITIAL, steps).queue == buffer.Queue()
      && OnItsWay(After(Setup(), INITIAL, steps), onItsWay)
    }

    /** The state the pipeline's run has reached. */
    ghost function Now(): State
      reads this, buffer
      requires Valid()
    {
      After(Setup(), INITIAL, steps)
    }

    constructor (max: int, limit: int, validJson: Bytes -> bool)
      ensures Valid() && Now() == INITIAL && onItsWay == None && fresh(buffer)
    {
      var b := new DataBuffer(max);
      var d := new DataDispatcher(b, limit);
      this.buffer, this.dispatcher, this.validJson := b, d, validJson;
      onItsWay, steps := None, [];
    }

    /** A committed save under a new timestamp is a Put followed by the chunks that the size policy
        removes. */
    method Save(dataType: Bytes, payload: Bytes, now: uint64, env: Env) returns (r: Outcome, ghost chunks: seq<Step>)
      requires Valid()
      requires forall f :: f in Now().saved ==> f.key != now
      modifies this`steps, buffer`bucket, buffer`readers
      ensures Valid() && AllChunks(chunks) && Now().phase == old(Now().phase)
      ensures steps == old(steps) + if 0 < |dataType| <= MAX_NAME && env.commits(0)
                                    then [Put(Entry(now, EncodeValue(dataType, payload)))] + chunks else []
      ensures 0 < |dataType| <= MAX_NAME && env.commits(0) ==>
                Now().saved == old(Now().saved) + [Entry(now, EncodeValue(dataType, payload))]
    {
      hide Possible, After, Insert, EnforceSizePolicy, EntriesOf, TimeKeys, EncodeValue;
      ghost var s := Now();
      r := buffer.Save(dataType, payload, now, env);
      chunks := [];
      if 0 < |dataType| <= MAX_NAME && env.commits(0) {
        ghost var e := Entry(now, EncodeValue(dataType, payload));
        Extend(Setup(), INITIAL, steps, Put(e));
        chunks := PolicyRefines(Setup(), Do(Setup(), s, Put(e)), buffer.maxDBSizeBytes, env, 1);
        Append(Setup(), INITIAL, steps + [Put(e)], chunks);
        assert steps + [Put(e)] + chunks == steps + ([Put(e)] + chunks);
        steps := steps + [Put(e)] + chunks;
      }
    }

    /** The first half of a tick is a Peek, or nothing. */
    method Post() returns (p: Picked)
      requires Valid() && onItsWay == None
      modifies this`steps, this`onItsWay, buffer`readers
      ensures Valid() && steps == old(steps) + if p.ToPost? then [Peek] else []
      ensures onItsWay == if p.ToPost? then Some(p.batch) else None
      ensures Now().saved == old(Now().saved)
      ensures p.ToPost? ==> Now().phase == Sending(|old(Now().requests)|)
    {
      hide Possible, After, EntriesOf, TimeKeys, Readable, BatchOf;
      p := dispatcher.Pick(validJson);
      if p.ToPost? {
        Extend(Setup(), INITIAL, steps, Peek);
        steps, onItsWay := steps + [Peek], Some(p.batch);
      }
    }

    /** The second half: the backend has applied the request or not, the answer comes, and 200 deletes
        what was posted. The backend answers 200 only what it applied. */
    method Finish(reply: Reply, applied: bool, env: Env) returns (d: Dispatched, ghost chunks: seq<Step>)
      requires Valid() && onItsWay != None
      requires reply == Status(200) ==> applied
      modifies this`steps, this`onItsWay, buffer`bucket, buffer`readers
      ensures Valid() && onItsWay == None && AllChunks(chunks)
      ensures steps == old(steps) + (Rest(old(Now().phase.req), applied, reply, env.commits(0)) + chunks)
      ensures !(reply == Status(200) && env.commits(0)) ==> chunks == []
      ensures Now().saved == old(Now().saved)
      ensures Now().successes == old(Now().successes) + if reply == Status(200) && env.commits(0) then 1 else 0
      ensures !(reply == Status(200) && env.commits(0)) ==> Now().queue == old(Now().queue)
    {
      hide Possible, After, EnforceSizePolicy, EntriesOf, TimeKeys, Without, Rest;
      ghost var c, req := Setup(), Now().phase.req;
      RestRefines(c, steps, applied, reply, env.commits(0));
      d := dispatcher.Settle(onItsWay.value, reply, env);
      ghost var answered := steps + Rest(req, applied, reply, env.commits(0));
      onItsWay, chunks := None, [];
      if reply == Status(200) && env.commits(0) {
        chunks := PolicyRefines(c, After(c, INITIAL, answered), buffer.maxDBSizeBytes, env, 1);
        Append(c, INITIAL, answered, chunks);
      } else {
        assert answered + chunks == answered;
      }
      assert answered + chunks == steps + (Rest(req, applied, reply, env.commits(0)) + chunks);
      steps := answered + chunks;
    }

    /** A save between the two halves of a tick: the run is a peek, then the put and its pruning, then
        the rest of the dispatch and its pruning. */
    method SaveDuringDispatch(dataType: Bytes, payload: Bytes, now: uint64, reply: Reply, applied: bool,
                              saving: Env, deleting: Env)
      returns (p: Picked, ghost during: seq<Step>, ghost after: seq<Step>)
      requires Valid() && onItsWay == None && (reply == Status(200) ==> applied)
      requires forall f :: f in Now().saved ==> f.key != now
      modifies this`steps, this`onItsWay, buffer`bucket, buffer`readers
      ensures Valid() && onItsWay == None && AllChunks(during) && AllChunks(after)
      ensures p.ToPost? && 0 < |dataType| <= MAX_NAME && saving.commits(0) ==>
                steps == old(steps) + [Peek] + ([Put(Entry(now, EncodeValue(dataType, payload)))] + during) +
                         (Rest(|old(Now().requests)|, applied, reply, deleting.commits(0)) + after)
      ensures 0 < |dataType| <= MAX_NAME && saving.commits(0) ==>
                Now().saved == old(Now().saved) + [Entry(now, EncodeValue(dataType, payload))]
    {
      hide Possible, After, EncodeValue, Rest, EntriesOf, TimeKeys;
      after := [];
      var r, d;
      p := Post();
      r, during := Save(dataType, payload, now, saving);
      if p.ToPost? {
        d, after := Finish(reply, applied, deleting);
      }
    }
  }

  /** The dispatcher waits for an answer exactly while a batch is on its way. */
  ghost predicate OnItsWay(s: State, batch: Option<seq<Record>>) {
    match batch
    case None => s.phase.Idle?
    case Some(rs) => s.phase.Sending? && s.phase.req < |s.requests| && s.requests[s.phase.req].batch == rs && rs != []
  }
}
