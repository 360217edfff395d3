/** The dispatcher: pick a fair batch, post it, delete it once the backend answered 200. */
module Dispatcher {
  import opened ByteStrings
  import opened Store
  import opened Buffer
  import opened FairBatch

  /** What PostJSON came back with. */
  datatype Reply = TransportError | Status(code: int)

  datatype Dispatched =
    | NotPeeked(peek: Peek)          // nothing read, or reading failed
    | NotValid                       // a payload is not JSON: nothing is sent
    | Kept(batch: seq<Record>)       // posted, but not answered 200
    | Cleared(batch: seq<Record>, deletion: Outcome)

  datatype Picked = Nothing(why: Dispatched) | ToPost(batch: seq<Record>)

  datatype Group = Group(rs: seq<Record>, i: nat)

  predicate AllValid(validJson: Bytes -> bool, batch: seq<Record>) {
    forall r :: r in batch ==> validJson(r.payload)
  }

  /** The batch the dispatcher sees in a queue, and whether it can read it at all. */
  function WindowOf(q: seq<Entry>, limit: int): seq<Entry> { Take(q, ScanSize(limit)) }

  function BatchOf(q: seq<Entry>, limit: int): seq<Record> {
    Batch(Weight, Records(WindowOf(q, limit)), limit)
  }

  lemma SameTake(wt: Weights, w: seq<Record>, order: seq<Bytes>, limit: nat, m: nat, n: nat)
    requires |Rounds(wt, w, order, m)| >= limit && |Rounds(wt, w, order, n)| >= limit
    ensures Take(Rounds(wt, w, order, m), limit) == Take(Rounds(wt, w, order, n), limit)
  {
    RoundsExtend(wt, w, order, Min(m, n), if m <= n then n else m);
  }

  /** The groups of the types in `order`, and how far each is when `c` of them had their turn in
      round `n`. */
  ghost predicate GroupsOf(w: seq<Record>, gs: seq<Group>, order: seq<Bytes>) {
    |gs| == |order| &&
    forall k :: 0 <= k < |gs| ==> gs[k].rs == OfType(w, order[k]) && gs[k].i <= |gs[k].rs|
  }

  ghost predicate Progress(wt: Weights, w: seq<Record>, gs: seq<Group>, order: seq<Bytes>, n: nat, c: nat)
    requires |gs| == |order|
  {
    forall k :: 0 <= k < |gs| ==> gs[k].i == Served(wt, w, order[k], if k < c then n + 1 else n)
  }

  /** One turn extends the cut schedule by that turn, cut again at the limit. */
  lemma TurnStep(rs: seq<Record>, weight: nat, full: seq<Record>, turn: seq<Record>,
                 before: seq<Record>, after: seq<Record>, i: nat, i': nat, limit: nat)
    requires i <= |rs| && before == Take(full, limit) && TurnTaken(rs, weight, before, after, i, i', limit)
    requires |before| < limit ==> turn == rs[i..Min(i + weight, |rs|)]
    ensures after == Take(full + turn, limit)
    ensures |after| < limit ==> i' == Min(i + weight, |rs|)
  {
    TurnCut(rs, weight, full, before, after, i, i', limit);
    if |before| == limit { TakeExtendFull(full, turn, before, limit); }
  }

  lemma RoundGrows(wt: Weights, w: seq<Record>, order: seq<Bytes>, n: nat, c: nat, done: seq<Record>)
    requires c < |order|
    ensures done + Round(wt, w, order[..c + 1], n) == done + Round(wt, w, order[..c], n) + Turn(wt, w, order[c], n)
  {
    RoundSplit(wt, w, order, n, c);
  }

  /** What one turn of the inner loop does: `rs[i..i']` is appended, stopped by the weight, the end
      of the group or the limit. */
  ghost predicate TurnTaken(rs: seq<Record>, weight: nat, before: seq<Record>, after: seq<Record>,
                            i: nat, i': nat, limit: nat)
  {
    && i <= i' <= Min(i + weight, |rs|) && after == before + rs[i..i'] && |after| <= limit
    && (i' == i + weight || i' == |rs| || |after| == limit)
  }

  lemma TurnCut(rs: seq<Record>, weight: nat, full: seq<Record>, before: seq<Record>, after: seq<Record>,
                i: nat, i': nat, limit: nat)
    requires i <= |rs| && before == Take(full, limit)
    requires TurnTaken(rs, weight, before, after, i, i', limit)
    ensures |before| == limit ==> after == before
    ensures |before| < limit ==> after == Take(full + rs[i..Min(i + weight, |rs|)], limit)
    ensures |after| < limit ==> i' == Min(i + weight, |rs|)
  {
    if |before| < limit {
      var turn := rs[i..Min(i + weight, |rs|)];
      assert rs[i..i'] == turn[..i' - i];
      TakeExtend(full, turn, after, i' - i, limit);
    }
  }

  lemma TakeExtend<T>(full: seq<T>, turn: seq<T>, out: seq<T>, k: nat, limit: nat)
    requires |full| <= limit && k <= |turn| && out == full + turn[..k] && |out| <= limit
    requires k == |turn| || |out| == limit
    ensures out == Take(full + turn, limit)
  {
    assert full + turn == full + turn[..k] + turn[k..];
  }

  lemma TakeExtendFull<T>(full: seq<T>, turn: seq<T>, out: seq<T>, limit: nat)
    requires out == Take(full, limit) && |out| == limit
    ensures out == Take(full + turn, limit)
  {
  }

  /** The groups after the first `k` records of the window. */
  ghost predicate Grouped(w: seq<Record>, k: nat, gm: map<Bytes, Group>)
    requires k <= |w|
  {
    && gm.Keys == Types(w[..k])
    && forall t :: t in gm ==> gm[t].i == 0 && gm[t].rs == OfType(w[..k], t)
  }

  lemma GroupedStep(w: seq<Record>, k: nat, gm: map<Bytes, Group>)
    requires k < |w| && Grouped(w, k, gm)
    ensures var t := w[k].dataType;
      Grouped(w, k + 1, gm[t := Group((if t in gm then gm[t].rs else []) + [w[k]], 0)])
  {
    var r := w[k];
    assert w[..k + 1] == w[..k] + [r];
    forall t ensures OfType(w[..k + 1], t) == OfType(w[..k], t) + if r.dataType == t then [r] else [] {
      OfTypeSnoc(w[..k], r, t);
    }
    if r.dataType !in gm { OfAbsentType(w[..k], r.dataType); }
  }

  function TypeSet(ts: seq<Bytes>): set<Bytes> { set t | t in ts }

  method GroupByType(w: seq<Record>) returns (gs: seq<Group>, order: seq<Bytes>)
    ensures order == Sorted(Types(w))
    ensures GroupsOf(w, gs, order) && forall k :: 0 <= k < |gs| ==> gs[k].i == 0
  {
    var gm: map<Bytes, Group> := map[];
    order := [];
    var k := 0;
    while k < |w|
      invariant 0 <= k <= |w|
      invariant TypeSet(order) == gm.Keys && Grouped(w, k, gm)
    {
      GroupedStep(w, k, gm);
      var t := w[k].dataType;
      if t !in gm {
        assert TypeSet(order + [t]) == TypeSet(order) + {t};
        order := order + [t];
      }
      gm := gm[t := Group((if t in gm then gm[t].rs else []) + [w[k]], 0)];
      k := k + 1;
    }
    assert w[..k] == w;
    order := Sorted(TypeSet(order));  // sort.Strings of a list without repetitions
    SortedIsDistinct(Types(w));
    gs := seq(|order|, i requires 0 <= i < |order| => gm[order[i]]);
  }

  /** One type's turn: up to `weight` of its next records, as long as there is room. */
  method TakeTurn(g: Group, weight: nat, out0: seq<Record>, limit: nat) returns (out: seq<Record>, i: nat)
    requires g.i <= |g.rs| && |out0| <= limit
    ensures TurnTaken(g.rs, weight, out0, out, g.i, i, limit)
  {
    out, i := out0, g.i;
    var j := 0;
    while j < weight && |out| < limit && i < |g.rs|
      invariant j <= weight && i == g.i + j <= |g.rs| && |out| <= limit
      invariant out == out0 + g.rs[g.i..i]
    {
      out := out + [g.rs[i]];
      i := i + 1;
      j := j + 1;
    }
  }

  /** The round-robin loop fills a batch with the first `limit` records of the schedule. */
  method TakeTurns(wt: Weights, w: seq<Record>, groups: seq<Group>, order: seq<Bytes>, limit: nat)
    returns (out: seq<Record>)
    requires 0 < limit < |w| && order == Sorted(Types(w))
    requires GroupsOf(w, groups, order) && forall k :: 0 <= k < |groups| ==> groups[k].i == 0
    ensures out == Batch(wt, w, limit)
  {
    var gs := groups;
    out := [];
    ghost var n := 0;
    FirstRound(wt, w, gs, order, limit);
    hide MidRound, GroupsOf, Round, Rounds, Batch, Types, Sorted, NoneLeft;
    while |out| < limit
      invariant MidRound(wt, w, gs, order, limit, Rounds(wt, w, order, n), out, n, 0)
      decreases limit - |out|
    {
      var progress;
      RoomMeansAll(wt, w, gs, order, limit, out, n);
      out, gs, progress := TakeRound(wt, w, gs, order, limit, out, n);
      if !progress {
        StuckOnlyWhenFull(wt, w, order, limit, n);
        break;
      }
      RoundEnd(wt, w, gs, order, limit, out, n);
      n := n + 1;
    }
    FullSchedule(wt, w, gs, limit, out, n);
  }

  lemma FirstRound(wt: Weights, w: seq<Record>, gs: seq<Group>, order: seq<Bytes>, limit: nat)
    requires 0 < limit && GroupsOf(w, gs, order) && forall k :: 0 <= k < |gs| ==> gs[k].i == 0
    ensures MidRound(wt, w, gs, order, limit, Rounds(wt, w, order, 0), [], 0, 0)
  {
    RoundStart(wt, w, gs, order, limit, [], 0);
  }

  lemma RoomMeansAll(wt: Weights, w: seq<Record>, gs: seq<Group>, order: seq<Bytes>, limit: nat,
                     out: seq<Record>, n: nat)
    requires |out| < limit && MidRound(wt, w, gs, order, limit, Rounds(wt, w, order, n), out, n, 0)
    ensures out == Rounds(wt, w, order, n)
  {
    assert order[..0] == [];
  }

  lemma RoundStart(wt: Weights, w: seq<Record>, gs: seq<Group>, order: seq<Bytes>, limit: nat, out: seq<Record>, n: nat)
    requires GroupsOf(w, gs, order) && out == Take(Rounds(wt, w, order, n), limit)
    requires |out| < limit ==> Progress(wt, w, gs, order, n, 0)
    ensures MidRound(wt, w, gs, order, limit, Rounds(wt, w, order, n), out, n, 0)
  {
    assert Rounds(wt, w, order, n) + [] == Rounds(wt, w, order, n);
  }

  lemma RoundEnd(wt: Weights, w: seq<Record>, gs: seq<Group>, order: seq<Bytes>, limit: nat, out: seq<Record>, n: nat)
    requires MidRound(wt, w, gs, order, limit, Rounds(wt, w, order, n), out, n, |order|)
    ensures MidRound(wt, w, gs, order, limit, Rounds(wt, w, order, n + 1), out, n + 1, 0)
  {
    assert order[..|order|] == order;
    RoundStart(wt, w, gs, order, limit, out, n + 1);
  }

  /** A round without progress would mean that the schedule holds the whole window already. */
  lemma StuckOnlyWhenFull(wt: Weights, w: seq<Record>, order: seq<Bytes>, limit: nat, n: nat)
    requires limit < |w| && order == Sorted(Types(w)) && NoneLeft(wt, w, order, n, |order|)
    ensures |Rounds(wt, w, order, n)| >= limit
  {
    SortedIsDistinct(Types(w));
    ExhaustedRounds(wt, w, order, n);
  }

  lemma FullSchedule(wt: Weights, w: seq<Record>, gs: seq<Group>, limit: nat, out: seq<Record>, n: nat)
    requires 0 < limit < |w| && |out| >= limit
    requires MidRound(wt, w, gs, Sorted(Types(w)), limit, Rounds(wt, w, Sorted(Types(w)), n), out, n, 0)
    ensures out == Batch(wt, w, limit)
  {
    var order := Sorted(Types(w));
    assert order[..0] == [];
    assert out == Take(Rounds(wt, w, order, n), limit);
    SortedIsDistinct(Types(w));
    EnoughRounds(wt, w, order);
    SameTake(wt, w, order, limit, |w|, n);
  }

  method TakeRound(wt: Weights, w: seq<Record>, groups: seq<Group>, order: seq<Bytes>, limit: nat,
                   out0: seq<Record>, ghost n: nat)
    returns (out: seq<Record>, gs: seq<Group>, progress: bool)
    requires MidRound(wt, w, groups, order, limit, out0, out0, n, 0) && |out0| < limit
    ensures MidRound(wt, w, gs, order, limit, out0, out, n, |order|)
    ensures if progress then |out| > |out0| else out == out0 && NoneLeft(wt, w, order, n, |order|)
  {
    out, gs, progress := out0, groups, false;
    var c := 0;
    while c < |order|
      invariant 0 <= c <= |order|
      invariant MidRound(wt, w, gs, order, limit, out0, out, n, c)
      invariant if progress then |out| > |out0| else out == out0 && NoneLeft(wt, w, order, n, c)
    {
      var out', gs' := VisitType(wt, w, gs, order, limit, out0, out, n, c);
      progress := progress || |out'| > |out|;
      out, gs := out', gs';
      c := c + 1;
    }
  }

  /** `c` types had their turn in round `n`. */
  ghost predicate MidRound(wt: Weights, w: seq<Record>, gs: seq<Group>, order: seq<Bytes>, limit: nat,
                           out0: seq<Record>, out: seq<Record>, n: nat, c: nat)
    requires c <= |order|
  {
    && GroupsOf(w, gs, order) && |out| <= limit
    && out == Take(out0 + Round(wt, w, order[..c], n), limit)
    && (|out| < limit ==> Progress(wt, w, gs, order, n, c))
  }

  method VisitType(wt: Weights, w: seq<Record>, groups: seq<Group>, order: seq<Bytes>, limit: nat,
                   ghost out0: seq<Record>, before: seq<Record>, ghost n: nat, c: nat)
    returns (out: seq<Record>, gs: seq<Group>)
    requires c < |order| && MidRound(wt, w, groups, order, limit, out0, before, n, c)
    ensures MidRound(wt, w, gs, order, limit, out0, out, n, c + 1)
    ensures |out| >= |before|
    ensures |out| == |before| < limit ==> out == before && Served(wt, w, order[c], n) == |OfType(w, order[c])|
  {
    out := before;
    var g := groups[c];
    var i := g.i;
    if g.i < |g.rs| {
      out, i := TakeTurn(g, wt(order[c]), out, limit);
    }
    gs := groups[c := g.(i := i)];
    VisitStep(wt, w, groups, order, limit, out0, before, out, n, c, i);
  }

  lemma VisitStep(wt: Weights, w: seq<Record>, groups: seq<Group>, order: seq<Bytes>, limit: nat,
                  out0: seq<Record>, before: seq<Record>, out: seq<Record>, n: nat, c: nat, i: nat)
    requires c < |order| && MidRound(wt, w, groups, order, limit, out0, before, n, c)
    requires TurnTaken(OfType(w, order[c]), wt(order[c]), before, out, groups[c].i, i, limit)
    ensures MidRound(wt, w, groups[c := groups[c].(i := i)], order, limit, out0, out, n, c + 1)
  {
    hide Round, Rounds, OfType, Types;
    var g := groups[c];
    RoundGrows(wt, w, order, n, c, out0);
    TurnStep(g.rs, wt(order[c]), out0 + Round(wt, w, order[..c], n), Turn(wt, w, order[c], n),
             before, out, g.i, i, limit);
  }

  ghost predicate NoneLeft(wt: Weights, w: seq<Record>, order: seq<Bytes>, n: nat, c: nat)
    requires c <= |order|
  {
    forall k :: 0 <= k < c ==> Served(wt, w, order[k], n) == |OfType(w, order[k])|
  }

  method SelectFair(wt: Weights, window: seq<Record>, limit: int) returns (out: seq<Record>)
    requires limit > 0
    ensures out == Batch(wt, window, limit)
  {
    if |window| <= limit { return window; }
    var gs, order := GroupByType(window);
    out := TakeTurns(wt, window, gs, order, limit);
  }

  method CheckPayloads(validJson: Bytes -> bool, records: seq<Record>) returns (ok: bool)
    ensures ok == AllValid(validJson, records)
  {
    var i := 0;
    while i < |records|
      invariant 0 <= i <= |records|
      invariant forall j :: 0 <= j < i ==> validJson(records[j].payload)
    {
      if !validJson(records[i].payload) {
        assert records[i] in records;
        return false;
      }
      i := i + 1;
    }
    return true;
  }

  method KeysOf(records: seq<Record>) returns (keys: seq<Bytes>)
    ensures |keys| == |records| && Timestamps(keys) == RecordKeys(records)
  {
    keys := [];
    var i := 0;
    while i < |records|
      invariant 0 <= i <= |records| && |keys| == i
      invariant forall j :: 0 <= j < i ==> keys[j] == KeyBytes(records[j].key)
    {
      keys := keys + [KeyBytes(records[i].key)];
      i := i + 1;
    }
    KeysReadBack(records, keys);
  }

  lemma KeysReadBack(records: seq<Record>, keys: seq<Bytes>)
    requires |keys| == |records| && forall j :: 0 <= j < |keys| ==> keys[j] == KeyBytes(records[j].key)
    ensures Timestamps(keys) == RecordKeys(records)
  {
    forall j | 0 <= j < |keys| ensures KeyOf(keys[j]) == records[j].key {
      KeyRoundTrip(records[j].key, keys[j]);
    }
    forall key ensures key in Timestamps(keys) <==> key in RecordKeys(records) {
      if key in Timestamps(keys) {
        var k :| k in keys && |k| == KEY_WIDTH && KeyOf(k) == key;
        var j :| 0 <= j < |keys| && keys[j] == k;
        assert records[j] in records;
      }
      if key in RecordKeys(records) {
        var j :| 0 <= j < |records| && records[j].key == key;
        assert keys[j] in keys;
      }
    }
  }

  class DataDispatcher {
    const buffer: DataBuffer
    const batchLimit: int

    constructor (buffer: DataBuffer, batchLimit: int)
      ensures this.buffer == buffer && this.batchLimit == batchLimit
    {
      this.buffer, this.batchLimit := buffer, batchLimit;
    }

    /** Reads a window and picks the fair batch from it; the bucket stays as it is. */
    method PeekFairBatch(limit: int) returns (p: Peek)
      requires buffer.Valid()
      modifies buffer`readers
      ensures limit <= 0 ==> p == Peeked([])
      ensures limit > 0 && !buffer.hasDb ==> p == PeekFailed(NotInitialized)
      ensures limit > 0 && buffer.hasDb ==>
                p == if Readable(WindowOf(buffer.Queue(), limit)) then Peeked(BatchOf(buffer.Queue(), limit))
                     else Panicked
      ensures 0 < limit < 0x0666_6666_6666_6667 && buffer.hasDb ==>
                var scanned := if limit <= 10 then 200 else if limit >= 100 then 2000 else 20 * limit;
                var oldest := Take(buffer.Queue(), scanned);
                p == if Readable(oldest) then Peeked(Batch(Weight, Records(oldest), limit)) else Panicked
    {
      hide Readable, Records, Batch, Weight, ScanSize;
      if limit <= 0 { return Peeked([]); }
      if limit < 0x0666_6666_6666_6667 { ScanLength(limit, 20 * limit); }
      p := buffer.PeekBatch(ScanSize(limit));
      if !p.Peeked? { return; }
      var out := SelectFair(Weight, p.records, limit);
      return Peeked(out);
    }

    /** dispatchOnce up to the post: a batch to send, or the reason for sending none. */
    method Pick(validJson: Bytes -> bool) returns (p: Picked)
      requires buffer.Valid()
      modifies buffer`readers
      ensures batchLimit > 0 && buffer.hasDb && Readable(WindowOf(buffer.Queue(), batchLimit)) ==>
                var batch := BatchOf(buffer.Queue(), batchLimit);
                p == if batch == [] then Nothing(NotPeeked(Peeked([])))
                     else if !AllValid(validJson, batch) then Nothing(NotValid)
                     else ToPost(batch)
      ensures !(batchLimit > 0 && buffer.hasDb && Readable(WindowOf(buffer.Queue(), batchLimit))) ==>
                p.Nothing? && p.why.NotPeeked?
    {
      var peek := PeekFairBatch(batchLimit);
      if !peek.Peeked? || peek.records == [] { return Nothing(NotPeeked(peek)); }
      var ok := CheckPayloads(validJson, peek.records);
      return if ok then ToPost(peek.records) else Nothing(NotValid);
    }

    /** dispatchOnce from the answer on. Only 200 deletes anything, and then exactly the keys of the
        batch that was posted, on top of what the size policy prunes. */
    method Settle(batch: seq<Record>, reply: Reply, env: Env) returns (d: Dispatched)
      requires buffer.Valid() && batch != []
      modifies buffer`bucket, buffer`readers
      ensures buffer.Valid()
      ensures reply != Status(200) ==> d == Kept(batch)
      ensures reply == Status(200) ==> d.Cleared? && d.batch == batch
      ensures !(reply == Status(200) && buffer.hasDb && env.commits(0)) ==> buffer.bucket == old(buffer.bucket)
      ensures reply == Status(200) && buffer.hasDb && env.commits(0) ==>
                (buffer.Queue(), d.deletion) == EnforceSizePolicy(
                  Without(old(buffer.Queue()), RecordKeys(batch)), buffer.maxDBSizeBytes, env, 1)
      ensures reply == Status(200) && buffer.hasDb && !env.commits(0) ==> d.deletion == Failed(TransactionFailed)
    {
      if reply != Status(200) { return Kept(batch); }
      var keys := KeysOf(batch);
      var r := buffer.DeleteBatch(keys, env);
      return Cleared(batch, r);
    }

    /** One tick, with nothing in between. */
    method DispatchOnce(validJson: Bytes -> bool, post: seq<Record> -> Reply, env: Env) returns (d: Dispatched)
      requires buffer.Valid()
      modifies buffer`bucket, buffer`readers
      ensures buffer.Valid()
      ensures batchLimit > 0 && buffer.hasDb && Readable(WindowOf(old(buffer.Queue()), batchLimit)) ==>
                var batch := BatchOf(old(buffer.Queue()), batchLimit);
                if batch == [] then d == NotPeeked(Peeked([]))
                else if !AllValid(validJson, batch) then d == NotValid
                else if post(batch) != Status(200) then d == Kept(batch)
                else d.Cleared? && d.batch == batch
      ensures !(batchLimit > 0 && buffer.hasDb && Readable(WindowOf(old(buffer.Queue()), batchLimit))) ==> d.NotPeeked?
      ensures !d.Cleared? || !env.commits(0) ==> buffer.bucket == old(buffer.bucket)
      ensures d.Cleared? && env.commits(0) ==>
                (buffer.Queue(), d.deletion) == EnforceSizePolicy(
                  Without(old(buffer.Queue()), RecordKeys(d.batch)), buffer.maxDBSizeBytes, env, 1)
      ensures d.Cleared? && !env.commits(0) ==> d.deletion == Failed(TransactionFailed)
    {
      hide Readable, WindowOf, BatchOf, AllValid, EnforceSizePolicy;
      var picked := Pick(validJson);
      if picked.Nothing? { return picked.why; }
      d := Settle(picked.batch, post(picked.batch), env);
    }
  }
}
