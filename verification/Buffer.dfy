/** The on-disk cache: one bbolt bucket under 8-byte big-endian time keys, with a size policy. */
module Buffer {
  import opened ByteStrings
  import opened RecordCodec
  import opened Store

  const PRUNE_CHUNK_SIZE: nat := 200
  const KEY_WIDTH: nat := 8

  datatype Error = EmptyDataType | DataTypeTooLong | NotInitialized | TransactionFailed | StatFailed

  datatype Outcome = Ok | Failed(error: Error)

  datatype Peek = Peeked(records: seq<Record>) | PeekFailed(error: Error) | Panicked

  datatype FileSize = Size(bytes: int) | Unavailable

  /** What the operating system answers: the k-th os.Stat and whether the t-th transaction commits. */
  datatype Env = Env(stat: nat -> FileSize, commits: nat -> bool)

  // ---------- The cursor ----------

  function KeyBytes(key: Key): (k: Bytes)
    ensures |k| == KEY_WIDTH
  {
    KeyRange();
    PutBigEndian(key, KEY_WIDTH)
  }

  function KeyOf(k: Bytes): Key
    requires |k| == KEY_WIDTH
  {
    KeyRange();
    BigEndianBound(k);
    BigEndian(k)
  }

  lemma KeyRange()
    ensures Pow256(KEY_WIDTH) == 0x1_0000_0000_0000_0000
  {
    assert Pow256(4) == 0x1_0000_0000;
    assert Pow256(6) == 0x1_0000_0000_0000;
  }

  /** Key bytes and timestamps correspond one to one. */
  lemma KeyRoundTrip(key: Key, k: Bytes)
    requires |k| == KEY_WIDTH
    ensures KeyOf(KeyBytes(key)) == key
    ensures KeyBytes(KeyOf(k)) == k
  {
    BigEndianInjective(KeyBytes(KeyOf(k)), k);
  }

  ghost predicate TimeKeys(m: map<Bytes, Bytes>) {
    forall k :: k in m ==> |k| == KEY_WIDTH
  }

  /** Bucket.Cursor: what First and Next return until nil. */
  function EntriesOf(m: map<Bytes, Bytes>): seq<Entry>
    requires TimeKeys(m)
  {
    SortedMembers(m.Keys);
    var ks := Sorted(m.Keys);
    seq(|ks|, i requires 0 <= i < |ks| => Entry(KeyOf(ks[i]), m[ks[i]]))
  }

  lemma EntriesOfMembers(m: map<Bytes, Bytes>, e: Entry)
    requires TimeKeys(m)
    ensures e in EntriesOf(m) <==> KeyBytes(e.key) in m && m[KeyBytes(e.key)] == e.value
  {
    SortedMembers(m.Keys);
    var ks, k, q := Sorted(m.Keys), KeyBytes(e.key), EntriesOf(m);
    if e in q {
      var i :| 0 <= i < |q| && q[i] == e;
      KeyRoundTrip(e.key, ks[i]);
    }
    if k in m && m[k] == e.value {
      var i :| 0 <= i < |ks| && ks[i] == k;
      KeyRoundTrip(e.key, k);
      assert q[i] == e;
    }
  }

  /** The cursor's lexicographic order is the numeric order of the timestamps. */
  lemma EntriesOfAscending(m: map<Bytes, Bytes>)
    requires TimeKeys(m)
    ensures Ascending(EntriesOf(m))
  {
    var q, ks := EntriesOf(m), Sorted(m.Keys);
    SortedMembers(m.Keys);
    SortedAscends(m.Keys);
    forall i, j | 0 <= i < j < |q| ensures q[i].key < q[j].key {
      assert ks[i] in ks && ks[j] in ks;
      LessIsNumeric(ks[i], ks[j]);
    }
  }

  lemma PutIsInsert(m: map<Bytes, Bytes>, key: Key, v: Bytes)
    requires TimeKeys(m)
    ensures EntriesOf(m[KeyBytes(key) := v]) == Insert(EntriesOf(m), Entry(key, v))
  {
    var q, e, m' := EntriesOf(m), Entry(key, v), m[KeyBytes(key) := v];
    EntriesOfAscending(m);
    EntriesOfAscending(m');
    InsertAscending(q, e);
    forall f ensures f in EntriesOf(m') <==> f in Insert(q, e) {
      InsertMembers(q, e, f);
      EntriesOfMembers(m, f);
      EntriesOfMembers(m', f);
      KeyRoundTrip(f.key, KeyBytes(key));
      KeyRoundTrip(key, KeyBytes(key));
    }
    AscendingIsUnique(EntriesOf(m'), Insert(q, e));
  }

  /** The timestamps among some raw keys: keys of another width cannot be in the bucket. */
  function Timestamps(keys: seq<Bytes>): set<Key> {
    set k | k in keys && |k| == KEY_WIDTH :: KeyOf(k)
  }

  /** What DeleteBatch passes to Bucket.Delete. */
  function NonEmpty(keys: seq<Bytes>): set<Bytes> { set k | k in keys && k != [] }

  function AllKeyBytes(keys: set<Key>): set<Bytes> { set k | k in keys :: KeyBytes(k) }

  lemma DeleteIsWithout(m: map<Bytes, Bytes>, keys: set<Key>)
    requires TimeKeys(m)
    ensures EntriesOf(m - AllKeyBytes(keys)) == Without(EntriesOf(m), keys)
  {
    var q, m' := EntriesOf(m), m - AllKeyBytes(keys);
    EntriesOfAscending(m);
    EntriesOfAscending(m');
    WithoutAscending(q, keys);
    forall f ensures f in EntriesOf(m') <==> f in Without(q, keys) {
      WithoutMembers(q, keys, f);
      EntriesOfMembers(m, f);
      EntriesOfMembers(m', f);
      forall k | k in keys && KeyBytes(k) == KeyBytes(f.key) ensures k == f.key {
        KeyRoundTrip(k, KeyBytes(k));
        KeyRoundTrip(f.key, KeyBytes(k));
      }
    }
    AscendingIsUnique(EntriesOf(m'), Without(q, keys));
  }

  /** Deleting raw keys deletes the timestamps among them. */
  lemma RawDelete(m: map<Bytes, Bytes>, keys: seq<Bytes>)
    requires TimeKeys(m)
    ensures EntriesOf(m - NonEmpty(keys)) == Without(EntriesOf(m), Timestamps(keys))
  {
    forall k | k in m ensures k in NonEmpty(keys) <==> k in AllKeyBytes(Timestamps(keys)) {
      KeyRoundTrip(KeyOf(k), k);
      forall key | key in Timestamps(keys) && KeyBytes(key) == k ensures k in keys {
        var raw :| raw in keys && |raw| == KEY_WIDTH && KeyOf(raw) == key;
        KeyRoundTrip(key, raw);
      }
    }
    assert m - NonEmpty(keys) == m - AllKeyBytes(Timestamps(keys));
    DeleteIsWithout(m, Timestamps(keys));
  }

  lemma NonEmptySnoc(keys: seq<Bytes>, i: nat)
    requires i < |keys|
    ensures NonEmpty(keys[..i + 1]) == NonEmpty(keys[..i]) + if keys[i] == [] then {} else {keys[i]}
  {
    assert keys[..i + 1] == keys[..i] + [keys[i]];
  }

  lemma DeleteOneMore(m: map<Bytes, Bytes>, keys: set<Key>, k: Key)
    ensures m - AllKeyBytes(keys) - {KeyBytes(k)} == m - AllKeyBytes(keys + {k})
  {
    assert AllKeyBytes(keys + {k}) == AllKeyBytes(keys) + {KeyBytes(k)};
  }

  lemma KeysExtend(q: seq<Entry>, i: nat)
    requires i < |q|
    ensures Keys(q[..i + 1]) == Keys(q[..i]) + {q[i].key}
  {
    assert q[..i + 1] == q[..i] + [q[i]];
  }

  // ---------- The size policy, on queues ----------

  /** int64(float64(max) * 0.90), and `max` itself when that is not positive. */
  function PruneTarget(max: int): int {
    var t := (max as real * 0.9).Floor;
    if t <= 0 then max else t
  }

  /** Survivors and outcome of the prune loop, from its k-th stat and t-th transaction on. */
  function Prune(q: seq<Entry>, target: int, env: Env, k: nat, t: nat): (seq<Entry>, Outcome)
    decreases |q|
  {
    match env.stat(k)
    case Unavailable => (q, Failed(StatFailed))
    case Size(size) =>
      if size <= target then (q, Ok)
      else if !env.commits(t) then (q, Failed(TransactionFailed))
      else if q == [] then (q, Ok)
      else Prune(Drop(q, PRUNE_CHUNK_SIZE), target, env, k + 1, t + 1)
  }

  function EnforceSizePolicy(q: seq<Entry>, max: int, env: Env, t: nat): (seq<Entry>, Outcome) {
    if max <= 0 then (q, Ok)
    else
      match env.stat(0)
      case Unavailable => (q, Failed(StatFailed))
      case Size(size) =>
        if size <= max then (q, Ok) else Prune(q, PruneTarget(max), env, 1, t)
  }

  /** The loop removed `n` chunks: before each it saw a size above the target and its transaction
      committed. What it saw then decides the outcome. */
  ghost predicate PruneStopped(q: seq<Entry>, target: int, env: Env, k: nat, t: nat, n: nat,
                               after: (seq<Entry>, Outcome))
  {
    && after.0 == Drop(q, n * 200)
    && (n > 0 ==> (n - 1) * 200 < |q|)
    && (forall i :: k <= i < k + n ==> env.stat(i).Size? && env.stat(i).bytes > target)
    && (forall i :: t <= i < t + n ==> env.commits(i))
    && match env.stat(k + n)
       case Unavailable => after.1 == Failed(StatFailed)
       case Size(size) =>
         if size <= target then after.1 == Ok
         else if !env.commits(t + n) then after.1 == Failed(TransactionFailed)
         else after.0 == [] && after.1 == Ok
  }

  /** For any file sizes the prune loop stops; the survivors are a suffix of the key order; it removed
      whole chunks of 200 unless it emptied the bucket; and it stops at the first size that is at most
      the target or unavailable, at the first transaction that fails, or when nothing is left. */
  lemma {:induction false} PruneKeepsNewest(q: seq<Entry>, target: int, env: Env, k: nat, t: nat) returns (n: nat)
    ensures PruneStopped(q, target, env, k, t, n, Prune(q, target, env, k, t))
    ensures |q| - |Prune(q, target, env, k, t).0| == n * 200 || Prune(q, target, env, k, t).0 == []
    decreases |q|
  {
    hide PruneStopped;
    n := 0;
    if env.stat(k).Size? && env.stat(k).bytes > target && env.commits(t) && q != [] {
      var m := PruneKeepsNewest(Drop(q, 200), target, env, k + 1, t + 1);
      n := m + 1;
      OneChunkMore(q, target, env, k, t, m, Prune(q, target, env, k, t));
    } else {
      StoppedAtOnce(q, target, env, k, t);
    }
  }

  lemma StoppedAtOnce(q: seq<Entry>, target: int, env: Env, k: nat, t: nat)
    requires !(env.stat(k).Size? && env.stat(k).bytes > target && env.commits(t) && q != [])
    ensures PruneStopped(q, target, env, k, t, 0, Prune(q, target, env, k, t))
  {}

  lemma OneChunkMore(q: seq<Entry>, target: int, env: Env, k: nat, t: nat, n: nat, after: (seq<Entry>, Outcome))
    requires env.stat(k).Size? && env.stat(k).bytes > target && env.commits(t) && q != []
    requires PruneStopped(Drop(q, 200), target, env, k + 1, t + 1, n, after)
    ensures PruneStopped(q, target, env, k, t, n + 1, after)
    ensures |Drop(q, 200)| - |after.0| == n * 200 ==> |q| - |after.0| == (n + 1) * 200 || after.0 == []
  {
    assert (n + 1) * 200 == n * 200 + 200;
    assert k + 1 + n == k + (n + 1) && t + 1 + n == t + (n + 1);
    DropTwice(q, 200, n * 200);
  }

  lemma DropTwice<T>(s: seq<T>, m: nat, n: nat)
    ensures Drop(Drop(s, m), n) == Drop(s, m + n)
  {}

  /** Nine tenths of the maximum, rounded down, or the maximum itself when that is 0 or less. */
  lemma TargetIsNineTenths(max: int)
    ensures max >= 2 ==> 10 * PruneTarget(max) <= 9 * max < 10 * (PruneTarget(max) + 1)
    ensures max <= 1 ==> PruneTarget(max) == max
  {
    assert (max as real * 0.9).Floor as real <= max as real * 0.9 < (max as real * 0.9).Floor as real + 1.0;
  }

  /** The policy acts exactly on a positive maximum and a first size above it. */
  lemma PolicyTrigger(q: seq<Entry>, max: int, env: Env, t: nat)
    ensures max <= 0 || (env.stat(0).Size? && env.stat(0).bytes <= max) ==>
              EnforceSizePolicy(q, max, env, t) == (q, Ok)
    ensures max > 0 && env.stat(0).Unavailable? ==> EnforceSizePolicy(q, max, env, t) == (q, Failed(StatFailed))
    ensures EnforceSizePolicy(q, max, env, t).0 != q ==> max > 0 && env.stat(0).Size? && env.stat(0).bytes > max
  {}

  /** The first size is above the maximum, the second above the target, and the transaction commits. */
  ghost predicate Pruning(max: int, env: Env, t: nat) {
    && max > 0 && env.stat(0).Size? && env.stat(0).bytes > max
    && env.stat(1).Size? && env.stat(1).bytes > PruneTarget(max) && env.commits(t)
  }

  /** Then the oldest 200 entries go, or all there are. */
  lemma PolicyPrunes(q: seq<Entry>, max: int, env: Env, t: nat)
    requires Pruning(max, env, t) && q != []
    ensures var rest := EnforceSizePolicy(q, max, env, t).0;
      exists m :: 200 <= m && rest == Drop(q, m)
    ensures (|q| <= 200 || (env.stat(2).Size? && env.stat(2).bytes <= PruneTarget(max))) ==>
              EnforceSizePolicy(q, max, env, t).0 == Drop(q, 200)
  {
    var n := PruneKeepsNewest(q, PruneTarget(max), env, 1, t);
    assert n >= 1;
    assert 200 <= n * 200 && EnforceSizePolicy(q, max, env, t).0 == Drop(q, n * 200);
  }

  /** Above the maximum the outcome is that of the loop, step by step. */
  lemma PolicyStops(q: seq<Entry>, max: int, env: Env, t: nat) returns (n: nat)
    requires max > 0 && env.stat(0).Size? && env.stat(0).bytes > max
    ensures PruneStopped(q, PruneTarget(max), env, 1, t, n, EnforceSizePolicy(q, max, env, t))
  {
    n := PruneKeepsNewest(q, PruneTarget(max), env, 1, t);
  }

  /** The size policy never touches anything but the oldest entries. */
  lemma PolicyDropsPrefix(q: seq<Entry>, max: int, env: Env, t: nat) returns (n: nat)
    ensures n <= |q| && EnforceSizePolicy(q, max, env, t).0 == q[n..]
  {
    n := 0;
    if max > 0 && env.stat(0).Size? && env.stat(0).bytes > max {
      var m := PruneKeepsNewest(q, PruneTarget(max), env, 1, t);
      n := Min(m * 200, |q|);
    }
  }

  /** Which entries the size policy spares: it drops `n` chunks, and the entry at position `p` is spared
      if they do not reach it. A save that returns nil may thus be gone. */
  lemma SparedExactly(q: seq<Entry>, max: int, env: Env, t: nat, p: nat) returns (n: nat)
    requires Ascending(q) && p < |q|
    ensures var (rest, outcome) := EnforceSizePolicy(q, max, env, t);
      rest == Drop(q, n * 200) && (q[p] in rest <==> n * 200 <= p)
    ensures n > 0 ==> PruneStopped(q, PruneTarget(max), env, 1, t, n, EnforceSizePolicy(q, max, env, t))
  {
    n := 0;
    if max > 0 && env.stat(0).Size? && env.stat(0).bytes > max {
      n := PruneKeepsNewest(q, PruneTarget(max), env, 1, t);
    }
    SparedByDrop(q, n * 200, p);
  }

  lemma SparedByDrop(q: seq<Entry>, m: nat, p: nat)
    requires Ascending(q) && p < |q|
    ensures q[p] in Drop(q, m) <==> m <= p
  {
    var rest := Drop(q, m);
    if m <= p { assert rest[p - m] == q[p]; }
    if q[p] in rest {
      var i :| 0 <= i < |rest| && rest[i] == q[p];
      assert rest[i] == q[m + i];
    }
  }

  /** When the observed size never falls, the policy empties the bucket and reports success: the record
      just saved goes too. */
  lemma NilButGone(q: seq<Entry>, max: int, t: nat)
    requires max > 0
    ensures EnforceSizePolicy(q, max, Env((k: nat) => Size(max + 1), (k: nat) => true), t) == ([], Ok)
  {
    var env := Env((k: nat) => Size(max + 1), (k: nat) => true);
    TargetIsNineTenths(max);
    PrunesAll(q, PruneTarget(max), env, 1, t);
  }

  lemma {:induction false} PrunesAll(q: seq<Entry>, target: int, env: Env, k: nat, t: nat)
    requires forall i :: env.stat(i).Size? && env.stat(i).bytes > target && env.commits(i)
    ensures Prune(q, target, env, k, t) == ([], Ok)
    decreases |q|
  {
    if q == [] {
    } else {
      PrunesAll(Drop(q, PRUNE_CHUNK_SIZE), target, env, k + 1, t + 1);
    }
  }

  // ---------- The buffer ----------

  lemma ReadNone()
    ensures Readable([]) && Records([]) == []
  {}

  lemma ReadOneMore(q: seq<Entry>, i: nat, limit: nat)
    requires i < |q| && i < limit && Readable(q[..i])
    ensures Readable(q[..i + 1]) <==> !DecodeValue(q[i].value).OutOfRange?
    ensures Records(q[..i + 1]) == Records(q[..i]) + RecordOf(q[i])
    ensures DecodeValue(q[i].value).OutOfRange? ==> !Readable(Take(q, limit))
  {
    assert q[..i + 1] == q[..i] + [q[i]];
    RecordsConcat(q[..i], [q[i]]);
    assert q[i] in q[..i + 1] && Take(q, limit)[i] == q[i];
  }

  class DataBuffer {
    var hasDb: bool
    var bucket: map<Bytes, Bytes>
    var readers: nat   // read locks on dbMu that are held
    const maxDBSizeBytes: int

    ghost predicate Valid()
      reads this`bucket
    {
      TimeKeys(bucket)
    }

    /** The bucket in key order. */
    ghost function Queue(): seq<Entry>
      reads this`bucket
      requires Valid()
    {
      EntriesOf(bucket)
    }

    constructor (max: int)
      ensures Valid() && hasDb && Queue() == [] && maxDBSizeBytes == max && CloseProceeds()
    {
      hasDb, bucket, readers, maxDBSizeBytes := true, map[], 0, max;
    }

    /** Close takes the write lock first: with a read lock held it blocks. */
    predicate CloseProceeds()
      reads this`readers
    {
      readers == 0
    }

    /** The record is committed, or nothing changed; the size policy may still fail after the commit.
        Refusing a long name leaves the read lock held, and no operation ever gives it back. */
    method Save(dataType: Bytes, payload: Bytes, now: uint64, env: Env) returns (r: Outcome)
      requires Valid()
      modifies this`bucket, this`readers
      ensures Valid()
      ensures readers == old(readers) + if dataType != [] && hasDb && |dataType| > MAX_NAME then 1 else 0
      ensures dataType == [] ==> r == Failed(EmptyDataType)
      ensures dataType != [] && !hasDb ==> r == Failed(NotInitialized)
      ensures dataType != [] && hasDb && |dataType| > MAX_NAME ==> r == Failed(DataTypeTooLong)
      ensures 0 < |dataType| <= MAX_NAME && hasDb && !env.commits(0) ==> r == Failed(TransactionFailed)
      ensures !(0 < |dataType| <= MAX_NAME && hasDb && env.commits(0)) ==> bucket == old(bucket)
      ensures 0 < |dataType| <= MAX_NAME && hasDb && env.commits(0) ==>
                (Queue(), r) == EnforceSizePolicy(
                  Insert(old(Queue()), Entry(now, EncodeValue(dataType, payload))),
                  maxDBSizeBytes, env, 1)
    {
      if dataType == [] { return Failed(EmptyDataType); }
      readers := readers + 1;
      if !hasDb {
        readers := readers - 1;
        return Failed(NotInitialized);
      }
      var key := KeyBytes(now);
      if |dataType| > MAX_NAME { return Failed(DataTypeTooLong); }
      var val := EncodeValue(dataType, payload);
      if !env.commits(0) {
        readers := readers - 1;
        return Failed(TransactionFailed);
      }
      PutIsInsert(bucket, now, val);
      bucket := bucket[key := val];
      readers := readers - 1;
      r := EnforceSizePolicyLocked(env, 1);
    }

    /** Reads the earliest `limit` entries; the undecodable ones among them use up the limit. */
    method PeekBatch(limit: int) returns (p: Peek)
      requires Valid()
      modifies this`readers
      ensures readers == old(readers) + if p.Panicked? then 1 else 0
      ensures limit <= 0 ==> p == Peeked([])
      ensures limit > 0 && !hasDb ==> p == PeekFailed(NotInitialized)
      ensures limit > 0 && hasDb ==>
                p == if Readable(Take(Queue(), limit)) then Peeked(Records(Take(Queue(), limit))) else Panicked
    {
      if limit <= 0 { return Peeked([]); }
      readers := readers + 1;
      if !hasDb {
        readers := readers - 1;
        return PeekFailed(NotInitialized);
      }
      hide Readable, Records, EntriesOf, TimeKeys, DecodeValue;
      ReadNone();
      var out: seq<Record> := [];
      var q := EntriesOf(bucket);
      var i := 0;
      while i < limit && i < |q|
        invariant 0 <= i <= |q| && i <= limit && readers == old(readers) + 1
        invariant Readable(q[..i])
        invariant out == Records(q[..i])
      {
        var k, v := q[i].key, q[i].value;
        ReadOneMore(q, i, limit);
        match DecodeValue(v) {
          case Invalid =>
          case OutOfRange => return Panicked;
          case Value(dataType, payload) =>
            out := out + [Record(k, dataType, payload)];
        }
        i := i + 1;
      }
      assert Take(q, limit) == q[..i];
      readers := readers - 1;
      return Peeked(out);
    }

    /** Deletes by raw key; empty and absent keys are ignored. */
    method DeleteBatch(keys: seq<Bytes>, env: Env) returns (r: Outcome)
      requires Valid()
      modifies this`bucket, this`readers
      ensures Valid() && readers == old(readers)
      ensures keys == [] ==> r == Ok
      ensures keys != [] && !hasDb ==> r == Failed(NotInitialized)
      ensures keys != [] && hasDb && !env.commits(0) ==> r == Failed(TransactionFailed)
      ensures !(keys != [] && hasDb && env.commits(0)) ==> bucket == old(bucket)
      ensures keys != [] && hasDb && env.commits(0) ==>
                (Queue(), r) == EnforceSizePolicy(
                  Without(old(Queue()), Timestamps(keys)), maxDBSizeBytes, env, 1)
    {
      if keys == [] { return Ok; }
      readers := readers + 1;
      if !hasDb {
        readers := readers - 1;
        return Failed(NotInitialized);
      }
      if !env.commits(0) {
        readers := readers - 1;
        return Failed(TransactionFailed);
      }
      var i := 0;
      while i < |keys|
        invariant 0 <= i <= |keys| && readers == old(readers) + 1
        invariant bucket == old(bucket) - NonEmpty(keys[..i])
      {
        NonEmptySnoc(keys, i);
        var k := keys[i];
        i := i + 1;
        if k == [] { continue; }
        bucket := bucket - {k};
      }
      assert keys[..i] == keys;
      RawDelete(old(bucket), keys);
      readers := readers - 1;
      r := EnforceSizePolicyLocked(env, 1);
    }

    method EnforceSizePolicyLocked(env: Env, t: nat) returns (r: Outcome)
      requires Valid()
      modifies this`bucket
      ensures Valid()
      ensures (Queue(), r) == EnforceSizePolicy(old(Queue()), maxDBSizeBytes, env, t)
      ensures maxDBSizeBytes <= 0 || (env.stat(0).Size? && env.stat(0).bytes <= maxDBSizeBytes) ==>
                r == Ok && Queue() == old(Queue())
      ensures Queue() != old(Queue()) ==>
                maxDBSizeBytes > 0 && env.stat(0).Size? && env.stat(0).bytes > maxDBSizeBytes
      ensures Pruning(maxDBSizeBytes, env, t) && old(Queue()) != [] ==>
                exists m :: 200 <= m && Queue() == Drop(old(Queue()), m)
    {
      PolicyTrigger(Queue(), maxDBSizeBytes, env, t);
      if Pruning(maxDBSizeBytes, env, t) && Queue() != [] { PolicyPrunes(Queue(), maxDBSizeBytes, env, t); }
      if maxDBSizeBytes <= 0 { return Ok; }
      match env.stat(0) {
        case Unavailable => return Failed(StatFailed);
        case Size(size) =>
          if size <= maxDBSizeBytes { return Ok; }
          r := PruneOldestToTargetLocked(env, 1, t);
      }
    }

    method PruneOldestToTargetLocked(env: Env, k0: nat, t0: nat) returns (r: Outcome)
      requires Valid()
      modifies this`bucket
      ensures Valid()
      ensures (Queue(), r) == Prune(old(Queue()), PruneTarget(maxDBSizeBytes), env, k0, t0)
    {
      var target := (maxDBSizeBytes as real * 0.9).Floor;
      if target <= 0 {
        target := maxDBSizeBytes;
      }
      var k, t := k0, t0;
      while true
        invariant Valid()
        invariant Prune(Queue(), target, env, k, t) == Prune(old(Queue()), target, env, k0, t0)
        decreases |Queue()|
      {
        match env.stat(k) {
          case Unavailable => return Failed(StatFailed);
          case Size(size) =>
            if size <= target { return Ok; }
            var deleted, committed := DeleteOldestChunk(PRUNE_CHUNK_SIZE, env.commits(t));
            if !committed { return Failed(TransactionFailed); }
            if deleted == 0 { return Ok; }
            k, t := k + 1, t + 1;
        }
      }
    }

    method DeleteOldestChunk(n: int, commits: bool) returns (deleted: nat, committed: bool)
      requires Valid()
      modifies this`bucket
      ensures Valid()
      ensures n <= 0 ==> committed && deleted == 0 && bucket == old(bucket)
      ensures n > 0 && !commits ==> !committed && bucket == old(bucket)
      ensures n > 0 && commits ==>
                committed && deleted == Min(n, |old(Queue())|) && Queue() == Drop(old(Queue()), n)
    {
      deleted := 0;
      if n <= 0 { return 0, true; }
      if !commits { return 0, false; }
      committed := true;
      var q := EntriesOf(bucket);
      while deleted < n && deleted < |q|
        invariant 0 <= deleted <= |q| && deleted <= n
        invariant bucket == old(bucket) - AllKeyBytes(Keys(q[..deleted]))
      {
        KeysExtend(q, deleted);
        DeleteOneMore(old(bucket), Keys(q[..deleted]), q[deleted].key);
        bucket := bucket - {KeyBytes(q[deleted].key)};
        deleted := deleted + 1;
      }
      DeleteIsWithout(old(bucket), Keys(q[..deleted]));
      EntriesOfAscending(old(bucket));
      WithoutPrefix(q, deleted);
    }

    /** Close waits for the write lock, for ever if a read lock is never given back. */
    method Close() returns (closed: bool)
      ensures closed <==> CloseProceeds()
    {
      closed := readers == 0;
    }
  }

  // ---------- Calls one after the other ----------

  datatype Call =
    | SaveCall(dataType: Bytes, payload: Bytes, now: uint64, env: Env)
    | PeekCall(limit: int)
    | DeleteCall(keys: seq<Bytes>, env: Env)

  /** After any calls Close proceeds exactly if none of them was a save under a too long name and none
      a peek that panicked. */
  method Perform(b: DataBuffer, calls: seq<Call>) returns (panicked: seq<bool>, closed: bool)
    requires b.Valid() && b.CloseProceeds() && b.hasDb
    modifies b`bucket, b`readers
    ensures b.Valid() && |panicked| == |calls|
    ensures forall i :: 0 <= i < |calls| && panicked[i] ==> calls[i].PeekCall?
    ensures closed <==> forall i :: 0 <= i < |calls| ==>
                          !panicked[i] && !(calls[i].SaveCall? && |calls[i].dataType| > MAX_NAME)
  {
    hide EnforceSizePolicy, EntriesOf, TimeKeys, Readable, Records, EncodeValue;
    panicked := [];
    var i := 0;
    while i < |calls|
      invariant 0 <= i == |panicked| <= |calls| && b.Valid()
      invariant forall k :: 0 <= k < i && panicked[k] ==> calls[k].PeekCall?
      invariant b.CloseProceeds() <==> forall k :: 0 <= k < i ==>
                  !panicked[k] && !(calls[k].SaveCall? && |calls[k].dataType| > MAX_NAME)
    {
      var panic := false;
      match calls[i] {
        case SaveCall(dataType, payload, now, env) =>
          var r := b.Save(dataType, payload, now, env);
        case PeekCall(limit) =>
          var p := b.PeekBatch(limit);
          panic := p.Panicked?;
        case DeleteCall(keys, env) =>
          var r := b.DeleteBatch(keys, env);
      }
      panicked := panicked + [panic];
      i := i + 1;
    }
    closed := b.Close();
  }
}
