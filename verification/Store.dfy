/** The cache bucket seen as a queue: its entries in key order, and the records they decode to. */
module Store {
  import opened ByteStrings
  import opened RecordCodec

  /** The 8-byte key of an entry, as the timestamp it encodes. */
  type Key = uint64

  datatype Entry = Entry(key: Key, value: Bytes)

  datatype Record = Record(key: Key, dataType: Bytes, payload: Bytes)

  ghost predicate Ascending(q: seq<Entry>) {
    forall i, j :: 0 <= i < j < |q| ==> q[i].key < q[j].key
  }

  function Keys(q: seq<Entry>): set<Key> { set e | e in q :: e.key }

  function RecordKeys(rs: seq<Record>): set<Key> { set r | r in rs :: r.key }

  /** The record an entry decodes to, if any. */
  function RecordOf(e: Entry): seq<Record> {
    match DecodeValue(e.value)
    case Value(dataType, payload) => [Record(e.key, dataType, payload)]
    case _ => []
  }

  function Records(q: seq<Entry>): seq<Record> {
    if q == [] then [] else RecordOf(q[0]) + Records(q[1..])
  }

  /** No entry makes the reader panic. */
  ghost predicate Readable(q: seq<Entry>) {
    forall e :: e in q ==> !DecodeValue(e.value).OutOfRange?
  }

  function OfType(rs: seq<Record>, dataType: Bytes): seq<Record> {
    if rs == [] then []
    else (if rs[0].dataType == dataType then [rs[0]] else []) + OfType(rs[1..], dataType)
  }

  /** Bucket.Put. */
  function Insert(q: seq<Entry>, e: Entry): seq<Entry> {
    if q == [] || e.key < q[0].key then [e] + q
    else if e.key == q[0].key then [e] + q[1..]
    else [q[0]] + Insert(q[1..], e)
  }

  /** Bucket.Delete for every key of a set. */
  function Without(q: seq<Entry>, keys: set<Key>): seq<Entry> {
    if q == [] then []
    else (if q[0].key in keys then [] else [q[0]]) + Without(q[1..], keys)
  }

  function Min(a: int, b: int): int { if a <= b then a else b }

  function Take<T>(s: seq<T>, n: int): seq<T>
    requires n >= 0
  {
    s[..Min(n, |s|)]
  }

  function Drop<T>(s: seq<T>, n: int): seq<T>
    requires n >= 0
  {
    s[Min(n, |s|)..]
  }

  // ---------- Records and types ----------

  lemma {:induction false} RecordsConcat(a: seq<Entry>, b: seq<Entry>)
    ensures Records(a + b) == Records(a) + Records(b)
  {
    if a == [] {
      assert a + b == b;
    } else {
      assert (a + b)[1..] == a[1..] + b;
      RecordsConcat(a[1..], b);
    }
  }

  lemma {:induction false} RecordsMembers(q: seq<Entry>, r: Record)
    ensures r in Records(q) <==> exists e :: e in q && RecordOf(e) == [r]
    ensures |Records(q)| <= |q|
  {
    if q == [] {
    } else {
      RecordsMembers(q[1..], r);
      assert q == [q[0]] + q[1..];
      if r in RecordOf(q[0]) {
        assert RecordOf(q[0]) == [r];
      }
      if e :| e in q && RecordOf(e) == [r] {
        assert e == q[0] || e in q[1..];
      }
    }
  }

  lemma {:induction false} OfTypeConcat(a: seq<Record>, b: seq<Record>, dataType: Bytes)
    ensures OfType(a + b, dataType) == OfType(a, dataType) + OfType(b, dataType)
  {
    if a == [] {
      assert a + b == b;
    } else {
      var head := if a[0].dataType == dataType then [a[0]] else [];
      assert (a + b)[0] == a[0] && (a + b)[1..] == a[1..] + b;
      OfTypeConcat(a[1..], b, dataType);
      assert OfType(a + b, dataType) == head + (OfType(a[1..], dataType) + OfType(b, dataType));
      assert OfType(a, dataType) == head + OfType(a[1..], dataType);
    }
  }

  lemma OfTypeSnoc(rs: seq<Record>, r: Record, dataType: Bytes)
    ensures OfType(rs + [r], dataType) == OfType(rs, dataType) + if r.dataType == dataType then [r] else []
  {
    OfTypeConcat(rs, [r], dataType);
    var one := [r];
    assert one[1..] == [];
  }

  lemma {:induction false} OfTypeMembers(rs: seq<Record>, dataType: Bytes, r: Record)
    ensures r in OfType(rs, dataType) <==> r in rs && r.dataType == dataType
  {
    if rs == [] {
    } else {
      OfTypeMembers(rs[1..], dataType, r);
      assert rs == [rs[0]] + rs[1..];
    }
  }

  /** Grouping by type loses no multiplicity. */
  lemma {:induction false} OfTypeMultiplicity(rs: seq<Record>, r: Record)
    ensures multiset(OfType(rs, r.dataType))[r] == multiset(rs)[r]
  {
    if rs == [] {
    } else {
      OfTypeMultiplicity(rs[1..], r);
      assert rs == [rs[0]] + rs[1..];
      assert multiset(rs) == multiset{rs[0]} + multiset(rs[1..]);
    }
  }

  // ---------- Key order ----------

  lemma {:induction false} AscendingTail(q: seq<Entry>)
    requires Ascending(q) && q != []
    ensures Ascending(q[1..])
    ensures forall e :: e in q[1..] ==> q[0].key < e.key
  {
  }

  lemma HeadIsMember<T>(s: seq<T>)
    requires s != []
    ensures s[0] in s
  {
  }

  /** The entries of a bucket have only one ascending arrangement. */
  lemma {:induction false} AscendingIsUnique(a: seq<Entry>, b: seq<Entry>)
    requires Ascending(a) && Ascending(b)
    requires forall e :: e in a <==> e in b
    ensures a == b
  {
    if a == [] {
      if b != [] { HeadIsMember(b); }
    } else {
      assert a[0] in b;
      assert b[0] in a;
      AscendingTail(a);
      AscendingTail(b);
      assert a == [a[0]] + a[1..] && b == [b[0]] + b[1..];
      assert a[0] == b[0];
      forall e ensures e in a[1..] <==> e in b[1..] {
        if e in a[1..] { assert e in b; }
        if e in b[1..] { assert e in a; }
      }
      AscendingIsUnique(a[1..], b[1..]);
    }
  }

  lemma {:induction false} WithoutMembers(q: seq<Entry>, keys: set<Key>, e: Entry)
    ensures e in Without(q, keys) <==> e in q && e.key !in keys
  {
    if q == [] {
    } else {
      WithoutMembers(q[1..], keys, e);
      assert q == [q[0]] + q[1..];
    }
  }

  lemma {:induction false} WithoutAscending(q: seq<Entry>, keys: set<Key>)
    requires Ascending(q)
    ensures Ascending(Without(q, keys))
  {
    if q == [] {
    } else {
      AscendingTail(q);
      WithoutAscending(q[1..], keys);
      var rest := Without(q[1..], keys);
      forall e | e in rest ensures q[0].key < e.key {
        WithoutMembers(q[1..], keys, e);
      }
    }
  }

  lemma {:induction false} WithoutConcat(a: seq<Entry>, b: seq<Entry>, keys: set<Key>)
    ensures Without(a + b, keys) == Without(a, keys) + Without(b, keys)
  {
    if a == [] {
      assert a + b == b;
    } else {
      assert (a + b)[1..] == a[1..] + b;
      WithoutConcat(a[1..], b, keys);
    }
  }

  lemma {:induction false} WithoutNone(q: seq<Entry>, keys: set<Key>)
    requires forall e :: e in q ==> e.key !in keys
    ensures Without(q, keys) == q
  {
    if q == [] {
    } else {
      WithoutNone(q[1..], keys);
      assert q[0] in q;
    }
  }

  lemma {:induction false} WithoutAll(q: seq<Entry>, keys: set<Key>)
    requires forall e :: e in q ==> e.key in keys
    ensures Without(q, keys) == []
  {
    if q == [] {
    } else {
      WithoutAll(q[1..], keys);
      assert q[0] in q;
    }
  }

  /** Entries on the two sides of a cut have different keys. */
  lemma CutSeparatesKeys(q: seq<Entry>, n: nat, e: Entry, f: Entry)
    requires Ascending(q) && n <= |q| && e in q[..n] && f in q[n..]
    ensures e.key < f.key
  {
    var i :| 0 <= i < n && q[..n][i] == e;
    var j :| 0 <= j < |q| - n && q[n..][j] == f;
    assert q[i] == e && q[n + j] == f;
  }

  /** Deleting the first keys of a queue drops its oldest entries and no others. */
  lemma WithoutPrefix(q: seq<Entry>, n: nat)
    requires Ascending(q) && n <= |q|
    ensures Without(q, Keys(q[..n])) == q[n..]
  {
    hide Ascending, Without;
    var keys := Keys(q[..n]);
    assert q == q[..n] + q[n..];
    WithoutConcat(q[..n], q[n..], keys);
    WithoutAll(q[..n], keys);
    forall e, f | e in q[..n] && f in q[n..] ensures e.key != f.key {
      CutSeparatesKeys(q, n, e, f);
    }
    WithoutNone(q[n..], keys);
  }

  lemma {:induction false} InsertMembers(q: seq<Entry>, e: Entry, f: Entry)
    requires Ascending(q)
    ensures f in Insert(q, e) <==> f == e || (f in q && f.key != e.key)
  {
    if q == [] {
    } else {
      AscendingTail(q);
      assert q == [q[0]] + q[1..];
      if e.key < q[0].key {
      } else if e.key == q[0].key {
      } else {
        InsertMembers(q[1..], e, f);
      }
    }
  }

  lemma {:induction false} InsertAscending(q: seq<Entry>, e: Entry)
    requires Ascending(q)
    ensures Ascending(Insert(q, e))
  {
    if q == [] {
    } else {
      AscendingTail(q);
      if e.key >= q[0].key && e.key != q[0].key {
        InsertAscending(q[1..], e);
        var rest := Insert(q[1..], e);
        assert q[0] in q;
        forall f | f in rest ensures q[0].key < f.key {
          InsertMembers(q[1..], e, f);
        }
      }
    }
  }

  /** A key newer than every stored one goes to the end. */
  lemma {:induction false} InsertNewest(q: seq<Entry>, e: Entry)
    requires forall f :: f in q ==> f.key < e.key
    ensures Insert(q, e) == q + [e]
  {
    if q == [] {
    } else {
      assert q[0] in q;
      InsertNewest(q[1..], e);
      assert q == [q[0]] + q[1..];
    }
  }

  // ---------- Record order ----------

  ghost predicate Ordered(rs: seq<Record>) {
    forall i, j :: 0 <= i < j < |rs| ==> rs[i].key < rs[j].key
  }

  lemma OrderedCons(r: Record, rs: seq<Record>)
    requires Ordered(rs) && forall x :: x in rs ==> r.key < x.key
    ensures Ordered([r] + rs)
  {
  }

  lemma OrderedSnoc(rs: seq<Record>, r: Record)
    requires Ordered(rs) && forall x :: x in rs ==> x.key < r.key
    ensures Ordered(rs + [r])
  {
  }

  lemma {:induction false} RecordsOrdered(q: seq<Entry>)
    requires Ascending(q)
    ensures Ordered(Records(q))
  {
    if q == [] {
    } else {
      AscendingTail(q);
      RecordsOrdered(q[1..]);
      if RecordOf(q[0]) != [] {
        forall x | x in Records(q[1..]) ensures q[0].key < x.key {
          RecordsMembers(q[1..], x);
        }
        OrderedCons(RecordOf(q[0])[0], Records(q[1..]));
      }
    }
  }

  lemma {:induction false} OfTypeOrdered(rs: seq<Record>, t: Bytes)
    requires Ordered(rs)
    ensures Ordered(OfType(rs, t))
  {
    if rs == [] {
    } else {
      OfTypeOrdered(rs[1..], t);
      if rs[0].dataType == t {
        forall x | x in OfType(rs[1..], t) ensures rs[0].key < x.key {
          OfTypeMembers(rs[1..], t, x);
        }
        OrderedCons(rs[0], OfType(rs[1..], t));
      }
    }
  }

  /** With a record, a prefix of an ordered sequence holds every older one. */
  lemma PrefixHoldsOlder(p: seq<Record>, rs: seq<Record>, x: Record, y: Record)
    requires Ordered(rs) && p <= rs && x in p && y in rs && y.key < x.key
    ensures y in p
  {
    var i :| 0 <= i < |p| && p[i] == x;
    var j :| 0 <= j < |rs| && rs[j] == y;
    assert rs[i] == x;
    assert j < i;
    assert p[j] == y;
  }

  lemma SameKeySameRecord(rs: seq<Record>, x: Record, y: Record)
    requires Ordered(rs) && x in rs && y in rs && x.key == y.key
    ensures x == y
  {
    var i :| 0 <= i < |rs| && rs[i] == x;
    var j :| 0 <= j < |rs| && rs[j] == y;
    assert !(i < j) && !(j < i);
  }
}
