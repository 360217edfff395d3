/** Byte strings as Go sees them: the common ground of keys, values, type names and firmware tables. */
module ByteStrings {

  type byte = x: int | 0 <= x < 256

  type Bytes = seq<byte>

  type uint32 = x: int | 0 <= x < 0x1_0000_0000

  type uint64 = x: int | 0 <= x < 0x1_0000_0000_0000_0000

  /** Go's bytewise string order, which is also the order of a bbolt cursor. */
  predicate Less(a: Bytes, b: Bytes) {
    b != [] && (a == [] || a[0] < b[0] || (a[0] == b[0] && Less(a[1..], b[1..])))
  }

  lemma {:induction false} LessIsTransitive(a: Bytes, b: Bytes, c: Bytes)
    requires Less(a, b) && Less(b, c)
    ensures Less(a, c)
  {
    if a != [] && a[0] == b[0] == c[0] {
      LessIsTransitive(a[1..], b[1..], c[1..]);
    }
  }

  lemma {:induction false} LessIsTotal(a: Bytes, b: Bytes)
    ensures a == b || Less(a, b) || Less(b, a)
    ensures !(Less(a, b) && Less(b, a)) && !(a == b && Less(a, b))
  {
    if a != [] && b != [] {
      LessIsTotal(a[1..], b[1..]);
      assert a == [a[0]] + a[1..] && b == [b[0]] + b[1..];
    }
  }

  predicate IsLeast(k: Bytes, s: set<Bytes>) {
    k in s && forall x :: x in s ==> x == k || Less(k, x)
  }

  lemma {:induction false} LeastExists(s: set<Bytes>)
    requires s != {}
    ensures exists k :: IsLeast(k, s)
    decreases |s|
  {
    var x :| x in s;
    if s == {x} {
      assert IsLeast(x, s);
    } else {
      LeastExists(s - {x});
      var y :| IsLeast(y, s - {x});
      LessIsTotal(x, y);
      var k := if Less(x, y) then x else y;
      forall z | z in s ensures z == k || Less(k, z) {
        if k == x && z != x && z != y {
          LessIsTransitive(x, y, z);
        }
      }
      assert IsLeast(k, s);
    }
  }

  lemma LeastIsUnique(s: set<Bytes>)
    ensures forall a, b :: IsLeast(a, s) && IsLeast(b, s) ==> a == b
  {
    forall a, b | IsLeast(a, s) && IsLeast(b, s) ensures a == b {
      LessIsTotal(a, b);
    }
  }

  function Least(s: set<Bytes>): Bytes
    requires s != {}
  {
    LeastExists(s);
    LeastIsUnique(s);
    var k :| k in s && IsLeast(k, s);
    k
  }

  /** The strings of a set in ascending order: what sort.Strings and a bbolt cursor produce. */
  function Sorted(s: set<Bytes>): seq<Bytes>
    decreases |s|
  {
    if s == {} then []
    else
      var k := Least(s);
      [k] + Sorted(s - {k})
  }

  lemma {:induction false} SortedMembers(s: set<Bytes>)
    ensures forall k :: k in Sorted(s) <==> k in s
    decreases |s|
  {
    if s == {} {
    } else {
      SortedMembers(s - {Least(s)});
    }
  }

  lemma {:induction false} SortedAscends(s: set<Bytes>)
    ensures forall i, j :: 0 <= i < j < |Sorted(s)| ==> Less(Sorted(s)[i], Sorted(s)[j])
    decreases |s|
  {
    if s == {} {
    } else {
      var k, rest := Least(s), Sorted(s - {Least(s)});
      SortedAscends(s - {k});
      SortedMembers(s - {k});
      forall x | x in rest ensures Less(k, x) {
        assert IsLeast(k, s);
      }
    }
  }

  /** 256 to the power `n`. */
  function Pow256(n: nat): (p: nat)
    ensures p > 0
  {
    if n == 0 then 1 else 256 * Pow256(n - 1)
  }

  /** The number a big-endian byte string denotes. */
  function BigEndian(b: Bytes): nat {
    if b == [] then 0 else b[0] * Pow256(|b| - 1) + BigEndian(b[1..])
  }

  /** binary.BigEndian.PutUint*: the low `width` bytes of `n`, most significant first. */
  function PutBigEndian(n: nat, width: nat): (b: Bytes)
    requires n < Pow256(width)
    ensures |b| == width && BigEndian(b) == n
  {
    if width == 0 then []
    else
      var p := Pow256(width - 1);
      LeadingByte(n, p);
      [n / p] + PutBigEndian(n % p, width - 1)
  }

  lemma LeadingByte(n: nat, p: nat)
    requires p > 0 && n < 256 * p
    ensures 0 <= n / p < 256 && n % p < p && n == n / p * p + n % p
  {
    assert n == n / p * p + n % p;
    MulMonotone(256, n / p, p);
  }

  lemma MulMonotone(x: nat, y: nat, p: nat)
    ensures x <= y ==> x * p <= y * p
  {
    if x <= y {
      assert y * p == x * p + (y - x) * p;
    }
  }

  lemma {:induction false} BigEndianBound(b: Bytes)
    ensures BigEndian(b) < Pow256(|b|)
  {
    if b == [] {
    } else {
      BigEndianBound(b[1..]);
      var p := Pow256(|b| - 1);
      MulMonotone(b[0], 255, p);
      assert Pow256(|b|) == 256 * p;
    }
  }

  lemma LeadingByteDecides(x: nat, y: nat, p: nat, u: nat, v: nat)
    requires x < y && u < p
    ensures x * p + u < y * p + v
  {
    MulMonotone(x + 1, y, p);
    assert (x + 1) * p == x * p + p;
  }

  /** For byte strings of one width, lexicographic order is numeric order. */
  lemma {:induction false} LessIsNumeric(a: Bytes, b: Bytes)
    requires |a| == |b|
    ensures Less(a, b) <==> BigEndian(a) < BigEndian(b)
  {
    if a == [] {
    } else {
      var p, x, y := Pow256(|a| - 1), BigEndian(a[1..]), BigEndian(b[1..]);
      assert BigEndian(a) == a[0] * p + x && BigEndian(b) == b[0] * p + y;
      LessIsNumeric(a[1..], b[1..]);
      BigEndianBound(a[1..]);
      BigEndianBound(b[1..]);
      if a[0] < b[0] {
        LeadingByteDecides(a[0], b[0], p, x, y);
      } else if b[0] < a[0] {
        LeadingByteDecides(b[0], a[0], p, y, x);
      }
    }
  }

  /** Byte strings of one width that denote the same number are the same. */
  lemma BigEndianInjective(a: Bytes, b: Bytes)
    requires |a| == |b| && BigEndian(a) == BigEndian(b)
    ensures a == b
  {
    LessIsNumeric(a, b);
    LessIsNumeric(b, a);
    LessIsTotal(a, b);
  }

  /** Go's string order: the first difference decides, and a proper prefix comes first. */
  lemma {:induction false} LessExactly(a: Bytes, b: Bytes)
    ensures Less(a, b) <==> exists k :: DecidedAt(a, b, k)
  {
    if a != [] && b != [] {
      var c, d := a[1..], b[1..];
      LessExactly(c, d);
      if a[0] == b[0] {
        forall k: nat ensures DecidedAt(c, d, k) <==> DecidedAt(a, b, k + 1) { DecidedBehind(a, b, k); }
        if k: nat :| DecidedAt(c, d, k) { assert DecidedAt(a, b, k + 1); }
        if k: nat :| DecidedAt(a, b, k) { assert k > 0 && DecidedAt(c, d, k - 1); }
      } else {
        assert a[0] < b[0] ==> DecidedAt(a, b, 0);
      }
    } else {
      assert a == [] && b != [] ==> DecidedAt(a, b, 0);
    }
  }

  lemma DecidedBehind(a: Bytes, b: Bytes, k: nat)
    requires a != [] && b != [] && a[0] == b[0]
    ensures DecidedAt(a[1..], b[1..], k) <==> DecidedAt(a, b, k + 1)
  {
    assert forall i :: 0 <= i < |a| - 1 ==> a[1..][i] == a[i + 1];
    assert forall i :: 0 <= i < |b| - 1 ==> b[1..][i] == b[i + 1];
    if DecidedAt(a, b, k + 1) {
      forall i | 0 <= i < k ensures a[1..][i] == b[1..][i] { assert a[i + 1] == b[i + 1]; }
    }
  }

  /** Position `k` is where `b` is shown to come after `a`. */
  ghost predicate DecidedAt(a: Bytes, b: Bytes, k: nat) {
    && k <= |a| && k < |b| && (forall i :: 0 <= i < k ==> a[i] == b[i])
    && (k < |a| ==> a[k] < b[k])
  }
}
