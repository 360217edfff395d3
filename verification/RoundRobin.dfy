/** The order of an overfull batch, said without the schedule: round by round, type by type. */
module RoundRobin {
  import opened ByteStrings
  import opened Store
  import opened FairBatch
  import opened Airtime

  /** How many records of its type stand before position `a`. */
  function Rank(s: seq<Record>, a: nat): nat
    requires a < |s|
  {
    |OfType(s[..a], s[a].dataType)|
  }

  /** The round that position `a` belongs to, when each round gives a type as many as its weight. */
  function RoundAt(wt: Weights, s: seq<Record>, a: nat): nat
    requires a < |s|
  {
    Quotient(Rank(s, a), wt(s[a].dataType))
  }

  function Quotient(a: nat, d: nat): nat
    requires d > 0
  {
    a / d
  }

  /** Earlier rounds first, and within a round the types in lexicographic order. */
  predicate NotLater(m: nat, t: Bytes, n: nat, u: Bytes) {
    m < n || (m == n && (t == u || Less(t, u)))
  }

  lemma NotLaterIsAntisymmetric(m: nat, t: Bytes, n: nat, u: Bytes)
    requires NotLater(m, t, n, u) && NotLater(n, u, m, t)
    ensures t == u
  {
    LessIsTotal(t, u);
  }

  ghost predicate Follows(wt: Weights, s: seq<Record>, a: nat, b: nat)
    requires a < |s| && b < |s|
  {
    NotLater(RoundAt(wt, s, a), s[a].dataType, RoundAt(wt, s, b), s[b].dataType)
  }

  ghost predicate InTurn(wt: Weights, s: seq<Record>) {
    forall a, b :: 0 <= a < b < |s| ==> Follows(wt, s, a, b)
  }

  /** Everything is of an earlier round than `n`, or of round `n` and one of the first `c` types. */
  ghost predicate UpTo(wt: Weights, s: seq<Record>, order: seq<Bytes>, n: nat, c: nat)
    requires c <= |order|
  {
    forall a :: 0 <= a < |s| ==> EarlierThan(wt, s, order, n, c, a)
  }

  ghost predicate EarlierThan(wt: Weights, s: seq<Record>, order: seq<Bytes>, n: nat, c: nat, a: nat)
    requires c <= |order| && a < |s|
  {
    RoundAt(wt, s, a) < n || (RoundAt(wt, s, a) == n && s[a].dataType in order[..c])
  }

  lemma QuotientInRound(n: nat, w: nat, i: nat)
    requires i < w
    ensures Quotient(n * w + i, w) == n
  {
    var q := (n * w + i) / w;
    assert q * w <= n * w + i < q * w + w;
    if q < n { MulMonotone(q + 1, n, w); }
    if n < q { MulMonotone(n + 1, q, w); }
  }

  /** Appending does not move what is there. */
  lemma RoundStays(wt: Weights, s: seq<Record>, t: seq<Record>, a: nat)
    requires a < |s|
    ensures RoundAt(wt, s + t, a) == RoundAt(wt, s, a) && (s + t)[a] == s[a]
  {
    assert (s + t)[..a] == s[..a];
  }

  lemma RoundOfTurn(wt: Weights, s: seq<Record>, turn: seq<Record>, t: Bytes, n: nat, i: nat)
    requires i < |turn| <= wt(t) && forall r :: r in turn ==> r.dataType == t
    requires |OfType(s, t)| == n * wt(t)
    ensures RoundAt(wt, s + turn, |s| + i) == n && (s + turn)[|s| + i].dataType == t
  {
    assert (s + turn)[..|s| + i] == s + turn[..i];
    assert (s + turn)[|s| + i] == turn[i] && turn[i] in turn;
    OfTypeConcat(s, turn[..i], t);
    forall r | r in turn[..i] ensures r.dataType == t { assert r in turn; }
    OfTypeUniform(turn[..i], t, t);
    QuotientInRound(n, wt(t), i);
  }

  lemma AppendTurn(wt: Weights, s: seq<Record>, turn: seq<Record>, order: seq<Bytes>, n: nat, c: nat)
    requires c < |order| && Ascends(order) && InTurn(wt, s) && UpTo(wt, s, order, n, c)
    requires |turn| <= wt(order[c]) && forall r :: r in turn ==> r.dataType == order[c]
    requires turn != [] ==> |OfType(s, order[c])| == n * wt(order[c])
    ensures InTurn(wt, s + turn) && UpTo(wt, s + turn, order, n, c + 1)
  {
    hide RoundAt, Less, OfType, PlacedAt, Follows, Ascends;
    var all, d := s + turn, c + 1;
    forall a | 0 <= a < |all| ensures PlacedAt(wt, s, all, order, n, c, a) && EarlierThan(wt, all, order, n, d, a) {
      PlacedBehind(wt, s, turn, order, n, c, a);
    }
    assert InTurn(wt, all) by {
      forall a, b | 0 <= a < b < |all| ensures Follows(wt, all, a, b) {
        FollowsStill(wt, s, all, order, n, c, a, b);
      }
    }
  }

  lemma PlacedBehind(wt: Weights, s: seq<Record>, turn: seq<Record>, order: seq<Bytes>, n: nat, c: nat, a: nat)
    requires c < |order| && UpTo(wt, s, order, n, c) && a < |s| + |turn|
    requires |turn| <= wt(order[c]) && forall r :: r in turn ==> r.dataType == order[c]
    requires turn != [] ==> |OfType(s, order[c])| == n * wt(order[c])
    ensures PlacedAt(wt, s, s + turn, order, n, c, a) && EarlierThan(wt, s + turn, order, n, c + 1, a)
  {
    hide RoundAt, OfType;
    if a < |s| {
      assert EarlierThan(wt, s, order, n, c, a);
      RoundStays(wt, s, turn, a);
      assert order[..c + 1] == order[..c] + [order[c]];
    } else {
      RoundOfTurn(wt, s, turn, order[c], n, a - |s|);
      assert order[..c + 1][c] == order[c];
    }
  }

  lemma FollowsStill(wt: Weights, s: seq<Record>, all: seq<Record>, order: seq<Bytes>, n: nat, c: nat, a: nat, b: nat)
    requires c < |order| && Ascends(order) && InTurn(wt, s) && UpTo(wt, s, order, n, c)
    requires a < b < |all|
    requires PlacedAt(wt, s, all, order, n, c, a) && PlacedAt(wt, s, all, order, n, c, b)
    ensures Follows(wt, all, a, b)
  {
    hide RoundAt, Less, OfType;
    if b < |s| {
      assert Follows(wt, s, a, b);
    } else if a < |s| {
      assert EarlierThan(wt, s, order, n, c, a);
      if RoundAt(wt, all, a) == n {
        var i :| 0 <= i < c && order[..c][i] == s[a].dataType;
        assert Less(order[i], order[c]);
      }
    }
  }

  /** What becomes of a position: it stays as it was, or belongs to the new turn. */
  ghost predicate PlacedAt(wt: Weights, s: seq<Record>, all: seq<Record>, order: seq<Bytes>, n: nat, c: nat, a: nat)
    requires c < |order| && a < |all|
  {
    && EarlierThan(wt, all, order, n, c + 1, a)
    && (if a < |s| then RoundAt(wt, all, a) == RoundAt(wt, s, a) && all[a] == s[a]
        else RoundAt(wt, all, a) == n && all[a].dataType == order[c])
  }

  /** A type that still has a turn in round `n` had a full one in every round before. */
  lemma TurnComesFull(wt: Weights, w: seq<Record>, order: seq<Bytes>, n: nat, c: nat)
    requires Distinct(order) && c < |order|
    ensures |Turn(wt, w, order[c], n)| <= wt(order[c])
    ensures forall r :: r in Turn(wt, w, order[c], n) ==> r.dataType == order[c]
    ensures Turn(wt, w, order[c], n) != [] ==>
              |OfType(Rounds(wt, w, order, n) + Round(wt, w, order[..c], n), order[c])| == n * wt(order[c])
  {
    var t := order[c];
    forall r | r in Turn(wt, w, t, n) ensures r.dataType == t {
      assert r in OfType(w, t);
      OfTypeMembers(w, t, r);
    }
    ServedFormula(wt, w, t, n);
    OfTypeConcat(Rounds(wt, w, order, n), Round(wt, w, order[..c], n), t);
    OfTypeRounds(wt, w, order, n, t);
    DistinctPrefix(order, c, c);
    OfTypeRound(wt, w, order[..c], n, t);
    hide Round, Rounds, OfType, Distinct;
    assert FirstRounds(wt, w, order, n, t) == OfType(w, t)[..Served(wt, w, t, n)];
  }

  lemma {:induction false} RoundInTurn(wt: Weights, w: seq<Record>, order: seq<Bytes>, n: nat, c: nat)
    requires Distinct(order) && Ascends(order) && c <= |order|
    requires InTurn(wt, Rounds(wt, w, order, n)) && UpTo(wt, Rounds(wt, w, order, n), order, n, 0)
    ensures InTurn(wt, Rounds(wt, w, order, n) + Round(wt, w, order[..c], n))
    ensures UpTo(wt, Rounds(wt, w, order, n) + Round(wt, w, order[..c], n), order, n, c)
  {
    var done := Rounds(wt, w, order, n);
    hide InTurn, UpTo, Ascends, Distinct, Rounds, OfType, Turn;
    if c == 0 {
      assert done + Round(wt, w, order[..0], n) == done;
    } else {
      RoundInTurn(wt, w, order, n, c - 1);
      TurnComesFull(wt, w, order, n, c - 1);
      AppendTurn(wt, done + Round(wt, w, order[..c - 1], n), Turn(wt, w, order[c - 1], n), order, n, c - 1);
      RoundSplit(wt, w, order, n, c - 1);
      var before, turn := Round(wt, w, order[..c - 1], n), Turn(wt, w, order[c - 1], n);
      assert done + (before + turn) == done + before + turn;
    }
  }

  lemma {:induction false} RoundsInTurn(wt: Weights, w: seq<Record>, order: seq<Bytes>, n: nat)
    requires Distinct(order) && Ascends(order)
    ensures InTurn(wt, Rounds(wt, w, order, n)) && UpTo(wt, Rounds(wt, w, order, n), order, n, 0)
  {
    if n == 0 {
    } else {
      RoundsInTurn(wt, w, order, n - 1);
      RoundInTurn(wt, w, order, n - 1, |order|);
      assert order[..|order|] == order;
      var m, all := n - 1, Rounds(wt, w, order, n);
      forall a | 0 <= a < |all| ensures EarlierThan(wt, all, order, n, 0, a) {
        assert EarlierThan(wt, all, order, m, |order|, a);
      }
    }
  }

  lemma PrefixInTurn(wt: Weights, s: seq<Record>, m: nat)
    requires InTurn(wt, s) && m <= |s|
    ensures InTurn(wt, s[..m])
  {
    hide RoundAt;
    forall a | 0 <= a < m ensures RoundAt(wt, s[..m], a) == RoundAt(wt, s, a) {
      assert s[..m] + s[m..] == s;
      RoundStays(wt, s[..m], s[m..], a);
    }
    forall a, b | 0 <= a < b < m ensures Follows(wt, s[..m], a, b) {
      assert Follows(wt, s, a, b);
    }
  }

  // ---------- The schedule is the only one ----------

  /** The records of a window in turn, each type's in the order of the window. */
  ghost predicate Schedules(wt: Weights, w: seq<Record>, s: seq<Record>) {
    InTurn(wt, s) && forall t :: OfType(s, t) == OfType(w, t)
  }

  /** The round of the last record of a type. */
  function LastRound(wt: Weights, rs: seq<Record>, t: Bytes): nat
    requires rs != []
  {
    Quotient(|rs| - 1, wt(t))
  }

  /** Where the last record of a type stands. */
  lemma {:induction false} LastOfType(wt: Weights, s: seq<Record>, t: Bytes) returns (a: nat)
    requires OfType(s, t) != []
    ensures a < |s| && s[a].dataType == t && RoundAt(wt, s, a) == LastRound(wt, OfType(s, t), t)
  {
    var init, last := s[..|s| - 1], s[|s| - 1];
    assert s == init + [last];
    OfTypeSnoc(init, last, t);
    if last.dataType == t {
      a := |s| - 1;
    } else {
      a := LastOfType(wt, init, t);
      RoundStays(wt, init, [last], a);
    }
  }

  lemma SameLastType(wt: Weights, a: seq<Record>, b: seq<Record>)
    requires a != [] && b != [] && InTurn(wt, a) && InTurn(wt, b)
    requires forall t :: OfType(a, t) == OfType(b, t)
    ensures a[|a| - 1].dataType == b[|b| - 1].dataType
  {
    hide InTurn, OfType, Less, LastRound, NotLater;
    var s, t := a[|a| - 1].dataType, b[|b| - 1].dataType;
    OfTypeMembers(a, s, a[|a| - 1]);
    OfTypeMembers(b, t, b[|b| - 1]);
    LastIsLast(wt, a, s, t);
    LastIsLast(wt, b, t, s);
    NotLaterIsAntisymmetric(LastRound(wt, OfType(a, t), t), t, LastRound(wt, OfType(a, s), s), s);
  }

  /** The last position of a sequence in turn is at or after the last one of every type. */
  lemma LastIsLast(wt: Weights, a: seq<Record>, s: Bytes, t: Bytes)
    requires a != [] && InTurn(wt, a) && s == a[|a| - 1].dataType
    requires OfType(a, s) != [] && OfType(a, t) != []
    ensures NotLater(LastRound(wt, OfType(a, t), t), t, LastRound(wt, OfType(a, s), s), s)
  {
    hide OfType;
    var i := LastOfType(wt, a, t);
    var init, last := a[..|a| - 1], a[|a| - 1];
    assert a == init + [last];
    OfTypeSnoc(init, last, s);
    assert Rank(a, |a| - 1) == |OfType(a, s)| - 1;
    if i < |a| - 1 { assert Follows(wt, a, i, |a| - 1); }
  }

  /** There is only one way to schedule a window. */
  lemma {:induction false} ScheduleIsUnique(wt: Weights, a: seq<Record>, b: seq<Record>)
    requires InTurn(wt, a) && InTurn(wt, b) && forall t :: OfType(a, t) == OfType(b, t)
    ensures a == b
  {
    if a == [] {
      if b != [] { OfTypeMembers(b, b[0].dataType, b[0]); }
    } else {
      if b == [] { OfTypeMembers(a, a[0].dataType, a[0]); }
      SameLastType(wt, a, b);
      var x, y, r, s := a[..|a| - 1], b[..|b| - 1], a[|a| - 1], b[|b| - 1];
      assert a == x + [r] && b == y + [s];
      hide InTurn, OfType;
      forall t ensures OfType(x, t) == OfType(y, t) && (t == r.dataType ==> r == s) {
        OfTypeSnoc(x, r, t);
        OfTypeSnoc(y, s, t);
        DropLast(OfType(x, t), OfType(y, t), r, s);
      }
      PrefixInTurn(wt, a, |a| - 1);
      PrefixInTurn(wt, b, |b| - 1);
      ScheduleIsUnique(wt, x, y);
      assert OfType(x, r.dataType) == OfType(y, r.dataType) && r == s;
    }
  }

  lemma DropLast<T>(a: seq<T>, b: seq<T>, x: T, y: T)
    ensures a + [x] == b + [y] ==> a == b && x == y
    ensures a + [] == b + [] ==> a == b
  {
    if a + [x] == b + [y] {
      assert (a + [x])[|a|] == (b + [y])[|b|];
      assert a == (a + [x])[..|a|] && b == (b + [y])[..|b|];
    }
    assert a + [] == a && b + [] == b;
  }

  /** An overfull window is sent in turn: round by round, each type as many as its weight in a round, the
      types of a round in lexicographic order and the records of a type oldest first. That says it all:
      there is one such schedule, and the batch is as much of it as the limit admits. */
  lemma BatchExactly(wt: Weights, w: seq<Record>, limit: nat, b: seq<Record>)
    requires 0 < limit < |w|
    ensures b == Batch(wt, w, limit) <==> exists s :: Schedules(wt, w, s) && b == Take(s, limit)
  {
    var order := Sorted(Types(w));
    SortedIsDistinct(Types(w));
    SortedAscends(Types(w));
    EnoughRounds(wt, w, order);
    var all := Rounds(wt, w, order, |w|);
    hide Sorted, Distinct, Rounds, InTurn, OfType;
    RoundsInTurn(wt, w, order, |w|);
    forall t ensures OfType(all, t) == OfType(w, t) { AllOfType(wt, w, order, t); }
    assert Schedules(wt, w, all);
    if s :| Schedules(wt, w, s) && b == Take(s, limit) { ScheduleIsUnique(wt, s, all); }
  }

  lemma AllOfType(wt: Weights, w: seq<Record>, order: seq<Bytes>, t: Bytes)
    requires Distinct(order) && forall u :: u in order <==> u in Types(w)
    ensures OfType(Rounds(wt, w, order, |w|), t) == OfType(w, t)
  {
    OfTypeRounds(wt, w, order, |w|, t);
    OfTypeLength(w, t);
    ServedAtLeast(wt, w, t, |w|);
    if t !in order { OfAbsentType(w, t); }
  }

  /** A window that fits is sent as it is, in the order of its keys. */
  lemma BatchOfAll(wt: Weights, w: seq<Record>, limit: int)
    ensures limit > 0 && |w| <= limit ==> Batch(wt, w, limit) == w
    ensures limit <= 0 ==> Batch(wt, w, limit) == []
  {
    hide Rounds, Sorted, Types;
  }
}
