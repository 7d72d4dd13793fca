/** The sorts by packet position of ffedit (sort_by_pkt_pos in fftools/ffedit.c, element_sort_fn in
    fftools/ffedit_common.c): both subtract two 64-bit positions and return the difference as an int. */
module PktPosSort {
  const TWO31: int := 0x8000_0000
  const TWO32: int := 0x1_0000_0000

  /** (int) (a - b). */
  function Cmp(a: int, b: int): int {
    (a - b + TWO31) % TWO32 - TWO31
  }

  /** A distance, from an earlier position to a later one, that the comparator gets right. */
  predicate PairFits(a: int, b: int) {
    0 < (b - a) % TWO32 < TWO31
  }

  /** The comparator puts two different positions in order exactly when their distance, modulo 2^32,
      is below 2^31. */
  lemma CmpOrdersIff(a: int, b: int)
    requires a < b
    ensures Cmp(a, b) < 0 < Cmp(b, a) <==> PairFits(a, b)
  {
  }

  lemma CmpIsDifference(a: int, b: int)
    requires -TWO31 <= a - b < TWO31
    ensures Cmp(a, b) == a - b
  {
  }

  /** Every later position is such a distance ahead of every earlier one. */
  ghost predicate PairsFit(p: seq<int>) {
    forall i, j | 0 <= i < j < |p| :: PairFits(p[i], p[j])
  }

  /** All positions lie within one window of 2^31. */
  ghost predicate Within<T(!new)>(s: seq<T>, key: T -> int, lo: int) {
    forall i | 0 <= i < |s| :: lo <= key(s[i]) < lo + TWO31
  }

  ghost predicate Fits<T(!new)>(s: seq<T>, key: T -> int) {
    exists lo :: Within(s, key, lo)
  }

  ghost predicate Sorted<T(!new)>(s: seq<T>, key: T -> int) {
    forall i, j | 0 <= i < j < |s| :: key(s[i]) <= key(s[j])
  }

  /** An arrangement the comparator accepts. */
  ghost predicate Accepted<T(!new)>(s: seq<T>, key: T -> int) {
    forall i, j | 0 <= i < j < |s| :: Cmp(key(s[i]), key(s[j])) <= 0
  }

  /** What qsort asks of a comparator, on these elements: a total preorder. */
  ghost predicate Consistent<T(!new)>(m: multiset<T>, key: T -> int) {
    && (forall x, y | x in m && y in m :: Cmp(key(x), key(y)) < 0 <==> Cmp(key(y), key(x)) > 0)
    && (forall x, y, z | x in m && y in m && z in m && Cmp(key(x), key(y)) <= 0 && Cmp(key(y), key(z)) <= 0 ::
          Cmp(key(x), key(z)) <= 0)
  }

  /** What qsort may turn one array into with this comparator: a permutation, and one the comparator
      accepts if it is a preorder on the elements; ties may end up either way round. */
  ghost predicate MaySortTo<T(!new)>(before: seq<T>, after: seq<T>, key: T -> int) {
    multiset(before) == multiset(after) && (Consistent(multiset(before), key) ==> Accepted(after, key))
  }

  // ----- one algorithm that does what qsort promises -----

  method Swap<T>(a: array<T>, j: nat)
    requires 0 < j < a.Length
    modifies a
    ensures a[..] == old(a[..])[j - 1 := old(a[j])][j := old(a[j - 1])]
    ensures multiset(a[..]) == multiset(old(a[..]))
  {
    a[j - 1], a[j] := a[j], a[j - 1];
  }

  /** The insertion in progress: everything but position j is accepted against everything else. */
  ghost predicate AcceptedBut<T(!new)>(s: seq<T>, key: T -> int, j: nat) {
    forall p, q | 0 <= p < q < |s| && q != j :: Cmp(key(s[p]), key(s[q])) <= 0
  }

  lemma SwapKeepsOrder<T(!new)>(s: seq<T>, t: seq<T>, m: multiset<T>, key: T -> int, j: nat)
    requires Consistent(m, key) && (forall x <- s :: x in m)
    requires 0 < j < |s| && t == s[j - 1 := s[j]][j := s[j - 1]]
    requires AcceptedBut(s, key, j) && Cmp(key(s[j - 1]), key(s[j])) > 0
    ensures AcceptedBut(t, key, j - 1)
  {
    hide Cmp;
    forall p, q | 0 <= p < q < |t| && q != j - 1 ensures Cmp(key(t[p]), key(t[q])) <= 0 {
      assert s[j] in m && s[j - 1] in m;
      if q == j && p == j - 1 { assert t[p] == s[j] && t[q] == s[j - 1]; }
    }
  }

  lemma InsertionDone<T(!new)>(s: seq<T>, m: multiset<T>, key: T -> int, j: nat)
    requires Consistent(m, key) && (forall x <- s :: x in m)
    requires j < |s| && AcceptedBut(s, key, j) && (0 < j ==> Cmp(key(s[j - 1]), key(s[j])) <= 0)
    ensures Accepted(s, key)
  {
    hide Cmp;
    forall p | 0 <= p < j ensures Cmp(key(s[p]), key(s[j])) <= 0 {
      assert s[p] in m && s[j - 1] in m && s[j] in m;
    }
  }

  lemma InsertionStarts<T(!new)>(s: seq<T>, key: T -> int, i: nat)
    requires i < |s| && Accepted(s[..i], key)
    ensures AcceptedBut(s[..i + 1], key, i)
  {
    assert forall p | 0 <= p < i :: s[..i][p] == s[..i + 1][p];
  }

  /** One exchange of neighbours in the first n elements of an array. */
  lemma SwapStep<T(!new)>(s: seq<T>, t: seq<T>, key: T -> int, n: nat, j: nat)
    requires 0 < j < n <= |s| && t == s[j - 1 := s[j]][j := s[j - 1]] && Consistent(multiset(s), key)
    requires AcceptedBut(s[..n], key, j) && Cmp(key(s[j - 1]), key(s[j])) > 0
    ensures AcceptedBut(t[..n], key, j - 1)
  {
    forall x | x in s[..n] ensures x in multiset(s) {
      assert x in s;
    }
    hide Consistent, AcceptedBut, Cmp;
    SwapKeepsOrder(s[..n], t[..n], multiset(s), key, j);
  }

  lemma InsertionEnds<T(!new)>(s: seq<T>, key: T -> int, n: nat, j: nat)
    requires j < n <= |s| && Consistent(multiset(s), key) && AcceptedBut(s[..n], key, j)
    requires 0 < j ==> Cmp(key(s[j - 1]), key(s[j])) <= 0
    ensures Accepted(s[..n], key)
  {
    forall x | x in s[..n] ensures x in multiset(s) {
      assert x in s;
    }
    hide Consistent, Accepted, AcceptedBut, Cmp;
    InsertionDone(s[..n], multiset(s), key, j);
  }

  lemma NothingToSort<T(!new)>(key: T -> int)
    ensures Accepted([], key)
  {
  }

  method Insert<T(!new)>(a: array<T>, key: T -> int, i: nat)
    requires i < a.Length
    modifies a
    ensures multiset(a[..]) == multiset(old(a[..]))
    ensures old(Accepted(a[..i], key)) && Consistent(multiset(a[..]), key) ==> Accepted(a[..i + 1], key)
  {
    hide Consistent, Accepted, AcceptedBut, Cmp;
    ghost var m, ok := multiset(a[..]), Accepted(a[..i], key) && Consistent(multiset(a[..]), key);
    var j := i;
    if ok { InsertionStarts(a[..], key, i); }
    while 0 < j && Cmp(key(a[j - 1]), key(a[j])) > 0
      invariant j <= i && multiset(a[..]) == m
      invariant ok ==> AcceptedBut(a[..i + 1], key, j)
    {
      ghost var s := a[..];
      Swap(a, j);
      if ok { SwapStep(s, a[..], key, i + 1, j); }
      j := j - 1;
    }
    if ok { InsertionEnds(a[..], key, i + 1, j); }
  }

  /** qsort with this comparator, by insertion; callers learn only what every sort promises. */
  method Sort<T(!new)>(a: array<T>, key: T -> int)
    modifies a
    ensures MaySortTo(old(a[..]), a[..], key)
  {
    hide Consistent, Accepted;
    NothingToSort(key);
    var i := 0;
    assert a[..0] == [];
    while i < a.Length
      invariant i <= a.Length && multiset(a[..]) == multiset(old(a[..]))
      invariant Consistent(multiset(old(a[..])), key) ==> Accepted(a[..i], key)
    {
      Insert(a, key, i);
      i := i + 1;
    }
    assert a[..i] == a[..];
  }

  // ----- what any such sort gives -----

  /** The comparator gets these two right. */
  predicate Agrees(a: int, b: int) {
    (Cmp(a, b) < 0 <==> a < b) && (Cmp(a, b) > 0 <==> a > b)
  }

  lemma AgreeingIsConsistent<T(!new)>(m: multiset<T>, key: T -> int)
    requires forall x, y | x in m && y in m :: Agrees(key(x), key(y))
    ensures Consistent(m, key)
  {
    hide Cmp;
    forall x, y | x in m && y in m ensures Cmp(key(x), key(y)) < 0 <==> Cmp(key(y), key(x)) > 0 {
      assert Agrees(key(x), key(y)) && Agrees(key(y), key(x));
    }
    forall x, y, z | x in m && y in m && z in m && Cmp(key(x), key(y)) <= 0 && Cmp(key(y), key(z)) <= 0
      ensures Cmp(key(x), key(z)) <= 0
    {
      assert Agrees(key(x), key(y)) && Agrees(key(y), key(z)) && Agrees(key(x), key(z));
    }
  }

  /** The comparator gets every two of these right. */
  ghost predicate AllAgree<T(!new)>(s: seq<T>, key: T -> int) {
    forall x, y | x in s && y in s :: Agrees(key(x), key(y))
  }

  lemma AgreeingIsSorted<T(!new)>(before: seq<T>, after: seq<T>, key: T -> int)
    requires AllAgree(before, key) && MaySortTo(before, after, key)
    ensures Sorted(after, key)
  {
    var m := multiset(before);
    forall x, y | x in m && y in m ensures Agrees(key(x), key(y)) {
      assert x in before && y in before;
    }
    hide Cmp, Consistent, AllAgree;
    AgreeingIsConsistent(m, key);
    forall i, j | 0 <= i < j < |after| ensures key(after[i]) <= key(after[j]) {
      assert after[i] in multiset(after) && after[j] in multiset(after);
      assert Agrees(key(after[i]), key(after[j])) && Cmp(key(after[i]), key(after[j])) <= 0;
    }
  }

  /** Within one window of 2^31 the comparator compares. */
  lemma FitsAgrees<T(!new)>(s: seq<T>, key: T -> int)
    requires Fits(s, key)
    ensures AllAgree(s, key)
  {
    var lo :| Within(s, key, lo);
    forall x, y | x in s && y in s ensures Agrees(key(x), key(y)) {
      CmpIsDifference(key(x), key(y));
      CmpIsDifference(key(y), key(x));
    }
  }

  ghost predicate InFileOrder<T(!new)>(s: seq<T>, key: T -> int) {
    forall i, j | 0 <= i < j < |s| :: key(s[i]) < key(s[j])
  }

  function Keys<T>(s: seq<T>, key: T -> int): seq<int> {
    seq(|s|, i requires 0 <= i < |s| => key(s[i]))
  }

  lemma PairsFitMeans<T(!new)>(s: seq<T>, key: T -> int, i: nat, j: nat)
    requires InFileOrder(s, key) && PairsFit(Keys(s, key)) && i < |s| && j < |s|
    ensures Cmp(key(s[i]), key(s[j])) < 0 <==> i < j
    ensures Cmp(key(s[i]), key(s[j])) > 0 <==> i > j
  {
    var p := Keys(s, key);
    if i < j {
      assert PairFits(p[i], p[j]);
      CmpOrdersIff(p[i], p[j]);
    } else if j < i {
      assert PairFits(p[j], p[i]);
      CmpOrdersIff(p[j], p[i]);
    }
  }

  lemma FittingPair<T(!new)>(s: seq<T>, key: T -> int, x: T, y: T)
    requires InFileOrder(s, key) && PairsFit(Keys(s, key)) && x in s && y in s
    ensures Agrees(key(x), key(y))
  {
    var i, j :| 0 <= i < |s| && 0 <= j < |s| && s[i] == x && s[j] == y;
    hide Cmp, PairFits, PairsFit, Keys;
    PairsFitMeans(s, key, i, j);
    assert i < j ==> key(s[i]) < key(s[j]);
    assert j < i ==> key(s[j]) < key(s[i]);
  }

  lemma FittingIsConsistent<T(!new)>(s: seq<T>, key: T -> int)
    requires InFileOrder(s, key) && PairsFit(Keys(s, key))
    ensures Consistent(multiset(s), key)
  {
    hide Agrees, PairsFit, InFileOrder, Keys, Cmp, Consistent;
    forall x, y | x in multiset(s) && y in multiset(s) ensures Agrees(key(x), key(y)) {
      FittingPair(s, key, x, y);
    }
    AgreeingIsConsistent(multiset(s), key);
  }

  /** If all pairs fit, any sort leaves an array in file order as it is. */
  lemma {:induction false} FittingStays<T(!new)>(a: seq<T>, b: seq<T>, key: T -> int)
    requires multiset(a) == multiset(b) && Accepted(b, key)
    requires InFileOrder(a, key) && PairsFit(Keys(a, key))
    ensures a == b
  {
    SameLength(a, b);
    if a == [] {
    } else {
      HeadsEqual(a, b, key);
      SameTails(a, b);
      TailsFit(a, b, key);
      hide Accepted, PairsFit, InFileOrder, Keys;
      FittingStays(a[1..], b[1..], key);
      assert a == [a[0]] + a[1..] && b == [b[0]] + b[1..];
    }
  }

  lemma TailsFit<T(!new)>(a: seq<T>, b: seq<T>, key: T -> int)
    requires a != [] && b != [] && Accepted(b, key) && InFileOrder(a, key) && PairsFit(Keys(a, key))
    ensures Accepted(b[1..], key) && InFileOrder(a[1..], key) && PairsFit(Keys(a[1..], key))
  {
    hide Cmp;
    var p := Keys(a, key);
    assert Keys(a[1..], key) == p[1..];
  }

  lemma HeadsEqual<T(!new)>(a: seq<T>, b: seq<T>, key: T -> int)
    requires multiset(a) == multiset(b) && Accepted(b, key) && a != [] && b != []
    requires InFileOrder(a, key) && PairsFit(Keys(a, key))
    ensures a[0] == b[0]
  {
    assert a[0] in multiset(b) && b[0] in multiset(a);
    var i :| 0 <= i < |b| && b[i] == a[0];
    var j :| 0 <= j < |a| && a[j] == b[0];
    PairsFitMeans(a, key, j, 0);
    assert 0 < i ==> Cmp(key(b[0]), key(b[i])) <= 0;
  }

  lemma SameLength<T>(a: seq<T>, b: seq<T>)
    requires multiset(a) == multiset(b)
    ensures |a| == |b|
  {
    assert |a| == |multiset(a)| == |multiset(b)| == |b|;
  }

  lemma SameTails<T>(a: seq<T>, b: seq<T>)
    requires a != [] && b != [] && a[0] == b[0] && multiset(a) == multiset(b)
    ensures multiset(a[1..]) == multiset(b[1..])
  {
    assert a == [a[0]] + a[1..] && b == [b[0]] + b[1..];
    assert multiset(a[1..]) == multiset(a) - multiset{a[0]};
    assert multiset(b[1..]) == multiset(b) - multiset{b[0]};
  }

  // ----- and what it may do when some pair does not fit -----

  /** Every preorder has an accepted arrangement: insertion on values. */
  lemma {:induction false} AcceptedExists<T(!new)>(s: seq<T>, m: multiset<T>, key: T -> int) returns (t: seq<T>)
    requires Consistent(m, key) && forall x <- s :: x in m
    ensures multiset(t) == multiset(s) && Accepted(t, key)
  {
    if s == [] {
      t := [];
    } else {
      var t' := AcceptedExists(s[1..], m, key);
      assert s == [s[0]] + s[1..];
      forall x | x in t' ensures x in m {
        assert x in multiset(s[1..]);
      }
      t := Inserted(t', s[0], m, key);
    }
  }

  lemma AcceptedCons<T(!new)>(h: T, s: seq<T>, key: T -> int)
    requires Accepted(s, key) && forall x <- multiset(s) :: Cmp(key(h), key(x)) <= 0
    ensures Accepted([h] + s, key)
  {
    hide Cmp;
    assert forall i | 0 <= i < |s| :: s[i] in multiset(s);
  }

  lemma HeadIsLeast<T(!new)>(s: seq<T>, e: T, m: multiset<T>, key: T -> int)
    requires Consistent(m, key) && e in m && (forall x <- s :: x in m) && Accepted(s, key) && s != []
    requires Cmp(key(e), key(s[0])) <= 0
    ensures forall x <- multiset(s) :: Cmp(key(e), key(x)) <= 0
  {
    hide Cmp;
    forall x | x in multiset(s) ensures Cmp(key(e), key(x)) <= 0 {
      var i :| 0 <= i < |s| && s[i] == x;
      assert s[0] in m && s[i] in m;
    }
  }

  lemma AcceptedTail<T(!new)>(s: seq<T>, key: T -> int)
    requires Accepted(s, key) && s != []
    ensures Accepted(s[1..], key) && forall x <- multiset(s[1..]) :: Cmp(key(s[0]), key(x)) <= 0
  {
    hide Cmp;
    assert forall x <- multiset(s[1..]) :: x in s[1..];
  }

  lemma OtherWayRound<T(!new)>(m: multiset<T>, key: T -> int, x: T, y: T)
    requires Consistent(m, key) && x in m && y in m && Cmp(key(x), key(y)) > 0
    ensures Cmp(key(y), key(x)) <= 0
  {
    hide Cmp;
  }

  lemma {:induction false} Inserted<T(!new)>(s: seq<T>, e: T, m: multiset<T>, key: T -> int) returns (t: seq<T>)
    requires Consistent(m, key) && e in m && (forall x <- s :: x in m) && Accepted(s, key)
    ensures multiset(t) == multiset(s) + multiset{e} && Accepted(t, key)
  {
    hide Consistent, Accepted, Cmp;
    if s == [] {
      NothingToSort(key);
      AcceptedCons(e, [], key);
      t := [e] + [];
    } else if Cmp(key(e), key(s[0])) <= 0 {
      t := [e] + s;
      HeadIsLeast(s, e, m, key);
      AcceptedCons(e, s, key);
    } else {
      assert s == [s[0]] + s[1..];
      AcceptedTail(s, key);
      OtherWayRound(m, key, e, s[0]);
      var t' := Inserted(s[1..], e, m, key);
      AcceptedCons(s[0], t', key);
      t := [s[0]] + t';
    }
  }

  lemma Exchange<T>(s: seq<T>, i: nat, j: nat) returns (t: seq<T>)
    requires i < j < |s| && s[i] != s[j]
    ensures t == s[i := s[j]][j := s[i]] && multiset(t) == multiset(s) && t != s
  {
    t := s[i := s[j]][j := s[i]];
    assert t[i] == s[j];
  }

  /** Between two ties everything is tied with them, so they may be exchanged. */
  lemma TiesMaySwap<T(!new)>(s: seq<T>, t: seq<T>, key: T -> int, i: nat, j: nat)
    requires i < j < |s| && t == s[i := s[j]][j := s[i]] && Accepted(s, key) && Consistent(multiset(s), key)
    requires Cmp(key(s[j]), key(s[i])) <= 0
    ensures Accepted(t, key)
  {
    hide Cmp;
    forall k | i <= k <= j ensures Cmp(key(s[k]), key(s[i])) <= 0 && Cmp(key(s[j]), key(s[k])) <= 0 {
      TiedBetween(s, multiset(s), key, i, k, j);
    }
    hide Consistent;
  }

  lemma TiedBetween<T(!new)>(s: seq<T>, m: multiset<T>, key: T -> int, i: nat, k: nat, j: nat)
    requires i <= k <= j < |s| && i < j && Accepted(s, key) && Consistent(m, key) && m == multiset(s)
    requires Cmp(key(s[j]), key(s[i])) <= 0
    ensures Cmp(key(s[k]), key(s[i])) <= 0 && Cmp(key(s[j]), key(s[k])) <= 0
  {
    hide Cmp;
    assert s[i] in m && s[j] in m && s[k] in m;
    assert i < k ==> Cmp(key(s[i]), key(s[k])) <= 0;
    assert k < j ==> Cmp(key(s[k]), key(s[j])) <= 0;
  }

  lemma FindMisfit<T(!new)>(s: seq<T>, key: T -> int) returns (i: nat, j: nat)
    requires InFileOrder(s, key) && !PairsFit(Keys(s, key))
    ensures i < j < |s| && s[i] != s[j] && !(Cmp(key(s[i]), key(s[j])) < 0 < Cmp(key(s[j]), key(s[i])))
  {
    hide Cmp, PairFits;
    var p := Keys(s, key);
    i, j :| 0 <= i < j < |p| && !PairFits(p[i], p[j]);
    CmpOrdersIff(p[i], p[j]);
  }

  lemma MisfitIsTie<T(!new)>(s: seq<T>, key: T -> int, i: nat, j: nat)
    requires i < j < |s| && Accepted(s, key) && Consistent(multiset(s), key)
    requires !(Cmp(key(s[i]), key(s[j])) < 0 < Cmp(key(s[j]), key(s[i])))
    ensures Cmp(key(s[j]), key(s[i])) <= 0
  {
    hide Cmp;
    assert s[i] in multiset(s) && s[j] in multiset(s);
  }

  /** If some pair does not fit, a sort that keeps its promise may end with another arrangement. */
  lemma MisfitMayMove<T(!new)>(s: seq<T>, key: T -> int) returns (t: seq<T>)
    requires InFileOrder(s, key) && !PairsFit(Keys(s, key))
    ensures MaySortTo(s, t, key) && t != s
  {
    var i, j := FindMisfit(s, key);
    hide Cmp, PairsFit, Keys, InFileOrder, Accepted, Consistent;
    var u := Exchange(s, i, j);
    if !Consistent(multiset(s), key) {
      t := u;
    } else {
      t := AcceptedExists(s, multiset(s), key);
      if t == s {
        MisfitIsTie(s, key, i, j);
        TiesMaySwap(s, u, key, i, j);
        t := u;
      }
    }
  }

  /** The exact condition: an array in file order is sure to stay in file order iff all pairs fit. */
  lemma StaysInOrderIff<T(!new)>(s: seq<T>, key: T -> int)
    requires InFileOrder(s, key)
    ensures PairsFit(Keys(s, key)) <==> forall t :: MaySortTo(s, t, key) ==> t == s
  {
    if PairsFit(Keys(s, key)) {
      FittingIsConsistent(s, key);
      hide Consistent, Accepted, PairsFit, InFileOrder, Keys;
      forall t | MaySortTo(s, t, key) ensures t == s {
        FittingStays(s, t, key);
      }
    } else {
      var t := MisfitMayMove(s, key);
    }
  }

  lemma FindDisagreement<T(!new)>(s: seq<T>, key: T -> int) returns (x: T, y: T)
    requires !AllAgree(s, key)
    ensures x in s && y in s && key(x) < key(y) && !(Cmp(key(x), key(y)) < 0 < Cmp(key(y), key(x)))
  {
    x, y :| x in s && y in s && !Agrees(key(x), key(y));
    if key(x) > key(y) {
      x, y := y, x;
    }
  }

  /** In a sorted arrangement a pair the comparator gets wrong may be exchanged. */
  lemma DisagreementMayMove<T(!new)>(s: seq<T>, t: seq<T>, key: T -> int, x: T, y: T) returns (u: seq<T>)
    requires MaySortTo(s, t, key) && Sorted(t, key) && x in s && y in s
    requires key(x) < key(y) && !(Cmp(key(x), key(y)) < 0 < Cmp(key(y), key(x)))
    ensures MaySortTo(s, u, key) && !Sorted(u, key)
  {
    hide Cmp, Consistent, Accepted;
    assert x in multiset(t) && y in multiset(t) by { assert x in multiset(s) && y in multiset(s); }
    var i, j :| 0 <= i < |t| && 0 <= j < |t| && t[i] == x && t[j] == y;
    u := Exchange(t, i, j);
    assert key(u[i]) > key(u[j]);
    if Consistent(multiset(s), key) {
      MisfitIsTie(t, key, i, j);
      TiesMaySwap(t, u, key, i, j);
    }
  }

  lemma DisagreeingMayBeUnsorted<T(!new)>(s: seq<T>, key: T -> int) returns (t: seq<T>)
    requires !AllAgree(s, key)
    ensures MaySortTo(s, t, key) && !Sorted(t, key)
  {
    var x, y := FindDisagreement(s, key);
    hide Cmp, Consistent, Accepted, AllAgree;
    t := s;
    if Consistent(multiset(s), key) { t := AcceptedExists(s, multiset(s), key); }
    if Sorted(t, key) { t := DisagreementMayMove(s, t, key, x, y); }
  }

  /** The exact condition for any array, in whatever order and with ties: a sort is sure to order it by
      position iff the comparator gets every two of its positions right. */
  lemma SortedIff<T(!new)>(s: seq<T>, key: T -> int)
    ensures AllAgree(s, key) <==> forall t :: MaySortTo(s, t, key) ==> Sorted(t, key)
  {
    if AllAgree(s, key) {
      forall t | MaySortTo(s, t, key) ensures Sorted(t, key) { AgreeingIsSorted(s, t, key); }
    } else {
      var t := DisagreeingMayBeUnsorted(s, key);
    }
  }

  /** Past 2^31 the comparator is wrong: the only order it accepts for these two is the wrong one. */
  lemma FarApartIsSwapped()
    ensures Cmp(TWO31 + 1, 0) < 0 < Cmp(0, TWO31 + 1) && Cmp(0, 0) == Cmp(TWO31 + 1, TWO31 + 1) == 0
  {
  }

  lemma TwoArrangements<T>(x: T, y: T, after: seq<T>)
    requires multiset([x, y]) == multiset(after)
    ensures after == [x, y] || after == [y, x]
  {
    SameLength([x, y], after);
    assert after == [after[0], after[1]];
    assert multiset{after[0], after[1]} == multiset{x, y};
    if after[0] == x {
      assert multiset{after[1]} == multiset{after[0], after[1]} - multiset{x} == multiset{y};
      assert after[1] in multiset{y};
    } else {
      assert after[0] in multiset{x, y} && x in multiset{after[0], after[1]};
    }
  }

  lemma TwoAreConsistent<T(!new)>(x: T, y: T, m: multiset<T>, key: T -> int)
    requires forall z <- m :: z == x || z == y
    requires Cmp(key(y), key(x)) < 0 < Cmp(key(x), key(y)) && Cmp(key(x), key(x)) == Cmp(key(y), key(y)) == 0
    ensures Consistent(m, key)
  {
    hide Cmp;
  }

  lemma SwappedPair<T(!new)>(x: T, y: T, after: seq<T>, key: T -> int)
    requires MaySortTo([x, y], after, key)
    requires Cmp(key(y), key(x)) < 0 < Cmp(key(x), key(y)) && Cmp(key(x), key(x)) == Cmp(key(y), key(y)) == 0
    ensures after == [y, x]
  {
    hide Consistent, Cmp;
    TwoAreConsistent(x, y, multiset([x, y]), key);
    TwoArrangements(x, y, after);
    assert Cmp(key(after[0]), key(after[1])) <= 0;
  }

  /** Far apart is not always wrong: these two are kept in order although 2^32 bytes lie between them. */
  lemma FarApartMayFit()
    ensures PairsFit([0, TWO32 + 5])
  {
  }
}
