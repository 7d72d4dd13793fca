/** Whole runs of ffedit's bounded queue (fftools/ffedit_common.c): which positions taken frames leave behind
    in its slots, and when its order can be relied on. */
module EditQueueRuns {
  import opened Common
  import opened PktPosSort
  import opened EditQueue

  /** The turns that change the queue; one that waits or is aborted leaves it alone. */
  datatype Op = Add(pos: int) | Take(pos: int)

  datatype Run<S, J> = Run(qs: seq<seq<Element<S, J>>>, ops: seq<Op>)

  ghost predicate StepAt<S(!new), J(!new)>(r: Run<S, J>, k: nat)
    requires k < |r.ops| && |r.qs| == |r.ops| + 1
  {
    match r.ops[k]
    case Add(pos) => AddStep(r.qs[k], r.qs[k + 1], pos)
    case Take(pos) => TakeStep(r.qs[k], r.qs[k + 1], pos)
  }

  /** A run begins with zeroed memory. */
  ghost predicate IsRun<S(!new), J(!new)>(r: Run<S, J>) {
    && |r.qs| == |r.ops| + 1 && |r.qs[0]| == MAX_QUEUE
    && (forall e <- r.qs[0] :: !e.used && e.pktPos == 0)
    && forall k | 0 <= k < |r.ops| :: StepAt(r, k)
  }

  // ----- counting slots -----

  /** How many slots have a position up to p. */
  function Count<S, J>(s: seq<Element<S, J>>, p: int): (n: nat)
    ensures n <= |s|
  {
    if s == [] then 0 else Count(s[1..], p) + if s[0].pktPos <= p then 1 else 0
  }

  lemma {:induction false} CountConcat<S, J>(a: seq<Element<S, J>>, b: seq<Element<S, J>>, p: int)
    ensures Count(a + b, p) == Count(a, p) + Count(b, p)
  {
    if a == [] {
      assert a + b == b;
    } else {
      assert (a + b)[1..] == a[1..] + b;
      CountConcat(a[1..], b, p);
    }
  }

  lemma CountSplit<S, J>(s: seq<Element<S, J>>, i: nat, e: Element<S, J>, p: int)
    requires i < |s|
    ensures Count(s, p) == Count(s[..i], p) + Count(s[i + 1..], p) + if s[i].pktPos <= p then 1 else 0
    ensures Count(s[i := e], p) == Count(s[..i], p) + Count(s[i + 1..], p) + if e.pktPos <= p then 1 else 0
  {
    assert s == s[..i] + ([s[i]] + s[i + 1..]);
    assert s[i := e] == s[..i] + ([e] + s[i + 1..]);
    CountConcat(s[..i], [s[i]] + s[i + 1..], p);
    CountConcat(s[..i], [e] + s[i + 1..], p);
  }

  lemma {:induction false} CountPermutes<S, J>(a: seq<Element<S, J>>, b: seq<Element<S, J>>, p: int)
    requires multiset(a) == multiset(b)
    ensures Count(a, p) == Count(b, p)
  {
    SameLength(a, b);
    if a == [] {
    } else {
      assert a[0] in multiset(b);
      var j :| 0 <= j < |b| && b[j] == a[0];
      var rest := b[..j] + b[j + 1..];
      WithoutOne(a, b, j);
      CountPermutes(a[1..], rest, p);
      CountSplit(b, j, b[j], p);
      CountConcat(b[..j], b[j + 1..], p);
    }
  }

  lemma RemoveAt<T>(b: seq<T>, j: nat)
    requires j < |b|
    ensures multiset(b[..j] + b[j + 1..]) == multiset(b) - multiset{b[j]}
  {
    assert b == b[..j] + [b[j]] + b[j + 1..];
  }

  lemma WithoutOne<T>(a: seq<T>, b: seq<T>, j: nat)
    requires multiset(a) == multiset(b) && a != [] && j < |b| && b[j] == a[0]
    ensures multiset(a[1..]) == multiset(b[..j] + b[j + 1..])
  {
    RemoveAt(b, j);
    RemoveAt(a, 0);
    assert a[..0] + a[1..] == a[1..];
  }

  lemma {:induction false} CountIsZero<S, J>(s: seq<Element<S, J>>, p: int)
    ensures Count(s, p) == 0 <==> forall e <- s :: e.pktPos > p
  {
    if s == [] {
    } else {
      CountIsZero(s[1..], p);
      assert s == [s[0]] + s[1..];
    }
  }

  // ----- one turn -----

  lemma AddedCount<S(!new), J(!new)>(before: seq<Element<S, J>>, after: seq<Element<S, J>>,
                                     i: nat, e: Element<S, J>, pos: int, p: int)
    requires AddedAt(before, after, i, e, pos)
    ensures |after| == |before|
    ensures Count(after, p) == Count(before, p) - (if before[i].pktPos <= p then 1 else 0) + if pos <= p then 1 else 0
  {
    SameLength(before[i := e], after);
    CountPermutes(before[i := e], after, p);
    CountSplit(before, i, e, p);
  }

  lemma TakenCount<S(!new), J(!new)>(before: seq<Element<S, J>>, after: seq<Element<S, J>>, i: nat, pos: int, p: int)
    requires TakenAt(before, after, i, pos)
    ensures |after| == |before| && Count(after, p) == Count(before, p)
  {
    CountSplit(before, i, before[i].(jctx := None, used := false), p);
  }

  /** While the slots are in order, what an add overwrites has the least position of the unused ones. */
  lemma LeastUnusedGoes<S(!new), J(!new)>(before: seq<Element<S, J>>, after: seq<Element<S, J>>,
                                          i: nat, e: Element<S, J>, pos: int)
    requires AddedAt(before, after, i, e, pos) && Sorted(before, Key<S, J>)
    ensures forall f <- before :: !f.used ==> before[i].pktPos <= f.pktPos
  {
    forall f | f in before && !f.used ensures before[i].pktPos <= f.pktPos {
      var k :| 0 <= k < |before| && before[k] == f;
      assert i <= k && Key(before[i]) <= Key(before[k]);
    }
  }

  /** The exact condition, turn by turn: after an add the slots are sure to be in order iff the comparator
      gets every two of the positions now in them right, stale ones included. */
  lemma AddInOrderIff<S(!new), J(!new)>(before: seq<Element<S, J>>, i: nat, e: Element<S, J>, pos: int)
    requires i < |before| && !before[i].used && (forall k | 0 <= k < i :: before[k].used)
    requires e.used && e.pktPos == pos
    ensures AllAgree(before[i := e], Key<S, J>) <==>
            forall after :: AddedAt(before, after, i, e, pos) ==> Sorted(after, Key<S, J>)
  {
    SortedIff(before[i := e], Key<S, J>);
    hide AllAgree, MaySortTo, Sorted;
  }

  // ----- what stays behind -----

  /** How many of the turns i to k were adds. */
  function Adds(ops: seq<Op>, i: nat, k: nat): nat
    requires i <= k <= |ops|
  {
    if i == k then 0 else Adds(ops, i, k - 1) + if ops[k - 1].Add? then 1 else 0
  }

  /** From turn i on up to turn k, no frame at or before p is held or added. */
  ghost predicate Beyond<S(!new), J(!new)>(r: Run<S, J>, i: nat, k: nat, p: int)
    requires i <= k <= |r.ops| && |r.qs| == |r.ops| + 1
  {
    && (forall j | i <= j <= k :: forall e <- r.qs[j] :: e.used ==> e.pktPos > p)
    && forall j | i <= j < k && r.ops[j].Add? :: r.ops[j].pos > p
  }

  ghost predicate InOrder<S(!new), J(!new)>(r: Run<S, J>, k: nat)
    requires k < |r.qs|
  {
    Sorted(r.qs[k], Key<S, J>)
  }

  lemma {:induction false} SlotsStay<S(!new), J(!new)>(r: Run<S, J>, k: nat)
    requires IsRun(r) && k <= |r.ops|
    ensures |r.qs[k]| == MAX_QUEUE
  {
    if k == 0 {
    } else {
      SlotsStay(r, k - 1);
      assert StepAt(r, k - 1);
      if r.ops[k - 1].Add? {
        var i: nat, e :| AddedAt(r.qs[k - 1], r.qs[k], i, e, r.ops[k - 1].pos);
        AddedCount(r.qs[k - 1], r.qs[k], i, e, r.ops[k - 1].pos, 0);
      }
    }
  }

  /** Every add of such a stretch overwrites one of the slots at or before p that are left. */
  lemma {:induction false} LeftBehind<S(!new), J(!new)>(r: Run<S, J>, i: nat, k: nat, p: int)
    requires IsRun(r) && i <= k <= |r.ops| && Beyond(r, i, k, p)
    requires forall j | i <= j < k :: InOrder(r, j)
    ensures Count(r.qs[k], p) == 0 || Count(r.qs[k], p) + Adds(r.ops, i, k) <= MAX_QUEUE
    decreases k
  {
    SlotsStay(r, k);
    if i == k {
    } else {
      LeftBehind(r, i, k - 1, p);
      assert StepAt(r, k - 1) && InOrder(r, k - 1);
      LeftBehindStep(r, i, k, p);
    }
  }

  lemma LeftBehindStep<S(!new), J(!new)>(r: Run<S, J>, i: nat, k: nat, p: int)
    requires |r.qs| == |r.ops| + 1 && i < k <= |r.ops| && Beyond(r, i, k, p)
    requires StepAt(r, k - 1) && InOrder(r, k - 1)
    requires Count(r.qs[k - 1], p) == 0 || Count(r.qs[k - 1], p) + Adds(r.ops, i, k - 1) <= MAX_QUEUE
    ensures Count(r.qs[k], p) == 0 || Count(r.qs[k], p) + Adds(r.ops, i, k) <= MAX_QUEUE
  {
    var before, after, op := r.qs[k - 1], r.qs[k], r.ops[k - 1];
    CountIsZero(before, p);
    if op.Add? {
      var n: nat, e :| AddedAt(before, after, n, e, op.pos);
      AddedCount(before, after, n, e, op.pos, p);
      LeastUnusedGoes(before, after, n, e, op.pos);
    } else {
      var n: nat :| TakenAt(before, after, n, op.pos);
      TakenCount(before, after, n, op.pos, p);
    }
  }

  /** A position left behind is gone for good after at most eight adds of later frames: once that many
      have been added since a frame at or before p was last held or added, no slot is at or before p. */
  lemma StaleIsBounded<S(!new), J(!new)>(r: Run<S, J>, i: nat, k: nat, p: int)
    requires IsRun(r) && i <= k <= |r.ops| && Beyond(r, i, k, p) && Adds(r.ops, i, k) >= 8
    requires forall j | i <= j < k :: InOrder(r, j)
    ensures forall e <- r.qs[k] :: e.pktPos > p
  {
    LeftBehind(r, i, k, p);
    CountIsZero(r.qs[k], p);
  }

  lemma AddedFrom<S(!new), J(!new)>(before: seq<Element<S, J>>, after: seq<Element<S, J>>,
                                    i: nat, x: Element<S, J>, pos: int, e: Element<S, J>)
    requires AddedAt(before, after, i, x, pos) && e in after
    ensures e in before || e.pktPos == pos
  {
    assert e in multiset(after);
    assert e in before[i := x];
  }

  lemma TakenFrom<S(!new), J(!new)>(before: seq<Element<S, J>>, after: seq<Element<S, J>>,
                                    i: nat, pos: int, e: Element<S, J>) returns (f: Element<S, J>)
    requires TakenAt(before, after, i, pos) && e in after
    ensures f in before && f.pktPos == e.pktPos
  {
    var k :| 0 <= k < |after| && after[k] == e;
    f := before[k];
  }

  /** Where a slot's position was one turn earlier: in some slot, or in the frame just added. */
  lemma StepFrom<S(!new), J(!new)>(r: Run<S, J>, k: nat, e: Element<S, J>) returns (f: Element<S, J>)
    requires |r.qs| == |r.ops| + 1 && 0 < k <= |r.ops| && StepAt(r, k - 1) && e in r.qs[k]
    ensures (f in r.qs[k - 1] && f.pktPos == e.pktPos) || r.ops[k - 1] == Add(e.pktPos)
  {
    var before, after, op := r.qs[k - 1], r.qs[k], r.ops[k - 1];
    f := e;
    if op.Add? {
      var n: nat, x :| AddedAt(before, after, n, x, op.pos);
      AddedFrom(before, after, n, x, op.pos, e);
    } else {
      var n: nat :| TakenAt(before, after, n, op.pos);
      f := TakenFrom(before, after, n, op.pos, e);
    }
  }

  /** A slot's position is that of some frame added, or the zero it started with. */
  lemma {:induction false} SlotOrigin<S(!new), J(!new)>(r: Run<S, J>, k: nat, e: Element<S, J>)
    requires IsRun(r) && k <= |r.ops| && e in r.qs[k]
    ensures e.pktPos == 0 || exists j :: 0 <= j < k && r.ops[j] == Add(e.pktPos)
  {
    if k == 0 {
    } else {
      hide AddStep, TakeStep;
      assert StepAt(r, k - 1);
      var f := StepFrom(r, k, e);
      if r.ops[k - 1] != Add(e.pktPos) { SlotOrigin(r, k - 1, f); }
    }
  }

  // ----- when the order can be relied on -----

  /** At turn k, what is held, the last MAX_QUEUE frames added and whatever was held meanwhile lie at lo or
      later, and nothing added so far lies 2^31 beyond lo.  Early on, while zeroes may be left in the slots,
      lo counts from zero. */
  ghost predicate SpanAt<S(!new), J(!new)>(r: Run<S, J>, k: nat, i: nat, lo: int)
    requires k <= |r.ops| && |r.qs| == |r.ops| + 1
  {
    && i <= k && Beyond(r, i, k, lo - 1) && 0 < lo + TWO31
    && ((i == 0 && lo <= 0) || Adds(r.ops, i, k) >= MAX_QUEUE)
    && forall j | 0 <= j < k && r.ops[j].Add? :: r.ops[j].pos < lo + TWO31
  }

  ghost predicate Spans<S(!new), J(!new)>(r: Run<S, J>, k: nat)
    requires k <= |r.ops| && |r.qs| == |r.ops| + 1
  {
    exists i: nat, lo :: SpanAt(r, k, i, lo)
  }

  lemma SpanIsWindow<S(!new), J(!new)>(r: Run<S, J>, k: nat, i: nat, lo: int)
    requires IsRun(r) && k <= |r.ops| && SpanAt(r, k, i, lo)
    requires forall j | i <= j < k :: InOrder(r, j)
    ensures Within(r.qs[k], Key<S, J>, lo)
  {
    if Adds(r.ops, i, k) >= MAX_QUEUE { StaleIsBounded(r, i, k, lo - 1); }
    forall n | 0 <= n < |r.qs[k]| ensures lo <= Key(r.qs[k][n]) < lo + TWO31 {
      SlotOrigin(r, k, r.qs[k][n]);
    }
  }

  /** However long the stream: if at every turn the frames around it span less than 2^31, stale slots do no
      harm and the slots are in order at every turn. */
  lemma {:induction false} QueueInOrder<S(!new), J(!new)>(r: Run<S, J>, k: nat)
    requires IsRun(r) && k <= |r.ops| && forall j | 0 <= j <= k :: Spans(r, j)
    ensures InOrder(r, k)
  {
    if k == 0 {
    } else {
      forall j: nat | j < k ensures InOrder(r, j) {
        QueueInOrder(r, j);
      }
      assert StepAt(r, k - 1) && Spans(r, k) && InOrder(r, k - 1);
      var i: nat, lo :| SpanAt(r, k, i, lo);
      SpanIsWindow(r, k, i, lo);
      StepInOrder(r, k, lo);
    }
  }

  lemma StepInOrder<S(!new), J(!new)>(r: Run<S, J>, k: nat, lo: int)
    requires |r.qs| == |r.ops| + 1 && 0 < k <= |r.ops| && StepAt(r, k - 1) && InOrder(r, k - 1)
    requires Within(r.qs[k], Key<S, J>, lo)
    ensures InOrder(r, k)
  {
    var before, after, op := r.qs[k - 1], r.qs[k], r.ops[k - 1];
    if op.Add? {
      var n: nat, e :| AddedAt(before, after, n, e, op.pos);
      FitsAgrees(after, Key<S, J>);
      SortKeeps(before[n := e], after, Key<S, J>);
    } else {
      var n: nat :| TakenAt(before, after, n, op.pos);
      SameKeys(before, after);
    }
  }

  /** A consumer that asks for any frame then gets one of least position. */
  lemma LeastIsTaken<S(!new), J(!new)>(r: Run<S, J>, k: nat) returns (i: nat)
    requires IsRun(r) && k < |r.ops| && r.ops[k] == Take(-1) && forall j | 0 <= j <= k :: Spans(r, j)
    ensures TakenAt(r.qs[k], r.qs[k + 1], i, -1)
    ensures forall e <- r.qs[k] :: e.used ==> r.qs[k][i].pktPos <= e.pktPos
  {
    QueueInOrder(r, k);
    assert StepAt(r, k);
    i :| TakenAt(r.qs[k], r.qs[k + 1], i, -1);
    forall e | e in r.qs[k] && e.used ensures r.qs[k][i].pktPos <= e.pktPos {
      var n :| 0 <= n < |r.qs[k]| && r.qs[k][n] == e;
      assert i <= n && Key(r.qs[k][i]) <= Key(r.qs[k][n]);
    }
  }

  /** In particular in a file shorter than 2^31 bytes. */
  lemma ShortFile<S(!new), J(!new)>(r: Run<S, J>, k: nat)
    requires IsRun(r) && k <= |r.ops| && forall j | 0 <= j < |r.ops| && r.ops[j].Add? :: 0 <= r.ops[j].pos < TWO31
    ensures InOrder(r, k)
  {
    forall j | 0 <= j <= k ensures Spans(r, j) {
      forall n: nat, e | n <= j && e in r.qs[n] ensures e.pktPos >= 0 {
        SlotOrigin(r, n, e);
      }
      assert SpanAt(r, j, 0, 0);
    }
    QueueInOrder(r, k);
  }

  // ----- and when it cannot -----

  const NEAR: int := TWO31 - 1
  const FAR: int := TWO31 + 1

  /** The comparator goes round in a circle: FAR < 0 < NEAR < FAR. */
  lemma Circle()
    ensures Cmp(FAR, 0) < 0 && Cmp(0, NEAR) < 0 && Cmp(NEAR, FAR) < 0
  {
  }

  function Zeroes<S, J>(sd: S, n: nat): seq<Element<S, J>> {
    seq(n, _ => Element(None, sd, 0, 0, false))
  }

  function Used<S, J>(sd: S, pos: int): Element<S, J> {
    Element(None, sd, pos, 0, true)
  }

  lemma CircleIsInconsistent<S(!new), J(!new)>(m: multiset<Element<S, J>>, z: Element<S, J>,
                                               e: Element<S, J>, f: Element<S, J>)
    requires z in m && e in m && f in m && z.pktPos == 0 && e.pktPos == NEAR && f.pktPos == FAR
    ensures !Consistent(m, Key<S, J>)
  {
    var key := Key<S, J>;
    Circle();
    assert key(z) == Key(z) && key(e) == Key(e) && key(f) == Key(f);
    hide Cmp;
  }

  lemma Rotated<T>(x: T, s: seq<T>, y: seq<T>)
    ensures multiset([x] + s + y) == multiset(s + [x] + y)
  {
  }

  lemma FirstAdd<S(!new), J(!new)>(sd: S, q0: seq<Element<S, J>>, q1: seq<Element<S, J>>, e: Element<S, J>)
    requires q0 == Zeroes(sd, MAX_QUEUE) && q1 == Zeroes(sd, MAX_QUEUE - 1) + [e] && e == Used(sd, NEAR)
    ensures AddStep(q0, q1, NEAR)
  {
    var key, zs := Key<S, J>, Zeroes<S, J>(sd, MAX_QUEUE - 1);
    assert q0[0 := e] == [e] + zs + [] && q1 == zs + [e] + [];
    Rotated(e, zs, []);
    Circle();
    forall i, j | 0 <= i < j < |q1| ensures Cmp(key(q1[i]), key(q1[j])) <= 0 {
      assert key(q1[i]) == Key(q1[i]) && key(q1[j]) == Key(q1[j]);
    }
    assert AddedAt(q0, q1, 0, e, NEAR);
  }

  lemma SecondAdd<S(!new), J(!new)>(sd: S, q1: seq<Element<S, J>>, q2: seq<Element<S, J>>,
                                    e: Element<S, J>, f: Element<S, J>)
    requires q1 == Zeroes(sd, MAX_QUEUE - 1) + [e] && q2 == Zeroes(sd, MAX_QUEUE - 2) + [f] + [e]
    requires e == Used(sd, NEAR) && f == Used(sd, FAR)
    ensures AddStep(q1, q2, FAR)
  {
    var zs, s := Zeroes<S, J>(sd, MAX_QUEUE - 2), q1[0 := f];
    assert s == [f] + zs + [e];
    Rotated(f, zs, [e]);
    ZeroInside(s, f, zs, e);
    assert !q1[0].used && s[0].pktPos == FAR && zs[0].pktPos == 0;
    hide Consistent, Accepted, Zeroes, Used;
    CircleIsInconsistent(multiset(s), zs[0], e, f);
    assert AddedAt(q1, q2, 0, f, FAR);
  }

  lemma ZeroInside<T>(s: seq<T>, x: T, zs: seq<T>, y: T)
    requires s == [x] + zs + [y] && zs != []
    ensures x in multiset(s) && zs[0] in multiset(s) && y in multiset(s)
  {
    assert s[0] == x && s[1] == zs[0] && s[|s| - 1] == y;
    assert s[0] in s && s[1] in s && s[|s| - 1] in s;
  }

  lemma FarIsTaken<S(!new), J(!new)>(sd: S, q2: seq<Element<S, J>>, q3: seq<Element<S, J>>)
    requires q2 == Zeroes(sd, MAX_QUEUE - 2) + [Used(sd, FAR)] + [Used(sd, NEAR)]
    requires q3 == q2[MAX_QUEUE - 2 := Used(sd, FAR).(used := false)]
    ensures TakenAt(q2, q3, MAX_QUEUE - 2, -1) && TakeStep(q2, q3, -1) && |q2| == MAX_QUEUE
    ensures q2[MAX_QUEUE - 2] == Used(sd, FAR) && q2[MAX_QUEUE - 1] == Used(sd, NEAR)
  {
    assert TakenAt(q2, q3, MAX_QUEUE - 2, -1);
  }

  lemma ThreeTurns<S(!new), J(!new)>(q0: seq<Element<S, J>>, q1: seq<Element<S, J>>, q2: seq<Element<S, J>>,
                                     q3: seq<Element<S, J>>, a: int, b: int, c: int)
    requires |q0| == MAX_QUEUE && forall e <- q0 :: !e.used && e.pktPos == 0
    requires AddStep(q0, q1, a) && AddStep(q1, q2, b) && TakeStep(q2, q3, c)
    ensures IsRun(Run([q0, q1, q2, q3], [Add(a), Add(b), Take(c)]))
  {
    hide AddStep, TakeStep;
    var r := Run([q0, q1, q2, q3], [Add(a), Add(b), Take(c)]);
    assert StepAt(r, 0) && StepAt(r, 1) && StepAt(r, 2);
  }

  /** One stale zero is enough: with two frames two bytes apart, around position 2^31, a queue that was empty
      before may hand out the later one first. */
  lemma StaleZeroExample<S(!new), J(!new)>(sd: S) returns (r: Run<S, J>)
    ensures IsRun(r) && r.ops == [Add(NEAR), Add(FAR), Take(-1)]
    ensures |r.qs[2]| == MAX_QUEUE && TakenAt(r.qs[2], r.qs[3], MAX_QUEUE - 2, -1)
    ensures r.qs[2][MAX_QUEUE - 2] == Used(sd, FAR) && r.qs[2][MAX_QUEUE - 1] == Used(sd, NEAR)
  {
    var e, f, q0 := Used<S, J>(sd, NEAR), Used<S, J>(sd, FAR), Zeroes<S, J>(sd, MAX_QUEUE);
    assert |q0| == MAX_QUEUE && forall x <- q0 :: !x.used && x.pktPos == 0;
    assert |Zeroes<S, J>(sd, MAX_QUEUE - 2)| == MAX_QUEUE - 2;
    hide Used, Zeroes, AddStep, TakeStep, TakenAt, IsRun;
    var q1, q2 := Zeroes(sd, MAX_QUEUE - 1) + [e], Zeroes(sd, MAX_QUEUE - 2) + [f] + [e];
    var q3 := q2[MAX_QUEUE - 2 := f.(used := false)];
    FirstAdd(sd, q0, q1, e);
    SecondAdd(sd, q1, q2, e, f);
    FarIsTaken(sd, q2, q3);
    ThreeTurns(q0, q1, q2, q3, NEAR, FAR, -1);
    r := Run([q0, q1, q2, q3], [Add(NEAR), Add(FAR), Take(-1)]);
  }
}
