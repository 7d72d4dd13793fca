/** The bounded queue between ffedit's decoding and scripting threads (fftools/ffedit_common.c),
    one method per turn under its mutex. */
module EditQueue {
  import opened Common
  import opened PktPosSort

  /** sd stands for the array of feature data, jctx for the JSON context that owns it. */
  datatype Element<S, J> = Element(jctx: Option<J>, sd: S, pktPos: int, streamIndex: int, used: bool)

  class AVFrame<S, J> {
    var jctx: Option<J>
    var sd: S
    var pktPos: int

    constructor (jctx: Option<J>, sd: S, pktPos: int)
      ensures this.jctx == jctx && this.sd == sd && this.pktPos == pktPos
    {
      this.jctx, this.sd, this.pktPos := jctx, sd, pktPos;
    }
  }

  class AVPacket<S, J> {
    var jctx: Option<J>
    var sd: S
    var pos: int
    var streamIndex: int

    constructor (sd: S, pos: int, streamIndex: int)
      ensures this.jctx == None && this.sd == sd && this.pos == pos && this.streamIndex == streamIndex
    {
      this.jctx, this.sd, this.pos, this.streamIndex := None, sd, pos, streamIndex;
    }
  }

  const MAX_QUEUE: nat := 8

  function Key<S, J>(e: Element<S, J>): int { e.pktPos }

  /** An unused slot owns no context, and no context is owned by two slots. */
  ghost predicate OneOwner<S(!new), J(!new)>(m: multiset<Element<S, J>>) {
    && (forall e <- m :: !e.used ==> e.jctx == None)
    && (forall e <- m :: e.jctx.Some? ==> m[e] == 1)
    && forall e, f | e in m && f in m && e.jctx.Some? && e != f :: e.jctx != f.jctx
  }

  /** Every used element of the multiset, and nothing else, is held. */
  ghost predicate Holds<S(!new), J(!new)>(held: multiset<Element<S, J>>, m: multiset<Element<S, J>>) {
    forall e: Element<S, J> :: held[e] == if e.used then m[e] else 0
  }

  lemma AllUnused<S(!new), J(!new)>(elements: seq<Element<S, J>>, e: Element<S, J>)
    requires !e.used && e.jctx == None && forall k | 0 <= k < |elements| :: elements[k] == e
    ensures OneOwner(multiset(elements)) && Holds(multiset{}, multiset(elements)) && Sorted(elements, Key<S, J>)
  {
    forall f | f in multiset(elements) ensures f == e { assert f in elements; }
  }

  lemma StoreKeepsOwner<S(!new), J(!new)>(m: multiset<Element<S, J>>, slot: Element<S, J>, e: Element<S, J>)
    requires OneOwner(m) && slot in m && !slot.used && e.used
    requires e.jctx.Some? ==> forall f <- m :: f.jctx != e.jctx
    ensures OneOwner(m - multiset{slot} + multiset{e})
  {
  }

  lemma StoreHolds<S(!new), J(!new)>(held: multiset<Element<S, J>>, m: multiset<Element<S, J>>,
      slot: Element<S, J>, e: Element<S, J>)
    requires Holds(held, m) && slot in m && !slot.used && e.used
    ensures Holds(held + multiset{e}, m - multiset{slot} + multiset{e})
  {
  }

  lemma TakeKeepsOwner<S(!new), J(!new)>(m: multiset<Element<S, J>>, e: Element<S, J>)
    requires OneOwner(m) && e in m && e.used
    ensures OneOwner(m - multiset{e} + multiset{e.(jctx := None, used := false)})
    ensures e.jctx.Some? ==> forall f <- m - multiset{e} + multiset{e.(jctx := None, used := false)} :: f.jctx != e.jctx
  {
  }

  lemma TakeHolds<S(!new), J(!new)>(held: multiset<Element<S, J>>, m: multiset<Element<S, J>>, e: Element<S, J>)
    requires Holds(held, m) && e in m && e.used
    ensures Holds(held - multiset{e}, m - multiset{e} + multiset{e.(jctx := None, used := false)})
  {
  }

  predicate Wanted<S, J>(e: Element<S, J>, pos: int) {
    e.used && (pos == -1 || e.pktPos == pos)
  }

  /** A turn of add_frame_to_ffedit_json_queue that puts e into the first unused slot. */
  ghost predicate AddedAt<S(!new), J(!new)>(before: seq<Element<S, J>>, after: seq<Element<S, J>>,
                                            i: nat, e: Element<S, J>, pos: int)
  {
    && i < |before| && !before[i].used && (forall k | 0 <= k < i :: before[k].used)
    && e.used && e.pktPos == pos && MaySortTo(before[i := e], after, Key<S, J>)
  }

  /** A turn of get_from_ffedit_json_queue that takes the first wanted slot. */
  ghost predicate TakenAt<S(!new), J(!new)>(before: seq<Element<S, J>>, after: seq<Element<S, J>>, i: nat, pos: int) {
    && i < |before| && Wanted(before[i], pos) && (forall k | 0 <= k < i :: !Wanted(before[k], pos))
    && after == before[i := before[i].(jctx := None, used := false)]
  }

  ghost predicate AddStep<S(!new), J(!new)>(before: seq<Element<S, J>>, after: seq<Element<S, J>>, pos: int) {
    exists i: nat, e :: AddedAt(before, after, i, e, pos)
  }

  ghost predicate TakeStep<S(!new), J(!new)>(before: seq<Element<S, J>>, after: seq<Element<S, J>>, pos: int) {
    exists i: nat :: TakenAt(before, after, i, pos)
  }

  datatype Turn = Done | Wait | Aborted

  class JsonQueue<S(!new, ==), J(!new, ==)> {
    const elements: array<Element<S, J>>
    var abortRequest: bool

    /** The used elements: what was added and not taken since. */
    ghost var held: multiset<Element<S, J>>

    ghost predicate Valid()
      reads this, elements
    {
      && elements.Length == MAX_QUEUE
      && OneOwner(multiset(elements[..]))
      && (AllAgree(elements[..], Key<S, J>) ==> Sorted(elements[..], Key<S, J>))
      && Holds(held, multiset(elements[..]))
    }

    /** The queue as it starts: zeroed memory. */
    constructor (sd: S)
      ensures Valid() && fresh(elements) && held == multiset{} && !abortRequest
    {
      elements := new Element<S, J>[MAX_QUEUE](_ => Element(None, sd, 0, 0, false));
      abortRequest := false;
      held := multiset{};
      new;
      AllUnused(elements[..], Element(None, sd, 0, 0, false));
    }

    ghost predicate Full()
      reads this, elements
    {
      forall e <- elements[..] :: e.used
    }

    ghost predicate Owns(jctx: Option<J>)
      reads this, elements
    {
      jctx.Some? && exists e :: e in elements[..] && e.jctx == jctx
    }

    /** The search for a free slot, MAX_QUEUE if there is none; a free slot owns no context. */
    method FirstUnused() returns (idx: nat)
      requires Valid()
      ensures idx <= MAX_QUEUE && (idx == MAX_QUEUE <==> Full())
      ensures idx < MAX_QUEUE ==> !elements[idx].used && elements[idx].jctx == None
      ensures forall k | 0 <= k < idx :: elements[k].used
    {
      idx := 0;
      while idx < MAX_QUEUE && elements[idx].used
        invariant idx <= MAX_QUEUE && forall k | 0 <= k < idx :: elements[k].used
      {
        idx := idx + 1;
      }
      if idx < MAX_QUEUE { assert elements[idx] in elements[..] && elements[idx] in multiset(elements[..]); }
    }

    /** One turn of add_frame_to_ffedit_json_queue; Wait means it goes to sleep on cond_full. */
    method AddFrame(frame: AVFrame<S, J>, streamIndex: int) returns (turn: Turn)
      requires Valid() && !Owns(frame.jctx)
      modifies this`held, elements, frame
      ensures Valid()
      ensures turn == if abortRequest then Aborted else if old(Full()) then Wait else Done
      ensures turn.Done? ==>
        && frame.jctx == None
        && held == old(held) + multiset{Element(old(frame.jctx), old(frame.sd), old(frame.pktPos), streamIndex, true)}
      ensures !turn.Done? ==> held == old(held) && elements[..] == old(elements[..]) && frame.jctx == old(frame.jctx)
      ensures turn.Done? ==> AddStep(old(elements[..]), elements[..], frame.pktPos)
      ensures frame.sd == old(frame.sd) && frame.pktPos == old(frame.pktPos)
    {
      hide OneOwner, Holds, AllAgree, Sorted;
      if abortRequest {
        return Aborted;
      }
      var idx := FirstUnused();
      if idx == MAX_QUEUE {
        return Wait;
      }
      var jctx := elements[idx].jctx;
      if frame.jctx.Some? {
        jctx := frame.jctx;
        frame.jctx := None;
      }
      ghost var before := elements[..];
      assert forall k | 0 <= k < idx :: before[k].used;
      hide MaySortTo;
      Put(idx, Element(jctx, frame.sd, frame.pktPos, streamIndex, true));
      assert AddedAt(before, elements[..], idx, Element(jctx, frame.sd, frame.pktPos, streamIndex, true), frame.pktPos);
      return Done;
    }

    method Put(idx: nat, e: Element<S, J>)
      requires Valid() && idx < MAX_QUEUE && !elements[idx].used && e.used && !Owns(e.jctx)
      modifies this`held, elements
      ensures Valid() && held == old(held) + multiset{e}
      ensures MaySortTo(old(elements[..])[idx := e], elements[..], Key<S, J>)
    {
      assert elements[idx] in elements[..];
      assert forall f <- multiset(elements[..]) :: f in elements[..];
      StoreKeepsOwner(multiset(elements[..]), elements[idx], e);
      StoreHolds(held, multiset(elements[..]), elements[idx], e);
      hide OneOwner, Holds, AllAgree, Sorted, MaySortTo;
      Store(idx, e);
      held := held + multiset{e};
    }

    /** Fills a slot and sorts the whole array, stale slots included. */
    method Store(idx: nat, e: Element<S, J>)
      requires elements.Length == MAX_QUEUE && idx < MAX_QUEUE
      modifies elements
      ensures multiset(elements[..]) == multiset(old(elements[..])) - multiset{old(elements[idx])} + multiset{e}
      ensures MaySortTo(old(elements[..])[idx := e], elements[..], Key<S, J>)
      ensures AllAgree(elements[..], Key<S, J>) ==> Sorted(elements[..], Key<S, J>)
    {
      Replace(idx, e);
      ghost var before := elements[..];
      hide MaySortTo;
      Sort(elements, Key<S, J>);
      SortKeeps(before, elements[..], Key<S, J>);
    }

    method Replace(idx: nat, e: Element<S, J>)
      requires elements.Length == MAX_QUEUE && idx < MAX_QUEUE
      modifies elements
      ensures elements[..] == old(elements[..])[idx := e]
      ensures multiset(elements[..]) == multiset(old(elements[..])) - multiset{old(elements[idx])} + multiset{e}
    {
      elements[idx] := e;
    }

    /** The search loop of get_from_ffedit_json_queue: the first slot wanted, MAX_QUEUE if none is. */
    method FirstWanted(pos: int) returns (idx: nat)
      requires Valid()
      ensures idx <= MAX_QUEUE && (idx < MAX_QUEUE <==> SomeWanted(held, pos))
      ensures idx < MAX_QUEUE ==> elements[idx] in held && elements[idx].used && Wanted(elements[idx], pos)
      ensures forall k | 0 <= k < idx :: !Wanted(elements[k], pos)
      ensures idx < MAX_QUEUE && pos == -1 && AllAgree(elements[..], Key<S, J>) ==> IsLeast(elements[idx], held)
    {
      idx := 0;
      while idx < MAX_QUEUE && !Wanted(elements[idx], pos)
        invariant idx <= MAX_QUEUE && forall k | 0 <= k < idx :: !Wanted(elements[k], pos)
      {
        idx := idx + 1;
      }
      if idx == MAX_QUEUE { NoneWanted(elements[..], held, pos); } else { WantedIsHeld(elements[..], held, idx, pos); }
    }

    /** What the taker gets; a packet keeps its own context if the element has none. */
    method HandOver(e: Element<S, J>, pkt: AVPacket<S, J>)
      modifies pkt
      ensures pkt.pos == e.pktPos && pkt.sd == e.sd && pkt.streamIndex == e.streamIndex
      ensures pkt.jctx == if e.jctx.Some? then e.jctx else old(pkt.jctx)
    {
      pkt.sd := e.sd;
      if e.jctx.Some? {
        pkt.jctx := e.jctx;
      }
      pkt.pos := e.pktPos;
      pkt.streamIndex := e.streamIndex;
    }

    /** One turn of get_from_ffedit_json_queue: the least element for position -1, a matching one otherwise. */
    method GetFrame(pkt: AVPacket<S, J>) returns (turn: Turn, ghost taken: Element<S, J>)
      requires Valid()
      modifies this`held, elements, pkt
      ensures Valid()
      ensures turn == if abortRequest then Aborted else if SomeWanted(old(held), old(pkt.pos)) then Done else Wait
      ensures turn.Done? ==>
        && taken in old(held) && Wanted(taken, old(pkt.pos)) && held == old(held) - multiset{taken}
        && pkt.pos == taken.pktPos && pkt.sd == taken.sd && pkt.streamIndex == taken.streamIndex
        && pkt.jctx == (if taken.jctx.Some? then taken.jctx else old(pkt.jctx))
        && (taken.jctx.Some? ==> forall e <- elements[..] :: e.jctx != taken.jctx)
        && (old(pkt.pos) == -1 && old(AllAgree(elements[..], Key<S, J>)) ==> IsLeast(taken, old(held)))
      ensures turn.Done? && old(pkt.pos) != -1 ==> pkt.pos == old(pkt.pos)
      ensures turn.Wait? ==> forall f <- old(held) :: old(pkt.pos) != -1 && f.pktPos != old(pkt.pos)
      ensures turn.Done? ==> TakeStep(old(elements[..]), elements[..], old(pkt.pos))
      ensures !turn.Done? ==> held == old(held) && elements[..] == old(elements[..]) && pkt.jctx == old(pkt.jctx)
      ensures pkt.pos == if turn.Done? then taken.pktPos else if turn.Aborted? then -2 else old(pkt.pos)
    {
      hide OneOwner, Holds, AllAgree, Sorted, SomeWanted, IsLeast, Wanted;
      taken := elements[0];
      if abortRequest {
        pkt.pos := -2;
        return Aborted, taken;
      }
      var idx := FirstWanted(pkt.pos);
      HeldIsWanted(held, elements[..], pkt.pos);
      if idx == MAX_QUEUE {
        return Wait, taken;
      }
      if pkt.pos != -1 { WantedMeans(elements[idx], pkt.pos); }
      taken := elements[idx];
      ghost var before := elements[..];
      assert forall k | 0 <= k < idx :: !Wanted(before[k], pkt.pos);
      HandOver(elements[idx], pkt);
      Take(idx);
      assert TakenAt(before, elements[..], idx, old(pkt.pos));
      return Done, taken;
    }

    /** Marks a slot unused; its context goes to the taker, its position stays behind. */
    method Take(idx: nat)
      requires Valid() && idx < MAX_QUEUE && elements[idx].used
      modifies this`held, elements
      ensures Valid() && held == old(held) - multiset{old(elements[idx])}
      ensures elements[..] == old(elements[..])[idx := old(elements[idx]).(jctx := None, used := false)]
      ensures old(elements[idx]).jctx.Some? ==> forall e <- elements[..] :: e.jctx != old(elements[idx]).jctx
    {
      var e := elements[idx];
      ghost var before := elements[..];
      assert e in before;
      TakeKeepsOwner(multiset(before), e);
      TakeHolds(held, multiset(before), e);
      hide OneOwner, Holds, AllAgree, Sorted;
      Replace(idx, e.(jctx := None, used := false));
      held := held - multiset{e};
      SameKeys(before, elements[..]);
      assert forall f <- elements[..] :: f in multiset(elements[..]);
    }
  }

  ghost predicate SomeWanted<S(!new), J(!new)>(held: multiset<Element<S, J>>, pos: int) {
    exists e :: e in held && Wanted(e, pos)
  }

  lemma WantedMeans<S(!new), J(!new)>(e: Element<S, J>, pos: int)
    requires Wanted(e, pos) && pos != -1
    ensures e.pktPos == pos
  {
  }

  /** With position -1 any held element will do, otherwise one with that position. */
  lemma HeldIsWanted<S(!new), J(!new)>(held: multiset<Element<S, J>>, elements: seq<Element<S, J>>, pos: int)
    requires Holds(held, multiset(elements))
    ensures SomeWanted(held, pos) <==> exists e :: e in held && (pos == -1 || e.pktPos == pos)
  {
    assert forall e <- held :: e.used;
  }

  ghost predicate IsLeast<S(!new), J(!new)>(e: Element<S, J>, held: multiset<Element<S, J>>) {
    forall f <- held :: e.pktPos <= f.pktPos
  }

  /** Positions are all the sort looks at. */
  lemma SameKeys<S(!new), J(!new)>(a: seq<Element<S, J>>, b: seq<Element<S, J>>)
    requires |a| == |b| && forall i | 0 <= i < |a| :: Key(a[i]) == Key(b[i])
    ensures AllAgree(a, Key<S, J>) <==> AllAgree(b, Key<S, J>)
    ensures Sorted(a, Key<S, J>) <==> Sorted(b, Key<S, J>)
  {
    if AllAgree(a, Key<S, J>) { KeysAgree(a, b); }
    if AllAgree(b, Key<S, J>) { KeysAgree(b, a); }
  }

  lemma KeysAgree<S(!new), J(!new)>(a: seq<Element<S, J>>, b: seq<Element<S, J>>)
    requires |a| == |b| && forall i | 0 <= i < |a| :: Key(a[i]) == Key(b[i])
    requires AllAgree(a, Key<S, J>)
    ensures AllAgree(b, Key<S, J>)
  {
    var key := Key<S, J>;
    hide Agrees;
    forall x, y | x in b && y in b ensures Agrees(key(x), key(y)) {
      var i, j :| 0 <= i < |b| && 0 <= j < |b| && b[i] == x && b[j] == y;
      assert Agrees(key(a[i]), key(a[j]));
      assert key(a[i]) == Key(a[i]) && key(a[j]) == Key(a[j]) && key(x) == Key(x) && key(y) == Key(y);
    }
  }

  lemma NoneWanted<S(!new), J(!new)>(elements: seq<Element<S, J>>, held: multiset<Element<S, J>>, pos: int)
    requires Holds(held, multiset(elements)) && forall k | 0 <= k < |elements| :: !Wanted(elements[k], pos)
    ensures !SomeWanted(held, pos)
  {
    forall e | e in held ensures !Wanted(e, pos) {
      assert e in multiset(elements) && e in elements;
    }
  }

  /** The first wanted slot holds a held element, for position -1 one of least position. */
  lemma WantedIsHeld<S(!new), J(!new)>(elements: seq<Element<S, J>>, held: multiset<Element<S, J>>, idx: nat, pos: int)
    requires Holds(held, multiset(elements)) && idx < |elements| && Wanted(elements[idx], pos)
    requires forall k | 0 <= k < idx :: !Wanted(elements[k], pos)
    ensures elements[idx] in held && SomeWanted(held, pos)
    ensures pos == -1 && Sorted(elements, Key<S, J>) ==> IsLeast(elements[idx], held)
  {
    assert elements[idx] in multiset(elements);
    if pos == -1 && Sorted(elements, Key<S, J>) {
      forall e | e in held ensures elements[idx].pktPos <= e.pktPos {
        assert e in multiset(elements) && e in elements;
        var k :| 0 <= k < |elements| && elements[k] == e;
        assert Wanted(e, pos) && idx <= k;
        assert Key(elements[idx]) <= Key(elements[k]);
      }
    }
  }

  lemma SortKeeps<T(!new)>(before: seq<T>, after: seq<T>, key: T -> int)
    requires MaySortTo(before, after, key)
    ensures multiset(before) == multiset(after)
    ensures AllAgree(after, key) ==> Sorted(after, key)
  {
    forall x | x in before ensures x in after {
      assert x in multiset(before);
    }
    if AllAgree(after, key) { AgreeingIsSorted(before, after, key); }
  }
}
