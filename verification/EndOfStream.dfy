/** End-of-stream bookkeeping of demuxer streams, decoders and encoders towards their
    destinations, and of a filtergraph towards its control stream (fftools/ffmpeg_sched.c). */
module EndOfStream {
  import opened Common

  /** Which of the three fan-out loops: they differ in what they return once everything is closed. */
  datatype Kind = DemuxStream | Decoder | Encoder

  datatype Dst = Muxer | Other

  /** What a destination's queue answers to a send, and what the loops return. */
  datatype Reply = Ok | Eof | Error

  /** What a destination gets to see. */
  datatype Op<T> = Send(item: T) | Close

  /** A destination: its dst_finished flag and all it has seen. */
  datatype DstState<T> = DstState(finished: bool, seen: seq<Op<T>>)

  /** One call of a send loop; replies[i] is what a send to destination i answers, if there is one. */
  datatype Round<T> = Round(item: Option<T>, streamcopyEof: bool, replies: seq<Reply>)

  /** What is really sent: a streamcopy EOF mark turns the item into the end for muxers. */
  function Effective<T>(dst: Dst, r: Round<T>): Option<T> {
    if dst.Muxer? && r.streamcopyEof then None else r.item
  }

  /** demux_stream_send_to_dst, dec_send_to_dst and enc_send_to_dst. */
  function ToDst<T>(d: DstState<T>, item: Option<T>, reply: Reply): (DstState<T>, Reply) {
    if d.finished then (d, Eof)
    else if item.None? then (DstState(true, d.seen + [Close]), Eof)
    else if reply.Eof? then (DstState(true, d.seen + [Send(item.value), Close]), Eof)
    else (d.(seen := d.seen + [Send(item.value)]), reply)
  }

  /** The loop from destination i on, `done` of the earlier ones having answered EOF. */
  function Fan<T>(kind: Kind, dst: seq<Dst>, states: seq<DstState<T>>, r: Round<T>, i: nat, done: nat)
    : (seq<DstState<T>>, Reply)
    requires i <= |dst| == |states| == |r.replies|
    decreases |dst| - i
  {
    if i == |dst| then (states, if done == |dst| && !kind.Encoder? then Eof else Ok)
    else
      var (d, ret) := ToDst(states[i], Effective(dst[i], r), r.replies[i]);
      var states' := states[i := d];
      if ret.Error? then (states', Error) else Fan(kind, dst, states', r, i + 1, if ret.Eof? then done + 1 else done)
  }

  // ----- the loops -----

  class Fanout<T> {
    const kind: Kind
    const dst: seq<Dst>
    const dstFinished: array<bool>
    ghost var seen: seq<seq<Op<T>>>

    ghost predicate Valid()
      reads this
    {
      0 < |dst| == dstFinished.Length == |seen|
    }

    ghost function States(): seq<DstState<T>>
      requires Valid()
      reads this, dstFinished
    {
      seq(|dst|, i requires 0 <= i < |dst| && Valid() reads this, dstFinished =>
                   DstState(dstFinished[i], seen[i]))
    }

    constructor (kind: Kind, dst: seq<Dst>)
      requires dst != []
      ensures Valid() && fresh(dstFinished) && this.kind == kind && this.dst == dst
      ensures States() == seq(|dst|, _ => DstState(false, []))
    {
      this.kind, this.dst := kind, dst;
      dstFinished := new bool[|dst|](_ => false);
      seen := seq(|dst|, _ => []);
    }

    method SendToDst(i: nat, item: Option<T>, reply: Reply) returns (ret: Reply)
      requires Valid() && i < |dst|
      modifies dstFinished, this`seen
      ensures Valid()
      ensures var (d, answer) := ToDst(old(States())[i], item, reply);
        ret == answer && States() == old(States())[i := d]
    {
      if dstFinished[i] {
        return Eof;
      }
      if item.Some? {
        seen := seen[i := seen[i] + [Send(item.value)]];
        if !reply.Eof? {
          return reply;
        }
      }
      seen := seen[i := seen[i] + [Close]];
      dstFinished[i] := true;
      assert item.Some? ==> seen[i] == old(seen[i]) + [Send(item.value), Close];
      return Eof;
    }

    /** demux_send_for_stream, sch_dec_send and sch_enc_send. */
    method SendRound(r: Round<T>) returns (ret: Reply)
      requires Valid() && |r.replies| == |dst|
      modifies dstFinished, this`seen
      ensures Valid() && (States(), ret) == Fan(kind, dst, old(States()), r, 0, 0)
    {
      var nbDone := 0;
      var i := 0;
      while i < |dst|
        invariant i <= |dst| && Valid()
        invariant Fan(kind, dst, States(), r, i, nbDone) == Fan(kind, dst, old(States()), r, 0, 0)
      {
        var item := if dst[i].Muxer? && r.streamcopyEof then None else r.item;
        ret := SendToDst(i, item, r.replies[i]);
        if ret.Error? {
          return;
        }
        if ret.Eof? {
          nbDone := nbDone + 1;
        }
        i := i + 1;
      }
      ret := if nbDone == |dst| && !kind.Encoder? then Eof else Ok;
    }
  }

  // ----- what holds over every run -----

  /** A destination sees sends, then at most one close and nothing after it, and the flag says which. */
  ghost predicate ClosedOnce<T>(d: DstState<T>) {
    && (forall k | 0 <= k < |d.seen| - 1 :: d.seen[k].Send?)
    && (d.finished <==> d.seen != [] && d.seen[|d.seen| - 1].Close?)
  }

  lemma ToDstClosesOnce<T>(d: DstState<T>, item: Option<T>, reply: Reply)
    requires ClosedOnce(d)
    ensures ClosedOnce(ToDst(d, item, reply).0)
    ensures d.finished ==> ToDst(d, item, reply).0 == d
    ensures ToDst(d, item, reply).1 == Eof <==> ToDst(d, item, reply).0.finished
  {
  }

  ghost function CountFinished<T>(states: seq<DstState<T>>, upTo: nat): (n: nat)
    requires upTo <= |states|
    ensures n <= upTo
    ensures n == upTo <==> forall k | 0 <= k < upTo :: states[k].finished
  {
    if upTo == 0 then 0 else CountFinished(states, upTo - 1) + if states[upTo - 1].finished then 1 else 0
  }

  lemma {:induction false} CountSame<T>(a: seq<DstState<T>>, b: seq<DstState<T>>, upTo: nat)
    requires upTo <= |a| && upTo <= |b| && forall k | 0 <= k < upTo :: a[k] == b[k]
    ensures CountFinished(a, upTo) == CountFinished(b, upTo)
  {
    if upTo == 0 {
    } else {
      CountSame(a, b, upTo - 1);
    }
  }

  /** What the loop does to every destination. */
  lemma {:induction false} FanDsts<T>(kind: Kind, dst: seq<Dst>, states: seq<DstState<T>>, r: Round<T>, i: nat,
      done: nat)
    requires i <= |dst| == |states| == |r.replies|
    ensures var (after, ret) := Fan(kind, dst, states, r, i, done);
      && |after| == |states|
      && (forall k | 0 <= k < i :: after[k] == states[k])
      && (forall k | i <= k < |after| :: after[k] == ToDst(states[k], Effective(dst[k], r), r.replies[k]).0
                                      || (ret.Error? && after[k] == states[k]))
      && (ret.Error? ==> exists k :: i <= k < |after| && r.replies[k].Error?)
    decreases |dst| - i
  {
    hide ToDst, Effective;
    if i < |dst| {
      var (d, ret) := ToDst(states[i], Effective(dst[i], r), r.replies[i]);
      assert ret.Error? ==> r.replies[i].Error? by { ErrorIsReply(states[i], Effective(dst[i], r), r.replies[i]); }
      if !ret.Error? {
        FanDsts(kind, dst, states[i := d], r, i + 1, if ret.Eof? then done + 1 else done);
      }
    }
  }

  lemma ErrorIsReply<T>(d: DstState<T>, item: Option<T>, reply: Reply)
    ensures ToDst(d, item, reply).1.Error? ==> reply.Error?
  {
  }

  /** The loop's count of EOF answers is the count of closed destinations. */
  lemma {:induction false} FanReturns<T>(kind: Kind, dst: seq<Dst>, states: seq<DstState<T>>, r: Round<T>,
      i: nat, done: nat)
    requires i <= |dst| == |states| == |r.replies| && done == CountFinished(states, i)
    requires forall k | 0 <= k < |states| :: ClosedOnce(states[k])
    ensures var (after, ret) := Fan(kind, dst, states, r, i, done);
      !ret.Error? ==> |after| == |dst| && (ret.Eof? <==> !kind.Encoder? && CountFinished(after, |dst|) == |dst|)
    decreases |dst| - i
  {
    if i < |dst| {
      var (d, ret) := ToDst(states[i], Effective(dst[i], r), r.replies[i]);
      ToDstClosesOnce(states[i], Effective(dst[i], r), r.replies[i]);
      var states' := states[i := d];
      CountSame(states, states', i);
      if !ret.Error? {
        hide ClosedOnce, ToDst;
        FanReturns(kind, dst, states', r, i + 1, if ret.Eof? then done + 1 else done);
      }
    }
  }

  lemma FanFacts<T>(kind: Kind, dst: seq<Dst>, states: seq<DstState<T>>, r: Round<T>)
    requires |dst| == |states| == |r.replies|
    requires forall k | 0 <= k < |states| :: ClosedOnce(states[k])
    ensures var (after, ret) := Fan(kind, dst, states, r, 0, 0);
      && |after| == |states|
      && (forall k | 0 <= k < |after| :: ClosedOnce(after[k]))
      && (forall k | 0 <= k < |after| :: states[k].finished ==> after[k] == states[k])
  {
    FanDsts(kind, dst, states, r, 0, 0);
    forall k | 0 <= k < |dst|
      ensures ClosedOnce(ToDst(states[k], Effective(dst[k], r), r.replies[k]).0)
      ensures states[k].finished ==> ToDst(states[k], Effective(dst[k], r), r.replies[k]).0 == states[k]
    {
      ToDstClosesOnce(states[k], Effective(dst[k], r), r.replies[k]);
    }
    hide ClosedOnce, ToDst, Effective;
  }

  function Fresh<T>(n: nat): seq<DstState<T>> {
    seq(n, _ => DstState(false, []))
  }

  /** All rounds in turn. */
  function Rounds<T>(kind: Kind, dst: seq<Dst>, rounds: seq<Round<T>>): (states: seq<DstState<T>>)
    requires forall r <- rounds :: |r.replies| == |dst|
    ensures |states| == |dst|
    ensures forall k | 0 <= k < |dst| :: ClosedOnce(states[k])
  {
    if rounds == [] then Fresh(|dst|)
    else
      var before := Rounds(kind, dst, rounds[..|rounds| - 1]);
      FanFacts(kind, dst, before, rounds[|rounds| - 1]);
      Fan(kind, dst, before, rounds[|rounds| - 1], 0, 0).0
  }

  /** Over any run: a closed destination sees nothing more. */
  lemma {:induction false} ClosedStaysClosed<T>(kind: Kind, dst: seq<Dst>, rounds: seq<Round<T>>, n: nat, k: nat)
    requires forall r <- rounds :: |r.replies| == |dst|
    requires n <= |rounds| && k < |dst| && Rounds(kind, dst, rounds[..n])[k].finished
    ensures Rounds(kind, dst, rounds)[k] == Rounds(kind, dst, rounds[..n])[k]
    decreases |rounds|
  {
    if n < |rounds| {
      var init := rounds[..|rounds| - 1];
      assert init[..n] == rounds[..n];
      ClosedStaysClosed(kind, dst, init, n, k);
      FanFacts(kind, dst, Rounds(kind, dst, init), rounds[|rounds| - 1]);
    } else {
      assert rounds[..n] == rounds;
    }
  }

  /** The last round of any run that meets no error: it reports EOF exactly when every destination is
      closed (an encoder never reports it), and a round without an item closes them all. */
  lemma RoundReportsEof<T>(kind: Kind, dst: seq<Dst>, rounds: seq<Round<T>>, r: Round<T>)
    requires forall x <- rounds + [r] :: |x.replies| == |dst|
    requires forall x <- rounds :: |x.replies| == |dst|
    requires dst != [] && forall reply <- r.replies :: !reply.Error?
    ensures var (after, ret) := Fan(kind, dst, Rounds(kind, dst, rounds), r, 0, 0);
      && |after| == |dst| && after == Rounds(kind, dst, rounds + [r]) && !ret.Error?
      && (ret.Eof? <==> !kind.Encoder? && forall k | 0 <= k < |dst| :: after[k].finished)
      && (r.item.None? ==> forall k | 0 <= k < |dst| :: after[k].finished)
  {
    assert (rounds + [r])[..|rounds|] == rounds;
    FanDsts(kind, dst, Rounds(kind, dst, rounds), r, 0, 0);
    FanReturns(kind, dst, Rounds(kind, dst, rounds), r, 0, 0);
    forall k | 0 <= k < |dst| ensures !r.replies[k].Error? {
      assert r.replies[k] in r.replies;
    }
  }

  /** A destination that is still open has seen every item sent so far, in order, one copy each. */
  lemma {:induction false} OpenSawEverything<T>(kind: Kind, dst: seq<Dst>, rounds: seq<Round<T>>, k: nat)
    requires forall r <- rounds :: |r.replies| == |dst|
    requires forall j, i | 0 <= j < |rounds| && 0 <= i < |dst| :: !rounds[j].replies[i].Error?
    requires k < |dst| && !Rounds(kind, dst, rounds)[k].finished
    ensures var seen := Rounds(kind, dst, rounds)[k].seen;
      && |seen| == |rounds|
      && forall j | 0 <= j < |rounds| :: rounds[j].item.Some? && seen[j] == Send(rounds[j].item.value)
    decreases |rounds|
  {
    if rounds == [] {
    } else {
      var init, r := rounds[..|rounds| - 1], rounds[|rounds| - 1];
      var before := Rounds(kind, dst, init);
      FanFacts(kind, dst, before, r);
      FanDsts(kind, dst, before, r, 0, 0);
      assert forall j | 0 <= j < |init| :: init[j] == rounds[j];
      OpenSawEverything(kind, dst, init, k);
      assert Rounds(kind, dst, rounds)[k] == ToDst(before[k], Effective(dst[k], r), r.replies[k]).0;
    }
  }

  // ----- exactly when a destination is closed, and what it has seen -----

  /** The end for this destination, whatever its queue answers: no item, or for a muxer a streamcopy EOF mark. */
  predicate Ends<T>(dst: Dst, r: Round<T>) {
    r.item.None? || (dst.Muxer? && r.streamcopyEof)
  }

  /** One destination in one round that comes to it. */
  lemma ToDstExactly<T>(dst: Dst, d: DstState<T>, r: Round<T>, reply: Reply)
    ensures var (d', ret) := ToDst(d, Effective(dst, r), reply);
      && (d'.finished <==> d.finished || Ends(dst, r) || reply.Eof?)
      && d'.seen == (if d.finished then d.seen
                     else if Ends(dst, r) then d.seen + [Close]
                     else if reply.Eof? then d.seen + [Send(r.item.value), Close]
                     else d.seen + [Send(r.item.value)])
      && (ret.Error? <==> !d.finished && !Ends(dst, r) && reply.Error?)
  {
  }

  /** Round n comes to destination k: no destination before it, still open, has failed in that round. */
  ghost predicate Reached<T>(kind: Kind, dst: seq<Dst>, rounds: seq<Round<T>>, n: nat, k: nat)
    requires (forall r <- rounds :: |r.replies| == |dst|) && n < |rounds| && k < |dst|
  {
    forall i | 0 <= i < k ::
      rounds[n].replies[i].Error? && !Ends(dst[i], rounds[n]) ==> Rounds(kind, dst, rounds[..n])[i].finished
  }

  /** Round n closes destination k, or finds it closed. */
  ghost predicate ClosesIt<T>(kind: Kind, dst: seq<Dst>, rounds: seq<Round<T>>, n: nat, k: nat)
    requires (forall r <- rounds :: |r.replies| == |dst|) && n < |rounds| && k < |dst|
  {
    Reached(kind, dst, rounds, n, k) && (Ends(dst[k], rounds[n]) || rounds[n].replies[k].Eof?)
  }

  /** The loop comes to destination k iff none before it that is open fails. */
  lemma {:induction false} FanReaches<T>(kind: Kind, dst: seq<Dst>, states: seq<DstState<T>>, r: Round<T>, i: nat,
      done: nat, k: nat)
    requires i <= k < |dst| == |states| == |r.replies|
    ensures var after := Fan(kind, dst, states, r, i, done).0;
      && |after| == |states|
      && after[k] == if forall j | i <= j < k :: r.replies[j].Error? && !Ends(dst[j], r) ==> states[j].finished
                     then ToDst(states[k], Effective(dst[k], r), r.replies[k]).0 else states[k]
    decreases |dst| - i
  {
    ToDstExactly(dst[i], states[i], r, r.replies[i]);
    FanDsts(kind, dst, states, r, i, done);
    hide ToDst, Effective, Ends;
    var (d, ret) := ToDst(states[i], Effective(dst[i], r), r.replies[i]);
    if i == k {
      FanStops(kind, dst, states[i := d], r, i, if ret.Eof? then done + 1 else done);
    } else if !ret.Error? {
      FanReaches(kind, dst, states[i := d], r, i + 1, if ret.Eof? then done + 1 else done, k);
    }
  }

  lemma FanStops<T>(kind: Kind, dst: seq<Dst>, states: seq<DstState<T>>, r: Round<T>, i: nat, done: nat)
    requires i < |dst| == |states| == |r.replies|
    ensures var after := Fan(kind, dst, states, r, i + 1, done).0; |after| == |states| && after[i] == states[i]
  {
    FanDsts(kind, dst, states, r, i + 1, done);
  }

  lemma LastRoundCloses<T>(kind: Kind, dst: seq<Dst>, rounds: seq<Round<T>>, k: nat)
    requires (forall r <- rounds :: |r.replies| == |dst|) && k < |dst| && rounds != []
    ensures var m := |rounds| - 1;
      Rounds(kind, dst, rounds)[k].finished <==>
        Rounds(kind, dst, rounds[..m])[k].finished || ClosesIt(kind, dst, rounds, m, k)
  {
    var m := |rounds| - 1;
    var before, r := Rounds(kind, dst, rounds[..m]), rounds[m];
    FanReaches(kind, dst, before, r, 0, 0, k);
    ToDstExactly(dst[k], before[k], r, r.replies[k]);
    assert Rounds(kind, dst, rounds) == Fan(kind, dst, before, r, 0, 0).0;
    hide ToDst, Effective, Ends, Fan, Rounds;
  }

  lemma EarlierRoundCloses<T>(kind: Kind, dst: seq<Dst>, rounds: seq<Round<T>>, m: nat, n: nat, k: nat)
    requires (forall r <- rounds :: |r.replies| == |dst|) && k < |dst| && n < m <= |rounds|
    ensures (forall r <- rounds[..m] :: |r.replies| == |dst|)
    ensures ClosesIt(kind, dst, rounds[..m], n, k) <==> ClosesIt(kind, dst, rounds, n, k)
  {
    assert rounds[..m][..n] == rounds[..n] && rounds[..m][n] == rounds[n];
    hide Ends, Rounds;
  }

  /** Over any run: a destination is closed iff some round that came to it sent it the end, or its queue
      answered EOF to what that round sent. */
  lemma {:induction false} ClosedIff<T>(kind: Kind, dst: seq<Dst>, rounds: seq<Round<T>>, k: nat)
    requires (forall r <- rounds :: |r.replies| == |dst|) && k < |dst|
    ensures Rounds(kind, dst, rounds)[k].finished <==>
            exists n: nat :: n < |rounds| && ClosesIt(kind, dst, rounds, n, k)
    decreases |rounds|
  {
    if rounds == [] {
    } else {
      var m := |rounds| - 1;
      ClosedIff(kind, dst, rounds[..m], k);
      LastRoundCloses(kind, dst, rounds, k);
      forall n: nat | n < m ensures ClosesIt(kind, dst, rounds[..m], n, k) <==> ClosesIt(kind, dst, rounds, n, k) {
        EarlierRoundCloses(kind, dst, rounds, m, n, k);
      }
      hide ClosesIt, Rounds;
    }
  }
}
