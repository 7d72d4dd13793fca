/** The last repair of packet timestamps before muxing (mux_fixup_ts, fftools/ffmpeg_mux.c).
    Timestamps arrive already rescaled to the stream's time base. */
module MuxTimestamps {
  import opened Common

  /** Media types the monotonicity rule applies to, and the others. */
  datatype MediaType = Video | Audio | Subtitle | OtherMedia

  datatype Config = Config(
    mediaType: MediaType,
    vsyncDrop: bool,        // VSYNC_DROP
    noTimestamps: bool,     // AVFMT_NOTIMESTAMPS
    nonStrict: bool,        // AVFMT_TS_NONSTRICT
    exitOnError: bool)

  datatype Packet = Packet(pts: int, dts: int)

  datatype Result = Fixed(pkt: Packet, last: int) | Invalid

  function Min(a: int, b: int): int { if a < b then a else b }
  function Max(a: int, b: int): int { if a > b then a else b }

  // ----- the guess -----

  /** The source's expression for the replacement of both timestamps. */
  function Guess(pts: int, dts: int, next: int): int {
    pts + dts + next - Min(pts, Min(dts, next)) - Max(pts, Max(dts, next))
  }

  lemma GuessIsMedian(pts: int, dts: int, next: int)
    ensures forall m :: IsMedian(m, pts, dts, next) <==> m == Guess(pts, dts, next)
  {
  }

  /** Two's complement 64-bit arithmetic. */
  function Wrap(x: int): int {
    (x + 0x8000_0000_0000_0000) % 0x1_0000_0000_0000_0000 - 0x8000_0000_0000_0000
  }

  predicate Int64(x: int) { -0x8000_0000_0000_0000 <= x < 0x8000_0000_0000_0000 }

  /** The sum overflows 64 bits for large timestamps; wrapped around at every step it is the median still. */
  lemma GuessSurvivesWrapping(pts: int, dts: int, next: int)
    requires Int64(pts) && Int64(dts) && Int64(next)
    ensures Wrap(Wrap(Wrap(Wrap(pts + dts) + next) - Min(pts, Min(dts, next))) - Max(pts, Max(dts, next)))
         == Guess(pts, dts, next)
  {
    WrapChain(pts + dts, next, Min(pts, Min(dts, next)), Max(pts, Max(dts, next)));
    GuessIsMedian(pts, dts, next);
    WrapInRange(Guess(pts, dts, next));
    hide Wrap;
  }

  lemma WrapChain(a: int, b: int, lo: int, hi: int)
    ensures Wrap(Wrap(Wrap(Wrap(a) + b) - lo) - hi) == Wrap(a + b - lo - hi)
  {
    hide Wrap;
    WrapAdd(a, b);
    WrapAdd(a + b, -lo);
    WrapAdd(a + b - lo, -hi);
  }

  lemma WrapInRange(x: int)
    requires Int64(x)
    ensures Wrap(x) == x
  {
  }

  lemma WrapAdd(x: int, y: int)
    ensures Wrap(Wrap(x) + y) == Wrap(x + y)
  {
  }

  // ----- the repair -----

  predicate Monotonic(cfg: Config) { !cfg.mediaType.OtherMedia? }

  /** The least dts allowed after this last one. */
  function Floor(cfg: Config, last: int): int {
    last + if cfg.nonStrict then 0 else 1
  }

  /** Video under VSYNC_DROP loses its timestamps first. */
  function Incoming(cfg: Config, pkt: Packet): Packet {
    if cfg.mediaType.Video? && cfg.vsyncDrop then Packet(NOPTS, NOPTS) else pkt
  }

  function Fixup(cfg: Config, last: int, pkt: Packet): Result {
    var p0 := Incoming(cfg, pkt);
    if cfg.noTimestamps then Fixed(p0, p0.dts)
    else
      var p1 := if p0.dts != NOPTS && p0.pts != NOPTS && p0.dts > p0.pts
                then var g := Guess(p0.pts, p0.dts, last + 1); Packet(g, g) else p0;
      if Monotonic(cfg) && p1.dts != NOPTS && last != NOPTS && p1.dts < Floor(cfg, last) then
        if cfg.exitOnError then Invalid
        else
          var max := Floor(cfg, last);
          Fixed(Packet(if p1.pts >= p1.dts then Max(p1.pts, max) else p1.pts, max), max)
      else Fixed(p1, p1.dts)
  }

  class MuxStream {
    const cfg: Config
    var lastMuxDts: int

    constructor (cfg: Config)
      ensures this.cfg == cfg && lastMuxDts == NOPTS
    {
      this.cfg := cfg;
      lastMuxDts := NOPTS;
    }

    /** mux_fixup_ts; false stands for AVERROR(EINVAL). */
    method MuxFixupTs(pkt: Packet) returns (ok: bool, fixed: Packet)
      modifies this
      ensures match Fixup(cfg, old(lastMuxDts), pkt)
        case Fixed(p, last) => ok && fixed == p && lastMuxDts == last
        case Invalid => !ok && lastMuxDts == old(lastMuxDts)
    {
      fixed := pkt;
      if cfg.mediaType.Video? && cfg.vsyncDrop {
        fixed := Packet(NOPTS, NOPTS);
      }
      if !cfg.noTimestamps {
        if fixed.dts != NOPTS && fixed.pts != NOPTS && fixed.dts > fixed.pts {
          var guess := Guess(fixed.pts, fixed.dts, lastMuxDts + 1);
          fixed := Packet(guess, guess);
        }
        if Monotonic(cfg) && fixed.dts != NOPTS && lastMuxDts != NOPTS {
          var max := Floor(cfg, lastMuxDts);
          if fixed.dts < max {
            if cfg.exitOnError {
              return false, fixed;
            }
            if fixed.pts >= fixed.dts {
              fixed := fixed.(pts := Max(fixed.pts, max));
            }
            fixed := fixed.(dts := max);
          }
        }
      }
      lastMuxDts := fixed.dts;
      return true, fixed;
    }
  }

  // ----- one packet -----

  predicate InRange(x: int) { NOPTS <= x }

  /** Both timestamps in order, and the dts not before what the last one allows. */
  predicate Good(cfg: Config, last: int, p: Packet) {
    && (p.dts != NOPTS && p.pts != NOPTS ==> p.dts <= p.pts)
    && (Monotonic(cfg) && p.dts != NOPTS && last != NOPTS ==> Floor(cfg, last) <= p.dts)
  }

  /** The dts is one that the last one forbids. */
  predicate TooEarly(cfg: Config, last: int, dts: int) {
    Monotonic(cfg) && dts != NOPTS && last != NOPTS && dts < Floor(cfg, last)
  }

  /** The lift by itself: for audio, video and subtitles a dts may not lie before the last one plus one, or before
      the last one in a non-strict format; one that does is lifted exactly there, and a pts that was not before
      it is kept from falling behind.  Packets of other media keep what they have. */
  lemma LiftedExactly(cfg: Config, last: int, pkt: Packet)
    requires InRange(last) && InRange(pkt.pts) && InRange(pkt.dts) && last != NOPTS && pkt.dts != NOPTS
    requires !cfg.noTimestamps && !cfg.exitOnError && !(cfg.mediaType.Video? && cfg.vsyncDrop)
    requires pkt.pts == NOPTS || pkt.dts <= pkt.pts
    ensures var least := last + if cfg.nonStrict then 0 else 1;
      Fixup(cfg, last, pkt) ==
      if cfg.mediaType.OtherMedia? || pkt.dts >= least then Fixed(pkt, pkt.dts)
      else Fixed(Packet(if pkt.pts != NOPTS && pkt.pts < least then least else pkt.pts, least), least)
  {
  }

  /** What else can happen to a packet: video under VSYNC_DROP goes without timestamps; a format without
      timestamps leaves them alone; and with exit_on_error a dts that would have to be lifted, after the
      replacement by the median, is an error. */
  lemma OtherOutcomes(cfg: Config, last: int, pkt: Packet)
    requires InRange(last) && InRange(pkt.pts) && InRange(pkt.dts)
    ensures cfg.mediaType.Video? && cfg.vsyncDrop ==> Fixup(cfg, last, pkt) == Fixed(Packet(NOPTS, NOPTS), NOPTS)
    ensures cfg.noTimestamps && !(cfg.mediaType.Video? && cfg.vsyncDrop) ==>
              Fixup(cfg, last, pkt) == Fixed(pkt, pkt.dts)
    ensures Fixup(cfg, last, pkt).Invalid? <==>
      && cfg.exitOnError && !cfg.noTimestamps && !(cfg.mediaType.Video? && cfg.vsyncDrop)
      && (if pkt.dts != NOPTS && pkt.pts != NOPTS && pkt.dts > pkt.pts
          then forall m :: IsMedian(m, pkt.pts, pkt.dts, last + 1) ==> TooEarly(cfg, last, m)
          else TooEarly(cfg, last, pkt.dts))
    ensures Fixup(cfg, last, pkt).Fixed? ==> Fixup(cfg, last, pkt) == Fixup(cfg.(exitOnError := false), last, pkt)
  {
    GuessIsMedian(pkt.pts, pkt.dts, last + 1);
    var g := Guess(pkt.pts, pkt.dts, last + 1);
    assert IsMedian(g, pkt.pts, pkt.dts, last + 1);
    if !cfg.noTimestamps && !(cfg.mediaType.Video? && cfg.vsyncDrop) {
      if pkt.dts != NOPTS && pkt.pts != NOPTS && pkt.dts > pkt.pts {
        assert g != NOPTS;
        assert Fixup(cfg, last, pkt).Invalid? <==> cfg.exitOnError && TooEarly(cfg, last, g);
      }
    }
  }

  /** The repair makes a packet good, never invents or removes a timestamp (dropped timestamps aside),
      and touches only a packet that is not good: then an earlier-than-dts pts is replaced by the median
      together with the dts, and a dts that is too early is lifted just as far as needed. */
  lemma FixupRepairs(cfg: Config, last: int, pkt: Packet)
    requires InRange(last) && InRange(pkt.pts) && InRange(pkt.dts)
    requires !cfg.noTimestamps && !cfg.exitOnError && !(cfg.mediaType.Video? && cfg.vsyncDrop)
    ensures var r := Fixup(cfg, last, pkt);
      && r.Fixed? && r.last == r.pkt.dts && Good(cfg, last, r.pkt)
      && InRange(r.pkt.pts) && InRange(r.pkt.dts)
      && (r.pkt.dts == NOPTS <==> pkt.dts == NOPTS) && (r.pkt.pts == NOPTS <==> pkt.pts == NOPTS)
      && (Good(cfg, last, pkt) <==> r.pkt == pkt)
      && (pkt.dts != NOPTS && pkt.pts != NOPTS && pkt.dts > pkt.pts ==>
            forall m :: IsMedian(m, pkt.pts, pkt.dts, last + 1) ==>
              && r.pkt.dts == (if Monotonic(cfg) && last != NOPTS then Max(m, Floor(cfg, last)) else m)
              && r.pkt.pts == r.pkt.dts)
      && (last == NOPTS && pkt.dts != NOPTS && pkt.pts != NOPTS && pkt.dts > pkt.pts ==>
          r.pkt == Packet(pkt.pts, pkt.pts))
      && (TooEarly(cfg, last, pkt.dts) && (pkt.pts == NOPTS || pkt.pts >= pkt.dts) ==>
            && r.pkt.dts == Floor(cfg, last)
            && r.pkt.pts == (if pkt.pts == NOPTS then NOPTS
                             else if pkt.pts < Floor(cfg, last) then Floor(cfg, last) else pkt.pts))
  {
    GuessIsMedian(pkt.pts, pkt.dts, last + 1);
  }

  // ----- a whole run -----

  function Run(cfg: Config, last: int, pkts: seq<Packet>): (out: seq<Packet>)
    requires !cfg.exitOnError
    ensures |out| == |pkts|
    decreases |pkts|
  {
    if pkts == [] then []
    else var r := Fixup(cfg, last, pkts[0]); [r.pkt] + Run(cfg, r.last, pkts[1..])
  }

  /** The last dts the repair of packet i sees. */
  function LastAt(last: int, out: seq<Packet>, i: nat): int
    requires i <= |out|
  {
    if i == 0 then last else out[i - 1].dts
  }

  /** Every packet of a run comes out good, measured against the packet muxed before it: adjacent packets
      with a dts have strictly increasing ones (non-decreasing where the format allows), and dts <= pts. */
  lemma {:induction false} RunIsGood(cfg: Config, last: int, pkts: seq<Packet>, i: nat)
    requires InRange(last) && (forall p <- pkts :: InRange(p.pts) && InRange(p.dts))
    requires !cfg.noTimestamps && !cfg.exitOnError && !(cfg.mediaType.Video? && cfg.vsyncDrop)
    requires i < |pkts|
    ensures var out := Run(cfg, last, pkts); Good(cfg, LastAt(last, out, i), out[i])
    ensures var out := Run(cfg, last, pkts); InRange(out[i].pts) && InRange(out[i].dts)
    decreases |pkts|
  {
    FixupRepairs(cfg, last, pkts[0]);
    if i == 0 {
    } else {
      RunIsGood(cfg, Fixup(cfg, last, pkts[0]).last, pkts[1..], i - 1);
    }
  }

  /** Packet i of a run is repaired against the dts of the packet before it, or the lack of one. */
  lemma {:induction false} RunAt(cfg: Config, last: int, pkts: seq<Packet>, i: nat)
    requires !cfg.exitOnError && i < |pkts|
    ensures var out := Run(cfg, last, pkts); Fixup(cfg, LastAt(last, out, i), pkts[i]) == Fixed(out[i], out[i].dts)
    decreases i
  {
    if i == 0 {
    } else {
      var r := Fixup(cfg, last, pkts[0]);
      RunAt(cfg, r.last, pkts[1..], i - 1);
      assert Run(cfg, last, pkts)[1..] == Run(cfg, r.last, pkts[1..]);
    }
  }

  ghost predicate AllInRange(pkts: seq<Packet>) {
    forall p <- pkts :: InRange(p.pts) && InRange(p.dts)
  }

  /** A packet lacks a dts in the output exactly if it lacks one in the input. */
  lemma {:induction false} RunKeepsDts(cfg: Config, last: int, pkts: seq<Packet>, i: nat)
    requires !cfg.exitOnError && InRange(last) && AllInRange(pkts) && i < |pkts|
    ensures var out := Run(cfg, last, pkts);
      InRange(out[i].dts) && (out[i].dts == NOPTS <==> Incoming(cfg, pkts[i]).dts == NOPTS)
  {
    RunAt(cfg, last, pkts, i);
    if i > 0 { RunKeepsDts(cfg, last, pkts, i - 1); }
    FixupKeepsDts(cfg, LastAt(last, Run(cfg, last, pkts), i), pkts[i]);
    hide Fixup;
  }

  lemma FixupKeepsDts(cfg: Config, last: int, pkt: Packet)
    requires !cfg.exitOnError && InRange(last) && InRange(pkt.pts) && InRange(pkt.dts)
    ensures var dts := Fixup(cfg, last, pkt).pkt.dts;
      InRange(dts) && (dts == NOPTS <==> Incoming(cfg, pkt).dts == NOPTS)
  {
    var p := Incoming(cfg, pkt);
    GuessIsMedian(p.pts, p.dts, last + 1);
  }

  /** Where no packet in between lacks a dts, the order is that of the whole stretch. */
  lemma {:induction false} RunIsMonotonic(cfg: Config, last: int, pkts: seq<Packet>, i: nat, j: nat)
    requires InRange(last) && AllInRange(pkts)
    requires Monotonic(cfg) && !cfg.noTimestamps && !cfg.exitOnError && !(cfg.mediaType.Video? && cfg.vsyncDrop)
    requires i < j < |pkts| && forall k | i <= k <= j :: pkts[k].dts != NOPTS
    ensures var out := Run(cfg, last, pkts); out[i].dts + (if cfg.nonStrict then 0 else j - i) <= out[j].dts
    decreases j
  {
    RunIsGood(cfg, last, pkts, j);
    RunKeepsDts(cfg, last, pkts, j);
    RunKeepsDts(cfg, last, pkts, j - 1);
    if i < j - 1 { RunIsMonotonic(cfg, last, pkts, i, j - 1); }
  }

  // ----- packets without a dts -----

  /** The dts of a packet left to itself: its pts if that is earlier. */
  function OwnDts(cfg: Config, pkt: Packet): int {
    var p := Incoming(cfg, pkt);
    if !cfg.noTimestamps && p.dts != NOPTS && p.pts != NOPTS && p.dts > p.pts then p.pts else p.dts
  }

  /** Right after a packet without a dts the repair goes by the packet alone, whatever was muxed before. */
  lemma MissingDtsForgets(cfg: Config, last: int, pkts: seq<Packet>, i: nat)
    requires !cfg.exitOnError && InRange(last) && AllInRange(pkts)
    requires 0 < i < |pkts| && Incoming(cfg, pkts[i - 1]).dts == NOPTS
    ensures Run(cfg, last, pkts)[i].dts == OwnDts(cfg, pkts[i])
  {
    RunAt(cfg, last, pkts, i);
    RunKeepsDts(cfg, last, pkts, i - 1);
    var p := Incoming(cfg, pkts[i]);
    GuessIsMedian(p.pts, p.dts, NOPTS + 1);
    hide Run;
  }

  /** The latest dts before packet i, over any gap; NOPTS if there is none. */
  function LastSeen(out: seq<Packet>, i: nat): int
    requires i <= |out|
  {
    if i == 0 then NOPTS else if out[i - 1].dts != NOPTS then out[i - 1].dts else LastSeen(out, i - 1)
  }

  ghost predicate AllInOrder(cfg: Config, out: seq<Packet>) {
    forall i, j | 0 <= i < j < |out| && out[i].dts != NOPTS && out[j].dts != NOPTS ::
      Floor(cfg, out[i].dts) <= out[j].dts
  }

  /** Packet i ends a gap, and its own dts is too early for the latest dts before the gap. */
  ghost predicate BadGapEnd(cfg: Config, pkts: seq<Packet>, out: seq<Packet>, i: nat)
    requires 0 < i < |pkts| == |out|
  {
    && pkts[i - 1].dts == NOPTS && pkts[i].dts != NOPTS && LastSeen(out, i) != NOPTS
    && OwnDts(cfg, pkts[i]) < Floor(cfg, LastSeen(out, i))
  }

  lemma {:induction false} LastSeenIsSome(out: seq<Packet>, i: nat) returns (k: nat)
    requires i <= |out| && LastSeen(out, i) != NOPTS
    ensures k < i && out[k].dts == LastSeen(out, i)
  {
    k := i - 1;
    if out[i - 1].dts == NOPTS { k := LastSeenIsSome(out, i - 1); }
  }

  /** In a run without bad gap ends the latest dts before a packet is the greatest, and the packet comes after it. */
  lemma {:induction false} LastSeenIsGreatest(cfg: Config, pkts: seq<Packet>, i: nat, j: nat)
    requires AllInRange(pkts) && Monotonic(cfg)
    requires !cfg.noTimestamps && !cfg.exitOnError && !(cfg.mediaType.Video? && cfg.vsyncDrop)
    requires var out := Run(cfg, NOPTS, pkts); forall k: nat | 0 < k < |pkts| :: !BadGapEnd(cfg, pkts, out, k)
    requires i < j <= |pkts| && Run(cfg, NOPTS, pkts)[i].dts != NOPTS
    ensures var out := Run(cfg, NOPTS, pkts); out[i].dts <= LastSeen(out, j) && LastSeen(out, j) != NOPTS
    ensures var out := Run(cfg, NOPTS, pkts); j < |pkts| && out[j].dts != NOPTS ==> Floor(cfg, out[i].dts) <= out[j].dts
    decreases j
  {
    var out := Run(cfg, NOPTS, pkts);
    if i < j - 1 { LastSeenIsGreatest(cfg, pkts, i, j - 1); }
    RunKeepsDts(cfg, NOPTS, pkts, i);
    if j < |pkts| && out[j].dts != NOPTS {
      RunKeepsDts(cfg, NOPTS, pkts, j);
      RunKeepsDts(cfg, NOPTS, pkts, j - 1);
      RunIsGood(cfg, NOPTS, pkts, j);
      hide Run;
      if out[j - 1].dts == NOPTS {
        MissingDtsForgets(cfg, NOPTS, pkts, j);
        assert !BadGapEnd(cfg, pkts, out, j);
      }
    }
  }

  /** Exactly when the order survives: the dts of a whole run are in order iff no packet after a gap has
      a dts of its own that is too early for the latest dts before the gap. */
  lemma RunInOrderIff(cfg: Config, pkts: seq<Packet>)
    requires AllInRange(pkts) && Monotonic(cfg)
    requires !cfg.noTimestamps && !cfg.exitOnError && !(cfg.mediaType.Video? && cfg.vsyncDrop)
    ensures var out := Run(cfg, NOPTS, pkts);
      AllInOrder(cfg, out) <==> forall k: nat | 0 < k < |pkts| :: !BadGapEnd(cfg, pkts, out, k)
  {
    var out := Run(cfg, NOPTS, pkts);
    if forall k: nat | 0 < k < |pkts| :: !BadGapEnd(cfg, pkts, out, k) {
      forall i: nat, j: nat | i < j < |out| && out[i].dts != NOPTS && out[j].dts != NOPTS
        ensures Floor(cfg, out[i].dts) <= out[j].dts
      {
        LastSeenIsGreatest(cfg, pkts, i, j);
      }
    } else {
      var k: nat :| 0 < k < |pkts| && BadGapEnd(cfg, pkts, out, k);
      var i := LastSeenIsSome(out, k);
      MissingDtsForgets(cfg, NOPTS, pkts, k);
      RunKeepsDts(cfg, NOPTS, pkts, k);
    }
  }

  /** It happens: the dts falls from 10 to 5. */
  lemma GapExample(cfg: Config)
    requires cfg == Config(Video, false, false, false, false)
    ensures var out := Run(cfg, NOPTS, [Packet(10, 10), Packet(NOPTS, NOPTS), Packet(5, 5)]);
      out[0].dts == 10 && out[1].dts == NOPTS && out[2].dts == 5 && !AllInOrder(cfg, out)
  {
    var pkts := [Packet(10, 10), Packet(NOPTS, NOPTS), Packet(5, 5)];
    RunAt(cfg, NOPTS, pkts, 0);
    MissingDtsForgets(cfg, NOPTS, pkts, 2);
    RunKeepsDts(cfg, NOPTS, pkts, 1);
    hide Run;
  }

  /** Repairing a repaired stream changes nothing. */
  lemma {:induction false} RunIsIdempotent(cfg: Config, last: int, pkts: seq<Packet>)
    requires InRange(last) && (forall p <- pkts :: InRange(p.pts) && InRange(p.dts))
    requires !cfg.noTimestamps && !cfg.exitOnError && !(cfg.mediaType.Video? && cfg.vsyncDrop)
    ensures Run(cfg, last, Run(cfg, last, pkts)) == Run(cfg, last, pkts)
    decreases |pkts|
  {
    if pkts == [] {
    } else {
      var r := Fixup(cfg, last, pkts[0]);
      FixupRepairs(cfg, last, pkts[0]);
      FixupRepairs(cfg, last, r.pkt);
      RunIsIdempotent(cfg, r.last, pkts[1..]);
      assert Run(cfg, last, pkts)[1..] == Run(cfg, r.last, pkts[1..]);
    }
  }
}
