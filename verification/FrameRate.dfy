/** Frame-rate conversion of a video output (video_sync_process and the video path of
    fg_output_frame, fftools/ffmpeg_filter.c), over ideal reals.  Timestamps and durations
    arrive already converted to the output time base. */
module FrameRate {
  import opened Common

  datatype Vsync = Passthrough | Cfr | Vfr | Vscfr | Drop

  /** frame_drop_threshold (0 is off) and 30 * dts_error_threshold. */
  datatype Config = Config(vsync: Vsync, dropThreshold: real, dupLimit: real)

  datatype Frame = Frame(syncIpts: real, duration: real)

  /** An emitted frame: its timestamp and which input frame it is a copy of. */
  datatype Out = Out(pts: int, src: nat)

  datatype State = State(
    nextPts: int,
    frameNumber: nat,
    lastDropped: bool,
    hist: (int, int, int),
    nbDup: int,
    nbDrop: int,
    framesIn: nat,
    out: seq<Out>)

  const START := State(0, 0, false, (0, 0, 0), 0, 0, 0, [])

  // ----- rounding -----

  /** Nearest integer, ties to even: llrint and llrintf on ideal reals. */
  function Rint(x: real): (n: int)
    ensures n as real - 0.5 <= x <= n as real + 0.5
  {
    var f := x.Floor;
    var d := x - f as real;
    if d < 0.5 then f else if d > 0.5 then f + 1 else if f % 2 == 0 then f else f + 1
  }

  lemma RintMonotone(x: real, y: real)
    requires x <= y
    ensures Rint(x) <= Rint(y)
  {
    if x.Floor < y.Floor {
      assert Rint(x) <= x.Floor + 1 <= y.Floor <= Rint(y);
    } else {
      assert x.Floor == y.Floor;
    }
  }

  lemma RintOfInt(n: int)
    ensures Rint(n as real) == n
  {
  }

  // ----- the decision for one frame -----

  /** How often to emit in all, how often of these the previous frame, and where output goes on. */
  datatype Decision = Decision(nbFrames: int, nbPrev: int, nextPts: int)

  function Decide(cfg: Config, nextPts: int, frameNumber: nat, f: Frame): Decision {
    var delta0 := f.syncIpts - nextPts as real;
    var delta := delta0 + f.duration;
    var clip := delta0 < 0.0 && delta > 0.0 && !cfg.vsync.Passthrough? && !cfg.vsync.Drop?;
    var syncIpts := if clip then nextPts as real else f.syncIpts;
    var duration := if clip then f.duration + delta0 else f.duration;
    var delta0' := if clip then 0.0 else delta0;
    match cfg.vsync
    case Vscfr =>
      if frameNumber == 0 && delta0' >= 0.5
      then Constant(cfg, frameNumber, 0.0, duration, Rint(syncIpts))
      else Constant(cfg, frameNumber, delta0', delta, nextPts)
    case Cfr => Constant(cfg, frameNumber, delta0', delta, nextPts)
    case Vfr =>
      if delta <= -0.6 then Decision(0, 0, nextPts)
      else if delta > 0.6 then Decision(1, 0, Rint(syncIpts))
      else Decision(1, 0, nextPts)
    case Drop => Decision(1, 0, Rint(syncIpts))
    case Passthrough => Decision(1, 0, Rint(syncIpts))
  }

  function Constant(cfg: Config, frameNumber: nat, delta0: real, delta: real, nextPts: int): Decision {
    if cfg.dropThreshold != 0.0 && delta < cfg.dropThreshold && frameNumber != 0 then Decision(0, 0, nextPts)
    else if delta < -1.1 then Decision(0, 0, nextPts)
    else if delta > 1.1 then Decision(Rint(delta), if delta0 > 1.1 then Rint(delta0 - 0.6) else 0, nextPts)
    else Decision(1, 0, nextPts)
  }

  predicate CapHit(cfg: Config, s: State, nb: int, prev: int) {
    nb > Base(s, nb, prev) && nb as real > cfg.dupLimit
  }

  /** Emissions that are no duplicates: a dropped previous frame made up for, and the frame itself. */
  function Base(s: State, nb: int, prev: int): int {
    (if prev != 0 && s.lastDropped then 1 else 0) + if nb > prev then 1 else 0
  }

  /** The counters and history, up to the end of video_sync_process; frame tells a frame from the flush. */
  function Account(cfg: Config, s: State, nb: int, prev: int, frame: bool): (State, int) {
    var s1 := s.(hist := (prev, s.hist.0, s.hist.1),
                 nbDrop := s.nbDrop + if prev == 0 && s.lastDropped then 1 else 0);
    if CapHit(cfg, s, nb, prev) then (s1.(nbDrop := s1.nbDrop + 1), 0)
    else
      (s1.(nbDup := s.nbDup + (if nb > Base(s, nb, prev) then nb - Base(s, nb, prev) else 0),
           lastDropped := nb == prev && frame), nb)
  }

  /** The emission loop: nb frames from nextPts on, the first prev of them copies of the last frame
      if there is one. */
  function Emitted(nextPts: int, framesIn: nat, nb: nat, prev: int): (r: seq<Out>)
    ensures |r| == nb
  {
    seq(nb, i requires 0 <= i < nb => Out(nextPts + i, if i < prev && framesIn > 0 then framesIn - 1 else framesIn))
  }

  function Clamp(nb: int): nat { if nb < 0 then 0 else nb }

  /** The emission of n frames. */
  function Advance(s: State, goOn: int, n: nat, prev: int): State {
    s.(nextPts := goOn + n, frameNumber := s.frameNumber + n, out := s.out + Emitted(goOn, s.framesIn, n, prev))
  }

  function Process(cfg: Config, s: State, f: Frame): State {
    var d := Decide(cfg, s.nextPts, s.frameNumber, f);
    var (s1, nb) := Account(cfg, s, d.nbFrames, d.nbPrev, true);
    var n := Clamp(nb);
    s1.(nextPts := d.nextPts + n, frameNumber := s.frameNumber + n, framesIn := s.framesIn + 1,
        out := s.out + Emitted(d.nextPts, s.framesIn, n, d.nbPrev))
  }

  /** How many frames a step emits. */
  function Emissions(cfg: Config, s: State, f: Frame): nat {
    var d := Decide(cfg, s.nextPts, s.frameNumber, f);
    Clamp(Account(cfg, s, d.nbFrames, d.nbPrev, true).1)
  }

  /** The step that the consumer cuts short by refusing a frame after taking `sent`: the output is closed. */
  function Cut(cfg: Config, s: State, f: Frame, sent: nat): State {
    var d := Decide(cfg, s.nextPts, s.frameNumber, f);
    Advance(Account(cfg, s, d.nbFrames, d.nbPrev, true).0, d.nextPts, sent, d.nbPrev)
  }

  function Run(cfg: Config, frames: seq<Frame>): State {
    if frames == [] then START else Process(cfg, Run(cfg, frames[..|frames| - 1]), frames[|frames| - 1])
  }

  // ----- the code -----

  class OutputFilter {
    const cfg: Config
    var nextPts: int
    var frameNumber: nat
    var lastDropped: bool
    var framesPrevHist: (int, int, int)
    var nbFramesDup: int
    var nbFramesDrop: int
    var framesIn: nat
    var out: seq<Out>

    constructor (cfg: Config)
      ensures this.cfg == cfg && Value() == START
    {
      this.cfg := cfg;
      nextPts, frameNumber, lastDropped, framesPrevHist := 0, 0, false, (0, 0, 0);
      nbFramesDup, nbFramesDrop, framesIn, out := 0, 0, 0, [];
    }

    ghost function Value(): State
      reads this
    {
      State(nextPts, frameNumber, lastDropped, framesPrevHist, nbFramesDup, nbFramesDrop, framesIn, out)
    }

    /** The rate conversion proper: everything video_sync_process does before its accounting. */
    method ConvertRate(f: Frame) returns (nbFrames: int, nbFramesPrev: int)
      modifies this`nextPts
      ensures Decision(nbFrames, nbFramesPrev, nextPts) == Decide(cfg, old(nextPts), frameNumber, f)
    {
      var syncIpts, duration := f.syncIpts, f.duration;
      var delta0 := syncIpts - nextPts as real;
      var delta := delta0 + duration;
      nbFramesPrev := 0;
      nbFrames := 1;
      if delta0 < 0.0 && delta > 0.0 && cfg.vsync != Passthrough && cfg.vsync != Drop {
        syncIpts := nextPts as real;
        duration := duration + delta0;
        delta0 := 0.0;
      }
      hide Rint;
      // the switch falls through from VSCFR to CFR
      if cfg.vsync == Vscfr && frameNumber == 0 && delta0 >= 0.5 {
        delta := duration;
        delta0 := 0.0;
        nextPts := Rint(syncIpts);
      }
      if cfg.vsync == Vscfr || cfg.vsync == Cfr {
        if cfg.dropThreshold != 0.0 && delta < cfg.dropThreshold && frameNumber != 0 {
          nbFrames := 0;
        } else if delta < -1.1 {
          nbFrames := 0;
        } else if delta > 1.1 {
          nbFrames := Rint(delta);
          if delta0 > 1.1 {
            nbFramesPrev := Rint(delta0 - 0.6);
          }
        }
      } else if cfg.vsync == Vfr {
        if delta <= -0.6 {
          nbFrames := 0;
        } else if delta > 0.6 {
          nextPts := Rint(syncIpts);
        }
      } else {
        nextPts := Rint(syncIpts);
      }
    }

    /** The accounting at the end of video_sync_process, for a frame or for the flush. */
    method CountFrames(nbFrames: int, nbFramesPrev: int, frame: bool) returns (nb: int)
      modifies this`framesPrevHist, this`nbFramesDrop, this`nbFramesDup, this`lastDropped
      ensures (Value(), nb) == Account(cfg, old(Value()), nbFrames, nbFramesPrev, frame)
    {
      framesPrevHist := (nbFramesPrev, framesPrevHist.0, framesPrevHist.1);
      if nbFramesPrev == 0 && lastDropped {
        nbFramesDrop := nbFramesDrop + 1;
      }
      var base := (if nbFramesPrev != 0 && lastDropped then 1 else 0) + if nbFrames > nbFramesPrev then 1 else 0;
      if nbFrames > base {
        if nbFrames as real > cfg.dupLimit {
          nbFramesDrop := nbFramesDrop + 1;
          return 0;
        }
        nbFramesDup := nbFramesDup + nbFrames - base;
      }
      lastDropped := nbFrames == nbFramesPrev && frame;
      nb := nbFrames;
    }

    /** The emission loop of fg_output_frame, whose consumer takes `willing` frames at most; there is
        nothing to emit in a flush that has no previous frame. */
    method Emit(nbFrames: int, nbFramesPrev: int, frame: bool, willing: nat) returns (ok: bool)
      modifies this`out, this`frameNumber, this`nextPts
      ensures var n := Available(old(Value()), nbFrames, nbFramesPrev, frame);
        && (ok <==> n <= willing)
        && Value() == Advance(old(Value()), old(nextPts), if ok then n else willing, nbFramesPrev)
    {
      ghost var n := Available(Value(), nbFrames, nbFramesPrev, frame);
      ghost var all := Emitted(nextPts, framesIn, n, nbFramesPrev);
      var i := 0;
      while i < nbFrames
        invariant 0 <= i <= n && i <= willing
        invariant nextPts == old(nextPts) + i && frameNumber == old(frameNumber) + i
        invariant out == old(out) + all[..i]
        decreases nbFrames - i
      {
        var fromPrev := i < nbFramesPrev && framesIn > 0;
        if !fromPrev && !frame {
          break;
        }
        assert all[..i] == Emitted(old(nextPts), framesIn, i, nbFramesPrev);
        if i == willing {
          return false;
        }
        var src := if fromPrev then framesIn - 1 else framesIn;
        assert all[..i + 1] == all[..i] + [Out(nextPts, src)];
        out := out + [Out(nextPts, src)];
        frameNumber := frameNumber + 1;
        nextPts := nextPts + 1;
        i := i + 1;
      }
      assert all[..n] == all;
      ok := true;
    }

    /** fg_output_frame with no frame; gotFrame tells whether any output of the filtergraph has emitted one. */
    method FgOutputFlush(gotFrame: bool, willing: nat) returns (ok: bool)
      requires frameNumber > 0 ==> gotFrame
      modifies this
      ensures var (s1, n, nb) := FlushCount(cfg, old(Value()), gotFrame);
        && (ok <==> n <= willing)
        && Value() == if ok then Flush(cfg, old(Value()), gotFrame) else Advance(s1, old(nextPts), willing, nb)
    {
      hide Emitted;
      var n, nb := 0, 0;
      if gotFrame {
        nb := MidPred(framesPrevHist.0, framesPrevHist.1, framesPrevHist.2);
        if nb == 0 && lastDropped {
          nbFramesDrop := nbFramesDrop + 1;
        }
        n := CountFrames(nb, nb, false);
      }
      ok := Emit(n, nb, false, willing);
    }

    method FgOutputFrame(f: Frame, willing: nat) returns (ok: bool)
      modifies this
      ensures ok <==> Emissions(cfg, old(Value()), f) <= willing
      ensures Value() == if ok then Process(cfg, old(Value()), f) else Cut(cfg, old(Value()), f, willing)
    {
      hide Decide, Emitted;
      var nbFrames, nbFramesPrev := ConvertRate(f);
      var nb := CountFrames(nbFrames, nbFramesPrev, true);
      ok := Emit(nb, nbFramesPrev, true, willing);
      if ok {
        framesIn := framesIn + 1;
      }
    }
  }

  /** How many frames the emission loop has something to emit for. */
  function Available(s: State, nb: int, prev: int, frame: bool): nat {
    if frame then Clamp(nb) else if s.framesIn > 0 then Clamp(if prev < nb then prev else nb) else 0
  }

  // ----- conservation -----

  lemma DecisionInRange(cfg: Config, nextPts: int, frameNumber: nat, f: Frame)
    requires f.duration >= 0.0
    ensures var d := Decide(cfg, nextPts, frameNumber, f); 0 <= d.nbPrev <= d.nbFrames
  {
    var delta0 := f.syncIpts - nextPts as real;
    if delta0 > 1.1 {
      RintMonotone(0.5, delta0 - 0.6);
      RintMonotone(delta0 - 0.6, delta0 + f.duration);
    }
  }

  /** frames in + duplicated - frames out - dropped - a drop still pending; what should stay 0. */
  function Balance(s: State): int {
    s.framesIn + s.nbDup - |s.out| - s.nbDrop - if s.lastDropped then 1 else 0
  }

  /** The one step that miscounts: the duplication cap throws a frame away right after a dropped
      frame that is not made up for, and both code paths count that one frame. */
  predicate CountsTwice(cfg: Config, s: State, f: Frame) {
    var d := Decide(cfg, s.nextPts, s.frameNumber, f);
    CapHit(cfg, s, d.nbFrames, d.nbPrev) && d.nbPrev == 0 && s.lastDropped
  }

  lemma StepBalance(cfg: Config, s: State, f: Frame)
    requires f.duration >= 0.0
    ensures Balance(Process(cfg, s, f)) == Balance(s) - if CountsTwice(cfg, s, f) then 1 else 0
  {
    DecisionInRange(cfg, s.nextPts, s.frameNumber, f);
    hide Decide;
  }

  function Miscounts(cfg: Config, frames: seq<Frame>): nat {
    if frames == [] then 0
    else
      var init := frames[..|frames| - 1];
      Miscounts(cfg, init) + if CountsTwice(cfg, Run(cfg, init), frames[|frames| - 1]) then 1 else 0
  }

  /** After any run, every frame is accounted for, but for the miscounted ones: so
      in + dup == out + drop + (1 if a drop is pending) exactly when no step counted twice. */
  lemma {:induction false} FramesConserved(cfg: Config, frames: seq<Frame>)
    requires forall f <- frames :: f.duration >= 0.0
    ensures Balance(Run(cfg, frames)) + Miscounts(cfg, frames) == 0
    ensures Run(cfg, frames).framesIn == |frames|
  {
    if frames == [] {
    } else {
      var init := frames[..|frames| - 1];
      FramesConserved(cfg, init);
      StepBalance(cfg, Run(cfg, init), frames[|frames| - 1]);
    }
  }

  // ----- drift -----

  predicate HitsCap(cfg: Config, s: State, f: Frame) {
    var d := Decide(cfg, s.nextPts, s.frameNumber, f);
    CapHit(cfg, s, d.nbFrames, d.nbPrev)
  }

  ghost predicate NeverCapped(cfg: Config, frames: seq<Frame>) {
    forall n | 0 <= n < |frames| :: !HitsCap(cfg, Run(cfg, frames[..n]), frames[n])
  }

  lemma NeverCappedInit(cfg: Config, frames: seq<Frame>)
    requires NeverCapped(cfg, frames) && frames != []
    ensures NeverCapped(cfg, frames[..|frames| - 1])
    ensures !HitsCap(cfg, Run(cfg, frames[..|frames| - 1]), frames[|frames| - 1])
  {
    var init := frames[..|frames| - 1];
    forall n | 0 <= n < |init| ensures init[..n] == frames[..n] {}
  }

  lemma CfrStep(cfg: Config, s: State, f: Frame)
    requires cfg.vsync.Cfr? && cfg.dropThreshold == 0.0 && !HitsCap(cfg, s, f)
    requires f.syncIpts + f.duration - s.nextPts as real >= -2.1
    ensures -2.1 <= f.syncIpts + f.duration - Process(cfg, s, f).nextPts as real <= 0.5
  {
    var delta := f.syncIpts - s.nextPts as real + f.duration;
    assert Decide(cfg, s.nextPts, s.frameNumber, f).nbFrames ==
           if delta < -1.1 then 0 else if delta > 1.1 then Rint(delta) else 1;
  }

  /** Plain CFR: if end times never go back and start no earlier than 2.1 frames before the output,
      the output never runs more than 2.1 frames ahead of the input nor more than half a frame behind. */
  lemma {:induction false} CfrDrift(cfg: Config, frames: seq<Frame>)
    requires cfg.vsync.Cfr? && cfg.dropThreshold == 0.0 && frames != [] && NeverCapped(cfg, frames)
    requires frames[0].syncIpts + frames[0].duration >= -2.1
    requires forall i, j | 0 <= i < j < |frames| ::
      frames[i].syncIpts + frames[i].duration <= frames[j].syncIpts + frames[j].duration
    ensures var last := frames[|frames| - 1];
      -2.1 <= last.syncIpts + last.duration - Run(cfg, frames).nextPts as real <= 0.5
  {
    var init := frames[..|frames| - 1];
    NeverCappedInit(cfg, frames);
    if init != [] { CfrDrift(cfg, init); }
    CfrStep(cfg, Run(cfg, init), frames[|frames| - 1]);
    hide Process;
  }

  // ----- order -----

  ghost predicate Increasing(out: seq<Out>, nextPts: int) {
    && (forall i, j | 0 <= i < j < |out| :: out[i].pts < out[j].pts)
    && (forall i | 0 <= i < |out| :: out[i].pts < nextPts)
  }

  lemma NextPtsNeverBack(cfg: Config, s: State, f: Frame)
    requires cfg.vsync.Cfr? || cfg.vsync.Vfr? || (cfg.vsync.Vscfr? && s.frameNumber > 0)
    ensures Decide(cfg, s.nextPts, s.frameNumber, f).nextPts >= s.nextPts
    ensures !cfg.vsync.Vfr? ==> Decide(cfg, s.nextPts, s.frameNumber, f).nextPts == s.nextPts
  {
    RintOfInt(s.nextPts);
    if f.syncIpts >= s.nextPts as real { RintMonotone(s.nextPts as real, f.syncIpts); }
  }

  ghost predicate Consecutive(out: seq<Out>, nextPts: int) {
    forall i | 0 <= i < |out| :: out[i].pts == nextPts - |out| + i
  }

  lemma EmittedOrder(out: seq<Out>, nextPts: int, goOn: int, framesIn: nat, n: nat, prev: int)
    requires Increasing(out, nextPts) && nextPts <= goOn
    ensures Increasing(out + Emitted(goOn, framesIn, n, prev), goOn + n)
    ensures Consecutive(out, goOn) ==> Consecutive(out + Emitted(goOn, framesIn, n, prev), goOn + n)
  {
  }

  ghost predicate Ordered(cfg: Config, s: State) {
    && Increasing(s.out, s.nextPts) && s.frameNumber == |s.out|
    && (!cfg.vsync.Vfr? ==> Consecutive(s.out, s.nextPts))
  }

  lemma ProcessEmits(cfg: Config, s: State, f: Frame)
    ensures var d, n, s' := Decide(cfg, s.nextPts, s.frameNumber, f), Emissions(cfg, s, f), Process(cfg, s, f);
      && s'.out == s.out + Emitted(d.nextPts, s.framesIn, n, d.nbPrev)
      && s'.nextPts == d.nextPts + n && s'.frameNumber == s.frameNumber + n
  {
    hide Decide, Emitted;
  }

  lemma ProcessOrdered(cfg: Config, s: State, f: Frame)
    requires cfg.vsync.Cfr? || cfg.vsync.Vscfr? || cfg.vsync.Vfr?
    requires Ordered(cfg, s)
    ensures Ordered(cfg, Process(cfg, s, f))
  {
    hide Decide, Process, Emissions, Emitted;
    var d, n := Decide(cfg, s.nextPts, s.frameNumber, f), Emissions(cfg, s, f);
    if s.out != [] { NextPtsNeverBack(cfg, s, f); }
    ProcessEmits(cfg, s, f);
    EmittedOrder(s.out, if s.out == [] then d.nextPts else s.nextPts, d.nextPts, s.framesIn, n, d.nbPrev);
  }

  /** CFR, VSCFR and VFR: output timestamps strictly increase for any input timestamps and durations
      whatever; in CFR and VSCFR they are consecutive. */
  lemma {:induction false} OutputIncreases(cfg: Config, frames: seq<Frame>)
    requires cfg.vsync.Cfr? || cfg.vsync.Vscfr? || cfg.vsync.Vfr?
    ensures Ordered(cfg, Run(cfg, frames))
  {
    if frames == [] {
    } else {
      OutputIncreases(cfg, frames[..|frames| - 1]);
      ProcessOrdered(cfg, Run(cfg, frames[..|frames| - 1]), frames[|frames| - 1]);
      hide Process, Ordered;
    }
  }

  /** A consumer that stops taking frames in the middle of a step does not disturb the order. */
  lemma CutKeepsOrder(cfg: Config, frames: seq<Frame>, f: Frame, sent: nat)
    requires cfg.vsync.Cfr? || cfg.vsync.Vscfr? || cfg.vsync.Vfr?
    requires sent <= Emissions(cfg, Run(cfg, frames), f)
    ensures Ordered(cfg, Cut(cfg, Run(cfg, frames), f, sent))
    ensures Cut(cfg, Run(cfg, frames), f, sent).out <= Process(cfg, Run(cfg, frames), f).out
  {
    OutputIncreases(cfg, frames);
    var s := Run(cfg, frames);
    CutOrdered(cfg, s, f, sent);
  }

  lemma CutOrdered(cfg: Config, s: State, f: Frame, sent: nat)
    requires cfg.vsync.Cfr? || cfg.vsync.Vscfr? || cfg.vsync.Vfr?
    requires Ordered(cfg, s) && sent <= Emissions(cfg, s, f)
    ensures Ordered(cfg, Cut(cfg, s, f, sent)) && Cut(cfg, s, f, sent).out <= Process(cfg, s, f).out
  {
    var d := Decide(cfg, s.nextPts, s.frameNumber, f);
    ProcessEmits(cfg, s, f);
    if s.out != [] { NextPtsNeverBack(cfg, s, f); }
    EmittedOrder(s.out, if s.out == [] then d.nextPts else s.nextPts, d.nextPts, s.framesIn, sent, d.nbPrev);
    assert Emitted(d.nextPts, s.framesIn, Emissions(cfg, s, f), d.nbPrev)[..sent]
        == Emitted(d.nextPts, s.framesIn, sent, d.nbPrev);
    hide Decide, Emitted, Increasing, Consecutive;
    CutEmits(cfg, s, f, sent);
    hide Cut, Process, Emissions;
  }

  lemma CutEmits(cfg: Config, s: State, f: Frame, sent: nat)
    ensures var d, s' := Decide(cfg, s.nextPts, s.frameNumber, f), Cut(cfg, s, f, sent);
      && s'.out == s.out + Emitted(d.nextPts, s.framesIn, sent, d.nbPrev)
      && s'.nextPts == d.nextPts + sent && s'.frameNumber == s.frameNumber + sent
  {
    hide Decide, Emitted;
  }

  // ----- what the drop counter counts -----

  function Copies(out: seq<Out>, k: nat): nat {
    if out == [] then 0 else Copies(out[..|out| - 1], k) + if out[|out| - 1].src == k then 1 else 0
  }

  lemma {:induction false} CopiesConcat(a: seq<Out>, b: seq<Out>, k: nat)
    ensures Copies(a + b, k) == Copies(a, k) + Copies(b, k)
  {
    if b == [] {
      assert a + b == a;
    } else {
      assert (a + b)[..|a + b| - 1] == a + b[..|b| - 1];
      CopiesConcat(a, b[..|b| - 1], k);
    }
  }

  lemma {:induction false} CopiesEmitted(nextPts: int, framesIn: nat, n: nat, prev: nat, k: nat)
    ensures Copies(Emitted(nextPts, framesIn, n, prev), k) ==
            if framesIn > 0 && k == framesIn - 1 then (if prev < n then prev else n)
            else if k == framesIn then (if framesIn == 0 then n else if prev < n then n - prev else 0)
            else 0
  {
    if n == 0 {
    } else {
      var e := Emitted(nextPts, framesIn, n, prev);
      assert e[..n - 1] == Emitted(nextPts, framesIn, n - 1, prev);
      CopiesEmitted(nextPts, framesIn, n - 1, prev, k);
    }
  }

  /** How many of the first upTo input frames were never emitted. */
  function Lost(out: seq<Out>, upTo: nat): nat {
    if upTo == 0 then 0 else Lost(out, upTo - 1) + if Copies(out, upTo - 1) == 0 then 1 else 0
  }

  lemma {:induction false} LostSame(a: seq<Out>, b: seq<Out>, upTo: nat)
    requires forall k | 0 <= k < upTo :: Copies(a, k) == Copies(b, k)
    ensures Lost(a, upTo) == Lost(b, upTo)
  {
    if upTo == 0 {
    } else {
      LostSame(a, b, upTo - 1);
    }
  }

  lemma ProcessCopies(cfg: Config, s: State, f: Frame, k: nat)
    requires f.duration >= 0.0 && !HitsCap(cfg, s, f)
    ensures var d := Decide(cfg, s.nextPts, s.frameNumber, f);
      && 0 <= d.nbPrev <= d.nbFrames
      && Copies(Process(cfg, s, f).out, k) == Copies(s.out, k) +
           (if s.framesIn == 0 then (if k == 0 then d.nbFrames else 0)
            else if k == s.framesIn - 1 then d.nbPrev else if k == s.framesIn then d.nbFrames - d.nbPrev else 0)
      && Process(cfg, s, f).lastDropped == (d.nbFrames == d.nbPrev)
      && Process(cfg, s, f).nbDrop == s.nbDrop + (if d.nbPrev == 0 && s.lastDropped then 1 else 0)
  {
    DecisionInRange(cfg, s.nextPts, s.frameNumber, f);
    hide Decide;
    var d := Decide(cfg, s.nextPts, s.frameNumber, f);
    var e := Emitted(d.nextPts, s.framesIn, d.nbFrames, d.nbPrev);
    CopiesEmitted(d.nextPts, s.framesIn, d.nbFrames, d.nbPrev, k);
    CopiesConcat(s.out, e, k);
    hide Emitted;
  }

  /** The first frame has no predecessor to repeat, so it is emitted in its place too; when that is all
      of its emissions it still passes for dropped, and is counted unless the next frame repeats it. */
  predicate FirstMiscounted(cfg: Config, frames: seq<Frame>) {
    && |frames| >= 2
    && var d0 := Decide(cfg, 0, 0, frames[0]);
       var s1 := Run(cfg, frames[..1]);
       d0.nbFrames == d0.nbPrev > 0 && Decide(cfg, s1.nextPts, s1.frameNumber, frames[1]).nbPrev == 0
  }

  ghost predicate DropInv(cfg: Config, frames: seq<Frame>, s: State)
    requires frames != []
  {
    var m := |frames|;
    && s.framesIn == m
    && (forall k | m <= k :: Copies(s.out, k) == 0)
    && s.nbDrop == Lost(s.out, m - 1) + (if FirstMiscounted(cfg, frames) then 1 else 0)
    && (m == 1 ==> var d := Decide(cfg, 0, 0, frames[0]);
                   Copies(s.out, 0) == d.nbFrames && (s.lastDropped <==> d.nbFrames == d.nbPrev))
    && (m > 1 ==> (s.lastDropped <==> Copies(s.out, m - 1) == 0))
  }

  lemma FirstDropInv(cfg: Config, f: Frame)
    requires f.duration >= 0.0 && !HitsCap(cfg, START, f)
    ensures DropInv(cfg, [f], Process(cfg, START, f))
  {
    forall k: nat ensures Copies(Process(cfg, START, f).out, k) == if k == 0 then Decide(cfg, 0, 0, f).nbFrames else 0 {
      ProcessCopies(cfg, START, f, k);
    }
    ProcessCopies(cfg, START, f, 0);
    hide Decide;
  }

  lemma FirstMiscountedEarly(cfg: Config, frames: seq<Frame>, f: Frame)
    requires |frames| >= 2
    ensures FirstMiscounted(cfg, frames + [f]) == FirstMiscounted(cfg, frames)
  {
    hide Decide, Run;
    assert (frames + [f])[..1] == frames[..1];
  }

  lemma FirstMiscountedNow(cfg: Config, f0: Frame, f1: Frame)
    ensures var d0, s1 := Decide(cfg, 0, 0, f0), Run(cfg, [f0]);
      FirstMiscounted(cfg, [f0, f1]) <==>
        d0.nbFrames == d0.nbPrev > 0 && Decide(cfg, s1.nextPts, s1.frameNumber, f1).nbPrev == 0
  {
    hide Decide, Run;
    assert [f0, f1][..1] == [f0];
  }

  /** The step as the invariant sees it. */
  lemma CountStep(cfg: Config, s: State, f: Frame) returns (d: Decision)
    requires f.duration >= 0.0 && !HitsCap(cfg, s, f) && s.framesIn > 0
    ensures d == Decide(cfg, s.nextPts, s.frameNumber, f) && 0 <= d.nbPrev <= d.nbFrames
    ensures var m, s' := s.framesIn, Process(cfg, s, f);
      && s'.framesIn == m + 1
      && (forall k: nat :: Copies(s'.out, k) == Copies(s.out, k) +
            if k == m - 1 then d.nbPrev else if k == m then d.nbFrames - d.nbPrev else 0)
      && s'.lastDropped == (d.nbFrames == d.nbPrev)
      && s'.nbDrop == s.nbDrop + (if d.nbPrev == 0 && s.lastDropped then 1 else 0)
      && Lost(s'.out, m - 1) == Lost(s.out, m - 1)
  {
    var m, s' := s.framesIn, Process(cfg, s, f);
    d := Decide(cfg, s.nextPts, s.frameNumber, f);
    assert s'.framesIn == m + 1 by { hide Decide; }
    hide Decide, Process;
    ProcessCopies(cfg, s, f, m);
    forall k: nat
      ensures Copies(s'.out, k) ==
              Copies(s.out, k) + if k == m - 1 then d.nbPrev else if k == m then d.nbFrames - d.nbPrev else 0
    {
      ProcessCopies(cfg, s, f, k);
    }
    LostSame(s.out, s'.out, m - 1);
  }

  lemma NextDropInv(cfg: Config, frames: seq<Frame>, f: Frame)
    requires frames != [] && f.duration >= 0.0 && !HitsCap(cfg, Run(cfg, frames), f)
    requires forall g <- frames :: g.duration >= 0.0
    requires DropInv(cfg, frames, Run(cfg, frames))
    ensures DropInv(cfg, frames + [f], Process(cfg, Run(cfg, frames), f))
  {
    hide Decide, Process, Run, FirstMiscounted;
    var s := Run(cfg, frames);
    var d := CountStep(cfg, s, f);
    if |frames| == 1 {
      assert frames == [frames[0]] && frames + [f] == [frames[0], f];
      DecisionInRange(cfg, 0, 0, frames[0]);
      FirstMiscountedNow(cfg, frames[0], f);
      assert !FirstMiscounted(cfg, frames) by { OneFrameIsFine(cfg, frames); }
    } else {
      FirstMiscountedEarly(cfg, frames, f);
    }
  }

  lemma OneFrameIsFine(cfg: Config, frames: seq<Frame>)
    requires |frames| < 2
    ensures !FirstMiscounted(cfg, frames)
  {
  }

  /** Without the cap, the drop counter is the number of input frames, up to the last but one, that were
      never emitted, plus one exactly in the case of FirstMiscounted. */
  lemma {:induction false} DropsAreLostFrames(cfg: Config, frames: seq<Frame>)
    requires frames != [] && NeverCapped(cfg, frames) && forall f <- frames :: f.duration >= 0.0
    ensures DropInv(cfg, frames, Run(cfg, frames))
    ensures Run(cfg, frames).nbDrop ==
            Lost(Run(cfg, frames).out, |frames| - 1) + if FirstMiscounted(cfg, frames) then 1 else 0
  {
    hide Decide, Process, FirstMiscounted, HitsCap, NeverCapped;
    var init, f := frames[..|frames| - 1], frames[|frames| - 1];
    assert frames == init + [f];
    NeverCappedInit(cfg, frames);
    if init == [] {
      FirstDropInv(cfg, f);
    } else {
      DropsAreLostFrames(cfg, init);
      NextDropInv(cfg, init, f);
    }
  }

  /** It happens: the first frame is emitted twice and then counted as dropped. */
  lemma FirstFrameExample()
    ensures var cfg, frames := Config(Cfr, 0.0, 3240000.0), [Frame(2.2, 0.0), Frame(2.0, 1.0)];
      && FirstMiscounted(cfg, frames)
      && Copies(Run(cfg, frames).out, 0) == 2 && Run(cfg, frames).nbDrop == 1
  {
    var cfg, f0, f1 := Config(Cfr, 0.0, 3240000.0), Frame(2.2, 0.0), Frame(2.0, 1.0);
    assert Decide(cfg, 0, 0, f0) == Decision(2, 2, 0);
    assert Decide(cfg, 2, 2, f1) == Decision(1, 0, 2);
    hide Decide;
    var s1 := Process(cfg, START, f0);
    RunTwo(cfg, f0, f1);
    FirstMiscountedNow(cfg, f0, f1);
    ProcessCopies(cfg, START, f0, 0);
    ProcessCopies(cfg, s1, f1, 0);
    hide Run, FirstMiscounted, Copies, Emitted;
  }

  lemma RunTwo(cfg: Config, f0: Frame, f1: Frame)
    ensures Run(cfg, [f0]) == Process(cfg, START, f0)
    ensures Run(cfg, [f0, f1]) == Process(cfg, Process(cfg, START, f0), f1)
  {
    hide Process;
    assert [f0, f1][..1] == [f0] && [f0][..0] == [];
  }

  // ----- the flush -----

  /** mid_pred. */
  function MidPred(a: int, b: int, c: int): (m: int)
    ensures IsMedian(m, a, b, c)
  {
    if a > b then (if c > b then (if c > a then a else c) else b)
    else if b > c then (if c > a then c else a) else b
  }

  /** The accounting of the flush: the state after it, how many frames it emits, and how many it asked for.
      Nothing is counted unless some output of the filtergraph has emitted a frame. */
  function FlushCount(cfg: Config, s: State, gotFrame: bool): (State, nat, int) {
    if !gotFrame then (s, 0, 0)
    else
      var nb := MidPred(s.hist.0, s.hist.1, s.hist.2);
      var s0 := if nb == 0 && s.lastDropped then s.(nbDrop := s.nbDrop + 1) else s;
      var (s1, n) := Account(cfg, s0, nb, nb, false);
      (s1, Available(s1, n, nb, false), nb)
  }

  /** fg_output_frame at the end of the stream. */
  function Flush(cfg: Config, s: State, gotFrame: bool): State {
    var (s1, n, nb) := FlushCount(cfg, s, gotFrame);
    Advance(s1, s.nextPts, n, nb)
  }

  /** The flush counts the last frame as dropped twice: it repeats nothing although that frame was not
      emitted, or its repetitions exceed the cap. */
  predicate FlushCountsTwice(cfg: Config, s: State) {
    var nb := MidPred(s.hist.0, s.hist.1, s.hist.2);
    (nb == 0 && s.lastDropped) || CapHit(cfg, s, nb, nb)
  }

  lemma FlushStep(cfg: Config, s: State, gotFrame: bool)
    requires s.hist.0 >= 0 && s.hist.1 >= 0 && s.hist.2 >= 0
    requires s.framesIn == 0 ==> s == START
    ensures Balance(Flush(cfg, s, gotFrame)) == Balance(s) - if gotFrame && FlushCountsTwice(cfg, s) then 1 else 0
  {
  }

  lemma {:induction false} HistoryIsNatural(cfg: Config, frames: seq<Frame>)
    requires forall f <- frames :: f.duration >= 0.0
    ensures var h := Run(cfg, frames).hist; h.0 >= 0 && h.1 >= 0 && h.2 >= 0
  {
    if frames == [] {
    } else {
      var init, f := frames[..|frames| - 1], frames[|frames| - 1];
      HistoryIsNatural(cfg, init);
      DecisionInRange(cfg, Run(cfg, init).nextPts, Run(cfg, init).frameNumber, f);
      hide Decide, Emitted;
    }
  }

  /** Conservation over a whole stream, flush included: everything is accounted for exactly if no step
      counted a frame twice and the flush, where it counts at all, did not either. */
  lemma FlushBalance(cfg: Config, frames: seq<Frame>, gotFrame: bool)
    requires forall f <- frames :: f.duration >= 0.0
    requires Run(cfg, frames).frameNumber > 0 ==> gotFrame
    ensures Balance(Flush(cfg, Run(cfg, frames), gotFrame)) + Miscounts(cfg, frames)
          + (if gotFrame && FlushCountsTwice(cfg, Run(cfg, frames)) then 1 else 0) == 0
  {
    FramesConserved(cfg, frames);
    HistoryIsNatural(cfg, frames);
    FlushStep(cfg, Run(cfg, frames), gotFrame);
    hide Process, Flush, FlushCountsTwice, Balance, Miscounts;
  }

  // ----- it happens -----

  /** In CFR a second frame that ends before the first one does is dropped. */
  lemma DroppedSecond(cfg: Config) returns (s: State)
    requires cfg == Config(Cfr, 0.0, 3240000.0)
    ensures s == Run(cfg, [Frame(0.0, 1.0), Frame(-5.0, 0.0)])
    ensures s == State(1, 1, true, (0, 0, 0), 0, 0, 2, [Out(0, 0)])
    ensures Miscounts(cfg, [Frame(0.0, 1.0), Frame(-5.0, 0.0)]) == 0
  {
    var f0, f1 := Frame(0.0, 1.0), Frame(-5.0, 0.0);
    assert Decide(cfg, 0, 0, f0) == Decision(1, 0, 0);
    assert Decide(cfg, 1, 1, f1) == Decision(0, 0, 1);
    hide Decide;
    RunTwo(cfg, f0, f1);
    s := Process(cfg, Process(cfg, START, f0), f1);
    assert [f0, f1][..1] == [f0] && [f0][..0] == [];
    hide Run;
    assert Miscounts(cfg, []) == 0 && Miscounts(cfg, [f0]) == 0;
  }

  /** A dropped frame, then one that lasts too long: two frames are lost and three counted. */
  lemma CapExample()
    ensures var cfg, frames := Config(Cfr, 0.0, 3240000.0), [Frame(0.0, 1.0), Frame(-5.0, 0.0), Frame(1.0, 4000000.0)];
      Miscounts(cfg, frames) == 1 && Run(cfg, frames).nbDrop == 2 && Run(cfg, frames).lastDropped
  {
    var cfg, f2 := Config(Cfr, 0.0, 3240000.0), Frame(1.0, 4000000.0);
    var s := DroppedSecond(cfg);
    var init := [Frame(0.0, 1.0), Frame(-5.0, 0.0)];
    var frames := init + [f2];
    assert frames == [Frame(0.0, 1.0), Frame(-5.0, 0.0), f2] && frames[..2] == init;
    RintOfInt(4000000);
    assert Decide(cfg, 1, 1, f2) == Decision(4000000, 0, 1);
    hide Decide;
    assert Run(cfg, frames) == Process(cfg, s, f2);
    hide Run;
    assert Miscounts(cfg, frames) == Miscounts(cfg, init) + if CountsTwice(cfg, s, f2) then 1 else 0;
  }

  lemma FlushOfNothing(cfg: Config, s: State)
    requires s.hist == (0, 0, 0) && s.lastDropped
    ensures FlushCountsTwice(cfg, s)
    ensures Flush(cfg, s, true) == s.(nbDrop := s.nbDrop + 2, lastDropped := false)
  {
    assert FlushCount(cfg, s, true) == (s.(nbDrop := s.nbDrop + 2, lastDropped := false), 0, 0);
    assert s.out + Emitted(s.nextPts, s.framesIn, 0, 0) == s.out;
  }

  /** One frame emitted and one dropped, then the end: one frame is lost and two are counted. */
  lemma FlushExample()
    ensures var cfg, frames := Config(Cfr, 0.0, 3240000.0), [Frame(0.0, 1.0), Frame(-5.0, 0.0)];
      && FlushCountsTwice(cfg, Run(cfg, frames)) && Run(cfg, frames).frameNumber > 0
      && Flush(cfg, Run(cfg, frames), true).nbDrop == 2 && Flush(cfg, Run(cfg, frames), true).out == [Out(0, 0)]
  {
    var cfg := Config(Cfr, 0.0, 3240000.0);
    var s := DroppedSecond(cfg);
    FlushOfNothing(cfg, s);
    hide Run, Flush, FlushCountsTwice;
  }

  /** On an output that has emitted nothing, in a filtergraph that has not either, the flush counts nothing. */
  lemma SilentFlushExample()
    ensures var cfg, frames := Config(Cfr, 0.0, 3240000.0), [Frame(-5.0, 0.0)];
      && Run(cfg, frames).lastDropped && Run(cfg, frames).frameNumber == 0
      && Flush(cfg, Run(cfg, frames), false) == Run(cfg, frames)
      && Flush(cfg, Run(cfg, frames), true).nbDrop == 2
  {
    var cfg, f := Config(Cfr, 0.0, 3240000.0), Frame(-5.0, 0.0);
    assert Decide(cfg, 0, 0, f) == Decision(0, 0, 0);
    RunTwo(cfg, f, f);
    hide Decide, Run;
    var s := Process(cfg, START, f);
    assert s == State(0, 0, true, (0, 0, 0), 0, 0, 1, []);
    hide Process;
    FlushOfNothing(cfg, s);
    hide FlushCountsTwice;
    assert s.out + Emitted(0, 1, 0, 0) == s.out;
  }
}
