/** Where frames land in the output, mode by mode, and how often they are repeated at the end
    (video_sync_process and fg_output_frame, fftools/ffmpeg_filter.c). */
module FrameRateLaws {
  import opened Common
  import opened FrameRate

  // ----- one frame, one timestamp: VFR, passthrough and drop -----

  predicate OnePerFrame(cfg: Config) { cfg.vsync.Vfr? || cfg.vsync.Passthrough? || cfg.vsync.Drop? }

  /** What such a step adds to the output. */
  function Added(cfg: Config, s: State, f: Frame): seq<Out> {
    var out := Process(cfg, s, f).out;
    if |s.out| <= |out| then out[|s.out|..] else []
  }

  lemma StepAdds(cfg: Config, s: State, f: Frame)
    ensures Process(cfg, s, f).out == s.out + Added(cfg, s, f)
    ensures |Added(cfg, s, f)| == Emissions(cfg, s, f)
    ensures Added(cfg, s, f) == Emitted(Decide(cfg, s.nextPts, s.frameNumber, f).nextPts, s.framesIn,
                                        Emissions(cfg, s, f), Decide(cfg, s.nextPts, s.frameNumber, f).nbPrev)
  {
    ProcessEmits(cfg, s, f);
    hide Process, Decide, Emissions;
  }

  /** VFR, frame by frame: a frame that would end more than 0.6 before the next output is left out; one that
      starts no earlier and ends more than 0.6 after it lands within half a frame of its own time; any other
      lands on the next output. */
  lemma VfrLands(cfg: Config, s: State, f: Frame)
    requires cfg.vsync.Vfr?
    ensures var delta := f.syncIpts + f.duration - s.nextPts as real;
      if delta <= -0.6 then Added(cfg, s, f) == [] && Process(cfg, s, f).nextPts == s.nextPts
      else exists p: int ::
        && Added(cfg, s, f) == [Out(p, s.framesIn)] && Process(cfg, s, f).nextPts == p + 1
        && (if delta > 0.6 && f.syncIpts >= s.nextPts as real
            then -0.5 <= p as real - f.syncIpts <= 0.5
            else p == s.nextPts)
  {
    StepAdds(cfg, s, f);
    RintOfInt(s.nextPts);
    var d := Decide(cfg, s.nextPts, s.frameNumber, f);
    assert d.nbPrev == 0 && d.nbFrames <= 1;
    if d.nbFrames == 1 {
      assert Added(cfg, s, f) == [Out(d.nextPts, s.framesIn)];
    }
  }

  /** VFR over any run: nothing is output more than 0.6 before its input time, nor 0.6 or more after its end. */
  lemma {:induction false} VfrDrift(cfg: Config, frames: seq<Frame>, i: nat)
    requires cfg.vsync.Vfr? && forall f <- frames :: f.duration >= 0.0
    requires i < |Run(cfg, frames).out|
    ensures Run(cfg, frames).framesIn == |frames|
    ensures var o := Run(cfg, frames).out[i];
      && o.src < |frames|
      && -0.6 <= o.pts as real - frames[o.src].syncIpts < frames[o.src].duration + 0.6
  {
    var init, f := frames[..|frames| - 1], frames[|frames| - 1];
    var s := Run(cfg, init);
    RunCounts(cfg, init);
    RunCounts(cfg, frames);
    StepAdds(cfg, s, f);
    VfrLands(cfg, s, f);
    hide Process, Added, Emissions;
    if i < |s.out| {
      VfrDrift(cfg, init, i);
      assert frames[s.out[i].src] == init[s.out[i].src];
    }
  }

  lemma {:induction false} RunCounts(cfg: Config, frames: seq<Frame>)
    ensures Run(cfg, frames).framesIn == |frames|
  {
    if frames == [] {
    } else {
      RunCounts(cfg, frames[..|frames| - 1]);
      hide Decide, Emitted, Account;
      ProcessCounts(cfg, Run(cfg, frames[..|frames| - 1]), frames[|frames| - 1]);
    }
  }

  lemma ProcessCounts(cfg: Config, s: State, f: Frame)
    ensures Process(cfg, s, f).framesIn == s.framesIn + 1
  {
    hide Decide, Emitted;
  }

  /** Passthrough and drop: every frame once, at its own time rounded. */
  lemma {:induction false} PassedThrough(cfg: Config, frames: seq<Frame>)
    requires cfg.vsync.Passthrough? || cfg.vsync.Drop?
    ensures |Run(cfg, frames).out| == |frames|
    ensures forall i | 0 <= i < |frames| :: Run(cfg, frames).out[i] == Out(Rint(frames[i].syncIpts), i)
  {
    if frames == [] {
    } else {
      var init, f := frames[..|frames| - 1], frames[|frames| - 1];
      PassedThrough(cfg, init);
      RunCounts(cfg, init);
      StepAdds(cfg, Run(cfg, init), f);
      PassedStep(cfg, Run(cfg, init), f);
      hide Process, Added, Emissions, Emitted, Rint;
    }
  }

  lemma PassedStep(cfg: Config, s: State, f: Frame)
    requires cfg.vsync.Passthrough? || cfg.vsync.Drop?
    ensures Added(cfg, s, f) == [Out(Rint(f.syncIpts), s.framesIn)]
  {
    StepAdds(cfg, s, f);
    assert Decide(cfg, s.nextPts, s.frameNumber, f) == Decision(1, 0, Rint(f.syncIpts));
  }

  // ----- constant rate -----

  /** CFR: a frame emitted in its own right first appears where it belongs: on the next output if it starts
      before it, and otherwise no later than it starts, and at most 1.1 earlier unless its duration is negative. */
  lemma CfrOwnCopy(cfg: Config, s: State, f: Frame)
    requires cfg.vsync.Cfr?
    requires var d := Decide(cfg, s.nextPts, s.frameNumber, f); d.nbFrames > d.nbPrev
    ensures var d := Decide(cfg, s.nextPts, s.frameNumber, f);
      && d.nextPts == s.nextPts && d.nbPrev >= 0
      && (f.syncIpts < s.nextPts as real ==> d.nbPrev == 0)
      && (f.syncIpts >= s.nextPts as real ==> (s.nextPts + d.nbPrev) as real <= f.syncIpts)
      && (f.duration >= 0.0 ==> f.syncIpts - (s.nextPts + d.nbPrev) as real <= 1.1)
  {
    var delta0 := f.syncIpts - s.nextPts as real;
    if delta0 > 1.1 { RintMonotone(0.5, delta0 - 0.6); }
  }

  /** The drop threshold: past the first output, a frame that would end less than it after the next output is
      left out; any other is treated as without a threshold. */
  lemma ThresholdDrops(cfg: Config, s: State, f: Frame)
    requires cfg.vsync.Cfr? && cfg.dropThreshold != 0.0
    ensures var d := Decide(cfg, s.nextPts, s.frameNumber, f);
      if s.frameNumber != 0 && f.syncIpts + f.duration - s.nextPts as real < cfg.dropThreshold
      then d == Decision(0, 0, s.nextPts)
      else d == Decide(cfg.(dropThreshold := 0.0), s.nextPts, s.frameNumber, f)
  {
  }

  /** VSCFR: before the first output, a frame that starts half a frame late or more moves the output to its own
      time rounded and lasts as long as it lasts; apart from that VSCFR is CFR. */
  lemma VscfrStart(cfg: Config, s: State, f: Frame)
    requires cfg.vsync.Vscfr?
    ensures var d := Decide(cfg, s.nextPts, s.frameNumber, f);
      if s.frameNumber == 0 && f.syncIpts - s.nextPts as real >= 0.5
      then
        && -0.5 <= d.nextPts as real - f.syncIpts <= 0.5 && d.nbPrev == 0
        && d.nbFrames == if f.duration < -1.1 then 0 else if f.duration > 1.1 then Rint(f.duration) else 1
      else d == Decide(cfg.(vsync := Cfr), s.nextPts, s.frameNumber, f)
  {
  }

  // ----- the duplication cap -----

  /** No step emits more frames than the cap allows, but for the frame itself and one that makes up for a
      dropped one; a step that asks for no more than the cap is granted all of it. */
  lemma CapHolds(cfg: Config, s: State, f: Frame)
    ensures Emissions(cfg, s, f) as real <= cfg.dupLimit || Emissions(cfg, s, f) <= 2
    ensures var nb := Decide(cfg, s.nextPts, s.frameNumber, f).nbFrames;
      nb as real <= cfg.dupLimit ==> Emissions(cfg, s, f) == Clamp(nb)
    ensures HitsCap(cfg, s, f) ==> Emissions(cfg, s, f) == 0
  {
    hide Decide;
  }

  // ----- the flush -----

  /** How many copies of its predecessor frame i asked for; none for frames before the first. */
  function AskedBefore(cfg: Config, frames: seq<Frame>, i: int): int {
    if 0 <= i < |frames|
    then var s := Run(cfg, frames[..i]); Decide(cfg, s.nextPts, s.frameNumber, frames[i]).nbPrev
    else 0
  }

  lemma AskedSame(cfg: Config, frames: seq<Frame>, f: Frame, i: int)
    requires i < |frames|
    ensures AskedBefore(cfg, frames + [f], i) == AskedBefore(cfg, frames, i)
  {
    if i >= 0 { assert (frames + [f])[..i] == frames[..i]; }
    hide Decide, Run;
  }

  /** The history is what the last three frames asked for. */
  lemma {:induction false} HistoryIsLastThree(cfg: Config, frames: seq<Frame>)
    ensures var n := |frames|;
      Run(cfg, frames).hist ==
      (AskedBefore(cfg, frames, n - 1), AskedBefore(cfg, frames, n - 2), AskedBefore(cfg, frames, n - 3))
  {
    if frames == [] {
    } else {
      var n := |frames| - 1;
      var init, f := frames[..n], frames[n];
      assert frames == init + [f];
      HistoryIsLastThree(cfg, init);
      AskedSame(cfg, init, f, n - 1);
      AskedSame(cfg, init, f, n - 2);
      ProcessHistory(cfg, Run(cfg, init), f);
      assert frames[..n] == init;
      assert AskedBefore(cfg, frames, n) == Decide(cfg, Run(cfg, init).nextPts, Run(cfg, init).frameNumber, f).nbPrev;
      assert Run(cfg, frames) == Process(cfg, Run(cfg, init), f);
      hide Process, Decide, Run, AskedBefore;
    }
  }

  lemma ProcessHistory(cfg: Config, s: State, f: Frame)
    ensures Process(cfg, s, f).hist == (Decide(cfg, s.nextPts, s.frameNumber, f).nbPrev, s.hist.0, s.hist.1)
  {
    hide Decide, Emitted;
  }

  /** k copies of one frame at successive timestamps. */
  ghost predicate IsRepeat(outs: seq<Out>, from: int, k: int, src: nat) {
    |outs| == k && forall i | 0 <= i < k :: outs[i] == Out(from + i, src)
  }

  /** At the end of a stream the last frame is repeated as often as the middle one of what the last three frames
      asked for, from the next output on, unless nothing was ever emitted or that exceeds the cap. */
  lemma FlushRepeats(cfg: Config, frames: seq<Frame>, gotFrame: bool) returns (m: nat)
    requires (forall f <- frames :: f.duration >= 0.0) && frames != []
    ensures var n := |frames|;
      IsMedian(m, AskedBefore(cfg, frames, n - 1), AskedBefore(cfg, frames, n - 2), AskedBefore(cfg, frames, n - 3))
    ensures var s := Run(cfg, frames);
      && s.out <= Flush(cfg, s, gotFrame).out
      && IsRepeat(Flush(cfg, s, gotFrame).out[|s.out|..], s.nextPts,
                  if gotFrame && !CapHit(cfg, s, m, m) then m else 0, |frames| - 1)
  {
    HistoryIsLastThree(cfg, frames);
    HistoryIsNatural(cfg, frames);
    RunCounts(cfg, frames);
    var s := Run(cfg, frames);
    hide Run, AskedBefore, Decide, Flush, IsRepeat;
    m := FlushStepRepeats(cfg, s, gotFrame);
  }

  lemma FlushStepRepeats(cfg: Config, s: State, gotFrame: bool) returns (m: nat)
    requires s.framesIn > 0 && s.hist.0 >= 0 && s.hist.1 >= 0 && s.hist.2 >= 0
    ensures IsMedian(m, s.hist.0, s.hist.1, s.hist.2)
    ensures s.out <= Flush(cfg, s, gotFrame).out
    ensures IsRepeat(Flush(cfg, s, gotFrame).out[|s.out|..], s.nextPts,
                     if gotFrame && !CapHit(cfg, s, m, m) then m else 0, s.framesIn - 1)
  {
    m := MidPred(s.hist.0, s.hist.1, s.hist.2);
  }
}
