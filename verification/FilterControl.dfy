/** How a filtergraph's control stream is closed (send_to_filter, fftools/ffmpeg_sched.c): each input
    is closed by its own decoder thread, and whoever brings the atomic count to nb_inputs closes the
    control stream as well. */
module FilterControl {
  /** Where the thread closing an input is: not begun; queue told, count not yet incremented;
      it was the last and has the control stream to close; done. */
  datatype Pc = Open | Sent | Last | Done

  datatype State = State(
    pcs: seq<Pc>,
    nbFinishedSend: nat,       // atomic nb_inputs_finished_send
    closed: seq<bool>,         // which streams tq_send_finish was called for, inputs first
    controlCloses: nat)

  datatype Event = SendFinish(i: nat) | FetchAdd(i: nat) | CloseControl(i: nat)

  function Init(n: nat): State {
    State(seq(n, _ => Open), 0, seq(n, _ => false), 0)
  }

  predicate Enabled(s: State, e: Event) {
    && e.i < |s.pcs| == |s.closed|
    && match e
       case SendFinish(i) => true
       case FetchAdd(i) => s.pcs[i].Sent?
       case CloseControl(i) => s.pcs[i].Last?
  }

  function Step(s: State, e: Event): State
    requires Enabled(s, e)
  {
    match e
    case SendFinish(i) =>
      // send_finished makes every call after the first a no-op
      if !s.pcs[i].Open? then s else s.(pcs := s.pcs[i := Sent], closed := s.closed[i := true])
    case FetchAdd(i) =>
      s.(pcs := s.pcs[i := if s.nbFinishedSend == |s.pcs| - 1 then Last else Done],
         nbFinishedSend := s.nbFinishedSend + 1)
    case CloseControl(i) =>
      s.(pcs := s.pcs[i := Done], controlCloses := s.controlCloses + 1)
  }

  function Counted(pcs: seq<Pc>): (n: nat)
    ensures n <= |pcs|
  {
    if pcs == [] then 0 else Counted(pcs[1..]) + if pcs[0].Last? || pcs[0].Done? then 1 else 0
  }

  function Lasts(pcs: seq<Pc>): (n: nat)
    ensures n <= |pcs|
  {
    if pcs == [] then 0 else Lasts(pcs[1..]) + if pcs[0].Last? then 1 else 0
  }

  lemma {:induction false} SetPc(pcs: seq<Pc>, i: nat, pc: Pc)
    requires i < |pcs|
    ensures Counted(pcs[i := pc]) == Counted(pcs) + (if pc.Last? || pc.Done? then 1 else 0)
                                                  - (if pcs[i].Last? || pcs[i].Done? then 1 else 0)
    ensures Lasts(pcs[i := pc]) == Lasts(pcs) + (if pc.Last? then 1 else 0) - (if pcs[i].Last? then 1 else 0)
  {
    if i == 0 {
    } else {
      assert pcs[i := pc][1..] == pcs[1..][i - 1 := pc];
      SetPc(pcs[1..], i - 1, pc);
    }
  }

  lemma {:induction false} AllCounted(pcs: seq<Pc>)
    ensures Counted(pcs) == |pcs| <==> forall i | 0 <= i < |pcs| :: pcs[i].Last? || pcs[i].Done?
  {
    if pcs == [] {
    } else {
      AllCounted(pcs[1..]);
      assert forall i | 1 <= i < |pcs| :: pcs[i] == pcs[1..][i - 1];
    }
  }

  ghost predicate Inv(s: State, n: nat) {
    && |s.pcs| == |s.closed| == n
    && s.nbFinishedSend == Counted(s.pcs)
    && Lasts(s.pcs) + s.controlCloses == (if n > 0 && s.nbFinishedSend == n then 1 else 0)
    && forall i | 0 <= i < n :: s.closed[i] <==> !s.pcs[i].Open?
  }

  lemma StepKeepsInv(s: State, e: Event, n: nat)
    requires Inv(s, n) && Enabled(s, e)
    ensures Inv(Step(s, e), n)
  {
    AllCounted(s.pcs);
    SetPc(s.pcs, e.i, Step(s, e).pcs[e.i]);
    assert s.pcs[e.i := s.pcs[e.i]] == s.pcs;
  }

  function Exec(n: nat, evs: seq<Event>): (r: seq<State>)
    ensures |r| <= 1
  {
    if evs == [] then [Init(n)]
    else
      var before := Exec(n, evs[..|evs| - 1]);
      if before != [] && Enabled(before[0], evs[|evs| - 1]) then [Step(before[0], evs[|evs| - 1])] else []
  }

  lemma {:induction false} NoneCounted(n: nat)
    ensures Counted(Init(n).pcs) == 0 && Lasts(Init(n).pcs) == 0
  {
    if n == 0 {
    } else {
      assert Init(n).pcs[1..] == Init(n - 1).pcs;
      NoneCounted(n - 1);
    }
  }

  lemma {:induction false} ExecInv(n: nat, evs: seq<Event>)
    requires Exec(n, evs) != []
    ensures Inv(Exec(n, evs)[0], n)
  {
    if evs == [] {
      NoneCounted(n);
    } else {
      ExecInv(n, evs[..|evs| - 1]);
      StepKeepsInv(Exec(n, evs[..|evs| - 1])[0], evs[|evs| - 1], n);
    }
  }

  /** In every interleaving of the closing threads: the control stream is closed at most once, and not
      before every input is; the count is that of the inputs counted; and once no thread is under way
      and all inputs are closed, the control stream is closed. */
  lemma ControlClosedByLast(n: nat, evs: seq<Event>)
    requires n > 0 && Exec(n, evs) != []
    ensures var s := Exec(n, evs)[0];
      && |s.pcs| == |s.closed| == n
      && s.controlCloses <= 1
      && (s.controlCloses == 1 ==> forall i | 0 <= i < n :: s.closed[i])
      && s.nbFinishedSend == Counted(s.pcs)
      && ((forall i | 0 <= i < n :: s.pcs[i].Done?) <==> s.controlCloses == 1)
  {
    ExecInv(n, evs);
    var s := Exec(n, evs)[0];
    AllCounted(s.pcs);
    LastsZero(s.pcs);
  }

  /** An input is closed iff its thread has said so, and counted iff its thread has got to that. */
  lemma {:induction false} ClosedIffSaid(n: nat, evs: seq<Event>, i: nat)
    requires Exec(n, evs) != [] && i < n
    ensures var s := Exec(n, evs)[0];
      && |s.pcs| == |s.closed| == n
      && (s.closed[i] <==> SendFinish(i) in evs)
      && (s.pcs[i].Last? || s.pcs[i].Done? <==> FetchAdd(i) in evs)
  {
    ExecInv(n, evs);
    if evs == [] {
    } else {
      var init, e := evs[..|evs| - 1], evs[|evs| - 1];
      ClosedIffSaid(n, init, i);
      ExecInv(n, init);
      assert evs == init + [e] && Exec(n, evs)[0] == Step(Exec(n, init)[0], e);
      hide Exec, Counted, Lasts;
    }
  }

  lemma {:induction false} LastsZero(pcs: seq<Pc>)
    ensures Lasts(pcs) == 0 <==> forall i | 0 <= i < |pcs| :: !pcs[i].Last?
  {
    if pcs == [] {
    } else {
      LastsZero(pcs[1..]);
      assert forall i | 1 <= i < |pcs| :: pcs[i] == pcs[1..][i - 1];
    }
  }

  /** The filtergraph's side of send_to_filter with no frame, one method per step of the closing thread. */
  class FilterInputs {
    var pcs: seq<Pc>
    var nbFinishedSend: nat
    var closed: seq<bool>
    var controlCloses: nat

    ghost function Value(): State
      reads this
    {
      State(pcs, nbFinishedSend, closed, controlCloses)
    }

    ghost predicate Valid()
      reads this
    {
      Inv(Value(), |pcs|)
    }

    constructor (n: nat)
      ensures Valid() && Value() == Init(n)
    {
      pcs := seq(n, _ => Open);
      nbFinishedSend, closed, controlCloses := 0, seq(n, _ => false), 0;
      new;
      NoneCounted(n);
    }

    /** send_finished is set and the queue told, once; says whether there is more to do. */
    method SendFinish(i: nat) returns (first: bool)
      requires Valid() && i < |pcs|
      modifies this`pcs, this`closed
      ensures Valid() && Value() == Step(old(Value()), Event.SendFinish(i))
      ensures first <==> !old(closed)[i]
    {
      StepKeepsInv(Value(), Event.SendFinish(i), |pcs|);
      first := pcs[i].Open?;
      if first {
        pcs := pcs[i := Sent];
        closed := closed[i := true];
      }
    }

    /** The atomic increment; says whether the control stream is left for this thread to close. */
    method FetchAdd(i: nat) returns (last: bool)
      requires Valid() && i < |pcs| && pcs[i].Sent?
      modifies this`pcs, this`nbFinishedSend
      ensures Valid() && Value() == Step(old(Value()), Event.FetchAdd(i))
      ensures last ==> forall k | 0 <= k < |closed| :: closed[k]
    {
      StepKeepsInv(Value(), Event.FetchAdd(i), |pcs|);
      last := nbFinishedSend == |pcs| - 1;
      nbFinishedSend := nbFinishedSend + 1;
      pcs := pcs[i := if last then Last else Done];
      AllCounted(pcs);
    }

    method CloseControl(i: nat)
      requires Valid() && i < |pcs| && pcs[i].Last?
      modifies this`pcs, this`controlCloses
      ensures Valid() && Value() == Step(old(Value()), Event.CloseControl(i))
      ensures controlCloses == 1
    {
      StepKeepsInv(Value(), Event.CloseControl(i), |pcs|);
      LastsZero(pcs);
      pcs := pcs[i := Done];
      controlCloses := controlCloses + 1;
    }
  }
}
