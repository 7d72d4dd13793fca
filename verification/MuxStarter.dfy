/** The muxers as the scheduler holds them, updated in place; one method per step of MuxStart.
    The lock is held exactly while `holder` is not Free. */
module MuxStarters {
  import opened MuxStart

  class MuxStarter {
    const sdp: bool
    var phase: Phase
    var nbMuxReady: nat
    const muxes: array<Mux>
    var holder: Holder

    ghost function Value(): State
      reads this, muxes
    {
      State(sdp, phase, nbMuxReady, muxes[..], holder)
    }

    ghost predicate Valid()
      reads this, muxes
    {
      Inv(Value()) && HolderOk(Value())
    }

    constructor (sdp: bool, sizes: seq<nat>)
      ensures Valid() && Value() == Init(sdp, sizes) && fresh(muxes)
    {
      this.sdp, phase, nbMuxReady, holder := sdp, Before, 0, Free;
      muxes := new Mux[|sizes|](m requires 0 <= m < |sizes| =>
        Mux(0, seq(sizes[m], _ => Stream([], false, false, Idle, [], [])), 0, false, 0, false));
      new;
      assert Value() == Init(sdp, sizes);
      NoHeaders(muxes[..]);
    }

    /** The error path: sch_start gives up, any other caller only reports. */
    method GiveUp()
      modifies this`holder, this`phase
      ensures Value() == Fail(old(Value()))
    {
      holder := Free;
      if phase.Starting? {
        phase := Failed;
      }
    }

    /** The call of mux_task_start for the first muxer of the list, up to its first flush step. */
    method MuxTaskStart(todo: seq<nat>, threadOk: bool)
      requires forall m <- todo :: AtMux(Value(), m)
      // task_start asserts that the thread does not run yet
      requires todo != [] ==> todo[0] < muxes.Length && muxes[todo[0]].threads == 0
      modifies this`holder, this`phase, muxes
      ensures Value() == StartThread(old(Value()), todo, threadOk)
    {
      if todo == [] {
        holder := Free;
        return;
      }
      var m := todo[0];
      if !threadOk {
        GiveUp();
        return;
      }
      muxes[m] := muxes[m].(threads := muxes[m].threads + 1);
      holder := Flushing(todo, 0);
    }

    /** mux_init. */
    method InitMuxer(m: nat, initOk: bool, sdpOk: bool, threadOk: bool)
      requires AwaitsInit(Value(), m)
      modifies this`holder, this`phase, this`nbMuxReady, muxes
      ensures Value() == MuxInit(old(Value()), m, initOk, sdpOk, threadOk)
    {
      HeaderWritten(Value(), m);
      muxes[m] := muxes[m].(inits := muxes[m].inits + 1, header := muxes[m].header || initOk);
      if !initOk {
        GiveUp();
        return;
      }
      nbMuxReady := nbMuxReady + 1;
      assert Value() == WithHeader(old(Value()), m);
      if sdp {
        if nbMuxReady < muxes.Length {
          return;
        }
        if !sdpOk {
          GiveUp();
          return;
        }
        MuxTaskStart(All(muxes.Length), threadOk);
      } else {
        MuxTaskStart([m], threadOk);
      }
    }

    /** sch_mux_stream_ready, under mux_ready_lock. */
    method StreamReady(m: nat, initOk: bool, sdpOk: bool, threadOk: bool)
      requires Valid() && Enabled(Value(), Event.StreamReady(m, initOk, sdpOk, threadOk))
      modifies this`holder, this`phase, this`nbMuxReady, muxes
      ensures Valid() && Value() == Step(old(Value()), Event.StreamReady(m, initOk, sdpOk, threadOk))
    {
      hide Inv, MuxInit, AwaitsInit;
      ghost var s := Value();
      StepKeepsInv(s, Event.StreamReady(m, initOk, sdpOk, threadOk));
      muxes[m] := muxes[m].(nbReady := muxes[m].nbReady + 1);
      if muxes[m].nbReady == |muxes[m].streams| && phase.Running? {
        ReadyAwaitsInit(s, m);
        InitMuxer(m, initOk, sdpOk, threadOk);
      }
      InvHolderOk(Value());
    }

    method StartBegin()
      requires Valid() && phase.Before?
      modifies this`phase
      ensures Valid() && Value() == Step(old(Value()), Event.StartBegin)
    {
      StepKeepsInv(Value(), Event.StartBegin);
      phase := Starting(0);
    }

    /** One iteration of sch_start's loop over the muxers. */
    method StartNext(initOk: bool, sdpOk: bool, threadOk: bool)
      requires Valid() && Enabled(Value(), Event.StartNext(initOk, sdpOk, threadOk))
      modifies this`holder, this`phase, this`nbMuxReady, muxes
      ensures Valid() && Value() == Step(old(Value()), Event.StartNext(initOk, sdpOk, threadOk))
    {
      hide Inv, MuxInit, AwaitsInit;
      ghost var s := Value();
      StepKeepsInv(s, Event.StartNext(initOk, sdpOk, threadOk));
      var m := phase.next;
      if m >= muxes.Length {
        phase := Running;
      } else {
        phase := Starting(m + 1);
        if muxes[m].nbReady == |muxes[m].streams| {
          NextAwaitsInit(s);
          InitMuxer(m, initOk, sdpOk, threadOk);
        }
      }
      InvHolderOk(Value());
    }

    /** One step of the flush in mux_task_start. */
    method FlushStep(threadOk: bool)
      requires Valid() && holder.Flushing?
      modifies this`holder, this`phase, muxes
      ensures Valid() && Value() == Step(old(Value()), Event.FlushStep(threadOk))
    {
      ghost var s := Value();
      StepKeepsInv(s, Event.FlushStep(threadOk));
      var m, i := holder.todo[0], holder.i;
      var mux := muxes[m];
      if i >= |mux.streams| {
        var rest := holder.todo[1..];
        StartableAfter(s, rest, m, mux.(muxStarted := true));
        muxes[m] := mux.(muxStarted := true);
        assert rest != [] ==> rest[0] in rest && muxes[rest[0]].threads == 0;
        MuxTaskStart(rest, threadOk);
      } else if mux.streams[i].preMux == [] {
        holder := Flushing(holder.todo, i + 1);
      } else {
        var st := mux.streams[i];
        var item := st.preMux[0];
        st := st.(preMux := st.preMux[1..]);
        if st.recvFinished {
          st := st.(initEof := st.initEof || item.Packet?);
        } else {
          st := st.(handed := st.handed + [item]);
        }
        muxes[m] := mux.(streams := mux.streams[i := st]);
      }
      InvHolderOk(Value());
    }

    method PutStream(m: nat, j: nat, st: Stream)
      requires At(Value(), m, j)
      modifies muxes
      ensures Value() == SetStream(old(Value()), m, j, st)
    {
      muxes[m] := muxes[m].(streams := muxes[m].streams[j := st]);
    }

    /** send_to_mux: the unlocked look at mux_started. */
    method SendCheck(m: nat, j: nat, item: Item)
      requires Valid() && Enabled(Value(), Event.SendCheck(m, j, item))
      modifies muxes
      ensures Valid() && Value() == Step(old(Value()), Event.SendCheck(m, j, item))
    {
      StepKeepsInv(Value(), Event.SendCheck(m, j, item));
      var st := muxes[m].streams[j];
      PutStream(m, j, st.(sender := if muxes[m].muxStarted then Sending(item) else WantsLock(item)));
      InvHolderOk(Value());
    }

    /** send_to_mux: the second look and mux_queue_packet, under mux_ready_lock. */
    method SendLocked(m: nat, j: nat, roomOk: bool)
      requires Valid() && Enabled(Value(), Event.SendLocked(m, j, roomOk))
      modifies muxes
      ensures Valid() && Value() == Step(old(Value()), Event.SendLocked(m, j, roomOk))
    {
      StepKeepsInv(Value(), Event.SendLocked(m, j, roomOk));
      var st := muxes[m].streams[j];
      var item := st.sender.item;
      if muxes[m].muxStarted {
        st := st.(sender := Sending(item));
      } else {
        st := st.(sender := Idle);
        if roomOk {
          st := st.(preMux := st.preMux + [item], accepted := st.accepted + [item]);
        }
      }
      PutStream(m, j, st);
      InvHolderOk(Value());
    }

    /** send_to_mux: the normal path. */
    method SendDirect(m: nat, j: nat)
      requires Valid() && Enabled(Value(), Event.SendDirect(m, j))
      modifies muxes
      ensures Valid() && Value() == Step(old(Value()), Event.SendDirect(m, j))
    {
      StepKeepsInv(Value(), Event.SendDirect(m, j));
      var st := muxes[m].streams[j];
      var item := st.sender.item;
      st := st.(sender := Idle);
      if item.Packet? && (st.initEof || st.recvFinished) {
        PutStream(m, j, st);
        InvHolderOk(Value());
        return;
      }
      st := st.(accepted := st.accepted + [item]);
      if !st.recvFinished {
        st := st.(handed := st.handed + [item]);
      }
      PutStream(m, j, st);
      InvHolderOk(Value());
    }

    /** tq_receive_finish on the muxer's queue. */
    method ReceiveFinish(m: nat, j: nat)
      requires Valid() && Enabled(Value(), Event.ReceiveFinish(m, j))
      modifies muxes
      ensures Valid() && Value() == Step(old(Value()), Event.ReceiveFinish(m, j))
    {
      StepKeepsInv(Value(), Event.ReceiveFinish(m, j));
      PutStream(m, j, muxes[m].streams[j].(recvFinished := true));
      InvHolderOk(Value());
    }
  }
}
