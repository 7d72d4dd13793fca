/** ffedit's JSON file: packets and decoded frames recorded on export, handed out again on apply
    (fftools/ffedit.c). */
module EditFile {
  import opened Common
  import opened PktPosSort

  /** A frame object: its packet position, and timestamps and feature data once decoded. */
  datatype JFrame<T> = JFrame(pktPos: int, data: Option<T>)

  /** What the export pass sees: packets read, and frames decoded from earlier packets. */
  datatype Event<T> = Packet(stream: nat, pos: int) | Frame(stream: nat, pos: int, data: T)

  /** The last entry with this position, or the length if there is none. */
  function LastMatch<T>(frames: seq<JFrame<T>>, pos: int): (i: nat)
    ensures i <= |frames|
    ensures i < |frames| ==> frames[i].pktPos == pos && forall k | i < k < |frames| :: frames[k].pktPos != pos
    ensures i == |frames| ==> forall k | 0 <= k < |frames| :: frames[k].pktPos != pos
  {
    if frames == [] then 0
    else if frames[|frames| - 1].pktPos == pos then |frames| - 1
    else
      var i := LastMatch(frames[..|frames| - 1], pos);
      if i == |frames| - 1 then |frames| else i
  }

  function Record<T>(frames: seq<JFrame<T>>, s: nat, e: Event<T>): seq<JFrame<T>> {
    if e.stream != s then frames
    else if e.Packet? then frames + [JFrame(e.pos, None)]
    else
      var i := LastMatch(frames, e.pos);
      if i == |frames| then frames else frames[i := frames[i].(data := Some(e.data))]
  }

  function Recorded<T>(evs: seq<Event<T>>, s: nat): seq<JFrame<T>> {
    if evs == [] then [] else Record(Recorded(evs[..|evs| - 1], s), s, evs[|evs| - 1])
  }

  class JsonFile<T(!new)> {
    var jstframes: seq<seq<JFrame<T>>>
    var framesIdx: seq<nat>

    constructor (nbStreams: nat)
      ensures jstframes == seq(nbStreams, _ => []) && framesIdx == seq(nbStreams, _ => 0)
    {
      jstframes := seq(nbStreams, _ => []);
      framesIdx := seq(nbStreams, _ => 0);
    }

    /** The file as an import finds it. */
    constructor Load(streams: seq<seq<JFrame<T>>>)
      ensures jstframes == streams && framesIdx == seq(|streams|, _ => 0)
    {
      jstframes := streams;
      framesIdx := seq(|streams|, _ => 0);
    }

    method AddPacket(pos: int, s: nat)
      requires s < |jstframes|
      modifies this`jstframes
      ensures jstframes == old(jstframes)[s := Record(old(jstframes)[s], s, Packet(s, pos))]
    {
      jstframes := jstframes[s := jstframes[s] + [JFrame(pos, None)]];
    }

    /** match_packet_and_frame_in_ffedit_json_file: searches backwards; the length stands for exit(1). */
    method MatchPacketAndFrame(pos: int, s: nat) returns (idx: nat)
      requires s < |jstframes|
      ensures idx == LastMatch(jstframes[s], pos)
    {
      var jframes := jstframes[s];
      for i := 0 to |jframes|
        invariant forall k | |jframes| - i <= k < |jframes| :: jframes[k].pktPos != pos
      {
        idx := |jframes| - i - 1;
        if jframes[idx].pktPos == pos {
          return;
        }
      }
      idx := |jframes|;
    }

    method AddFrame(pos: int, s: nat, data: T) returns (ok: bool)
      requires s < |jstframes|
      modifies this`jstframes
      ensures ok <==> exists k :: 0 <= k < |old(jstframes)[s]| && old(jstframes)[s][k].pktPos == pos
      ensures jstframes == old(jstframes)[s := Record(old(jstframes)[s], s, Frame(s, pos, data))]
    {
      var idx := MatchPacketAndFrame(pos, s);
      ok := idx < |jstframes[s]|;
      if ok {
        jstframes := jstframes[s := jstframes[s][idx := jstframes[s][idx].(data := Some(data))]];
      } else {
        assert jstframes == jstframes[s := jstframes[s]];
      }
    }

    /** The closing sort, stream by stream. */
    method CloseExport()
      modifies this`jstframes
      ensures |jstframes| == |old(jstframes)|
      ensures forall s | 0 <= s < |jstframes| :: MaySortTo(old(jstframes)[s], jstframes[s], Pos<T>)
    {
      hide MaySortTo;
      for s := 0 to |jstframes|
        invariant |jstframes| == |old(jstframes)|
        invariant forall k | s <= k < |jstframes| :: jstframes[k] == old(jstframes)[k]
        invariant forall k | 0 <= k < s :: MaySortTo(old(jstframes)[k], jstframes[k], Pos<T>)
      {
        var jframes := jstframes[s];
        var a := new JFrame<T>[|jframes|](i requires 0 <= i < |jframes| => jframes[i]);
        assert a[..] == jframes;
        Sort(a, Pos<T>);
        jstframes := jstframes[s := a[..]];
      }
    }

    /** get_from_ffedit_json_file: the next frame object of the stream, whatever its position. */
    method Get(s: nat) returns (frame: JFrame<T>)
      requires s < |jstframes| == |framesIdx| && framesIdx[s] < |jstframes[s]|
      modifies this`framesIdx
      ensures frame == jstframes[s][old(framesIdx)[s]]
      ensures framesIdx == old(framesIdx)[s := old(framesIdx)[s] + 1]
    {
      frame := jstframes[s][framesIdx[s]];
      framesIdx := framesIdx[s := framesIdx[s] + 1];
    }
  }

  function Pos<T>(f: JFrame<T>): int { f.pktPos }

  // ----- what an export records -----

  /** The packet positions of a stream, in the order read. */
  function Positions<T>(evs: seq<Event<T>>, s: nat): seq<int> {
    if evs == [] then []
    else
      var e := evs[|evs| - 1];
      Positions(evs[..|evs| - 1], s) + if e.Packet? && e.stream == s then [e.pos] else []
  }

  /** What was decoded from the packet of a stream at this position; None for a packet the codec skipped. */
  function DataFor<T>(evs: seq<Event<T>>, s: nat, pos: int): Option<T> {
    if evs == [] then None
    else
      var e := evs[|evs| - 1];
      if e.Frame? && e.stream == s && e.pos == pos then Some(e.data) else DataFor(evs[..|evs| - 1], s, pos)
  }

  ghost predicate Increasing(p: seq<int>) {
    forall i, j | 0 <= i < j < |p| :: p[i] < p[j]
  }

  /** Positions increase along the stream; frames come out of packets already read, one at most of each. */
  ghost predicate Legal<T(!new)>(evs: seq<Event<T>>, s: nat) {
    && Increasing(Positions(evs, s))
    && (forall j, k | 0 <= j < k < |evs| && evs[j].Frame? && evs[k].Frame? && evs[j].stream == s == evs[k].stream ::
          evs[j].pos != evs[k].pos)
    && forall k | 0 <= k < |evs| && evs[k].Frame? && evs[k].stream == s :: evs[k].pos in Positions(evs[..k], s)
  }

  function Expected<T>(evs: seq<Event<T>>, s: nat): seq<JFrame<T>> {
    var p := Positions(evs, s);
    seq(|p|, i requires 0 <= i < |p| => JFrame(p[i], DataFor(evs, s, p[i])))
  }

  lemma LegalInit<T(!new)>(evs: seq<Event<T>>, s: nat)
    requires evs != [] && Legal(evs, s)
    ensures Legal(evs[..|evs| - 1], s)
  {
    var init := evs[..|evs| - 1];
    var p, q := Positions(evs, s), Positions(init, s);
    assert forall i | 0 <= i < |q| :: q[i] == p[i];
    assert forall k | 0 <= k < |init| :: init[..k] == evs[..k];
  }

  lemma {:induction false} DataNeedsPacket<T(!new)>(evs: seq<Event<T>>, s: nat, pos: int)
    requires Legal(evs, s) && DataFor(evs, s, pos).Some?
    ensures pos in Positions(evs, s)
  {
    var init, e := evs[..|evs| - 1], evs[|evs| - 1];
    LegalInit(evs, s);
    if !(e.Frame? && e.stream == s && e.pos == pos) { DataNeedsPacket(init, s, pos); }
  }

  lemma NextPacket<T(!new)>(evs: seq<Event<T>>, s: nat)
    requires evs != [] && Legal(evs, s) && evs[|evs| - 1].Packet? && evs[|evs| - 1].stream == s
    ensures Expected(evs, s) == Expected(evs[..|evs| - 1], s) + [JFrame(evs[|evs| - 1].pos, None)]
  {
    var init, pos := evs[..|evs| - 1], evs[|evs| - 1].pos;
    var p := Positions(init, s);
    assert Positions(evs, s) == p + [pos];
    assert forall i | 0 <= i < |p| :: Positions(evs, s)[i] == p[i];
    LegalInit(evs, s);
    if DataFor(init, s, pos).Some? { DataNeedsPacket(init, s, pos); }
  }

  lemma NextFrame<T(!new)>(evs: seq<Event<T>>, s: nat)
    requires evs != [] && Legal(evs, s) && evs[|evs| - 1].Frame? && evs[|evs| - 1].stream == s
    ensures var init, e := evs[..|evs| - 1], evs[|evs| - 1];
      var i := LastMatch(Expected(init, s), e.pos);
      i < |Expected(init, s)| && Expected(evs, s) == Expected(init, s)[i := JFrame(e.pos, Some(e.data))]
  {
    var init, e := evs[..|evs| - 1], evs[|evs| - 1];
    var p := Positions(init, s);
    assert Positions(evs, s) == p;
    var k :| 0 <= k < |p| && p[k] == e.pos;
    assert Expected(init, s)[k].pktPos == e.pos;
  }

  /** An export holds one object per packet, in file order, each with what was decoded from it. */
  lemma {:induction false} ExportIsExpected<T(!new)>(evs: seq<Event<T>>, s: nat)
    requires Legal(evs, s)
    ensures Recorded(evs, s) == Expected(evs, s)
  {
    if evs == [] {
    } else {
      var init, e := evs[..|evs| - 1], evs[|evs| - 1];
      LegalInit(evs, s);
      ExportIsExpected(init, s);
      if e.stream == s {
        if e.Packet? { NextPacket(evs, s); } else { NextFrame(evs, s); }
        hide Expected;
      } else {
        assert Expected(evs, s) == Expected(init, s);
      }
    }
  }

  lemma {:induction false} DataForIff<T(!new)>(evs: seq<Event<T>>, s: nat, pos: int, data: T)
    requires Legal(evs, s)
    ensures DataFor(evs, s, pos) == Some(data) <==> Frame(s, pos, data) in evs
  {
    if evs == [] {
    } else {
      var init, e := evs[..|evs| - 1], evs[|evs| - 1];
      assert evs == init + [e];
      LegalInit(evs, s);
      DataForIff(init, s, pos, data);
      assert forall j | 0 <= j < |init| :: init[j] == evs[j];
    }
  }

  /** The export depends on what was read and decoded, not on when the decoded frames arrived. */
  lemma DecodeOrderIrrelevant<T(!new)>(a: seq<Event<T>>, b: seq<Event<T>>, s: nat)
    requires Legal(a, s) && Legal(b, s) && Positions(a, s) == Positions(b, s)
    requires forall pos, data :: Frame(s, pos, data) in a <==> Frame(s, pos, data) in b
    ensures Recorded(a, s) == Recorded(b, s)
  {
    ExportIsExpected(a, s);
    ExportIsExpected(b, s);
    var p := Positions(a, s);
    forall i | 0 <= i < |p| ensures DataFor(a, s, p[i]) == DataFor(b, s, p[i]) {
      if DataFor(a, s, p[i]).Some? {
        DataForIff(a, s, p[i], DataFor(a, s, p[i]).value);
        DataForIff(b, s, p[i], DataFor(a, s, p[i]).value);
      } else if DataFor(b, s, p[i]).Some? {
        DataForIff(a, s, p[i], DataFor(b, s, p[i]).value);
        DataForIff(b, s, p[i], DataFor(b, s, p[i]).value);
      }
    }
    assert Expected(a, s) == Expected(b, s);
  }

  // ----- the two passes over the packets -----

  /** A packet as read from the file; the null packets at the end carry no data. */
  datatype RawPacket = RawPacket(stream: nat, pos: int, hasData: bool)

  /** A frame as it comes out of a decoder. */
  datatype Decoded<T> = Decoded(pos: int, data: T)

  ghost predicate StreamsOk(raw: seq<RawPacket>, hasDecoder: seq<bool>) {
    forall r <- raw :: r.stream < |hasDecoder|
  }

  /** What either pass makes of a packet: it looks at those with data, of streams with a decoder. */
  function Look<T>(r: RawPacket, hasDecoder: seq<bool>): seq<Event<T>>
    requires r.stream < |hasDecoder|
  {
    if hasDecoder[r.stream] && r.hasData then [Packet(r.stream, r.pos)] else []
  }

  function Gated<T>(raw: seq<RawPacket>, hasDecoder: seq<bool>): seq<Event<T>>
    requires StreamsOk(raw, hasDecoder)
  {
    if raw == [] then []
    else Gated(raw[..|raw| - 1], hasDecoder) + Look(raw[|raw| - 1], hasDecoder)
  }

  function Frames<T>(s: nat, ds: seq<Decoded<T>>): seq<Event<T>> {
    seq(|ds|, i requires 0 <= i < |ds| => Frame(s, ds[i].pos, ds[i].data))
  }

  /** What the decoder of a packet's stream returns once it has been given the packet, null packets included. */
  function Output<T>(r: RawPacket, hasDecoder: seq<bool>, ds: seq<Decoded<T>>): seq<Event<T>>
    requires r.stream < |hasDecoder|
  {
    if hasDecoder[r.stream] then Frames(r.stream, ds) else []
  }

  /** All an export pass sees; decoded[n] is what the decoder returns after packet n. */
  function Events<T>(raw: seq<RawPacket>, hasDecoder: seq<bool>, decoded: seq<seq<Decoded<T>>>): seq<Event<T>>
    requires StreamsOk(raw, hasDecoder) && |decoded| == |raw|
  {
    if raw == [] then []
    else
      var n := |raw| - 1;
      Events(raw[..n], hasDecoder, decoded[..n]) + Look(raw[n], hasDecoder) + Output(raw[n], hasDecoder, decoded[n])
  }

  lemma GatedStep<T>(raw: seq<RawPacket>, hasDecoder: seq<bool>, n: nat)
    requires StreamsOk(raw, hasDecoder) && n < |raw|
    ensures Gated<T>(raw[..n + 1], hasDecoder) == Gated<T>(raw[..n], hasDecoder) + Look<T>(raw[n], hasDecoder)
  {
    assert raw[..n + 1][..n] == raw[..n];
  }

  lemma EventsStep<T>(raw: seq<RawPacket>, hasDecoder: seq<bool>, decoded: seq<seq<Decoded<T>>>, n: nat)
    requires StreamsOk(raw, hasDecoder) && |decoded| == |raw| && n < |raw|
    ensures Events(raw[..n + 1], hasDecoder, decoded[..n + 1]) ==
            Events(raw[..n], hasDecoder, decoded[..n]) + Look(raw[n], hasDecoder)
            + Output(raw[n], hasDecoder, decoded[n])
  {
    assert raw[..n + 1][..n] == raw[..n] && decoded[..n + 1][..n] == decoded[..n];
  }

  /** What an import looks at, spelled out: nothing before the first packet, and each packet adds itself if it
      has data and its stream a decoder, and nothing otherwise. */
  lemma GatedSpelledOut<T>(raw: seq<RawPacket>, hasDecoder: seq<bool>, n: nat)
    requires StreamsOk(raw, hasDecoder) && n < |raw|
    ensures Gated<T>(raw[..0], hasDecoder) == []
    ensures var r, before, after := raw[n], Gated<T>(raw[..n], hasDecoder), Gated<T>(raw[..n + 1], hasDecoder);
      if hasDecoder[r.stream] && r.hasData
      then |after| == |before| + 1 && after[..|before|] == before && after[|before|] == Packet(r.stream, r.pos)
      else after == before
  {
    GatedStep<T>(raw, hasDecoder, n);
  }

  ghost predicate SpelledOut<T>(before: seq<Event<T>>, after: seq<Event<T>>, r: RawPacket, hasDecoder: bool,
                                ds: seq<Decoded<T>>)
  {
    if !hasDecoder then after == before
    else
      var first := |before| + if r.hasData then 1 else 0;
      && |after| == first + |ds| && after[..|before|] == before
      && (r.hasData ==> after[|before|] == Packet(r.stream, r.pos))
      && forall i | 0 <= i < |ds| :: after[i + first] == Frame(r.stream, ds[i].pos, ds[i].data)
  }

  /** What an export sees, spelled out: of a stream with a decoder each packet adds itself if it has data, and
      then, data or not, every frame its decoder returns, in order. */
  lemma EventsSpelledOut<T>(raw: seq<RawPacket>, hasDecoder: seq<bool>, decoded: seq<seq<Decoded<T>>>, n: nat)
    requires StreamsOk(raw, hasDecoder) && |decoded| == |raw| && n < |raw|
    ensures Events(raw[..0], hasDecoder, decoded[..0]) == []
    ensures var r, ds := raw[n], decoded[n];
      SpelledOut(Events(raw[..n], hasDecoder, decoded[..n]), Events(raw[..n + 1], hasDecoder, decoded[..n + 1]),
                 r, hasDecoder[r.stream], ds)
  {
    EventsStep(raw, hasDecoder, decoded, n);
    NoEvents<T>(hasDecoder);
    assert raw[..0] == [] && decoded[..0] == [];
    hide Events, SpelledOut, Look, Output;
    var before, r, ds := Events(raw[..n], hasDecoder, decoded[..n]), raw[n], decoded[n];
    LastEvents(before, r, hasDecoder, ds);
  }

  lemma LastEvents<T>(before: seq<Event<T>>, r: RawPacket, hasDecoder: seq<bool>, ds: seq<Decoded<T>>)
    requires r.stream < |hasDecoder|
    ensures SpelledOut(before, before + Look(r, hasDecoder) + Output(r, hasDecoder, ds), r, hasDecoder[r.stream], ds)
  {
  }

  lemma NoEvents<T>(hasDecoder: seq<bool>)
    ensures Events<T>([], hasDecoder, []) == []
  {
  }

  lemma {:induction false} PositionsConcat<T>(a: seq<Event<T>>, b: seq<Event<T>>, s: nat)
    ensures Positions(a + b, s) == Positions(a, s) + Positions(b, s)
  {
    if b == [] {
      assert a + b == a;
    } else {
      assert (a + b)[..|a + b| - 1] == a + b[..|b| - 1];
      PositionsConcat(a, b[..|b| - 1], s);
    }
  }

  lemma {:induction false} FramesHaveNoPositions<T>(r: nat, ds: seq<Decoded<T>>, s: nat)
    ensures Positions(Frames(r, ds), s) == []
  {
    if ds == [] {
    } else {
      assert Frames(r, ds)[..|ds| - 1] == Frames(r, ds[..|ds| - 1]);
      FramesHaveNoPositions(r, ds[..|ds| - 1], s);
    }
  }

  /** The export sees the packets the gate lets through, in the same order. */
  lemma {:induction false} EventsAreGated<T>(raw: seq<RawPacket>, hasDecoder: seq<bool>,
                                             decoded: seq<seq<Decoded<T>>>, s: nat)
    requires StreamsOk(raw, hasDecoder) && |decoded| == |raw|
    ensures Positions(Events(raw, hasDecoder, decoded), s) == Positions(Gated<T>(raw, hasDecoder), s)
  {
    if raw == [] {
    } else {
      var n := |raw| - 1;
      EventsAreGated(raw[..n], hasDecoder, decoded[..n], s);
      var before, look := Events(raw[..n], hasDecoder, decoded[..n]), Look<T>(raw[n], hasDecoder);
      PositionsConcat(before + look, Output(raw[n], hasDecoder, decoded[n]), s);
      PositionsConcat(before, look, s);
      PositionsConcat(Gated<T>(raw[..n], hasDecoder), look, s);
      FramesHaveNoPositions(raw[n].stream, decoded[n], s);
      hide Positions, Frames;
      assert Positions<T>([], s) == [] by { NoPositions<T>(s); }
    }
  }

  lemma NoPositions<T>(s: nat)
    ensures Positions<T>([], s) == []
  {
  }

  // ----- the export pass -----

  /** Every stream holds what the events so far have recorded. */
  ghost predicate Holds<T>(streams: seq<seq<JFrame<T>>>, evs: seq<Event<T>>) {
    forall s: nat | s < |streams| :: streams[s] == Recorded(evs, s)
  }

  /** Every decoded frame belongs to a packet read before it. */
  ghost predicate AllMatched<T>(evs: seq<Event<T>>) {
    forall k | 0 <= k < |evs| && evs[k].Frame? :: evs[k].pos in Positions(evs[..k], evs[k].stream)
  }

  lemma HoldsNext<T>(streams: seq<seq<JFrame<T>>>, evs: seq<Event<T>>, e: Event<T>)
    requires Holds(streams, evs) && e.stream < |streams|
    ensures Holds(streams[e.stream := Record(streams[e.stream], e.stream, e)], evs + [e])
  {
    assert (evs + [e])[..|evs|] == evs;
  }

  lemma MatchedNext<T>(evs: seq<Event<T>>, e: Event<T>)
    requires AllMatched(evs)
    ensures AllMatched(evs + [e]) <==> (e.Frame? ==> e.pos in Positions(evs, e.stream))
  {
    var evs' := evs + [e];
    assert forall k | 0 <= k <= |evs| :: evs'[..k] == evs[..k];
    assert evs'[|evs|] == e && evs[..|evs|] == evs;
  }

  lemma MatchedPrefix<T>(a: seq<Event<T>>, b: seq<Event<T>>)
    requires AllMatched(a + b)
    ensures AllMatched(a)
  {
    assert forall k | 0 <= k < |a| :: (a + b)[..k] == a[..k] && (a + b)[k] == a[k];
  }

  /** Frames fill objects in; only packets add any. */
  lemma {:induction false} RecordedPositions<T>(evs: seq<Event<T>>, s: nat)
    ensures |Recorded(evs, s)| == |Positions(evs, s)|
    ensures forall i | 0 <= i < |Recorded(evs, s)| :: Recorded(evs, s)[i].pktPos == Positions(evs, s)[i]
  {
    if evs == [] {
    } else {
      RecordedPositions(evs[..|evs| - 1], s);
    }
  }

  lemma FrameHasObject<T>(frames: seq<JFrame<T>>, evs: seq<Event<T>>, s: nat, pos: int)
    requires frames == Recorded(evs, s)
    ensures (exists k :: 0 <= k < |frames| && frames[k].pktPos == pos) <==> pos in Positions(evs, s)
  {
    RecordedPositions(evs, s);
    hide Recorded, Positions;
    if pos in Positions(evs, s) {
      var k :| 0 <= k < |frames| && Positions(evs, s)[k] == pos;
      assert frames[k].pktPos == pos;
    }
  }

  /** The receive loop of ffedit_decode: every frame goes to the object of its packet; false stands for exit(1). */
  method AddFrames<T(!new)>(jf: JsonFile<T>, s: nat, ds: seq<Decoded<T>>, ghost evs: seq<Event<T>>) returns (ok: bool)
    requires s < |jf.jstframes| && Holds(jf.jstframes, evs) && AllMatched(evs)
    modifies jf`jstframes
    ensures |jf.jstframes| == |old(jf.jstframes)| && (ok <==> AllMatched(evs + Frames(s, ds)))
    ensures ok ==> Holds(jf.jstframes, evs + Frames(s, ds))
  {
    hide Holds, AllMatched, Recorded, Record, Positions;
    ghost var all := Frames(s, ds);
    assert evs + all[..0] == evs;
    for i := 0 to |ds|
      invariant |jf.jstframes| == |old(jf.jstframes)| && Holds(jf.jstframes, evs + all[..i])
      invariant AllMatched(evs + all[..i])
    {
      assert evs + all[..i + 1] == evs + all[..i] + [all[i]];
      HoldsNext(jf.jstframes, evs + all[..i], all[i]);
      MatchedNext(evs + all[..i], all[i]);
      HoldsStream(jf.jstframes, evs + all[..i], s);
      FrameHasObject(jf.jstframes[s], evs + all[..i], s, ds[i].pos);
      var found := jf.AddFrame(ds[i].pos, s, ds[i].data);
      if !found {
        assert evs + all == evs + all[..i + 1] + all[i + 1..];
        if AllMatched(evs + all) { MatchedPrefix(evs + all[..i + 1], all[i + 1..]); }
        return false;
      }
    }
    assert all[..|ds|] == all;
    return true;
  }

  lemma HoldsStream<T>(streams: seq<seq<JFrame<T>>>, evs: seq<Event<T>>, s: nat)
    requires Holds(streams, evs) && s < |streams|
    ensures streams[s] == Recorded(evs, s)
  {
  }

  /** One packet of fact_transplicate while exporting. */
  method ExportPacket<T(!new)>(jf: JsonFile<T>, r: RawPacket, hasDecoder: seq<bool>, ds: seq<Decoded<T>>,
                               ghost evs: seq<Event<T>>) returns (ok: bool)
    requires r.stream < |hasDecoder| == |jf.jstframes| && Holds(jf.jstframes, evs) && AllMatched(evs)
    modifies jf`jstframes
    ensures |jf.jstframes| == |old(jf.jstframes)|
    ensures var evs' := evs + Look(r, hasDecoder) + Output(r, hasDecoder, ds);
      (ok <==> AllMatched(evs')) && (ok ==> Holds(jf.jstframes, evs'))
  {
    hide Holds, AllMatched, Recorded, Record, Frames;
    if !hasDecoder[r.stream] {
      assert evs + [] + [] == evs;
      return true;
    }
    ghost var look := Look<T>(r, hasDecoder);
    if r.hasData {
      HoldsNext(jf.jstframes, evs, Packet(r.stream, r.pos));
      MatchedNext(evs, Packet(r.stream, r.pos));
      jf.AddPacket(r.pos, r.stream);
    } else {
      assert evs + [] == evs;
    }
    ok := AddFrames(jf, r.stream, ds, evs + look);
  }

  /** fact_transplicate while exporting, up to the closing of the file. */
  method ExportPass<T(!new)>(jf: JsonFile<T>, raw: seq<RawPacket>, hasDecoder: seq<bool>, decoded: seq<seq<Decoded<T>>>)
    returns (ok: bool)
    requires StreamsOk(raw, hasDecoder) && |decoded| == |raw|
    requires jf.jstframes == seq(|hasDecoder|, _ => [])
    modifies jf`jstframes
    ensures |jf.jstframes| == |hasDecoder|
    ensures ok <==> AllMatched(Events(raw, hasDecoder, decoded))
    ensures ok ==> Holds(jf.jstframes, Events(raw, hasDecoder, decoded))
  {
    ghost var evs: seq<Event<T>> := [];
    assert Holds(jf.jstframes, evs) && AllMatched(evs);
    assert raw[..0] == [] && decoded[..0] == [];
    for n := 0 to |raw|
      invariant |jf.jstframes| == |hasDecoder| && evs == Events(raw[..n], hasDecoder, decoded[..n])
      invariant Holds(jf.jstframes, evs) && AllMatched(evs)
    {
      hide *;
      EventsStep(raw, hasDecoder, decoded, n);
      StreamOk(raw, hasDecoder, n);
      ok := ExportPacket(jf, raw[n], hasDecoder, decoded[n], evs);
      evs := evs + Look(raw[n], hasDecoder) + Output(raw[n], hasDecoder, decoded[n]);
      if !ok {
        if AllMatched(Events(raw, hasDecoder, decoded)) { EventsPrefixMatched(raw, hasDecoder, decoded, n + 1); }
        return;
      }
    }
    assert raw[..|raw|] == raw && decoded[..|raw|] == decoded;
    ok := true;
  }

  lemma StreamOk(raw: seq<RawPacket>, hasDecoder: seq<bool>, n: nat)
    requires StreamsOk(raw, hasDecoder) && n < |raw|
    ensures raw[n].stream < |hasDecoder| && StreamsOk(raw[..n], hasDecoder) && StreamsOk(raw[..n + 1], hasDecoder)
  {
  }

  lemma {:induction false} EventsPrefixMatched<T>(raw: seq<RawPacket>, hasDecoder: seq<bool>,
                                                  decoded: seq<seq<Decoded<T>>>, n: nat)
    requires StreamsOk(raw, hasDecoder) && |decoded| == |raw| && n <= |raw|
    requires AllMatched(Events(raw, hasDecoder, decoded))
    ensures AllMatched(Events(raw[..n], hasDecoder, decoded[..n]))
    decreases |raw|
  {
    if n == |raw| {
      assert raw[..n] == raw && decoded[..n] == decoded;
    } else {
      var m := |raw| - 1;
      MatchedPrefix(Events(raw[..m], hasDecoder, decoded[..m]) + Look(raw[m], hasDecoder),
                    Output(raw[m], hasDecoder, decoded[m]));
      MatchedPrefix(Events(raw[..m], hasDecoder, decoded[..m]), Look(raw[m], hasDecoder));
      assert raw[..m][..n] == raw[..n] && decoded[..m][..n] == decoded[..n];
      EventsPrefixMatched(raw[..m], hasDecoder, decoded[..m], n);
    }
  }

  // ----- the apply pass -----

  /** The index get_from_ffedit_json_file uses for packet k of an apply pass. */
  function Turn<T>(evs: seq<Event<T>>, k: nat, s: nat): nat
    requires k <= |evs|
  {
    |Positions(evs[..k], s)|
  }

  /** Each packet was given the object at its turn in its stream. */
  ghost predicate InTurn<T>(streams: seq<seq<JFrame<T>>>, evs: seq<Event<T>>, got: seq<JFrame<T>>) {
    && |got| == |evs|
    && forall k | 0 <= k < |evs| ::
         && evs[k].stream < |streams|
         && Turn(evs, k, evs[k].stream) < |streams[evs[k].stream]|
         && got[k] == streams[evs[k].stream][Turn(evs, k, evs[k].stream)]
  }

  /** ... and every stream's index counts its packets so far. */
  ghost predicate Served<T>(streams: seq<seq<JFrame<T>>>, idx: seq<nat>, evs: seq<Event<T>>, got: seq<JFrame<T>>) {
    && |idx| == |streams| && InTurn(streams, evs, got)
    && forall s: nat | s < |idx| :: idx[s] == |Positions(evs, s)|
  }

  lemma NothingServed<T>(streams: seq<seq<JFrame<T>>>)
    ensures Served(streams, seq(|streams|, _ => 0), [], [])
  {
  }

  lemma InTurnNext<T>(streams: seq<seq<JFrame<T>>>, evs: seq<Event<T>>, got: seq<JFrame<T>>, e: Event<T>,
                      frame: JFrame<T>)
    requires InTurn(streams, evs, got) && e.stream < |streams|
    requires |Positions(evs, e.stream)| < |streams[e.stream]|
    requires frame == streams[e.stream][|Positions(evs, e.stream)|]
    ensures InTurn(streams, evs + [e], got + [frame])
  {
    hide Positions;
    var evs' := evs + [e];
    assert evs'[..|evs|] == evs;
    assert forall k | 0 <= k < |evs| :: evs'[k] == evs[k] && evs'[..k] == evs[..k];
  }

  lemma ServeNext<T>(streams: seq<seq<JFrame<T>>>, idx: seq<nat>, evs: seq<Event<T>>, got: seq<JFrame<T>>, e: Event<T>)
    requires Served(streams, idx, evs, got) && e.Packet? && e.stream < |streams|
    requires idx[e.stream] < |streams[e.stream]|
    ensures Served(streams, idx[e.stream := idx[e.stream] + 1], evs + [e],
                   got + [streams[e.stream][idx[e.stream]]])
  {
    InTurnNext(streams, evs, got, e, streams[e.stream][idx[e.stream]]);
    assert (evs + [e])[..|evs|] == evs;
    hide InTurn;
  }

  lemma {:induction false} GatedGrows<T>(raw: seq<RawPacket>, hasDecoder: seq<bool>, n: nat, s: nat)
    requires StreamsOk(raw, hasDecoder) && n <= |raw|
    ensures |Positions(Gated<T>(raw[..n], hasDecoder), s)| <= |Positions(Gated<T>(raw, hasDecoder), s)|
    decreases |raw| - n
  {
    if n == |raw| {
      assert raw[..n] == raw;
    } else {
      GatedStep<T>(raw, hasDecoder, n);
      PositionsConcat(Gated<T>(raw[..n], hasDecoder), Look<T>(raw[n], hasDecoder), s);
      hide Positions, Gated;
      GatedGrows<T>(raw, hasDecoder, n + 1, s);
    }
  }

  /** While the streams are as long as the packets need, the packet looked at finds an object left. */
  lemma ObjectLeft<T>(streams: seq<seq<JFrame<T>>>, idx: seq<nat>, got: seq<JFrame<T>>,
                      raw: seq<RawPacket>, hasDecoder: seq<bool>, n: nat)
    requires StreamsOk(raw, hasDecoder) && n < |raw| && |streams| == |hasDecoder|
    requires Served(streams, idx, Gated(raw[..n], hasDecoder), got) && LongEnough(streams, raw, hasDecoder)
    requires hasDecoder[raw[n].stream] && raw[n].hasData
    ensures idx[raw[n].stream] < |streams[raw[n].stream]|
  {
    var s := raw[n].stream;
    GatedStep<T>(raw, hasDecoder, n);
    PositionsConcat(Gated<T>(raw[..n], hasDecoder), Look<T>(raw[n], hasDecoder), s);
    GatedGrows<T>(raw, hasDecoder, n + 1, s);
    assert Look<T>(raw[n], hasDecoder)[..0] == [];
    assert |Positions(Look<T>(raw[n], hasDecoder), s)| == 1;
  }

  ghost predicate LongEnough<T>(streams: seq<seq<JFrame<T>>>, raw: seq<RawPacket>, hasDecoder: seq<bool>)
    requires StreamsOk(raw, hasDecoder) && |streams| == |hasDecoder|
  {
    forall s: nat | s < |hasDecoder| :: |Positions(Gated<T>(raw, hasDecoder), s)| <= |streams[s]|
  }

  /** fact_transplicate while importing: what each packet looked at is given. */
  method ApplyPass<T(!new)>(jf: JsonFile<T>, raw: seq<RawPacket>, hasDecoder: seq<bool>) returns (got: seq<JFrame<T>>)
    requires StreamsOk(raw, hasDecoder)
    requires |jf.jstframes| == |jf.framesIdx| == |hasDecoder| && LongEnough(jf.jstframes, raw, hasDecoder)
    modifies jf`framesIdx
    ensures InTurn(jf.jstframes, Gated(raw, hasDecoder), got)
  {
    jf.framesIdx := seq(|jf.framesIdx|, _ => 0);
    got := [];
    ghost var evs: seq<Event<T>> := [];
    NothingServed(jf.jstframes);
    assert raw[..0] == [];
    for n := 0 to |raw|
      invariant |jf.framesIdx| == |hasDecoder| && evs == Gated(raw[..n], hasDecoder)
      invariant Served(jf.jstframes, jf.framesIdx, evs, got)
    {
      hide *;
      var r := raw[n];
      StreamOk(raw, hasDecoder, n);
      GatedStep<T>(raw, hasDecoder, n);
      LookIs<T>(r, hasDecoder);
      if hasDecoder[r.stream] && r.hasData {
        ObjectLeft(jf.jstframes, jf.framesIdx, got, raw, hasDecoder, n);
        ServeNext(jf.jstframes, jf.framesIdx, evs, got, Packet(r.stream, r.pos));
        var frame := jf.Get(r.stream);
        got := got + [frame];
        evs := evs + [Packet(r.stream, r.pos)];
      } else {
        assert evs + [] == evs;
      }
    }
    assert raw[..|raw|] == raw;
  }

  lemma LookIs<T>(r: RawPacket, hasDecoder: seq<bool>)
    requires r.stream < |hasDecoder|
    ensures Look<T>(r, hasDecoder) == if hasDecoder[r.stream] && r.hasData then [Packet(r.stream, r.pos)] else []
  {
  }

  // ----- export, then apply -----

  lemma ExpectedInOrder<T(!new)>(evs: seq<Event<T>>, s: nat)
    requires Legal(evs, s)
    ensures InFileOrder(Expected(evs, s), Pos<T>) && Keys(Expected(evs, s), Pos<T>) == Positions(evs, s)
  {
    var frames, key := Expected(evs, s), Pos<T>;
    forall i | 0 <= i < |frames| ensures Keys(frames, key)[i] == Positions(evs, s)[i] {
      assert Keys(frames, key)[i] == key(frames[i]) == Pos(frames[i]);
    }
  }

  /** The closing sort is sure to keep the recorded objects in file order exactly if the comparator
      gets every pair of the stream's positions right. */
  lemma CloseKeepsOrder<T(!new)>(evs: seq<Event<T>>, s: nat)
    requires Legal(evs, s)
    ensures PairsFit(Positions(evs, s)) <==>
            forall after :: MaySortTo(Recorded(evs, s), after, Pos<T>) ==> after == Expected(evs, s)
  {
    ExportIsExpected(evs, s);
    ExpectedInOrder(evs, s);
    StaysInOrderIff(Expected(evs, s), Pos<T>);
  }

  lemma {:induction false} PositionsSplit<T>(evs: seq<Event<T>>, k: nat, s: nat)
    requires k <= |evs|
    ensures Positions(evs[..k], s) <= Positions(evs, s)
    decreases |evs|
  {
    if k == |evs| {
      assert evs[..k] == evs;
    } else {
      assert evs[..|evs| - 1][..k] == evs[..k];
      PositionsSplit(evs[..|evs| - 1], k, s);
    }
  }

  lemma TurnFindsPacket<T>(evs: seq<Event<T>>, k: nat, s: nat)
    requires k < |evs| && evs[k].Packet? && evs[k].stream == s
    ensures Turn(evs, k, s) < |Positions(evs, s)| && Positions(evs, s)[Turn(evs, k, s)] == evs[k].pos
  {
    assert evs[..k + 1][..k] == evs[..k];
    PositionsSplit(evs, k + 1, s);
  }

  /** Every object has its turn. */
  lemma {:induction false} PacketOfTurn<T>(evs: seq<Event<T>>, n: nat, s: nat) returns (k: nat)
    requires n < |Positions(evs, s)|
    ensures k < |evs| && evs[k].Packet? && evs[k].stream == s && Turn(evs, k, s) == n
  {
    var init := evs[..|evs| - 1];
    if n < |Positions(init, s)| {
      k := PacketOfTurn(init, n, s);
      assert init[..k] == evs[..k];
    } else {
      k := |evs| - 1;
    }
  }

  /** Each packet of the stream gets the object exported for its position, with what was decoded from it,
      or nothing for a packet the codec skipped. */
  ghost predicate Paired<T>(after: seq<JFrame<T>>, exported: seq<Event<T>>, applied: seq<Event<T>>, s: nat) {
    forall k | 0 <= k < |applied| && applied[k].Packet? && applied[k].stream == s ::
      && Turn(applied, k, s) < |after|
      && after[Turn(applied, k, s)] == JFrame(applied[k].pos, DataFor(exported, s, applied[k].pos))
  }

  lemma PairedIff<T(!new)>(after: seq<JFrame<T>>, exported: seq<Event<T>>, applied: seq<Event<T>>, s: nat)
    requires Positions(applied, s) == Positions(exported, s) && |after| == |Positions(exported, s)|
    ensures Paired(after, exported, applied, s) <==> after == Expected(exported, s)
  {
    var p := Positions(exported, s);
    hide Positions, Turn, DataFor;
    if Paired(after, exported, applied, s) {
      forall n | 0 <= n < |after| ensures after[n] == JFrame(p[n], DataFor(exported, s, p[n])) {
        var k := PacketOfTurn(applied, n, s);
        TurnFindsPacket(applied, k, s);
      }
    }
    forall k | 0 <= k < |applied| && applied[k].Packet? && applied[k].stream == s
      ensures Turn(applied, k, s) < |p| && p[Turn(applied, k, s)] == applied[k].pos
    {
      TurnFindsPacket(applied, k, s);
    }
  }

  /** Export, then apply to the same packets, however the streams interleave in either pass and whenever
      the frames were decoded: every packet is sure to get its own object exactly if the comparator gets
      every pair of the stream's positions right. */
  lemma ExportThenApply<T(!new)>(exported: seq<Event<T>>, applied: seq<Event<T>>, s: nat)
    requires Legal(exported, s) && Positions(applied, s) == Positions(exported, s)
    ensures PairsFit(Positions(exported, s)) <==>
            forall after :: MaySortTo(Recorded(exported, s), after, Pos<T>) ==> Paired(after, exported, applied, s)
  {
    CloseKeepsOrder(exported, s);
    var before := Recorded(exported, s);
    forall after | MaySortTo(before, after, Pos<T>)
      ensures Paired(after, exported, applied, s) <==> after == Expected(exported, s)
    {
      SortedLength(before, after, exported, s);
      PairedIff(after, exported, applied, s);
    }
  }

  lemma SortedLength<T(!new)>(before: seq<JFrame<T>>, after: seq<JFrame<T>>, evs: seq<Event<T>>, s: nat)
    requires before == Recorded(evs, s) && MaySortTo(before, after, Pos<T>)
    ensures |after| == |Positions(evs, s)|
  {
    SameLength(before, after);
    RecordedPositions(evs, s);
  }

  /** What the closing sort may have made of what the events recorded. */
  ghost predicate ClosedFrom<T(!new)>(streams: seq<seq<JFrame<T>>>, evs: seq<Event<T>>) {
    forall s: nat | s < |streams| :: MaySortTo(Recorded(evs, s), streams[s], Pos<T>)
  }

  lemma Closing<T(!new)>(recorded: seq<seq<JFrame<T>>>, streams: seq<seq<JFrame<T>>>, evs: seq<Event<T>>)
    requires Holds(recorded, evs) && |streams| == |recorded|
    requires forall s | 0 <= s < |streams| :: MaySortTo(recorded[s], streams[s], Pos<T>)
    ensures ClosedFrom(streams, evs)
  {
  }

  /** The second reading finds the packets of the first, stream by stream. */
  ghost predicate SamePackets<T>(raw: seq<RawPacket>, again: seq<RawPacket>, hasDecoder: seq<bool>)
    requires StreamsOk(raw, hasDecoder) && StreamsOk(again, hasDecoder)
  {
    forall s: nat | s < |hasDecoder| ::
      Positions(Gated<T>(again, hasDecoder), s) == Positions(Gated<T>(raw, hasDecoder), s)
  }

  lemma ClosedIsLongEnough<T(!new)>(streams: seq<seq<JFrame<T>>>, raw: seq<RawPacket>, decoded: seq<seq<Decoded<T>>>,
                                    again: seq<RawPacket>, hasDecoder: seq<bool>)
    requires StreamsOk(raw, hasDecoder) && StreamsOk(again, hasDecoder) && |decoded| == |raw|
    requires |streams| == |hasDecoder| && ClosedFrom(streams, Events(raw, hasDecoder, decoded))
    requires SamePackets<T>(raw, again, hasDecoder)
    ensures LongEnough(streams, again, hasDecoder)
  {
    var evs := Events(raw, hasDecoder, decoded);
    forall s: nat | s < |hasDecoder| ensures |Positions(Gated<T>(again, hasDecoder), s)| <= |streams[s]| {
      EventsAreGated(raw, hasDecoder, decoded, s);
      SortedLength(Recorded(evs, s), streams[s], evs, s);
    }
  }

  lemma AppliedIsPaired<T(!new)>(streams: seq<seq<JFrame<T>>>, raw: seq<RawPacket>, decoded: seq<seq<Decoded<T>>>,
                                 again: seq<RawPacket>, hasDecoder: seq<bool>, got: seq<JFrame<T>>, k: nat)
    requires StreamsOk(raw, hasDecoder) && StreamsOk(again, hasDecoder) && |decoded| == |raw|
    requires |streams| == |hasDecoder| && ClosedFrom(streams, Events(raw, hasDecoder, decoded))
    requires SamePackets<T>(raw, again, hasDecoder) && InTurn(streams, Gated<T>(again, hasDecoder), got)
    requires k < |Gated<T>(again, hasDecoder)|
    ensures var exported, e := Events(raw, hasDecoder, decoded), Gated<T>(again, hasDecoder)[k];
      Legal(exported, e.stream) && PairsFit(Positions(exported, e.stream)) ==>
        got[k] == JFrame(e.pos, DataFor(exported, e.stream, e.pos))
  {
    var exported, applied := Events(raw, hasDecoder, decoded), Gated<T>(again, hasDecoder);
    var s := applied[k].stream;
    GatedArePackets<T>(again, hasDecoder, k);
    EventsAreGated(raw, hasDecoder, decoded, s);
    hide Events, Gated, Positions, Legal, PairsFit, MaySortTo, DataFor, Recorded;
    if Legal(exported, s) && PairsFit(Positions(exported, s)) {
      ExportThenApply(exported, applied, s);
      assert Paired(streams[s], exported, applied, s);
    }
  }

  lemma {:induction false} GatedArePackets<T>(raw: seq<RawPacket>, hasDecoder: seq<bool>, k: nat)
    requires StreamsOk(raw, hasDecoder) && k < |Gated<T>(raw, hasDecoder)|
    ensures Gated<T>(raw, hasDecoder)[k].Packet? && Gated<T>(raw, hasDecoder)[k].stream < |hasDecoder|
  {
    var init := raw[..|raw| - 1];
    if k < |Gated<T>(init, hasDecoder)| { GatedArePackets<T>(init, hasDecoder, k); }
  }

  /** The two passes in one: export, close, load the file again and apply it to the same packets.  The export
      gives up exactly if a frame turns up whose packet was never read; otherwise every packet of a stream
      whose positions suit the comparator gets what was decoded from it. */
  method ExportAndApply<T(!new)>(raw: seq<RawPacket>, decoded: seq<seq<Decoded<T>>>, again: seq<RawPacket>,
                                 hasDecoder: seq<bool>) returns (ok: bool, got: seq<JFrame<T>>)
    requires StreamsOk(raw, hasDecoder) && StreamsOk(again, hasDecoder) && |decoded| == |raw|
    requires SamePackets<T>(raw, again, hasDecoder)
    ensures ok <==> AllMatched(Events(raw, hasDecoder, decoded))
    ensures ok ==> |got| == |Gated<T>(again, hasDecoder)|
    ensures ok ==> forall k | 0 <= k < |got| ::
      var exported, e := Events(raw, hasDecoder, decoded), Gated<T>(again, hasDecoder)[k];
      Legal(exported, e.stream) && PairsFit(Positions(exported, e.stream)) ==>
        got[k] == JFrame(e.pos, DataFor(exported, e.stream, e.pos))
  {
    got := [];
    var jf := new JsonFile<T>(|hasDecoder|);
    hide StreamsOk, SamePackets, AllMatched, Events, Gated, Holds, Legal, PairsFit, Positions, DataFor, MaySortTo;
    ok := ExportPass(jf, raw, hasDecoder, decoded);
    if !ok {
      return;
    }
    ghost var recorded := jf.jstframes;
    jf.CloseExport();
    Closing(recorded, jf.jstframes, Events(raw, hasDecoder, decoded));
    hide ClosedFrom;
    var copy := new JsonFile<T>.Load(jf.jstframes);
    ClosedIsLongEnough(copy.jstframes, raw, decoded, again, hasDecoder);
    got := ApplyPass(copy, again, hasDecoder);
    InTurnLength(copy.jstframes, Gated<T>(again, hasDecoder), got);
    hide InTurn;
    forall k: nat | k < |got|
      ensures var exported, e := Events(raw, hasDecoder, decoded), Gated<T>(again, hasDecoder)[k];
        Legal(exported, e.stream) && PairsFit(Positions(exported, e.stream)) ==>
          got[k] == JFrame(e.pos, DataFor(exported, e.stream, e.pos))
    {
      AppliedIsPaired(copy.jstframes, raw, decoded, again, hasDecoder, got, k);
    }
  }

  lemma InTurnLength<T>(streams: seq<seq<JFrame<T>>>, evs: seq<Event<T>>, got: seq<JFrame<T>>)
    requires InTurn(streams, evs, got)
    ensures |got| == |evs|
  {
  }

  /** In a stream longer than 2^31 bytes the comparator can force the wrong order: with these two packets
      the sort has to swap the frames, so on apply each packet gets the other one's. */
  lemma LargeFileIsSwapped<T(!new)>(a: T, b: T, after: seq<JFrame<T>>)
    requires MaySortTo([JFrame(0, Some(a)), JFrame(TWO31 + 1, Some(b))], after, Pos<T>)
    ensures after == [JFrame(TWO31 + 1, Some(b)), JFrame(0, Some(a))]
  {
    var key := Pos<T>;
    var f0, f1 := JFrame(0, Some(a)), JFrame(TWO31 + 1, Some(b));
    assert key(f0) == Pos(f0) && key(f1) == Pos(f1);
    FarApartIsSwapped();
    hide Pos;
    SwappedPair(f0, f1, after, key);
  }
}
