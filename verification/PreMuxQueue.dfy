/** The growing fifo in front of a muxer that has not started (mux_queue_packet,
    fftools/ffmpeg_sched.c) and what its two limits bound. */
module PreMuxQueues {
  /** A packet's size, or the end of the stream, which has none. */
  datatype Entry = Packet(size: nat) | End

  function Size(e: Entry): nat { if e.Packet? then e.size else 0 }

  function DataSize(s: seq<Entry>): nat {
    if s == [] then 0 else DataSize(s[..|s| - 1]) + Size(s[|s| - 1])
  }

  /** Packets count with their size, the end of the stream with nothing. */
  lemma DataSizeNext(s: seq<Entry>, e: Entry)
    ensures DataSize(s + [e]) == DataSize(s) + match e case Packet(size) => size case End => 0
  {
    assert (s + [e])[..|s|] == s;
  }

  const INITIAL_CAPACITY: nat := 8

  /** The initial capacity doubled some number of times. */
  predicate Doubled(n: nat) {
    n == INITIAL_CAPACITY || (n > INITIAL_CAPACITY && n % 2 == 0 && Doubled(n / 2))
  }

  lemma DoubledOnce(n: nat)
    requires Doubled(n)
    ensures Doubled(2 * n)
  {
    assert 2 * n / 2 == n;
  }

  class PreMuxQueue {
    var fifo: seq<Entry>
    var capacity: nat
    var maxPackets: nat
    var dataSize: nat
    var dataThreshold: nat

    // The longest the fifo was when growing needed the data threshold, and its data then.
    ghost var freeGrowth: nat

    /** The space is within the packet limit, or was last extended while half of it stayed within the data
        threshold; and it has been doubled each time, until the threshold was passed and the limit reached. */
    ghost predicate Valid()
      reads this
    {
      && |fifo| <= capacity && INITIAL_CAPACITY <= capacity
      && dataSize == DataSize(fifo)
      && freeGrowth <= |fifo| && DataSize(fifo[..freeGrowth]) <= dataThreshold
      && (capacity <= INITIAL_CAPACITY || capacity <= maxPackets || capacity <= 2 * freeGrowth)
      && (Doubled(capacity) || (capacity == maxPackets && dataSize > dataThreshold))
    }

    constructor (dataThreshold: nat, maxPackets: nat)
      ensures Valid() && fifo == [] && this.dataThreshold == dataThreshold && this.maxPackets == maxPackets
    {
      fifo, capacity, dataSize := [], INITIAL_CAPACITY, 0;
      this.dataThreshold, this.maxPackets := dataThreshold, maxPackets;
      freeGrowth := 0;
    }

    /** mux_queue_packet; false stands for AVERROR(ENOSPC).  It refuses exactly when the fifo is full,
        holds at least max_packets, and with this packet would exceed the data threshold. */
    method MuxQueuePacket(e: Entry) returns (ok: bool)
      requires Valid()
      modifies this`fifo, this`capacity, this`dataSize, this`freeGrowth
      ensures Valid()
      ensures !ok <==>
        && |old(fifo)| == old(capacity)
        && maxPackets <= |old(fifo)|
        && DataSize(old(fifo)) + Size(e) > dataThreshold
      ensures fifo == if ok then old(fifo) + [e] else old(fifo)
      ensures !ok || |old(fifo)| < old(capacity) ==> capacity == old(capacity)
      ensures ok && |old(fifo)| == old(capacity) ==>
                if DataSize(old(fifo)) + Size(e) > dataThreshold
                then capacity <= maxPackets && (capacity == 2 * old(capacity) || capacity == maxPackets)
                else capacity == 2 * old(capacity)
    {
      if Doubled(capacity) { DoubledOnce(capacity); }
      hide Doubled;
      if |fifo| >= capacity {
        var packets := |fifo|;
        var threshReached := dataSize + Size(e) > dataThreshold;
        var newSize := if threshReached && maxPackets < 2 * packets then maxPackets else 2 * packets;
        if newSize <= packets {
          return false;
        }
        if !threshReached {
          freeGrowth := |fifo|;
          assert fifo[..freeGrowth] == fifo;
        }
        capacity := capacity + (newSize - packets);
      }
      assert (fifo + [e])[..|fifo|] == fifo && (fifo + [e])[..freeGrowth] == fifo[..freeGrowth];
      dataSize := dataSize + Size(e);
      fifo := fifo + [e];
      ok := true;
    }

    /** However long the muxer takes to start: beyond max_packets (or the initial eight), at least half of
        what is queued fits the data threshold. */
    lemma BufferingIsBounded()
      requires Valid()
      ensures |fifo| <= INITIAL_CAPACITY || |fifo| <= maxPackets
           || exists n: nat :: |fifo| <= 2 * n && n <= |fifo| && DataSize(fifo[..n]) <= dataThreshold
    {
      assert freeGrowth <= |fifo|;
    }
  }
}
