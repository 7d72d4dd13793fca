/** Where the upstream walk of unchoke_for_stream (fftools/ffmpeg_sched.c) ends, as a path in the graph. */
module UpstreamWalks {
  import opened TranscodeGraph

  /** A walk upstream: every node but the last is a filtergraph that wants one of its inputs, and the next node
      is the source of that input. */
  ghost predicate Follows(g: Graph, best: seq<nat>, p: seq<Node>) {
    && p != []
    && forall i | 0 <= i < |p| - 1 ::
         && p[i].FilterOut? && p[i].idx < |g| && p[i].idx < |best|
         && best[p[i].idx] < |g[p[i].idx]| && p[i + 1] == g[p[i].idx][best[p[i].idx]]
  }

  /** Where a walk stops: a demuxer, or a filtergraph that wants to be scheduled itself. */
  ghost predicate Stops(g: Graph, best: seq<nat>, n: Node) {
    n.FilterOut? ==> n.idx < |g| && n.idx < |best| && best[n.idx] == |g[n.idx]|
  }

  ghost predicate LeadsTo(g: Graph, best: seq<nat>, src: Node, n: Node, p: seq<Node>) {
    Follows(g, best, p) && p[0] == src && p[|p| - 1] == n && Stops(g, best, n)
  }

  lemma {:induction false} ResolveFollows(g: Graph, best: seq<nat>, src: Node, hops: nat) returns (p: seq<Node>)
    requires WellFormed(g) && BestOk(g, best) && (src.FilterOut? ==> src.idx < |g|)
    requires Resolve(g, best, src, hops) != []
    ensures LeadsTo(g, best, src, Resolve(g, best, src, hops)[0], p) && |p| <= hops + 1
    decreases hops
  {
    if src.Demux? || best[src.idx] == |g[src.idx]| {
      p := [src];
    } else {
      var next := g[src.idx][best[src.idx]];
      var rest := ResolveFollows(g, best, next, hops - 1);
      p := [src] + rest;
      forall i | 0 <= i < |p| - 1
        ensures p[i].FilterOut? && p[i].idx < |g| && best[p[i].idx] < |g[p[i].idx]|
        ensures p[i + 1] == g[p[i].idx][best[p[i].idx]]
      {
        if i > 0 { assert p[i] == rest[i - 1] && p[i + 1] == rest[i]; }
      }
    }
  }

  /** There is one way to walk. */
  lemma {:induction false} OneWalk(g: Graph, best: seq<nat>, src: Node, n: Node, p: seq<Node>, m: Node, q: seq<Node>)
    requires LeadsTo(g, best, src, n, p) && LeadsTo(g, best, src, m, q)
    ensures n == m
    decreases |p|
  {
    if |p| == 1 || |q| == 1 {
    } else {
      assert p[1] == q[1];
      assert Follows(g, best, p[1..]) by { assert forall i | 0 <= i < |p| - 1 :: p[1..][i] == p[i + 1]; }
      assert Follows(g, best, q[1..]) by { assert forall i | 0 <= i < |q| - 1 :: q[1..][i] == q[i + 1]; }
      OneWalk(g, best, p[1], n, p[1..], m, q[1..]);
    }
  }
}
