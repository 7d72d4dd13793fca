/** The graph of filtergraphs and demuxers, its cycle check (check_acyclic and
    check_acyclic_for_output), and the upstream walk the check makes safe. */
module TranscodeGraph {
  datatype Node = Demux(idx: nat) | FilterOut(idx: nat)

  /** The src_sched of every input of every filtergraph. */
  type Graph = seq<seq<Node>>

  ghost predicate WellFormed(g: Graph) {
    forall f, j | 0 <= f < |g| && 0 <= j < |g[f]| && g[f][j].FilterOut? :: g[f][j].idx < |g|
  }

  ghost predicate Edge(g: Graph, u: nat, v: nat) {
    u < |g| && FilterOut(v) in g[u]
  }

  ghost predicate IsPath(g: Graph, p: seq<nat>) {
    && p != []
    && (forall i | 0 <= i < |p| :: p[i] < |g|)
    && forall i | 0 <= i < |p| - 1 :: Edge(g, p[i], p[i + 1])
  }

  /** A path from the root that comes back to one of its nodes. */
  ghost predicate IsLasso(g: Graph, root: nat, p: seq<nat>, i: nat) {
    IsPath(g, p) && p[0] == root && i < |p| - 1 && p[i] == p[|p| - 1]
  }

  ghost predicate CycleFrom(g: Graph, root: nat) {
    exists p, i :: IsLasso(g, root, p, i)
  }

  // ----- counting -----

  ghost predicate Distinct(p: seq<nat>) {
    forall i, j | 0 <= i < j < |p| :: p[i] != p[j]
  }

  lemma {:induction false} Pigeonhole(p: seq<nat>, n: nat)
    requires Distinct(p) && forall i | 0 <= i < |p| :: p[i] < n
    ensures |p| <= n
    decreases n
  {
    if p == [] {
    } else {
      assert p[0] < n;
      if i :| 0 <= i < |p| && p[i] == n - 1 {
        var q := p[..i] + p[i + 1..];
        forall k | 0 <= k < |q| ensures q[k] < n - 1 {
          assert q[k] == p[if k < i then k else k + 1];
        }
        Pigeonhole(q, n - 1);
      } else {
        Pigeonhole(p, n - 1);
      }
    }
  }

  lemma DistinctAppend(p: seq<nat>, x: nat)
    requires Distinct(p) && x !in p
    ensures Distinct(p + [x])
  {
  }

  // ----- the search -----

  datatype Mark = New | Started | Done

  /** A SchedulerNode as the search uses it: a filtergraph and its next input to descend into. */
  datatype Pos = Pos(idx: nat, next: nat)

  function Idxs(path: seq<Pos>): (r: seq<nat>)
    ensures |r| == |path| && forall i | 0 <= i < |path| :: r[i] == path[i].idx
  {
    seq(|path|, i requires 0 <= i < |path| => path[i].idx)
  }

  function Last(path: seq<Pos>): Pos
    requires path != []
  {
    path[|path| - 1]
  }

  ghost predicate InRange(g: Graph, path: seq<Pos>) {
    forall i | 0 <= i < |path| :: path[i].idx < |g| && path[i].next <= |g[path[i].idx]|
  }

  /** Each entry but the last is descending into the next one. */
  ghost predicate Descends(g: Graph, path: seq<Pos>)
    requires InRange(g, path)
  {
    forall i | 0 <= i < |path| - 1 ::
      0 < path[i].next && g[path[i].idx][path[i].next - 1] == FilterOut(path[i + 1].idx)
  }

  /** Every filtergraph ever finished, with a rank above those of its own sources. */
  ghost predicate Ranked(g: Graph, fin: map<nat, nat>) {
    forall u <- fin :: u < |g| && forall j | 0 <= j < |g[u]| && g[u][j].FilterOut? ::
      g[u][j].idx in fin && fin[g[u][j].idx] < fin[u]
  }

  /** The inputs of this entry before `upTo` have been searched. */
  ghost predicate Searched(g: Graph, p: Pos, upTo: int, fin: map<nat, nat>)
    requires p.idx < |g| && upTo <= |g[p.idx]|
  {
    forall j | 0 <= j < upTo && g[p.idx][j].FilterOut? :: g[p.idx][j].idx in fin
  }

  lemma {:induction false} RankFalls(g: Graph, fin: map<nat, nat>, p: seq<nat>, i: nat, j: nat)
    requires Ranked(g, fin) && IsPath(g, p) && p[0] in fin && i <= j < |p|
    ensures p[i] in fin && p[j] in fin && fin[p[j]] <= fin[p[i]] && (i < j ==> fin[p[j]] < fin[p[i]])
    decreases j
  {
    if 0 < j {
      RankFalls(g, fin, p, if i < j then i else j - 1, j - 1);
      assert Edge(g, p[j - 1], p[j]);
    }
  }

  lemma RankedHasNoCycle(g: Graph, fin: map<nat, nat>, root: nat)
    requires Ranked(g, fin) && root in fin
    ensures !CycleFrom(g, root)
  {
    forall p, i | IsLasso(g, root, p, i) ensures false {
      RankFalls(g, fin, p, i, |p| - 1);
    }
  }

  // Work left: an entry at depth d weighs (inputs left + 1) * b^(n - d), so that a
  // descent trades one unit at its depth for less than one unit's worth below it.

  lemma {:induction false} WiderThanAny(g: Graph) returns (b: nat)
    ensures 0 < b && forall f | 0 <= f < |g| :: |g[f]| + 1 < b
  {
    b := 1;
    for k := 0 to |g|
      invariant 0 < b && forall f | 0 <= f < k :: |g[f]| + 1 < b
    {
      b := if |g[k]| + 2 > b then |g[k]| + 2 else b;
    }
  }

  function Pow(b: nat, e: nat): (r: nat)
    requires 0 < b
    ensures 0 < r
    decreases e, b
  {
    if e == 0 then 1 else Times(b - 1, b, e - 1)
  }

  /** (left + 1) * b^e, by addition. */
  function Times(left: nat, b: nat, e: nat): (r: nat)
    requires 0 < b
    ensures Pow(b, e) <= r
    decreases e + 1, left
  {
    if left == 0 then Pow(b, e) else Times(left - 1, b, e) + Pow(b, e)
  }

  lemma {:induction false} TimesBelowPow(left: nat, b: nat, e: nat, upTo: nat)
    requires left < upTo < b
    ensures Times(left, b, e) < Times(upTo, b, e)
    ensures upTo == b - 1 ==> Times(left, b, e) < Pow(b, e + 1)
  {
    if left < upTo - 1 { TimesBelowPow(left, b, e, upTo - 1); }
  }

  ghost function Work(g: Graph, path: seq<Pos>, b: nat): nat
    requires 0 < b && InRange(g, path) && |path| <= |g|
  {
    if path == [] then 0 else Work(g, path[..|path| - 1], b) + TopWork(g, path, b)
  }

  ghost function TopWork(g: Graph, path: seq<Pos>, b: nat): nat
    requires 0 < b && InRange(g, path) && 0 < |path| <= |g|
  {
    Times(|g[Last(path).idx]| - Last(path).next, b, |g| - |path|)
  }

  function Advance(path: seq<Pos>): seq<Pos>
    requires path != []
  {
    path[|path| - 1 := Last(path).(next := Last(path).next + 1)]
  }

  /** Moving the last entry on to its next input frees one unit at its depth. */
  lemma WorkAdvance(g: Graph, path: seq<Pos>, b: nat)
    requires 0 < b && InRange(g, path) && 0 < |path| <= |g| && Last(path).next < |g[Last(path).idx]|
    ensures InRange(g, Advance(path))
    ensures Work(g, Advance(path), b) + Pow(b, |g| - |path|) == Work(g, path, b)
    ensures Work(g, Advance(path), b) < Work(g, path, b)
  {
    hide Pow;
    assert Advance(path)[..|path| - 1] == path[..|path| - 1];
  }

  lemma WorkPop(g: Graph, path: seq<Pos>, b: nat)
    requires 0 < b && InRange(g, path) && 0 < |path| <= |g|
    ensures Work(g, path[..|path| - 1], b) < Work(g, path, b)
  {
  }

  lemma WorkPush(g: Graph, path: seq<Pos>, child: nat, b: nat)
    requires InRange(g, path) && 0 < |path| < |g| && child < |g| && |g[child]| + 1 < b
    ensures InRange(g, path + [Pos(child, 0)])
    ensures Work(g, path + [Pos(child, 0)], b) < Work(g, path, b) + Pow(b, |g| - |path|)
  {
    hide Times, Pow;
    var path' := path + [Pos(child, 0)];
    assert path'[..|path|] == path && Last(path') == Pos(child, 0);
    TimesBelowPow(|g[child]|, b, |g| - |path'|, b - 1);
  }

  lemma WorkDescend(g: Graph, path: seq<Pos>, child: nat, b: nat)
    requires InRange(g, path) && 0 < |path| < |g| && child < |g| && |g[child]| + 1 < b
    requires Last(path).next < |g[Last(path).idx]|
    ensures InRange(g, Advance(path) + [Pos(child, 0)])
    ensures Work(g, Advance(path) + [Pos(child, 0)], b) < Work(g, path, b)
  {
    hide Work, Pow;
    WorkAdvance(g, path, b);
    WorkPush(g, Advance(path), child, b);
  }

  /** The search keeps: the entries of its path (the stack, then the current one) are exactly
      the Started filtergraphs, each once, each descending into the next, with all their earlier
      inputs searched. */
  ghost predicate SearchInv(g: Graph, root: nat, visited: seq<Mark>, path: seq<Pos>, fin: map<nat, nat>, clock: nat) {
    && |visited| == |g|
    && path != [] && InRange(g, path) && path[0].idx == root
    && Distinct(Idxs(path))
    && Descends(g, path)
    && (forall f | 0 <= f < |g| && visited[f] == Started :: f in Idxs(path))
    && (forall i | 0 <= i < |path| - 1 :: visited[path[i].idx] == Started)
    && Ranked(g, fin) && (forall f <- fin :: fin[f] < clock)
    && (forall i | 0 <= i < |path| - 1 :: Searched(g, path[i], path[i].next - 1, fin))
    && Searched(g, Last(path), Last(path).next, fin)
  }

  lemma PathFits(g: Graph, path: seq<Pos>)
    requires InRange(g, path) && Distinct(Idxs(path))
    ensures |path| <= |g|
  {
    Pigeonhole(Idxs(path), |g|);
  }

  lemma BackEdgeIsCycle(g: Graph, path: seq<Pos>, f: nat)
    requires path != [] && InRange(g, path) && Descends(g, path)
    requires Edge(g, Last(path).idx, f) && f in Idxs(path)
    ensures CycleFrom(g, path[0].idx)
  {
    var p := Idxs(path) + [f];
    var i :| 0 <= i < |path| && path[i].idx == f;
    forall k | 0 <= k < |p| - 1 ensures Edge(g, p[k], p[k + 1]) {
      if k < |path| - 1 { assert g[path[k].idx][path[k].next - 1] == FilterOut(path[k + 1].idx); }
    }
    assert IsLasso(g, path[0].idx, p, i);
  }

  lemma StartSearch(g: Graph, root: nat, visited: seq<Mark>)
    requires root < |g| == |visited| && forall f | 0 <= f < |g| :: visited[f] == New
    ensures SearchInv(g, root, visited, [Pos(root, 0)], map[], 0)
  {
  }

  lemma MarkStarted(g: Graph, root: nat, visited: seq<Mark>, path: seq<Pos>, fin: map<nat, nat>, clock: nat)
    requires SearchInv(g, root, visited, path, fin, clock)
    ensures SearchInv(g, root, visited[Last(path).idx := Started], path, fin, clock)
  {
    assert Idxs(path)[|path| - 1] == Last(path).idx;
  }

  lemma SkipDemux(g: Graph, root: nat, visited: seq<Mark>, path: seq<Pos>, fin: map<nat, nat>, clock: nat)
    requires SearchInv(g, root, visited, path, fin, clock)
    requires Last(path).next < |g[Last(path).idx]| && g[Last(path).idx][Last(path).next].Demux?
    ensures SearchInv(g, root, visited, Advance(path), fin, clock)
  {
    hide Ranked, Distinct;
    assert Idxs(Advance(path)) == Idxs(path);
  }

  lemma Descend(g: Graph, root: nat, visited: seq<Mark>, path: seq<Pos>, fin: map<nat, nat>, clock: nat, child: nat)
    requires SearchInv(g, root, visited, path, fin, clock) && child < |g|
    requires Last(path).next < |g[Last(path).idx]| && g[Last(path).idx][Last(path).next] == FilterOut(child)
    requires visited[Last(path).idx] == Started != visited[child]
    ensures SearchInv(g, root, visited, Advance(path) + [Pos(child, 0)], fin, clock)
  {
    var path' := Advance(path) + [Pos(child, 0)];
    hide Ranked, Distinct;
    assert Idxs(path') == Idxs(path) + [child];
    assert Distinct(Idxs(path) + [child]) by { DistinctAppend(Idxs(path), child); }
    assert forall i | 0 <= i < |path| - 1 :: path'[i] == path[i];
  }

  /** A finished filtergraph is ranked above everything finished before it. */
  lemma FinishRank(g: Graph, src: nat, fin: map<nat, nat>, clock: nat)
    returns (fin': map<nat, nat>, clock': nat)
    requires src < |g| && Ranked(g, fin) && (forall f <- fin :: fin[f] < clock)
    requires Searched(g, Pos(src, 0), |g[src]|, fin)
    ensures Ranked(g, fin') && (forall f <- fin' :: fin'[f] < clock')
    ensures fin'.Keys == fin.Keys + {src}
  {
    if src in fin {
      fin', clock' := fin, clock;
    } else {
      fin', clock' := fin[src := clock], clock + 1;
    }
  }

  lemma FinishPop(g: Graph, root: nat, visited: seq<Mark>, path: seq<Pos>, fin: map<nat, nat>, clock: nat,
                  fin': map<nat, nat>, clock': nat)
    requires SearchInv(g, root, visited, path, fin, clock) && |path| > 1
    requires Ranked(g, fin') && (forall f <- fin' :: fin'[f] < clock')
    requires fin'.Keys == fin.Keys + {Last(path).idx}
    ensures SearchInv(g, root, visited[Last(path).idx := Done], path[..|path| - 1], fin', clock')
  {
    hide Ranked;
    var src, rest := Last(path).idx, path[..|path| - 1];
    assert Idxs(path) == Idxs(rest) + [src];
    assert g[Last(rest).idx][Last(rest).next - 1] == FilterOut(src);
    assert Searched(g, Last(rest), Last(rest).next - 1, fin);
    assert Searched(g, Last(rest), Last(rest).next, fin');
  }

  /** check_acyclic_for_output; false stands for AVERROR(EINVAL). */
  method CheckAcyclicForOutput(g: Graph, root: nat, visited: array<Mark>, stack: array<Pos>) returns (ok: bool)
    requires WellFormed(g) && root < |g| && visited.Length == stack.Length == |g|
    modifies visited, stack
    ensures ok <==> !CycleFrom(g, root)
  {
    hide Work, Ranked;
    var sp := 0;
    forall f | 0 <= f < visited.Length { visited[f] := New; }
    var src := Pos(root, 0);
    ghost var path: seq<Pos>, fin: map<nat, nat>, clock: nat := [src], map[], 0;
    StartSearch(g, root, visited[..]);
    ghost var b := WiderThanAny(g);

    while true
      invariant |path| == sp + 1 <= |g| && path[sp] == src
      invariant forall i | 0 <= i < sp :: stack[i] == path[i]
      invariant SearchInv(g, root, visited[..], path, fin, clock)
      decreases Work(g, path, b)
    {
      MarkStarted(g, root, visited[..], path, fin, clock);
      visited[src.idx] := Started;
      ghost var marks := visited[..];

      if src.next < |g[src.idx]| {
        var fi := g[src.idx][src.next];
        WorkAdvance(g, path, b);
        if fi.Demux? {
          SkipDemux(g, root, marks, path, fin, clock);
          src := src.(next := src.next + 1);
          path := Advance(path);
          continue;
        }
        if visited[fi.idx] == Started {
          BackEdgeIsCycle(g, path, fi.idx);
          return false;
        }
        Descend(g, root, marks, path, fin, clock, fi.idx);
        PathFits(g, Advance(path) + [Pos(fi.idx, 0)]);
        WorkDescend(g, path, fi.idx, b);
        src := src.(next := src.next + 1);
        path := Advance(path) + [Pos(fi.idx, 0)];
        assert sp < stack.Length;
        stack[sp] := src;
        sp := sp + 1;
        src := Pos(fi.idx, 0);
        continue;
      }

      ghost var fin', clock' := FinishRank(g, src.idx, fin, clock);
      visited[src.idx] := Done;
      assert visited[..] == marks[src.idx := Done];
      if sp > 0 {
        FinishPop(g, root, marks, path, fin, clock, fin', clock');
        WorkPop(g, path, b);
        sp := sp - 1;
        src := stack[sp];
        path, fin, clock := path[..sp + 1], fin', clock';
        continue;
      }
      RankedHasNoCycle(g, fin', root);
      return true;
    }
  }

  ghost predicate SourcesOk(g: Graph, mux: seq<seq<Node>>) {
    forall i, j | 0 <= i < |mux| && 0 <= j < |mux[i]| && mux[i][j].FilterOut? :: mux[i][j].idx < |g|
  }

  ghost predicate SafeUpTo(g: Graph, mux: seq<seq<Node>>, i: nat, j: nat)
    requires i <= |mux| && (i < |mux| ==> j <= |mux[i]|)
  {
    && (forall k, l | 0 <= k < i && 0 <= l < |mux[k]| && mux[k][l].FilterOut? :: !CycleFrom(g, mux[k][l].idx))
    && (i < |mux| ==> forall l | 0 <= l < j && mux[i][l].FilterOut? :: !CycleFrom(g, mux[i][l].idx))
  }

  ghost predicate Acyclic(g: Graph, mux: seq<seq<Node>>) {
    SafeUpTo(g, mux, |mux|, 0)
  }

  /** check_acyclic: `mux` holds the src_sched of every stream of every muxer. */
  method CheckAcyclic(g: Graph, mux: seq<seq<Node>>) returns (ok: bool)
    requires WellFormed(g) && SourcesOk(g, mux)
    ensures ok <==> Acyclic(g, mux)
  {
    if |g| == 0 {
      return true;
    }
    var visited := new Mark[|g|](_ => New);
    var stack := new Pos[|g|](_ => Pos(0, 0));
    for i := 0 to |mux|
      invariant SafeUpTo(g, mux, i, 0)
    {
      for j := 0 to |mux[i]|
        invariant SafeUpTo(g, mux, i, j)
      {
        var src := mux[i][j];
        if src.FilterOut? {
          ok := CheckAcyclicForOutput(g, src.idx, visited, stack);
          if !ok {
            return;
          }
        }
      }
    }
    return true;
  }

  // ----- the upstream walk -----

  ghost predicate BestOk(g: Graph, best: seq<nat>) {
    |best| == |g| && forall f | 0 <= f < |g| :: best[f] <= |g[f]|
  }

  /** Where unchoke_for_stream ends if it gets there within so many hops: a demuxer, or a
      filtergraph that asked to be scheduled itself. */
  function Resolve(g: Graph, best: seq<nat>, src: Node, hops: nat): (r: seq<Node>)
    requires WellFormed(g) && BestOk(g, best) && (src.FilterOut? ==> src.idx < |g|)
    ensures |r| <= 1
    ensures forall n <- r :: n.FilterOut? ==> n.idx < |g| && best[n.idx] == |g[n.idx]|
    decreases hops
  {
    if src.Demux? || best[src.idx] == |g[src.idx]| then [src]
    else if hops == 0 then []
    else Resolve(g, best, g[src.idx][best[src.idx]], hops - 1)
  }

  /** A walk that has visited `seen` and cannot revisit resolves in the hops left. */
  lemma {:induction false} WalkEnds(g: Graph, best: seq<nat>, root: nat, seen: seq<nat>)
    requires WellFormed(g) && BestOk(g, best) && !CycleFrom(g, root)
    requires IsPath(g, seen) && seen[0] == root && Distinct(seen) && |seen| <= |g|
    ensures Resolve(g, best, FilterOut(seen[|seen| - 1]), |g| - |seen| + 1) != []
    decreases |g| - |seen|
  {
    var f := seen[|seen| - 1];
    if best[f] < |g[f]| && g[f][best[f]].FilterOut? {
      var next := seen + [g[f][best[f]].idx];
      assert IsPath(g, next);
      if i :| 0 <= i < |seen| && seen[i] == next[|seen|] {
        assert IsLasso(g, root, next, i);
      } else {
        Pigeonhole(next, |g|);
        WalkEnds(g, best, root, next);
      }
    }
  }

  lemma {:induction false} FirstReturn(g: Graph, root: nat, p: seq<nat>, i: nat) returns (q: seq<nat>, k: nat)
    requires IsLasso(g, root, p, i)
    ensures IsLasso(g, root, q, k) && Distinct(q[..|q| - 1])
    decreases |p|
  {
    q, k := p, i;
    if a, b :| 0 <= a < b < |p| - 1 && p[a] == p[b] {
      q, k := FirstReturn(g, root, p[..b + 1], a);
    }
  }

  /** Does entry k of the path leave f through input j? */
  ghost predicate Leaves(g: Graph, q: seq<nat>, f: nat, k: nat, j: nat) {
    f < |g| && k + 1 < |q| && q[k] == f && j < |g[f]| && g[f][j] == FilterOut(q[k + 1])
  }

  ghost function InputAlong(g: Graph, q: seq<nat>, f: nat): (j: nat)
    requires f < |g|
    ensures j <= |g[f]|
    ensures forall k: nat, l: nat :: Leaves(g, q, f, k, l) ==> exists m: nat :: Leaves(g, q, f, m, j)
  {
    if exists k: nat, l: nat :: Leaves(g, q, f, k, l) then
      var k: nat, l: nat :| Leaves(g, q, f, k, l); l
    else 0
  }

  lemma {:induction false} RoundAndRound(g: Graph, best: seq<nat>, q: seq<nat>, i: nat, k: nat, hops: nat)
    requires WellFormed(g) && BestOk(g, best) && q != [] && IsLasso(g, q[0], q, i) && k < |q| - 1
    requires forall l | 0 <= l < |q| - 1 :: best[q[l]] < |g[q[l]]| && g[q[l]][best[q[l]]] == FilterOut(q[l + 1])
    ensures Resolve(g, best, FilterOut(q[k]), hops) == []
    decreases hops
  {
    if hops == 0 {
    } else {
      RoundAndRound(g, best, q, i, if k + 1 == |q| - 1 then i else k + 1, hops - 1);
    }
  }

  lemma CycleDefeatsWalk(g: Graph, root: nat) returns (best: seq<nat>)
    requires WellFormed(g) && CycleFrom(g, root)
    ensures BestOk(g, best) && root < |g|
    ensures forall hops :: Resolve(g, best, FilterOut(root), hops) == []
  {
    var p, k :| IsLasso(g, root, p, k);
    var q, i := FirstReturn(g, root, p, k);
    best := seq(|g|, f requires 0 <= f < |g| => InputAlong(g, q, f));
    forall l | 0 <= l < |q| - 1
      ensures best[q[l]] < |g[q[l]]| && g[q[l]][best[q[l]]] == FilterOut(q[l + 1])
    {
      assert Edge(g, q[l], q[l + 1]);
      var j: nat :| j < |g[q[l]]| && g[q[l]][j] == FilterOut(q[l + 1]);
      assert Leaves(g, q, q[l], l, j);
      var m: nat :| Leaves(g, q, q[l], m, best[q[l]]);
      assert q[..|q| - 1][m] == q[..|q| - 1][l];
    }
    forall hops: nat ensures Resolve(g, best, FilterOut(root), hops) == [] {
      RoundAndRound(g, best, q, i, 0, hops);
    }
  }

  /** The check is exactly as strong as the walk needs: it accepts a filtergraph if and only if,
      whatever inputs the filtergraphs say they want, the walk from it ends within nb_filters hops. */
  lemma WalkEndsIffAcyclic(g: Graph, root: nat)
    requires WellFormed(g) && root < |g|
    ensures !CycleFrom(g, root) <==> forall best | BestOk(g, best) :: Resolve(g, best, FilterOut(root), |g|) != []
  {
    if CycleFrom(g, root) {
      var best := CycleDefeatsWalk(g, root);
      assert Resolve(g, best, FilterOut(root), |g|) == [];
    } else {
      forall best | BestOk(g, best) ensures Resolve(g, best, FilterOut(root), |g|) != [] {
        WalkEnds(g, best, root, [root]);
      }
    }
  }
}
