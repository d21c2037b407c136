/**
 Breadth-first exactness: for every system and every bound, the explored nodes are reachable
 at exactly the depth of their parent chain, no shorter run reaches them, indices are in
 order of depth, and a search that dropped nothing holds every reachable state.
 */
module BreadthFirst {
  import opened Wrappers
  import opened Index
  import opened Systems
  import opened Search
  import opened Expansion
  import opened GraphInvariant

  // ----- The invariant over whole runs -----

  /** `g'` adds to `g` only nodes found from nodes in [lo, hi). */
  ghost predicate Adds<S>(g: Graph<S>, g': Graph<S>, lo: nat, hi: nat) {
    && Grows(g, g', lo) && g'.roots == g.roots
    && forall i | |g.states| <= i < |g'.states| :: lo <= g'.parent[i] < hi
  }

  lemma {:induction false} AddsNothing<S>(g: Graph<S>, lo: nat, hi: nat)
    requires Shaped(g)
    ensures Adds(g, g, lo, hi)
  {
  }

  lemma {:induction false} AddsKeepsState<S>(g: Graph<S>, g': Graph<S>, lo: nat, hi: nat, i: nat)
    requires Adds(g, g', lo, hi) && i < |g.states|
    ensures i < |g'.states| && g'.states[i] == g.states[i]
  {
  }

  lemma {:induction false} AddsTransitive<S>(g: Graph<S>, g1: Graph<S>, g2: Graph<S>, lo: nat, mid: nat, hi: nat)
    requires Adds(g, g1, lo, mid) && Adds(g1, g2, mid, hi) && lo <= mid <= hi
    ensures Adds(g, g2, lo, hi)
  {
  }

  lemma {:induction false} AddsStay<S>(g: Graph<S>, g1: Graph<S>, g2: Graph<S>, lo: nat, hi: nat)
    requires Adds(g, g1, lo, hi) && Adds(g1, g2, lo, hi)
    ensures Adds(g, g2, lo, hi)
  {
  }

  lemma {:induction false} MergeOneAdds<S>(cfg: Config<S>, g: Graph<S>, from: nat, succs: seq<Succ<S>>, n: nat)
    requires Shaped(g) && from < |g.states| && n < |succs|
    ensures Adds(g, MergeOne(cfg, g, from, succs, n), from, from + 1)
  {
    MergeOneGrows(cfg, g, from, succs, n);
  }

  lemma {:induction false} MergeFirstAdds<S>(cfg: Config<S>, g: Graph<S>, from: nat, succs: seq<Succ<S>>, n: nat)
    requires Shaped(g) && from < |g.states| && n <= |succs|
    ensures Adds(g, MergeFirst(cfg, g, from, succs, n), from, from + 1)
    decreases n
  {
    hide MergeOne, Grows;
    if n == 0 {
      AddsNothing(g, from, from + 1);
    } else {
      MergeFirstAdds(cfg, g, from, succs, n - 1);
      var g1 := MergeFirst(cfg, g, from, succs, n - 1);
      MergeOneAdds(cfg, g1, from, succs, n - 1);
      AddsStay(g, g1, MergeOne(cfg, g1, from, succs, n - 1), from, from + 1);
    }
  }

  lemma {:induction false} MergeFirstKeeps<S>(cfg: Config<S>, g: Graph<S>, n: nat)
    requires Merging(cfg, g, 0)
    requires n <= |Expand(cfg, g.states[|g.edgeStart| - 1])|
    ensures var from := |g.edgeStart| - 1;
            var g' := MergeFirst(cfg, g, from, Expand(cfg, g.states[from]), n);
            Merging(cfg, g', n) && g'.edgeStart == g.edgeStart && g'.states[from] == g.states[from]
    decreases n
  {
    hide MergeOne, Inv, MarksOk, RowFits, Grows, Expand;
    var from := |g.edgeStart| - 1;
    var succs := Expand(cfg, g.states[from]);
    if n > 0 {
      MergeFirstKeeps(cfg, g, n - 1);
      MergeOneKeeps(cfg, MergeFirst(cfg, g, from, succs, n - 1), n - 1);
      MergeFirstAdds(cfg, g, from, succs, n);
      AddsKeepsState(g, MergeFirst(cfg, g, from, succs, n), from, from + 1, from);
    }
  }

  lemma {:induction false} ExpandNodeKeeps<S>(cfg: Config<S>, g: Graph<S>)
    requires Settled(cfg, g) && |g.edgeStart| - 1 < |g.states|
    ensures Settled(cfg, ExpandNode(cfg, g, |g.edgeStart| - 1))
  {
    var from := |g.edgeStart| - 1;
    var n := |Expand(cfg, g.states[from])|;
    assert Merging(cfg, g, 0);
    MergeFirstKeeps(cfg, g, n);
    CloseRowKeeps(cfg, MergeFirst(cfg, g, from, Expand(cfg, g.states[from]), n));
  }

  lemma {:induction false} ExpandNodeAdds<S>(cfg: Config<S>, g: Graph<S>)
    requires Shaped(g) && |g.edgeStart| - 1 < |g.states|
    ensures var from := |g.edgeStart| - 1;
            Adds(g, ExpandNode(cfg, g, from), from, from + 1)
  {
    hide Grows, MergeFirst;
    var from := |g.edgeStart| - 1;
    var succs := Expand(cfg, g.states[from]);
    MergeFirstAdds(cfg, g, from, succs, |succs|);
    CloseRowAdds(g, MergeFirst(cfg, g, from, succs, |succs|), from, from + 1);
  }

  lemma {:induction false} CloseRowAdds<S>(g: Graph<S>, g': Graph<S>, lo: nat, hi: nat)
    requires Adds(g, g', lo, hi) && |g'.edgeStart| <= |g'.states|
    ensures Adds(g, CloseRow(g'), lo, hi)
  {
  }

  lemma {:induction false} CloseRowKeeps<S>(cfg: Config<S>, g: Graph<S>)
    requires |g.edgeStart| - 1 < |g.states| && Shaped(g) && 0 < |g.edgeStart|
    requires Merging(cfg, g, |Expand(cfg, g.states[|g.edgeStart| - 1])|)
    ensures Settled(cfg, CloseRow(g))
  {
    var g' := CloseRow(g);
    var from := |g.edgeStart| - 1;
    assert Grows(g, g', |g.states|);
    assert Ids(cfg, g') == Ids(cfg, g);
    NodesGrow(cfg, g, g', |g.states|);
    forall i | 0 <= i < |g'.edgeStart| - 1 ensures RowOk(cfg, g', i) {
      if i < from {
        assert RowOk(cfg, g, i);
        RowFitsGrows(cfg, g, g', |g.states|, i, g.edgeStart[i], g.edgeStart[i + 1], |Expand(cfg, g.states[i])|);
      } else {
        RowFitsGrows(cfg, g, g', |g.states|, i, g.edgeStart[i], |g.edgeTo|, |Expand(cfg, g.states[i])|);
      }
    }
  }

  lemma {:induction false} ExpandNodesAdds<S>(cfg: Config<S>, g: Graph<S>, n: nat)
    requires Shaped(g) && |g.edgeStart| - 1 + n <= |g.states|
    ensures var done := |g.edgeStart| - 1;
            Adds(g, ExpandNodes(cfg, g, n), done, done + n)
    decreases n
  {
    hide Grows, ExpandNode;
    var done := |g.edgeStart| - 1;
    if n == 0 {
      AddsNothing(g, done, done);
    } else {
      ExpandNodesAdds(cfg, g, n - 1);
      var g1 := ExpandNodes(cfg, g, n - 1);
      ExpandNodeAdds(cfg, g1);
      AddsTransitive(g, g1, ExpandNodes(cfg, g, n), done, done + n - 1, done + n);
    }
  }

  lemma {:induction false} ExpandNodesKeeps<S>(cfg: Config<S>, g: Graph<S>, n: nat)
    requires Settled(cfg, g) && |g.edgeStart| - 1 + n <= |g.states|
    ensures Settled(cfg, ExpandNodes(cfg, g, n))
    decreases n
  {
    hide Inv, MarksOk, ExpandNode;
    if n > 0 {
      ExpandNodesKeeps(cfg, g, n - 1);
      ExpandNodeKeeps(cfg, ExpandNodes(cfg, g, n - 1));
    }
  }

  // ----- Depths -----

  ghost predicate ParentsBelow(parent: seq<int>) {
    forall i | 0 <= i < |parent| :: -1 <= parent[i] < i
  }

  /** The length of node `i`'s parent chain, which is the length of its trace. */
  ghost function Depth(parent: seq<int>, i: nat): nat
    requires ParentsBelow(parent) && i < |parent|
    decreases i
  {
    if parent[i] < 0 then 0 else 1 + Depth(parent, parent[i])
  }

  lemma {:induction false} DepthOfPrefix(parent: seq<int>, parent': seq<int>, i: nat)
    requires ParentsBelow(parent') && parent <= parent' && i < |parent|
    ensures ParentsBelow(parent) && Depth(parent, i) == Depth(parent', i)
    decreases i
  {
    assert forall k | 0 <= k < |parent| :: parent[k] == parent'[k];
    if parent[i] >= 0 {
      DepthOfPrefix(parent, parent', parent[i]);
    }
  }

  lemma {:induction false} InvParentsBelow<S>(cfg: Config<S>, g: Graph<S>)
    requires Shaped(g) && NodesOk(cfg, g)
    ensures ParentsBelow(g.parent)
  {
    forall i | 0 <= i < |g.parent| ensures -1 <= g.parent[i] < i {
      assert NodeOk(cfg, g, i);
    }
  }

  /** A node's state is reached by a run as long as its parent chain. */
  lemma {:induction false} NodeIsReachable<S(!new)>(cfg: Config<S>, g: Graph<S>, i: nat)
    requires Shaped(g) && NodesOk(cfg, g) && i < |g.states|
    ensures ParentsBelow(g.parent) && ReachableIn(cfg.sys, g.states[i], Depth(g.parent, i))
    decreases i
  {
    InvParentsBelow(cfg, g);
    assert NodeOk(cfg, g, i);
    if i >= |g.roots| {
      NodeIsReachable(cfg, g, g.parent[i]);
      var l := g.labels[g.via[i]];
      assert Steps(cfg.sys, l.actor, g.states[g.parent[i]], g.states[i]);
    }
  }

  /** Every state some run of at most `depth` moves reaches has its identity in the graph. */
  ghost predicate Covers<S(!new)>(cfg: Config<S>, g: Graph<S>, depth: nat) {
    forall s, n: nat :: n <= depth && ReachableIn(cfg.sys, s, n) ==> cfg.Id(s) in Ids(cfg, g)
  }

  /** No run of fewer than `depth` moves reaches a state with the identity `id`. */
  ghost predicate NotSooner<S(!new)>(cfg: Config<S>, id: Ident, depth: nat) {
    forall s, n: nat :: n < depth && ReachableIn(cfg.sys, s, n) ==> cfg.Id(s) != id
  }

  /** Every state some run of fewer than `depth` moves reaches is held. */
  ghost predicate NearerHeld<S(!new)>(cfg: Config<S>, g: Graph<S>, depth: nat) {
    forall s, n: nat :: n < depth && ReachableIn(cfg.sys, s, n) ==> cfg.Id(s) in Ids(cfg, g)
  }

  /** Indices are in order of depth, nothing is deeper than it need be, and nothing nearer is missing. */
  ghost predicate DepthsExact<S(!new)>(cfg: Config<S>, g: Graph<S>) {
    && Shaped(g) && ParentsBelow(g.parent)
    && (forall i, j | 0 <= i < j < |g.states| :: Depth(g.parent, i) <= Depth(g.parent, j))
    && (forall i | 0 <= i < |g.states| :: NotSooner(cfg, cfg.Id(g.states[i]), Depth(g.parent, i)))
    && (forall i | 0 <= i < |g.states| :: NearerHeld(cfg, g, Depth(g.parent, i)))
  }

  /** The graph when `depth` levels have been expanded and one is waiting. */
  ghost predicate AtLevel<S(!new)>(cfg: Config<S>, g: Graph<S>, depth: nat) {
    && Settled(cfg, g) && DepthsExact(cfg, g)
    && (forall i | 0 <= i < |g.states| :: Depth(g.parent, i) <= depth)
    && (forall i | |g.edgeStart| - 1 <= i < |g.states| :: Depth(g.parent, i) == depth)
    && (|g.states| >= cfg.maxStates || Covers(cfg, g, depth))
    && (!g.truncated ==> Covers(cfg, g, depth))
  }

  // ----- One level -----

  /** A closed, unmarked row has an edge to every state one step away. */
  lemma {:induction false} RowReachesSteps<S(!new)>(cfg: Config<S>, g: Graph<S>, i: nat, a: nat, s: S, t: S) returns (k: nat)
    requires IdentityDecides(cfg.sys, cfg.exact)
    requires Shaped(g) && i < |g.edgeStart| - 1 && RowOk(cfg, g, i) && !g.unknown[i]
    requires Reachable(cfg.sys, g.states[i]) && Reachable(cfg.sys, s)
    requires cfg.Id(g.states[i]) == cfg.Id(s) && Steps(cfg.sys, a, s, t)
    ensures g.edgeStart[i] <= k < g.edgeStart[i + 1] <= |g.edgeTo|
    ensures g.edgeTo[k] < |g.states| && cfg.Id(g.states[g.edgeTo[k]]) == cfg.Id(t)
    ensures g.edgeLabel[k] < |g.labels| && g.labels[g.edgeLabel[k]].actor == a
  {
    hide IdentityDecides, ExpandActors;
    var j := StepFromTwin(cfg.sys, cfg.exact, a, s, t, g.states[i]);
    ExpandActorsAt(cfg, g.states[i], |cfg.sys.actors|, a, j);
    var p := |ExpandActors(cfg, g.states[i], a)| + j;
    assert EdgeFits(cfg, g, g.edgeStart[i] + p, Expand(cfg, g.states[i])[p]);
    k := g.edgeStart[i] + p;
  }

  /** Expanding every node of a covering graph without dropping any covers one more level. */
  lemma {:induction false} CoversNext<S(!new)>(cfg: Config<S>, g: Graph<S>, g': Graph<S>, depth: nat)
    requires IdentityDecides(cfg.sys, cfg.exact)
    requires Covers(cfg, g, depth) && Settled(cfg, g') && g.states <= g'.states
    requires |g'.edgeStart| - 1 >= |g.states|
    requires !g'.truncated
    ensures Covers(cfg, g', depth + 1)
  {
    IdsGrow(cfg, g, g');
    forall s, n: nat | n <= depth + 1 && ReachableIn(cfg.sys, s, n) ensures cfg.Id(s) in Ids(cfg, g') {
      if n <= depth {
        assert cfg.Id(s) in Ids(cfg, g);
      } else {
        var a, t :| ReachableIn(cfg.sys, t, n - 1) && Steps(cfg.sys, a, t, s);
        assert cfg.Id(t) in Ids(cfg, g);
        var i :| 0 <= i < |g.states| && Ids(cfg, g)[i] == cfg.Id(t);
        assert RowOk(cfg, g', i);
        NodeIsReachable(cfg, g', i);
        var k := RowReachesSteps(cfg, g', i, a, t, s);
        assert Ids(cfg, g')[g'.edgeTo[k]] == cfg.Id(s);
      }
    }
  }

  /** Nodes added while expanding the last level of a covering graph lie exactly one deeper. */
  lemma {:induction false} NewNodesOneDeeper<S(!new)>(cfg: Config<S>, g: Graph<S>, g': Graph<S>, depth: nat, i: nat)
    requires AtLevel(cfg, g, depth) && Settled(cfg, g')
    requires Adds(g, g', |g.edgeStart| - 1, |g.states|)
    requires |g.states| <= i < |g'.states|
    ensures ParentsBelow(g'.parent) && Depth(g'.parent, i) == depth + 1
    ensures NotSooner(cfg, cfg.Id(g'.states[i]), depth + 1)
    ensures NearerHeld(cfg, g', depth + 1)
  {
    IdsGrow(cfg, g, g');
    InvParentsBelow(cfg, g');
    DepthOfPrefix(g.parent, g'.parent, g'.parent[i]);
    assert |g.states| < |g'.states| <= cfg.Limit();
    assert Covers(cfg, g, depth);
    forall s, n: nat | n < depth + 1 && ReachableIn(cfg.sys, s, n) ensures cfg.Id(s) != cfg.Id(g'.states[i]) {
      assert cfg.Id(s) in Ids(cfg, g);
      var k :| 0 <= k < |g.states| && Ids(cfg, g)[k] == cfg.Id(s);
      assert Ids(cfg, g')[k] == cfg.Id(s) && Ids(cfg, g')[k] != Ids(cfg, g')[i];
    }
  }

  lemma {:induction false} LevelStep<S(!new)>(cfg: Config<S>, g: Graph<S>, depth: nat)
    requires IdentityDecides(cfg.sys, cfg.exact)
    requires AtLevel(cfg, g, depth) && |g.edgeStart| - 1 < |g.states|
    ensures AtLevel(cfg, ExpandNodes(cfg, g, |g.states| - (|g.edgeStart| - 1)), depth + 1)
  {
    hide ExpandNodes, RowsOk, RowOk, Covers;
    var done := |g.edgeStart| - 1;
    var todo := |g.states| - done;
    var g' := ExpandNodes(cfg, g, todo);
    ExpandNodesKeeps(cfg, g, todo);
    ExpandNodesAdds(cfg, g, todo);
    DepthsAfterLevel(cfg, g, g', depth);
    assert |g'.states| < cfg.maxStates ==> !g'.truncated;
    if !g'.truncated {
      CoversNext(cfg, g, g', depth);
    }
  }

  lemma {:induction false} DepthsAfterLevel<S(!new)>(cfg: Config<S>, g: Graph<S>, g': Graph<S>, depth: nat)
    requires AtLevel(cfg, g, depth) && Settled(cfg, g') && |g'.edgeStart| - 1 == |g.states|
    requires Adds(g, g', |g.edgeStart| - 1, |g.states|)
    ensures DepthsExact(cfg, g')
    ensures forall i | 0 <= i < |g'.states| :: Depth(g'.parent, i) <= depth + 1
    ensures forall i | |g.states| <= i < |g'.states| :: Depth(g'.parent, i) == depth + 1
  {
    hide RowsOk, RowOk, Covers;
    InvParentsBelow(cfg, g');
    forall i | 0 <= i < |g'.states|
      ensures NotSooner(cfg, cfg.Id(g'.states[i]), Depth(g'.parent, i))
      ensures NearerHeld(cfg, g', Depth(g'.parent, i))
      ensures if i < |g.states| then Depth(g'.parent, i) == Depth(g.parent, i) <= depth
              else Depth(g'.parent, i) == depth + 1
    {
      if i < |g.states| {
        DepthOfPrefix(g.parent, g'.parent, i);
        IdsGrow(cfg, g, g');
        assert NearerHeld(cfg, g, Depth(g.parent, i));
        assert g'.states[i] == g.states[i];
      } else {
        NewNodesOneDeeper(cfg, g, g', depth, i);
      }
    }
  }

  // ----- The whole run -----

  /** One more root keeps a graph without rows settled. */
  lemma {:induction false} WithRootSettled<S>(cfg: Config<S>, g: Graph<S>, k: nat)
    requires Settled(cfg, g) && |g.roots| == |g.states| && g.edgeStart == [0]
    requires k < |cfg.sys.initial| && cfg.Id(cfg.sys.initial[k]) !in Ids(cfg, g)
    requires |g.states| < cfg.maxStates
    ensures var g' := WithNode(cfg, g, -1, -1, 0, cfg.sys.initial[k]).(roots := g.roots + [k]);
            Settled(cfg, g') && Ids(cfg, g') == Ids(cfg, g) + [cfg.Id(cfg.sys.initial[k])]
  {
    var g' := WithNode(cfg, g, -1, -1, 0, cfg.sys.initial[k]).(roots := g.roots + [k]);
    assert Ids(cfg, g') == Ids(cfg, g) + [cfg.Id(cfg.sys.initial[k])];
    forall i | 0 <= i < |g'.states| ensures NodeOk(cfg, g', i) {
      assert i < |g.states| ==> NodeOk(cfg, g, i);
    }
  }

  /** The first `n` initial states are held, unless one was refused. */
  ghost predicate RootsHeld<S>(cfg: Config<S>, g: Graph<S>, n: nat)
    requires n <= |cfg.sys.initial|
  {
    g.truncated || forall k | 0 <= k < n :: cfg.Id(cfg.sys.initial[k]) in Ids(cfg, g)
  }

  lemma {:induction false} AddRootKeeps<S>(cfg: Config<S>, g: Graph<S>, k: nat)
    requires k < |cfg.sys.initial| && g.edgeStart == [0]
    requires Settled(cfg, g) && |g.roots| == |g.states| && RootsHeld(cfg, g, k)
    ensures var g' := AddRoot(cfg, g, k);
            Settled(cfg, g') && |g'.roots| == |g'.states| && RootsHeld(cfg, g', k + 1)
  {
    if cfg.Id(cfg.sys.initial[k]) !in Ids(cfg, g) {
      if |g.states| < cfg.maxStates {
        WithRootSettled(cfg, g, k);
      } else {
        TruncatedSettled(cfg, g);
      }
    }
  }

  lemma {:induction false} InitialNodes<S>(cfg: Config<S>, n: nat)
    requires n <= |cfg.sys.initial|
    ensures var g := AddInitial(cfg, n);
            Settled(cfg, g) && |g.roots| == |g.states| && RootsHeld(cfg, g, n)
    decreases n
  {
    hide Settled, RootsHeld, AddRoot;
    if n == 0 {
      EmptyGraphSettled(cfg);
    } else {
      InitialNodes(cfg, n - 1);
      AddRootKeeps(cfg, AddInitial(cfg, n - 1), n - 1);
    }
  }

  lemma {:induction false} EmptyGraphSettled<S>(cfg: Config<S>)
    ensures Settled(cfg, EmptyGraph<S>()) && RootsHeld(cfg, EmptyGraph<S>(), 0)
  {
  }

  lemma {:induction false} TruncatedSettled<S>(cfg: Config<S>, g: Graph<S>)
    requires Settled(cfg, g) && |g.states| >= cfg.maxStates
    ensures Settled(cfg, g.(truncated := true))
  {
    var g' := g.(truncated := true);
    assert Ids(cfg, g') == Ids(cfg, g);
    NodesGrow(cfg, g, g', |g.states|);
    assert forall i | 0 <= i < |g.edgeStart| - 1 :: RowOk(cfg, g, i) ==> RowOk(cfg, g', i);
  }

  lemma {:induction false} InitialLevel<S(!new)>(cfg: Config<S>)
    ensures AtLevel(cfg, AddInitial(cfg, |cfg.sys.initial|), 0)
  {
    InitialNodes(cfg, |cfg.sys.initial|);
    var g := AddInitial(cfg, |cfg.sys.initial|);
    hide AddInitial, RowOk, MarksOk;
    InvParentsBelow(cfg, g);
    forall i | 0 <= i < |g.states| ensures Depth(g.parent, i) == 0 {
      assert NodeOk(cfg, g, i);
    }
    if !g.truncated {
      forall s, n: nat | n <= 0 && ReachableIn(cfg.sys, s, n) ensures cfg.Id(s) in Ids(cfg, g) {
        var k :| 0 <= k < |cfg.sys.initial| && cfg.sys.initial[k] == s;
      }
    }
  }

  /** What a finished search knows. */
  ghost predicate Finished<S(!new)>(cfg: Config<S>, g: Graph<S>) {
    && Shaped(g) && Inv(cfg, g) && DepthsExact(cfg, g)
    && |g.edgeStart| == |g.states| + 1 && g.edgeStart[|g.states|] == |g.edgeTo|
    && (forall i | 0 <= i < |g.states| :: g.unknown[i] ==> g.truncated)
    && (!g.truncated ==> forall s, n: nat :: ReachableIn(cfg.sys, s, n) ==> cfg.Id(s) in Ids(cfg, g))
  }

  lemma {:induction false} CutOffFinishes<S(!new)>(cfg: Config<S>, g: Graph<S>, depth: nat)
    requires AtLevel(cfg, g, depth)
    ensures Finished(cfg, CutOff(g))
  {
    var g' := CutOff(g);
    assert Grows(g, g', |g.edgeStart| - 1);
    assert Ids(cfg, g') == Ids(cfg, g);
    NodesGrow(cfg, g, g', |g.edgeStart| - 1);
    assert forall d: nat :: NearerHeld(cfg, g, d) ==> NearerHeld(cfg, g', d);
    forall i | 0 <= i < |g'.edgeStart| - 1 ensures RowOk(cfg, g', i) {
      if i < |g.edgeStart| - 1 {
        assert RowOk(cfg, g, i);
        RowFitsGrows(cfg, g, g', |g.edgeStart| - 1, i, g.edgeStart[i], g.edgeStart[i + 1],
                     |Expand(cfg, g.states[i])|);
      }
    }
  }

  /** A graph with no node left to expand is closed under steps. */
  lemma {:induction false} NothingLeftCoversAll<S(!new)>(cfg: Config<S>, g: Graph<S>, depth: nat, n: nat)
    requires IdentityDecides(cfg.sys, cfg.exact)
    requires AtLevel(cfg, g, depth) && |g.edgeStart| - 1 == |g.states| && !g.truncated
    ensures Covers(cfg, g, n)
    decreases n
  {
    if n <= depth {
      assert Covers(cfg, g, depth);
    } else {
      NothingLeftCoversAll(cfg, g, depth, n - 1);
      CoversNext(cfg, g, g, n - 1);
    }
  }

  lemma {:induction false} NothingLeftFinishes<S(!new)>(cfg: Config<S>, g: Graph<S>, depth: nat)
    requires IdentityDecides(cfg.sys, cfg.exact)
    requires AtLevel(cfg, g, depth) && |g.edgeStart| - 1 == |g.states|
    ensures Finished(cfg, g)
  {
    if !g.truncated {
      forall s, n: nat | ReachableIn(cfg.sys, s, n) ensures cfg.Id(s) in Ids(cfg, g) {
        NothingLeftCoversAll(cfg, g, depth, n);
      }
    }
  }

  lemma {:induction false} RunLevelsFinishes<S(!new)>(cfg: Config<S>, g: Graph<S>, depth: nat)
    requires IdentityDecides(cfg.sys, cfg.exact)
    requires Shaped(g) && |g.states| <= cfg.Limit() && AtLevel(cfg, g, depth)
    ensures Finished(cfg, RunLevels(cfg, g, depth))
    decreases cfg.Limit() + 1 - |g.edgeStart|
  {
    hide AtLevel, Finished, ExpandNodes, CutOff, IdentityDecides;
    var todo := |g.states| - (|g.edgeStart| - 1);
    if todo == 0 {
      NothingLeftFinishes(cfg, g, depth);
    } else if cfg.maxDepth > 0 && depth >= cfg.maxDepth {
      CutOffFinishes(cfg, g, depth);
    } else {
      LevelStep(cfg, g, depth);
      RunLevelsFinishes(cfg, ExpandNodes(cfg, g, todo), depth + 1);
    }
  }

  // ----- Main results -----

  /** Every exploration, bounded or not, finishes in a graph that is right about what it holds. */
  lemma {:induction false} ExplorationFinishes<S(!new)>(cfg: Config<S>)
    requires IdentityDecides(cfg.sys, cfg.exact)
    ensures Finished(cfg, Explored(cfg))
  {
    InitialLevel(cfg);
    RunLevelsFinishes(cfg, AddInitial(cfg, |cfg.sys.initial|), 0);
  }

  /**
   A node's parent chain is a shortest run to its state: some run of that length gets there
   and none shorter does, whatever bound cut the search.
   */
  lemma {:induction false} ShortestTraces<S(!new)>(cfg: Config<S>, i: nat)
    requires IdentityDecides(cfg.sys, cfg.exact)
    requires i < |Explored(cfg).states|
    ensures var g := Explored(cfg);
            && ParentsBelow(g.parent)
            && ReachableIn(cfg.sys, g.states[i], Depth(g.parent, i))
            && (forall s, n: nat :: ReachableIn(cfg.sys, s, n) && cfg.Id(s) == cfg.Id(g.states[i])
                 ==> Depth(g.parent, i) <= n)
            && forall j | i <= j < |g.states| :: Depth(g.parent, i) <= Depth(g.parent, j)
  {
    hide Explored, Finished;
    ExplorationFinishes(cfg);
    FinishedNodes(cfg, Explored(cfg));
    NodeIsReachable(cfg, Explored(cfg), i);
    FinishedDepths(cfg, Explored(cfg), i);
  }

  /** Some run of the system reaches a state with this identity. */
  ghost predicate Reached<S(!new)>(cfg: Config<S>, id: Ident) {
    exists s, n: nat :: ReachableIn(cfg.sys, s, n) && cfg.Id(s) == id
  }

  lemma {:induction false} FinishedNodes<S(!new)>(cfg: Config<S>, g: Graph<S>)
    requires Finished(cfg, g)
    ensures Shaped(g) && NodesOk(cfg, g) && Distinct(Ids(cfg, g))
  {
  }

  lemma {:induction false} FinishedDepths<S(!new)>(cfg: Config<S>, g: Graph<S>, i: nat)
    requires Finished(cfg, g) && i < |g.states|
    ensures Shaped(g) && ParentsBelow(g.parent)
    ensures forall s, n: nat :: ReachableIn(cfg.sys, s, n) && cfg.Id(s) == cfg.Id(g.states[i]) ==> Depth(g.parent, i) <= n
    ensures forall j | i <= j < |g.states| :: Depth(g.parent, i) <= Depth(g.parent, j)
  {
    hide Inv, NearerHeld;
    assert NotSooner(cfg, cfg.Id(g.states[i]), Depth(g.parent, i));
  }

  /** Without truncation the nodes are exactly the reachable identities, each held once. */
  lemma {:induction false} NodesAreTheReachableStates<S(!new)>(cfg: Config<S>)
    requires IdentityDecides(cfg.sys, cfg.exact)
    requires !Explored(cfg).truncated
    ensures Distinct(Ids(cfg, Explored(cfg)))
    ensures forall id :: id in Ids(cfg, Explored(cfg)) <==> Reached(cfg, id)
  {
    hide Inv, DepthsExact, Explored;
    ExplorationFinishes(cfg);
    var g := Explored(cfg);
    assert Inv(cfg, g) && NodesOk(cfg, g) by { FinishedNodes(cfg, g); }
    forall id ensures id in Ids(cfg, g) <==> Reached(cfg, id) {
      if id in Ids(cfg, g) {
        var i :| 0 <= i < |g.states| && Ids(cfg, g)[i] == id;
        NodeIsReachable(cfg, g, i);
        assert ReachableIn(cfg.sys, g.states[i], Depth(g.parent, i));
      }
    }
  }

  /**
   A node not marked unknown has one edge for each of its successors, in yield order, under
   the same label and to the node holding the successor's identity.
   */
  lemma {:induction false} RowsListSuccessors<S(!new)>(cfg: Config<S>, i: nat)
    requires IdentityDecides(cfg.sys, cfg.exact)
    requires i < |Explored(cfg).states|
    ensures var g := Explored(cfg);
            var succs := Expand(cfg, g.states[i]);
            && i + 1 < |g.edgeStart| && g.edgeStart[i] <= g.edgeStart[i + 1] <= |g.edgeTo|
            && (!g.truncated ==> !g.unknown[i])
            && (!g.unknown[i] ==>
                 && g.edgeStart[i + 1] - g.edgeStart[i] == |succs|
                 && forall j | 0 <= j < |succs| :: EdgeFits(cfg, g, g.edgeStart[i] + j, succs[j]))
  {
    ExplorationFinishes(cfg);
    assert RowOk(cfg, Explored(cfg), i);
  }
}
