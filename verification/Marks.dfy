/**
 What a bounded search gives up, said of the system alone: which nodes are marked unknown,
 when a search is truncated, what a row holds once a successor was refused, and in which
 order nodes are numbered (modelcheck/explore.go:164-291).
 */
module Marks {
  import opened Wrappers
  import opened Index
  import opened Systems
  import opened Search
  import opened Expansion
  import opened GraphInvariant
  import opened BreadthFirst

  // ----- What is said about a graph -----

  /** No room was left for the identity of some state one step from `s`. */
  ghost predicate Refused<S(!new)>(cfg: Config<S>, g: Graph<S>, s: S) {
    exists a, t :: Steps(cfg.sys, a, s, t) && cfg.Id(t) !in Ids(cfg, g)
  }

  /** Node `i` lies at the depth bound. */
  ghost predicate Waiting<S>(cfg: Config<S>, g: Graph<S>, i: nat)
    requires ParentsBelow(g.parent) && i < |g.parent|
  {
    cfg.maxDepth > 0 && Depth(g.parent, i) >= cfg.maxDepth
  }

  /** Some initial state is missing. */
  ghost predicate RootLost<S>(cfg: Config<S>, g: Graph<S>) {
    exists k | 0 <= k < |cfg.sys.initial| :: cfg.Id(cfg.sys.initial[k]) !in Ids(cfg, g)
  }

  ghost predicate SomeMark<S>(g: Graph<S>) {
    exists i :: 0 <= i < |g.unknown| && g.unknown[i]
  }

  /** The successors among the first `n` whose identities are held, in order. */
  ghost function HeldSuccs<S>(cfg: Config<S>, g: Graph<S>, succs: seq<Succ<S>>, n: nat): (held: seq<Succ<S>>)
    requires n <= |succs|
    ensures |held| <= n
  {
    if n == 0 then []
    else HeldSuccs(cfg, g, succs, n - 1) + if cfg.Id(succs[n - 1].state) in Ids(cfg, g) then [succs[n - 1]] else []
  }

  /** The edges from `lo` up to `hi` record the given successors one by one. */
  ghost predicate Records<S>(cfg: Config<S>, g: Graph<S>, lo: nat, hi: nat, succs: seq<Succ<S>>) {
    hi - lo == |succs| && forall j | 0 <= j < |succs| :: EdgeFits(cfg, g, lo + j, succs[j])
  }

  /** The edges from `lo` up to `hi` are those of the first `n` successors of `i` that are held. */
  ghost predicate RecordsHeld<S>(cfg: Config<S>, g: Graph<S>, i: nat, lo: nat, hi: nat, n: nat)
    requires i < |g.states|
  {
    n <= |Expand(cfg, g.states[i])| && Records(cfg, g, lo, hi, HeldSuccs(cfg, g, Expand(cfg, g.states[i]), n))
  }

  lemma {:induction false} AllHeld<S>(cfg: Config<S>, g: Graph<S>, succs: seq<Succ<S>>, n: nat)
    requires n <= |succs| && forall j | 0 <= j < n :: cfg.Id(succs[j].state) in Ids(cfg, g)
    ensures HeldSuccs(cfg, g, succs, n) == succs[..n]
    decreases n
  {
    if n > 0 {
      AllHeld(cfg, g, succs, n - 1);
    }
  }

  lemma {:induction false} SameHeld<S>(cfg: Config<S>, g: Graph<S>, g': Graph<S>, succs: seq<Succ<S>>, n: nat)
    requires n <= |succs| && g.states == g'.states
    ensures HeldSuccs(cfg, g, succs, n) == HeldSuccs(cfg, g', succs, n)
    decreases n
  {
    if n > 0 {
      SameHeld(cfg, g, g', succs, n - 1);
      assert Ids(cfg, g) == Ids(cfg, g');
    }
  }

  /** How node `i` was first met: by edge `k` of its parent's row, all earlier edges lead to earlier nodes. */
  ghost predicate MetBy<S>(g: Graph<S>, i: nat, k: nat) {
    && i < |g.parent| && i < |g.via| && k < |g.edgeTo| && k < |g.edgeLabel|
    && 0 <= g.parent[i] < |g.edgeStart|
    && g.edgeStart[g.parent[i]] <= k && (g.parent[i] + 1 < |g.edgeStart| ==> k < g.edgeStart[g.parent[i] + 1])
    && g.edgeTo[k] == i && g.edgeLabel[k] == g.via[i]
    && forall k' | 0 <= k' < k :: g.edgeTo[k'] < i
  }

  ghost predicate Met<S>(g: Graph<S>, i: nat) {
    exists k: nat :: MetBy(g, i, k)
  }

  // ----- One merge step -----

  /** Marks have their reason, and rows of marked nodes hold what was not refused. */
  ghost predicate MarksMean<S(!new)>(cfg: Config<S>, g: Graph<S>)
    requires Shaped(g)
  {
    LossShown(cfg, g) && AllMet(g)
  }

  /** Nothing is given up without a trace of it. */
  ghost predicate LossShown<S(!new)>(cfg: Config<S>, g: Graph<S>)
    requires Shaped(g)
  {
    && (forall i | 0 <= i < |g.states| :: g.unknown[i] ==> Refused(cfg, g, g.states[i]))
    && (forall i | 0 <= i < |g.edgeStart| - 1 :: g.unknown[i] ==>
          RecordsHeld(cfg, g, i, g.edgeStart[i], g.edgeStart[i + 1], |Expand(cfg, g.states[i])|))
    && (g.truncated ==> RootLost(cfg, g) || SomeMark(g))
  }

  /** Every node that is no root is numbered where it was first met. */
  ghost predicate AllMet<S>(g: Graph<S>)
    requires Shaped(g)
  {
    forall i | |g.roots| <= i < |g.states| :: Met(g, i)
  }

  /** The open row, after `n` successors. */
  ghost predicate OpenRow<S>(cfg: Config<S>, g: Graph<S>, n: nat)
    requires Shaped(g) && |g.edgeStart| - 1 < |g.states|
  {
    var from := |g.edgeStart| - 1;
    g.unknown[from] ==> RecordsHeld(cfg, g, from, g.edgeStart[from], |g.edgeTo|, n)
  }

  lemma {:induction false} MetGrows<S>(cfg: Config<S>, g: Graph<S>, g': Graph<S>, i: nat, from: nat)
    requires Inv(cfg, g) && Grows(g, g', from) && i < |g.states| && Met(g, i)
    requires g'.edgeStart == g.edgeStart || g'.edgeStart == g.edgeStart + [|g.edgeTo|]
    ensures Met(g', i)
  {
    hide RowsOk, NodesOk;
    var k: nat :| MetBy(g, i, k);
    assert MetBy(g', i, k);
  }

  lemma {:induction false} MergeOneMeets<S>(cfg: Config<S>, g: Graph<S>, n: nat)
    requires Merging(cfg, g, n)
    requires n < |Expand(cfg, g.states[|g.edgeStart| - 1])|
    requires AllMet(g)
    ensures var from := |g.edgeStart| - 1;
            AllMet(MergeOne(cfg, g, from, Expand(cfg, g.states[from]), n))
  {
    hide Expand, ExpandActors, RowFits, RowOk, Met, MarksOk;
    var from := |g.edgeStart| - 1;
    var succs := Expand(cfg, g.states[from]);
    var g' := MergeOne(cfg, g, from, succs, n);
    MergeOneGrows(cfg, g, from, succs, n);
    forall i | |g'.roots| <= i < |g'.states| ensures Met(g', i) {
      if i < |g.states| {
        MetGrows(cfg, g, g', i, from);
      } else {
        NewlyMet(cfg, g, from, succs, n);
      }
    }
  }

  lemma {:induction false} NewlyMet<S>(cfg: Config<S>, g: Graph<S>, from: nat, succs: seq<Succ<S>>, n: nat)
    requires Shaped(g) && InRange(cfg, g) && from == |g.edgeStart| - 1 && g.edgeStart[from] <= |g.edgeTo|
    requires from < |g.states| && n < |succs|
    ensures var g' := MergeOne(cfg, g, from, succs, n);
            |g'.states| > |g.states| ==> Met(g', |g.states|)
  {
    var g' := MergeOne(cfg, g, from, succs, n);
    if |g'.states| > |g.states| {
      assert MetBy(g', |g.states|, |g.edgeTo|);
    }
  }

  /** With room left nothing is marked yet; without, nothing is added any more. */
  lemma {:induction false} MergeOneMarksMean<S(!new)>(cfg: Config<S>, g: Graph<S>, n: nat)
    requires Merging(cfg, g, n) && MarksMean(cfg, g) && OpenRow(cfg, g, n)
    requires n < |Expand(cfg, g.states[|g.edgeStart| - 1])|
    ensures var from := |g.edgeStart| - 1;
            var g' := MergeOne(cfg, g, from, Expand(cfg, g.states[from]), n);
            MarksMean(cfg, g') && OpenRow(cfg, g', n + 1)
  {
    hide MergeOne, NodesOk, RowsOk, RowFits, Refused, RecordsHeld, Met, RootLost, Expand;
    var from := |g.edgeStart| - 1;
    var succs := Expand(cfg, g.states[from]);
    var g' := MergeOne(cfg, g, from, succs, n);
    MergeOneMeets(cfg, g, n);
    MergeOneGrows(cfg, g, from, succs, n);
    if |g.states| < cfg.maxStates {
      MergeOneUnmarked(cfg, g, from, n);
    } else {
      MergeOneFull(cfg, g, n);
    }
  }

  lemma {:induction false} MergeOneUnmarked<S>(cfg: Config<S>, g: Graph<S>, from: nat, n: nat)
    requires Shaped(g) && from < |g.states| && n < |Expand(cfg, g.states[from])|
    requires |g.states| < cfg.maxStates && !g.truncated && forall i | 0 <= i < |g.states| :: !g.unknown[i]
    ensures var g' := MergeOne(cfg, g, from, Expand(cfg, g.states[from]), n);
            !g'.truncated && forall i | 0 <= i < |g'.states| :: !g'.unknown[i]
  {
  }

  lemma {:induction false} MergeOneFull<S(!new)>(cfg: Config<S>, g: Graph<S>, n: nat)
    requires Merging(cfg, g, n) && MarksMean(cfg, g) && OpenRow(cfg, g, n)
    requires n < |Expand(cfg, g.states[|g.edgeStart| - 1])| && |g.states| >= cfg.maxStates
    ensures var from := |g.edgeStart| - 1;
            var g' := MergeOne(cfg, g, from, Expand(cfg, g.states[from]), n);
            LossShown(cfg, g') && OpenRow(cfg, g', n + 1)
  {
    hide MergeOne, NodeOk, InRange, RowsOk, RowFits, RecordsHeld, Met, Expand;
    var from := |g.edgeStart| - 1;
    var succs := Expand(cfg, g.states[from]);
    var g' := MergeOne(cfg, g, from, succs, n);
    MergeOneGrows(cfg, g, from, succs, n);
    MergeOneWhenFull(cfg, g, from, n);
    assert Ids(cfg, g') == Ids(cfg, g);
    FullOpenRow(cfg, g, n);
    forall i | 0 <= i < |g'.edgeStart| - 1 && g'.unknown[i]
      ensures RecordsHeld(cfg, g', i, g'.edgeStart[i], g'.edgeStart[i + 1], |Expand(cfg, g'.states[i])|)
    {
      RecordsStay(cfg, g, g', from, i, g.edgeStart[i], g.edgeStart[i + 1], |Expand(cfg, g.states[i])|);
    }
    if g'.unknown[from] && !g.unknown[from] {
      SuccIffStep(cfg, g.states[from], succs[n].actor, succs[n].state);
      assert Refused(cfg, g', g'.states[from]);
    }
    MarksFull(cfg, g, g', from);
  }

  lemma {:induction false} MarksFull<S>(cfg: Config<S>, g: Graph<S>, g': Graph<S>, from: nat)
    requires Grows(g, g', from) && g'.states == g.states && from < |g.states|
    requires g'.unknown == g.unknown[from := g'.unknown[from]] && (g.unknown[from] ==> g'.unknown[from])
    requires g'.truncated ==> g.truncated || g'.unknown[from]
    requires g.truncated ==> RootLost(cfg, g) || SomeMark(g)
    ensures g'.truncated ==> RootLost(cfg, g') || SomeMark(g')
  {
    assert Ids(cfg, g') == Ids(cfg, g);
    if g'.truncated && !RootLost(cfg, g') && !g'.unknown[from] {
      var i :| 0 <= i < |g.unknown| && g.unknown[i];
      assert g'.unknown[i];
    }
  }

  /** In a full graph the merge records a successor that is held and marks the node for one that is not. */
  lemma {:induction false} MergeOneWhenFull<S>(cfg: Config<S>, g: Graph<S>, from: nat, n: nat)
    requires Shaped(g) && from < |g.states| && n < |Expand(cfg, g.states[from])| && Distinct(g.labels)
    requires |g.states| >= cfg.maxStates
    ensures var succs := Expand(cfg, g.states[from]);
            var g' := MergeOne(cfg, g, from, succs, n);
            && g'.states == g.states && g'.roots == g.roots
            && g'.unknown == g.unknown[from := g'.unknown[from]]
            && (if cfg.Id(succs[n].state) in Ids(cfg, g) then
                  && g'.unknown == g.unknown && g'.truncated == g.truncated
                  && |g'.edgeTo| == |g.edgeTo| + 1 && EdgeFits(cfg, g', |g.edgeTo|, succs[n])
                else g'.unknown[from] && g'.edgeTo == g.edgeTo && g'.truncated)
  {
    MergeOneLabels(cfg, g, from, Expand(cfg, g.states[from]), n);
  }

  lemma {:induction false} RecordsStay<S>(cfg: Config<S>, g: Graph<S>, g': Graph<S>, from: nat, i: nat, lo: nat, hi: nat, n: nat)
    requires Grows(g, g', from) && g'.states == g.states && i < |g.states|
    requires RecordsHeld(cfg, g, i, lo, hi, n)
    ensures RecordsHeld(cfg, g', i, lo, hi, n)
  {
    SameHeld(cfg, g, g', Expand(cfg, g.states[i]), n);
  }

  lemma {:induction false} FullOpenRow<S>(cfg: Config<S>, g: Graph<S>, n: nat)
    requires Merging(cfg, g, n) && OpenRow(cfg, g, n)
    requires n < |Expand(cfg, g.states[|g.edgeStart| - 1])| && |g.states| >= cfg.maxStates
    ensures var from := |g.edgeStart| - 1;
            var g' := MergeOne(cfg, g, from, Expand(cfg, g.states[from]), n);
            OpenRow(cfg, g', n + 1)
  {
    hide MergeOne, RowsOk, Expand, EdgeFits, MarksOk;
    var from := |g.edgeStart| - 1;
    var lo := g.edgeStart[from];
    var succs := Expand(cfg, g.states[from]);
    var g' := MergeOne(cfg, g, from, succs, n);
    MergeOneGrows(cfg, g, from, succs, n);
    MergeOneWhenFull(cfg, g, from, n);
    if g'.unknown[from] {
      if !g.unknown[from] {
        UnmarkedRecords(cfg, g, from, lo, |g.edgeTo|, n);
      }
      RecordsStay(cfg, g, g', from, from, lo, |g.edgeTo|, n);
      assert Ids(cfg, g') == Ids(cfg, g);
    }
  }

  /** An unmarked row records every successor, and all of them are held. */
  lemma {:induction false} UnmarkedRecords<S>(cfg: Config<S>, g: Graph<S>, i: nat, lo: nat, hi: nat, n: nat)
    requires Shaped(g) && i < |g.states| && !g.unknown[i] && RowFits(cfg, g, i, lo, hi, n)
    ensures RecordsHeld(cfg, g, i, lo, hi, n)
    ensures forall j | 0 <= j < n :: cfg.Id(Expand(cfg, g.states[i])[j].state) in Ids(cfg, g)
  {
    hide Expand;
    var succs := Expand(cfg, g.states[i]);
    forall j | 0 <= j < n ensures cfg.Id(succs[j].state) in Ids(cfg, g) {
      assert EdgeFits(cfg, g, lo + j, succs[j]);
      assert Ids(cfg, g)[g.edgeTo[lo + j]] == cfg.Id(succs[j].state);
    }
    AllHeld(cfg, g, succs, n);
  }

  // ----- Expanding nodes -----

  /** During the expansion of node `from`, whose successors are `succs`. */
  ghost predicate MergingMarks<S(!new)>(cfg: Config<S>, g: Graph<S>, from: nat, succs: seq<Succ<S>>, n: nat) {
    && Merging(cfg, g, n) && from == |g.edgeStart| - 1 && Expand(cfg, g.states[from]) == succs
    && MarksMean(cfg, g) && OpenRow(cfg, g, n)
  }

  lemma {:induction false} MergeOneKeepsMarks<S(!new)>(cfg: Config<S>, g: Graph<S>, from: nat, succs: seq<Succ<S>>, n: nat)
    requires Shaped(g) && from < |g.states| && n < |succs| && MergingMarks(cfg, g, from, succs, n)
    ensures MergingMarks(cfg, MergeOne(cfg, g, from, succs, n), from, succs, n + 1)
  {
    hide MergeOne, Inv, MarksOk, RowFits, MarksMean, OpenRow, Expand;
    MergeOneKeeps(cfg, g, n);
    MergeOneMarksMean(cfg, g, n);
    MergeOneGrows(cfg, g, from, succs, n);
  }

  lemma {:induction false} MergeFirstMarks<S(!new)>(cfg: Config<S>, g: Graph<S>, from: nat, succs: seq<Succ<S>>, n: nat)
    requires Shaped(g) && from < |g.states| && n <= |succs| && MergingMarks(cfg, g, from, succs, 0)
    ensures MergingMarks(cfg, MergeFirst(cfg, g, from, succs, n), from, succs, n)
    decreases n
  {
    hide MergeOne, MergingMarks;
    if n > 0 {
      MergeFirstMarks(cfg, g, from, succs, n - 1);
      MergeOneKeepsMarks(cfg, MergeFirst(cfg, g, from, succs, n - 1), from, succs, n - 1);
    }
  }

  lemma {:induction false} CloseRowMarksMean<S(!new)>(cfg: Config<S>, g: Graph<S>)
    requires Shaped(g) && Inv(cfg, g) && |g.edgeStart| - 1 < |g.states|
    requires MarksMean(cfg, g) && OpenRow(cfg, g, |Expand(cfg, g.states[|g.edgeStart| - 1])|)
    ensures Shaped(CloseRow(g)) && MarksMean(cfg, CloseRow(g))
  {
    hide NodesOk, RowsOk, Met, Expand, RootLost, SomeMark;
    var g' := CloseRow(g);
    var from := |g.edgeStart| - 1;
    assert Grows(g, g', |g.states|);
    assert Ids(cfg, g') == Ids(cfg, g);
    forall i | |g'.roots| <= i < |g'.states| ensures Met(g', i) {
      MetGrows(cfg, g, g', i, |g.states|);
    }
    forall i | 0 <= i < |g'.edgeStart| - 1 && g'.unknown[i]
      ensures RecordsHeld(cfg, g', i, g'.edgeStart[i], g'.edgeStart[i + 1], |Expand(cfg, g'.states[i])|)
    {
      RecordsStay(cfg, g, g', |g.states|, i, g'.edgeStart[i], g'.edgeStart[i + 1], |Expand(cfg, g.states[i])|);
    }
    RootLostSame(cfg, g, g');
    SomeMarkSame(g, g');
  }

  lemma {:induction false} RootLostSame<S>(cfg: Config<S>, g: Graph<S>, g': Graph<S>)
    requires g.states == g'.states
    ensures RootLost(cfg, g) == RootLost(cfg, g')
  {
    assert Ids(cfg, g') == Ids(cfg, g);
  }

  lemma {:induction false} SomeMarkSame<S>(g: Graph<S>, g': Graph<S>)
    requires g.unknown == g'.unknown
    ensures SomeMark(g) == SomeMark(g')
  {
  }

  lemma {:induction false} ExpandNodeMarksMean<S(!new)>(cfg: Config<S>, g: Graph<S>)
    requires Settled(cfg, g) && |g.edgeStart| - 1 < |g.states| && MarksMean(cfg, g)
    ensures MarksMean(cfg, ExpandNode(cfg, g, |g.edgeStart| - 1))
  {
    hide Inv, MarksOk, MarksMean, MergingMarks, Expand, MergeFirst;
    var from := |g.edgeStart| - 1;
    var succs := Expand(cfg, g.states[from]);
    StartsMerging(cfg, g);
    MergeFirstMarks(cfg, g, from, succs, |succs|);
    MergedMarks(cfg, MergeFirst(cfg, g, from, succs, |succs|), from, succs);
  }

  lemma {:induction false} StartsMerging<S(!new)>(cfg: Config<S>, g: Graph<S>)
    requires Settled(cfg, g) && |g.edgeStart| - 1 < |g.states| && MarksMean(cfg, g)
    ensures var from := |g.edgeStart| - 1; MergingMarks(cfg, g, from, Expand(cfg, g.states[from]), 0)
  {
    hide RowsOk, NodesOk, MarksMean, Expand;
    assert Merging(cfg, g, 0);
    assert OpenRow(cfg, g, 0);
  }

  lemma {:induction false} MergedMarks<S(!new)>(cfg: Config<S>, g: Graph<S>, from: nat, succs: seq<Succ<S>>)
    requires Shaped(g) && from < |g.states| && MergingMarks(cfg, g, from, succs, |succs|)
    ensures Shaped(CloseRow(g)) && MarksMean(cfg, CloseRow(g))
  {
    hide NodesOk, RowsOk, MarksOk, RowFits, MarksMean, OpenRow, Expand;
    CloseRowMarksMean(cfg, g);
  }

  lemma {:induction false} ExpandNodesMarksMean<S(!new)>(cfg: Config<S>, g: Graph<S>, n: nat)
    requires Settled(cfg, g) && |g.edgeStart| - 1 + n <= |g.states| && MarksMean(cfg, g)
    ensures Settled(cfg, ExpandNodes(cfg, g, n)) && MarksMean(cfg, ExpandNodes(cfg, g, n))
    decreases n
  {
    hide Inv, MarksOk, MarksMean, ExpandNode;
    ExpandNodesKeeps(cfg, g, n);
    if n > 0 {
      ExpandNodesMarksMean(cfg, g, n - 1);
      ExpandNodeMarksMean(cfg, ExpandNodes(cfg, g, n - 1));
    }
  }

  // ----- Roots -----

  /** Among the initial states looked at so far, `k` is the first with its identity. */
  ghost predicate FirstOfItsKind<S>(cfg: Config<S>, k: nat)
    requires k < |cfg.sys.initial|
  {
    forall j | 0 <= j < k :: cfg.Id(cfg.sys.initial[j]) != cfg.Id(cfg.sys.initial[k])
  }

  /** The roots are the first initial states of each identity, in order, as long as there was room. */
  ghost predicate RootsFirst<S>(cfg: Config<S>, g: Graph<S>, n: nat)
    requires n <= |cfg.sys.initial|
  {
    && (forall i, j | 0 <= i < j < |g.roots| :: g.roots[i] < g.roots[j])
    && (forall i | 0 <= i < |g.roots| :: g.roots[i] < n)
    && (forall k: nat | k < n :: k in g.roots <==> cfg.Id(cfg.sys.initial[k]) in Ids(cfg, g) && FirstOfItsKind(cfg, k))
    && (forall k: nat | k < n :: cfg.Id(cfg.sys.initial[k]) in Ids(cfg, g) || |g.states| >= cfg.maxStates)
  }

  /** Every root stands for an initial state looked at. */
  ghost predicate AllRoots<S>(cfg: Config<S>, g: Graph<S>, n: nat)
    requires n <= |cfg.sys.initial|
  {
    forall id :: id in Ids(cfg, g) ==> exists k :: 0 <= k < n && cfg.Id(cfg.sys.initial[k]) == id
  }

  /** A graph of initial states only. */
  ghost predicate OnlyRoots<S>(cfg: Config<S>, g: Graph<S>, n: nat)
    requires n <= |cfg.sys.initial|
  {
    && RootsFirst(cfg, g, n) && AllRoots(cfg, g, n) && Shaped(g)
    && |g.roots| == |g.states|
    && (forall i | 0 <= i < |g.states| :: !g.unknown[i])
    && (g.truncated ==> RootLost(cfg, g) && |g.states| >= cfg.maxStates)
  }

  lemma {:induction false} AddRootOnlyRoots<S>(cfg: Config<S>, g: Graph<S>, k: nat)
    requires k < |cfg.sys.initial| && Shaped(g) && OnlyRoots(cfg, g, k)
    ensures OnlyRoots(cfg, AddRoot(cfg, g, k), k + 1)
  {
    hide RootsFirst, AllRoots;
    var g' := AddRoot(cfg, g, k);
    var s := cfg.sys.initial[k];
    if cfg.Id(s) in Ids(cfg, g) {
      KnownRoot(cfg, g, k);
    } else if |g.states| >= cfg.maxStates {
      RefusedRoot(cfg, g, g', k);
    } else {
      hide RootLost;
      assert Ids(cfg, g') == Ids(cfg, g) + [cfg.Id(s)];
      NewRoot(cfg, g, g', k);
    }
  }

  lemma {:induction false} RefusedRoot<S>(cfg: Config<S>, g: Graph<S>, g': Graph<S>, k: nat)
    requires k < |cfg.sys.initial| && RootsFirst(cfg, g, k) && AllRoots(cfg, g, k)
    requires cfg.Id(cfg.sys.initial[k]) !in Ids(cfg, g) && |g.states| >= cfg.maxStates
    requires g'.states == g.states && g'.roots == g.roots
    ensures RootsFirst(cfg, g', k + 1) && AllRoots(cfg, g', k + 1) && RootLost(cfg, g')
  {
    assert Ids(cfg, g') == Ids(cfg, g);
  }

  lemma {:induction false} EmptyOnlyRoots<S>(cfg: Config<S>)
    ensures OnlyRoots(cfg, EmptyGraph<S>(), 0)
  {
  }

  lemma {:induction false} InitialOnlyRoots<S>(cfg: Config<S>, n: nat)
    requires n <= |cfg.sys.initial|
    ensures OnlyRoots(cfg, AddInitial(cfg, n), n)
    decreases n
  {
    hide OnlyRoots, AddRoot;
    if n == 0 {
      EmptyOnlyRoots(cfg);
    } else {
      InitialOnlyRoots(cfg, n - 1);
      AddRootOnlyRoots(cfg, AddInitial(cfg, n - 1), n - 1);
    }
  }

  lemma {:induction false} KnownRoot<S>(cfg: Config<S>, g: Graph<S>, k: nat)
    requires k < |cfg.sys.initial| && RootsFirst(cfg, g, k) && AllRoots(cfg, g, k)
    requires cfg.Id(cfg.sys.initial[k]) in Ids(cfg, g)
    ensures RootsFirst(cfg, g, k + 1) && AllRoots(cfg, g, k + 1)
  {
    hide RootsFirst, FirstOfItsKind;
    NotFirst(cfg, g, k);
    NoRootAdded(cfg, g, k);
    forall id | id in Ids(cfg, g) ensures exists j :: 0 <= j < k + 1 && cfg.Id(cfg.sys.initial[j]) == id {
      var j :| 0 <= j < k && cfg.Id(cfg.sys.initial[j]) == id;
    }
  }

  lemma {:induction false} NoRootAdded<S>(cfg: Config<S>, g: Graph<S>, k: nat)
    requires k < |cfg.sys.initial| && RootsFirst(cfg, g, k)
    requires cfg.Id(cfg.sys.initial[k]) in Ids(cfg, g) && !FirstOfItsKind(cfg, k)
    ensures RootsFirst(cfg, g, k + 1)
  {
    hide FirstOfItsKind, Ids;
    assert k !in g.roots;
  }

  lemma {:induction false} NotFirst<S>(cfg: Config<S>, g: Graph<S>, k: nat)
    requires k < |cfg.sys.initial| && AllRoots(cfg, g, k) && cfg.Id(cfg.sys.initial[k]) in Ids(cfg, g)
    ensures !FirstOfItsKind(cfg, k)
  {
    var j :| 0 <= j < k && cfg.Id(cfg.sys.initial[j]) == cfg.Id(cfg.sys.initial[k]);
  }

  lemma {:induction false} NewRoot<S>(cfg: Config<S>, g: Graph<S>, g': Graph<S>, k: nat)
    requires k < |cfg.sys.initial| && RootsFirst(cfg, g, k) && AllRoots(cfg, g, k)
    requires cfg.Id(cfg.sys.initial[k]) !in Ids(cfg, g) && |g.states| < cfg.maxStates
    requires Ids(cfg, g') == Ids(cfg, g) + [cfg.Id(cfg.sys.initial[k])] && g'.roots == g.roots + [k]
    ensures RootsFirst(cfg, g', k + 1) && AllRoots(cfg, g', k + 1)
  {
  }

  /** A full graph takes no more states, so roots once refused stay refused. */
  lemma {:induction false} RootsStayFirst<S>(cfg: Config<S>, g: Graph<S>, g': Graph<S>, n: nat)
    requires n <= |cfg.sys.initial| && RootsFirst(cfg, g, n)
    requires g.states <= g'.states && g'.roots == g.roots && |g'.states| <= cfg.Limit()
    ensures RootsFirst(cfg, g', n)
  {
    IdsGrow(cfg, g, g');
    if |g.states| >= cfg.maxStates {
      assert g'.states == g.states;
      assert Ids(cfg, g') == Ids(cfg, g);
    }
  }

  // ----- The whole run -----

  /** What a level adds to what is known of levels. */
  ghost predicate LevelMarks<S(!new)>(cfg: Config<S>, g: Graph<S>, depth: nat)
    requires Shaped(g) && ParentsBelow(g.parent)
  {
    && MarksMean(cfg, g) && RootsFirst(cfg, g, |cfg.sys.initial|)
    && (cfg.maxDepth > 0 ==> depth <= cfg.maxDepth)
    && forall i | 0 <= i < |g.edgeStart| - 1 && i < |g.states| :: Depth(g.parent, i) < depth
  }

  /** With room left, every state a run within the depth bound reaches is held. */
  ghost predicate HoldsWithin<S(!new)>(cfg: Config<S>, g: Graph<S>) {
    |g.states| < cfg.maxStates ==>
      forall s, n: nat :: ReachableIn(cfg.sys, s, n) && (cfg.maxDepth > 0 ==> n <= cfg.maxDepth) ==> cfg.Id(s) in Ids(cfg, g)
  }

  /** What a finished search gave up, and what its rows and numbers are. */
  ghost predicate MarksExact<S(!new)>(cfg: Config<S>, g: Graph<S>)
    requires Shaped(g) && ParentsBelow(g.parent) && |g.edgeStart| == |g.states| + 1
  {
    && (forall i | 0 <= i < |g.states| :: NodeMark(cfg, g, i))
    && (g.truncated <==> RootLost(cfg, g) || SomeMark(g))
    && RootsFirst(cfg, g, |cfg.sys.initial|) && AllMet(g)
  }

  /**
   Node `i` is marked if it lies at the depth bound or had a successor refused for want of
   room, and not otherwise. At the bound its row is empty, above it holds what was not refused.
   */
  ghost predicate NodeMark<S(!new)>(cfg: Config<S>, g: Graph<S>, i: nat)
    requires Shaped(g) && ParentsBelow(g.parent) && i < |g.states| && i + 1 < |g.edgeStart|
  {
    && (g.unknown[i] <==> Waiting(cfg, g, i) || Refused(cfg, g, g.states[i]))
    && (if Waiting(cfg, g, i) then g.edgeStart[i + 1] == g.edgeStart[i] && Depth(g.parent, i) == cfg.maxDepth
        else
          && RecordsHeld(cfg, g, i, g.edgeStart[i], g.edgeStart[i + 1], |Expand(cfg, g.states[i])|)
          && (Refused(cfg, g, g.states[i]) ==> |g.states| >= cfg.maxStates))
  }

  lemma {:induction false} InitialLevelMarks<S(!new)>(cfg: Config<S>)
    ensures var g := AddInitial(cfg, |cfg.sys.initial|);
            AtLevel(cfg, g, 0) && LevelMarks(cfg, g, 0)
  {
    InitialLevel(cfg);
    InitialOnlyRoots(cfg, |cfg.sys.initial|);
    var g := AddInitial(cfg, |cfg.sys.initial|);
    hide AddInitial, Settled, RootLost;
    assert MarksMean(cfg, g);
  }

  lemma {:induction false} LevelStepMarks<S(!new)>(cfg: Config<S>, g: Graph<S>, depth: nat)
    requires IdentityDecides(cfg.sys, cfg.exact)
    requires AtLevel(cfg, g, depth) && LevelMarks(cfg, g, depth) && |g.edgeStart| - 1 < |g.states|
    requires cfg.maxDepth <= 0 || depth < cfg.maxDepth
    ensures var g' := ExpandNodes(cfg, g, |g.states| - (|g.edgeStart| - 1));
            AtLevel(cfg, g', depth + 1) && LevelMarks(cfg, g', depth + 1)
  {
    hide ExpandNodes, MarksMean, RootsFirst, RowsOk, RowOk, NodeOk, InRange, Covers;
    var done := |g.edgeStart| - 1;
    var todo := |g.states| - done;
    var g' := ExpandNodes(cfg, g, todo);
    LevelStep(cfg, g, depth);
    ExpandNodesMarksMean(cfg, g, todo);
    ExpandNodesAdds(cfg, g, todo);
    RootsStayFirst(cfg, g, g', |cfg.sys.initial|);
    forall i | 0 <= i < |g.states| ensures Depth(g'.parent, i) < depth + 1 {
      DepthOfPrefix(g.parent, g'.parent, i);
    }
  }

  lemma {:induction false} ClosedNodeMark<S(!new)>(cfg: Config<S>, g: Graph<S>, depth: nat, i: nat)
    requires AtLevel(cfg, g, depth) && LevelMarks(cfg, g, depth) && i < |g.edgeStart| - 1 && i < |g.states|
    ensures !Waiting(cfg, g, i) && NodeMark(cfg, g, i)
  {
    hide DepthsExact, RowFits, RecordsHeld, Covers, Expand, Refused;
    var lo, hi, n := g.edgeStart[i], g.edgeStart[i + 1], |Expand(cfg, g.states[i])|;
    assert RowOk(cfg, g, i);
    if !g.unknown[i] {
      UnmarkedRecords(cfg, g, i, lo, hi, n);
      NothingRefused(cfg, g, i);
    }
  }

  lemma {:induction false} NothingRefused<S(!new)>(cfg: Config<S>, g: Graph<S>, i: nat)
    requires i < |g.states|
    requires forall j | 0 <= j < |Expand(cfg, g.states[i])| :: cfg.Id(Expand(cfg, g.states[i])[j].state) in Ids(cfg, g)
    ensures !Refused(cfg, g, g.states[i])
  {
    hide Expand;
    if Refused(cfg, g, g.states[i]) {
      var a, t :| Steps(cfg.sys, a, g.states[i], t) && cfg.Id(t) !in Ids(cfg, g);
      SuccIffStep(cfg, g.states[i], a, t);
    }
  }

  /** At the depth bound every waiting node is marked and no other mark changes. */
  lemma {:induction false} CutOffMarks<S(!new)>(cfg: Config<S>, g: Graph<S>, depth: nat)
    requires AtLevel(cfg, g, depth) && LevelMarks(cfg, g, depth)
    requires cfg.maxDepth > 0 && depth >= cfg.maxDepth && |g.edgeStart| - 1 < |g.states|
    ensures var g' := CutOff(g);
            ParentsBelow(g'.parent) && |g'.edgeStart| == |g'.states| + 1 && MarksExact(cfg, g')
  {
    hide DepthsExact, NodeOk, InRange, RowsOk, Covers, RootLost, Refused, RecordsHeld, Met;
    var g' := CutOff(g);
    var done := |g.edgeStart| - 1;
    InvParentsBelow(cfg, g);
    assert Grows(g, g', done);
    assert Ids(cfg, g') == Ids(cfg, g);
    forall i | 0 <= i < |g'.states| ensures NodeMark(cfg, g', i) {
      if i < done {
        ClosedNodeMark(cfg, g, depth, i);
        NodeMarkStays(cfg, g, g', done, i);
      } else {
        assert Waiting(cfg, g', i);
      }
    }
    assert g'.unknown[done];
    forall i | |g'.roots| <= i < |g'.states| ensures Met(g', i) {
      CutOffMeets(cfg, g, i);
    }
    RootsStayFirst(cfg, g, g', |cfg.sys.initial|);
  }

  lemma {:induction false} CutOffMeets<S>(cfg: Config<S>, g: Graph<S>, i: nat)
    requires Settled(cfg, g) && i < |g.states| && Met(g, i) && |g.edgeStart| - 1 <= |g.states|
    ensures Met(CutOff(g), i)
  {
    hide NodesOk, RowsOk, MarksOk;
    var k: nat :| MetBy(g, i, k);
    assert MetBy(CutOff(g), i, k);
  }

  lemma {:induction false} NodeMarkStays<S(!new)>(cfg: Config<S>, g: Graph<S>, g': Graph<S>, done: nat, i: nat)
    requires Grows(g, g', done) && i < done && g'.states == g.states && g'.parent == g.parent
    requires ParentsBelow(g.parent) && i < |g.states| && i + 1 < |g.edgeStart|
    requires NodeMark(cfg, g, i) && !Waiting(cfg, g, i)
    ensures NodeMark(cfg, g', i)
  {
    hide RecordsHeld;
    assert Ids(cfg, g') == Ids(cfg, g);
    RecordsStay(cfg, g, g', done, i, g.edgeStart[i], g.edgeStart[i + 1], |Expand(cfg, g.states[i])|);
  }

  /** When nothing is left to expand no node lies at the bound. */
  lemma {:induction false} NothingLeftMarks<S(!new)>(cfg: Config<S>, g: Graph<S>, depth: nat)
    requires IdentityDecides(cfg.sys, cfg.exact)
    requires AtLevel(cfg, g, depth) && LevelMarks(cfg, g, depth) && |g.edgeStart| - 1 == |g.states|
    ensures MarksExact(cfg, g)
  {
    assert ParentsBelow(g.parent);
    hide DepthsExact, RowsOk, Covers, Refused, RecordsHeld, Met;
    forall i | 0 <= i < |g.states| ensures NodeMark(cfg, g, i) {
      ClosedNodeMark(cfg, g, depth, i);
    }
    if RootLost(cfg, g) {
      var k :| 0 <= k < |cfg.sys.initial| && cfg.Id(cfg.sys.initial[k]) !in Ids(cfg, g);
      NothingLeftFinishes(cfg, g, depth);
      assert ReachableIn(cfg.sys, cfg.sys.initial[k], 0);
    }
  }

  lemma {:induction false} NothingLeftHolds<S(!new)>(cfg: Config<S>, g: Graph<S>, depth: nat)
    requires IdentityDecides(cfg.sys, cfg.exact)
    requires AtLevel(cfg, g, depth) && |g.edgeStart| - 1 == |g.states|
    ensures HoldsWithin(cfg, g)
  {
    hide DepthsExact, Inv;
    if |g.states| < cfg.maxStates {
      NothingLeftFinishes(cfg, g, depth);
    }
  }

  lemma {:induction false} CutOffHolds<S(!new)>(cfg: Config<S>, g: Graph<S>, depth: nat)
    requires AtLevel(cfg, g, depth) && LevelMarks(cfg, g, depth)
    requires cfg.maxDepth > 0 && depth >= cfg.maxDepth
    ensures HoldsWithin(cfg, CutOff(g))
  {
    hide Inv, MarksOk, DepthsExact, MarksMean, RootsFirst;
    assert Ids(cfg, CutOff(g)) == Ids(cfg, g);
  }

  lemma {:induction false} RunLevelsMarks<S(!new)>(cfg: Config<S>, g: Graph<S>, depth: nat)
    requires IdentityDecides(cfg.sys, cfg.exact)
    requires Shaped(g) && |g.states| <= cfg.Limit() && AtLevel(cfg, g, depth) && LevelMarks(cfg, g, depth)
    ensures var g' := RunLevels(cfg, g, depth);
            && ParentsBelow(g'.parent) && |g'.edgeStart| == |g'.states| + 1
            && MarksExact(cfg, g') && HoldsWithin(cfg, g')
    decreases cfg.Limit() + 1 - |g.edgeStart|
  {
    hide LevelMarks, MarksExact, HoldsWithin, Settled, Covers, ExpandNodes, CutOff, IdentityDecides;
    var todo := |g.states| - (|g.edgeStart| - 1);
    if todo == 0 {
      NothingLeftMarks(cfg, g, depth);
      NothingLeftHolds(cfg, g, depth);
    } else if cfg.maxDepth > 0 && depth >= cfg.maxDepth {
      CutOffMarks(cfg, g, depth);
      CutOffHolds(cfg, g, depth);
    } else {
      LevelStepMarks(cfg, g, depth);
      RunLevelsMarks(cfg, ExpandNodes(cfg, g, todo), depth + 1);
    }
  }

  // ----- Main results -----

  /** Every exploration gives up exactly what its bounds make it give up. */
  lemma {:induction false} ExplorationMarks<S(!new)>(cfg: Config<S>)
    requires IdentityDecides(cfg.sys, cfg.exact)
    ensures var g := Explored(cfg);
            ParentsBelow(g.parent) && |g.edgeStart| == |g.states| + 1 && MarksExact(cfg, g) && HoldsWithin(cfg, g)
  {
    InitialLevelMarks(cfg);
    RunLevelsMarks(cfg, AddInitial(cfg, |cfg.sys.initial|), 0);
  }

  /**
   A node is marked unknown if and only if it lies at the depth bound, or some state one step
   away from it is not held. The latter happens above the bound only in a full graph.
   */
  lemma {:induction false} MarksAreExact<S(!new)>(cfg: Config<S>, i: nat)
    requires IdentityDecides(cfg.sys, cfg.exact) && i < |Explored(cfg).states|
    ensures var g := Explored(cfg);
            && ParentsBelow(g.parent)
            && var waiting := cfg.maxDepth > 0 && Depth(g.parent, i) >= cfg.maxDepth;
            && (g.unknown[i] <==> waiting || exists a, t :: Steps(cfg.sys, a, g.states[i], t) && cfg.Id(t) !in Ids(cfg, g))
            && (waiting ==> Depth(g.parent, i) == cfg.maxDepth)
            && (g.unknown[i] && !waiting ==> |g.states| >= cfg.maxStates)
  {
    hide Explored, RootsFirst, AllMet, RecordsHeld;
    ExplorationMarks(cfg);
    assert NodeMark(cfg, Explored(cfg), i);
  }

  /** A search is truncated if and only if an initial state is missing or some node is marked. */
  lemma {:induction false} TruncatedIffLost<S(!new)>(cfg: Config<S>)
    requires IdentityDecides(cfg.sys, cfg.exact)
    ensures var g := Explored(cfg);
            && (g.truncated <==>
                 || (exists k :: 0 <= k < |cfg.sys.initial| && cfg.Id(cfg.sys.initial[k]) !in Ids(cfg, g))
                 || (exists i :: 0 <= i < |g.states| && g.unknown[i]))
            && ((exists k :: 0 <= k < |cfg.sys.initial| && cfg.Id(cfg.sys.initial[k]) !in Ids(cfg, g))
                 ==> |g.states| >= cfg.maxStates)
            && |g.states| <= Max(cfg.maxStates, 0)
  {
    hide Explored, NodeMark, AllMet;
    ExplorationMarks(cfg);
  }

  /** The row of a node at the bound is empty; any other lists the successors that are held, in yield order. */
  lemma {:induction false} RowsListHeldSuccessors<S(!new)>(cfg: Config<S>, i: nat)
    requires IdentityDecides(cfg.sys, cfg.exact) && i < |Explored(cfg).states|
    ensures var g := Explored(cfg);
            && ParentsBelow(g.parent) && |g.edgeStart| == |g.states| + 1
            && var succs := Expand(cfg, g.states[i]);
            Records(cfg, g, g.edgeStart[i], g.edgeStart[i + 1],
                    if Waiting(cfg, g, i) then [] else HeldSuccs(cfg, g, succs, |succs|))
  {
    hide Explored, RootsFirst, AllMet, Refused, Expand;
    ExplorationMarks(cfg);
    assert NodeMark(cfg, Explored(cfg), i);
  }

  /**
   Numbers are given in the order of first appearance: roots are the first initial states of
   each identity that is held, in order, and any other node is the target of an edge in its
   parent's row, under the label that found it, before which every edge leads to a node with a
   smaller number.
   */
  lemma {:induction false} NumbersInOrderMet<S(!new)>(cfg: Config<S>)
    requires IdentityDecides(cfg.sys, cfg.exact)
    ensures var g := Explored(cfg);
            RootsFirst(cfg, g, |cfg.sys.initial|) && AllMet(g)
  {
    hide Explored, NodeMark, RootsFirst, AllMet;
    ExplorationMarks(cfg);
  }

  /**
   As long as the bound on states is not met, the search holds exactly the identities that runs
   within the depth bound reach.
   */
  lemma {:induction false} NodesAreTheStatesWithin<S(!new)>(cfg: Config<S>, id: Ident)
    requires IdentityDecides(cfg.sys, cfg.exact) && |Explored(cfg).states| < cfg.maxStates
    ensures id in Ids(cfg, Explored(cfg)) <==>
            exists s, n: nat :: ReachableIn(cfg.sys, s, n) && cfg.Id(s) == id && (cfg.maxDepth > 0 ==> n <= cfg.maxDepth)
  {
    hide Explored, RootsFirst, AllMet, RecordsHeld, Refused, Inv, DepthsExact;
    ExplorationMarks(cfg);
    ExplorationFinishes(cfg);
    var g := Explored(cfg);
    if id in Ids(cfg, g) {
      var i :| 0 <= i < |g.states| && Ids(cfg, g)[i] == id;
      assert Shaped(g) && NodesOk(cfg, g) by { FinishedNodes(cfg, g); }
      NodeIsReachable(cfg, g, i);
      assert NodeMark(cfg, g, i);
      assert ReachableIn(cfg.sys, g.states[i], Depth(g.parent, i)) && cfg.Id(g.states[i]) == id;
    }
  }
}
