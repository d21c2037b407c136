/**
 What every graph met during a search satisfies: nodes are told apart by identity, each
 non-root remembers a move of an earlier node that leads to it, and each closed edge row
 lists its node's successors.
 */
module GraphInvariant {
  import opened Wrappers
  import opened Index
  import opened Systems
  import opened Search
  import opened Expansion

  /** `g'` only adds to `g`; the unknown marks may also be raised at node `from` or later. */
  ghost predicate Grows<S>(g: Graph<S>, g': Graph<S>, from: nat) {
    && Shaped(g) && Shaped(g')
    && g.states <= g'.states && g.parent <= g'.parent && g.via <= g'.via && g.ordinal <= g'.ordinal
    && g.hash <= g'.hash && g.edgeLabel <= g'.edgeLabel && g.edgeTo <= g'.edgeTo
    && g.edgeStart <= g'.edgeStart && g.labels <= g'.labels && g.roots <= g'.roots
    && (g.truncated ==> g'.truncated)
    && (forall i | 0 <= i < |g.states| && i < from :: g.unknown[i] == g'.unknown[i])
  }

  /** How node `i` was found. */
  ghost predicate NodeOk<S>(cfg: Config<S>, g: Graph<S>, i: nat)
    requires Shaped(g) && i < |g.states|
  {
    if i < |g.roots| then
      && g.parent[i] == -1 && g.via[i] == -1
      && g.roots[i] < |cfg.sys.initial| && g.states[i] == cfg.sys.initial[g.roots[i]]
    else
      && 0 <= g.parent[i] < i && 0 <= g.via[i] < |g.labels|
      && Yields(cfg.sys, g.states[g.parent[i]], g.labels[g.via[i]], g.ordinal[i], g.states[i])
  }

  /** Edge `k` records successor `sc`. */
  ghost predicate EdgeFits<S>(cfg: Config<S>, g: Graph<S>, k: nat, sc: Succ<S>) {
    && Shaped(g) && k < |g.edgeTo|
    && g.edgeLabel[k] < |g.labels| && g.labels[g.edgeLabel[k]] == LabelOf(sc)
    && g.edgeTo[k] < |g.states| && cfg.Id(g.states[g.edgeTo[k]]) == cfg.Id(sc.state)
  }

  /** Edge `k` records one of the successors. */
  ghost predicate EdgeFitsOne<S>(cfg: Config<S>, g: Graph<S>, k: nat, succs: seq<Succ<S>>) {
    exists j | 0 <= j < |succs| :: EdgeFits(cfg, g, k, succs[j])
  }

  /**
   The edges from `lo` up to `hi` are the row of node `i` for the first `n` of its
   successors: all of them in yield order, or, once one was refused, some of them.
   */
  ghost predicate RowFits<S>(cfg: Config<S>, g: Graph<S>, i: nat, lo: nat, hi: nat, n: nat)
    requires Shaped(g) && i < |g.states|
  {
    var succs := Expand(cfg, g.states[i]);
    && lo <= hi <= |g.edgeTo| && n <= |succs|
    && if !g.unknown[i] then
         hi - lo == n && forall j | 0 <= j < n :: EdgeFits(cfg, g, lo + j, succs[j])
       else
         forall k | lo <= k < hi :: EdgeFitsOne(cfg, g, k, succs)
  }

  ghost predicate RowOk<S>(cfg: Config<S>, g: Graph<S>, i: nat)
    requires Shaped(g) && i < |g.edgeStart| - 1
  {
    RowFits(cfg, g, i, g.edgeStart[i], g.edgeStart[i + 1], |Expand(cfg, g.states[i])|)
  }

  ghost predicate NodesOk<S>(cfg: Config<S>, g: Graph<S>)
    requires Shaped(g)
  {
    && |g.states| <= cfg.Limit()
    && Distinct(Ids(cfg, g))
    && (forall i | 0 <= i < |g.states| :: g.hash[i] == cfg.Hash(g.states[i]))
    && (forall i | 0 <= i < |g.states| :: NodeOk(cfg, g, i))
    && Distinct(g.labels)
    && InRange(cfg, g)
  }

  /** Labels name actors of the system, and edges carry labels and lead to nodes of the graph. */
  ghost predicate InRange<S>(cfg: Config<S>, g: Graph<S>)
    requires Shaped(g)
  {
    && (forall id | 0 <= id < |g.labels| :: g.labels[id].actor < |cfg.sys.actors|)
    && forall k | 0 <= k < |g.edgeTo| :: g.edgeTo[k] < |g.states| && g.edgeLabel[k] < |g.labels|
  }

  /** Every node before the open row has a closed one. */
  ghost predicate RowsOk<S>(cfg: Config<S>, g: Graph<S>)
    requires Shaped(g)
  {
    && g.edgeStart[0] == 0
    && (forall i | 0 <= i < |g.edgeStart| - 1 :: RowOk(cfg, g, i))
    && g.edgeStart[|g.edgeStart| - 1] <= |g.edgeTo|
  }

  /** A search that dropped nothing marks nothing, and it drops only when full. */
  ghost predicate MarksOk<S>(cfg: Config<S>, g: Graph<S>)
    requires Shaped(g)
  {
    && (g.truncated ==> |g.states| >= cfg.maxStates)
    && (forall i | 0 <= i < |g.states| :: g.unknown[i] ==> g.truncated)
  }

  ghost predicate Inv<S>(cfg: Config<S>, g: Graph<S>) {
    Shaped(g) && NodesOk(cfg, g) && RowsOk(cfg, g)
  }

  /** Between two expansions: no row is open, and no node still to expand is marked. */
  ghost predicate Settled<S>(cfg: Config<S>, g: Graph<S>) {
    && Shaped(g) && Inv(cfg, g) && MarksOk(cfg, g)
    && g.edgeStart[|g.edgeStart| - 1] == |g.edgeTo|
    && forall i | |g.edgeStart| - 1 <= i < |g.states| :: !g.unknown[i]
  }

  /** During the expansion of the first node without a row, after merging `n` successors. */
  ghost predicate Merging<S>(cfg: Config<S>, g: Graph<S>, n: nat) {
    && Shaped(g) && Inv(cfg, g) && MarksOk(cfg, g)
    && var from := |g.edgeStart| - 1;
    && from < |g.states|
    && RowFits(cfg, g, from, g.edgeStart[from], |g.edgeTo|, n)
    && forall i | from < i < |g.states| :: !g.unknown[i]
  }

  // ----- One merge step -----

  lemma {:induction false} MergeOneGrows<S>(cfg: Config<S>, g: Graph<S>, from: nat, succs: seq<Succ<S>>, n: nat)
    requires Shaped(g) && from < |g.states| && n < |succs|
    ensures var g' := MergeOne(cfg, g, from, succs, n);
            Grows(g, g', from) && g'.edgeStart == g.edgeStart && g'.roots == g.roots
  {
  }

  lemma {:induction false} RowFitsGrows<S>(cfg: Config<S>, g: Graph<S>, g': Graph<S>, from: nat, i: nat, lo: nat, hi: nat, n: nat)
    requires Grows(g, g', from) && i < |g.states| && g.unknown[i] == g'.unknown[i]
    requires RowFits(cfg, g, i, lo, hi, n)
    ensures RowFits(cfg, g', i, lo, hi, n)
  {
    var succs := Expand(cfg, g.states[i]);
    if g.unknown[i] {
      forall k | lo <= k < hi ensures EdgeFitsOne(cfg, g', k, succs) {
        assert EdgeFitsOne(cfg, g, k, succs);
        var j :| 0 <= j < |succs| && EdgeFits(cfg, g, k, succs[j]);
        assert EdgeFits(cfg, g', k, succs[j]);
      }
    }
  }

  lemma {:induction false} RowsGrow<S>(cfg: Config<S>, g: Graph<S>, g': Graph<S>)
    requires Inv(cfg, g) && Grows(g, g', |g.edgeStart| - 1) && g'.edgeStart == g.edgeStart
    ensures RowsOk(cfg, g')
  {
    forall i | 0 <= i < |g.edgeStart| - 1 ensures RowOk(cfg, g', i) {
      assert RowOk(cfg, g, i);
      RowFitsGrows(cfg, g, g', |g.edgeStart| - 1, i, g.edgeStart[i], g.edgeStart[i + 1],
                   |Expand(cfg, g.states[i])|);
    }
  }

  lemma {:induction false} NodesGrow<S>(cfg: Config<S>, g: Graph<S>, g': Graph<S>, from: nat)
    requires Inv(cfg, g) && Grows(g, g', from) && g'.roots == g.roots
    ensures forall i | 0 <= i < |g.states| :: NodeOk(cfg, g', i)
  {
    forall i | 0 <= i < |g.states| ensures NodeOk(cfg, g', i) {
      assert NodeOk(cfg, g, i);
    }
  }

  /** The identities of the new graph are the old ones and those of the states added. */
  lemma {:induction false} IdsGrow<S>(cfg: Config<S>, g: Graph<S>, g': Graph<S>)
    requires g.states <= g'.states
    ensures Ids(cfg, g) <= Ids(cfg, g')
  {
  }

  lemma {:induction false} MergeOneLabels<S>(cfg: Config<S>, g: Graph<S>, from: nat, succs: seq<Succ<S>>, n: nat)
    requires Shaped(g) && from < |g.states| && n < |succs| && Distinct(g.labels)
    ensures var g' := MergeOne(cfg, g, from, succs, n);
            var id := LabelId(g.labels, LabelOf(succs[n]));
            Distinct(g'.labels) && id < |g'.labels| && g'.labels[id] == LabelOf(succs[n])
  {
  }

  /** A node is added only for an identity not met before, and records the move that found it. */
  lemma {:induction false} MergeOneAdded<S>(cfg: Config<S>, g: Graph<S>, from: nat, n: nat)
    requires Shaped(g) && from < |g.states| && n < |Expand(cfg, g.states[from])| && Distinct(g.labels)
    ensures var succs := Expand(cfg, g.states[from]);
            var g' := MergeOne(cfg, g, from, succs, n);
            |g'.states| > |g.states| ==>
              && g'.states == g.states + [succs[n].state] && g'.hash == g.hash + [cfg.Hash(succs[n].state)]
              && g'.roots == g.roots && |g.states| < cfg.maxStates
              && cfg.Id(succs[n].state) !in Ids(cfg, g) && NodeOk(cfg, g', |g.states|)
  {
    MergeOneLabels(cfg, g, from, Expand(cfg, g.states[from]), n);
    SuccYields(cfg, g.states[from], n);
  }

  lemma {:induction false} MergeOneIds<S>(cfg: Config<S>, g: Graph<S>, from: nat, n: nat)
    requires Shaped(g) && from < |g.states| && n < |Expand(cfg, g.states[from])|
    requires NodesOk(cfg, g)
    ensures var g' := MergeOne(cfg, g, from, Expand(cfg, g.states[from]), n);
            && Distinct(Ids(cfg, g'))
            && forall i | 0 <= i < |g'.states| :: g'.hash[i] == cfg.Hash(g'.states[i])
  {
    hide MergeOne, NodeOk, InRange;
    var succs := Expand(cfg, g.states[from]);
    var g' := MergeOne(cfg, g, from, succs, n);
    MergeOneGrows(cfg, g, from, succs, n);
    MergeOneAdded(cfg, g, from, n);
    IdsGrow(cfg, g, g');
    if |g'.states| == |g.states| {
      assert Ids(cfg, g') == Ids(cfg, g);
    } else {
      assert Ids(cfg, g') == Ids(cfg, g) + [cfg.Id(succs[n].state)];
    }
  }

  lemma {:induction false} MergeOneNodes<S>(cfg: Config<S>, g: Graph<S>, n: nat)
    requires Merging(cfg, g, n)
    requires n < |Expand(cfg, g.states[|g.edgeStart| - 1])|
    ensures var from := |g.edgeStart| - 1;
            NodesOk(cfg, MergeOne(cfg, g, from, Expand(cfg, g.states[from]), n))
  {
    hide MergeOne, NodeOk, InRange, Ids, Grows;
    var from := |g.edgeStart| - 1;
    var succs := Expand(cfg, g.states[from]);
    MergeOneGrows(cfg, g, from, succs, n);
    MergeOneLabels(cfg, g, from, succs, n);
    MergeOneAdded(cfg, g, from, n);
    MergeOneInRange(cfg, g, from, n);
    MergeOneIds(cfg, g, from, n);
    NodesGrow(cfg, g, MergeOne(cfg, g, from, succs, n), from);
  }

  lemma {:induction false} MergeOneInRange<S>(cfg: Config<S>, g: Graph<S>, from: nat, n: nat)
    requires Shaped(g) && from < |g.states| && n < |Expand(cfg, g.states[from])| && InRange(cfg, g)
    ensures InRange(cfg, MergeOne(cfg, g, from, Expand(cfg, g.states[from]), n))
  {
    var a, j := LocateSucc(cfg, g.states[from], |cfg.sys.actors|, n);
    assert Expand(cfg, g.states[from])[n].actor < |cfg.sys.actors|;
    hide Expand, ExpandActors;
  }

  /** The merge either records the successor as the next edge or marks the node. */
  lemma {:induction false} MergeOneEdge<S>(cfg: Config<S>, g: Graph<S>, from: nat, n: nat)
    requires Shaped(g) && from < |g.states| && n < |Expand(cfg, g.states[from])| && Distinct(g.labels)
    ensures var succs := Expand(cfg, g.states[from]);
            var g' := MergeOne(cfg, g, from, succs, n);
            || (g'.unknown[from] == g.unknown[from] && |g'.edgeTo| == |g.edgeTo| + 1
                && EdgeFits(cfg, g', |g.edgeTo|, succs[n]) && g'.truncated == g.truncated)
            || (g'.unknown[from] && g'.edgeTo == g.edgeTo && g'.states == g.states
                && g'.truncated && |g.states| >= cfg.maxStates)
  {
    MergeOneLabels(cfg, g, from, Expand(cfg, g.states[from]), n);
  }

  lemma {:induction false} MergeOneRow<S>(cfg: Config<S>, g: Graph<S>, n: nat)
    requires Merging(cfg, g, n)
    requires n < |Expand(cfg, g.states[|g.edgeStart| - 1])|
    ensures var from := |g.edgeStart| - 1;
            var g' := MergeOne(cfg, g, from, Expand(cfg, g.states[from]), n);
            RowFits(cfg, g', from, g.edgeStart[from], |g'.edgeTo|, n + 1)
  {
    hide MergeOne, MarksOk, RowsOk, RowOk, NodeOk, Expand, Ids, InRange, EdgeFits;
    var from := |g.edgeStart| - 1;
    var succs := Expand(cfg, g.states[from]);
    var lo := g.edgeStart[from];
    var g' := MergeOne(cfg, g, from, succs, n);
    MergeOneGrows(cfg, g, from, succs, n);
    MergeOneEdge(cfg, g, from, n);
    if |g'.edgeTo| > |g.edgeTo| {
      RowFitsGrows(cfg, g, g', from, from, lo, |g.edgeTo|, n);
    } else {
      RowForgetsOrder(cfg, g, from, lo, |g.edgeTo|, n);
      forall k | lo <= k < |g.edgeTo| ensures EdgeFitsOne(cfg, g', k, succs) {
        assert EdgeFitsOne(cfg, g, k, succs);
        EdgeGrows(cfg, g, g', from, k, succs);
      }
    }
  }

  lemma {:induction false} EdgeGrows<S>(cfg: Config<S>, g: Graph<S>, g': Graph<S>, from: nat, k: nat, succs: seq<Succ<S>>)
    requires Grows(g, g', from) && EdgeFitsOne(cfg, g, k, succs)
    ensures EdgeFitsOne(cfg, g', k, succs)
  {
    var j :| 0 <= j < |succs| && EdgeFits(cfg, g, k, succs[j]);
    assert EdgeFits(cfg, g', k, succs[j]);
  }

  /** Every edge of a row records some successor of its node, whether or not one was refused. */
  lemma {:induction false} RowForgetsOrder<S>(cfg: Config<S>, g: Graph<S>, i: nat, lo: nat, hi: nat, n: nat)
    requires Shaped(g) && i < |g.states| && RowFits(cfg, g, i, lo, hi, n)
    ensures forall k | lo <= k < hi :: EdgeFitsOne(cfg, g, k, Expand(cfg, g.states[i]))
  {
    var succs := Expand(cfg, g.states[i]);
    if !g.unknown[i] {
      forall k | lo <= k < hi ensures EdgeFitsOne(cfg, g, k, succs) {
        assert EdgeFits(cfg, g, lo + (k - lo), succs[k - lo]);
      }
    }
  }

  lemma {:induction false} MergeOneMarks<S>(cfg: Config<S>, g: Graph<S>, n: nat)
    requires Merging(cfg, g, n)
    requires n < |Expand(cfg, g.states[|g.edgeStart| - 1])|
    ensures var from := |g.edgeStart| - 1;
            var g' := MergeOne(cfg, g, from, Expand(cfg, g.states[from]), n);
            MarksOk(cfg, g') && forall i | from < i < |g'.states| :: !g'.unknown[i]
  {
  }

  lemma {:induction false} MergeOneKeeps<S>(cfg: Config<S>, g: Graph<S>, n: nat)
    requires Merging(cfg, g, n)
    requires n < |Expand(cfg, g.states[|g.edgeStart| - 1])|
    ensures var from := |g.edgeStart| - 1;
            Merging(cfg, MergeOne(cfg, g, from, Expand(cfg, g.states[from]), n), n + 1)
  {
    var from := |g.edgeStart| - 1;
    MergeOneGrows(cfg, g, from, Expand(cfg, g.states[from]), n);
    MergeOneNodes(cfg, g, n);
    MergeOneRow(cfg, g, n);
    MergeOneMarks(cfg, g, n);
    RowsGrow(cfg, g, MergeOne(cfg, g, from, Expand(cfg, g.states[from]), n));
  }
}
