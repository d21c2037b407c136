/**
 Rebuilding the states a search did not keep (modelcheck/replay.go). A state is found again
 by walking its parent chain from an initial state and taking, at each step, the recorded
 occurrence of the recorded move. The program panics when a replay does not fit what was
 explored; here that is the result None, and it is proved never to happen.
 */
module Replay {
  import opened Wrappers
  import opened Index
  import opened Systems
  import opened Search
  import opened Expansion
  import opened GraphInvariant
  import opened BreadthFirst

  /** A position in a trace: the move that produced the state. */
  datatype TraceStep<+S> = TraceStep(actor: string, move: string, state: S)

  // ----- The trace of a node -----

  /** The nodes from `i` back to its root. */
  ghost function BackChain(parent: seq<int>, i: nat): (chain: seq<nat>)
    requires ParentsBelow(parent) && i < |parent|
    ensures |chain| == Depth(parent, i) + 1 && chain[0] == i
    ensures forall k | 0 <= k < |chain| :: chain[k] < |parent|
    decreases i
  {
    if parent[i] < 0 then [i] else [i] + BackChain(parent, parent[i])
  }

  /** What is left to walk: nothing once past a root. */
  ghost function Back(parent: seq<int>, i: int): seq<nat>
    requires ParentsBelow(parent) && i < |parent|
  {
    if i < 0 then [] else BackChain(parent, i)
  }

  lemma {:induction false} BackNext(parent: seq<int>, i: nat, rev: seq<nat>)
    requires ParentsBelow(parent) && i < |parent|
    ensures -1 <= parent[i] < i && rev + Back(parent, i) == rev + [i] + Back(parent, parent[i])
  {
  }

  ghost function StepOf<S>(sys: System<S>, g: Graph<S>, i: nat): TraceStep<S>
    requires Shaped(g) && i < |g.states|
    requires g.via[i] >= 0 ==> g.via[i] < |g.labels| && g.labels[g.via[i]].actor < |sys.actors|
  {
    if g.via[i] < 0 then TraceStep("", "", g.states[i])
    else
      var l := g.labels[g.via[i]];
      TraceStep(sys.actors[l.actor].name, l.move, g.states[i])
  }

  ghost function TraceOf<S>(cfg: Config<S>, g: Graph<S>, i: nat): (steps: seq<TraceStep<S>>)
    requires Shaped(g) && NodesOk(cfg, g) && i < |g.states|
    ensures |steps| > 0 && steps[|steps| - 1].state == g.states[i]
    decreases i
  {
    assert NodeOk(cfg, g, i);
    if g.parent[i] < 0 then [StepOf(cfg.sys, g, i)]
    else TraceOf(cfg, g, g.parent[i]) + [StepOf(cfg.sys, g, i)]
  }

  /** One move of the system, under the names the step shows, leads from `s` to the step's state. */
  ghost predicate Shows<S>(sys: System<S>, s: S, step: TraceStep<S>) {
    exists a: nat, j :: a < |sys.actors| && sys.actors[a].name == step.actor
      && 0 <= j < |sys.Moves(a, s)| && sys.Moves(a, s)[j] == Move(step.move, step.state)
  }

  /** A run of the system from an initial state, step by step. */
  ghost predicate GenuineTrace<S>(sys: System<S>, steps: seq<TraceStep<S>>) {
    && |steps| > 0
    && steps[0].actor == steps[0].move == "" && steps[0].state in sys.initial
    && forall k | 0 < k < |steps| :: Shows(sys, steps[k - 1].state, steps[k])
  }

  /** A node's trace is a run of the system to its state, as long as the node is deep. */
  lemma {:induction false} TraceIsGenuine<S>(cfg: Config<S>, g: Graph<S>, i: nat)
    requires Shaped(g) && NodesOk(cfg, g) && i < |g.states|
    ensures GenuineTrace(cfg.sys, TraceOf(cfg, g, i))
    ensures ParentsBelow(g.parent) && |TraceOf(cfg, g, i)| == Depth(g.parent, i) + 1
    decreases i
  {
    InvParentsBelow(cfg, g);
    assert NodeOk(cfg, g, i);
    if g.parent[i] >= 0 {
      TraceIsGenuine(cfg, g, g.parent[i]);
      var before := TraceOf(cfg, g, g.parent[i]);
      var l := g.labels[g.via[i]];
      var s := g.states[g.parent[i]];
      var j: nat :| IsOccurrence(cfg.sys.Moves(l.actor, s), j, l.move, g.ordinal[i])
                    && cfg.sys.Moves(l.actor, s)[j].state == g.states[i];
      assert cfg.sys.Moves(l.actor, s)[j] == Move(l.move, g.states[i]);
      assert Shows(cfg.sys, before[|before| - 1].state, StepOf(cfg.sys, g, i));
    }
  }

  class Replayer<S> {
    const cfg: Config<S>
    const parent: seq<int>
    const via: seq<int>
    const ordinal: seq<nat>
    const hash: seq<Hash128>
    const labels: seq<Label>
    const roots: seq<nat>
    var memo: map<nat, S>

    ghost const g: Graph<S>

    /** The columns are those of a searched graph, and every remembered state is the explored one. */
    ghost predicate Valid()
      reads this
    {
      && Shaped(g) && NodesOk(cfg, g)
      && parent == g.parent && via == g.via && ordinal == g.ordinal
      && hash == g.hash && labels == g.labels && roots == g.roots
      && forall i | i in memo :: i < |g.states| && memo[i] == g.states[i]
    }

    constructor (cfg: Config<S>, parent: seq<int>, via: seq<int>, ordinal: seq<nat>, hash: seq<Hash128>,
                 labels: seq<Label>, roots: seq<nat>, ghost g: Graph<S>)
      requires Shaped(g) && NodesOk(cfg, g)
      requires parent == g.parent && via == g.via && ordinal == g.ordinal
      requires hash == g.hash && labels == g.labels && roots == g.roots
      ensures Valid() && this.cfg == cfg && this.g == g
    {
      this.cfg := cfg;
      this.parent, this.via, this.ordinal := parent, via, ordinal;
      this.hash, this.labels, this.roots := hash, labels, roots;
      memo := map[];
      this.g := g;
    }

    /** Runs the recorded move again from the remembered parent; draining all moves, as the program does. */
    method Step(p: nat, i: nat) returns (found: Option<S>)
      requires Valid() && p in memo && i < |g.states| && parent[i] == p
      ensures found == Some(g.states[i])
    {
      assert NodeOk(cfg, g, i);
      var l := labels[via[i]];
      var moves := cfg.sys.Moves(l.actor, memo[p]);
      ghost var at: nat :| IsOccurrence(moves, at, l.move, ordinal[i]) && moves[at].state == g.states[i];
      found := None;
      var n := 0;
      for j := 0 to |moves|
        invariant n == CountNamed(moves, j, l.move)
        invariant found == if j <= at then None else Some(g.states[i])
      {
        if moves[j].name == l.move {
          if n == ordinal[i] {
            OccurrenceIsUnique(moves, at, j, l.move, n);
            found := Some(moves[j].state);
          }
          n := n + 1;
        }
      }
    }

    /** The nodes still to be replayed: back from `idx` to a remembered node or a root. */
    method Missing(idx: nat) returns (chain: seq<nat>)
      requires Valid() && idx < |g.states| && idx !in memo && ParentsBelow(parent)
      ensures |chain| > 0 && chain[0] == idx && forall k | 0 <= k < |chain| :: chain[k] < |parent|
      ensures forall k | 0 <= k < |chain| - 1 :: parent[chain[k]] == chain[k + 1]
      ensures parent[chain[|chain| - 1]] < 0 || parent[chain[|chain| - 1]] in memo
    {
      chain := [];
      var i: nat := idx;
      while true
        invariant i < |parent| && forall k | 0 <= k < |chain| :: chain[k] < |parent|
        invariant if |chain| == 0 then i == idx else chain[0] == idx && parent[chain[|chain| - 1]] == i
        invariant forall k | 0 <= k < |chain| - 1 :: parent[chain[k]] == chain[k + 1]
        decreases i
      {
        if i in memo {
          break;
        }
        chain := chain + [i];
        if parent[i] < 0 {
          break;
        }
        i := parent[i];
      }
    }

    /** Replays one node whose parent, if it has one, is remembered. */
    method Recover(node: nat) returns (ok: bool)
      requires Valid() && node < |g.states| && (parent[node] < 0 || parent[node] in memo)
      modifies this`memo
      ensures Valid() && ok && memo.Keys == old(memo).Keys + {node}
    {
      var r: Option<S>;
      if parent[node] < 0 {
        assert NodeOk(cfg, g, node);
        r := Some(cfg.sys.initial[roots[node]]);
      } else {
        r := Step(parent[node], node);
      }
      if r.None? || cfg.Hash(r.value) != hash[node] {
        return false;
      }
      memo := memo[node := r.value];
      ok := true;
    }

    /** The state of a node: exactly the one explored, whatever was replayed before. */
    method State(idx: nat) returns (s: Option<S>)
      requires Valid() && idx < |g.states|
      modifies this`memo
      ensures Valid() && s == Some(g.states[idx])
    {
      if idx in memo {
        return Some(memo[idx]);
      }
      hide NodesOk;
      InvParentsBelow(cfg, g);
      var chain := Missing(idx);
      for k := |chain| downto 0
        invariant Valid()
        invariant parent[chain[|chain| - 1]] < 0 || parent[chain[|chain| - 1]] in memo
        invariant k < |chain| ==> chain[k] in memo
      {
        assert k < |chain| - 1 ==> parent[chain[k]] == chain[k + 1];
        var ok := Recover(chain[k]);
        if !ok {
          return None;
        }
      }
      s := Some(memo[idx]);
    }

    /** The nodes from `idx` back to an initial state. */
    method WalkBack(idx: nat) returns (rev: seq<nat>)
      requires Valid() && ParentsBelow(parent) && idx < |parent|
      ensures rev == BackChain(parent, idx)
    {
      hide BackChain, Valid, ParentsBelow;
      rev := [];
      var i: int := idx;
      while i >= 0
        invariant -1 <= i < |parent|
        invariant rev + Back(parent, i) == BackChain(parent, idx)
        decreases i
      {
        BackNext(parent, i, rev);
        rev := rev + [i];
        i := parent[i];
      }
    }

    method ShowNode(node: nat) returns (step: Option<TraceStep<S>>)
      requires Valid() && node < |g.states|
      requires via[node] >= 0 ==> via[node] < |labels| && labels[via[node]].actor < |cfg.sys.actors|
      modifies this`memo
      ensures Valid() && step == Some(StepOf(cfg.sys, g, node))
    {
      hide NodesOk;
      var s := State(node);
      if s.None? {
        return None;
      }
      if via[node] < 0 {
        return Some(TraceStep("", "", s.value));
      }
      var l := labels[via[node]];
      step := Some(TraceStep(cfg.sys.actors[l.actor].name, l.move, s.value));
    }

    /** The steps from an initial state to a node. */
    method Trace(idx: nat) returns (steps: Option<seq<TraceStep<S>>>)
      requires Valid() && idx < |g.states|
      modifies this`memo
      ensures Valid() && steps == Some(TraceOf(cfg, g, idx))
    {
      hide NodesOk, BackChain, StepOf, TraceOf, ParentsBelow;
      InvParentsBelow(cfg, g);
      var rev := WalkBack(idx);
      var out: seq<TraceStep<S>> := [];
      for k := |rev| downto 0
        invariant Valid()
        invariant out == if k == |rev| then [] else TraceOf(cfg, g, rev[k])
      {
        BackChainLinks(parent, idx, k);
        TraceOfNode(cfg, g, rev[k]);
        var step := ShowNode(rev[k]);
        if step.None? {
          return None;
        }
        out := out + [step.value];
      }
      steps := Some(out);
    }
  }

  lemma {:induction false} TraceOfNode<S>(cfg: Config<S>, g: Graph<S>, i: nat)
    requires Shaped(g) && NodesOk(cfg, g) && i < |g.states|
    ensures g.via[i] >= 0 ==> g.via[i] < |g.labels| && g.labels[g.via[i]].actor < |cfg.sys.actors|
    ensures -1 <= g.parent[i] < i
    ensures TraceOf(cfg, g, i) == (if g.parent[i] < 0 then [] else TraceOf(cfg, g, g.parent[i])) + [StepOf(cfg.sys, g, i)]
  {
    assert NodeOk(cfg, g, i);
  }

  /** Each node of a back chain is the parent of the one before, and the last has none. */
  lemma {:induction false} BackChainLinks(parent: seq<int>, i: nat, k: nat)
    requires ParentsBelow(parent) && i < |parent| && k < |BackChain(parent, i)|
    ensures var chain := BackChain(parent, i);
            if k == |chain| - 1 then parent[chain[k]] < 0 else parent[chain[k]] == chain[k + 1]
    decreases i
  {
    if parent[i] >= 0 && k > 0 {
      BackChainLinks(parent, parent[i], k - 1);
    }
  }
}
