/**
 The explorer as the program runs it: columns appended in nested loops, a hash-table index,
 interned labels, stamps that number like-named moves, and a frontier expanded in chunks
 (modelcheck/explore.go). For every chunk size it computes the graph of module Search.
 */
module Explore {
  import opened Wrappers
  import opened Index
  import opened Systems
  import opened Search
  import opened Expansion
  import opened BreadthFirst
  import opened Marks
  import opened Traps
  import ParallelFor

  // ----- What is recorded about properties -----

  /** The first state on which `ok` fails. */
  function FirstViolation<S>(ok: S -> bool, states: seq<S>): (v: Option<nat>)
    ensures v.Some? ==> v.value < |states| && !ok(states[v.value])
    ensures forall j | 0 <= j < (if v.Some? then v.value else |states|) :: ok(states[j])
  {
    if |states| == 0 then None
    else
      var before := FirstViolation(ok, states[..|states| - 1]);
      if before.Some? then before
      else if ok(states[|states| - 1]) then None else Some(|states| - 1)
  }

  lemma {:induction false} FirstViolationNext<S>(ok: S -> bool, states: seq<S>, s: S)
    ensures FirstViolation(ok, states + [s]) ==
            if FirstViolation(ok, states).Some? || ok(s) then FirstViolation(ok, states) else Some(|states|)
  {
    assert (states + [s])[..|states|] == states;
  }

  /** The goals of every recoverable property and the first violation of every invariant. */
  ghost predicate PropertiesOf<S>(sys: System<S>, states: seq<S>, goal: seq<seq<bool>>, invViol: seq<Option<nat>>) {
    && |goal| == |sys.recoverables| && |invViol| == |sys.invariants|
    && (forall r | 0 <= r < |goal| :: goal[r] == GoalColumn(sys, states, r))
    && (forall i | 0 <= i < |invViol| :: invViol[i] == FirstViolation(sys.invariants[i].ok, states))
  }

  // ----- Numbering like-named moves -----

  /** Each actor's successors are adjacent. */
  ghost predicate Grouped<S>(succs: seq<Succ<S>>) {
    forall i, j | 0 <= i < j < |succs| :: succs[i].actor <= succs[j].actor
  }

  lemma {:induction false} ExpandGrouped<S>(cfg: Config<S>, s: S, n: nat)
    requires n <= |cfg.sys.actors|
    ensures Grouped(ExpandActors(cfg, s, n))
    ensures forall p | 0 <= p < |ExpandActors(cfg, s, n)| :: ExpandActors(cfg, s, n)[p].actor < n
    decreases n
  {
    if n > 0 {
      ExpandGrouped(cfg, s, n - 1);
    }
  }

  lemma {:induction false} SuccsGrouped<S>(cfg: Config<S>, s: S)
    ensures Grouped(Expand(cfg, s))
  {
    ExpandGrouped(cfg, s, |cfg.sys.actors|);
  }

  lemma {:induction false} CountOfOtherActor<S>(succs: seq<Succ<S>>, n: nat, l: Label)
    requires n <= |succs| && forall p | 0 <= p < n :: succs[p].actor != l.actor
    ensures CountLabelled(succs, n, l) == 0
    decreases n
  {
    if n > 0 {
      CountOfOtherActor(succs, n - 1, l);
    }
  }

  lemma {:induction false} CountOfAbsentLabel<S>(succs: seq<Succ<S>>, n: nat, l: Label)
    requires n <= |succs| && forall p | 0 <= p < n :: LabelOf(succs[p]) != l
    ensures CountLabelled(succs, n, l) == 0
    decreases n
  {
    if n > 0 {
      CountOfAbsentLabel(succs, n - 1, l);
    }
  }

  /**
   After `n` successors, a label of the current actor carries the current stamp exactly when
   that actor yielded it, and then `seenN` numbers its last occurrence.
   */
  ghost predicate Numbering<S>(succs: seq<Succ<S>>, n: nat, actor: int, labels: seq<Label>,
                               seenStamp: seq<nat>, seenN: seq<nat>, stamp: nat)
    requires n <= |succs|
  {
    && |seenStamp| == |seenN| == |labels|
    && (forall id | 0 <= id < |labels| :: seenStamp[id] <= stamp)
    && (forall p | 0 <= p < n :: LabelOf(succs[p]) in labels)
    && forall id | 0 <= id < |labels| && labels[id].actor == actor ::
         CountLabelled(succs, n, labels[id]) == if seenStamp[id] == stamp then seenN[id] + 1 else 0
  }

  /** A fresh stamp starts the numbering over for the next actor. */
  lemma {:induction false} NumberingNextActor<S>(succs: seq<Succ<S>>, n: nat, actor: int, labels: seq<Label>,
                              seenStamp: seq<nat>, seenN: seq<nat>, stamp: nat)
    requires n < |succs| && Grouped(succs)
    requires Numbering(succs, n, actor, labels, seenStamp, seenN, stamp)
    requires n > 0 ==> succs[n - 1].actor == actor
    requires succs[n].actor != actor
    ensures Numbering(succs, n, succs[n].actor, labels, seenStamp, seenN, stamp + 1)
  {
    forall id | 0 <= id < |labels| && labels[id].actor == succs[n].actor
      ensures CountLabelled(succs, n, labels[id]) == 0
    {
      assert forall p | 0 <= p < n - 1 :: succs[p].actor <= succs[n - 1].actor;
      CountOfOtherActor(succs, n, labels[id]);
    }
  }

  lemma {:induction false} NumberingNewLabel<S>(succs: seq<Succ<S>>, n: nat, actor: int, labels: seq<Label>,
                             seenStamp: seq<nat>, seenN: seq<nat>, stamp: nat, l: Label)
    requires n <= |succs| && 0 < stamp && l !in labels
    requires Numbering(succs, n, actor, labels, seenStamp, seenN, stamp)
    ensures Numbering(succs, n, actor, labels + [l], seenStamp + [0], seenN + [0], stamp)
  {
    CountOfAbsentLabel(succs, n, l);
  }

  /** Numbering a move gives it the count of like-labelled successors before it. */
  lemma {:induction false} NumberingNext<S>(succs: seq<Succ<S>>, n: nat, labels: seq<Label>,
                         seenStamp: seq<nat>, seenN: seq<nat>, stamp: nat, id: nat)
    requires n < |succs| && Distinct(labels) && id < |labels| && labels[id] == LabelOf(succs[n])
    requires Numbering(succs, n, succs[n].actor, labels, seenStamp, seenN, stamp)
    ensures var number := if seenStamp[id] == stamp then seenN[id] + 1 else 0;
            && number == CountLabelled(succs, n, labels[id])
            && Numbering(succs, n + 1, succs[n].actor, labels, seenStamp[id := stamp], seenN[id := number], stamp)
  {
  }

  lemma {:induction false} IdsNext<S>(cfg: Config<S>, states: seq<S>, s: S)
    requires Distinct(IdsOf(cfg, states)) && cfg.Id(s) !in IdsOf(cfg, states)
    ensures IdsOf(cfg, states + [s]) == IdsOf(cfg, states) + [cfg.Id(s)]
    ensures Distinct(IdsOf(cfg, states + [s]))
  {
    assert IdsOf(cfg, states + [s]) == IdsOf(cfg, states) + [cfg.Id(s)];
    DistinctNext(IdsOf(cfg, states), cfg.Id(s));
  }

  /** `ids` gives every label its one position. */
  ghost predicate LabelTable(labels: seq<Label>, ids: map<Label, nat>) {
    && Distinct(labels)
    && (forall l :: l in ids <==> l in labels)
    && (forall l | l in ids :: ids[l] < |labels| && labels[ids[l]] == l)
  }

  lemma {:induction false} LabelsDistinct(labels: seq<Label>, ids: map<Label, nat>)
    requires LabelTable(labels, ids)
    ensures Distinct(labels)
  {
  }

  lemma {:induction false} KnownLabel(labels: seq<Label>, ids: map<Label, nat>, l: Label)
    requires LabelTable(labels, ids) && l in ids
    ensures ids[l] < |labels| && LabelId(labels, l) == ids[l]
  {
  }

  lemma {:induction false} NewLabel(labels: seq<Label>, ids: map<Label, nat>, l: Label)
    requires LabelTable(labels, ids) && l !in ids
    ensures LabelId(labels, l) == |labels| && LabelTable(labels + [l], ids[l := |labels|])
  {
  }

  class Explorer<S(!new)> {
    const cfg: Config<S>
    const workers: nat
    /** Who steps when in the loop that expands the chunk at a given node: any scheduling. */
    const schedule: nat -> nat -> nat
    const chunkNodesPerWorker: nat

    var parent: seq<int>
    var via: seq<int>
    var ordinal: seq<nat>
    var hash: seq<Hash128>
    var unknown: seq<bool>
    var goal: seq<seq<bool>>
    var edgeStart: seq<nat>
    var edgeLabel: seq<nat>
    var edgeTo: seq<nat>
    var labels: seq<Label>
    var roots: seq<nat>

    const index: KeyIndex
    var labelIDs: map<Label, nat>
    var truncated: bool
    var invViol: seq<Option<nat>>
    var labelCount: seq<nat>
    var seenStamp: seq<nat>
    var seenN: seq<nat>
    var stamp: nat

    ghost var states: seq<S>  // the state each node stands for, which the program does not keep

    /** The graph held in the columns. */
    ghost function View(): Graph<S>
      reads this
    {
      Graph(states, parent, via, ordinal, hash, unknown, edgeStart, edgeLabel, edgeTo,
            labels, labelCount, roots, truncated)
    }

    ghost predicate LabelsValid()
      reads this
    {
      && LabelTable(labels, labelIDs)
      && |labelCount| == |seenStamp| == |seenN| == |labels|
      && (forall id | 0 <= id < |labels| :: seenStamp[id] <= stamp)
    }

    ghost predicate Valid()
      reads this, index, index.table
    {
      && Shaped(View()) && LabelsValid()
      && Distinct(IdsOf(cfg, states))
      && index.isExact == cfg.exact && index.Valid(hash) && index.count == |states| && index.idents == IdsOf(cfg, states)
    }

    constructor (cfg: Config<S>, workers: nat, chunkNodesPerWorker: nat, schedule: nat -> nat -> nat)
      ensures Valid() && fresh(index) && fresh(index.table)
      ensures this.cfg == cfg && View() == EmptyGraph<S>()
      ensures PropertiesOf(cfg.sys, states, goal, invViol)
    {
      this.cfg := cfg;
      this.workers := workers;
      this.schedule := schedule;
      this.chunkNodesPerWorker := chunkNodesPerWorker;
      parent, via, ordinal, hash, unknown := [], [], [], [], [];
      edgeStart, edgeLabel, edgeTo, labels, roots := [0], [], [], [], [];
      goal := seq(|cfg.sys.recoverables|, _ => []);
      invViol := seq(|cfg.sys.invariants|, _ => None);
      labelIDs, truncated, labelCount, seenStamp, seenN, stamp := map[], false, [], [], [], 0;
      states := [];
      var ix := new KeyIndex(cfg.exact);
      index := ix;
    }

    method AppendColumns(parent: int, via: int, ordinal: nat, h: Hash128, ghost s: S)
      requires Shaped(View()) && h == cfg.Hash(s)
      modifies this`parent, this`via, this`ordinal, this`hash, this`unknown, this`states
      ensures View() == WithNode(cfg, old(View()), parent, via, ordinal, s)
    {
      this.parent := this.parent + [parent];
      this.via := this.via + [via];
      this.ordinal := this.ordinal + [ordinal];
      hash := hash + [h];
      unknown := unknown + [false];
      states := states + [s];
    }

    /** Appends a node and enters its identity in the index. */
    method AddNode(parent: int, via: int, ordinal: nat, h: Hash128, key: string, ghost s: S) returns (node: nat)
      requires Valid() && Shaped(View())
      requires h == cfg.Hash(s) && Identify(cfg.exact, h, key) == cfg.Id(s) && cfg.Id(s) !in IdsOf(cfg, states)
      modifies this`parent, this`via, this`ordinal, this`hash, this`unknown, this`states, index, index.table
      ensures Valid() && (index.table == old(index.table) || fresh(index.table))
      ensures View() == WithNode(cfg, old(View()), parent, via, ordinal, s) && node == |old(states)|
    {
      hide KeyIndex.Valid, LabelTable, Identify, IdsOf, Distinct;
      ghost var states0 := states;
      node := |this.parent|;
      AppendColumns(parent, via, ordinal, h, s);
      IdsNext(cfg, states0, s);
      index.Insert(node, h, key, hash);
    }

    /** The number of a label, given out on first use. */
    method Intern(l: Label) returns (id: nat)
      requires Valid()
      modifies this`labels, this`labelIDs, this`labelCount, this`seenStamp, this`seenN
      ensures Valid()
      ensures View() == Interned(old(View()), l) && id == LabelId(old(labels), l)
      ensures labels == (if id < |old(labels)| then old(labels) else old(labels) + [l]) && labels[id] == l
      ensures id < |old(labels)| ==> seenStamp == old(seenStamp) && seenN == old(seenN)
      ensures id == |old(labels)| ==> seenStamp == old(seenStamp) + [0] && seenN == old(seenN) + [0]
    {
      hide KeyIndex.Valid, LabelTable, LabelId, IdsOf;
      if l in labelIDs {
        KnownLabel(labels, labelIDs, l);
        id := labelIDs[l];
        return;
      }
      NewLabel(labels, labelIDs, l);
      id := |labels|;
      labels := labels + [l];
      labelIDs := labelIDs[l := id];
      labelCount := labelCount + [0];
      seenStamp := seenStamp + [0];
      seenN := seenN + [0];
    }

    /** Numbers the move among those sharing its label, and counts it for coverage. */
    method NumberMove(id: nat)
      requires Valid() && id < |labels|
      modifies this`labelCount, this`seenStamp, this`seenN
      ensures Valid() && View() == Counted(old(View()), id)
      ensures seenStamp == old(seenStamp)[id := stamp]
      ensures seenN == old(seenN)[id := if old(seenStamp)[id] == stamp then old(seenN)[id] + 1 else 0]
    {
      hide KeyIndex.Valid, LabelTable, IdsOf;
      if seenStamp[id] == stamp {
        seenN := seenN[id := seenN[id] + 1];
      } else {
        seenStamp := seenStamp[id := stamp];
        seenN := seenN[id := 0];
      }
      labelCount := labelCount[id := labelCount[id] + 1];
    }

    /** Looks the identity of a successor up among the nodes. */
    method FindNode(sc: Succ<S>) returns (to: int, seen: bool)
      requires Valid() && FromState(cfg, sc)
      ensures Position(IdsOf(cfg, states), cfg.Id(sc.state)) == if seen then Some(to) else None
    {
      hide Position, IdsOf, LabelTable, KeyIndex.Valid;
      to, seen := index.Lookup(sc.hash, sc.key, hash);
      if seen {
        PositionIs(IdsOf(cfg, states), cfg.Id(sc.state), to);
      }
    }

    method AppendEdge(id: nat, to: nat)
      requires Valid()
      modifies this`edgeLabel, this`edgeTo
      ensures Valid() && View() == WithEdge(old(View()), id, to)
    {
      hide KeyIndex.Valid, LabelTable, IdsOf;
      edgeLabel := edgeLabel + [id];
      edgeTo := edgeTo + [to];
    }

    /** Gives up on a successor there is no room for. */
    method Refuse(from: nat)
      requires Valid() && from < |unknown|
      modifies this`truncated, this`unknown
      ensures Valid() && View() == old(View()).(truncated := true, unknown := old(unknown)[from := true])
    {
      hide KeyIndex.Valid, LabelTable, IdsOf;
      truncated := true;
      unknown := unknown[from := true];
    }

    /** Links node `from` to a successor, adding it as a node unless it is known or there is no room. */
    method Link(from: nat, id: nat, sc: Succ<S>, next0: seq<S>) returns (next: seq<S>)
      requires Valid() && Shaped(View()) && from < |states| && id < |seenN|
      requires FromState(cfg, sc)
      modifies this`parent, this`via, this`ordinal, this`hash, this`unknown, this`states
      modifies this`edgeLabel, this`edgeTo, this`truncated, index, index.table
      ensures Valid() && (index.table == old(index.table) || fresh(index.table))
      ensures View() == Linked(cfg, old(View()), from, id, seenN[id], sc.state)
      ensures old(states) <= states && next == next0 + states[|old(states)|..]
    {
      hide Valid, IdsOf, Position;
      next := next0;
      var to, seen := FindNode(sc);
      if !seen {
        if |parent| >= cfg.maxStates {
          Refuse(from);
          return;
        }
        to := AddNode(from, id, seenN[id], sc.hash, sc.key, sc.state);
        next := next + [sc.state];
      }
      AppendEdge(id, to);
    }

    lemma {:induction false} LabelsAreDistinct()
      requires Valid()
      ensures Distinct(labels)
    {
      LabelsDistinct(labels, labelIDs);
    }

    lemma {:induction false} StampsBounded()
      requires Valid()
      ensures |seenStamp| == |seenN| == |labels| && forall id | 0 <= id < |labels| :: seenStamp[id] <= stamp
    {
    }

    /** Makes every recorded stamp stale. */
    method NextStamp()
      requires Valid()
      modifies this`stamp
      ensures Valid() && View() == old(View()) && stamp == old(stamp) + 1
    {
      hide KeyIndex.Valid, LabelTable, IdsOf;
      stamp := stamp + 1;
    }

    /** Merges one node's successors in the order the moves were yielded. */
    method Merge(from: nat, succs: seq<Succ<S>>, next0: seq<S>) returns (next: seq<S>)
      requires Valid() && Shaped(View()) && from < |states| && succs == Expand(cfg, states[from])
      modifies this, index, index.table
      ensures Valid() && (index.table == old(index.table) || fresh(index.table))
      ensures View() == MergeFirst(cfg, old(View()), from, succs, |succs|)
      ensures old(states) <= states && next == next0 + states[|old(states)|..]
      ensures goal == old(goal) && invViol == old(invViol)
    {
      hide Valid, Expand, Numbering, MergeOne, MergeFirst, Grouped, KeyIndex.Valid;
      SuccsGrouped(cfg, states[from]);
      NextStamp();
      var prevActor: int := -1;
      next := next0;
      StampsBounded();
      StartNumbering(succs, prevActor, labels, seenStamp, seenN, stamp);
      NoneMerged(cfg, View(), from, succs);
      for i := 0 to |succs|
        invariant Valid() && (index.table == old(index.table) || fresh(index.table))
        invariant View() == MergeFirst(cfg, old(View()), from, succs, i)
        invariant Numbering(succs, i, prevActor, labels, seenStamp, seenN, stamp) && 0 < stamp
        invariant i > 0 ==> prevActor == succs[i - 1].actor
        invariant i == 0 ==> prevActor == -1
        invariant old(states) <= states && next == next0 + states[|old(states)|..]
        invariant goal == old(goal) && invViol == old(invViol)
      {
        var sc := succs[i];
        if sc.actor != prevActor {
          NumberingNextActor(succs, i, prevActor, labels, seenStamp, seenN, stamp);
          NextStamp();
          prevActor := sc.actor;
        }
        ExpandFromState(cfg, old(states)[from], i);
        next := MergeSucc(from, succs, i, next);
        OneMoreMerged(cfg, old(View()), from, succs, i);
      }
    }

    /** Numbers and links one successor. */
    method MergeSucc(from: nat, succs: seq<Succ<S>>, i: nat, next0: seq<S>) returns (next: seq<S>)
      requires Valid() && Shaped(View()) && from < |states| && i < |succs|
      requires FromState(cfg, succs[i])
      requires Numbering(succs, i, succs[i].actor, labels, seenStamp, seenN, stamp) && 0 < stamp
      modifies this, index, index.table
      ensures Valid() && (index.table == old(index.table) || fresh(index.table))
      ensures View() == MergeOne(cfg, old(View()), from, succs, i)
      ensures Numbering(succs, i + 1, succs[i].actor, labels, seenStamp, seenN, stamp) && stamp == old(stamp)
      ensures old(states) <= states && next == next0 + states[|old(states)|..]
      ensures goal == old(goal) && invViol == old(invViol)
    {
      hide Valid, Numbering, Linked, Interned, Counted, LabelId, CountLabelled;
      var id := NumberSucc(succs, i, succs[i]);
      next := Link(from, id, succs[i], next0);
    }

    /** Finds the label of a successor and numbers the move under it. */
    method NumberSucc(ghost succs: seq<Succ<S>>, i: nat, sc: Succ<S>) returns (id: nat)
      requires Valid() && Shaped(View()) && i < |succs| && sc == succs[i]
      requires Numbering(succs, i, sc.actor, labels, seenStamp, seenN, stamp) && 0 < stamp
      modifies this`labels, this`labelIDs, this`labelCount, this`seenStamp, this`seenN
      ensures Valid() && id == LabelId(old(labels), LabelOf(sc)) && id < |labels| == |seenN|
      ensures View() == Counted(Interned(old(View()), LabelOf(sc)), id)
      ensures Numbering(succs, i + 1, sc.actor, labels, seenStamp, seenN, stamp)
      ensures seenN[id] == CountLabelled(succs, i, LabelOf(sc))
    {
      hide Valid, Numbering, Interned, Counted, LabelId, CountLabelled;
      var l := LabelOf(sc);
      ghost var labels0, seenStamp0, seenN0 := labels, seenStamp, seenN;
      id := Intern(l);
      if id == |labels0| {
        NumberingNewLabel(succs, i, sc.actor, labels0, seenStamp0, seenN0, stamp, l);
      }
      LabelsAreDistinct();
      StampsBounded();
      NumberingNext(succs, i, labels, seenStamp, seenN, stamp, id);
      NumberMove(id);
    }

    /** Every successor of a state, in actor then move order. */
    method ExpandState(s: S) returns (succs: seq<Succ<S>>)
      ensures succs == Expand(cfg, s)
    {
      succs := [];
      for a := 0 to |cfg.sys.actors|
        invariant succs == ExpandActors(cfg, s, a)
      {
        var moves := cfg.sys.Moves(a, s);
        ghost var before := succs;
        for j := 0 to |moves|
          invariant succs == before + SuccsOf(cfg, a, moves)[..j]
        {
          var m := moves[j];
          var key := cfg.sys.key(m.state);
          succs := succs + [Succ(a, m.name, m.state, cfg.sys.hash(key), if cfg.exact then key else "")];
        }
      }
    }

    /** Evaluates the goals on newly found states. */
    method EvaluateGoals(found: seq<S>, ghost before: seq<S>)
      requires |goal| == |cfg.sys.recoverables|
      requires forall r | 0 <= r < |goal| :: goal[r] == GoalColumn(cfg.sys, before, r)
      modifies this`goal
      ensures |goal| == |cfg.sys.recoverables|
      ensures forall r | 0 <= r < |goal| :: goal[r] == GoalColumn(cfg.sys, before + found, r)
    {
      for r := 0 to |goal|
        invariant |goal| == |cfg.sys.recoverables|
        invariant forall q | 0 <= q < |goal| ::
                    goal[q] == GoalColumn(cfg.sys, if q < r then before + found else before, q)
      {
        goal := goal[r := goal[r] + GoalColumn(cfg.sys, found, r)];
      }
    }

    /** Records the node of `s` for every invariant it is the first to violate. */
    method EvaluateInvariantsOn(s: S, node: nat, ghost before: seq<S>)
      requires |before| == node && |invViol| == |cfg.sys.invariants|
      requires forall i | 0 <= i < |invViol| :: invViol[i] == FirstViolation(cfg.sys.invariants[i].ok, before)
      modifies this`invViol
      ensures |invViol| == |cfg.sys.invariants|
      ensures forall i | 0 <= i < |invViol| :: invViol[i] == FirstViolation(cfg.sys.invariants[i].ok, before + [s])
    {
      hide FirstViolation;
      ghost var beyond := before + [s];
      for i := 0 to |invViol|
        invariant |invViol| == |cfg.sys.invariants|
        invariant forall q | 0 <= q < |invViol| ::
                    invViol[q] == FirstViolation(cfg.sys.invariants[q].ok, if q < i then beyond else before)
      {
        FirstViolationNext(cfg.sys.invariants[i].ok, before, s);
        if invViol[i].None? && !cfg.sys.invariants[i].ok(s) {
          invViol := invViol[i := Some(node)];
        }
      }
    }

    /** Records the first violation of each invariant among newly found states, in node order. */
    method EvaluateInvariants(found: seq<S>, base: nat, ghost before: seq<S>)
      requires |before| == base && |invViol| == |cfg.sys.invariants|
      requires forall i | 0 <= i < |invViol| :: invViol[i] == FirstViolation(cfg.sys.invariants[i].ok, before)
      modifies this`invViol
      ensures |invViol| == |cfg.sys.invariants|
      ensures forall i | 0 <= i < |invViol| :: invViol[i] == FirstViolation(cfg.sys.invariants[i].ok, before + found)
    {
      hide FirstViolation;
      assert before + found[..0] == before;
      for j := 0 to |found|
        invariant |invViol| == |cfg.sys.invariants|
        invariant forall i | 0 <= i < |invViol| ::
                    invViol[i] == FirstViolation(cfg.sys.invariants[i].ok, before + found[..j])
      {
        EvaluateInvariantsOn(found[j], base + j, before + found[..j]);
        assert before + found[..j] + [found[j]] == before + found[..j + 1];
      }
      assert found[..|found|] == found;
    }

    /** Evaluates the properties on newly found states, whose nodes are numbered from `base`. */
    method Evaluate(found: seq<S>, base: nat)
      requires Valid() && base + |found| == |states| && found == states[base..]
      requires PropertiesOf(cfg.sys, states[..base], goal, invViol)
      modifies this`goal, this`invViol
      ensures Valid() && View() == old(View())
      ensures PropertiesOf(cfg.sys, states, goal, invViol)
    {
      hide KeyIndex.Valid, LabelTable, IdsOf, FirstViolation, GoalColumn;
      ghost var before := states[..base];
      assert before + found == states;
      EvaluateGoals(found, before);
      EvaluateInvariants(found, base, before);
    }

    /** Closes the edge row of the node just merged. */
    method EndRow()
      requires Valid() && |edgeStart| <= |states|
      modifies this`edgeStart
      ensures Valid() && View() == CloseRow(old(View()))
    {
      hide KeyIndex.Valid, LabelTable, IdsOf;
      edgeStart := edgeStart + [|edgeTo|];
    }

    /** Merges one node's successors and closes its row. */
    method MergeRow(from: nat, succs: seq<Succ<S>>, next0: seq<S>) returns (next: seq<S>)
      requires Valid() && Shaped(View()) && from == |edgeStart| - 1 < |states| && succs == Expand(cfg, states[from])
      modifies this, index, index.table
      ensures Valid() && (index.table == old(index.table) || fresh(index.table))
      ensures View() == ExpandNode(cfg, old(View()), from)
      ensures old(states) <= states && next == next0 + states[|old(states)|..]
      ensures goal == old(goal) && invViol == old(invViol)
    {
      hide Expand, MergeFirst, Valid;
      next := Merge(from, succs, next0);
      EndRow();
    }

    /** Merges the expansions of consecutive nodes in node order, closing each one's row. */
    method MergeAll(out: seq<seq<Succ<S>>>, base: nat, next0: seq<S>) returns (next: seq<S>)
      requires Valid() && Shaped(View()) && base == |edgeStart| - 1 && base + |out| <= |states|
      requires forall i | 0 <= i < |out| :: out[i] == Expand(cfg, states[base + i])
      modifies this, index, index.table
      ensures Valid() && (index.table == old(index.table) || fresh(index.table))
      ensures View() == ExpandNodes(cfg, old(View()), |out|)
      ensures old(states) <= states && next == next0 + states[|old(states)|..]
      ensures goal == old(goal) && invViol == old(invViol)
    {
      hide Expand, ExpandNode, Valid;
      next := next0;
      for i := 0 to |out|
        invariant Valid() && (index.table == old(index.table) || fresh(index.table))
        invariant View() == ExpandNodes(cfg, old(View()), i)
        invariant old(states) <= states && next == next0 + states[|old(states)|..]
        invariant goal == old(goal) && invViol == old(invViol)
      {
        assert states[base + i] == old(states)[base + i];
        next := MergeRow(base + i, out[i], next);
      }
    }

    /**
     Expands every state of a chunk: one after the other when there is one worker or one state,
     and otherwise by workers sharing the loop. An expansion touches nothing the workers share,
     so what one leaves in its slot is a function of the state.
     */
    method ExpandAll(chunk: seq<S>, base: nat) returns (out: seq<seq<Succ<S>>>)
      ensures |out| == |chunk| && forall i | 0 <= i < |chunk| :: out[i] == Expand(cfg, chunk[i])
    {
      hide Expand;
      out := [];
      if workers <= 1 || |chunk| <= 1 {
        for i := 0 to |chunk|
          invariant |out| == i && forall j | 0 <= j < i :: out[j] == Expand(cfg, chunk[j])
        {
          var succs := ExpandState(chunk[i]);
          out := out + [succs];
        }
      } else {
        var expand: nat -> Option<seq<Succ<S>>> := (i: nat) => if i < |chunk| then Some(Expand(cfg, chunk[i])) else None;
        var slots, fail := ParallelFor.Fork(Min(workers, |chunk|), |chunk|, expand, schedule(base));
        assert forall i: nat | i < |chunk| :: expand(i) == Some(Expand(cfg, chunk[i]));
        out := seq(|chunk|, i requires 0 <= i < |chunk| => if slots[i].Some? then slots[i].value else []);
      }
    }

    /** Expands a stretch of the frontier, then merges all its successors in node order. */
    method ExpandChunk(chunk: seq<S>, base: nat, next0: seq<S>) returns (next: seq<S>)
      requires Valid() && Shaped(View()) && base == |edgeStart| - 1 && base + |chunk| <= |states|
      requires chunk == states[base..base + |chunk|]
      requires PropertiesOf(cfg.sys, states, goal, invViol)
      modifies this, index, index.table
      ensures Valid() && (index.table == old(index.table) || fresh(index.table))
      ensures View() == ExpandNodes(cfg, old(View()), |chunk|)
      ensures old(states) <= states && next == next0 + states[|old(states)|..]
      ensures PropertiesOf(cfg.sys, states, goal, invViol)
    {
      hide Expand, ExpandNodes, PropertiesOf, Valid;
      var out := ExpandAll(chunk, base);
      assert forall i | 0 <= i < |out| :: chunk[i] == states[base + i];
      next := MergeAll(out, base, next0);
      assert states[..|old(states)|] == old(states);
      Evaluate(next[|next0|..], |parent| - (|next| - |next0|));
    }

    /** Enters initial state `k` unless it repeats one or there is no room. */
    method AddRootNode(k: nat, cur0: seq<S>) returns (cur: seq<S>)
      requires Valid() && Shaped(View()) && k < |cfg.sys.initial| && cur0 == states
      modifies this`parent, this`via, this`ordinal, this`hash, this`unknown, this`states
      modifies this`roots, this`truncated, index, index.table
      ensures Valid() && (index.table == old(index.table) || fresh(index.table))
      ensures View() == AddRoot(cfg, old(View()), k) && cur == states
    {
      hide KeyIndex.Valid, LabelTable, IdsOf, Position, Distinct;
      cur := cur0;
      var s := cfg.sys.initial[k];
      var key := cfg.sys.key(s);
      var h := cfg.sys.hash(key);
      var to, seen := FindNode(Succ(0, "", s, h, key));
      if seen {
        return;
      }
      if |parent| >= cfg.maxStates {
        truncated := true;
        return;
      }
      var node := AddNode(-1, -1, 0, h, key, s);
      roots := roots + [k];
      cur := cur + [s];
    }

    /** Marks the whole waiting level unknown and leaves its rows empty. */
    method CutLevel()
      requires Valid() && Shaped(View())
      modifies this`unknown, this`edgeStart, this`truncated
      ensures Valid() && View() == CutOff(old(View()))
      ensures truncated && |unknown| == |old(unknown)| && |edgeStart| == |states| + 1
      ensures forall i | 0 <= i < |unknown| :: unknown[i] <==> old(unknown)[i] || i >= |old(edgeStart)| - 1
      ensures old(edgeStart) <= edgeStart && forall i | |old(edgeStart)| <= i < |edgeStart| :: edgeStart[i] == |edgeTo|
    {
      hide KeyIndex.Valid, LabelTable, IdsOf;
      ghost var done, edges := |edgeStart| - 1, |edgeTo|;
      for levelStart := |edgeStart| - 1 to |parent|
        invariant done <= levelStart <= |states| && |unknown| == |states|
        invariant edgeStart == old(edgeStart) + seq(levelStart - done, _ => edges)
        invariant forall i | 0 <= i < |unknown| :: unknown[i] == (old(unknown)[i] || done <= i < levelStart)
        modifies this`unknown, this`edgeStart
      {
        unknown := unknown[levelStart := true];
        edgeStart := edgeStart + [|edgeTo|];
        assert seq(levelStart + 1 - done, _ => edges) == seq(levelStart - done, _ => edges) + [edges];
      }
      assert unknown == CutOff(old(View())).unknown && edgeStart == CutOff(old(View())).edgeStart;
      truncated := true;
    }

    /** Expands the whole waiting level, a chunk at a time. */
    method ExpandLevel(cur: seq<S>) returns (next: seq<S>)
      requires Valid() && Shaped(View()) && cur == states[|edgeStart| - 1..]
      requires PropertiesOf(cfg.sys, states, goal, invViol)
      modifies this, index, index.table
      ensures Valid() && (index.table == old(index.table) || fresh(index.table))
      ensures View() == ExpandNodes(cfg, old(View()), |cur|)
      ensures old(states) <= states && next == states[|old(states)|..]
      ensures PropertiesOf(cfg.sys, states, goal, invViol)
    {
      hide Valid, ExpandNodes, PropertiesOf;
      var levelStart := |edgeStart| - 1;
      var chunk := Max(1, workers * chunkNodesPerWorker);
      next := [];
      var lo := 0;
      ExpandNoNodes(cfg, View());
      while lo < |cur|
        invariant lo <= |cur| && Valid() && (index.table == old(index.table) || fresh(index.table))
        invariant View() == ExpandNodes(cfg, old(View()), lo)
        invariant old(states) <= states && next == states[|old(states)|..]
        invariant PropertiesOf(cfg.sys, states, goal, invViol)
      {
        var hi := Min(lo + chunk, |cur|);
        ExpandNodesSplit(cfg, old(View()), lo, hi - lo);
        LevelSlice(old(states), states, levelStart, cur, lo, hi);
        next := ExpandChunk(cur[lo..hi], levelStart + lo, next);
        lo := hi;
      }
    }

    /** Adds the initial states as roots. */
    method AddInitialStates() returns (cur: seq<S>)
      requires Valid() && View() == EmptyGraph<S>()
      modifies this, index, index.table
      ensures Valid() && (index.table == old(index.table) || fresh(index.table))
      ensures View() == AddInitial(cfg, |cfg.sys.initial|) && cur == states
      ensures goal == old(goal) && invViol == old(invViol)
    {
      hide Valid, AddRoot;
      cur := [];
      for k := 0 to |cfg.sys.initial|
        invariant Valid() && (index.table == old(index.table) || fresh(index.table))
        invariant View() == AddInitial(cfg, k) && cur == states
        invariant goal == old(goal) && invViol == old(invViol)
      {
        cur := AddRootNode(k, cur);
      }
    }

    /**
     The search. Whatever the number of workers, their scheduling and the chunk size, it ends with the graph,
     the goals and the first violations of a sequential breadth-first search.
     */
    method Run()
      requires Valid() && View() == EmptyGraph<S>()
      requires PropertiesOf(cfg.sys, states, goal, invViol)
      modifies this, index, index.table
      ensures Valid() && View() == Explored(cfg)
      ensures PropertiesOf(cfg.sys, states, goal, invViol)
      ensures IdentityDecides(cfg.sys, cfg.exact) ==>
        ParentsBelow(View().parent) && |View().edgeStart| == |View().states| + 1 && MarksExact(cfg, View())
    {
      hide Valid, MarksExact, IdentityDecides, PropertiesOf, AddInitial, ExpandNodes, CutOff;
      if IdentityDecides(cfg.sys, cfg.exact) {
        ExplorationMarks(cfg);
      }
      var cur := AddInitialStates();
      assert states[..0] == old(states);
      Evaluate(cur, 0);
      var depth := 0;
      while |cur| > 0
        invariant Valid() && (index.table == old(index.table) || fresh(index.table))
        invariant Shaped(View()) && |states| <= cfg.Limit() && cur == states[|edgeStart| - 1..]
        invariant RunLevels(cfg, View(), depth) == Explored(cfg)
        invariant PropertiesOf(cfg.sys, states, goal, invViol)
        decreases cfg.Limit() + 1 - |edgeStart|
      {
        if cfg.maxDepth > 0 && depth >= cfg.maxDepth {
          CutLevel();
          return;
        }
        cur := ExpandLevel(cur);
        depth := depth + 1;
      }
    }
  }

  lemma {:induction false} NoneMerged<S>(cfg: Config<S>, g: Graph<S>, from: nat, succs: seq<Succ<S>>)
    requires Shaped(g) && from < |g.states|
    ensures MergeFirst(cfg, g, from, succs, 0) == g
  {
  }

  lemma {:induction false} OneMoreMerged<S>(cfg: Config<S>, g: Graph<S>, from: nat, succs: seq<Succ<S>>, n: nat)
    requires Shaped(g) && from < |g.states| && n < |succs|
    ensures MergeFirst(cfg, g, from, succs, n + 1) == MergeOne(cfg, MergeFirst(cfg, g, from, succs, n), from, succs, n)
  {
    hide MergeOne;
  }

  /** A stretch of the level is a stretch of the state column, however it has grown. */
  lemma {:induction false} LevelSlice<S>(before: seq<S>, states: seq<S>, start: nat, cur: seq<S>, lo: nat, hi: nat)
    requires before <= states && start <= |before| && cur == before[start..] && lo <= hi <= |cur|
    ensures cur[lo..hi] == states[start + lo..start + hi]
  {
  }

  lemma {:induction false} ExpandNoNodes<S>(cfg: Config<S>, g: Graph<S>)
    requires Shaped(g)
    ensures ExpandNodes(cfg, g, 0) == g
  {
  }

  /** Expanding some nodes and then more is expanding all of them: chunk boundaries do not matter. */
  lemma {:induction false} ExpandNodesSplit<S>(cfg: Config<S>, g: Graph<S>, m: nat, n: nat)
    requires Shaped(g) && |g.edgeStart| - 1 + m + n <= |g.states|
    ensures ExpandNodes(cfg, ExpandNodes(cfg, g, m), n) == ExpandNodes(cfg, g, m + n)
    decreases n
  {
    hide ExpandNode;
    if n > 0 {
      ExpandNodesSplit(cfg, g, m, n - 1);
    }
  }

  /** The hash and key carried by a successor are those of its state. */
  ghost predicate FromState<S>(cfg: Config<S>, sc: Succ<S>) {
    sc.hash == cfg.Hash(sc.state) && Identify(cfg.exact, sc.hash, sc.key) == cfg.Id(sc.state)
  }

  lemma {:induction false} ExpandFromState<S>(cfg: Config<S>, s: S, p: nat)
    requires p < |Expand(cfg, s)|
    ensures FromState(cfg, Expand(cfg, s)[p])
  {
    var a, j := LocateSucc(cfg, s, |cfg.sys.actors|, p);
  }

  lemma {:induction false} StartNumbering<S>(succs: seq<Succ<S>>, actor: int, labels: seq<Label>,
                                             seenStamp: seq<nat>, seenN: seq<nat>, stamp: nat)
    requires |seenStamp| == |seenN| == |labels| && actor < 0
    requires forall id | 0 <= id < |labels| :: seenStamp[id] <= stamp
    ensures Numbering(succs, 0, actor, labels, seenStamp, seenN, stamp)
  {
  }
}

