/**
 Coverage: a label is counted once for every move yielded under it from an expanded node,
 including moves to states already seen or refused (modelcheck/explore.go:144-146, 263-276).
 The report adds the counts up by actor and verb (modelcheck/explore.go:92-95).
 */
module Coverage {
  import opened Wrappers
  import opened Systems
  import opened Search
  import opened GraphInvariant
  import opened BreadthFirst

  /** What the first `n` labels that `pick` selects were counted. */
  function Tally(labels: seq<Label>, counts: seq<nat>, n: nat, pick: Label -> bool): nat
    requires n <= |labels| == |counts|
  {
    if n == 0 then 0
    else Tally(labels, counts, n - 1, pick) + if pick(labels[n - 1]) then counts[n - 1] else 0
  }

  function GraphTally<S>(g: Graph<S>, pick: Label -> bool): nat
    requires Shaped(g)
  {
    Tally(g.labels, g.labelCount, |g.labels|, pick)
  }

  /** How many of the first `n` successors carry a label that `pick` selects. */
  function CountPicked<S>(succs: seq<Succ<S>>, n: nat, pick: Label -> bool): nat
    requires n <= |succs|
  {
    if n == 0 then 0
    else CountPicked(succs, n - 1, pick) + if pick(LabelOf(succs[n - 1])) then 1 else 0
  }

  /** How often the first `n` of the given states yield a move under a selected label. */
  function Yielded<S>(cfg: Config<S>, states: seq<S>, n: nat, pick: Label -> bool): nat
    requires n <= |states|
  {
    if n == 0 then 0
    else
      var succs := Expand(cfg, states[n - 1]);
      Yielded(cfg, states, n - 1, pick) + CountPicked(succs, |succs|, pick)
  }

  lemma {:induction false} YieldedPrefix<S>(cfg: Config<S>, states: seq<S>, states': seq<S>, n: nat, pick: Label -> bool)
    requires n <= |states| && states <= states'
    ensures Yielded(cfg, states, n, pick) == Yielded(cfg, states', n, pick)
    decreases n
  {
    if n > 0 {
      YieldedPrefix(cfg, states, states', n - 1, pick);
    }
  }

  lemma {:induction false} TallyPrefix(labels: seq<Label>, counts: seq<nat>, more: seq<Label>, counts': seq<nat>, n: nat, pick: Label -> bool)
    requires n <= |labels| == |counts| && labels <= more && counts <= counts' && |more| == |counts'|
    ensures Tally(labels, counts, n, pick) == Tally(more, counts', n, pick)
    decreases n
  {
    if n > 0 {
      TallyPrefix(labels, counts, more, counts', n - 1, pick);
    }
  }

  /** Counting one label once more. */
  lemma {:induction false} TallyUpdate(labels: seq<Label>, counts: seq<nat>, id: nat, n: nat, pick: Label -> bool)
    requires n <= |labels| == |counts| && id < |counts|
    ensures Tally(labels, counts[id := counts[id] + 1], n, pick)
            == Tally(labels, counts, n, pick) + if id < n && pick(labels[id]) then 1 else 0
    decreases n
  {
    if n > 0 {
      TallyUpdate(labels, counts, id, n - 1, pick);
    }
  }

  /** Labels are numbered only when they are about to be counted. */
  ghost predicate AllCounted<S>(g: Graph<S>) {
    forall id | 0 <= id < |g.labelCount| :: g.labelCount[id] > 0
  }

  lemma {:induction false} CountedTally<S>(g: Graph<S>, pick: Label -> bool, k: Label)
    requires Shaped(g) && AllCounted(g)
    ensures var g' := Counted(Interned(g, k), LabelId(g.labels, k));
            GraphTally(g', pick) == GraphTally(g, pick) + (if pick(k) then 1 else 0) && AllCounted(g')
  {
    var id := LabelId(g.labels, k);
    var g1 := Interned(g, k);
    TallyPrefix(g.labels, g.labelCount, g1.labels, g1.labelCount, |g.labels|, pick);
    TallyUpdate(g1.labels, g1.labelCount, id, |g1.labels|, pick);
  }

  lemma {:induction false} MergeOneTally<S>(cfg: Config<S>, g: Graph<S>, from: nat, succs: seq<Succ<S>>, n: nat, pick: Label -> bool)
    requires Shaped(g) && AllCounted(g) && from < |g.states| && n < |succs|
    ensures var g' := MergeOne(cfg, g, from, succs, n);
            GraphTally(g', pick) == GraphTally(g, pick) + (if pick(LabelOf(succs[n])) then 1 else 0) && AllCounted(g')
  {
    hide Counted, Interned, LabelId;
    CountedTally(g, pick, LabelOf(succs[n]));
  }

  lemma {:induction false} MergeFirstTally<S>(cfg: Config<S>, g: Graph<S>, from: nat, succs: seq<Succ<S>>, n: nat, pick: Label -> bool)
    requires Shaped(g) && AllCounted(g) && from < |g.states| && n <= |succs|
    ensures var g' := MergeFirst(cfg, g, from, succs, n);
            GraphTally(g', pick) == GraphTally(g, pick) + CountPicked(succs, n, pick) && AllCounted(g')
    decreases n
  {
    hide MergeOne, GraphTally, AllCounted;
    if n > 0 {
      MergeFirstTally(cfg, g, from, succs, n - 1, pick);
      MergeOneTally(cfg, MergeFirst(cfg, g, from, succs, n - 1), from, succs, n - 1, pick);
    }
  }

  /** Selected labels are counted as often as the expanded nodes yield them. */
  ghost predicate Covered<S>(cfg: Config<S>, g: Graph<S>, pick: Label -> bool) {
    && Shaped(g) && AllCounted(g)
    && GraphTally(g, pick) == Yielded(cfg, g.states, |g.edgeStart| - 1, pick)
  }

  lemma {:induction false} ExpandNodeCovers<S>(cfg: Config<S>, g: Graph<S>, pick: Label -> bool)
    requires Covered(cfg, g, pick) && |g.edgeStart| - 1 < |g.states|
    ensures Covered(cfg, ExpandNode(cfg, g, |g.edgeStart| - 1), pick)
  {
    hide Expand, MergeFirst, Grows;
    var from := |g.edgeStart| - 1;
    var succs := Expand(cfg, g.states[from]);
    MergeFirstTally(cfg, g, from, succs, |succs|, pick);
    var g' := ExpandNode(cfg, g, from);
    ExpandNodeAdds(cfg, g);
    AddsPrefix(g, g', from, from + 1);
    YieldedPrefix(cfg, g.states, g'.states, from, pick);
  }

  lemma {:induction false} AddsPrefix<S>(g: Graph<S>, g': Graph<S>, lo: nat, hi: nat)
    requires Adds(g, g', lo, hi)
    ensures g.states <= g'.states
  {
  }

  lemma {:induction false} ExpandNodesCover<S>(cfg: Config<S>, g: Graph<S>, n: nat, pick: Label -> bool)
    requires Covered(cfg, g, pick) && |g.edgeStart| - 1 + n <= |g.states|
    ensures Covered(cfg, ExpandNodes(cfg, g, n), pick)
    decreases n
  {
    hide ExpandNode, GraphTally, Yielded, AllCounted;
    if n > 0 {
      ExpandNodesCover(cfg, g, n - 1, pick);
      ExpandNodeCovers(cfg, ExpandNodes(cfg, g, n - 1), pick);
    }
  }

  /** The nodes already expanded lie above `depth`, the waiting ones at it. */
  ghost predicate AtDepth<S>(g: Graph<S>, depth: nat) {
    && Shaped(g) && ParentsBelow(g.parent)
    && forall i | 0 <= i < |g.states| ::
         if i < |g.edgeStart| - 1 then Depth(g.parent, i) < depth else Depth(g.parent, i) == depth
  }

  lemma {:induction false} NextDepth<S>(cfg: Config<S>, g: Graph<S>, depth: nat)
    requires AtDepth(g, depth)
    ensures AtDepth(ExpandNodes(cfg, g, |g.states| - (|g.edgeStart| - 1)), depth + 1)
  {
    hide ExpandNodes;
    var done := |g.edgeStart| - 1;
    var g' := ExpandNodes(cfg, g, |g.states| - done);
    ExpandNodesAdds(cfg, g, |g.states| - done);
    forall i | 0 <= i < |g'.parent| ensures -1 <= g'.parent[i] < i {
      assert i < |g.parent| ==> g'.parent[i] == g.parent[i];
    }
    forall i | 0 <= i < |g'.states|
      ensures if i < |g.states| then Depth(g'.parent, i) <= depth else Depth(g'.parent, i) == depth + 1
    {
      DepthOfPrefix(g.parent, g'.parent, if i < |g.states| then i else g'.parent[i]);
    }
  }

  /** Whether the depth bound lets a node at this depth be expanded. */
  predicate Expandable<S>(cfg: Config<S>, depth: nat) {
    cfg.maxDepth <= 0 || depth < cfg.maxDepth
  }

  /** The first `expanded` nodes are those the depth bound allows, and they alone are counted. */
  ghost predicate CountsExpanded<S>(cfg: Config<S>, g: Graph<S>, pick: Label -> bool, expanded: nat) {
    && Shaped(g) && ParentsBelow(g.parent) && expanded <= |g.states|
    && (forall i | 0 <= i < |g.states| :: i < expanded <==> Expandable(cfg, Depth(g.parent, i)))
    && GraphTally(g, pick) == Yielded(cfg, g.states, expanded, pick) && AllCounted(g)
  }

  lemma {:induction false} RunLevelsCover<S>(cfg: Config<S>, g: Graph<S>, depth: nat, pick: Label -> bool) returns (expanded: nat)
    requires Shaped(g) && |g.states| <= cfg.Limit() && Covered(cfg, g, pick)
    requires AtDepth(g, depth) && (cfg.maxDepth <= 0 || depth <= cfg.maxDepth)
    ensures CountsExpanded(cfg, RunLevels(cfg, g, depth), pick, expanded)
    ensures expanded < |RunLevels(cfg, g, depth).states| ==> RunLevels(cfg, g, depth).truncated
    decreases cfg.Limit() + 1 - |g.edgeStart|
  {
    hide ExpandNodes, Covered, AtDepth, CountsExpanded;
    var todo := |g.states| - (|g.edgeStart| - 1);
    if todo > 0 && !(cfg.maxDepth > 0 && depth >= cfg.maxDepth) {
      ExpandNodesCover(cfg, g, todo, pick);
      NextDepth(cfg, g, depth);
      expanded := RunLevelsCover(cfg, ExpandNodes(cfg, g, todo), depth + 1, pick);
    } else {
      expanded := |g.edgeStart| - 1;
      LastLevel(cfg, g, depth, pick);
    }
  }

  lemma {:induction false} LastLevel<S>(cfg: Config<S>, g: Graph<S>, depth: nat, pick: Label -> bool)
    requires Covered(cfg, g, pick) && AtDepth(g, depth) && (cfg.maxDepth <= 0 || depth <= cfg.maxDepth)
    ensures |g.edgeStart| - 1 == |g.states| ==> CountsExpanded(cfg, g, pick, |g.edgeStart| - 1)
    ensures cfg.maxDepth > 0 && depth >= cfg.maxDepth ==> CountsExpanded(cfg, CutOff(g), pick, |g.edgeStart| - 1)
  {
  }

  lemma {:induction false} InitialHasNoLabels<S>(cfg: Config<S>, n: nat)
    requires n <= |cfg.sys.initial|
    ensures AddInitial(cfg, n).labels == []
    decreases n
  {
    if n > 0 {
      InitialHasNoLabels(cfg, n - 1);
    }
  }

  lemma {:induction false} RootsAtDepthZero<S>(cfg: Config<S>, n: nat)
    requires n <= |cfg.sys.initial|
    ensures AtDepth(AddInitial(cfg, n), 0)
    ensures forall i | 0 <= i < |AddInitial(cfg, n).parent| :: AddInitial(cfg, n).parent[i] == -1
    decreases n
  {
    if n > 0 {
      RootsAtDepthZero(cfg, n - 1);
    }
  }

  /**
   Whatever move was refused and whichever bound cut the search, any choice of labels is counted
   once for every move under them of every node within the depth bound, and for no other.
   */
  lemma {:induction false} CoverageIsExact<S>(cfg: Config<S>, pick: Label -> bool) returns (expanded: nat)
    ensures CountsExpanded(cfg, Explored(cfg), pick, expanded)
    ensures !Explored(cfg).truncated ==> expanded >= |Explored(cfg).states|
  {
    var g := AddInitial(cfg, |cfg.sys.initial|);
    InitialHasNoLabels(cfg, |cfg.sys.initial|);
    RootsAtDepthZero(cfg, |cfg.sys.initial|);
    assert Covered(cfg, g, pick);
    expanded := RunLevelsCover(cfg, g, 0, pick);
  }

  // ----- The coverage report -----

  /** A move's verb: its name up to the first blank. */
  function Verb(move: string): (v: string)
    ensures v <= move && ' ' !in v
    ensures |v| < |move| ==> move[|v|] == ' '
  {
    if move == "" || move[0] == ' ' then "" else [move[0]] + Verb(move[1..])
  }

  function CoverageKey<S>(sys: System<S>, l: Label): string
    requires l.actor < |sys.actors|
  {
    sys.actors[l.actor].name + "/" + Verb(l.move)
  }

  /** A key names the actor, and of the move what stands before its first space. */
  lemma {:induction false} KeyMeaning<S>(sys: System<S>, l: Label, verb: string, rest: string)
    requires l.actor < |sys.actors| && ' ' !in verb && (rest == "" || rest[0] == ' ') && l.move == verb + rest
    ensures CoverageKey(sys, l) == sys.actors[l.actor].name + "/" + verb
  {
    VerbMeaning(verb, rest);
  }

  lemma {:induction false} VerbMeaning(verb: string, rest: string)
    requires ' ' !in verb && (rest == "" || rest[0] == ' ')
    ensures Verb(verb + rest) == verb
  {
    if verb == "" {
      assert verb + rest == rest;
    } else {
      assert verb[0] in verb;
      assert (verb + rest)[1..] == verb[1..] + rest;
      VerbMeaning(verb[1..], rest);
    }
  }

  /** The labels reported under the given key. */
  function Under<S>(sys: System<S>, key: string): Label -> bool {
    (l: Label) => l.actor < |sys.actors| && CoverageKey(sys, l) == key
  }

  /** The counts of the first `n` labels, added up by key. */
  function CoverageOf<S>(sys: System<S>, labels: seq<Label>, counts: seq<nat>, n: nat): map<string, nat>
    requires n <= |labels| == |counts| && forall id | 0 <= id < |labels| :: labels[id].actor < |sys.actors|
  {
    if n == 0 then map[]
    else
      var before := CoverageOf(sys, labels, counts, n - 1);
      var key := CoverageKey(sys, labels[n - 1]);
      before[key := (if key in before then before[key] else 0) + counts[n - 1]]
  }

  lemma {:induction false} CoverageIsTally<S>(sys: System<S>, labels: seq<Label>, counts: seq<nat>, n: nat, key: string)
    requires n <= |labels| == |counts| && forall id | 0 <= id < |labels| :: labels[id].actor < |sys.actors|
    requires forall id | 0 <= id < |labels| :: counts[id] > 0
    ensures var coverage, total := CoverageOf(sys, labels, counts, n), Tally(labels, counts, n, Under(sys, key));
            (key in coverage <==> total > 0) && (key in coverage ==> coverage[key] == total)
    decreases n
  {
    if n > 0 {
      CoverageIsTally(sys, labels, counts, n - 1, key);
    }
  }

  /** Adds up the counts by key. */
  method ReportCoverage<S>(sys: System<S>, labels: seq<Label>, counts: seq<nat>) returns (coverage: map<string, nat>)
    requires |labels| == |counts| && forall id | 0 <= id < |labels| :: labels[id].actor < |sys.actors|
    ensures coverage == CoverageOf(sys, labels, counts, |labels|)
  {
    coverage := map[];
    for id := 0 to |counts|
      invariant coverage == CoverageOf(sys, labels, counts, id)
    {
      var key := CoverageKey(sys, labels[id]);
      coverage := coverage[key := (if key in coverage then coverage[key] else 0) + counts[id]];
    }
  }
}
