/**
 What a breadth-first search that expands one node after another computes
 (modelcheck/explore.go). Nothing here mentions chunks, workers, levels of a frontier held
 in memory, stamps or a hash table: the explorer is proved to compute exactly this.
 */
module Search {
  import opened Wrappers
  import opened Index
  import opened Systems

  datatype Label = Label(actor: nat, move: string)

  /** A successor awaiting the merge. The key is kept only in exact-key mode. */
  datatype Succ<+S> = Succ(actor: nat, move: string, state: S, hash: Hash128, key: string)

  datatype Config<!S> = Config(sys: System<S>, exact: bool, maxStates: int, maxDepth: int) {
    function Id(s: S): Ident { sys.Id(exact, s) }
    function Hash(s: S): Hash128 { sys.hash(sys.key(s)) }

    /** The most nodes the search may hold. */
    function Limit(): nat { if maxStates < 0 then 0 else maxStates }
  }

  /**
   The explored graph, column-wise. The program keeps no states: `states` says which state
   each node stands for.
   */
  datatype Graph<+S> = Graph(
    states: seq<S>,
    parent: seq<int>,
    via: seq<int>,  // the label of the move that discovered the node
    ordinal: seq<nat>,
    hash: seq<Hash128>,
    unknown: seq<bool>,
    edgeStart: seq<nat>,
    edgeLabel: seq<nat>,
    edgeTo: seq<nat>,
    labels: seq<Label>,
    labelCount: seq<nat>,
    roots: seq<nat>,
    truncated: bool)

  function EmptyGraph<S>(): Graph<S> {
    Graph([], [], [], [], [], [], [0], [], [], [], [], [], false)
  }

  /** All columns about nodes are equally long, and so are those about edges and labels. */
  predicate Shaped<S>(g: Graph<S>) {
    && |g.parent| == |g.via| == |g.ordinal| == |g.hash| == |g.unknown| == |g.states|
    && |g.edgeLabel| == |g.edgeTo|
    && |g.labelCount| == |g.labels|
    && 0 < |g.edgeStart| <= |g.states| + 1
    && |g.roots| <= |g.states|
  }

  function IdsOf<S>(cfg: Config<S>, states: seq<S>): (ids: seq<Ident>)
    ensures |ids| == |states|
    ensures forall i | 0 <= i < |ids| :: ids[i] == cfg.Id(states[i])
  {
    seq(|states|, i requires 0 <= i < |states| => cfg.Id(states[i]))
  }

  function Ids<S>(cfg: Config<S>, g: Graph<S>): (ids: seq<Ident>)
    ensures |ids| == |g.states|
    ensures forall i | 0 <= i < |ids| :: ids[i] == cfg.Id(g.states[i])
  {
    IdsOf(cfg, g.states)
  }

  /** The last position of `x` in `s`. */
  function Position<T(==)>(s: seq<T>, x: T): (p: Option<nat>)
    ensures p.Some? ==> p.value < |s| && s[p.value] == x
    ensures p.None? <==> x !in s
  {
    if |s| == 0 then None
    else if s[|s| - 1] == x then Some(|s| - 1)
    else Position(s[..|s| - 1], x)
  }

  /** In a sequence without repeats a value has one position. */
  lemma {:induction false} PositionIs<T>(s: seq<T>, x: T, i: nat)
    requires Distinct(s) && i < |s| && s[i] == x
    ensures Position(s, x) == Some(i)
  {
  }

  // ----- Expanding one state -----

  function ToSucc<S>(cfg: Config<S>, a: nat, m: Move<S>): Succ<S> {
    Succ(a, m.name, m.state, cfg.Hash(m.state), if cfg.exact then cfg.sys.key(m.state) else "")
  }

  function SuccsOf<S>(cfg: Config<S>, a: nat, moves: seq<Move<S>>): (succs: seq<Succ<S>>)
    ensures |succs| == |moves|
  {
    seq(|moves|, j requires 0 <= j < |moves| => ToSucc(cfg, a, moves[j]))
  }

  /** Every successor of `s` by the first `n` actors, in actor then move order. */
  function ExpandActors<S>(cfg: Config<S>, s: S, n: nat): seq<Succ<S>>
    requires n <= |cfg.sys.actors|
  {
    if n == 0 then [] else ExpandActors(cfg, s, n - 1) + SuccsOf(cfg, n - 1, cfg.sys.Moves(n - 1, s))
  }

  function Expand<S>(cfg: Config<S>, s: S): seq<Succ<S>> {
    ExpandActors(cfg, s, |cfg.sys.actors|)
  }

  /** How many of the first `n` successors carry the given actor and move name. */
  function CountLabelled<S>(succs: seq<Succ<S>>, n: nat, l: Label): nat
    requires n <= |succs|
  {
    if n == 0 then 0
    else CountLabelled(succs, n - 1, l) + if LabelOf(succs[n - 1]) == l then 1 else 0
  }

  function LabelOf<S>(sc: Succ<S>): Label {
    Label(sc.actor, sc.move)
  }

  // ----- Merging successors -----

  function LabelId(labels: seq<Label>, l: Label): (id: nat)
    ensures id <= |labels|
    ensures id < |labels| ==> labels[id] == l
    ensures id == |labels| ==> l !in labels
  {
    match Position(labels, l)
    case Some(id) => id
    case None => |labels|
  }

  function Interned<S>(g: Graph<S>, l: Label): (g': Graph<S>)
    requires Shaped(g)
    ensures Shaped(g') && LabelId(g.labels, l) < |g'.labels|
  {
    if LabelId(g.labels, l) < |g.labels| then g
    else g.(labels := g.labels + [l], labelCount := g.labelCount + [0])
  }

  function Counted<S>(g: Graph<S>, id: nat): (g': Graph<S>)
    requires Shaped(g) && id < |g.labels|
    ensures Shaped(g')
  {
    g.(labelCount := g.labelCount[id := g.labelCount[id] + 1])
  }

  function WithNode<S>(cfg: Config<S>, g: Graph<S>, parent: int, via: int, ordinal: nat, s: S): (g': Graph<S>)
    requires Shaped(g)
    ensures Shaped(g')
  {
    g.(states := g.states + [s],
       parent := g.parent + [parent],
       via := g.via + [via],
       ordinal := g.ordinal + [ordinal],
       hash := g.hash + [cfg.Hash(s)],
       unknown := g.unknown + [false])
  }

  function WithEdge<S>(g: Graph<S>, id: nat, to: nat): (g': Graph<S>)
    requires Shaped(g)
    ensures Shaped(g')
  {
    g.(edgeLabel := g.edgeLabel + [id], edgeTo := g.edgeTo + [to])
  }

  /** Adds an edge to the node holding the identity of `s`, which is added if there is room. */
  function Linked<S>(cfg: Config<S>, g: Graph<S>, from: nat, id: nat, ordinal: nat, s: S): (g': Graph<S>)
    requires Shaped(g) && from < |g.states|
    ensures Shaped(g') && |g.states| <= |g'.states| <= |g.states| + 1 && g'.edgeStart == g.edgeStart
    ensures |g.states| <= cfg.Limit() ==> |g'.states| <= cfg.Limit()
  {
    match Position(Ids(cfg, g), cfg.Id(s))
    case Some(to) => WithEdge(g, id, to)
    case None =>
      if |g.states| >= cfg.maxStates then g.(truncated := true, unknown := g.unknown[from := true])
      else WithEdge(WithNode(cfg, g, from, id, ordinal, s), id, |g.states|)
  }

  /** Merges the successor numbered `n` of node `from`. */
  function MergeOne<S>(cfg: Config<S>, g: Graph<S>, from: nat, succs: seq<Succ<S>>, n: nat): (g': Graph<S>)
    requires Shaped(g) && from < |g.states| && n < |succs|
    ensures Shaped(g') && |g.states| <= |g'.states| <= |g.states| + 1 && g'.edgeStart == g.edgeStart
    ensures |g.states| <= cfg.Limit() ==> |g'.states| <= cfg.Limit()
  {
    var l := LabelOf(succs[n]);
    var id := LabelId(g.labels, l);
    Linked(cfg, Counted(Interned(g, l), id), from, id, CountLabelled(succs, n, l), succs[n].state)
  }

  function MergeFirst<S>(cfg: Config<S>, g: Graph<S>, from: nat, succs: seq<Succ<S>>, n: nat): (g': Graph<S>)
    requires Shaped(g) && from < |g.states| && n <= |succs|
    ensures Shaped(g') && |g.states| <= |g'.states| && g'.edgeStart == g.edgeStart
    ensures |g.states| <= cfg.Limit() ==> |g'.states| <= cfg.Limit()
  {
    if n == 0 then g else MergeOne(cfg, MergeFirst(cfg, g, from, succs, n - 1), from, succs, n - 1)
  }

  /** Closes the edge row of the node being expanded. */
  function CloseRow<S>(g: Graph<S>): Graph<S> {
    g.(edgeStart := g.edgeStart + [|g.edgeTo|])
  }

  function ExpandNode<S>(cfg: Config<S>, g: Graph<S>, from: nat): (g': Graph<S>)
    requires Shaped(g) && from < |g.states| && from == |g.edgeStart| - 1
    ensures Shaped(g') && |g.states| <= |g'.states| && |g'.edgeStart| == |g.edgeStart| + 1
    ensures |g.states| <= cfg.Limit() ==> |g'.states| <= cfg.Limit()
  {
    var succs := Expand(cfg, g.states[from]);
    CloseRow(MergeFirst(cfg, g, from, succs, |succs|))
  }

  /** Expands the next `n` nodes in index order. */
  function ExpandNodes<S>(cfg: Config<S>, g: Graph<S>, n: nat): (g': Graph<S>)
    requires Shaped(g) && |g.edgeStart| - 1 + n <= |g.states|
    ensures Shaped(g') && |g.states| <= |g'.states| && |g'.edgeStart| == |g.edgeStart| + n
    ensures |g.states| <= cfg.Limit() ==> |g'.states| <= cfg.Limit()
  {
    if n == 0 then g
    else
      var g1 := ExpandNodes(cfg, g, n - 1);
      ExpandNode(cfg, g1, |g1.edgeStart| - 1)
  }

  // ----- Whole runs -----

  /** Adds initial state `k` unless its identity is held already or there is no room. */
  function AddRoot<S>(cfg: Config<S>, g: Graph<S>, k: nat): (g': Graph<S>)
    requires Shaped(g) && k < |cfg.sys.initial|
    ensures Shaped(g') && g'.edgeStart == g.edgeStart
    ensures |g.states| <= cfg.Limit() ==> |g'.states| <= cfg.Limit()
  {
    var s := cfg.sys.initial[k];
    if cfg.Id(s) in Ids(cfg, g) then g
    else if |g.states| >= cfg.maxStates then g.(truncated := true)
    else WithNode(cfg, g, -1, -1, 0, s).(roots := g.roots + [k])
  }

  /** Adds the first `n` initial states in order. */
  function AddInitial<S>(cfg: Config<S>, n: nat): (g: Graph<S>)
    requires n <= |cfg.sys.initial|
    ensures Shaped(g) && |g.states| <= cfg.Limit() && g.edgeStart == [0]
  {
    if n == 0 then EmptyGraph() else AddRoot(cfg, AddInitial(cfg, n - 1), n - 1)
  }

  /** Gives up on every node not yet expanded: their futures are unknown. */
  function CutOff<S>(g: Graph<S>): (g': Graph<S>)
    requires Shaped(g)
    ensures Shaped(g')
  {
    var done := |g.edgeStart| - 1;
    g.(unknown := seq(|g.states|, i requires 0 <= i < |g.states| => g.unknown[i] || i >= done),
       edgeStart := g.edgeStart + seq(|g.states| - done, _ => |g.edgeTo|),
       truncated := true)
  }

  /** Expands level after level until none is left or the depth bound is met. */
  function RunLevels<S>(cfg: Config<S>, g: Graph<S>, depth: nat): (g': Graph<S>)
    requires Shaped(g) && |g.states| <= cfg.Limit()
    ensures Shaped(g') && |g'.states| <= cfg.Limit()
    decreases cfg.Limit() + 1 - |g.edgeStart|
  {
    var todo := |g.states| - (|g.edgeStart| - 1);
    if todo == 0 then g
    else if cfg.maxDepth > 0 && depth >= cfg.maxDepth then CutOff(g)
    else RunLevels(cfg, ExpandNodes(cfg, g, todo), depth + 1)
  }

  /** The graph of a whole exploration. */
  function Explored<S>(cfg: Config<S>): (g: Graph<S>)
    ensures Shaped(g) && |g.states| <= cfg.Limit()
  {
    RunLevels(cfg, AddInitial(cfg, |cfg.sys.initial|), 0)
  }
}
