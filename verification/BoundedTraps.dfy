/**
 What a trap search finds in a search cut by a bound, said of the system alone
 (modelcheck/explore.go:184-193, 278-285, 382-457): a state whose future was given up counts as
 able to recover, and no other state does without a reason.
 */
module BoundedTraps {
  import opened Wrappers
  import opened Index
  import opened Systems
  import opened Search
  import opened GraphInvariant
  import opened BreadthFirst
  import opened Marks
  import opened Traps

  /** The actors a recoverable property speaks of: those it names, or all if it names none. */
  lemma {:induction false} AllowedActorsAre<S>(sys: System<S>, r: Recoverable<S>, a: nat)
    ensures a in AllowedActors(sys, r) <==> a < |sys.actors| && (r.actors == [] || sys.actors[a].name in r.actors)
  {
  }

  /** No run shorter than the depth bound reaches the identity of `s`. */
  ghost predicate AtBound<S(!new)>(cfg: Config<S>, s: S) {
    cfg.maxDepth > 0 && NotSooner(cfg, cfg.Id(s), cfg.maxDepth)
  }

  /** The search gave the future of `s` up: at the depth bound, or for want of room. */
  ghost predicate GivenUp<S(!new)>(cfg: Config<S>, g: Graph<S>, s: S) {
    AtBound(cfg, s) || Refused(cfg, g, s)
  }

  /** Some run of at most `n` moves by allowed actors leads from `s` to a goal or to a state given up. */
  ghost predicate StraysIn<S(!new)>(cfg: Config<S>, g: Graph<S>, allowed: set<nat>, goal: S -> bool, s: S, n: nat) {
    || goal(s) || GivenUp(cfg, g, s)
    || (n > 0 && exists a, t :: a in allowed && Steps(cfg.sys, a, s, t) && StraysIn(cfg, g, allowed, goal, t, n - 1))
  }

  /** Every run of allowed moves from `s` keeps off the goal of property `r` and within what was explored. */
  ghost predicate Confined<S(!new)>(cfg: Config<S>, g: Graph<S>, r: nat, s: S)
    requires r < |cfg.sys.recoverables|
  {
    var p := cfg.sys.recoverables[r];
    forall n: nat :: !StraysIn(cfg, g, AllowedActors(cfg.sys, p), p.goal, s, n)
  }

  /** What the bounds took from a graph is as its nodes' marks say. */
  ghost predicate Marked<S(!new)>(cfg: Config<S>, g: Graph<S>) {
    && Finished(cfg, g) && MarksExact(cfg, g)
  }

  /** Being given up depends on a state's identity only. */
  lemma {:induction false} GivenUpTwin<S(!new)>(cfg: Config<S>, g: Graph<S>, s: S, twin: S)
    requires IdentityDecides(cfg.sys, cfg.exact)
    requires Reachable(cfg.sys, s) && Reachable(cfg.sys, twin) && cfg.Id(s) == cfg.Id(twin)
    requires GivenUp(cfg, g, s)
    ensures GivenUp(cfg, g, twin)
  {
    hide IdentityDecides;
    if Refused(cfg, g, s) {
      var a, t :| Steps(cfg.sys, a, s, t) && cfg.Id(t) !in Ids(cfg, g);
      var j := StepFromTwin(cfg.sys, cfg.exact, a, s, t, twin);
      assert Steps(cfg.sys, a, twin, cfg.sys.Moves(a, twin)[j].state);
    }
  }

  lemma {:induction false} StrayTwin<S(!new)>(cfg: Config<S>, g: Graph<S>, r: nat, s: S, twin: S, n: nat)
    requires IdentityDecides(cfg.sys, cfg.exact) && r < |cfg.sys.recoverables|
    requires Reachable(cfg.sys, s) && Reachable(cfg.sys, twin) && cfg.Id(s) == cfg.Id(twin)
    requires var p := cfg.sys.recoverables[r]; StraysIn(cfg, g, AllowedActors(cfg.sys, p), p.goal, s, n)
    ensures var p := cfg.sys.recoverables[r]; StraysIn(cfg, g, AllowedActors(cfg.sys, p), p.goal, twin, n)
    decreases n
  {
    hide AllowedActors, GivenUp;
    var p := cfg.sys.recoverables[r];
    var allowed := AllowedActors(cfg.sys, p);
    assert Alike(cfg.sys, cfg.exact, s, twin);
    if GivenUp(cfg, g, s) {
      GivenUpTwin(cfg, g, s, twin);
    } else if !p.goal(s) {
      var a, t :| a in allowed && Steps(cfg.sys, a, s, t) && StraysIn(cfg, g, allowed, p.goal, t, n - 1);
      var j := StepFromTwin(cfg.sys, cfg.exact, a, s, t, twin);
      var t' := cfg.sys.Moves(a, twin)[j].state;
      assert Steps(cfg.sys, a, twin, t');
      StepsStayReachable(cfg.sys, a, s, t);
      StepsStayReachable(cfg.sys, a, twin, t');
      StrayTwin(cfg, g, r, t, t', n - 1);
    }
  }

  /** A node is marked exactly when its state was given up. */
  lemma {:induction false} MarkedIffGivenUp<S(!new)>(cfg: Config<S>, g: Graph<S>, i: nat)
    requires Marked(cfg, g) && i < |g.states|
    ensures g.unknown[i] <==> GivenUp(cfg, g, g.states[i])
  {
    hide Inv, RootsFirst, AllMet, RecordsHeld, Refused, NearerHeld;
    assert NodeMark(cfg, g, i);
    assert Shaped(g) && NodesOk(cfg, g) by { FinishedNodes(cfg, g); }
    NodeIsReachable(cfg, g, i);
    assert NotSooner(cfg, cfg.Id(g.states[i]), Depth(g.parent, i));
  }

  /** A run that strays from a node's state is a walk in the graph. */
  lemma {:induction false} StrayIsWalk<S(!new)>(cfg: Config<S>, g: Graph<S>, r: nat, i: nat, s: S, n: nat)
    requires IdentityDecides(cfg.sys, cfg.exact)
    requires Marked(cfg, g) && r < |cfg.sys.recoverables| && i < |g.states|
    requires Reachable(cfg.sys, s) && cfg.Id(s) == cfg.Id(g.states[i])
    requires var p := cfg.sys.recoverables[r]; StraysIn(cfg, g, AllowedActors(cfg.sys, p), p.goal, s, n)
    ensures GraphEscapes(cfg, g, r, i, n)
    decreases n
  {
    hide NodesOk, DepthsExact, MarksExact, GivenUp;
    FinishedEdges(cfg, g);
    var p := cfg.sys.recoverables[r];
    NodeReachable(cfg, g, i);
    assert Alike(cfg.sys, cfg.exact, s, g.states[i]);
    if GivenUp(cfg, g, s) {
      GivenUpTwin(cfg, g, s, g.states[i]);
      MarkedIffGivenUp(cfg, g, i);
    } else if !p.goal(s) && !g.unknown[i] {
      var a, t :| a in AllowedActors(cfg.sys, p) && Steps(cfg.sys, a, s, t)
                  && StraysIn(cfg, g, AllowedActors(cfg.sys, p), p.goal, t, n - 1);
      assert RowOk(cfg, g, i);
      var k := RowReachesSteps(cfg, g, i, a, s, t);
      StepsStayReachable(cfg.sys, a, s, t);
      StrayIsWalk(cfg, g, r, g.edgeTo[k], t, n - 1);
      assert GraphEscapes(cfg, g, r, g.edgeTo[k], n - 1);
    }
  }

  /** A walk in the graph is a run that strays. */
  lemma {:induction false} WalkIsStray<S(!new)>(cfg: Config<S>, g: Graph<S>, r: nat, i: nat, n: nat)
    requires IdentityDecides(cfg.sys, cfg.exact)
    requires Marked(cfg, g) && r < |cfg.sys.recoverables| && i < |g.states|
    requires GraphEscapes(cfg, g, r, i, n)
    ensures var p := cfg.sys.recoverables[r]; StraysIn(cfg, g, AllowedActors(cfg.sys, p), p.goal, g.states[i], n)
    decreases n
  {
    hide NodesOk, DepthsExact, MarksExact, GivenUp;
    FinishedEdges(cfg, g);
    var p := cfg.sys.recoverables[r];
    var e := EdgesOf(g);
    var ok := Allowed(g.labels, Names(cfg.sys), AllowedNames(cfg.sys, p));
    var target := Targets(g.unknown, GoalColumn(cfg.sys, g.states, r));
    MarkedIffGivenUp(cfg, g, i);
    if !p.goal(g.states[i]) && !g.unknown[i] {
      var k :| e.start[i] <= k < e.start[i + 1] && ok[e.via[k]] && Escapes(e, ok, target, e.to[k], n - 1);
      WalkIsStray(cfg, g, r, e.to[k], n - 1);
      var a, t := EdgeIsStep(cfg, g, i, k);
      NodeReachable(cfg, g, i);
      NodeReachable(cfg, g, e.to[k]);
      StepsStayReachable(cfg.sys, a, g.states[i], t);
      StrayTwin(cfg, g, r, g.states[e.to[k]], t, n - 1);
      assert a in AllowedActors(cfg.sys, p);
    }
  }

  /** Some explored walk of node `i` escapes. */
  ghost predicate NodeEscapes<S(!new)>(cfg: Config<S>, g: Graph<S>, r: nat, i: nat)
    requires Finished(cfg, g) && r < |cfg.sys.recoverables| && i < |g.states|
  {
    exists n: nat :: GraphEscapes(cfg, g, r, i, n)
  }

  /** Node `i` cannot escape in the graph exactly when its state is confined. */
  lemma {:induction false} StuckIffConfined<S(!new)>(cfg: Config<S>, g: Graph<S>, r: nat, i: nat)
    requires IdentityDecides(cfg.sys, cfg.exact)
    requires Marked(cfg, g) && r < |cfg.sys.recoverables| && i < |g.states|
    ensures NodeEscapes(cfg, g, r, i) <==> !Confined(cfg, g, r, g.states[i])
  {
    hide MarksExact, Finished, IdentityDecides, AllowedActors;
    var p := cfg.sys.recoverables[r];
    NodeReachable(cfg, g, i);
    if n: nat :| GraphEscapes(cfg, g, r, i, n) {
      WalkIsStray(cfg, g, r, i, n);
    }
    if n: nat :| StraysIn(cfg, g, AllowedActors(cfg.sys, p), p.goal, g.states[i], n) {
      StrayIsWalk(cfg, g, r, i, g.states[i], n);
    }
  }

  /** The trap search finds the first node whose state is confined, whatever bound cut the search. */
  lemma {:induction false} FindsFirstConfined<S(!new)>(cfg: Config<S>, g: Graph<S>, r: nat, trap: Option<nat>)
    requires IdentityDecides(cfg.sys, cfg.exact)
    requires Marked(cfg, g) && r < |cfg.sys.recoverables| && TrapReport(cfg, g, r, trap)
    ensures trap.Some? ==> trap.value < |g.states| && Confined(cfg, g, r, g.states[trap.value])
    ensures forall i | 0 <= i < (if trap.Some? then trap.value else |g.states|) :: !Confined(cfg, g, r, g.states[i])
  {
    hide MarksExact, Inv, DepthsExact, IdentityDecides, Confined, NodeEscapes;
    forall i | 0 <= i < |g.states| ensures Confined(cfg, g, r, g.states[i]) <==> !NodeEscapes(cfg, g, r, i) {
      StuckIffConfined(cfg, g, r, i);
    }
    TrapReportEscapes(cfg, g, r, trap);
  }

  lemma {:induction false} TrapReportEscapes<S(!new)>(cfg: Config<S>, g: Graph<S>, r: nat, trap: Option<nat>)
    requires Finished(cfg, g) && r < |cfg.sys.recoverables| && TrapReport(cfg, g, r, trap)
    ensures trap.Some? ==> trap.value < |g.states| && !NodeEscapes(cfg, g, r, trap.value)
    ensures forall i | 0 <= i < (if trap.Some? then trap.value else |g.states|) :: NodeEscapes(cfg, g, r, i)
  {
    hide Inv, DepthsExact;
    FinishedEdges(cfg, g);
    var ok := Allowed(g.labels, Names(cfg.sys), AllowedNames(cfg.sys, cfg.sys.recoverables[r]));
    var target := Targets(g.unknown, GoalColumn(cfg.sys, g.states, r));
    forall i | 0 <= i < (if trap.Some? then trap.value else |g.states|) ensures NodeEscapes(cfg, g, r, i) {
      assert CanEscape(EdgesOf(g), ok, target, i);
      var n: nat :| Escapes(EdgesOf(g), ok, target, i, n);
      assert GraphEscapes(cfg, g, r, i, n);
    }
  }
}
