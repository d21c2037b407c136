/**
 A whole check of a system: search, then report the first violation of each invariant and
 the first trap of each recoverable property with a replayed trace
 (modelcheck/explore.go:61-126).
 */
module ModelCheck {
  import opened Wrappers
  import opened Index
  import opened Systems
  import opened Search
  import opened Expansion
  import opened GraphInvariant
  import opened BreadthFirst
  import opened Coverage
  import opened Marks
  import opened Traps
  import opened BoundedTraps
  import opened Explore
  import opened Replay

  datatype Violation<+S> =
    | InvariantViolation(property: nat, trace: seq<TraceStep<S>>)
    | TrapViolation(property: nat, trace: seq<TraceStep<S>>, exits: seq<TraceStep<S>>)

  /** The step shown for edge `k`: its move and the state it leads to. */
  ghost function ExitOf<S>(sys: System<S>, g: Graph<S>, k: nat): TraceStep<S>
    requires Shaped(g) && k < |g.edgeTo| && g.edgeTo[k] < |g.states| && g.edgeLabel[k] < |g.labels|
    requires g.labels[g.edgeLabel[k]].actor < |sys.actors|
  {
    var l := g.labels[g.edgeLabel[k]];
    TraceStep(sys.actors[l.actor].name, l.move, g.states[g.edgeTo[k]])
  }

  /** The exits reported for a trap are its explored moves, in yield order. */
  ghost function ExitsOf<S(!new)>(cfg: Config<S>, g: Graph<S>, i: nat): seq<TraceStep<S>>
    requires Finished(cfg, g) && i < |g.states|
  {
    FinishedEdges(cfg, g);
    seq(g.edgeStart[i + 1] - g.edgeStart[i],
        j requires 0 <= j < g.edgeStart[i + 1] - g.edgeStart[i] => ExitOf(cfg.sys, g, g.edgeStart[i] + j))
  }

  /** What may be reported about a finished search. */
  ghost predicate Justified<S(!new)>(cfg: Config<S>, g: Graph<S>, v: Violation<S>)
    requires Finished(cfg, g)
  {
    match v
    case InvariantViolation(p, trace) =>
      && p < |cfg.sys.invariants|
      && FirstViolation(cfg.sys.invariants[p].ok, g.states).Some?
      && trace == TraceOf(cfg, g, FirstViolation(cfg.sys.invariants[p].ok, g.states).value)
    case TrapViolation(p, trace, exits) =>
      && p < |cfg.sys.recoverables|
      && exists i :: 0 <= i < |g.states| && TrapReport(cfg, g, p, Some(i)) && trace == TraceOf(cfg, g, i)
                     && exits == ExitsOf(cfg, g, i)
  }

  // ----- What the reports mean -----

  /** Some violation of invariant `p` is among those reported. */
  ghost predicate ReportsInvariant<S>(vs: seq<Violation<S>>, p: nat) {
    exists k :: 0 <= k < |vs| && vs[k].InvariantViolation? && vs[k].property == p
  }

  /** Some trap of recoverable property `r` is among those reported. */
  ghost predicate ReportsTrap<S>(vs: seq<Violation<S>>, r: nat) {
    exists k :: 0 <= k < |vs| && vs[k].TrapViolation? && vs[k].property == r
  }

  ghost predicate Precedes<S>(v: Violation<S>, w: Violation<S>) {
    if v.InvariantViolation? == w.InvariantViolation? then v.property < w.property else v.InvariantViolation?
  }

  /** Invariants come before recoverable properties, and each kind in the order of its properties, none twice. */
  ghost predicate InOrder<S>(vs: seq<Violation<S>>) {
    forall i, j | 0 <= i < j < |vs| :: Precedes(vs[i], vs[j])
  }

  /** Some explored state breaks the invariant. */
  ghost predicate NodeBreaks<S>(ok: S -> bool, states: seq<S>) {
    exists i :: 0 <= i < |states| && !ok(states[i])
  }

  /** From some explored state every allowed run keeps off the goal and within what was explored. */
  ghost predicate NodeConfined<S(!new)>(cfg: Config<S>, g: Graph<S>, r: nat)
    requires r < |cfg.sys.recoverables|
  {
    exists i :: 0 <= i < |g.states| && Confined(cfg, g, r, g.states[i])
  }

  /**
   What is reported: every invariant some explored state breaks, every recoverable property some
   explored state is confined away from, and nothing else; in order, and none twice.
   */
  lemma {:induction false} ReportedExactly<S(!new)>(cfg: Config<S>)
    requires IdentityDecides(cfg.sys, cfg.exact)
    ensures Finished(cfg, Explored(cfg))
    ensures var g, vs := Explored(cfg), Report(cfg).violations;
            && (forall p: nat :: ReportsInvariant(vs, p) <==>
                 p < |cfg.sys.invariants| && NodeBreaks(cfg.sys.invariants[p].ok, g.states))
            && (forall r: nat :: ReportsTrap(vs, r) <==> r < |cfg.sys.recoverables| && NodeConfined(cfg, g, r))
            && InOrder(vs)
  {
    hide Explored, Finished, InvariantReports, TrapReports, NodeBreaks, NodeConfined, FirstTrap, MarksExact;
    ExplorationFinishes(cfg);
    ExplorationMarks(cfg);
    var g := Explored(cfg);
    var a, b := InvariantReports(cfg, g, |cfg.sys.invariants|), TrapReports(cfg, g, |cfg.sys.recoverables|);
    InvariantReportsAre(cfg, g, |cfg.sys.invariants|);
    TrapReportsAre(cfg, g, |cfg.sys.recoverables|);
    JoinedReports(a, b);
    forall p: nat | p < |cfg.sys.invariants|
      ensures FirstViolation(cfg.sys.invariants[p].ok, g.states).Some? <==> NodeBreaks(cfg.sys.invariants[p].ok, g.states)
    {
      FirstViolationIff(cfg.sys.invariants[p].ok, g.states);
    }
    forall r: nat | r < |cfg.sys.recoverables| ensures FirstTrap(cfg, g, r).Some? <==> NodeConfined(cfg, g, r) {
      FirstTrapIff(cfg, g, r);
    }
  }

  lemma {:induction false} FirstViolationIff<S>(ok: S -> bool, states: seq<S>)
    ensures FirstViolation(ok, states).Some? <==> NodeBreaks(ok, states)
  {
  }

  lemma {:induction false} FirstTrapIff<S(!new)>(cfg: Config<S>, g: Graph<S>, r: nat)
    requires IdentityDecides(cfg.sys, cfg.exact) && Marked(cfg, g) && r < |cfg.sys.recoverables|
    ensures FirstTrap(cfg, g, r).Some? <==> NodeConfined(cfg, g, r)
  {
    hide Finished, MarksExact, Confined, FirstTrap, IdentityDecides, TrapReport;
    FindsFirstConfined(cfg, g, r, FirstTrap(cfg, g, r));
  }

  ghost predicate OnlyInvariants<S>(vs: seq<Violation<S>>, n: nat) {
    forall k | 0 <= k < |vs| :: vs[k].InvariantViolation? && vs[k].property < n
  }

  ghost predicate OnlyTraps<S>(vs: seq<Violation<S>>, n: nat) {
    forall k | 0 <= k < |vs| :: vs[k].TrapViolation? && vs[k].property < n
  }

  lemma {:induction false} InvariantReportsAre<S(!new)>(cfg: Config<S>, g: Graph<S>, n: nat)
    requires Finished(cfg, g) && n <= |cfg.sys.invariants|
    ensures var vs := InvariantReports(cfg, g, n);
            && OnlyInvariants(vs, n) && InOrder(vs)
            && forall p: nat | p < n :: ReportsInvariant(vs, p) <==> FirstViolation(cfg.sys.invariants[p].ok, g.states).Some?
    decreases n
  {
    hide Finished, FirstViolation, Justified;
    if n > 0 {
      InvariantReportsAre(cfg, g, n - 1);
      var before, vs := InvariantReports(cfg, g, n - 1), InvariantReports(cfg, g, n);
      if FirstViolation(cfg.sys.invariants[n - 1].ok, g.states).Some? {
        AddedInvariant(before, vs, n - 1);
      }
    }
  }

  lemma {:induction false} AddedInvariant<S>(before: seq<Violation<S>>, vs: seq<Violation<S>>, n: nat)
    requires |vs| == |before| + 1 && before == vs[..|before|] && OnlyInvariants(before, n) && InOrder(before)
    requires vs[|before|].InvariantViolation? && vs[|before|].property == n
    ensures OnlyInvariants(vs, n + 1) && InOrder(vs)
    ensures forall p: nat :: ReportsInvariant(vs, p) <==> ReportsInvariant(before, p) || p == n
  {
    assert forall k | 0 <= k < |before| :: vs[k] == before[k];
  }

  lemma {:induction false} NoReports<S>()
    ensures OnlyTraps<S>([], 0) && InOrder<S>([])
  {
  }

  lemma {:induction false} OneTrap<S(!new)>(cfg: Config<S>, g: Graph<S>, r: nat)
    requires Finished(cfg, g) && r < |cfg.sys.recoverables|
    ensures var vs := TrapViolationAt(cfg, g, r, FirstTrap(cfg, g, r));
            if FirstTrap(cfg, g, r).Some? then |vs| == 1 && vs[0].TrapViolation? && vs[0].property == r else vs == []
  {
    hide Finished, FirstTrap, Justified, TrapReport, ExitsOf, TraceOf;
  }

  lemma {:induction false} MoreTraps<S>(vs: seq<Violation<S>>, n: nat)
    requires OnlyTraps(vs, n)
    ensures OnlyTraps(vs, n + 1)
    ensures forall r: nat | r >= n :: !ReportsTrap(vs, r)
  {
  }

  lemma {:induction false} TrapReportsAre<S(!new)>(cfg: Config<S>, g: Graph<S>, n: nat)
    requires Finished(cfg, g) && n <= |cfg.sys.recoverables|
    ensures var vs := TrapReports(cfg, g, n);
            && OnlyTraps(vs, n) && InOrder(vs)
            && forall r: nat | r < n :: ReportsTrap(vs, r) <==> FirstTrap(cfg, g, r).Some?
    decreases n
  {
    hide Finished, FirstTrap, Justified, TrapReport, TrapViolationAt, InOrder, OnlyTraps;
    if n == 0 {
      NoReports<S>();
    } else {
      TrapReportsAre(cfg, g, n - 1);
      OneTrap(cfg, g, n - 1);
      MoreTraps(TrapReports(cfg, g, n - 1), n - 1);
      var before, vs := TrapReports(cfg, g, n - 1), TrapReports(cfg, g, n);
      if FirstTrap(cfg, g, n - 1).Some? {
        AddedTrap(before, vs, n - 1);
      } else {
        assert vs == before;
      }
    }
  }

  lemma {:induction false} AddedTrap<S>(before: seq<Violation<S>>, vs: seq<Violation<S>>, n: nat)
    requires |vs| == |before| + 1 && before == vs[..|before|] && OnlyTraps(before, n) && InOrder(before)
    requires vs[|before|].TrapViolation? && vs[|before|].property == n
    ensures OnlyTraps(vs, n + 1) && InOrder(vs)
    ensures forall r: nat :: ReportsTrap(vs, r) <==> ReportsTrap(before, r) || r == n
  {
    assert forall k | 0 <= k < |before| :: vs[k] == before[k];
  }

  lemma {:induction false} JoinedReports<S>(a: seq<Violation<S>>, b: seq<Violation<S>>)
    requires (forall k | 0 <= k < |a| :: a[k].InvariantViolation?) && InOrder(a)
    requires (forall k | 0 <= k < |b| :: b[k].TrapViolation?) && InOrder(b)
    ensures InOrder(a + b)
    ensures forall p: nat :: ReportsInvariant(a + b, p) <==> ReportsInvariant(a, p)
    ensures forall r: nat :: ReportsTrap(a + b, r) <==> ReportsTrap(b, r)
  {
    var vs := a + b;
    forall p: nat | ReportsInvariant(a, p) ensures ReportsInvariant(vs, p) {
      var k :| 0 <= k < |a| && a[k].InvariantViolation? && a[k].property == p;
      assert vs[k] == a[k];
    }
    forall r: nat | ReportsTrap(b, r) ensures ReportsTrap(vs, r) {
      var k :| 0 <= k < |b| && b[k].TrapViolation? && b[k].property == r;
      assert vs[|a| + k] == b[k];
    }
  }
  /**
   A reported invariant violation is a run of the system ending in a state that breaks the
   invariant, and no shorter run ends in one, whether or not a bound cut the search.
   */
  lemma {:induction false} InvariantReportMeaning<S(!new)>(cfg: Config<S>, v: Violation<S>)
    requires IdentityDecides(cfg.sys, cfg.exact) && Finished(cfg, Explored(cfg))
    requires v in Report(cfg).violations && v.InvariantViolation?
    ensures GenuineTrace(cfg.sys, v.trace)
    ensures v.property < |cfg.sys.invariants|
    ensures !cfg.sys.invariants[v.property].ok(v.trace[|v.trace| - 1].state)
    ensures forall s, n: nat :: ReachableIn(cfg.sys, s, n) && !cfg.sys.invariants[v.property].ok(s)
                                ==> |v.trace| - 1 <= n
  {
    hide Explored, FirstViolation, Report;
    var g := Explored(cfg);
    ReportJustified(cfg, v);
    var ok := cfg.sys.invariants[v.property].ok;
    var i := FirstViolation(ok, g.states).value;
    TraceIsGenuine(cfg, g, i);
    forall s, n: nat | ReachableIn(cfg.sys, s, n) && !ok(s) ensures Depth(g.parent, i) <= n {
      NoNearerViolation(cfg, g, v.property, i, s, n);
    }
  }

  lemma {:induction false} NoNearerViolation<S(!new)>(cfg: Config<S>, g: Graph<S>, p: nat, i: nat, s: S, n: nat)
    requires IdentityDecides(cfg.sys, cfg.exact) && Finished(cfg, g) && p < |cfg.sys.invariants|
    requires FirstViolation(cfg.sys.invariants[p].ok, g.states) == Some(i) && i < |g.states|
    requires ReachableIn(cfg.sys, s, n) && !cfg.sys.invariants[p].ok(s)
    ensures Depth(g.parent, i) <= n
  {
    hide FirstViolation, Inv;
    assert NearerHeld(cfg, g, Depth(g.parent, i));
    if cfg.Id(s) in Ids(cfg, g) {
      var k :| 0 <= k < |g.states| && Ids(cfg, g)[k] == cfg.Id(s);
      NodeReachable(cfg, g, k);
      assert Alike(cfg.sys, cfg.exact, s, g.states[k]);
      assert i <= k;
      assert NotSooner(cfg, cfg.Id(g.states[k]), Depth(g.parent, k));
    }
  }

  /**
   Without truncation an invariant is reported exactly when some reachable state breaks it, and a
   recoverable property exactly when some reachable state cannot recover.
   */
  lemma {:induction false} ReportedWithoutTruncation<S(!new)>(cfg: Config<S>)
    requires IdentityDecides(cfg.sys, cfg.exact) && !Explored(cfg).truncated
    ensures Finished(cfg, Explored(cfg))
    ensures var vs := Report(cfg).violations;
            && (forall p: nat | p < |cfg.sys.invariants| ::
                  ReportsInvariant(vs, p) <==> exists s :: Reachable(cfg.sys, s) && !cfg.sys.invariants[p].ok(s))
            && (forall r: nat | r < |cfg.sys.recoverables| ::
                  ReportsTrap(vs, r) <==> exists s :: Reachable(cfg.sys, s) && !CanRecover(cfg, r, s))
  {
    hide Explored, Finished, Report, NodeBreaks, NodeConfined, ReportsInvariant, ReportsTrap, CanRecover, Reachable, IdentityDecides;
    ReportedExactly(cfg);
    var g, vs := Explored(cfg), Report(cfg).violations;
    forall p: nat | p < |cfg.sys.invariants|
      ensures ReportsInvariant(vs, p) <==> exists s :: Reachable(cfg.sys, s) && !cfg.sys.invariants[p].ok(s)
    {
      BreaksIffReachable(cfg, p);
    }
    forall r: nat | r < |cfg.sys.recoverables|
      ensures ReportsTrap(vs, r) <==> exists s :: Reachable(cfg.sys, s) && !CanRecover(cfg, r, s)
    {
      ConfinedIffUnrecoverable(cfg, r);
    }
  }

  lemma {:induction false} BreaksIffReachable<S(!new)>(cfg: Config<S>, p: nat)
    requires IdentityDecides(cfg.sys, cfg.exact) && !Explored(cfg).truncated && p < |cfg.sys.invariants|
    ensures NodeBreaks(cfg.sys.invariants[p].ok, Explored(cfg).states)
            <==> exists s :: Reachable(cfg.sys, s) && !cfg.sys.invariants[p].ok(s)
  {
    hide Explored, Inv, DepthsExact;
    ExplorationFinishes(cfg);
    var g := Explored(cfg);
    var ok := cfg.sys.invariants[p].ok;
    if i :| 0 <= i < |g.states| && !ok(g.states[i]) {
      NodeReachable(cfg, g, i);
    }
    if s :| Reachable(cfg.sys, s) && !ok(s) {
      var n: nat :| ReachableIn(cfg.sys, s, n);
      var k :| 0 <= k < |g.states| && Ids(cfg, g)[k] == cfg.Id(s);
      NodeReachable(cfg, g, k);
      assert Alike(cfg.sys, cfg.exact, s, g.states[k]);
    }
  }

  lemma {:induction false} ConfinedIffUnrecoverable<S(!new)>(cfg: Config<S>, r: nat)
    requires IdentityDecides(cfg.sys, cfg.exact) && !Explored(cfg).truncated && r < |cfg.sys.recoverables|
    ensures NodeConfined(cfg, Explored(cfg), r) <==> exists s :: Reachable(cfg.sys, s) && !CanRecover(cfg, r, s)
  {
    hide Explored, Finished, MarksExact, Confined, FirstTrap, IdentityDecides, TrapReport, CanRecover;
    ExplorationFinishes(cfg);
    ExplorationMarks(cfg);
    var g := Explored(cfg);
    FirstTrapIff(cfg, g, r);
    var trap := FirstTrap(cfg, g, r);
    TrapsAreFound(cfg, r, trap);
    if trap.Some? {
      var s, n: nat :| ReachableIn(cfg.sys, s, n) && !CanRecover(cfg, r, s);
      assert Reachable(cfg.sys, s);
    } else if s :| Reachable(cfg.sys, s) && !CanRecover(cfg, r, s) {
      var n: nat :| ReachableIn(cfg.sys, s, n);
      assert forall s, n: nat :: ReachableIn(cfg.sys, s, n) ==> CanRecover(cfg, r, s);
      assert false;
    }
  }

  /**
   A reported trap is a run of the system to a state from which, in the whole system, the
   allowed actors can no longer reach the goal. No explored state confined away from the goal is
   nearer, and without truncation no state at all that cannot recover.
   */
  lemma {:induction false} TrapReportMeaning<S(!new)>(cfg: Config<S>, v: Violation<S>)
    requires IdentityDecides(cfg.sys, cfg.exact) && Finished(cfg, Explored(cfg))
    requires v in Report(cfg).violations && v.TrapViolation?
    ensures GenuineTrace(cfg.sys, v.trace)
    ensures v.property < |cfg.sys.recoverables|
    ensures !CanRecover(cfg, v.property, v.trace[|v.trace| - 1].state)
    ensures var g := Explored(cfg);
            && ParentsBelow(g.parent)
            && forall i | 0 <= i < |g.states| :: Confined(cfg, g, v.property, g.states[i]) ==> |v.trace| - 1 <= Depth(g.parent, i)
    ensures !Explored(cfg).truncated ==>
              forall s, n: nat :: ReachableIn(cfg.sys, s, n) && !CanRecover(cfg, v.property, s) ==> |v.trace| - 1 <= n
  {
    hide Explored, CanRecover, Confined, IdentityDecides, Finished, TrapReport, GenuineTrace, ExitsOf, Report;
    var g := Explored(cfg);
    ReportJustified(cfg, v);
    FinishedNodesOk(cfg, g);
    var i :| 0 <= i < |g.states| && TrapReport(cfg, g, v.property, Some(i)) && v.trace == TraceOf(cfg, g, i)
             && v.exits == ExitsOf(cfg, g, i);
    TraceIsGenuine(cfg, g, i);
    NodeReachable(cfg, g, i);
    TrapsAreReal(cfg, v.property, i, g.states[i]);
    NoneConfinedNearer(cfg, v.property, i);
    if !g.truncated {
      TrapsAreFound(cfg, v.property, Some(i));
    }
  }

  lemma {:induction false} NoneConfinedNearer<S(!new)>(cfg: Config<S>, r: nat, i: nat)
    requires IdentityDecides(cfg.sys, cfg.exact) && Finished(cfg, Explored(cfg)) && r < |cfg.sys.recoverables|
    requires i < |Explored(cfg).states| && TrapReport(cfg, Explored(cfg), r, Some(i))
    ensures var g := Explored(cfg);
            && ParentsBelow(g.parent)
            && forall j | 0 <= j < |g.states| :: Confined(cfg, g, r, g.states[j]) ==> Depth(g.parent, i) <= Depth(g.parent, j)
  {
    hide Explored, Confined, IdentityDecides, Finished, TrapReport, MarksExact;
    ExplorationMarks(cfg);
    FindsFirstConfined(cfg, Explored(cfg), r, Some(i));
    ShortestTraces(cfg, i);
  }

  lemma {:induction false} ReportJustified<S(!new)>(cfg: Config<S>, v: Violation<S>)
    requires Finished(cfg, Explored(cfg)) && v in Report(cfg).violations
    ensures Justified(cfg, Explored(cfg), v)
  {
    hide Explored, Finished, Justified, InvariantReports, TrapReports;
  }

  /**
   The exits shown for a trap are all moves of the system from the trap's state, actor by actor and
   each actor's in its order, each with the identity it leads to.
   */
  lemma {:induction false} ExitsAreMoves<S(!new)>(cfg: Config<S>, v: Violation<S>)
    requires IdentityDecides(cfg.sys, cfg.exact) && Finished(cfg, Explored(cfg))
    requires v in Report(cfg).violations && v.TrapViolation?
    ensures |v.trace| > 0
    ensures var offers := Offers(cfg.sys, v.trace[|v.trace| - 1].state);
            && |v.exits| == |offers|
            && forall j | 0 <= j < |offers| :: ShowsOffer(cfg, v.exits[j], offers[j])
  {
    hide Explored, IdentityDecides, Finished, TrapReport, Offers, ExitsOf, Identify;
    var g := Explored(cfg);
    ReportJustified(cfg, v);
    FinishedNodesOk(cfg, g);
    var i :| 0 <= i < |g.states| && TrapReport(cfg, g, v.property, Some(i)) && v.trace == TraceOf(cfg, g, i)
             && v.exits == ExitsOf(cfg, g, i);
    TrapUnmarked(cfg, g, v.property, i);
    ExitsAreOffers(cfg, i);
  }

  /** An exit shows one of the moves of a state. */
  ghost predicate ShowsOffer<S>(cfg: Config<S>, step: TraceStep<S>, offer: Offer<S>) {
    && offer.actor < |cfg.sys.actors| && step.actor == cfg.sys.actors[offer.actor].name
    && step.move == offer.move.name && cfg.Id(step.state) == cfg.Id(offer.move.state)
  }

  lemma {:induction false} ExitsAreOffers<S(!new)>(cfg: Config<S>, i: nat)
    requires IdentityDecides(cfg.sys, cfg.exact) && Finished(cfg, Explored(cfg))
    requires i < |Explored(cfg).states| && !Explored(cfg).unknown[i]
    ensures var exits, offers := ExitsOf(cfg, Explored(cfg), i), Offers(cfg.sys, Explored(cfg).states[i]);
            |exits| == |offers| && forall j | 0 <= j < |offers| :: ShowsOffer(cfg, exits[j], offers[j])
  {
    hide Explored, IdentityDecides, Finished, Expand, Offers, ShowsOffer, EdgeFits;
    var g := Explored(cfg);
    RowsListSuccessors(cfg, i);
    ExpandIsOffers(cfg, g.states[i]);
    FinishedEdges(cfg, g);
    var offers := Offers(cfg.sys, g.states[i]);
    forall j | 0 <= j < |offers| ensures ShowsOffer(cfg, ExitsOf(cfg, g, i)[j], offers[j]) {
      assert EdgeFits(cfg, g, g.edgeStart[i] + j, Expand(cfg, g.states[i])[j]);
      FittingExit(cfg, g, g.edgeStart[i] + j, Expand(cfg, g.states[i])[j], offers[j]);
    }
  }

  lemma {:induction false} FittingExit<S>(cfg: Config<S>, g: Graph<S>, k: nat, sc: Succ<S>, offer: Offer<S>)
    requires Shaped(g) && k < |g.edgeTo| && g.edgeTo[k] < |g.states| && g.edgeLabel[k] < |g.labels|
    requires g.labels[g.edgeLabel[k]].actor < |cfg.sys.actors| && EdgeFits(cfg, g, k, sc)
    requires sc.actor == offer.actor && sc.move == offer.move.name && sc.state == offer.move.state
    ensures ShowsOffer(cfg, ExitOf(cfg.sys, g, k), offer)
  {
  }

  lemma {:induction false} TrapUnmarked<S(!new)>(cfg: Config<S>, g: Graph<S>, r: nat, i: nat)
    requires Finished(cfg, g) && r < |cfg.sys.recoverables| && i < |g.states| && TrapReport(cfg, g, r, Some(i))
    ensures !g.unknown[i]
  {
    hide Inv, DepthsExact;
    FinishedEdges(cfg, g);
    var target := Targets(g.unknown, GoalColumn(cfg.sys, g.states, r));
    if target[i] {
      TargetEscapes(EdgesOf(g), Allowed(g.labels, Names(cfg.sys), AllowedNames(cfg.sys, cfg.sys.recoverables[r])), target, i);
    }
  }

  /**
   The coverage report holds exactly the keys under which some expanded node yields a move,
   each with the number of such moves, whichever bound cut the search.
   */
  lemma {:induction false} CoverageReportMeaning<S(!new)>(cfg: Config<S>, key: string) returns (expanded: nat)
    requires IdentityDecides(cfg.sys, cfg.exact)
    ensures Finished(cfg, Explored(cfg))
    ensures CountsExpanded(cfg, Explored(cfg), Under(cfg.sys, key), expanded)
    ensures var coverage, total := Report(cfg).coverage, Yielded(cfg, Explored(cfg).states, expanded, Under(cfg.sys, key));
            (key in coverage <==> total > 0) && (key in coverage ==> coverage[key] == total)
  {
    hide Explored, Finished, DepthsExact;
    ExplorationFinishes(cfg);
    var g := Explored(cfg);
    FinishedEdges(cfg, g);
    expanded := CoverageIsExact(cfg, Under(cfg.sys, key));
    CoverageIsTally(cfg.sys, g.labels, g.labelCount, |g.labels|, key);
  }

  // ----- The report -----

  /** Shows every move available in a trap. */
  method ShowExits<S(!new)>(rp: Replayer<S>, cfg: Config<S>, ghost g: Graph<S>, edges: Edges, labels: seq<Label>, i: nat)
      returns (exits: Option<seq<TraceStep<S>>>)
    requires Finished(cfg, g) && i < |g.states| && rp.Valid() && rp.cfg == cfg && rp.g == g
    requires edges == EdgesOf(g) && labels == g.labels
    modifies rp`memo
    ensures rp.Valid() && exits == Some(ExitsOf(cfg, g, i))
  {
    hide Finished, DepthsExact, Inv;
    FinishedEdges(cfg, g);
    ghost var lo := edges.start[i];
    var out: seq<TraceStep<S>> := [];
    for k := edges.start[i] to edges.start[i + 1]
      invariant rp.Valid() && |out| == k - lo
      invariant forall j | 0 <= j < |out| :: out[j] == ExitOf(cfg.sys, g, lo + j)
    {
      var l := labels[edges.via[k]];
      var s := rp.State(edges.to[k]);
      if s.None? {
        return None;
      }
      out := out + [TraceStep(cfg.sys.actors[l.actor].name, l.move, s.value)];
    }
    assert out == ExitsOf(cfg, g, i);
    exits := Some(out);
  }

  /** The first invariants' violations: each invariant in order, its first violating node, once. */
  ghost function InvariantReports<S(!new)>(cfg: Config<S>, g: Graph<S>, n: nat): (vs: seq<Violation<S>>)
    requires Finished(cfg, g) && n <= |cfg.sys.invariants|
    ensures forall k | 0 <= k < |vs| :: Justified(cfg, g, vs[k])
  {
    if n == 0 then []
    else
      match FirstViolation(cfg.sys.invariants[n - 1].ok, g.states)
      case None => InvariantReports(cfg, g, n - 1)
      case Some(i) => InvariantReports(cfg, g, n - 1) + [InvariantViolation(n - 1, TraceOf(cfg, g, i))]
  }

  /** The report on one recoverable property, given its first trap. */
  ghost function TrapViolationAt<S(!new)>(cfg: Config<S>, g: Graph<S>, r: nat, trap: Option<nat>): (vs: seq<Violation<S>>)
    requires Finished(cfg, g) && r < |cfg.sys.recoverables|
    requires TrapReport(cfg, g, r, trap)
    ensures forall k | 0 <= k < |vs| :: Justified(cfg, g, vs[k])
  {
    match trap
    case None => []
    case Some(i) => TrapIsNode(cfg, g, r, i); [TrapViolation(r, TraceOf(cfg, g, i), ExitsOf(cfg, g, i))]
  }

  /** The first recoverable properties' traps: each property in order, its first trap, once. */
  ghost function TrapReports<S(!new)>(cfg: Config<S>, g: Graph<S>, n: nat): (vs: seq<Violation<S>>)
    requires Finished(cfg, g) && n <= |cfg.sys.recoverables|
    ensures forall k | 0 <= k < |vs| :: Justified(cfg, g, vs[k])
  {
    if n == 0 then [] else TrapReports(cfg, g, n - 1) + TrapViolationAt(cfg, g, n - 1, FirstTrap(cfg, g, n - 1))
  }

  ghost function FirstTrap<S(!new)>(cfg: Config<S>, g: Graph<S>, r: nat): (trap: Option<nat>)
    requires Finished(cfg, g) && r < |cfg.sys.recoverables|
    ensures TrapReport(cfg, g, r, trap)
  {
    FinishedEdges(cfg, g);
    FirstStuck(EdgesOf(g), Allowed(g.labels, Names(cfg.sys), AllowedNames(cfg.sys, cfg.sys.recoverables[r])),
               Targets(g.unknown, GoalColumn(cfg.sys, g.states, r)), |g.states|)
  }

  /** There is only one first trap. */
  lemma {:induction false} FirstTrapIs<S(!new)>(cfg: Config<S>, g: Graph<S>, r: nat, trap: Option<nat>)
    requires Finished(cfg, g) && r < |cfg.sys.recoverables| && TrapReport(cfg, g, r, trap)
    ensures trap == FirstTrap(cfg, g, r)
  {
    hide CanEscape, DepthsExact, Inv;
    FinishedEdges(cfg, g);
    var ok := Allowed(g.labels, Names(cfg.sys), AllowedNames(cfg.sys, cfg.sys.recoverables[r]));
    FirstStuckIs(EdgesOf(g), ok, Targets(g.unknown, GoalColumn(cfg.sys, g.states, r)), trap, FirstTrap(cfg, g, r));
  }

  /** The whole report: a function of the system and the bounds. */
  datatype Result<+S> = Result(states: nat, edges: nat, truncated: bool, coverage: map<string, nat>,
                               violations: seq<Violation<S>>)

  ghost function Report<S(!new)>(cfg: Config<S>): Result<S>
    requires Finished(cfg, Explored(cfg))
  {
    var g := Explored(cfg);
    FinishedEdges(cfg, g);
    Result(|g.states|, |g.edgeTo|, g.truncated, CoverageOf(cfg.sys, g.labels, g.labelCount, |g.labels|),
           InvariantReports(cfg, g, |cfg.sys.invariants|) + TrapReports(cfg, g, |cfg.sys.recoverables|))
  }

  /** Replays the trace of each recorded invariant violation. */
  method ReportInvariants<S(!new)>(rp: Replayer<S>, cfg: Config<S>, ghost g: Graph<S>, invViol: seq<Option<nat>>)
      returns (vs: Option<seq<Violation<S>>>)
    requires Finished(cfg, g) && rp.Valid() && rp.cfg == cfg && rp.g == g
    requires |invViol| == |cfg.sys.invariants|
    requires forall i | 0 <= i < |invViol| :: invViol[i] == FirstViolation(cfg.sys.invariants[i].ok, g.states)
    modifies rp`memo
    ensures rp.Valid() && vs == Some(InvariantReports(cfg, g, |cfg.sys.invariants|))
  {
    hide Finished, FirstViolation, Justified;
    var out: seq<Violation<S>> := [];
    for i := 0 to |invViol|
      invariant rp.Valid() && out == InvariantReports(cfg, g, i)
    {
      if invViol[i].Some? {
        var trace := rp.Trace(invViol[i].value);
        // The replayed final state is checked to break the invariant still.
        if trace.None? || cfg.sys.invariants[i].ok(trace.value[|trace.value| - 1].state) {
          return None;
        }
        out := out + [InvariantViolation(i, trace.value)];
      }
    }
    vs := Some(out);
  }

  /** Looks for a trap of one recoverable property and shows it. */
  method ReportTrap<S(!new)>(rp: Replayer<S>, cfg: Config<S>, ghost g: Graph<S>, edges: Edges, labels: seq<Label>,
                             unknown: seq<bool>, r: nat, goal: seq<bool>)
      returns (v: Option<Option<Violation<S>>>)
    requires Finished(cfg, g) && rp.Valid() && rp.cfg == cfg && rp.g == g && r < |cfg.sys.recoverables|
    requires edges == EdgesOf(g) && labels == g.labels && unknown == g.unknown
    requires goal == GoalColumn(cfg.sys, g.states, r)
    modifies rp`memo
    ensures rp.Valid() && v.Some?
    ensures (match v.value case None => [] case Some(x) => [x]) == TrapViolationAt(cfg, g, r, FirstTrap(cfg, g, r))
  {
    hide Finished, IsFirstTrap, FirstTrap;
    FinishedEdges(cfg, g);
    var p := cfg.sys.recoverables[r];
    var trap := FindTrap(edges, labels, unknown, Names(cfg.sys), AllowedNames(cfg.sys, p), goal);
    FirstTrapIs(cfg, g, r, trap);
    if trap.None? {
      return Some(None);
    }
    TrapIsNode(cfg, g, r, trap.value);
    var trace := rp.Trace(trap.value);
    // The replayed final state is checked to miss the goal still.
    if trace.None? || p.goal(trace.value[|trace.value| - 1].state) {
      return None;
    }
    var exits := ShowExits(rp, cfg, g, edges, labels, trap.value);
    v := Some(Some(TrapViolation(r, trace.value, exits.value)));
  }

  lemma {:induction false} TrapIsNode<S(!new)>(cfg: Config<S>, g: Graph<S>, r: nat, i: nat)
    requires Finished(cfg, g) && r < |cfg.sys.recoverables| && TrapReport(cfg, g, r, Some(i))
    ensures i < |g.states| && !cfg.sys.recoverables[r].goal(g.states[i])
  {
    FinishedEdges(cfg, g);
    var target := Targets(g.unknown, GoalColumn(cfg.sys, g.states, r));
    if target[i] {
      TargetEscapes(EdgesOf(g), Allowed(g.labels, Names(cfg.sys), AllowedNames(cfg.sys, cfg.sys.recoverables[r])), target, i);
    }
  }

  /** Adds the first trap of each recoverable property to the report. */
  method ReportTraps<S(!new)>(rp: Replayer<S>, cfg: Config<S>, ghost g: Graph<S>, edges: Edges, labels: seq<Label>,
                              unknown: seq<bool>, goal: seq<seq<bool>>, vs0: seq<Violation<S>>)
      returns (vs: seq<Violation<S>>)
    requires Finished(cfg, g) && rp.Valid() && rp.cfg == cfg && rp.g == g
    requires edges == EdgesOf(g) && labels == g.labels && unknown == g.unknown
    requires |goal| == |cfg.sys.recoverables|
    requires forall r | 0 <= r < |goal| :: goal[r] == GoalColumn(cfg.sys, g.states, r)
    modifies rp`memo
    ensures vs == vs0 + TrapReports(cfg, g, |cfg.sys.recoverables|)
  {
    hide Finished, GoalColumn, TrapReport, FirstViolation, Justified, FirstTrap, TrapReports, TrapViolationAt, EdgesOf, rp.Valid;
    vs := vs0;
    NoTrapsYet(cfg, g);
    for r := 0 to |cfg.sys.recoverables|
      invariant rp.Valid() && vs == vs0 + TrapReports(cfg, g, r)
    {
      var v := ReportTrap(rp, cfg, g, edges, labels, unknown, r, goal[r]);
      TrapReportsNext(cfg, g, r, vs0);
      if v.value.Some? {
        vs := vs + [v.value.value];
      }
    }
  }

  lemma {:induction false} NoTrapsYet<S(!new)>(cfg: Config<S>, g: Graph<S>)
    requires Finished(cfg, g)
    ensures TrapReports(cfg, g, 0) == []
  {
    hide Finished;
  }

  lemma {:induction false} TrapReportsNext<S(!new)>(cfg: Config<S>, g: Graph<S>, r: nat, before: seq<Violation<S>>)
    requires Finished(cfg, g) && r < |cfg.sys.recoverables|
    ensures before + TrapReports(cfg, g, r + 1)
            == before + TrapReports(cfg, g, r) + TrapViolationAt(cfg, g, r, FirstTrap(cfg, g, r))
  {
    hide Finished, FirstTrap, TrapViolationAt;
  }

  /**
   Explores a system and reports every violation. It never fails to replay what it explored,
   and its result is a function of the system and the bounds: workers, their scheduling and
   chunks do not show in it. It reports exactly the properties that some explored state is found
   to miss, in order.
   */
  method ExploreSystem<S(!new)>(cfg: Config<S>, workers: nat, chunkNodesPerWorker: nat, schedule: nat -> nat -> nat)
      returns (result: Option<Result<S>>)
    requires IdentityDecides(cfg.sys, cfg.exact)
    ensures Finished(cfg, Explored(cfg)) && result == Some(Report(cfg))
    ensures var g, vs := Explored(cfg), result.value.violations;
            && (forall p: nat :: ReportsInvariant(vs, p) <==>
                 p < |cfg.sys.invariants| && NodeBreaks(cfg.sys.invariants[p].ok, g.states))
            && (forall r: nat :: ReportsTrap(vs, r) <==> r < |cfg.sys.recoverables| && NodeConfined(cfg, g, r))
            && InOrder(vs)
  {
    hide Finished, Explored, FirstViolation, GoalColumn, InvariantReports, TrapReports;
    hide ReportsInvariant, ReportsTrap, NodeBreaks, NodeConfined, InOrder;
    ExplorationFinishes(cfg);
    ReportedExactly(cfg);
    var e: Explorer<S> := new Explorer(cfg, workers, chunkNodesPerWorker, schedule);
    e.Run();
    ghost var g := e.View();
    FinishedNodesOk(cfg, g);
    FinishedEdges(cfg, g);
    var coverage := ReportCoverage(cfg.sys, e.labels, e.labelCount);
    var rp: Replayer<S> := new Replayer(cfg, e.parent, e.via, e.ordinal, e.hash, e.labels, e.roots, g);
    var invariantReports := ReportInvariants(rp, cfg, g, e.invViol);
    var vs := invariantReports.value;
    var edges := Edges(|e.parent|, e.edgeStart, e.edgeLabel, e.edgeTo);
    vs := ReportTraps(rp, cfg, g, edges, e.labels, e.unknown, e.goal, vs);
    result := Some(Result(|e.parent|, |e.edgeTo|, e.truncated, coverage, vs));
  }

  lemma {:induction false} FinishedNodesOk<S(!new)>(cfg: Config<S>, g: Graph<S>)
    requires Finished(cfg, g)
    ensures Shaped(g) && NodesOk(cfg, g)
  {
  }
}
