/**
 Judging one script step event by event (ctrltest/script.go:246-312). Although the runner
 decides after every event, it passes exactly the arrivals the declaration means as a whole.
 */
module ScriptStep {
  import opened Wrappers
  import opened Matching
  import opened OrderedFit
  import opened Declarations
  import opened Interleaving

  /** How a step ends; numbers are positions of arrivals. */
  datatype Outcome =
    | Malformed
    | ActionFailed
    | Passed
    | TimedOut(missing: seq<nat>)
    | BrokenInvariant(event: nat)
    | Unexpected(event: nat)
    | Disordered(event: nat, pair: Option<nat>)
    | Undecided(event: nat)

  // ----- Fits are closed under taking prefixes -----

  /** The assignment restricted to the events before `k`. */
  ghost function Restricted(at: seq<int>, k: nat): (r: seq<int>)
    ensures |r| == |at|
    ensures forall l | 0 <= l < |at| :: r[l] == if at[l] < k then at[l] else -1
  {
    seq(|at|, l requires 0 <= l < |at| => if at[l] < k then at[l] else -1)
  }

  lemma {:induction false} PrefixFits(seen: seq<Event>, leaves: seq<Leaf>, order: Order, k: nat)
    requires OrderValid(order, |leaves|) && OrderedFits(seen, leaves, order) && k <= |seen|
    ensures OrderedFits(seen[..k], leaves, order)
  {
    var at :| IsOrderedFit(seen, leaves, order, at);
    RestrictedFits(seen, leaves, order, at, k);
  }

  lemma {:induction false} RestrictedFits(seen: seq<Event>, leaves: seq<Leaf>, order: Order, at: seq<int>, k: nat)
    requires OrderValid(order, |leaves|) && IsOrderedFit(seen, leaves, order, at) && k <= |seen|
    ensures IsOrderedFit(seen[..k], leaves, order, Restricted(at, k))
  {
    var r := Restricted(at, k);
    forall e | 0 <= e < |seen[..k]| ensures Assigned(r, e) {
      assert Assigned(at, e);
      var l :| 0 <= l < |at| && at[l] == e;
      assert r[l] == e;
    }
    forall p | 0 <= p < |order| ensures !Inverted(order[p], r) {
      assert !Inverted(order[p], at);
    }
  }

  lemma {:induction false} OrderedFitsFit(seen: seq<Event>, leaves: seq<Leaf>, order: Order)
    requires OrderValid(order, |leaves|) && OrderedFits(seen, leaves, order)
    ensures Fits(seen, leaves)
  {
    var at :| IsOrderedFit(seen, leaves, order, at);
    assert IsFit(seen, leaves, at);
  }

  lemma {:induction false} NothingFits(leaves: seq<Leaf>, order: Order)
    requires OrderValid(order, |leaves|)
    ensures IsOrderedFit([], leaves, order, seq(|leaves|, _ => -1))
  {
  }

  // ----- What has arrived so far need not be how a good run starts -----

  /** Whatever precedes a kept leaf in its permission is kept. */
  ghost predicate NothingSkipped(allows: seq<Allow>, keep: set<nat>) {
    forall i: nat, j: nat :: (i, j) in OrderOfAll(allows, |allows|) && j in keep ==> i in keep
  }

  /** Some further events complete these to an interleaving of the whole declaration. */
  ghost predicate StartsInterleaving(allows: seq<Allow>, seen: seq<Event>) {
    exists rest :: Interleaves(ChainsOf(allows), seen + rest)
  }

  lemma {:induction false} OrderAscends(allows: seq<Allow>, i: nat, j: nat)
    requires (forall a | a in allows :: Built(a)) && (i, j) in OrderOfAll(allows, |allows|)
    ensures i < j
  {
    FlatOrder(allows, |allows|, i, j);
  }

  /** Gives leaf `n`, the first without an event, an event of its own. */
  lemma {:induction false} GiveEvent(allows: seq<Allow>, seen: seq<Event>, at: seq<int>, n: nat)
    requires forall a | a in allows :: Built(a)
    requires OrderValid(OrderOfAll(allows, |allows|), Base(allows, |allows|))
    requires IsOrderedFit(seen, LeavesOfAll(allows, |allows|), OrderOfAll(allows, |allows|), at)
    requires NothingSkipped(allows, set l: nat | l < |at| && at[l] >= 0)
    requires n < |at| && at[n] < 0 && forall l | 0 <= l < n :: at[l] >= 0
    ensures var at', leaves := at[n := |seen|], LeavesOfAll(allows, |allows|);
            && IsOrderedFit(seen + [Witness(leaves[n])], leaves, OrderOfAll(allows, |allows|), at')
            && NothingSkipped(allows, set l: nat | l < |at'| && at'[l] >= 0)
  {
    hide OrderOfAll, LeavesOfAll, Built, Leaf.Matches;
    var leaves, order := LeavesOfAll(allows, |allows|), OrderOfAll(allows, |allows|);
    var keep := set l: nat | l < |at| && at[l] >= 0;
    var at', seen' := at[n := |seen|], seen + [Witness(leaves[n])];
    forall p | 0 <= p < |order| ensures !Inverted(order[p], at') {
      var (i, j) := order[p];
      assert (i, j) in order;
      OrderAscends(allows, i, j);
      assert !Inverted(order[p], at);
      assert i == n ==> j !in keep;
    }
    forall e | 0 <= e < |seen'| ensures Assigned(at', e) {
      AssignedUpdate(at, n, |seen|, e);
    }
    forall i: nat, j: nat | (i, j) in order && j < |at'| && at'[j] >= 0 ensures i < |at'| && at'[i] >= 0 {
      OrderAscends(allows, i, j);
      assert j != n ==> j in keep;
    }
  }

  lemma {:induction false} CompleteFit(allows: seq<Allow>, seen: seq<Event>, at: seq<int>, n: nat)
    requires forall a | a in allows :: Built(a)
    requires OrderValid(OrderOfAll(allows, |allows|), Base(allows, |allows|))
    requires IsOrderedFit(seen, LeavesOfAll(allows, |allows|), OrderOfAll(allows, |allows|), at)
    requires NothingSkipped(allows, set l: nat | l < |at| && at[l] >= 0)
    requires n <= |at| && forall l | 0 <= l < n :: at[l] >= 0
    ensures StartsInterleaving(allows, seen)
    decreases |at| - n
  {
    hide OrderOfAll, LeavesOfAll, Built, OrderHolds, Interleaves, NothingSkipped;
    var leaves := LeavesOfAll(allows, |allows|);
    if n == |at| {
      UsesAllEvents(seen, leaves, at);
      FitIffInterleaving(allows, seen);
      assert seen + [] == seen;
    } else if at[n] >= 0 {
      CompleteFit(allows, seen, at, n + 1);
    } else {
      GiveEvent(allows, seen, at, n);
      var more := [Witness(leaves[n])];
      CompleteFit(allows, seen + more, at[n := |seen|], n + 1);
      var rest :| Interleaves(ChainsOf(allows), seen + more + rest);
      assert seen + more + rest == seen + (more + rest);
    }
  }

  /**
   What has arrived is the start of a good run if and only if it interleaves some of the leaves
   with no leaf skipped before another of its permission.
   */
  lemma {:induction false} StartsIffNothingSkipped(allows: seq<Allow>, seen: seq<Event>)
    requires forall a | a in allows :: Built(a)
    ensures StartsInterleaving(allows, seen) <==>
              exists keep :: NothingSkipped(allows, keep) && Interleaves(KeptChains(allows, keep), seen)
  {
    hide OrderOfAll, LeavesOfAll, Built, Interleaves, KeptChains, OrderHolds, NothingSkipped;
    FlatOrderValid(allows);
    var leaves, order := LeavesOfAll(allows, |allows|), OrderOfAll(allows, |allows|);
    if rest :| Interleaves(ChainsOf(allows), seen + rest) {
      FitIffInterleaving(allows, seen + rest);
      var at :| IsOrderedFit(seen + rest, leaves, order, at);
      RestrictedFits(seen + rest, leaves, order, at, |seen|);
      assert (seen + rest)[..|seen|] == seen;
      var keep := set l: nat | l < |at| && 0 <= at[l] < |seen|;
      StartSkipsNothing(allows, seen + rest, at, |seen|);
      FitIffPartInterleaves(allows, keep, seen);
      assert Uses(Restricted(at, |seen|), keep);
    }
    if keep :| NothingSkipped(allows, keep) && Interleaves(KeptChains(allows, keep), seen) {
      FitIffPartInterleaves(allows, keep, seen);
      var at :| IsOrderedFit(seen, leaves, order, at) && Uses(at, keep);
      SkipsNothing(allows, keep, at);
      CompleteFit(allows, seen, at, 0);
    }
  }

  lemma {:induction false} SkipsNothing(allows: seq<Allow>, keep: set<nat>, at: seq<int>)
    requires OrderValid(OrderOfAll(allows, |allows|), |at|)
    requires NothingSkipped(allows, keep) && Uses(at, keep)
    ensures NothingSkipped(allows, set l: nat | l < |at| && at[l] >= 0)
  {
    hide OrderOfAll;
  }

  lemma {:induction false} StartSkipsNothing(allows: seq<Allow>, events: seq<Event>, at: seq<int>, k: nat)
    requires OrderValid(OrderOfAll(allows, |allows|), Base(allows, |allows|))
    requires IsOrderedFit(events, LeavesOfAll(allows, |allows|), OrderOfAll(allows, |allows|), at)
    requires |events| == Base(allows, |allows|)
    ensures NothingSkipped(allows, set l: nat | l < |at| && 0 <= at[l] < k)
  {
    hide OrderOfAll, LeavesOfAll;
    forall i: nat, j: nat | (i, j) in OrderOfAll(allows, |allows|) && j < |at| && 0 <= at[j] < k
      ensures i < |at| && 0 <= at[i] < k
    {
      OrderKept(OrderOfAll(allows, |allows|), at, i, j);
      FullFitUsesAll(events, LeavesOfAll(allows, |allows|), at, i);
    }
  }

  /**
   After Before(a, b) alone, the event of b is accepted although it starts no good run: an
   ordering binds only leaves that both have an event.
   */
  lemma {:induction false} PartNeedNotStart()
    ensures var a, b := Leaf("", "Pod", "a", []), Leaf("", "Pod", "b", []);
            var allows, ev := [Before(Single(a), Single(b))], Event("ADDED", "Pod", "b", []);
            && LeavesOfAll(allows, 1) == [a, b] && OrderOfAll(allows, 1) == [(0, 1)]
            && IsOrderedFit([ev], [a, b], [(0, 1)], [-1, 0])
            && !StartsInterleaving(allows, [ev])
  {
    var a, b := Leaf("", "Pod", "a", []), Leaf("", "Pod", "b", []);
    var allows, ev := [Before(Single(a), Single(b))], Event("ADDED", "Pod", "b", []);
    BeforeFlattens(a, b);
    BeforeChains(a, b);
    assert b.Matches(ev) && !a.Matches(ev);
    hide *;
    OnlyLater(ev, a, b);
    NotFirst(allows, a, b, ev);
  }

  lemma {:induction false} OnlyLater(ev: Event, a: Leaf, b: Leaf)
    requires b.Matches(ev)
    ensures IsOrderedFit([ev], [a, b], [(0, 1)], [-1, 0])
  {
    hide Leaf.Matches;
    assert Assigned([-1, 0], 0) by { assert [-1, 0][1] == 0; }
  }

  lemma {:induction false} NotFirst(allows: seq<Allow>, a: Leaf, b: Leaf, ev: Event)
    requires ChainsOf(allows) == [[a, b]] && !a.Matches(ev)
    ensures !StartsInterleaving(allows, [ev])
  {
    hide Interleaves, ChainsOf, Leaf.Matches;
    forall rest ensures !Interleaves(ChainsOf(allows), [ev] + rest) {
      FirstTaken(ChainsOf(allows), ev, rest);
    }
  }

  lemma {:induction false} BeforeChains(a: Leaf, b: Leaf)
    ensures var allows := [Before(Single(a), Single(b))];
            ChainsOf(allows) == [[a, b]] && LeavesOfAll(allows, 1) == [a, b]
  {
    var allow := Before(Single(a), Single(b));
    var parts := allow.parts;
    assert LeavesOf(parts[0]) == [a] && LeavesOf(parts[1]) == [b];
    assert LeavesOfParts(parts, 0) == [] && LeavesOfParts(parts, 1) == [a];
    assert LeavesOfParts(parts, 2) == [a, b];
    assert LeavesOfAll([allow], 0) == [];
  }

  lemma {:induction false} FirstTaken(chains: Chains, ev: Event, rest: seq<Event>)
    ensures Interleaves(chains, [ev] + rest) ==> exists c :: 0 <= c < |chains| && |chains[c]| > 0 && chains[c][0].Matches(ev)
  {
    var events := [ev] + rest;
    assert events[0] == ev;
    if Interleaves(chains, events) {
      var zeros := seq(|chains|, _ => 0);
      var c :| 0 <= c < |chains| && NextTakes(chains, zeros, events[0], c) && RunsFrom(chains, zeros[c := zeros[c] + 1], events, 1);
    }
  }

  lemma {:induction false} BeforeFlattens(a: Leaf, b: Leaf)
    ensures OrderOfAll([Before(Single(a), Single(b))], 1) == [(0, 1)]
  {
    var allow := Before(Single(a), Single(b));
    var parts := allow.parts;
    assert LeavesOfParts(parts, 0) == [] && LeavesOfParts(parts, 1) == [a];
    assert OrderOfParts(parts, 0, 0) == [];
    assert Cross(0, 0, 0, 1) == [];
    assert OrderOfParts(parts, 1, 0) == [];
    assert Row(0, 1, 1) == [] && Row(0, 1, 2) == [(0, 1)];
    assert Cross(0, 0, 1, 2) == [] && Cross(0, 1, 1, 2) == [(0, 1)];
    assert OrderOfParts(parts, 2, 0) == [(0, 1)];
    assert OrderOfAll([allow], 0) == [];
  }

  // ----- The verdict -----

  /** Every event up to the `k`-th passes the invariants. */
  ghost predicate AllPass(arrivals: seq<Event>, check: Event -> bool, k: nat) {
    forall j | 0 <= j < k && j < |arrivals| :: check(arrivals[j])
  }

  /** The declaration's leaves that are not missing. */
  ghost function Present(allows: seq<Allow>, missing: seq<nat>): set<nat> {
    set l: nat | l < |LeavesOfAll(allows, |allows|)| && l !in missing
  }

  /**
   The meaning of each outcome in terms of all the arrivals and the declaration: an accepted
   stretch interleaves some of the declared leaves, each permission's in their written order.
   */
  ghost predicate Verdict(allows: seq<Allow>, arrivals: seq<Event>, check: Event -> bool, actionOk: bool, o: Outcome)
    requires forall a | a in allows :: Built(a)
  {
    FlatOrderValid(allows);
    var leaves, order := LeavesOfAll(allows, |allows|), OrderOfAll(allows, |allows|);
    match o
    case Malformed => IllFormed(allows)
    case ActionFailed => !IllFormed(allows) && !actionOk
    case Passed =>
      && !IllFormed(allows) && actionOk && Interleaves(ChainsOf(allows), arrivals)
      && AllPass(arrivals, check, |arrivals|)
    case TimedOut(missing) =>
      && !IllFormed(allows) && actionOk && AllPass(arrivals, check, |arrivals|)
      && |arrivals| < |leaves| && |missing| > 0 && (forall l | l in missing :: l < |leaves|)
      && Interleaves(KeptChains(allows, Present(allows, missing)), arrivals)
    case BrokenInvariant(k) =>
      && !IllFormed(allows) && actionOk && k < |arrivals| && AllPass(arrivals, check, k)
      && !check(arrivals[k]) && PartInterleaves(allows, arrivals[..k])
    case Unexpected(k) =>
      && !IllFormed(allows) && actionOk && k < |arrivals| && AllPass(arrivals, check, k + 1)
      && PartInterleaves(allows, arrivals[..k]) && !Fits(arrivals[..k + 1], leaves)
    case Disordered(k, pair) =>
      && !IllFormed(allows) && actionOk && k < |arrivals| && AllPass(arrivals, check, k + 1)
      && PartInterleaves(allows, arrivals[..k]) && !PartInterleaves(allows, arrivals[..k + 1])
      && pair.Some? && pair.value < |order|
      && exists free :: IsFit(arrivals[..k + 1], leaves, free) && Inverted(order[pair.value], free)
    case Undecided(k) =>
      && !IllFormed(allows) && actionOk && k < |arrivals| && AllPass(arrivals, check, k + 1)
      && PartInterleaves(allows, arrivals[..k])
      && OrderMatters(arrivals[..k + 1], leaves, order) && OverBudget(arrivals[..k + 1], leaves, order)
  }

  /** The leaves without an event. */
  method Missing(at: seq<int>) returns (missing: seq<nat>)
    ensures forall l: nat :: l in missing <==> l < |at| && at[l] < 0
  {
    missing := [];
    for l := 0 to |at|
      invariant forall m: nat :: m in missing <==> m < l && at[m] < 0
    {
      if at[l] < 0 {
        missing := missing + [l];
      }
    }
  }

  /**
   Runs a step against the changes that arrive before its timeout, a straggler included:
   the arrivals running out is the timeout, and then the quiet settle window.
   */
  method TryStep(allows: seq<Allow>, arrivals: seq<Event>, check: Event -> bool, actionOk: bool) returns (o: Outcome)
    requires forall a | a in allows :: Built(a)
    ensures Verdict(allows, arrivals, check, actionOk, o)
    ensures o.Malformed? <==> IllFormed(allows)
  {
    hide IsFit, OrderHolds, ValidAllow, IllFormed, LeavesOfAll, OrderOfAll, Interleaves, Inverted, PartInterleaves, OverBudget;
    RefusedIffIllFormed(allows);
    if !ValidAllows(allows) {
      return Malformed;
    }
    var leaves, order := FlattenAllows(allows);
    FlatOrderValid(allows);
    if !actionOk {
      return ActionFailed;
    }
    var seen: seq<Event> := [];
    var at: seq<int> := seq(|leaves|, _ => -1);
    NothingFits(leaves, order);
    while |seen| < |leaves|
      invariant |seen| <= |leaves| && |seen| <= |arrivals| && seen == arrivals[..|seen|]
      invariant IsOrderedFit(seen, leaves, order, at)
      invariant AllPass(arrivals, check, |seen|)
    {
      OrderedFitsIffPart(allows, seen);
      if |seen| == |arrivals| {
        var missing := Missing(at);
        assert seen == arrivals;
        MissingLeftOut(allows, arrivals, at, missing);
        return TimedOut(missing);
      }
      var ev := arrivals[|seen|];
      if !check(ev) {
        return BrokenInvariant(|seen|);
      }
      assert seen + [ev] == arrivals[..|seen| + 1];
      seen := seen + [ev];
      OrderedFitsIffPart(allows, seen);
      var fitted, decided := AssignEvents(seen, leaves, order);
      if !decided {
        return Undecided(|seen| - 1);
      }
      if fitted.None? {
        var free, _ := AssignEvents(seen, leaves, []);
        NoOrderToBreak(seen, leaves);
        if free.Some? {
          var pair := OrderViolated(seen, leaves, order);
          return Disordered(|seen| - 1, pair);
        }
        return Unexpected(|seen| - 1);
      }
      at := fitted.value;
    }
    OrderedFitsIffPart(allows, seen);
    if |arrivals| == |leaves| {
      assert seen == arrivals;
      FitIffInterleaving(allows, arrivals);
      return Passed;
    }
    if !check(arrivals[|seen|]) {
      return BrokenInvariant(|seen|);
    }
    TooManyEvents(arrivals[..|seen| + 1], leaves);
    o := Unexpected(|seen|);
  }

  /** The arrivals interleave what is left of the declaration without the missing leaves. */
  lemma {:induction false} MissingLeftOut(allows: seq<Allow>, arrivals: seq<Event>, at: seq<int>, missing: seq<nat>)
    requires forall a | a in allows :: Built(a)
    requires OrderValid(OrderOfAll(allows, |allows|), Base(allows, |allows|))
    requires IsOrderedFit(arrivals, LeavesOfAll(allows, |allows|), OrderOfAll(allows, |allows|), at)
    requires |arrivals| < Base(allows, |allows|) && forall l: nat :: l in missing <==> l < |at| && at[l] < 0
    ensures forall l | l in missing :: l < Base(allows, |allows|)
    ensures |missing| > 0 && Interleaves(KeptChains(allows, Present(allows, missing)), arrivals)
  {
    hide OrderOfAll, LeavesOfAll, OrderHolds, Interleaves, KeptChains;
    FitIffPartInterleaves(allows, Present(allows, missing), arrivals);
    assert Uses(at, Present(allows, missing));
    if |missing| == 0 {
      forall l: nat | l < |at| ensures at[l] >= 0 {
        assert l !in missing;
      }
      UsesAllEvents(arrivals, LeavesOfAll(allows, |allows|), at);
    }
  }

  /**
   Event by event or all at once, the verdict is the same: arrivals that satisfy the
   declaration and the invariants as a whole pass, unless the search of some prefix is larger
   than its budget.
   */
  lemma {:induction false} GoodArrivalsPass(allows: seq<Allow>, arrivals: seq<Event>, check: Event -> bool, o: Outcome)
    requires !IllFormed(allows) && forall a | a in allows :: Built(a)
    requires Interleaves(ChainsOf(allows), arrivals)
    requires forall k | 0 <= k < |arrivals| :: check(arrivals[k])
    requires Verdict(allows, arrivals, check, true, o)
    ensures OrderValid(OrderOfAll(allows, |allows|), |LeavesOfAll(allows, |allows|)|)
    ensures o.Passed?
            || (o.Undecided? && o.event < |arrivals|
                && OverBudget(arrivals[..o.event + 1], LeavesOfAll(allows, |allows|), OrderOfAll(allows, |allows|)))
  {
    hide OrderOfAll, LeavesOfAll, Interleaves, OverBudget, KeptChains, IsFit, IllFormed;
    FitIffInterleaving(allows, arrivals);
    var leaves, order := LeavesOfAll(allows, |allows|), OrderOfAll(allows, |allows|);
    forall k | 0 <= k <= |arrivals|
      ensures PartInterleaves(allows, arrivals[..k]) && Fits(arrivals[..k], leaves)
    {
      PrefixFits(arrivals, leaves, order, k);
      OrderedFitsFit(arrivals[..k], leaves, order);
      OrderedFitsIffPart(allows, arrivals[..k]);
    }
  }

  /** A declaration whose search tree is below the budget passes all its interleavings. */
  lemma {:induction false} SmallStepsPass(allows: seq<Allow>, arrivals: seq<Event>, check: Event -> bool, o: Outcome)
    requires !IllFormed(allows) && forall a | a in allows :: Built(a)
    requires forall k | 0 <= k < |arrivals| :: check(arrivals[k])
    requires Verdict(allows, arrivals, check, true, o)
    requires var n := |LeavesOfAll(allows, |allows|)|; Tree(n, n, n) < ORDER_SEARCH_BUDGET
    ensures o.Passed? <==> Interleaves(ChainsOf(allows), arrivals)
  {
    hide OrderOfAll, LeavesOfAll, Interleaves, OverBudget, KeptChains, IsFit, Tree, IllFormed;
    if Interleaves(ChainsOf(allows), arrivals) {
      GoodArrivalsPass(allows, arrivals, check, o);
      FitIffInterleaving(allows, arrivals);
      if o.Undecided? {
        var leaves, order := LeavesOfAll(allows, |allows|), OrderOfAll(allows, |allows|);
        WholeSearchIsExact(arrivals[..o.event + 1], leaves, order);
        TreeGrows(|leaves|, |leaves|, o.event + 1, |leaves|);
      }
    }
  }

  /**
   Orderings written with Before between named changes pass what they mean: good arrivals are never
   refused, and pass unless the search of some prefix is larger than its budget.
   */
  lemma {:induction false} OrderingsPass(allows: seq<Allow>, arrivals: seq<Event>, check: Event -> bool, o: Outcome)
    requires |allows| > 0 && (forall a | a in allows :: Composed(a)) && forall a | a in allows :: Built(a)
    requires Interleaves(ChainsOf(allows), arrivals)
    requires forall k | 0 <= k < |arrivals| :: check(arrivals[k])
    requires Verdict(allows, arrivals, check, true, o)
    ensures OrderValid(OrderOfAll(allows, |allows|), |LeavesOfAll(allows, |allows|)|)
    ensures o.Passed?
            || (o.Undecided? && o.event < |arrivals|
                && OverBudget(arrivals[..o.event + 1], LeavesOfAll(allows, |allows|), OrderOfAll(allows, |allows|)))
  {
    hide *;
    ComposedIsWellFormed(allows);
    GoodArrivalsPass(allows, arrivals, check, o);
  }

  /** A single permission passes exactly the events it means, unless its search is too large. */
  lemma {:induction false} OnePermissionPasses(a: Allow, arrivals: seq<Event>, check: Event -> bool, o: Outcome)
    requires Built(a) && !IllFormed([a]) && forall k | 0 <= k < |arrivals| :: check(arrivals[k])
    requires Verdict([a], arrivals, check, true, o)
    ensures o.Passed? ==> Means(a, arrivals)
    ensures Means(a, arrivals) ==> o.Passed? || o.Undecided?
  {
    hide Interleaves, Means, LeavesOfAll, OrderOfAll, IllFormed, PartInterleaves, IsFit, OverBudget, KeptChains;
    OneInterleaves(a, arrivals);
    if Means(a, arrivals) {
      GoodArrivalsPass([a], arrivals, check, o);
    }
  }
}
