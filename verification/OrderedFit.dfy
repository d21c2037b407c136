/**
 Assigning events to permitted changes under declared orderings (ctrltest/script.go:714-805):
 a backtracking search with a budget. Its three answers are told apart exactly: an assignment
 that breaks no ordering, proof that there is none, or a search larger than the budget. How
 large a search is, and a bound on it that only the numbers of leaves and events enter, are
 defined without any budget.
 */
module OrderedFit {
  import opened Wrappers
  import opened Matching

  const ORDER_SEARCH_BUDGET: nat := 200_000

  /** Pairs of leaves whose events must come in that order. */
  type Order = seq<(nat, nat)>

  ghost predicate OrderValid(order: Order, leaves: nat) {
    forall p | 0 <= p < |order| :: order[p].0 < leaves && order[p].1 < leaves
  }

  /** The pair is decided against: both ends are assigned, the later one first. */
  predicate Inverted(pair: (nat, nat), at: seq<int>)
    requires pair.0 < |at| && pair.1 < |at|
  {
    at[pair.0] >= 0 && at[pair.1] >= 0 && at[pair.0] > at[pair.1]
  }

  ghost predicate OrderHolds(order: Order, at: seq<int>)
    requires OrderValid(order, |at|)
  {
    forall p | 0 <= p < |order| :: !Inverted(order[p], at)
  }

  ghost predicate IsOrderedFit(seen: seq<Event>, leaves: seq<Leaf>, order: Order, at: seq<int>)
    requires OrderValid(order, |leaves|)
  {
    IsFit(seen, leaves, at) && OrderHolds(order, at)
  }

  ghost predicate OrderedFits(seen: seq<Event>, leaves: seq<Leaf>, order: Order)
    requires OrderValid(order, |leaves|)
  {
    exists at :: IsOrderedFit(seen, leaves, order, at)
  }

  method CheckOrder(order: Order, at: seq<int>) returns (ok: bool)
    requires OrderValid(order, |at|)
    ensures ok == OrderHolds(order, at)
  {
    for p := 0 to |order|
      invariant forall q | 0 <= q < p :: !Inverted(order[q], at)
    {
      if Inverted(order[p], at) {
        return false;
      }
    }
    ok := true;
  }

  /** Exactly the events before `i` are assigned, breaking no ordering. */
  ghost predicate IsPrefixFit(seen: seq<Event>, leaves: seq<Leaf>, order: Order, at: seq<int>, i: nat)
    requires OrderValid(order, |leaves|)
  {
    && i <= |seen| && (forall l | 0 <= l < |at| :: at[l] >= -1) && IsPartialFit(seen, leaves, at) && OrderHolds(order, at)
    && forall x | x >= 0 :: Assigned(at, x) <==> x < i
  }

  /** `full` keeps every assignment made in `at`. */
  ghost predicate Extends(full: seq<int>, at: seq<int>) {
    |full| == |at| && forall l | 0 <= l < |at| && at[l] >= 0 :: full[l] == at[l]
  }

  ghost predicate CanComplete(seen: seq<Event>, leaves: seq<Leaf>, order: Order, at: seq<int>)
    requires OrderValid(order, |leaves|)
  {
    exists full :: IsOrderedFit(seen, leaves, order, full) && Extends(full, at)
  }

  /** An assignment that could be completed by giving event `i` to leaf `l`. */
  ghost predicate CanCompleteAt(seen: seq<Event>, leaves: seq<Leaf>, order: Order, at: seq<int>, i: nat, l: nat)
    requires OrderValid(order, |leaves|)
  {
    exists full :: IsOrderedFit(seen, leaves, order, full) && Extends(full, at) && l < |full| && full[l] == i
  }

  /** Giving event `i` to leaf `l` fails at once if the leaf is taken, does not permit it, or inverts a pair. */
  lemma {:induction false} TryLeaf(seen: seq<Event>, leaves: seq<Leaf>, order: Order, at: seq<int>, i: nat, l: nat)
    requires OrderValid(order, |leaves|) && IsPrefixFit(seen, leaves, order, at, i) && i < |seen| && l < |leaves|
    ensures at[l] >= 0 || !leaves[l].Matches(seen[i]) ==> !CanCompleteAt(seen, leaves, order, at, i, l)
    ensures at[l] < 0 && leaves[l].Matches(seen[i]) ==>
              && IsPartialFit(seen, leaves, at[l := i])
              && (OrderHolds(order, at[l := i]) ==> IsPrefixFit(seen, leaves, order, at[l := i], i + 1))
              && (!OrderHolds(order, at[l := i]) ==> !CanCompleteAt(seen, leaves, order, at, i, l))
              && (CanCompleteAt(seen, leaves, order, at, i, l) ==> CanComplete(seen, leaves, order, at[l := i]))
  {
    assert !Assigned(at, i);
    if at[l] >= 0 {
      assert Assigned(at, at[l]);
    }
    if CanCompleteAt(seen, leaves, order, at, i, l) {
      var full :| IsOrderedFit(seen, leaves, order, full) && Extends(full, at) && l < |full| && full[l] == i;
      assert Extends(full, at[l := i]);
      forall p | 0 <= p < |order| ensures !Inverted(order[p], at[l := i]) {
        assert !Inverted(order[p], full);
      }
    }
    if at[l] < 0 {
      var at1 := at[l := i];
      forall x | x >= 0 ensures Assigned(at1, x) <==> x < i + 1 {
        AssignedUpdate(at, l, i, x);
      }
    }
  }

  lemma {:induction false} AssignedUpdate(at: seq<int>, l: nat, i: nat, x: int)
    requires l < |at| && at[l] < 0 && x >= 0
    ensures Assigned(at[l := i], x) <==> Assigned(at, x) || x == i
  {
    if Assigned(at, x) {
      var k :| 0 <= k < |at| && at[k] == x;
      assert at[l := i][k] == x;
    }
    assert at[l := i][l] == i;
  }

  /** A completion gives event `i` to some leaf. */
  lemma {:induction false} SomeLeafTakes(seen: seq<Event>, leaves: seq<Leaf>, order: Order, at: seq<int>, i: nat)
    requires OrderValid(order, |leaves|) && i < |seen|
    ensures CanComplete(seen, leaves, order, at) ==>
      exists l :: 0 <= l < |leaves| && CanCompleteAt(seen, leaves, order, at, i, l)
  {
    if CanComplete(seen, leaves, order, at) {
      var full :| IsOrderedFit(seen, leaves, order, full) && Extends(full, at);
      assert Assigned(full, i);
      var l :| 0 <= l < |full| && full[l] == i;
      assert CanCompleteAt(seen, leaves, order, at, i, l);
    }
  }

  // ----- The search without a budget -----

  /** Whether trying leaves finds a completion, and how many tries that takes. */
  datatype Trial = Trial(found: bool, cost: nat)

  /** Leaf `l` can take event `i` as far as the events before `i` are concerned. */
  ghost predicate CanTake(seen: seq<Event>, leaves: seq<Leaf>, order: Order, at: seq<int>, i: nat, l: nat)
    requires OrderValid(order, |leaves|) && |at| == |leaves| && i < |seen| && l < |leaves|
  {
    at[l] < 0 && leaves[l].Matches(seen[i]) && OrderHolds(order, at[l := i])
  }

  /** Depth first, event by event and leaf by leaf, from leaf `l` on for event `i`. */
  ghost function Search(seen: seq<Event>, leaves: seq<Leaf>, order: Order, at: seq<int>, i: nat, l: nat): Trial
    requires OrderValid(order, |leaves|) && |at| == |leaves| && i <= |seen| && l <= |leaves|
    decreases |seen| - i, |leaves| - l
  {
    if i == |seen| then Trial(true, 0)
    else if l == |leaves| then Trial(false, 0)
    else
      var deeper := if CanTake(seen, leaves, order, at, i, l) then Search(seen, leaves, order, at[l := i], i + 1, 0)
                    else Trial(false, 0);
      if deeper.found then Trial(true, 1 + deeper.cost)
      else
        var rest := Search(seen, leaves, order, at, i, l + 1);
        Trial(rest.found, 1 + deeper.cost + rest.cost)
  }

  /** The search finds something if and only if there is something to find. */
  lemma {:induction false} SearchIsComplete(seen: seq<Event>, leaves: seq<Leaf>, order: Order, at: seq<int>, i: nat, l: nat)
    requires OrderValid(order, |leaves|) && IsPrefixFit(seen, leaves, order, at, i) && l <= |leaves|
    requires i < |seen| ==> forall m | 0 <= m < l :: !CanCompleteAt(seen, leaves, order, at, i, m)
    ensures Search(seen, leaves, order, at, i, l).found <==> CanComplete(seen, leaves, order, at)
    decreases |seen| - i, |leaves| - l
  {
    hide Inverted;
    if i == |seen| {
      FullPrefixFits(seen, leaves, order, at);
    } else if l == |leaves| {
      SomeLeafTakes(seen, leaves, order, at, i);
    } else {
      TryLeaf(seen, leaves, order, at, i, l);
      if CanTake(seen, leaves, order, at, i, l) {
        SearchIsComplete(seen, leaves, order, at[l := i], i + 1, 0);
        if CanComplete(seen, leaves, order, at[l := i]) {
          ExtendsBack(seen, leaves, order, at, i, l);
        }
      }
      if !CanCompleteAt(seen, leaves, order, at, i, l) {
        SearchIsComplete(seen, leaves, order, at, i, l + 1);
      }
    }
  }

  lemma {:induction false} FullPrefixFits(seen: seq<Event>, leaves: seq<Leaf>, order: Order, at: seq<int>)
    requires OrderValid(order, |leaves|) && IsPrefixFit(seen, leaves, order, at, |seen|)
    ensures IsOrderedFit(seen, leaves, order, at) && CanComplete(seen, leaves, order, at)
  {
    assert Extends(at, at);
  }

  /** Completing an assignment that gives event `i` to leaf `l` completes the one without. */
  lemma {:induction false} ExtendsBack(seen: seq<Event>, leaves: seq<Leaf>, order: Order, at: seq<int>, i: nat, l: nat)
    requires OrderValid(order, |leaves|) && |at| == |leaves| && l < |leaves| && at[l] < 0
    requires CanComplete(seen, leaves, order, at[l := i])
    ensures CanCompleteAt(seen, leaves, order, at, i, l) && CanComplete(seen, leaves, order, at)
  {
    var full :| IsOrderedFit(seen, leaves, order, full) && Extends(full, at[l := i]);
    assert at[l := i][l] == i;
    forall m | 0 <= m < |at| && at[m] >= 0 ensures full[m] == at[m] {
      assert at[l := i][m] == at[m];
    }
    assert Extends(full, at);
  }

  // ----- How large the search can get -----

  /** Every leaf is tried for every event, below every free leaf it may be given to. */
  function Tree(leaves: nat, free: nat, events: nat): nat
    decreases events
  {
    if events == 0 then 0 else leaves + free * Tree(leaves, if free == 0 then 0 else free - 1, events - 1)
  }

  /** How many leaves from `l` on hold no event. */
  ghost function Free(at: seq<int>, l: nat): nat
    requires l <= |at|
    decreases |at| - l
  {
    if l == |at| then 0 else (if at[l] < 0 then 1 else 0) + Free(at, l + 1)
  }

  lemma {:induction false} FreeUpdate(at: seq<int>, l: nat, i: nat, m: nat)
    requires l < |at| && m <= |at| && at[l] < 0
    ensures Free(at[l := i], m) == Free(at, m) - if m <= l then 1 else 0
    decreases |at| - m
  {
    if m < |at| {
      FreeUpdate(at, l, i, m + 1);
    }
  }

  lemma {:induction false} SearchIsBounded(seen: seq<Event>, leaves: seq<Leaf>, order: Order, at: seq<int>, i: nat, l: nat, free: nat)
    requires OrderValid(order, |leaves|) && |at| == |leaves| && i < |seen| && l <= |leaves| && Free(at, 0) == free
    ensures Search(seen, leaves, order, at, i, l).cost
            <= |leaves| - l + Free(at, l) * Tree(|leaves|, if free == 0 then 0 else free - 1, |seen| - i - 1)
    decreases |seen| - i, |leaves| - l
  {
    hide CanTake, Search, Tree;
    var below := Tree(|leaves|, if free == 0 then 0 else free - 1, |seen| - i - 1);
    SearchCost(seen, leaves, order, at, i, l);
    if l < |leaves| {
      SearchIsBounded(seen, leaves, order, at, i, l + 1, free);
      if CanTake(seen, leaves, order, at, i, l) {
        TakesFreeLeaf(seen, leaves, order, at, i, l);
        FreeUpdate(at, l, i, 0);
        FreeUpdate(at, l, i, l + 1);
        SearchCost(seen, leaves, order, at[l := i], i + 1, 0);
        if i + 1 < |seen| {
          SearchIsBounded(seen, leaves, order, at[l := i], i + 1, 0, free - 1);
          TreeNext(|leaves|, free - 1, |seen| - i - 1);
        }
        OnceMore(Free(at, l + 1), below);
      }
    }
  }

  /** What the search costs in terms of the searches it consists of. */
  lemma {:induction false} SearchCost(seen: seq<Event>, leaves: seq<Leaf>, order: Order, at: seq<int>, i: nat, l: nat)
    requires OrderValid(order, |leaves|) && |at| == |leaves| && i <= |seen| && l <= |leaves|
    ensures i == |seen| || l == |leaves| ==> Search(seen, leaves, order, at, i, l).cost == 0
    ensures i < |seen| && l < |leaves| ==>
              Search(seen, leaves, order, at, i, l).cost
              <= 1 + Search(seen, leaves, order, at, i, l + 1).cost
                 + if CanTake(seen, leaves, order, at, i, l) then Search(seen, leaves, order, at[l := i], i + 1, 0).cost else 0
  {
    hide CanTake;
  }

  lemma {:induction false} TreeNext(leaves: nat, free: nat, events: nat)
    requires events > 0
    ensures Tree(leaves, free, events) == leaves + free * Tree(leaves, if free == 0 then 0 else free - 1, events - 1)
  {
  }

  lemma {:induction false} OnceMore(k: nat, b: nat)
    ensures (k + 1) * b == k * b + b
  {
  }

  lemma {:induction false} TakesFreeLeaf(seen: seq<Event>, leaves: seq<Leaf>, order: Order, at: seq<int>, i: nat, l: nat)
    requires OrderValid(order, |leaves|) && |at| == |leaves| && i < |seen| && l < |leaves|
    requires CanTake(seen, leaves, order, at, i, l)
    ensures at[l] < 0
  {
  }

  lemma {:induction false} TreeGrows(leaves: nat, free: nat, m: nat, n: nat)
    requires m <= n
    ensures Tree(leaves, free, m) <= Tree(leaves, free, n)
    decreases m
  {
    if m > 0 {
      var fewer := if free == 0 then 0 else free - 1;
      TreeGrows(leaves, fewer, m - 1, n - 1);
      MoreTimes(free, Tree(leaves, fewer, m - 1), Tree(leaves, fewer, n - 1));
    }
  }

  lemma {:induction false} MoreTimes(k: nat, a: nat, b: nat)
    requires a <= b
    ensures k * a <= k * b
  {
  }

  lemma {:induction false} AllFree(count: nat, l: nat)
    requires l <= count
    ensures Free(seq(count, _ => -1), l) == count - l
    decreases count - l
  {
    if l < count {
      AllFree(count, l + 1);
    }
  }

  /** The whole search for an assignment of the events. */
  ghost function WholeSearch(seen: seq<Event>, leaves: seq<Leaf>, order: Order): Trial
    requires OrderValid(order, |leaves|)
  {
    Search(seen, leaves, order, seq(|leaves|, _ => -1), 0, 0)
  }

  /** The search is larger than the budget: it succeeds too late, or has not failed before the last try. */
  ghost predicate OverBudget(seen: seq<Event>, leaves: seq<Leaf>, order: Order)
    requires OrderValid(order, |leaves|)
  {
    var trial := WholeSearch(seen, leaves, order);
    if trial.found then trial.cost > ORDER_SEARCH_BUDGET else trial.cost >= ORDER_SEARCH_BUDGET
  }

  /** The whole search is exact, and no larger than its tree. */
  lemma {:induction false} WholeSearchIsExact(seen: seq<Event>, leaves: seq<Leaf>, order: Order)
    requires OrderValid(order, |leaves|)
    ensures WholeSearch(seen, leaves, order).found <==> OrderedFits(seen, leaves, order)
    ensures WholeSearch(seen, leaves, order).cost <= Tree(|leaves|, |leaves|, |seen|)
    ensures Tree(|leaves|, |leaves|, |seen|) < ORDER_SEARCH_BUDGET ==> !OverBudget(seen, leaves, order)
  {
    hide Search, CanComplete, OrderedFits;
    var none := seq(|leaves|, _ => -1);
    NothingAssigned(seen, leaves, order, none);
    SearchIsComplete(seen, leaves, order, none, 0, 0);
    AllFree(|leaves|, 0);
    if |seen| > 0 {
      SearchIsBounded(seen, leaves, order, none, 0, 0, |leaves|);
    } else {
      EmptySearch(seen, leaves, order, none);
    }
  }

  lemma {:induction false} EmptySearch(seen: seq<Event>, leaves: seq<Leaf>, order: Order, at: seq<int>)
    requires OrderValid(order, |leaves|) && |at| == |leaves| && |seen| == 0
    ensures Search(seen, leaves, order, at, 0, 0) == Trial(true, 0)
  {
  }

  // ----- The program's search -----

  /**
   Tries to complete an assignment of the events before `i`. It finds a completion exactly if
   the unbudgeted search does within the budget, and pays what that costs, or all there is.
   */
  method Fit(i: nat, seen: seq<Event>, leaves: seq<Leaf>, order: Order, at: array<int>, budget0: nat)
      returns (found: bool, budget: nat)
    requires at.Length == |leaves| && OrderValid(order, |leaves|)
    requires IsPrefixFit(seen, leaves, order, at[..], i)
    modifies at
    ensures var trial := Search(seen, leaves, order, old(at[..]), i, 0);
            && found == (trial.found && trial.cost <= budget0)
            && budget == Max(0, budget0 - trial.cost)
    ensures found ==> IsOrderedFit(seen, leaves, order, at[..])
    ensures !found ==> at[..] == old(at[..])
    decreases |seen| - i
  {
    hide IsPartialFit, Inverted;
    budget := budget0;
    if i == |seen| {
      FullPrefixFits(seen, leaves, order, at[..]);
      return true, budget;
    }
    ghost var at0 := at[..];
    ghost var whole := Search(seen, leaves, order, at0, i, 0);
    for l := 0 to |leaves|
      invariant at[..] == at0 && budget <= budget0
      invariant StillToTry(whole, Search(seen, leaves, order, at0, i, l), budget0, budget)
    {
      if budget <= 0 {
        assert Search(seen, leaves, order, at0, i, l).cost > 0;
        return false, budget;
      }
      budget := budget - 1;
      TryLeaf(seen, leaves, order, at0, i, l);
      if at[l] >= 0 || !leaves[l].Matches(seen[i]) {
        continue;
      }
      at[l] := i;
      assert at[..] == at0[l := i];
      var holds := CheckOrder(order, at[..]);
      if holds {
        assert CanTake(seen, leaves, order, at0, i, l);
        found, budget := Fit(i + 1, seen, leaves, order, at, budget);
        if found {
          return;
        }
      }
      at[l] := -1;
      assert at[..] == at0;
    }
    found := false;
  }

  /** What is left of the search and of the budget, as long as nothing was found. */
  ghost predicate StillToTry(whole: Trial, rest: Trial, budget0: nat, budget: nat) {
    || (whole.found == rest.found && budget == budget0 - (whole.cost - rest.cost))
    || (budget == 0 && if whole.found then whole.cost > budget0 else whole.cost >= budget0)
  }

  lemma {:induction false} NothingAssigned(seen: seq<Event>, leaves: seq<Leaf>, order: Order, at: seq<int>)
    requires OrderValid(order, |leaves|) && |at| == |leaves| && forall l | 0 <= l < |at| :: at[l] == -1
    ensures IsPrefixFit(seen, leaves, order, at, 0)
    ensures OrderedFits(seen, leaves, order) <==> CanComplete(seen, leaves, order, at)
  {
    if OrderedFits(seen, leaves, order) {
      var full :| IsOrderedFit(seen, leaves, order, full);
      assert Extends(full, at);
    }
  }

  /**
   Searches for an assignment that breaks no ordering. Undecided means that the search is larger
   than the budget, and it is left undecided whenever it is.
   */
  method SearchOrderedFit(seen: seq<Event>, leaves: seq<Leaf>, order: Order) returns (fit: Option<seq<int>>, decided: bool)
    requires OrderValid(order, |leaves|)
    ensures fit.Some? ==> IsOrderedFit(seen, leaves, order, fit.value)
    ensures decided <==> !OverBudget(seen, leaves, order)
    ensures decided ==> (fit.Some? <==> OrderedFits(seen, leaves, order))
    ensures !decided ==> fit.None?
  {
    var at := new int[|leaves|](_ => -1);
    NothingAssigned(seen, leaves, order, at[..]);
    assert at[..] == seq(|leaves|, _ => -1);
    WholeSearchIsExact(seen, leaves, order);
    var found, budget := Fit(0, seen, leaves, order, at, ORDER_SEARCH_BUDGET);
    if found {
      return Some(at[..]), true;
    }
    if budget <= 0 {
      return None, false;
    }
    return None, true;
  }

  /** Some assignment of all events is ruled out by an ordering alone. */
  ghost predicate OrderMatters(seen: seq<Event>, leaves: seq<Leaf>, order: Order)
    requires OrderValid(order, |leaves|)
  {
    exists free :: IsFit(seen, leaves, free) && !OrderHolds(order, free)
  }

  /**
   The assignment of all events to distinct leaves that breaks no ordering. It is undecided
   only where the orderings rule out an assignment and the search is larger than the budget.
   */
  method AssignEvents(seen: seq<Event>, leaves: seq<Leaf>, order: Order) returns (fit: Option<seq<int>>, decided: bool)
    requires OrderValid(order, |leaves|)
    ensures fit.Some? ==> IsOrderedFit(seen, leaves, order, fit.value)
    ensures decided ==> (fit.Some? <==> OrderedFits(seen, leaves, order))
    ensures !decided ==> fit.None? && OrderMatters(seen, leaves, order) && OverBudget(seen, leaves, order)
  {
    var free := MatchAll(seen, leaves);
    if free.None? {
      return None, true;
    }
    var holds := CheckOrder(order, free.value);
    if |order| == 0 || holds {
      assert IsOrderedFit(seen, leaves, order, free.value);
      return free, true;
    }
    fit, decided := SearchOrderedFit(seen, leaves, order);
  }

  /**
   Names a declared pair that came in the wrong order. Reached when the events fit only if
   orderings are dropped, it always finds one: the assignment that ignores orderings must
   invert some pair, whichever assignment that is.
   */
  method OrderViolated(seen: seq<Event>, leaves: seq<Leaf>, order: Order) returns (pair: Option<nat>)
    requires OrderValid(order, |leaves|)
    requires Fits(seen, leaves) && !OrderedFits(seen, leaves, order)
    ensures pair.Some? && pair.value < |order|
    ensures exists free :: IsFit(seen, leaves, free) && Inverted(order[pair.value], free)
  {
    var free, _ := AssignEvents(seen, leaves, []);
    if free.None? {
      assert !OrderedFits(seen, leaves, []);
      NoOrderToBreak(seen, leaves);
      return None;
    }
    for p := 0 to |order|
      invariant forall q | 0 <= q < p :: !Inverted(order[q], free.value)
    {
      if Inverted(order[p], free.value) {
        return Some(p);
      }
    }
    assert IsOrderedFit(seen, leaves, order, free.value);
    pair := None;
  }

  lemma {:induction false} NoOrderToBreak(seen: seq<Event>, leaves: seq<Leaf>)
    ensures OrderedFits(seen, leaves, []) <==> Fits(seen, leaves)
    ensures !OrderMatters(seen, leaves, [])
  {
    if Fits(seen, leaves) {
      var at :| IsFit(seen, leaves, at);
      assert IsOrderedFit(seen, leaves, [], at);
    }
  }
}
