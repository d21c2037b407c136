/**
 What a declaration means: the events of each top-level permission come in the order written,
 and different permissions interleave freely. An assignment that breaks no flattened ordering
 and uses certain leaves exists exactly when the events are such an interleaving of those
 leaves: of all of them when the step is complete, of some of them on the way.
 */
module Interleaving {
  import opened Wrappers
  import opened Matching
  import opened OrderedFit
  import opened Declarations

  type Chains = seq<seq<Leaf>>

  /** Each top-level permission's leaves, in written order. */
  function ChainsOf(allows: seq<Allow>): (chains: Chains)
    ensures |chains| == |allows|
  {
    seq(|allows|, c requires 0 <= c < |allows| => LeavesOf(allows[c]))
  }

  /**
   The events from the `k`-th on can be consumed one by one, each by the next leaf of some
   chain, `pos` saying how far each chain has come, until every chain is used up.
   */
  ghost predicate RunsFrom(chains: Chains, pos: seq<nat>, events: seq<Event>, k: nat)
    requires |pos| == |chains| && k <= |events|
    decreases |events| - k
  {
    if k == |events| then forall c | 0 <= c < |chains| :: pos[c] == |chains[c]|
    else exists c :: 0 <= c < |chains| && NextTakes(chains, pos, events[k], c)
                     && RunsFrom(chains, pos[c := pos[c] + 1], events, k + 1)
  }

  ghost predicate NextTakes(chains: Chains, pos: seq<nat>, ev: Event, c: nat)
    requires |pos| == |chains| && c < |chains|
  {
    pos[c] < |chains[c]| && chains[c][pos[c]].Matches(ev)
  }

  ghost predicate Interleaves(chains: Chains, events: seq<Event>) {
    RunsFrom(chains, seq(|chains|, _ => 0), events, 0)
  }

  // ----- Where a chain's leaves sit in the flat list -----

  /** The flat index of the first leaf of chain `c`. */
  function Base(allows: seq<Allow>, c: nat): nat
    requires c <= |allows|
  {
    |LeavesOfAll(allows, c)|
  }

  lemma {:induction false} BasesGrow(allows: seq<Allow>, c: nat, d: nat)
    requires c <= d <= |allows|
    ensures Base(allows, c) <= Base(allows, d)
    decreases d
  {
    if c < d {
      BasesGrow(allows, c, d - 1);
    }
  }

  lemma {:induction false} FlatAt(allows: seq<Allow>, n: nat, c: nat, p: nat)
    requires c < n <= |allows| && p < |LeavesOf(allows[c])|
    ensures Base(allows, c) + p < Base(allows, n)
    ensures LeavesOfAll(allows, n)[Base(allows, c) + p] == LeavesOf(allows[c])[p]
    decreases n
  {
    if c < n - 1 {
      FlatAt(allows, n - 1, c, p);
    }
  }

  lemma {:induction false} Locate(allows: seq<Allow>, n: nat, l: nat) returns (c: nat, p: nat)
    requires n <= |allows| && l < Base(allows, n)
    ensures c < n && p < |LeavesOf(allows[c])| && l == Base(allows, c) + p
    decreases n
  {
    if l < Base(allows, n - 1) {
      c, p := Locate(allows, n - 1, l);
    } else {
      c, p := n - 1, l - Base(allows, n - 1);
    }
  }

  /** Both leaves belong to the `c`th permission, in written order. */
  ghost predicate Within(allows: seq<Allow>, c: nat, i: nat, j: nat)
    requires c < |allows|
  {
    Base(allows, c) <= i < j < Base(allows, c) + |LeavesOf(allows[c])|
  }

  ghost predicate WithinSome(allows: seq<Allow>, n: nat, i: nat, j: nat)
    requires n <= |allows|
  {
    exists c :: 0 <= c < n && Within(allows, c, i, j)
  }

  lemma {:induction false} WithinSomeNext(allows: seq<Allow>, n: nat, i: nat, j: nat)
    requires n < |allows|
    ensures WithinSome(allows, n + 1, i, j) <==> WithinSome(allows, n, i, j) || Within(allows, n, i, j)
  {
    hide Within;
  }

  /** The flattened pairs are exactly the pairs of leaves of one top-level permission, in written order. */
  lemma {:induction false} FlatOrder(allows: seq<Allow>, n: nat, i: nat, j: nat)
    requires n <= |allows| && forall a | a in allows :: Built(a)
    ensures (i, j) in OrderOfAll(allows, n) <==> WithinSome(allows, n, i, j)
    decreases n
  {
    hide LeavesOf, OrderOf, LeavesOfAll, Built;
    if n > 0 {
      FlatOrder(allows, n - 1, i, j);
      OrderIsWrittenOrder(allows[n - 1], Base(allows, n - 1), i, j);
      WithinSomeNext(allows, n - 1, i, j);
      hide WithinSome;
    }
  }

  lemma {:induction false} FlatOrderValid(allows: seq<Allow>)
    requires forall a | a in allows :: Built(a)
    ensures OrderValid(OrderOfAll(allows, |allows|), |LeavesOfAll(allows, |allows|)|)
  {
    var order := OrderOfAll(allows, |allows|);
    forall q | 0 <= q < |order| ensures order[q].0 < Base(allows, |allows|) && order[q].1 < Base(allows, |allows|) {
      var (i, j) := order[q];
      assert (i, j) in order;
      FlatOrder(allows, |allows|, i, j);
      var c :| 0 <= c < |allows| && Within(allows, c, i, j);
      BasesGrow(allows, c + 1, |allows|);
    }
  }

  // ----- The leaves that have an event -----

  /** The members of `keep` in [lo, hi), in ascending order. */
  ghost function KeptIn(lo: nat, hi: nat, keep: set<nat>): seq<nat>
    decreases hi
  {
    if hi <= lo then [] else KeptIn(lo, hi - 1, keep) + if hi - 1 in keep then [hi - 1] else []
  }

  lemma {:induction false} KeptInIs(lo: nat, hi: nat, keep: set<nat>)
    ensures var row := KeptIn(lo, hi, keep);
            && (forall x :: x in row <==> lo <= x < hi && x in keep)
            && (forall a | 0 <= a < |row| :: lo <= row[a] < hi && row[a] in keep)
            && (forall a, b | 0 <= a < b < |row| :: row[a] < row[b])
    decreases hi
  {
    if lo < hi {
      KeptInIs(lo, hi - 1, keep);
    }
  }

  /** The flat numbers of the `c`th permission's leaves that are kept. */
  ghost function KeptRow(allows: seq<Allow>, keep: set<nat>, c: nat): (row: seq<nat>)
    requires c < |allows|
    ensures forall a | 0 <= a < |row| :: Base(allows, c) <= row[a] < Base(allows, c + 1) && row[a] in keep
    ensures forall a | 0 <= a < |row| :: row[a] < Base(allows, |allows|)
    ensures forall a, b | 0 <= a < b < |row| :: row[a] < row[b]
  {
    BasesGrow(allows, c + 1, |allows|);
    KeptInIs(Base(allows, c), Base(allows, c + 1), keep);
    KeptIn(Base(allows, c), Base(allows, c + 1), keep)
  }

  ghost function PickLeaves(leaves: seq<Leaf>, row: seq<nat>): (chain: seq<Leaf>)
    requires forall a | 0 <= a < |row| :: row[a] < |leaves|
    ensures |chain| == |row| && forall a | 0 <= a < |row| :: chain[a] == leaves[row[a]]
  {
    seq(|row|, a requires 0 <= a < |row| => leaves[row[a]])
  }

  /** Each top-level permission's leaves with all but the kept ones left out. */
  ghost function KeptChains(allows: seq<Allow>, keep: set<nat>): (chains: Chains)
    ensures |chains| == |allows|
  {
    seq(|allows|, c requires 0 <= c < |allows| => PickLeaves(LeavesOfAll(allows, |allows|), KeptRow(allows, keep, c)))
  }

  lemma {:induction false} KeptPlace(allows: seq<Allow>, keep: set<nat>, l: nat) returns (c: nat, a: nat)
    requires l in keep && l < Base(allows, |allows|)
    ensures c < |allows| && a < |KeptRow(allows, keep, c)| && KeptRow(allows, keep, c)[a] == l
  {
    var p;
    c, p := Locate(allows, |allows|, l);
    KeptInIs(Base(allows, c), Base(allows, c + 1), keep);
    assert l in KeptIn(Base(allows, c), Base(allows, c + 1), keep);
    a :| 0 <= a < |KeptRow(allows, keep, c)| && KeptRow(allows, keep, c)[a] == l;
  }

  lemma {:induction false} SamePlace(allows: seq<Allow>, keep: set<nat>, c: nat, a: nat, d: nat, b: nat)
    requires c < |allows| && d < |allows| && a < |KeptRow(allows, keep, c)| && b < |KeptRow(allows, keep, d)|
    requires KeptRow(allows, keep, c)[a] == KeptRow(allows, keep, d)[b]
    ensures c == d && a == b
  {
    if c < d {
      BasesGrow(allows, c + 1, d);
    } else if d < c {
      BasesGrow(allows, d + 1, c);
    }
  }

  /** Two kept leaves are ordered exactly if one stands before the other in a row. */
  lemma {:induction false} RowOrder(allows: seq<Allow>, keep: set<nat>, c: nat, a: nat, b: nat)
    requires forall x | x in allows :: Built(x)
    requires c < |allows| && a < b < |KeptRow(allows, keep, c)|
    ensures (KeptRow(allows, keep, c)[a], KeptRow(allows, keep, c)[b]) in OrderOfAll(allows, |allows|)
  {
    hide Built, OrderOfAll;
    FlatOrder(allows, |allows|, KeptRow(allows, keep, c)[a], KeptRow(allows, keep, c)[b]);
    assert Within(allows, c, KeptRow(allows, keep, c)[a], KeptRow(allows, keep, c)[b]);
  }

  lemma {:induction false} OrderedInRow(allows: seq<Allow>, keep: set<nat>, i: nat, j: nat) returns (c: nat, a: nat, b: nat)
    requires forall x | x in allows :: Built(x)
    requires (i, j) in OrderOfAll(allows, |allows|) && i in keep && j in keep
    ensures c < |allows| && a < b < |KeptRow(allows, keep, c)|
    ensures KeptRow(allows, keep, c)[a] == i && KeptRow(allows, keep, c)[b] == j
  {
    hide Built, OrderOfAll, KeptIn;
    FlatOrder(allows, |allows|, i, j);
    c :| 0 <= c < |allows| && Within(allows, c, i, j);
    KeptInIs(Base(allows, c), Base(allows, c + 1), keep);
    assert i in KeptIn(Base(allows, c), Base(allows, c + 1), keep);
    assert j in KeptIn(Base(allows, c), Base(allows, c + 1), keep);
    a :| 0 <= a < |KeptRow(allows, keep, c)| && KeptRow(allows, keep, c)[a] == i;
    b :| 0 <= b < |KeptRow(allows, keep, c)| && KeptRow(allows, keep, c)[b] == j;
    Ascending(KeptRow(allows, keep, c), a, b);
  }

  lemma {:induction false} Ascending(row: seq<nat>, a: nat, b: nat)
    requires forall x, y | 0 <= x < y < |row| :: row[x] < row[y]
    requires a < |row| && b < |row| && row[a] < row[b]
    ensures a < b
  {
  }

  /** The leaves with an event are exactly the kept ones. */
  ghost predicate Uses(at: seq<int>, keep: set<nat>) {
    forall l: nat | l < |at| :: at[l] >= 0 <==> l in keep
  }

  // ----- From an assignment to an interleaving -----

  lemma {:induction false} OrderKept(order: Order, at: seq<int>, i: nat, j: nat)
    requires OrderValid(order, |at|) && OrderHolds(order, at) && (i, j) in order
    ensures i < |at| && j < |at| && (at[i] >= 0 && at[j] >= 0 ==> at[i] <= at[j])
  {
    var q :| 0 <= q < |order| && order[q] == (i, j);
    assert !Inverted(order[q], at);
  }

  /** `pos` cuts every row before its first leaf whose event is the `k`-th or later. */
  ghost predicate CutAt(allows: seq<Allow>, keep: set<nat>, at: seq<int>, pos: seq<nat>, k: nat)
    requires |at| == Base(allows, |allows|) && |pos| == |allows|
  {
    && (forall c | 0 <= c < |allows| :: pos[c] <= |KeptRow(allows, keep, c)|)
    && forall c, a | 0 <= c < |allows| && 0 <= a < |KeptRow(allows, keep, c)| ::
         at[KeptRow(allows, keep, c)[a]] < k <==> a < pos[c]
  }

  /** The `k`-th event belongs to the next kept leaf of some row. */
  lemma {:induction false} NextChain(allows: seq<Allow>, keep: set<nat>, events: seq<Event>, at: seq<int>, pos: seq<nat>, k: nat)
      returns (c: nat)
    requires forall x | x in allows :: Built(x)
    requires OrderValid(OrderOfAll(allows, |allows|), Base(allows, |allows|))
    requires IsOrderedFit(events, LeavesOfAll(allows, |allows|), OrderOfAll(allows, |allows|), at) && Uses(at, keep)
    requires |pos| == |allows| && k < |events| && CutAt(allows, keep, at, pos, k)
    ensures c < |allows| && NextTakes(KeptChains(allows, keep), pos, events[k], c)
    ensures CutAt(allows, keep, at, pos[c := pos[c] + 1], k + 1)
  {
    hide Built, OrderOfAll, OrderHolds, OrderValid, KeptRow;
    assert Assigned(at, k);
    var l :| 0 <= l < |at| && at[l] == k;
    var a;
    c, a := KeptPlace(allows, keep, l);
    if pos[c] < a {
      var i := KeptRow(allows, keep, c)[pos[c]];
      RowOrder(allows, keep, c, pos[c], a);
      OrderKept(OrderOfAll(allows, |allows|), at, i, l);
      assert false;
    }
    var pos' := pos[c := pos[c] + 1];
    forall d, b | 0 <= d < |allows| && 0 <= b < |KeptRow(allows, keep, d)|
      ensures at[KeptRow(allows, keep, d)[b]] < k + 1 <==> b < pos'[d]
    {
      if at[KeptRow(allows, keep, d)[b]] == k {
        SamePlace(allows, keep, c, a, d, b);
      }
    }
  }

  /** Once every event is consumed, so is every row. */
  lemma {:induction false} AllCut(allows: seq<Allow>, keep: set<nat>, events: seq<Event>, at: seq<int>, pos: seq<nat>, c: nat)
    requires IsPartialFit(events, LeavesOfAll(allows, |allows|), at)
    requires |pos| == |allows| && CutAt(allows, keep, at, pos, |events|) && c < |allows|
    ensures pos[c] == |KeptRow(allows, keep, c)|
  {
    hide KeptRow;
    if pos[c] < |KeptRow(allows, keep, c)| {
      PastCut(allows, keep, events, at, pos, c, pos[c]);
      assert false;
    }
  }

  lemma {:induction false} PastCut(allows: seq<Allow>, keep: set<nat>, events: seq<Event>, at: seq<int>, pos: seq<nat>, c: nat, a: nat)
    requires IsPartialFit(events, LeavesOfAll(allows, |allows|), at)
    requires |pos| == |allows| && CutAt(allows, keep, at, pos, |events|) && c < |allows| && a < |KeptRow(allows, keep, c)|
    ensures a < pos[c]
  {
    hide KeptRow;
    assert at[KeptRow(allows, keep, c)[a]] < |events|;
  }

  lemma {:induction false} FitRuns(allows: seq<Allow>, keep: set<nat>, events: seq<Event>, at: seq<int>, pos: seq<nat>, k: nat)
    requires forall x | x in allows :: Built(x)
    requires OrderValid(OrderOfAll(allows, |allows|), Base(allows, |allows|))
    requires IsOrderedFit(events, LeavesOfAll(allows, |allows|), OrderOfAll(allows, |allows|), at) && Uses(at, keep)
    requires |pos| == |allows| && k <= |events| && CutAt(allows, keep, at, pos, k)
    ensures RunsFrom(KeptChains(allows, keep), pos, events, k)
    decreases |events| - k
  {
    hide Built, OrderOfAll, OrderHolds, KeptRow, CutAt, NextTakes, IsPartialFit, LeavesOfAll, OrderValid, Uses;
    if k == |events| {
      forall c | 0 <= c < |allows| ensures pos[c] == |KeptRow(allows, keep, c)| {
        AllCut(allows, keep, events, at, pos, c);
      }
    } else {
      var c := NextChain(allows, keep, events, at, pos, k);
      FitRuns(allows, keep, events, at, pos[c := pos[c] + 1], k + 1);
    }
  }

  // ----- From an interleaving to an assignment -----

  /** The assignment made by consuming the first `k` events. */
  ghost predicate Consumed(allows: seq<Allow>, keep: set<nat>, events: seq<Event>, at: seq<int>, pos: seq<nat>, k: nat)
    requires |at| == Base(allows, |allows|) && |pos| == |allows|
  {
    && IsPartialFit(events, LeavesOfAll(allows, |allows|), at)
    && (forall l | 0 <= l < |at| :: at[l] < k && (at[l] >= 0 ==> l in keep))
    && (forall x | 0 <= x < k :: Assigned(at, x))
    && (forall c, a | 0 <= c < |allows| && 0 <= a < |KeptRow(allows, keep, c)| ::
          at[KeptRow(allows, keep, c)[a]] >= 0 <==> a < pos[c])
    && forall c, a, b | 0 <= c < |allows| && 0 <= a < b < |KeptRow(allows, keep, c)| && b < pos[c] ::
         at[KeptRow(allows, keep, c)[a]] < at[KeptRow(allows, keep, c)[b]]
  }

  lemma {:induction false} ConsumeOne(allows: seq<Allow>, keep: set<nat>, events: seq<Event>, at: seq<int>, pos: seq<nat>, k: nat, c: nat)
    requires |at| == Base(allows, |allows|) && |pos| == |allows| && k < |events|
    requires Consumed(allows, keep, events, at, pos, k)
    requires c < |allows| && NextTakes(KeptChains(allows, keep), pos, events[k], c)
    ensures var l := KeptRow(allows, keep, c)[pos[c]];
            l < |at| && Consumed(allows, keep, events, at[l := k], pos[c := pos[c] + 1], k + 1)
  {
    hide KeptRow;
    var l := KeptRow(allows, keep, c)[pos[c]];
    var at', pos' := at[l := k], pos[c := pos[c] + 1];
    forall d, a | 0 <= d < |allows| && 0 <= a < |KeptRow(allows, keep, d)|
      ensures at'[KeptRow(allows, keep, d)[a]] >= 0 <==> a < pos'[d]
      ensures KeptRow(allows, keep, d)[a] == l ==> d == c && a == pos[c]
    {
      if KeptRow(allows, keep, d)[a] == l {
        SamePlace(allows, keep, c, pos[c], d, a);
      }
    }
    forall x | 0 <= x < k + 1 ensures Assigned(at', x) {
      AssignedUpdate(at, l, k, x);
    }
  }

  lemma {:induction false} TakesFromRow(allows: seq<Allow>, keep: set<nat>, pos: seq<nat>, ev: Event, c: nat)
    requires |pos| == |allows| && c < |allows| && NextTakes(KeptChains(allows, keep), pos, ev, c)
    ensures pos[c] < |KeptRow(allows, keep, c)|
  {
  }

  lemma {:induction false} RunFits(allows: seq<Allow>, keep: set<nat>, events: seq<Event>, at: seq<int>, pos: seq<nat>, k: nat)
      returns (full: seq<int>)
    requires forall x | x in allows :: Built(x)
    requires OrderValid(OrderOfAll(allows, |allows|), Base(allows, |allows|))
    requires |at| == Base(allows, |allows|) && |pos| == |allows| && k <= |events|
    requires Consumed(allows, keep, events, at, pos, k) && RunsFrom(KeptChains(allows, keep), pos, events, k)
    ensures IsOrderedFit(events, LeavesOfAll(allows, |allows|), OrderOfAll(allows, |allows|), full) && Uses(full, keep)
    decreases |events| - k
  {
    hide KeptRow, OrderOfAll, Built, OrderHolds, OrderValid, NextTakes;
    if k == |events| {
      full := at;
      OrderFromConsumed(allows, keep, events, at, pos);
      forall l: nat | l < |at| ensures at[l] >= 0 <==> l in keep {
        if l in keep {
          var c, a := KeptPlace(allows, keep, l);
        }
      }
    } else {
      var c :| 0 <= c < |allows| && NextTakes(KeptChains(allows, keep), pos, events[k], c)
               && RunsFrom(KeptChains(allows, keep), pos[c := pos[c] + 1], events, k + 1);
      TakesFromRow(allows, keep, pos, events[k], c);
      ConsumeOne(allows, keep, events, at, pos, k, c);
      full := RunFits(allows, keep, events, at[KeptRow(allows, keep, c)[pos[c]] := k], pos[c := pos[c] + 1], k + 1);
    }
  }

  lemma {:induction false} OrderFromConsumed(allows: seq<Allow>, keep: set<nat>, events: seq<Event>, at: seq<int>, pos: seq<nat>)
    requires forall x | x in allows :: Built(x)
    requires |at| == Base(allows, |allows|) && |pos| == |allows|
    requires OrderValid(OrderOfAll(allows, |allows|), |at|)
    requires Consumed(allows, keep, events, at, pos, |events|)
    ensures OrderHolds(OrderOfAll(allows, |allows|), at)
  {
    hide KeptRow, OrderOfAll, Built;
    var order := OrderOfAll(allows, |allows|);
    forall x | 0 <= x < |order| ensures !Inverted(order[x], at) {
      var (i, j) := order[x];
      assert (i, j) in order;
      if at[i] >= 0 && at[j] >= 0 {
        var c, a, b := OrderedInRow(allows, keep, i, j);
      }
    }
  }

  // ----- Main results -----

  /**
   An assignment of all events that breaks no flattened ordering and uses exactly the kept
   leaves exists if and only if the events are an interleaving of the permissions, each in its
   written order with all but the kept leaves left out.
   */
  lemma {:induction false} FitIffPartInterleaves(allows: seq<Allow>, keep: set<nat>, events: seq<Event>)
    requires forall x | x in allows :: Built(x)
    ensures OrderValid(OrderOfAll(allows, |allows|), |LeavesOfAll(allows, |allows|)|)
    ensures (exists at :: IsOrderedFit(events, LeavesOfAll(allows, |allows|), OrderOfAll(allows, |allows|), at) && Uses(at, keep))
            <==> Interleaves(KeptChains(allows, keep), events)
  {
    hide KeptRow, OrderOfAll, Built, OrderHolds, KeptChains;
    FlatOrderValid(allows);
    var leaves, order := LeavesOfAll(allows, |allows|), OrderOfAll(allows, |allows|);
    var zeros := seq(|allows|, _ => 0);
    if at :| IsOrderedFit(events, leaves, order, at) && Uses(at, keep) {
      assert CutAt(allows, keep, at, zeros, 0);
      FitRuns(allows, keep, events, at, zeros, 0);
    }
    if Interleaves(KeptChains(allows, keep), events) {
      var none := seq(|leaves|, _ => -1);
      assert Consumed(allows, keep, events, none, zeros, 0);
      var full := RunFits(allows, keep, events, none, zeros, 0);
    }
  }

  /** The events are an interleaving of some of the declaration's leaves. */
  ghost predicate PartInterleaves(allows: seq<Allow>, events: seq<Event>) {
    exists keep :: Interleaves(KeptChains(allows, keep), events)
  }

  /** Some assignment breaks no ordering if and only if the events interleave some of the leaves. */
  lemma {:induction false} OrderedFitsIffPart(allows: seq<Allow>, events: seq<Event>)
    requires forall x | x in allows :: Built(x)
    ensures OrderValid(OrderOfAll(allows, |allows|), |LeavesOfAll(allows, |allows|)|)
    ensures OrderedFits(events, LeavesOfAll(allows, |allows|), OrderOfAll(allows, |allows|)) <==> PartInterleaves(allows, events)
  {
    hide IsOrderedFit, Interleaves, KeptChains, OrderOfAll, Built;
    FlatOrderValid(allows);
    var leaves, order := LeavesOfAll(allows, |allows|), OrderOfAll(allows, |allows|);
    if at :| IsOrderedFit(events, leaves, order, at) {
      var keep := set l: nat | l < |at| && at[l] >= 0;
      assert Uses(at, keep);
      FitIffPartInterleaves(allows, keep, events);
    }
    if keep :| Interleaves(KeptChains(allows, keep), events) {
      FitIffPartInterleaves(allows, keep, events);
    }
  }

  lemma {:induction false} BaseNext(allows: seq<Allow>, c: nat)
    requires c < |allows|
    ensures Base(allows, c + 1) == Base(allows, c) + |LeavesOf(allows[c])|
  {
  }

  lemma {:induction false} RowIsChain(allows: seq<Allow>, c: nat)
    requires c < |allows|
    ensures PickLeaves(LeavesOfAll(allows, |allows|), KeptRow(allows, Below(Base(allows, |allows|)), c)) == LeavesOf(allows[c])
  {
    hide LeavesOf, LeavesOfAll, KeptIn, Below, PickLeaves;
    var keep := Below(Base(allows, |allows|));
    BaseNext(allows, c);
    BasesGrow(allows, c + 1, |allows|);
    KeptInAll(Base(allows, c), Base(allows, c + 1), keep);
    var row := KeptRow(allows, keep, c);
    forall p | 0 <= p < |LeavesOf(allows[c])|
      ensures p < |row| && LeavesOfAll(allows, |allows|)[row[p]] == LeavesOf(allows[c])[p]
    {
      FlatAt(allows, |allows|, c, p);
    }
  }

  /** Keeping every leaf leaves the declaration as it is. */
  lemma {:induction false} KeepingAll(allows: seq<Allow>)
    ensures KeptChains(allows, Below(Base(allows, |allows|))) == ChainsOf(allows)
  {
    hide KeptRow, LeavesOf, LeavesOfAll, Below, PickLeaves;
    forall c | 0 <= c < |allows|
      ensures KeptChains(allows, Below(Base(allows, |allows|)))[c] == ChainsOf(allows)[c]
    {
      RowIsChain(allows, c);
    }
  }

  /** A full stretch of flat numbers, all of them kept. */
  lemma {:induction false} KeptInAll(lo: nat, hi: nat, keep: set<nat>)
    requires lo <= hi && forall x: nat | x < hi :: x in keep
    ensures |KeptIn(lo, hi, keep)| == hi - lo && forall a | 0 <= a < hi - lo :: KeptIn(lo, hi, keep)[a] == lo + a
    decreases hi
  {
    if lo < hi {
      KeptInAll(lo, hi - 1, keep);
      assert hi - 1 in keep;
    }
  }

  /**
   A full assignment that breaks no flattened ordering exists exactly when the events are an
   interleaving of the declared permissions, each in its written order.
   */
  lemma {:induction false} FitIffInterleaving(allows: seq<Allow>, events: seq<Event>)
    requires forall a | a in allows :: Built(a)
    ensures var leaves, order := LeavesOfAll(allows, |allows|), OrderOfAll(allows, |allows|);
            && OrderValid(order, |leaves|)
            && (|events| == |leaves| && OrderedFits(events, leaves, order) <==> Interleaves(ChainsOf(allows), events))
  {
    hide OrderHolds, Interleaves, KeptChains, OrderOfAll, Built;
    var leaves, order := LeavesOfAll(allows, |allows|), OrderOfAll(allows, |allows|);
    var all := Below(|leaves|);
    FitIffPartInterleaves(allows, all, events);
    KeepingAll(allows);
    if |events| == |leaves| && OrderedFits(events, leaves, order) {
      var at :| IsOrderedFit(events, leaves, order, at);
      forall l: nat | l < |at| ensures at[l] >= 0 {
        FullFitUsesAll(events, leaves, at, l);
      }
      assert Uses(at, all);
    }
    if Interleaves(ChainsOf(allows), events) {
      var at :| IsOrderedFit(events, leaves, order, at) && Uses(at, all);
      UsesAllEvents(events, leaves, at);
    }
  }

  /** As many events as leaves leave no leaf without one. */
  lemma {:induction false} FullFitUsesAll(seen: seq<Event>, leaves: seq<Leaf>, at: seq<int>, l: nat)
    requires IsFit(seen, leaves, at) && |seen| == |leaves| && l < |leaves|
    ensures 0 <= at[l] < |seen|
  {
    var used := LeavesOfEvents(seen, leaves, at, Below(|seen|));
    if l !in used {
      SubsetSize(used, Below(|leaves|) - {l});
    }
  }

  /** A fit with no leaf to spare has as many leaves as events. */
  lemma {:induction false} UsesAllEvents(seen: seq<Event>, leaves: seq<Leaf>, at: seq<int>)
    requires IsFit(seen, leaves, at) && forall l | 0 <= l < |at| :: at[l] >= 0
    ensures |seen| == |leaves|
  {
    var used := LeavesOfEvents(seen, leaves, at, Below(|seen|));
    assert used <= Below(|leaves|);
    SubsetSize(used, Below(|leaves|));
    ImageSize(Below(|leaves|), at);
    SubsetSize(set l | l in Below(|leaves|) :: at[l], Below(|seen|));
  }

  // ----- A single permission -----

  /** One chain is consumed front to back. */
  lemma {:induction false} OneChainRuns(leaves: seq<Leaf>, events: seq<Event>, k: nat)
    requires k <= |events| && k <= |leaves|
    ensures RunsFrom([leaves], [k], events, k) <==>
            |events| == |leaves| && forall i | k <= i < |events| :: leaves[i].Matches(events[i])
    decreases |events| - k
  {
    hide Leaf.Matches;
    var chains, pos: seq<nat> := [leaves], [k];
    assert chains[0] == leaves && pos[0] == k;
    if k < |events| {
      assert pos[0 := k + 1] == [k + 1];
      assert NextTakes(chains, pos, events[k], 0) <==> k < |leaves| && leaves[k].Matches(events[k]);
      if RunsFrom(chains, pos, events, k) {
        var c :| 0 <= c < |chains| && NextTakes(chains, pos, events[k], c) && RunsFrom(chains, pos[c := pos[c] + 1], events, k + 1);
        assert c == 0;
      }
      if k < |leaves| {
        OneChainRuns(leaves, events, k + 1);
      }
    }
  }

  /** The interleavings of a single permission are the events it means. */
  lemma {:induction false} OneInterleaves(a: Allow, events: seq<Event>)
    ensures Interleaves(ChainsOf([a]), events) <==> Means(a, events)
  {
    assert ChainsOf([a]) == [LeavesOf(a)];
    assert seq(|ChainsOf([a])|, _ => 0) == [0];
    OneChainRuns(LeavesOf(a), events, 0);
    MeansItsLeaves(a, events);
  }
}
