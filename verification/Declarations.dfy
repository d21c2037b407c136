/**
 The declaration language of a script step (ctrltest/script.go:415-614): single changes,
 and Before(a, b) for groups in order. Flattening compiles it to a list of leaves and the
 pairs of leaves whose events must keep their order.
 */
module Declarations {
  import opened Wrappers
  import opened Matching
  import opened OrderedFit

  datatype Allow =
    | Unset
    | Single(leaf: Leaf)
    | Group(parts: seq<Allow>)
    | Quiet

  function Before(a: Allow, b: Allow): Allow { Group([a, b]) }

  /** What the constructors can build: a group always has two parts. */
  ghost predicate Built(a: Allow) {
    match a
    case Group(parts) => |parts| == 2 && forall p | p in parts :: Built(p)
    case _ => true
  }

  // ----- Validation -----

  /** A declaration is refused for an unset part, an unnamed object, or silence inside a group. */
  predicate ValidAllow(a: Allow, nested: bool) {
    match a
    case Unset => false
    case Single(leaf) => leaf.kind != "" && leaf.name != ""
    case Group(parts) => forall p | p in parts :: ValidAllow(p, true)
    case Quiet => !nested
  }

  predicate ValidAllows(allows: seq<Allow>) {
    && |allows| > 0
    && forall a | a in allows :: (a.Quiet? ==> |allows| == 1) && ValidAllow(a, false)
  }

  /** `x` occurs in `a` as a part of a part, `depth` levels down. */
  ghost predicate OccursAt(x: Allow, a: Allow, depth: nat)
    decreases depth
  {
    if depth == 0 then a == x else a.Group? && exists p :: p in a.parts && OccursAt(x, p, depth - 1)
  }

  /** `x` occurs in `a`, `least` levels down or more. */
  ghost predicate Occurs(x: Allow, a: Allow, least: nat) {
    exists depth :: least <= depth && OccursAt(x, a, depth)
  }

  ghost predicate Unnamed(leaf: Leaf) {
    leaf.kind == "" || leaf.name == ""
  }

  /**
   A declaration is ill-formed if it is empty, if silence stands beside something else or inside an
   ordering, if a part was never set, or if a change it permits lacks a kind or a name.
   */
  ghost predicate IllFormed(allows: seq<Allow>) {
    || allows == []
    || (Quiet in allows && |allows| > 1)
    || (exists a :: a in allows && (Occurs(Quiet, a, 1) || Occurs(Unset, a, 0)))
    || (exists leaf :: leaf in LeavesOfAll(allows, |allows|) && Unnamed(leaf))
  }

  /** Something occurs below a group exactly when it occurs in one of its parts. */
  lemma {:induction false} OccursBelow(x: Allow, a: Allow, least: nat)
    requires a.Group?
    ensures Occurs(x, a, least + 1) <==> exists p :: p in a.parts && Occurs(x, p, least)
  {
    if depth :| least + 1 <= depth && OccursAt(x, a, depth) {
      var p :| p in a.parts && OccursAt(x, p, depth - 1);
      assert Occurs(x, p, least);
    }
    if p :| p in a.parts && Occurs(x, p, least) {
      var depth :| least <= depth && OccursAt(x, p, depth);
      assert OccursAt(x, a, depth + 1);
    }
  }

  /** Something else than the group occurs in it only below. */
  lemma {:induction false} OccursNotHere(x: Allow, a: Allow)
    requires a != x
    ensures Occurs(x, a, 0) <==> Occurs(x, a, 1)
    ensures !a.Group? ==> !Occurs(x, a, 0)
  {
  }

  lemma {:induction false} OccursHere(x: Allow, a: Allow)
    ensures a == x ==> Occurs(x, a, 0)
    ensures !a.Group? ==> !Occurs(x, a, 1)
  {
    assert a == x ==> OccursAt(x, a, 0);
  }

  lemma {:induction false} LeafOfSomePart(parts: seq<Allow>, n: nat, leaf: Leaf)
    requires n <= |parts|
    ensures leaf in LeavesOfParts(parts, n) <==> exists k :: 0 <= k < n && leaf in LeavesOf(parts[k])
    decreases n
  {
    hide LeavesOf;
    if n > 0 {
      LeafOfSomePart(parts, n - 1, leaf);
    }
  }

  lemma {:induction false} LeafOfSome(allows: seq<Allow>, n: nat, leaf: Leaf)
    requires n <= |allows|
    ensures leaf in LeavesOfAll(allows, n) <==> exists k :: 0 <= k < n && leaf in LeavesOf(allows[k])
    decreases n
  {
    hide LeavesOf;
    if n > 0 {
      LeafOfSome(allows, n - 1, leaf);
    }
  }

  /** Every change the declaration permits has a kind and a name. */
  ghost predicate AllNamed(a: Allow) {
    forall leaf :: leaf in LeavesOf(a) ==> !Unnamed(leaf)
  }

  lemma {:induction false} AllNamedParts(a: Allow)
    requires a.Group?
    ensures AllNamed(a) <==> forall p :: p in a.parts ==> AllNamed(p)
  {
    var n := |a.parts|;
    forall leaf ensures leaf in LeavesOf(a) <==> exists k :: 0 <= k < n && leaf in LeavesOf(a.parts[k]) {
      LeafOfSomePart(a.parts, n, leaf);
    }
    if !AllNamed(a) {
      var leaf :| leaf in LeavesOf(a) && Unnamed(leaf);
      var k :| 0 <= k < n && leaf in LeavesOf(a.parts[k]);
      assert !AllNamed(a.parts[k]);
    }
    if p :| p in a.parts && !AllNamed(p) {
      var leaf :| leaf in LeavesOf(p) && Unnamed(leaf);
      var k :| 0 <= k < n && a.parts[k] == p;
      assert leaf in LeavesOf(a);
    }
  }

  /** One declaration is refused exactly for what occurs in it. */
  lemma {:induction false} ValidAllowIff(a: Allow, nested: bool)
    ensures ValidAllow(a, nested) <==>
            !Occurs(Unset, a, 0) && !Occurs(Quiet, a, if nested then 0 else 1) && AllNamed(a)
    decreases a
  {
    hide Occurs, AllNamed;
    match a
    case Group(parts) =>
      OccursNotHere(Unset, a);
      OccursNotHere(Quiet, a);
      OccursBelow(Unset, a, 0);
      OccursBelow(Quiet, a, 0);
      AllNamedParts(a);
      forall p | p in parts
        ensures ValidAllow(p, true) <==> !Occurs(Unset, p, 0) && !Occurs(Quiet, p, 0) && AllNamed(p)
      {
        ValidAllowIff(p, true);
      }
    case _ =>
      LoneAllow(a);
  }

  lemma {:induction false} LoneAllow(a: Allow)
    requires !a.Group?
    ensures Occurs(Unset, a, 0) <==> a.Unset?
    ensures Occurs(Quiet, a, 0) <==> a.Quiet?
    ensures !Occurs(Quiet, a, 1)
    ensures AllNamed(a) <==> (a.Single? ==> !Unnamed(a.leaf))
  {
    OccursHere(Unset, a);
    OccursHere(Quiet, a);
    if a.Single? {
      assert LeavesOf(a) == [a.leaf];
    }
  }

  /** A step's declaration is refused exactly if it is ill-formed. */
  lemma {:induction false} RefusedIffIllFormed(allows: seq<Allow>)
    ensures ValidAllows(allows) <==> !IllFormed(allows)
  {
    hide Occurs, LeavesOf, LeavesOfAll, ValidAllow, Unnamed;
    forall a | a in allows
      ensures ValidAllow(a, false) <==> !Occurs(Unset, a, 0) && !Occurs(Quiet, a, 1) && AllNamed(a)
    {
      ValidAllowIff(a, false);
    }
    forall leaf
      ensures leaf in LeavesOfAll(allows, |allows|) <==> exists k :: 0 <= k < |allows| && leaf in LeavesOf(allows[k])
    {
      LeafOfSome(allows, |allows|, leaf);
    }
    if a :| a in allows && !AllNamed(a) {
      var leaf :| leaf in LeavesOf(a) && Unnamed(leaf);
      var k :| 0 <= k < |allows| && allows[k] == a;
      assert leaf in LeavesOfAll(allows, |allows|);
    }
    if leaf :| leaf in LeavesOfAll(allows, |allows|) && Unnamed(leaf) {
      var k :| 0 <= k < |allows| && leaf in LeavesOf(allows[k]);
      assert !AllNamed(allows[k]);
    }
  }

  /** Built with Before alone, from changes that name what they permit. */
  ghost predicate Composed(a: Allow) {
    match a
    case Single(leaf) => leaf.kind != "" && leaf.name != ""
    case Group(parts) => |parts| == 2 && Composed(parts[0]) && Composed(parts[1])
    case _ => false
  }

  lemma {:induction false} ComposedSound(a: Allow)
    requires Composed(a)
    ensures Built(a) && !Occurs(Unset, a, 0) && !Occurs(Quiet, a, 0) && AllNamed(a)
    decreases a
  {
    hide Occurs, AllNamed;
    if a.Group? {
      ComposedSound(a.parts[0]);
      ComposedSound(a.parts[1]);
      OccursNotHere(Unset, a);
      OccursNotHere(Quiet, a);
      OccursBelow(Unset, a, 0);
      OccursBelow(Quiet, a, 0);
      AllNamedParts(a);
    } else {
      LoneAllow(a);
    }
  }

  /** Orderings of named changes are well-formed. */
  lemma {:induction false} ComposedIsWellFormed(allows: seq<Allow>)
    requires |allows| > 0 && forall a | a in allows :: Composed(a)
    ensures !IllFormed(allows) && forall a | a in allows :: Built(a)
  {
    hide Occurs, LeavesOf, LeavesOfAll, Unnamed;
    forall a | a in allows ensures Built(a) && !Occurs(Unset, a, 0) && !Occurs(Quiet, a, 1) && AllNamed(a) {
      ComposedSound(a);
      OccursNotHere(Quiet, a);
    }
    forall leaf | leaf in LeavesOfAll(allows, |allows|) ensures !Unnamed(leaf) {
      LeafOfSome(allows, |allows|, leaf);
      var k :| 0 <= k < |allows| && leaf in LeavesOf(allows[k]);
      assert AllNamed(allows[k]);
    }
  }

  // ----- What a declaration means -----

  /** The events a declaration means when nothing else happens: those of the first part, then those of the next. */
  ghost predicate Means(a: Allow, events: seq<Event>)
    decreases a, 0
  {
    match a
    case Single(leaf) => |events| == 1 && leaf.Matches(events[0])
    case Group(parts) => MeansParts(parts, |parts|, events)
    case _ => events == []
  }

  ghost predicate MeansParts(parts: seq<Allow>, n: nat, events: seq<Event>)
    requires n <= |parts|
    decreases parts, n
  {
    if n == 0 then events == []
    else exists k :: 0 <= k <= |events| && MeansParts(parts, n - 1, events[..k]) && Means(parts[n - 1], events[k..])
  }

  /** Each event is matched by the leaf at its place. */
  ghost predicate MatchedInTurn(leaves: seq<Leaf>, events: seq<Event>) {
    |events| == |leaves| && forall i | 0 <= i < |events| :: leaves[i].Matches(events[i])
  }

  lemma {:induction false} InTurnSplits(first: seq<Leaf>, second: seq<Leaf>, events: seq<Event>)
    ensures MatchedInTurn(first + second, events) <==>
            exists k :: 0 <= k <= |events| && MatchedInTurn(first, events[..k]) && MatchedInTurn(second, events[k..])
  {
    hide Leaf.Matches, MatchedInTurn;
    if MatchedInTurn(first + second, events) {
      InTurnCut(first, second, events);
    }
    if k :| 0 <= k <= |events| && MatchedInTurn(first, events[..k]) && MatchedInTurn(second, events[k..]) {
      InTurnJoined(first, second, events, k);
    }
  }

  lemma {:induction false} InTurnCut(first: seq<Leaf>, second: seq<Leaf>, events: seq<Event>)
    requires MatchedInTurn(first + second, events)
    ensures |first| <= |events| && MatchedInTurn(first, events[..|first|]) && MatchedInTurn(second, events[|first|..])
  {
    hide Leaf.Matches;
    var all, k := first + second, |first|;
    forall i | 0 <= i < |second| ensures second[i].Matches(events[k..][i]) {
      assert all[k + i].Matches(events[k + i]);
    }
    forall i | 0 <= i < k ensures first[i].Matches(events[..k][i]) {
      assert all[i].Matches(events[i]);
    }
  }

  lemma {:induction false} InTurnJoined(first: seq<Leaf>, second: seq<Leaf>, events: seq<Event>, k: nat)
    requires k <= |events| && MatchedInTurn(first, events[..k]) && MatchedInTurn(second, events[k..])
    ensures MatchedInTurn(first + second, events)
  {
    hide Leaf.Matches;
    forall i | 0 <= i < |events| ensures (first + second)[i].Matches(events[i]) {
      if i < k {
        assert first[i].Matches(events[..k][i]);
      } else {
        assert second[i - k].Matches(events[k..][i - k]);
      }
    }
  }

  /** The flattened leaves, taken in turn, are what the declaration means. */
  lemma {:induction false} MeansItsLeaves(a: Allow, events: seq<Event>)
    ensures Means(a, events) <==> MatchedInTurn(LeavesOf(a), events)
    decreases a, 0
  {
    hide Leaf.Matches;
    match a
    case Group(parts) => MeansItsParts(parts, |parts|, events);
    case _ =>
  }

  lemma {:induction false} MeansItsParts(parts: seq<Allow>, n: nat, events: seq<Event>)
    requires n <= |parts|
    ensures MeansParts(parts, n, events) <==> MatchedInTurn(LeavesOfParts(parts, n), events)
    decreases parts, n
  {
    hide Means, LeavesOf, MatchedInTurn;
    if n == 0 {
      NoEvents(events);
    } else {
      var before, last := LeavesOfParts(parts, n - 1), LeavesOf(parts[n - 1]);
      forall k | 0 <= k <= |events|
        ensures MeansParts(parts, n - 1, events[..k]) <==> MatchedInTurn(before, events[..k])
        ensures Means(parts[n - 1], events[k..]) <==> MatchedInTurn(last, events[k..])
      {
        MeansItsParts(parts, n - 1, events[..k]);
        MeansItsLeaves(parts[n - 1], events[k..]);
      }
      InTurnSplits(before, last, events);
    }
  }

  lemma {:induction false} NoEvents(events: seq<Event>)
    ensures MatchedInTurn([], events) <==> events == []
  {
  }

  // ----- What a declaration flattens to -----

  function LeavesOf(a: Allow): seq<Leaf>
    decreases a, 0
  {
    match a
    case Single(leaf) => [leaf]
    case Group(parts) => LeavesOfParts(parts, |parts|)
    case _ => []
  }

  function LeavesOfParts(parts: seq<Allow>, n: nat): seq<Leaf>
    requires n <= |parts|
    decreases parts, n
  {
    if n == 0 then [] else LeavesOfParts(parts, n - 1) + LeavesOf(parts[n - 1])
  }

  /** Every pair of an index in [lo, mid) with one in [from, end), row by row. */
  function Cross(lo: nat, mid: nat, from: nat, end: nat): Order
    requires lo <= mid
  {
    if lo == mid then [] else Cross(lo, mid - 1, from, end) + Row(mid - 1, from, end)
  }

  function Row(i: nat, from: nat, end: nat): Order {
    if end <= from then [] else Row(i, from, end - 1) + [(i, end - 1)]
  }

  lemma {:induction false} RowHas(k: nat, from: nat, end: nat, i: nat, j: nat)
    ensures (i, j) in Row(k, from, end) <==> i == k && from <= j < end
    decreases end
  {
    if from < end {
      RowHas(k, from, end - 1, i, j);
    }
  }

  lemma {:induction false} CrossHas(lo: nat, mid: nat, from: nat, end: nat, i: nat, j: nat)
    requires lo <= mid
    ensures (i, j) in Cross(lo, mid, from, end) <==> lo <= i < mid && from <= j < end
    decreases mid
  {
    hide Row;
    if lo < mid {
      assert Cross(lo, mid, from, end) == Cross(lo, mid - 1, from, end) + Row(mid - 1, from, end);
      CrossHas(lo, mid - 1, from, end, i, j);
      RowHas(mid - 1, from, end, i, j);
    }
  }

  /** The pairs declared by `a` when its leaves are numbered from `base`. */
  function OrderOf(a: Allow, base: nat): Order
    decreases a, 0
  {
    match a
    case Group(parts) => OrderOfParts(parts, |parts|, base)
    case _ => []
  }

  /** Each part's own pairs, then each pair of a leaf of the part before with one of this part. */
  function OrderOfParts(parts: seq<Allow>, n: nat, base: nat): Order
    requires n <= |parts|
    decreases parts, n
  {
    if n == 0 then []
    else
      var start := base + |LeavesOfParts(parts, n - 1)|;
      var prev := if n == 1 then start else base + |LeavesOfParts(parts, n - 2)|;
      OrderOfParts(parts, n - 1, base) + OrderOf(parts[n - 1], start)
      + Cross(prev, start, start, start + |LeavesOf(parts[n - 1])|)
  }

  function LeavesOfAll(allows: seq<Allow>, n: nat): seq<Leaf>
    requires n <= |allows|
  {
    if n == 0 then [] else LeavesOfAll(allows, n - 1) + LeavesOf(allows[n - 1])
  }

  function OrderOfAll(allows: seq<Allow>, n: nat): Order
    requires n <= |allows|
  {
    if n == 0 then [] else OrderOfAll(allows, n - 1) + OrderOf(allows[n - 1], |LeavesOfAll(allows, n - 1)|)
  }

  /** A declaration built by the constructors orders every two of its leaves as written, and no others. */
  lemma {:induction false} OrderIsWrittenOrder(a: Allow, base: nat, i: nat, j: nat)
    requires Built(a)
    ensures (i, j) in OrderOf(a, base) <==> base <= i < j < base + |LeavesOf(a)|
    decreases a
  {
    if a.Group? {
      var parts := a.parts;
      var first, second := parts[0], parts[1];
      var mid := base + |LeavesOf(first)|;
      assert LeavesOfParts(parts, 1) == LeavesOf(first);
      assert LeavesOfParts(parts, 2) == LeavesOf(first) + LeavesOf(second);
      assert OrderOfParts(parts, 1, base) == OrderOf(first, base) + Cross(base, base, base, mid);
      assert OrderOfParts(parts, 2, base)
          == OrderOfParts(parts, 1, base) + OrderOf(second, mid) + Cross(base, mid, mid, mid + |LeavesOf(second)|);
      CrossHas(base, base, base, mid, i, j);
      CrossHas(base, mid, mid, mid + |LeavesOf(second)|, i, j);
      OrderIsWrittenOrder(first, base, i, j);
      OrderIsWrittenOrder(second, mid, i, j);
    }
  }

  // ----- Flattening -----

  function Range(lo: nat, hi: nat): (r: seq<nat>)
    requires lo <= hi
    ensures |r| == hi - lo && forall k | 0 <= k < |r| :: r[k] == lo + k
  {
    seq(hi - lo, k requires 0 <= k => lo + k)
  }

  lemma {:induction false} RangeJoin(lo: nat, mid: nat, hi: nat)
    requires lo <= mid <= hi
    ensures Range(lo, mid) + Range(mid, hi) == Range(lo, hi)
  {
  }

  method AppendRow(order0: Order, ghost mid: nat, ghost to: nat, earlier: nat, cur: seq<nat>) returns (order: Order)
    requires mid <= to && cur == Range(mid, to)
    ensures order == order0 + Row(earlier, mid, to)
  {
    order := order0;
    for l := 0 to |cur|
      invariant order == order0 + Row(earlier, mid, mid + l)
    {
      order := order + [(earlier, cur[l])];
    }
  }

  /** Appends one pair for each earlier and each later leaf. */
  method AppendCross(order0: Order, ghost lo: nat, ghost mid: nat, ghost to: nat, prev: seq<nat>, cur: seq<nat>)
      returns (order: Order)
    requires lo <= mid <= to && prev == Range(lo, mid) && cur == Range(mid, to)
    ensures order == order0 + Cross(lo, mid, mid, to)
  {
    hide Row, Range;
    order := order0;
    for e := 0 to |prev|
      invariant order == order0 + Cross(lo, lo + e, mid, to)
    {
      Regroup(order0, Cross(lo, lo + e, mid, to), Row(lo + e, mid, to));
      order := AppendRow(order, mid, to, prev[e], cur);
    }
  }

  /** Appends the leaves and pairs of one declaration, returning the numbers its leaves were given. */
  method Walk(a: Allow, leaves0: seq<Leaf>, order0: Order) returns (leaves: seq<Leaf>, order: Order, ids: seq<nat>)
    ensures leaves == leaves0 + LeavesOf(a)
    ensures order == order0 + OrderOf(a, |leaves0|)
    ensures ids == Range(|leaves0|, |leaves|)
    decreases a
  {
    leaves, order, ids := leaves0, order0, [];
    match a
    case Single(leaf) =>
      leaves := leaves + [leaf];
      ids := [|leaves| - 1];
    case Group(parts) =>
      leaves, order, ids := WalkParts(parts, leaves0, order0);
    case _ =>
  }

  method WalkParts(parts: seq<Allow>, leaves0: seq<Leaf>, order0: Order)
      returns (leaves: seq<Leaf>, order: Order, all: seq<nat>)
    ensures leaves == leaves0 + LeavesOfParts(parts, |parts|)
    ensures order == order0 + OrderOfParts(parts, |parts|, |leaves0|)
    ensures all == Range(|leaves0|, |leaves|)
    decreases parts
  {
    hide Cross, Range, LeavesOfParts, OrderOfParts, LeavesOf, OrderOf;
    leaves, order, all := leaves0, order0, [];
    var prev: seq<nat> := [];
    ghost var lo := |leaves0|;
    NoParts(parts, |leaves0|);
    for p := 0 to |parts|
      invariant leaves == leaves0 + LeavesOfParts(parts, p)
      invariant order == order0 + OrderOfParts(parts, p, |leaves0|)
      invariant all == Range(|leaves0|, |leaves|)
      invariant lo == (if p == 0 then |leaves| else |leaves0| + |LeavesOfParts(parts, p - 1)|) <= |leaves|
      invariant prev == Range(lo, |leaves|)
    {
      ghost var mid := |leaves|;
      PartsNext(parts, p, leaves0, order0);
      var cur: seq<nat>;
      leaves, order, cur := Walk(parts[p], leaves, order);
      order := AppendCross(order, lo, mid, |leaves|, prev, cur);
      RangeJoin(|leaves0|, mid, |leaves|);
      prev := cur;
      all := all + cur;
      lo := mid;
    }
  }

  lemma {:induction false} NoParts(parts: seq<Allow>, base: nat)
    ensures LeavesOfParts(parts, 0) == [] && OrderOfParts(parts, 0, base) == [] && Range(base, base) == []
  {
  }

  lemma {:induction false} PartsNext(parts: seq<Allow>, p: nat, leaves0: seq<Leaf>, order0: Order)
    requires p < |parts|
    ensures leaves0 + LeavesOfParts(parts, p) + LeavesOf(parts[p]) == leaves0 + LeavesOfParts(parts, p + 1)
    ensures var start := |leaves0| + |LeavesOfParts(parts, p)|;
            var prev := if p == 0 then start else |leaves0| + |LeavesOfParts(parts, p - 1)|;
            && prev <= start
            && order0 + OrderOfParts(parts, p, |leaves0|) + OrderOf(parts[p], start)
               + Cross(prev, start, start, start + |LeavesOf(parts[p])|)
               == order0 + OrderOfParts(parts, p + 1, |leaves0|)
  {
    hide Cross, LeavesOf, OrderOf;
    PartsGrow(parts, p);
    Regroup(leaves0, LeavesOfParts(parts, p), LeavesOf(parts[p]));
    var start := |leaves0| + |LeavesOfParts(parts, p)|;
    var prev := if p == 0 then start else |leaves0| + |LeavesOfParts(parts, p - 1)|;
    var cross := Cross(prev, start, start, start + |LeavesOf(parts[p])|);
    Regroup(order0 + OrderOfParts(parts, p, |leaves0|), OrderOf(parts[p], start), cross);
    Regroup(order0, OrderOfParts(parts, p, |leaves0|), OrderOf(parts[p], start) + cross);
    Regroup(OrderOfParts(parts, p, |leaves0|), OrderOf(parts[p], start), cross);
  }

  lemma {:induction false} PartsGrow(parts: seq<Allow>, p: nat)
    requires p < |parts|
    ensures LeavesOfParts(parts, p + 1) == LeavesOfParts(parts, p) + LeavesOf(parts[p])
    ensures p > 0 ==> |LeavesOfParts(parts, p - 1)| <= |LeavesOfParts(parts, p)|
  {
  }

  lemma {:induction false} Regroup<T>(a: seq<T>, b: seq<T>, c: seq<T>)
    ensures (a + b) + c == a + (b + c)
  {
  }

  /** Flattens the declaration of a step. */
  method FlattenAllows(allows: seq<Allow>) returns (leaves: seq<Leaf>, order: Order)
    ensures leaves == LeavesOfAll(allows, |allows|) && order == OrderOfAll(allows, |allows|)
  {
    leaves, order := [], [];
    for t := 0 to |allows|
      invariant leaves == LeavesOfAll(allows, t) && order == OrderOfAll(allows, t)
    {
      var ids;
      leaves, order, ids := Walk(allows[t], leaves, order);
    }
  }
}
