/**
 Assigning observed events to distinct permitted changes (ctrltest/script.go:664-712). The
 program runs Kuhn's augmenting-path algorithm; it is proved to find an assignment exactly
 when there is one, a failed search leaving behind a set of changes too few for the events
 that need them.
 */
module Matching {
  import opened Wrappers

  /** One observed change: what happened, to which object, and the projected paths it touched. */
  datatype Event = Event(typ: string, kind: string, name: string, changed: seq<string>)

  /** One permitted change; every path it names must be among those an event touched. */
  datatype Leaf = Leaf(typ: string, kind: string, name: string, changed: seq<string>) {
    predicate Matches(ev: Event) {
      && kind == ev.kind && name == ev.name
      && (typ != "" ==> typ == ev.typ)
      && forall p | 0 <= p < |changed| :: changed[p] in ev.changed
    }
  }

  /** An event the leaf permits. */
  function Witness(leaf: Leaf): (ev: Event)
    ensures leaf.Matches(ev)
  {
    Event(leaf.typ, leaf.kind, leaf.name, leaf.changed)
  }

  /**
   One permission covers another exactly when both name the same object, the first asks for no other
   type of change, and the second names every path the first does.
   */
  lemma {:induction false} NamingPathsNarrows(wide: Leaf, narrow: Leaf)
    ensures (forall ev :: narrow.Matches(ev) ==> wide.Matches(ev)) <==>
            && wide.kind == narrow.kind && wide.name == narrow.name
            && (wide.typ == "" || wide.typ == narrow.typ)
            && forall p :: p in wide.changed ==> p in narrow.changed
  {
    assert narrow.Matches(Witness(narrow));
    if wide.Matches(Witness(narrow)) {
      forall p | p in wide.changed ensures p in narrow.changed {
        var k :| 0 <= k < |wide.changed| && wide.changed[k] == p;
      }
    }
  }

  /** `at[l]` is the event leaf `l` permits, or negative for none. */
  ghost predicate IsPartialFit(seen: seq<Event>, leaves: seq<Leaf>, at: seq<int>) {
    && |at| == |leaves|
    && (forall l | 0 <= l < |at| && at[l] >= 0 :: at[l] < |seen| && leaves[l].Matches(seen[at[l]]))
    && forall l, m | 0 <= l < m < |at| && at[l] >= 0 :: at[l] != at[m]
  }

  ghost predicate Assigned(at: seq<int>, e: int) {
    exists l :: 0 <= l < |at| && at[l] == e
  }

  /** Every event has a leaf of its own that permits it. */
  ghost predicate IsFit(seen: seq<Event>, leaves: seq<Leaf>, at: seq<int>) {
    IsPartialFit(seen, leaves, at) && forall e | 0 <= e < |seen| :: Assigned(at, e)
  }

  ghost predicate Fits(seen: seq<Event>, leaves: seq<Leaf>) {
    exists at :: IsFit(seen, leaves, at)
  }

  // ----- Searching for an augmenting path -----

  /** The leaves not yet visited. */
  ghost function Open(visited: seq<bool>): set<int> {
    set l | 0 <= l < |visited| && !visited[l]
  }

  /** The events assigned to the open leaves. */
  ghost function OpenEvents(at: seq<int>, visited: seq<bool>): set<int>
    requires |at| == |visited|
  {
    set l | 0 <= l < |visited| && !visited[l] && at[l] >= 0 :: at[l]
  }

  /** Among the open leaves no event is assigned twice, and each is one its leaf permits. */
  ghost predicate OpenOk(seen: seq<Event>, leaves: seq<Leaf>, at: seq<int>, visited: seq<bool>) {
    && |at| == |leaves| == |visited|
    && (forall l | 0 <= l < |at| && !visited[l] && at[l] >= 0 :: at[l] < |seen| && leaves[l].Matches(seen[at[l]]))
    && forall l, m | 0 <= l < m < |at| && !visited[l] && !visited[m] && at[l] >= 0 :: at[l] != at[m]
  }

  /** Every leaf that permits event `e` has been visited. */
  ghost predicate Exhausted(seen: seq<Event>, leaves: seq<Leaf>, visited: seq<bool>, e: int) {
    |visited| == |leaves| && 0 <= e < |seen| && forall l | 0 <= l < |leaves| && leaves[l].Matches(seen[e]) :: visited[l]
  }

  /** Visited since `before`: a leaf holding an event none of whose leaves is still open. */
  ghost predicate DeadEnds(seen: seq<Event>, leaves: seq<Leaf>, at: seq<int>, before: seq<bool>, visited: seq<bool>) {
    && |at| == |before| == |visited| == |leaves|
    && (forall l | 0 <= l < |visited| && before[l] :: visited[l])
    && forall l | 0 <= l < |visited| && visited[l] && !before[l] :: at[l] >= 0 && Exhausted(seen, leaves, visited, at[l])
  }

  /** Whether `at'` gives the open leaves the events of `at` and `e` besides, and changes nothing else. */
  ghost predicate Augmented(seen: seq<Event>, leaves: seq<Leaf>, at: seq<int>, at': seq<int>, visited: seq<bool>, e: int) {
    && |at| == |at'| == |visited|
    && OpenOk(seen, leaves, at', visited)
    && OpenEvents(at', visited) == OpenEvents(at, visited) + {e}
    && forall l | 0 <= l < |at| && visited[l] :: at'[l] == at[l]
  }

  /** Taking a free open leaf augments. */
  lemma {:induction false} TakeFreeLeaf(seen: seq<Event>, leaves: seq<Leaf>, at: seq<int>, visited: seq<bool>, e: int, l: nat)
    requires OpenOk(seen, leaves, at, visited) && 0 <= e < |seen| && e !in OpenEvents(at, visited)
    requires l < |leaves| && !visited[l] && at[l] < 0 && leaves[l].Matches(seen[e])
    ensures Augmented(seen, leaves, at, at[l := e], visited, e)
  {
    var at' := at[l := e];
    assert at'[l] == e;
    forall m | 0 <= m < |at| && !visited[m] && at[m] >= 0 ensures at[m] in OpenEvents(at', visited) {
      assert at'[m] == at[m];
    }
  }

  /** Re-homing the event of an open leaf elsewhere frees the leaf. */
  lemma {:induction false} TakeRehomedLeaf(seen: seq<Event>, leaves: seq<Leaf>, at: seq<int>, visited: seq<bool>,
                                           e: int, l: nat, at1: seq<int>)
    requires OpenOk(seen, leaves, at, visited) && 0 <= e < |seen| && e !in OpenEvents(at, visited)
    requires l < |leaves| && !visited[l] && at[l] >= 0 && leaves[l].Matches(seen[e])
    requires Augmented(seen, leaves, at, at1, visited[l := true], at[l])
    ensures Augmented(seen, leaves, at, at1[l := e], visited, e)
  {
    hide OpenEvents;
    RehomedEvents(at, at1, visited, e, l);
    RehomedOk(seen, leaves, at, at1, visited, e, l);
  }

  lemma {:induction false} RehomedEvents(at: seq<int>, at1: seq<int>, visited: seq<bool>, e: int, l: nat)
    requires |at| == |at1| == |visited| && l < |at| && !visited[l] && at[l] >= 0 && e >= 0 && at1[l] == at[l]
    requires OpenEvents(at1, visited[l := true]) == OpenEvents(at, visited[l := true]) + {at[l]}
    ensures OpenEvents(at1[l := e], visited) == OpenEvents(at, visited) + {e}
  {
    var v1, at' := visited[l := true], at1[l := e];
    forall m | 0 <= m < |at| && !v1[m] && at1[m] >= 0 ensures at1[m] in OpenEvents(at, visited) {
      assert at1[m] in OpenEvents(at1, v1);
    }
    assert at'[l] == e;
    forall m | 0 <= m < |at| && !visited[m] && at[m] >= 0 ensures at[m] in OpenEvents(at', visited) {
      assert at[m] in OpenEvents(at, v1) + {at[l]};
      var k :| 0 <= k < |at| && !v1[k] && at1[k] == at[m];
      assert at'[k] == at[m];
    }
  }

  lemma {:induction false} RehomedOk(seen: seq<Event>, leaves: seq<Leaf>, at: seq<int>, at1: seq<int>, visited: seq<bool>, e: int, l: nat)
    requires OpenOk(seen, leaves, at, visited) && 0 <= e < |seen| && e !in OpenEvents(at, visited)
    requires l < |leaves| && !visited[l] && at[l] >= 0 && leaves[l].Matches(seen[e])
    requires OpenOk(seen, leaves, at1, visited[l := true])
    requires OpenEvents(at1, visited[l := true]) == OpenEvents(at, visited[l := true]) + {at[l]}
    ensures OpenOk(seen, leaves, at1[l := e], visited)
  {
    var v1 := visited[l := true];
    forall m | 0 <= m < |at| && !v1[m] && at1[m] >= 0 ensures at1[m] != e {
      assert at1[m] in OpenEvents(at1, v1);
    }
  }

  /** A leaf closed since `before` keeps its event, which no open leaf gets. */
  lemma {:induction false} NoClash(seen: seq<Event>, leaves: seq<Leaf>, at: seq<int>, at': seq<int>,
                                   before: seq<bool>, visited: seq<bool>, e: int, l: nat, m: nat)
    requires OpenOk(seen, leaves, at, before) && e !in OpenEvents(at, before) && e >= 0
    requires |visited| == |before| && forall l | 0 <= l < |visited| && before[l] :: visited[l]
    requires Augmented(seen, leaves, at, at', visited, e)
    requires l < |at| && m < |at| && !before[l] && visited[l] && !visited[m]
    ensures at'[l] >= 0 ==> at'[l] != at'[m]
  {
    if at'[l] >= 0 {
      assert at[l] in OpenEvents(at, before);
      if at'[m] >= 0 && at'[m] != e {
        assert at'[m] in OpenEvents(at', visited);
        var k :| 0 <= k < |at| && !visited[k] && at[k] >= 0 && at[k] == at'[m];
        assert k != l && !before[k];
      }
    }
  }

  /** Augmenting with fewer open leaves augments with more. */
  lemma {:induction false} AugmentedMoreOpen(seen: seq<Event>, leaves: seq<Leaf>, at: seq<int>, at': seq<int>,
                                             before: seq<bool>, visited: seq<bool>, e: int)
    requires OpenOk(seen, leaves, at, before) && e !in OpenEvents(at, before)
    requires |visited| == |before| && forall l | 0 <= l < |visited| && before[l] :: visited[l]
    requires Augmented(seen, leaves, at, at', visited, e) && e >= 0
    ensures Augmented(seen, leaves, at, at', before, e)
  {
    forall m | 0 <= m < |at| && !visited[m] && at'[m] >= 0 ensures at'[m] == e || at'[m] in OpenEvents(at, visited) {
      assert at'[m] in OpenEvents(at', visited);
    }
    forall l, m | 0 <= l < m < |at| && !before[l] && !before[m] && at'[l] >= 0 ensures at'[l] != at'[m] {
      if visited[l] && !visited[m] {
        NoClash(seen, leaves, at, at', before, visited, e, l, m);
      } else if !visited[l] && visited[m] {
        NoClash(seen, leaves, at, at', before, visited, e, m, l);
      }
    }
    assert OpenEvents(at', before) == OpenEvents(at, before) + {e} by {
      forall x | x in OpenEvents(at', before) ensures x in OpenEvents(at, before) + {e} {
        var m :| 0 <= m < |at| && !before[m] && at'[m] >= 0 && at'[m] == x;
        if !visited[m] {
          assert x in OpenEvents(at', visited);
        } else {
          assert at[m] == x;
        }
      }
      forall x | x in OpenEvents(at, before) + {e} ensures x in OpenEvents(at', before) {
        if x in OpenEvents(at, visited) + {e} {
          assert x in OpenEvents(at', visited);
        } else {
          var m :| 0 <= m < |at| && !before[m] && at[m] >= 0 && at[m] == x;
          assert visited[m] && at'[m] == x;
        }
      }
    }
  }

  lemma {:induction false} VisitShrinks(visited: seq<bool>, l: nat)
    requires l < |visited| && !visited[l]
    ensures |Open(visited[l := true])| < |Open(visited)|
  {
    assert Open(visited[l := true]) == Open(visited) - {l};
    assert l in Open(visited);
  }

  lemma {:induction false} OpenShrinks(before: seq<bool>, visited: seq<bool>)
    requires |before| == |visited| && forall l | 0 <= l < |before| && before[l] :: visited[l]
    ensures |Open(visited)| <= |Open(before)|
  {
    SubsetSize(Open(visited), Open(before));
  }

  /**
   Looks for an augmenting path for event `e`. On success the open leaves hold one event more,
   `e`. On failure nothing is reassigned, and the leaves visited form a dead end: each holds
   an event all of whose leaves have been visited too.
   */
  method Augment(e: int, seen: seq<Event>, leaves: seq<Leaf>, at: array<int>, visited: array<bool>) returns (ok: bool)
    requires at.Length == visited.Length == |leaves| && 0 <= e < |seen|
    requires OpenOk(seen, leaves, at[..], visited[..]) && e !in OpenEvents(at[..], visited[..])
    modifies at, visited
    ensures ok ==> Augmented(seen, leaves, old(at[..]), at[..], old(visited[..]), e)
    ensures !ok ==> at[..] == old(at[..])
    ensures !ok ==> DeadEnds(seen, leaves, at[..], old(visited[..]), visited[..])
    ensures !ok ==> Exhausted(seen, leaves, visited[..], e)
    ensures forall l | 0 <= l < |leaves| && old(visited[..])[l] :: visited[l]
    decreases |Open(visited[..])|
  {
    ghost var at0, visited0 := at[..], visited[..];
    for l := 0 to |leaves|
      invariant at[..] == at0 && DeadEnds(seen, leaves, at0, visited0, visited[..])
      invariant forall m | 0 <= m < l && leaves[m].Matches(seen[e]) :: visited[m]
    {
      if visited[l] || !leaves[l].Matches(seen[e]) {
        continue;
      }
      ghost var v1 := visited[..];
      OpenStillOk(seen, leaves, at0, visited0, v1, e);
      VisitShrinks(v1, l);
      OpenShrinks(visited0, v1);
      visited[l] := true;
      assert visited[..] == v1[l := true];
      if at[l] < 0 {
        TakeFreeLeaf(seen, leaves, at0, v1, e, l);
        AugmentedMoreOpen(seen, leaves, at0, at0[l := e], visited0, v1, e);
        at[l] := e;
        assert at[..] == at0[l := e];
        return true;
      }
      OpenWithoutLeaf(seen, leaves, at0, v1, l);
      var found := Augment(at[l], seen, leaves, at, visited);
      if found {
        ghost var at1 := at[..];
        TakeRehomedLeaf(seen, leaves, at0, v1, e, l, at1);
        AugmentedMoreOpen(seen, leaves, at0, at1[l := e], visited0, v1, e);
        at[l] := e;
        assert at[..] == at1[l := e];
        return true;
      }
      DeadEndsVisit(seen, leaves, at0, visited0, v1, visited[..], l);
    }
    ok := false;
  }

  /** With more leaves visited the open ones are still fit to augment. */
  lemma {:induction false} OpenStillOk(seen: seq<Event>, leaves: seq<Leaf>, at: seq<int>, before: seq<bool>, visited: seq<bool>, e: int)
    requires OpenOk(seen, leaves, at, before) && e !in OpenEvents(at, before)
    requires |visited| == |before| && forall l | 0 <= l < |visited| && before[l] :: visited[l]
    ensures OpenOk(seen, leaves, at, visited) && e !in OpenEvents(at, visited)
  {
    assert OpenEvents(at, visited) <= OpenEvents(at, before);
  }

  lemma {:induction false} OpenWithoutLeaf(seen: seq<Event>, leaves: seq<Leaf>, at: seq<int>, visited: seq<bool>, l: nat)
    requires OpenOk(seen, leaves, at, visited) && l < |at| && !visited[l] && at[l] >= 0
    ensures OpenOk(seen, leaves, at, visited[l := true]) && at[l] !in OpenEvents(at, visited[l := true])
  {
  }

  /** A leaf whose event could not be re-homed joins the dead ends. */
  lemma {:induction false} DeadEndsVisit(seen: seq<Event>, leaves: seq<Leaf>, at: seq<int>, v0: seq<bool>, v1: seq<bool>, v2: seq<bool>, l: nat)
    requires DeadEnds(seen, leaves, at, v0, v1) && l < |leaves| && at[l] >= 0
    requires DeadEnds(seen, leaves, at, v1[l := true], v2) && Exhausted(seen, leaves, v2, at[l])
    ensures DeadEnds(seen, leaves, at, v0, v2)
  {
    assert v2[l] by { assert v1[l := true][l]; }
    forall m | 0 <= m < |v2| && v2[m] && !v0[m] ensures at[m] >= 0 && Exhausted(seen, leaves, v2, at[m]) {
      if m != l && v1[m] {
        assert Exhausted(seen, leaves, v1, at[m]);
        assert forall k | 0 <= k < |v1| && v1[k] :: v1[l := true][k];
      }
    }
    assert forall k | 0 <= k < |v1| && v1[k] :: v1[l := true][k];
  }

  // ----- A dead end leaves too few changes -----

  lemma {:induction false} ImageSize(leaves: set<int>, at: seq<int>)
    requires forall l | l in leaves :: 0 <= l < |at|
    requires forall l, m | l in leaves && m in leaves && l != m :: at[l] != at[m]
    ensures |set l | l in leaves :: at[l]| == |leaves|
    decreases |leaves|
  {
    if leaves != {} {
      var l := AnyOf(leaves);
      ImageSize(leaves - {l}, at);
      assert (set k | k in leaves :: at[k]) == (set k | k in leaves - {l} :: at[k]) + {at[l]};
    }
  }

  /** The leaves a fit gives to the events in `events`: as many as there are events. */
  lemma {:induction false} LeavesOfEvents(seen: seq<Event>, leaves: seq<Leaf>, fit: seq<int>, events: set<int>) returns (used: set<int>)
    requires IsFit(seen, leaves, fit) && forall e | e in events :: 0 <= e < |seen|
    ensures |used| == |events|
    ensures forall l | l in used :: 0 <= l < |leaves| && fit[l] in events && leaves[l].Matches(seen[fit[l]])
  {
    used := set l | 0 <= l < |fit| && fit[l] in events;
    ImageSize(used, fit);
    var image := set l | l in used :: fit[l];
    forall e | e in events ensures e in image {
      assert Assigned(fit, e);
      var l :| 0 <= l < |fit| && fit[l] == e;
      assert l in used;
    }
    assert image == events;
  }

  ghost function Below(n: nat): (s: set<int>)
    ensures forall i :: i in s <==> 0 <= i < n
    ensures |s| == n
  {
    if n == 0 then {} else Below(n - 1) + {n - 1}
  }

  /** More events than leaves never fit. */
  lemma {:induction false} TooManyEvents(seen: seq<Event>, leaves: seq<Leaf>)
    requires |seen| > |leaves|
    ensures !Fits(seen, leaves)
  {
    if Fits(seen, leaves) {
      var fit :| IsFit(seen, leaves, fit);
      var used := LeavesOfEvents(seen, leaves, fit, Below(|seen|));
      SubsetSize(used, Below(|leaves|));
    }
  }

  /**
   The converse half of Hall's theorem: when the search for an event ends in a dead end, the
   visited leaves are one fewer than the events that only they permit, so nothing fits.
   */
  lemma {:induction false} DeadEndMeansNoFit(seen: seq<Event>, leaves: seq<Leaf>, at: seq<int>, visited: seq<bool>, e: int)
    requires IsPartialFit(seen, leaves, at) && !Assigned(at, e)
    requires DeadEnds(seen, leaves, at, seq(|leaves|, _ => false), visited)
    requires Exhausted(seen, leaves, visited, e)
    ensures !Fits(seen, leaves)
  {
    if Fits(seen, leaves) {
      var fit :| IsFit(seen, leaves, fit);
      var dead := set l | 0 <= l < |leaves| && visited[l];
      var held := set l | l in dead :: at[l];
      ImageSize(dead, at);
      assert e !in held;
      var events := held + {e};
      forall x | x in events ensures Exhausted(seen, leaves, visited, x) {}
      var used := LeavesOfEvents(seen, leaves, fit, events);
      forall l | l in used ensures l in dead {
        assert Exhausted(seen, leaves, visited, fit[l]);
      }
      SubsetSize(used, dead);
    }
  }

  lemma {:induction false} NothingVisited(seen: seq<Event>, leaves: seq<Leaf>, at: seq<int>)
    requires |at| == |leaves|
    ensures var none := seq(|leaves|, _ => false);
            && (IsPartialFit(seen, leaves, at) <==> OpenOk(seen, leaves, at, none))
            && forall x | x >= 0 :: x in OpenEvents(at, none) <==> Assigned(at, x)
  {
    var none := seq(|leaves|, _ => false);
    forall x | x >= 0 && Assigned(at, x) ensures x in OpenEvents(at, none) {
      var l :| 0 <= l < |at| && at[l] == x;
      assert !none[l];
    }
    if OpenOk(seen, leaves, at, none) {
      forall l | 0 <= l < |at| && at[l] >= 0 ensures at[l] < |seen| && leaves[l].Matches(seen[at[l]]) {
        assert !none[l];
      }
      forall l, m | 0 <= l < m < |at| && at[l] >= 0 ensures at[l] != at[m] {
        assert !none[l] && !none[m];
      }
    }
  }

  lemma {:induction false} EmptyIsPartialFit(seen: seq<Event>, leaves: seq<Leaf>, at: seq<int>)
    requires |at| == |leaves| && forall l | 0 <= l < |at| :: at[l] == -1
    ensures IsPartialFit(seen, leaves, at) && forall x | x >= 0 :: !Assigned(at, x)
  {
  }

  /** Finds a leaf for one more event, moving others if it must; failing proves that no assignment of all exists. */
  method AssignEvent(e: int, seen: seq<Event>, leaves: seq<Leaf>, at: array<int>) returns (ok: bool)
    requires at.Length == |leaves| && 0 <= e < |seen|
    requires IsPartialFit(seen, leaves, at[..]) && !Assigned(at[..], e)
    modifies at
    ensures ok ==> IsPartialFit(seen, leaves, at[..])
    ensures ok ==> forall x | x >= 0 :: Assigned(at[..], x) <==> Assigned(old(at[..]), x) || x == e
    ensures !ok ==> !Fits(seen, leaves)
  {
    hide IsPartialFit, Assigned, Fits, OpenOk, OpenEvents, DeadEnds, Exhausted;
    ghost var at0, none := at[..], seq(|leaves|, _ => false);
    var visited := new bool[|leaves|](_ => false);
    assert visited[..] == none;
    NothingVisited(seen, leaves, at0);
    ok := Augment(e, seen, leaves, at, visited);
    if ok {
      NothingVisited(seen, leaves, at[..]);
    } else {
      DeadEndMeansNoFit(seen, leaves, at0, visited[..], e);
    }
  }

  /** Finds an assignment of all events to distinct leaves exactly when there is one. */
  method MatchAll(seen: seq<Event>, leaves: seq<Leaf>) returns (fit: Option<seq<int>>)
    ensures fit.Some? ==> IsFit(seen, leaves, fit.value)
    ensures fit.None? ==> !Fits(seen, leaves)
  {
    if |seen| > |leaves| {
      TooManyEvents(seen, leaves);
      return None;
    }
    hide IsPartialFit, Assigned, Fits;
    var at := new int[|leaves|](_ => -1);
    EmptyIsPartialFit(seen, leaves, at[..]);
    for e := 0 to |seen|
      invariant IsPartialFit(seen, leaves, at[..])
      invariant forall x | x >= 0 :: Assigned(at[..], x) <==> x < e
    {
      var ok := AssignEvent(e, seen, leaves, at);
      if !ok {
        return None;
      }
    }
    fit := Some(at[..]);
  }
}
