/**
 Finding a trap: a state from which a goal can no longer be reached by the allowed actors
 (modelcheck/explore.go:382-457). The explored edges are reversed by a counting sort and
 searched backwards from the goals; states whose futures a bound cut off count as goals.
 */
module Traps {
  import opened Wrappers
  import opened Index
  import opened Systems
  import opened Search
  import opened Expansion
  import opened GraphInvariant
  import opened BreadthFirst

  // ----- What is searched for -----

  /** The names a recoverable property allows; naming none allows all. */
  function AllowedNames<S>(sys: System<S>, r: Recoverable<S>): set<string> {
    if |r.actors| == 0 then set a | 0 <= a < |sys.actors| :: sys.actors[a].name
    else set n | n in r.actors
  }

  function AllowedActors<S>(sys: System<S>, r: Recoverable<S>): set<nat> {
    set a: nat | a < |sys.actors| && sys.actors[a].name in AllowedNames(sys, r)
  }

  /** The edge columns of a graph of `n` nodes. */
  datatype Edges = Edges(n: nat, start: seq<nat>, via: seq<nat>, to: seq<nat>) {
    ghost predicate Valid(labels: nat) {
      && |start| == n + 1 && start[0] == 0 && start[n] == |to| == |via|
      && (forall i | 0 <= i <= n :: start[i] <= |to|)
      && (forall i | 0 <= i < n :: start[i] <= start[i + 1])
      && (forall k | 0 <= k < |to| :: to[k] < n && via[k] < labels)
    }
  }

  /** A walk of at most `steps` allowed edges leads from node `i` to a target. */
  ghost predicate Escapes(e: Edges, ok: seq<bool>, target: seq<bool>, i: nat, steps: nat)
    requires e.Valid(|ok|) && |target| == e.n && i < e.n
    decreases steps
  {
    target[i] || (steps > 0 && exists k ::
      e.start[i] <= k < e.start[i + 1] && ok[e.via[k]] && Escapes(e, ok, target, e.to[k], steps - 1))
  }

  // ----- Reversing the edges -----

  /** The node whose row holds edge `k`, looking at rows below `m`. */
  ghost function Owner(e: Edges, m: nat, k: nat): nat
    requires m < |e.start|
  {
    if m == 0 || e.start[m] <= k then m else Owner(e, m - 1, k)
  }

  lemma {:induction false} OwnerOfRow(e: Edges, labels: nat, m: nat, i: nat, k: nat)
    requires e.Valid(labels) && i <= m < e.n && e.start[i] <= k < e.start[i + 1]
    ensures Owner(e, m, k) == i
    decreases m
  {
    if i < m {
      MonotoneStarts(e, labels, i + 1, m);
      OwnerOfRow(e, labels, m - 1, i, k);
    }
  }

  lemma {:induction false} MonotoneStarts(e: Edges, labels: nat, i: nat, j: nat)
    requires e.Valid(labels) && i <= j <= e.n
    ensures e.start[i] <= e.start[j]
    decreases j
  {
    if i < j {
      MonotoneStarts(e, labels, i, j - 1);
    }
  }

  /** The sources of the allowed edges into `v` among the first `m` edges, in edge order. */
  ghost function Sources(e: Edges, ok: seq<bool>, v: nat, m: nat): seq<nat>
    requires e.Valid(|ok|) && 0 < e.n && m <= |e.to|
  {
    if m == 0 then []
    else Sources(e, ok, v, m - 1)
         + if ok[e.via[m - 1]] && e.to[m - 1] == v then [Owner(e, e.n - 1, m - 1)] else []
  }

  lemma {:induction false} SourcesGrow(e: Edges, ok: seq<bool>, v: nat, m: nat, m': nat)
    requires e.Valid(|ok|) && 0 < e.n && m <= m' <= |e.to|
    ensures |Sources(e, ok, v, m)| <= |Sources(e, ok, v, m')|
    decreases m'
  {
    if m < m' {
      SourcesGrow(e, ok, v, m, m' - 1);
    }
  }

  /** Node `i` is a source of `v` exactly when an allowed edge leads from `i` to `v`. */
  lemma {:induction false} SourcesAreEdges(e: Edges, ok: seq<bool>, v: nat, m: nat, i: nat)
    requires e.Valid(|ok|) && m <= |e.to| && i < e.n
    ensures i in Sources(e, ok, v, m) <==>
            exists k :: e.start[i] <= k < e.start[i + 1] && k < m && ok[e.via[k]] && e.to[k] == v
    decreases m
  {
    if m > 0 {
      SourcesAreEdges(e, ok, v, m - 1, i);
      var k := m - 1;
      if e.start[i] <= k < e.start[i + 1] {
        OwnerOfRow(e, |ok|, e.n - 1, i, k);
      } else if Owner(e, e.n - 1, k) == i {
        OwnerHasEdge(e, |ok|, e.n - 1, k);
        assert false;
      }
    }
  }

  lemma {:induction false} OwnerHasEdge(e: Edges, labels: nat, m: nat, k: nat)
    requires e.Valid(labels) && m < e.n && k < e.start[m + 1]
    ensures Owner(e, m, k) < e.n && e.start[Owner(e, m, k)] <= k < e.start[Owner(e, m, k) + 1]
    decreases m
  {
    if m > 0 && k < e.start[m] {
      OwnerHasEdge(e, labels, m - 1, k);
    }
  }

  /** Where the sources of `v` start once all are laid out node after node. */
  ghost function Offset(e: Edges, ok: seq<bool>, v: nat): nat
    requires e.Valid(|ok|) && 0 < e.n && v <= e.n
  {
    if v == 0 then 0 else Offset(e, ok, v - 1) + |Sources(e, ok, v - 1, |e.to|)|
  }

  lemma {:induction false} OffsetsGrow(e: Edges, ok: seq<bool>, u: nat, v: nat)
    requires e.Valid(|ok|) && 0 < e.n && u <= v <= e.n
    ensures Offset(e, ok, u) <= Offset(e, ok, v)
    decreases v
  {
    if u < v {
      OffsetsGrow(e, ok, u, v - 1);
    }
  }

  /** The slots of `rev` from `lo` up to `hi` list the sources of `v`. */
  ghost predicate Lists(e: Edges, ok: seq<bool>, rev: seq<nat>, lo: nat, hi: nat, v: nat, m: nat)
    requires e.Valid(|ok|) && 0 < e.n && m <= |e.to|
  {
    lo <= hi <= |rev| && rev[lo..hi] == Sources(e, ok, v, m)
  }

  /** Counts the allowed edges into each node, two slots further on. */
  method CountSources(e: Edges, ok: seq<bool>) returns (rs: array<nat>)
    requires e.Valid(|ok|) && 0 < e.n
    ensures fresh(rs) && rs.Length == e.n + 2 && rs[0] == rs[1] == 0
    ensures forall v | 0 <= v < e.n :: rs[v + 2] == |Sources(e, ok, v, |e.to|)|
  {
    rs := new nat[e.n + 2](_ => 0);
    for from := 0 to e.n
      invariant rs[0] == rs[1] == 0
      invariant forall v | 0 <= v < e.n :: rs[v + 2] == |Sources(e, ok, v, e.start[from])|
    {
      for k := e.start[from] to e.start[from + 1]
        invariant rs[0] == rs[1] == 0
        invariant forall v | 0 <= v < e.n :: rs[v + 2] == |Sources(e, ok, v, k)|
      {
        if ok[e.via[k]] {
          rs[e.to[k] + 2] := rs[e.to[k] + 2] + 1;
        }
      }
    }
  }

  /** Turns the counts into the slot each node's sources start at, one slot further on. */
  method SumSources(e: Edges, ok: seq<bool>, rs: array<nat>)
    requires e.Valid(|ok|) && 0 < e.n && rs.Length == e.n + 2 && rs[0] == rs[1] == 0
    requires forall v | 0 <= v < e.n :: rs[v + 2] == |Sources(e, ok, v, |e.to|)|
    modifies rs
    ensures rs[0] == 0 && forall v | 0 <= v <= e.n :: rs[v + 1] == Offset(e, ok, v)
  {
    for i := 2 to rs.Length
      invariant rs[0] == 0
      invariant forall v | 0 <= v < i - 1 :: rs[v + 1] == Offset(e, ok, v)
      invariant forall v | i - 2 <= v < e.n :: rs[v + 2] == |Sources(e, ok, v, |e.to|)|
    {
      rs[i] := rs[i] + rs[i - 1];
    }
  }

  /** The slot the next source of `v` goes to lies within the space reserved for `v`. */
  lemma {:induction false} SlotReserved(e: Edges, ok: seq<bool>, v: nat, k: nat)
    requires e.Valid(|ok|) && v < e.n && k < |e.to| && ok[e.via[k]] && e.to[k] == v
    ensures Offset(e, ok, v) + |Sources(e, ok, v, k)| < Offset(e, ok, v + 1) <= Offset(e, ok, e.n)
  {
    SourcesGrow(e, ok, v, k + 1, |e.to|);
    OffsetsGrow(e, ok, v + 1, e.n);
  }

  /** A slot in the space reserved for `v` lies outside the space filled for any other node. */
  lemma {:induction false} SlotsApart(e: Edges, ok: seq<bool>, u: nat, v: nat, k: nat, slot: nat)
    requires e.Valid(|ok|) && u < e.n && v < e.n && u != v && k <= |e.to|
    requires Offset(e, ok, v) <= slot < Offset(e, ok, v + 1)
    ensures slot < Offset(e, ok, u) || slot >= Offset(e, ok, u) + |Sources(e, ok, u, k)|
  {
    if u < v {
      OffsetsGrow(e, ok, u + 1, v);
      SourcesGrow(e, ok, u, k, |e.to|);
    } else {
      OffsetsGrow(e, ok, v + 1, u);
    }
  }

  /** What filling the reverse rows has done once the edges below `k` are placed. */
  ghost predicate Filled(e: Edges, ok: seq<bool>, rs: seq<nat>, rev: seq<nat>, k: nat)
    requires e.Valid(|ok|) && 0 < e.n && k <= |e.to|
  {
    && |rs| == e.n + 2 && rs[0] == 0 && |rev| == Offset(e, ok, e.n)
    && forall v | 0 <= v < e.n ::
         && rs[v + 1] == Offset(e, ok, v) + |Sources(e, ok, v, k)|
         && Lists(e, ok, rev, Offset(e, ok, v), rs[v + 1], v, k)
  }

  /** Placing edge `k` in its target's row leaves every other row alone. */
  lemma {:induction false} ListsElsewhere(e: Edges, ok: seq<bool>, rs: seq<nat>, rev: seq<nat>, k: nat, from: nat, u: nat)
    requires e.Valid(|ok|) && k < |e.to| && Filled(e, ok, rs, rev, k) && u < e.n
    requires ok[e.via[k]] && u != e.to[k]
    ensures var slot := rs[e.to[k] + 1];
            && slot < |rev|
            && rs[u + 1] == Offset(e, ok, u) + |Sources(e, ok, u, k + 1)|
            && Lists(e, ok, rev[slot := from], Offset(e, ok, u), rs[u + 1], u, k + 1)
  {
    var v := e.to[k];
    var slot := rs[v + 1];
    assert Lists(e, ok, rev, Offset(e, ok, v), slot, v, k);
    SlotReserved(e, ok, v, k);
    assert Lists(e, ok, rev, Offset(e, ok, u), rs[u + 1], u, k);
    SlotsApart(e, ok, u, v, k, slot);
    UpdateOutside(rev, slot, from, Offset(e, ok, u), rs[u + 1]);
    assert Sources(e, ok, u, k + 1) == Sources(e, ok, u, k);
  }

  lemma {:induction false} UpdateOutside(s: seq<nat>, i: nat, x: nat, lo: nat, hi: nat)
    requires i < |s| && lo <= hi <= |s| && (i < lo || hi <= i)
    ensures s[i := x][lo..hi] == s[lo..hi]
  {
  }

  /** Placing edge `k` extends its target's row by its source. */
  lemma {:induction false} ListsHere(e: Edges, ok: seq<bool>, rs: seq<nat>, rev: seq<nat>, k: nat, from: nat)
    requires e.Valid(|ok|) && k < |e.to| && Filled(e, ok, rs, rev, k)
    requires from < e.n && e.start[from] <= k < e.start[from + 1] && ok[e.via[k]]
    ensures var v := e.to[k];
            var slot := rs[v + 1];
            && slot < |rev|
            && slot + 1 == Offset(e, ok, v) + |Sources(e, ok, v, k + 1)|
            && Lists(e, ok, rev[slot := from], Offset(e, ok, v), slot + 1, v, k + 1)
  {
    OwnerOfRow(e, |ok|, e.n - 1, from, k);
    var v := e.to[k];
    var slot := rs[v + 1];
    assert Lists(e, ok, rev, Offset(e, ok, v), slot, v, k);
    SlotReserved(e, ok, v, k);
    assert rev[slot := from][Offset(e, ok, v)..slot + 1] == rev[Offset(e, ok, v)..slot] + [from];
  }

  lemma {:induction false} FilledOne(e: Edges, ok: seq<bool>, rs: seq<nat>, rev: seq<nat>, k: nat, from: nat)
    requires e.Valid(|ok|) && 0 < e.n && k < |e.to| && Filled(e, ok, rs, rev, k)
    requires from < e.n && e.start[from] <= k < e.start[from + 1]
    ensures ok[e.via[k]] ==>
              var slot := rs[e.to[k] + 1];
              slot < |rev| && Filled(e, ok, rs[e.to[k] + 1 := slot + 1], rev[slot := from], k + 1)
    ensures !ok[e.via[k]] ==> Filled(e, ok, rs, rev, k + 1)
  {
    hide Lists;
    if ok[e.via[k]] {
      var slot := rs[e.to[k] + 1];
      ListsHere(e, ok, rs, rev, k, from);
      forall u | 0 <= u < e.n
        ensures rs[e.to[k] + 1 := slot + 1][u + 1] == Offset(e, ok, u) + |Sources(e, ok, u, k + 1)|
        ensures Lists(e, ok, rev[slot := from], Offset(e, ok, u), rs[e.to[k] + 1 := slot + 1][u + 1], u, k + 1)
      {
        if u != e.to[k] {
          ListsElsewhere(e, ok, rs, rev, k, from, u);
        }
      }
    } else {
      forall u | 0 <= u < e.n ensures Lists(e, ok, rev, Offset(e, ok, u), rs[u + 1], u, k + 1) {
        assert Sources(e, ok, u, k + 1) == Sources(e, ok, u, k);
        assert Lists(e, ok, rev, Offset(e, ok, u), rs[u + 1], u, k);
        SameLists(e, ok, rev, Offset(e, ok, u), rs[u + 1], u, k);
      }
    }
  }

  lemma {:induction false} SameLists(e: Edges, ok: seq<bool>, rev: seq<nat>, lo: nat, hi: nat, u: nat, k: nat)
    requires e.Valid(|ok|) && 0 < e.n && k < |e.to| && Sources(e, ok, u, k + 1) == Sources(e, ok, u, k)
    requires Lists(e, ok, rev, lo, hi, u, k)
    ensures Lists(e, ok, rev, lo, hi, u, k + 1)
  {
  }

  lemma {:induction false} FilledNothing(e: Edges, ok: seq<bool>, rs: seq<nat>, rev: seq<nat>)
    requires e.Valid(|ok|) && 0 < e.n && |rs| == e.n + 2 && |rev| == Offset(e, ok, e.n)
    requires rs[0] == 0 && forall v | 0 <= v <= e.n :: rs[v + 1] == Offset(e, ok, v)
    ensures Filled(e, ok, rs, rev, 0)
  {
    forall v | 0 <= v < e.n ensures Lists(e, ok, rev, Offset(e, ok, v), Offset(e, ok, v), v, 0) {
      OffsetsGrow(e, ok, v, e.n);
    }
  }

  lemma {:induction false} FilledAll(e: Edges, ok: seq<bool>, rs: seq<nat>, rev: seq<nat>, v: nat)
    requires e.Valid(|ok|) && v < e.n && Filled(e, ok, rs, rev, |e.to|)
    ensures Lists(e, ok, rev, rs[v], rs[v + 1], v, |e.to|)
  {
    assert Lists(e, ok, rev, Offset(e, ok, v), rs[v + 1], v, |e.to|);
    assert v > 0 ==> rs[v - 1 + 1] == Offset(e, ok, v - 1) + |Sources(e, ok, v - 1, |e.to|)|;
  }

  /** Places the source of every allowed edge in its target's reverse row, in edge order. */
  method FillSources(e: Edges, ok: seq<bool>, rs: array<nat>) returns (rev: array<nat>)
    requires e.Valid(|ok|) && 0 < e.n && rs.Length == e.n + 2
    requires rs[0] == 0 && forall v | 0 <= v <= e.n :: rs[v + 1] == Offset(e, ok, v)
    modifies rs
    ensures fresh(rev)
    ensures forall v | 0 <= v < e.n :: Lists(e, ok, rev[..], rs[v], rs[v + 1], v, |e.to|)
  {
    hide Filled, Sources, Offset, Lists;
    rev := new nat[rs[e.n + 1]](_ => 0);
    FilledNothing(e, ok, rs[..], rev[..]);
    for from := 0 to e.n
      invariant Filled(e, ok, rs[..], rev[..], e.start[from])
    {
      for k := e.start[from] to e.start[from + 1]
        invariant Filled(e, ok, rs[..], rev[..], k)
      {
        ghost var rs0, rev0 := rs[..], rev[..];
        FilledOne(e, ok, rs0, rev0, k, from);
        if ok[e.via[k]] {
          var to := e.to[k];
          rev[rs[to + 1]] := from;
          rs[to + 1] := rs[to + 1] + 1;
          assert rs[..] == rs0[to + 1 := rs0[to + 1] + 1] && rev[..] == rev0[rs0[to + 1] := from];
        }
      }
    }
    forall v | 0 <= v < e.n ensures Lists(e, ok, rev[..], rs[v], rs[v + 1], v, |e.to|) {
      FilledAll(e, ok, rs[..], rev[..], v);
    }
  }

  // ----- Searching backwards -----

  /** Targets are marked, and so is everything with an allowed edge into a marked node. */
  ghost predicate ClosedBackwards(e: Edges, ok: seq<bool>, target: seq<bool>, reach: seq<bool>)
    requires e.Valid(|ok|) && |target| == |reach| == e.n
  {
    && (forall v | 0 <= v < e.n :: target[v] ==> reach[v])
    && forall v | 0 <= v < e.n && reach[v] :: SourcesMarked(e, ok, reach, v)
  }

  ghost predicate SourcesMarked(e: Edges, ok: seq<bool>, reach: seq<bool>, v: nat)
    requires e.Valid(|ok|) && 0 < e.n
  {
    forall u | u in Sources(e, ok, v, |e.to|) :: u < |reach| && reach[u]
  }

  /** Marking everything that leads to a marked node finds every node with an escape. */
  lemma {:induction false} MarksFindEscapes(e: Edges, ok: seq<bool>, target: seq<bool>, reach: seq<bool>, i: nat, steps: nat)
    requires e.Valid(|ok|) && |target| == |reach| == e.n && i < e.n
    requires ClosedBackwards(e, ok, target, reach)
    requires Escapes(e, ok, target, i, steps)
    ensures reach[i]
    decreases steps
  {
    if !target[i] {
      var k :| e.start[i] <= k < e.start[i + 1] && ok[e.via[k]] && Escapes(e, ok, target, e.to[k], steps - 1);
      MarksFindEscapes(e, ok, target, reach, e.to[k], steps - 1);
      SourcesAreEdges(e, ok, e.to[k], |e.to|, i);
      assert i in Sources(e, ok, e.to[k], |e.to|);
      assert SourcesMarked(e, ok, reach, e.to[k]);
    }
  }

  ghost predicate CanEscape(e: Edges, ok: seq<bool>, target: seq<bool>, i: nat)
    requires e.Valid(|ok|) && |target| == e.n && i < e.n
  {
    exists steps: nat :: Escapes(e, ok, target, i, steps)
  }

  lemma {:induction false} TargetEscapes(e: Edges, ok: seq<bool>, target: seq<bool>, i: nat)
    requires e.Valid(|ok|) && |target| == e.n && i < e.n && target[i]
    ensures CanEscape(e, ok, target, i)
  {
    assert Escapes(e, ok, target, i, 0);
  }

  lemma {:induction false} MarksFindEscape(e: Edges, ok: seq<bool>, target: seq<bool>, reach: seq<bool>, i: nat)
    requires e.Valid(|ok|) && |target| == |reach| == e.n && i < e.n
    requires ClosedBackwards(e, ok, target, reach)
    requires CanEscape(e, ok, target, i)
    ensures reach[i]
  {
    hide ClosedBackwards;
    var steps: nat :| Escapes(e, ok, target, i, steps);
    MarksFindEscapes(e, ok, target, reach, i, steps);
  }

  lemma {:induction false} SourceEscapes(e: Edges, ok: seq<bool>, target: seq<bool>, u: nat, v: nat)
    requires e.Valid(|ok|) && |target| == e.n && u < e.n && v < e.n
    requires u in Sources(e, ok, v, |e.to|) && CanEscape(e, ok, target, v)
    ensures CanEscape(e, ok, target, u)
  {
    SourcesAreEdges(e, ok, v, |e.to|, u);
    var k :| e.start[u] <= k < e.start[u + 1] && ok[e.via[k]] && e.to[k] == v;
    var steps: nat :| Escapes(e, ok, target, v, steps);
    assert Escapes(e, ok, target, u, steps + 1);
  }

  lemma {:induction false} SourcesInRange(e: Edges, ok: seq<bool>, v: nat, m: nat)
    requires e.Valid(|ok|) && 0 < e.n && m <= |e.to|
    ensures forall u | u in Sources(e, ok, v, m) :: u < e.n
    decreases m
  {
    if m > 0 {
      SourcesInRange(e, ok, v, m - 1);
      OwnerHasEdge(e, |ok|, e.n - 1, m - 1);
    }
  }

  /** The queue holds each marked node once, and no other. */
  ghost predicate Marks(reach: seq<bool>, queue: seq<nat>) {
    && Distinct(queue)
    && (forall v | v in queue :: v < |reach|)
    && (forall v | 0 <= v < |reach| :: reach[v] <==> v in queue)
  }

  method MarkTargets(target: seq<bool>) returns (reach: array<bool>, queue: seq<nat>)
    ensures fresh(reach) && reach[..] == target && Marks(reach[..], queue)
  {
    reach := new bool[|target|](_ => false);
    queue := [];
    for i := 0 to |target|
      invariant Marks(reach[..], queue)
      invariant forall v | 0 <= v < |target| :: reach[v] <==> (v < i && target[v])
    {
      if target[i] {
        assert i !in queue;
        reach[i] := true;
        queue := queue + [i];
      }
    }
  }

  /** Marks and queues every node listed in `rev` from `lo` up to `hi`. */
  method MarkRow(rev: array<nat>, lo: nat, hi: nat, reach: array<bool>, queue0: seq<nat>) returns (queue: seq<nat>)
    requires lo <= hi <= rev.Length && forall p | lo <= p < hi :: rev[p] < reach.Length
    requires Marks(reach[..], queue0)
    modifies reach
    ensures Marks(reach[..], queue) && queue0 <= queue
    ensures forall u | u in rev[lo..hi] :: u in queue
    ensures forall v | v in queue :: v in queue0 || v in rev[lo..hi]
  {
    queue := queue0;
    for p := lo to hi
      invariant Marks(reach[..], queue) && queue0 <= queue
      invariant forall q | lo <= q < p :: rev[q] in queue
      invariant forall v | v in queue :: v in queue0 || v in rev[lo..hi]
      modifies reach
    {
      var from := rev[p];
      assert from == rev[lo..hi][p - lo];
      if !reach[from] {
        reach[from] := true;
        queue := queue + [from];
      }
    }
  }

  lemma {:induction false} MarksAtMost(reach: seq<bool>, queue: seq<nat>)
    requires Marks(reach, queue)
    ensures |queue| <= |reach|
    ensures forall h | 0 <= h < |queue| :: queue[h] < |reach| && reach[queue[h]]
  {
    assert forall h | 0 <= h < |queue| :: queue[h] in queue;
    Pigeonhole(queue, |reach|);
  }

  /**
   The search after handling the first `head` queued nodes: the targets and everything that
   leads to a handled node are queued, and only nodes with an escape are.
   */
  ghost predicate Searching(e: Edges, ok: seq<bool>, target: seq<bool>, reach: seq<bool>, queue: seq<nat>, head: nat)
    requires e.Valid(|ok|) && 0 < e.n == |target|
  {
    && |reach| == e.n && head <= |queue| && Marks(reach, queue)
    && (forall v | 0 <= v < e.n :: target[v] ==> v in queue)
    && (forall v | v in queue :: v < e.n && CanEscape(e, ok, target, v))
    && (forall h, u | 0 <= h < head && u in Sources(e, ok, queue[h], |e.to|) :: u in queue)
  }

  lemma {:induction false} SearchStep(e: Edges, ok: seq<bool>, target: seq<bool>, reach: seq<bool>, queue: seq<nat>,
                   head: nat, reach': seq<bool>, queue': seq<nat>)
    requires e.Valid(|ok|) && 0 < e.n == |target|
    requires Searching(e, ok, target, reach, queue, head) && head < |queue| && queue[head] < e.n
    requires |reach'| == e.n && Marks(reach', queue') && queue <= queue'
    requires forall u | u in Sources(e, ok, queue[head], |e.to|) :: u in queue'
    requires forall v | v in queue' :: v in queue || v in Sources(e, ok, queue[head], |e.to|)
    ensures Searching(e, ok, target, reach', queue', head + 1)
  {
    hide CanEscape, Sources, Marks;
    forall v | v in queue ensures v in queue' {
      var h :| 0 <= h < |queue| && queue[h] == v;
      assert queue'[h] == v;
    }
    QueuedEscape(e, ok, target, queue, queue', head);
    forall h, u | 0 <= h < head + 1 && u in Sources(e, ok, queue'[h], |e.to|) ensures u in queue' {
      assert queue'[h] == queue[h];
    }
  }

  lemma {:induction false} QueuedEscape(e: Edges, ok: seq<bool>, target: seq<bool>, queue: seq<nat>, queue': seq<nat>, head: nat)
    requires e.Valid(|ok|) && 0 < e.n == |target| && head < |queue|
    requires forall v | v in queue :: v < e.n && CanEscape(e, ok, target, v)
    requires queue[head] < e.n
    requires forall v | v in queue' :: v in queue || v in Sources(e, ok, queue[head], |e.to|)
    ensures forall v | v in queue' :: v < e.n && CanEscape(e, ok, target, v)
  {
    hide CanEscape, Sources;
    SourcesInRange(e, ok, queue[head], |e.to|);
    assert queue[head] in queue;
    forall v | v in queue' ensures v < e.n && CanEscape(e, ok, target, v) {
      if v !in queue {
        SourceEscapes(e, ok, target, v, queue[head]);
      }
    }
  }

  /** Once every queued node is handled, the marks are closed backwards. */
  lemma {:induction false} SearchCloses(e: Edges, ok: seq<bool>, target: seq<bool>, reach: seq<bool>, queue: seq<nat>)
    requires e.Valid(|ok|) && 0 < e.n == |target|
    requires Searching(e, ok, target, reach, queue, |queue|)
    ensures |reach| == e.n && ClosedBackwards(e, ok, target, reach)
  {
    hide CanEscape;
    forall v | 0 <= v < e.n && target[v] ensures reach[v] {
      assert v in queue;
    }
    forall v | 0 <= v < e.n && reach[v] ensures SourcesMarked(e, ok, reach, v) {
      assert v in queue;
      var h :| 0 <= h < |queue| && queue[h] == v;
      forall u | u in Sources(e, ok, v, |e.to|) ensures u < |reach| && reach[u] {
        assert u in queue;
      }
    }
  }

  /** Then exactly the nodes with an escape are marked. */
  lemma {:induction false} SearchDone(e: Edges, ok: seq<bool>, target: seq<bool>, reach: seq<bool>, queue: seq<nat>)
    requires e.Valid(|ok|) && 0 < e.n == |target|
    requires Searching(e, ok, target, reach, queue, |queue|)
    ensures forall i | 0 <= i < e.n :: reach[i] <==> CanEscape(e, ok, target, i)
  {
    hide CanEscape, Sources, ClosedBackwards;
    SearchCloses(e, ok, target, reach, queue);
    forall i | 0 <= i < e.n && CanEscape(e, ok, target, i) ensures reach[i] {
      MarksFindEscape(e, ok, target, reach, i);
    }
  }

  lemma {:induction false} SearchStart(e: Edges, ok: seq<bool>, target: seq<bool>, queue: seq<nat>)
    requires e.Valid(|ok|) && 0 < e.n == |target| && Marks(target, queue)
    ensures Searching(e, ok, target, target, queue, 0)
  {
    forall v | v in queue ensures CanEscape(e, ok, target, v) {
      TargetEscapes(e, ok, target, v);
    }
  }

  /** Breadth-first from the targets along reversed edges; marks exactly the nodes with an escape. */
  method MarkEscapes(e: Edges, ok: seq<bool>, target: seq<bool>) returns (reach: array<bool>)
    requires e.Valid(|ok|) && 0 < e.n == |target|
    ensures reach.Length == e.n
    ensures forall i | 0 <= i < e.n :: reach[i] <==> CanEscape(e, ok, target, i)
  {
    hide Sources, Offset, Owner, Escapes, CanEscape;
    var rs := CountSources(e, ok);
    SumSources(e, ok, rs);
    var rev := FillSources(e, ok, rs);
    var queue: seq<nat>;
    reach, queue := MarkTargets(target);
    SearchStart(e, ok, target, queue);
    var head := 0;
    while head < |queue|
      invariant reach.Length == e.n && head <= |queue|
      invariant Searching(e, ok, target, reach[..], queue, head)
      decreases e.n - head
      modifies reach
    {
      MarksAtMost(reach[..], queue);
      var i := queue[head];
      ghost var queue0, reach0 := queue, reach[..];
      RowIsSources(e, ok, rev, rs[i], rs[i + 1], i);
      queue := MarkRow(rev, rs[i], rs[i + 1], reach, queue);
      SearchStep(e, ok, target, reach0, queue0, head, reach[..], queue);
      head := head + 1;
    }
    SearchDone(e, ok, target, reach[..], queue);
  }

  lemma {:induction false} RowIsSources(e: Edges, ok: seq<bool>, rev: array<nat>, lo: nat, hi: nat, v: nat)
    requires e.Valid(|ok|) && 0 < e.n && Lists(e, ok, rev[..], lo, hi, v, |e.to|)
    ensures lo <= hi <= rev.Length && forall p | lo <= p < hi :: rev[p] < e.n
    ensures rev[lo..hi] == Sources(e, ok, v, |e.to|)
  {
    var sources := Sources(e, ok, v, |e.to|);
    SourcesInRange(e, ok, v, |e.to|);
    forall p | lo <= p < hi ensures rev[p] < e.n {
      assert rev[p] == sources[p - lo];
      assert rev[p] in sources;
    }
  }

  // ----- The report -----

  function EdgesOf<S>(g: Graph<S>): Edges {
    Edges(|g.states|, g.edgeStart, g.edgeLabel, g.edgeTo)
  }

  /** Which labels belong to allowed actors. */
  function Allowed(labels: seq<Label>, names: seq<string>, allowed: set<string>): (ok: seq<bool>)
    requires forall id | 0 <= id < |labels| :: labels[id].actor < |names|
    ensures |ok| == |labels|
  {
    seq(|labels|, id requires 0 <= id < |labels| => names[labels[id].actor] in allowed)
  }

  /** A node whose future is unknown counts as able to reach the goal. */
  function Targets(unknown: seq<bool>, goal: seq<bool>): (target: seq<bool>)
    requires |unknown| == |goal|
    ensures |target| == |goal|
  {
    seq(|goal|, i requires 0 <= i < |goal| => unknown[i] || goal[i])
  }

  /** The first explored node from which no allowed walk reaches a target. */
  method FindTrap(e: Edges, labels: seq<Label>, unknown: seq<bool>, names: seq<string>, allowed: set<string>,
                  goal: seq<bool>) returns (trap: Option<nat>)
    requires e.Valid(|labels|) && |unknown| == |goal| == e.n
    requires forall id | 0 <= id < |labels| :: labels[id].actor < |names|
    ensures IsFirstTrap(e, Allowed(labels, names, allowed), Targets(unknown, goal), trap)
  {
    hide CanEscape;
    var ok, target := Allowed(labels, names, allowed), Targets(unknown, goal);
    if e.n == 0 {
      return None;
    }
    var reach := MarkEscapes(e, ok, target);
    for i := 0 to e.n
      invariant forall j | 0 <= j < i :: CanEscape(e, ok, target, j)
    {
      if !reach[i] {
        return Some(i);
      }
    }
    trap := None;
  }

  /** The first of the nodes below `n` without an escape. */
  ghost function FirstStuck(e: Edges, ok: seq<bool>, target: seq<bool>, n: nat): (trap: Option<nat>)
    requires e.Valid(|ok|) && |target| == e.n && n <= e.n
    ensures trap.Some? ==> trap.value < n && !CanEscape(e, ok, target, trap.value)
    ensures forall i | 0 <= i < (if trap.Some? then trap.value else n) :: CanEscape(e, ok, target, i)
  {
    if n == 0 then None
    else
      var before := FirstStuck(e, ok, target, n - 1);
      if before.Some? then before else if CanEscape(e, ok, target, n - 1) then None else Some(n - 1)
  }

  lemma {:induction false} FirstStuckIs(e: Edges, ok: seq<bool>, target: seq<bool>, a: Option<nat>, b: Option<nat>)
    requires e.Valid(|ok|) && |target| == e.n
    requires IsFirstTrap(e, ok, target, a) && IsFirstTrap(e, ok, target, b)
    ensures a == b
  {
    hide CanEscape;
  }

  ghost predicate IsFirstTrap(e: Edges, ok: seq<bool>, target: seq<bool>, trap: Option<nat>)
    requires e.Valid(|ok|) && |target| == e.n
  {
    && (trap.Some? ==> trap.value < e.n && !CanEscape(e, ok, target, trap.value))
    && forall i | 0 <= i < (if trap.Some? then trap.value else e.n) :: CanEscape(e, ok, target, i)
  }

  // ----- What the report means for the system -----

  function Names<S>(sys: System<S>): seq<string> {
    seq(|sys.actors|, a requires 0 <= a < |sys.actors| => sys.actors[a].name)
  }

  /** A property's goal, evaluated on every explored state. */
  function GoalColumn<S>(sys: System<S>, states: seq<S>, r: nat): (goal: seq<bool>)
    requires r < |sys.recoverables|
    ensures |goal| == |states|
  {
    seq(|states|, i requires 0 <= i < |states| => sys.recoverables[r].goal(states[i]))
  }

  lemma {:induction false} FinishedEdges<S(!new)>(cfg: Config<S>, g: Graph<S>)
    requires Finished(cfg, g)
    ensures EdgesOf(g).Valid(|g.labels|)
    ensures forall id | 0 <= id < |g.labels| :: g.labels[id].actor < |Names(cfg.sys)|
  {
    hide RowFits, DepthsExact;
    forall i | 0 <= i < |g.states| ensures RowOrdered(g, i) {
      assert RowOk(cfg, g, i);
      RowBounds(cfg, g, i);
    }
    assert forall i | 0 <= i < |g.states| :: RowOrdered(g, i) ==> EdgesOf(g).start[i] <= EdgesOf(g).start[i + 1];
    forall i | 0 <= i <= |g.states| ensures EdgesOf(g).start[i] <= |g.edgeTo| {
      assert i > 0 ==> RowOrdered(g, i - 1);
    }
  }

  ghost predicate RowOrdered<S>(g: Graph<S>, i: nat)
    requires i < |g.edgeStart| - 1
  {
    g.edgeStart[i] <= g.edgeStart[i + 1] <= |g.edgeTo|
  }

  lemma {:induction false} RowBounds<S>(cfg: Config<S>, g: Graph<S>, i: nat)
    requires Shaped(g) && i < |g.edgeStart| - 1 && RowOk(cfg, g, i)
    ensures g.edgeStart[i] <= g.edgeStart[i + 1] <= |g.edgeTo|
  {
  }

  /** Node `i` has an explored walk by allowed actors to the goal of property `r`, or to the unknown. */
  ghost predicate GraphEscapes<S(!new)>(cfg: Config<S>, g: Graph<S>, r: nat, i: nat, steps: nat)
    requires Finished(cfg, g) && r < |cfg.sys.recoverables| && i < |g.states|
  {
    FinishedEdges(cfg, g);
    Escapes(EdgesOf(g), Allowed(g.labels, Names(cfg.sys), AllowedNames(cfg.sys, cfg.sys.recoverables[r])),
            Targets(g.unknown, GoalColumn(cfg.sys, g.states, r)), i, steps)
  }

  lemma {:induction false} NodeReachable<S(!new)>(cfg: Config<S>, g: Graph<S>, i: nat)
    requires Finished(cfg, g) && i < |g.states|
    ensures Reachable(cfg.sys, g.states[i])
  {
    NodeIsReachable(cfg, g, i);
  }

  /** A recovery of the system from a node's state is a walk in the graph, unless a bound hides it. */
  lemma {:induction false} RecoveryIsWalk<S(!new)>(cfg: Config<S>, g: Graph<S>, r: nat, i: nat, s: S, n: nat)
    requires IdentityDecides(cfg.sys, cfg.exact)
    requires Finished(cfg, g) && r < |cfg.sys.recoverables| && i < |g.states|
    requires Reachable(cfg.sys, s) && cfg.Id(s) == cfg.Id(g.states[i])
    requires var p := cfg.sys.recoverables[r]; RecoversIn(cfg.sys, AllowedActors(cfg.sys, p), p.goal, s, n)
    ensures GraphEscapes(cfg, g, r, i, n)
    decreases n
  {
    hide NodesOk, DepthsExact;
    FinishedEdges(cfg, g);
    var p := cfg.sys.recoverables[r];
    NodeReachable(cfg, g, i);
    assert Alike(cfg.sys, cfg.exact, s, g.states[i]);
    if !p.goal(s) && !g.unknown[i] {
      var a, t :| a in AllowedActors(cfg.sys, p) && Steps(cfg.sys, a, s, t)
                  && RecoversIn(cfg.sys, AllowedActors(cfg.sys, p), p.goal, t, n - 1);
      assert RowOk(cfg, g, i);
      var k := RowReachesSteps(cfg, g, i, a, s, t);
      StepsStayReachable(cfg.sys, a, s, t);
      RecoveryIsWalk(cfg, g, r, g.edgeTo[k], t, n - 1);
      assert GraphEscapes(cfg, g, r, g.edgeTo[k], n - 1);
    }
  }

  /** In a graph that dropped nothing, a walk to the goal is a recovery of the system. */
  lemma {:induction false} WalkIsRecovery<S(!new)>(cfg: Config<S>, g: Graph<S>, r: nat, i: nat, n: nat)
    requires IdentityDecides(cfg.sys, cfg.exact)
    requires Finished(cfg, g) && r < |cfg.sys.recoverables| && i < |g.states| && !g.truncated
    requires GraphEscapes(cfg, g, r, i, n)
    ensures var p := cfg.sys.recoverables[r]; RecoversIn(cfg.sys, AllowedActors(cfg.sys, p), p.goal, g.states[i], n)
    decreases n
  {
    hide NodesOk, DepthsExact;
    FinishedEdges(cfg, g);
    var p := cfg.sys.recoverables[r];
    var e := EdgesOf(g);
    var ok := Allowed(g.labels, Names(cfg.sys), AllowedNames(cfg.sys, p));
    var target := Targets(g.unknown, GoalColumn(cfg.sys, g.states, r));
    if !p.goal(g.states[i]) {
      var k :| e.start[i] <= k < e.start[i + 1] && ok[e.via[k]] && Escapes(e, ok, target, e.to[k], n - 1);
      WalkIsRecovery(cfg, g, r, e.to[k], n - 1);
      var a, t := EdgeIsStep(cfg, g, i, k);
      NodeReachable(cfg, g, i);
      NodeReachable(cfg, g, e.to[k]);
      StepsStayReachable(cfg.sys, a, g.states[i], t);
      RecoveryOfTwin(cfg.sys, cfg.exact, AllowedActors(cfg.sys, p), r, g.states[e.to[k]], t, n - 1);
      assert a in AllowedActors(cfg.sys, p);
    }
  }

  /** Every explored edge is a move of the system. */
  lemma {:induction false} EdgeIsStep<S(!new)>(cfg: Config<S>, g: Graph<S>, i: nat, k: nat) returns (a: nat, t: S)
    requires Finished(cfg, g) && i < |g.states| && g.edgeStart[i] <= k < g.edgeStart[i + 1]
    ensures k < |g.edgeTo| && g.edgeTo[k] < |g.states| && g.edgeLabel[k] < |g.labels|
    ensures a == g.labels[g.edgeLabel[k]].actor && Steps(cfg.sys, a, g.states[i], t)
    ensures cfg.Id(t) == cfg.Id(g.states[g.edgeTo[k]])
  {
    hide NodesOk, DepthsExact;
    assert RowOk(cfg, g, i);
    var succs := Expand(cfg, g.states[i]);
    RowForgetsOrder(cfg, g, i, g.edgeStart[i], g.edgeStart[i + 1], |succs|);
    assert EdgeFitsOne(cfg, g, k, succs);
    var j :| 0 <= j < |succs| && EdgeFits(cfg, g, k, succs[j]);
    a, t := succs[j].actor, succs[j].state;
    SuccIffStep(cfg, g.states[i], a, t);
  }

  /** What FindTrap returns for property `r` of a finished search. */
  ghost predicate TrapReport<S(!new)>(cfg: Config<S>, g: Graph<S>, r: nat, trap: Option<nat>)
    requires Finished(cfg, g) && r < |cfg.sys.recoverables|
  {
    FinishedEdges(cfg, g);
    IsFirstTrap(EdgesOf(g), Allowed(g.labels, Names(cfg.sys), AllowedNames(cfg.sys, cfg.sys.recoverables[r])),
                Targets(g.unknown, GoalColumn(cfg.sys, g.states, r)), trap)
  }

  /** Property `r` can be recovered from `s` by moves of the whole, unbounded system. */
  ghost predicate CanRecover<S(!new)>(cfg: Config<S>, r: nat, s: S)
    requires r < |cfg.sys.recoverables|
  {
    var p := cfg.sys.recoverables[r];
    Recovers(cfg.sys, AllowedActors(cfg.sys, p), p.goal, s)
  }

  /**
   A reported trap is one in the full system: from no reachable state with its identity does any run
   of allowed moves, of any length, reach the goal, whatever bound cut the search.
   */
  lemma {:induction false} TrapsAreReal<S(!new)>(cfg: Config<S>, r: nat, i: nat, s: S)
    requires IdentityDecides(cfg.sys, cfg.exact) && r < |cfg.sys.recoverables|
    requires Finished(cfg, Explored(cfg)) && TrapReport(cfg, Explored(cfg), r, Some(i))
    requires i < |Explored(cfg).states| && Reachable(cfg.sys, s) && cfg.Id(s) == cfg.Id(Explored(cfg).states[i])
    ensures !CanRecover(cfg, r, s)
  {
    hide Explored, Finished;
    var g := Explored(cfg);
    if CanRecover(cfg, r, s) {
      var p := cfg.sys.recoverables[r];
      var n: nat :| RecoversIn(cfg.sys, AllowedActors(cfg.sys, p), p.goal, s, n);
      RecoveryIsWalk(cfg, g, r, i, s, n);
    }
  }

  /** In a search that dropped nothing, a node from which nothing is recovered is a trap. */
  lemma {:induction false} UnrecoverableNode<S(!new)>(cfg: Config<S>, g: Graph<S>, r: nat, trap: Option<nat>, s: S, n: nat) returns (i: nat)
    requires IdentityDecides(cfg.sys, cfg.exact) && r < |cfg.sys.recoverables|
    requires Finished(cfg, g) && !g.truncated && TrapReport(cfg, g, r, trap)
    requires ReachableIn(cfg.sys, s, n) && !CanRecover(cfg, r, s)
    ensures trap.Some? && trap.value <= i < |g.states| && cfg.Id(g.states[i]) == cfg.Id(s)
  {
    hide Inv, DepthsExact;
    FinishedEdges(cfg, g);
    i :| 0 <= i < |g.states| && Ids(cfg, g)[i] == cfg.Id(s);
    var p := cfg.sys.recoverables[r];
    var e, ok := EdgesOf(g), Allowed(g.labels, Names(cfg.sys), AllowedNames(cfg.sys, p));
    var target := Targets(g.unknown, GoalColumn(cfg.sys, g.states, r));
    if CanEscape(e, ok, target, i) {
      var steps: nat :| Escapes(e, ok, target, i, steps);
      WalkIsRecovery(cfg, g, r, i, steps);
      NodeReachable(cfg, g, i);
      RecoveryOfTwin(cfg.sys, cfg.exact, AllowedActors(cfg.sys, p), r, g.states[i], s, steps);
    }
  }

  /**
   Without truncation a trap is reported exactly when some reachable state cannot recover,
   and then none is nearer to the initial states than the one reported.
   */
  lemma {:induction false} TrapsAreFound<S(!new)>(cfg: Config<S>, r: nat, trap: Option<nat>)
    requires IdentityDecides(cfg.sys, cfg.exact) && r < |cfg.sys.recoverables|
    requires Finished(cfg, Explored(cfg)) && TrapReport(cfg, Explored(cfg), r, trap)
    requires !Explored(cfg).truncated
    ensures trap.None? <==> forall s, n: nat :: ReachableIn(cfg.sys, s, n) ==> CanRecover(cfg, r, s)
    ensures trap.Some? ==>
              var g := Explored(cfg);
              && trap.value < |g.states| && ParentsBelow(g.parent)
              && forall s, n: nat :: ReachableIn(cfg.sys, s, n) && !CanRecover(cfg, r, s)
                   ==> Depth(g.parent, trap.value) <= n
  {
    hide Explored, Finished, IdentityDecides, CanRecover;
    var g := Explored(cfg);
    forall s, n: nat | ReachableIn(cfg.sys, s, n) && !CanRecover(cfg, r, s)
      ensures trap.Some? && trap.value < |g.states| && ParentsBelow(g.parent) && Depth(g.parent, trap.value) <= n
    {
      NoNearerTrap(cfg, r, trap, s, n);
    }
    if trap.Some? {
      ShortestTraces(cfg, trap.value);
      var s, n := g.states[trap.value], Depth(g.parent, trap.value);
      TrapsAreReal(cfg, r, trap.value, s);
      assert ReachableIn(cfg.sys, s, n) && !CanRecover(cfg, r, s);
    }
  }

  lemma {:induction false} NoNearerTrap<S(!new)>(cfg: Config<S>, r: nat, trap: Option<nat>, s: S, n: nat)
    requires IdentityDecides(cfg.sys, cfg.exact) && r < |cfg.sys.recoverables|
    requires Finished(cfg, Explored(cfg)) && TrapReport(cfg, Explored(cfg), r, trap)
    requires !Explored(cfg).truncated
    requires ReachableIn(cfg.sys, s, n) && !CanRecover(cfg, r, s)
    ensures var g := Explored(cfg);
            trap.Some? && trap.value < |g.states| && ParentsBelow(g.parent) && Depth(g.parent, trap.value) <= n
  {
    hide Explored, Finished, IdentityDecides, CanRecover, TrapReport;
    var i := UnrecoverableNode(cfg, Explored(cfg), r, trap, s, n);
    ShortestTraces(cfg, i);
    ShortestTraces(cfg, trap.value);
  }
}
