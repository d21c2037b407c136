/**
 Reconcile passes (ctrltest/interceptor.go): each is recorded with the stretch of the op log it
 spans, and a controller's writes are attributed to its passes by position alone.
 */
module Passes {
  import opened Wrappers
  import opened OpLog

  /** One recorded pass of a controller, or a refused request. */
  datatype Reconcile = Reconcile(controller: string, request: ObjectKey, gated: bool, opFrom: nat, opTo: nat, number: nat)

  /** A pass that is not filed yet; `opTo` is where it stopped, once it has. */
  datatype Running = Running(request: ObjectKey, opFrom: nat, opTo: Option<nat>)

  function Accepted(controller: string, op: Op): bool { op.accepted && op.controller == controller }

  /** One controller's accepted writes in a stretch of the log. */
  function OpsBetween(ops: seq<Op>, from: nat, end: nat, controller: string): seq<Op>
    requires from <= end <= |ops|
    decreases end
  {
    if from == end then []
    else
      var rest := OpsBetween(ops, from, end - 1, controller);
      if Accepted(controller, ops[end - 1]) then rest + [ops[end - 1]] else rest
  }

  lemma {:induction false} OpsBetweenSplits(ops: seq<Op>, from: nat, mid: nat, end: nat, controller: string)
    requires from <= mid <= end <= |ops|
    ensures OpsBetween(ops, from, end, controller) == OpsBetween(ops, from, mid, controller) + OpsBetween(ops, mid, end, controller)
    decreases end
  {
    if mid < end {
      OpsBetweenSplits(ops, from, mid, end - 1, controller);
    }
  }

  lemma {:induction false} OpsBetweenGrown(ops: seq<Op>, op: Op, from: nat, end: nat, controller: string)
    requires from <= end <= |ops|
    ensures OpsBetween(ops + [op], from, end, controller) == OpsBetween(ops, from, end, controller)
    decreases end
  {
    if from < end {
      OpsBetweenGrown(ops, op, from, end - 1, controller);
    }
  }

  /** The writes attributed to a controller's recorded passes, pass by pass. */
  function Attributed(ops: seq<Op>, log: seq<Reconcile>, controller: string): seq<Op>
    requires forall r | r in log :: r.opFrom <= r.opTo <= |ops|
  {
    if |log| == 0 then []
    else
      var r := log[|log| - 1];
      Attributed(ops, log[..|log| - 1], controller) + OpsOf(ops, r, controller)
  }

  function OpsOf(ops: seq<Op>, r: Reconcile, controller: string): seq<Op>
    requires r.opFrom <= r.opTo <= |ops|
  {
    if r.gated || r.controller != controller then [] else OpsBetween(ops, r.opFrom, r.opTo, controller)
  }

  lemma {:induction false} AttributedGrown(ops: seq<Op>, op: Op, log: seq<Reconcile>, controller: string)
    requires forall r | r in log :: r.opFrom <= r.opTo <= |ops|
    ensures Attributed(ops + [op], log, controller) == Attributed(ops, log, controller)
  {
    if |log| > 0 {
      var r := log[|log| - 1];
      AttributedGrown(ops, op, log[..|log| - 1], controller);
      OpsBetweenGrown(ops, op, r.opFrom, r.opTo, controller);
    }
  }

  lemma {:induction false} AttributedNext(ops: seq<Op>, log: seq<Reconcile>, r: Reconcile, controller: string)
    requires forall q | q in log :: q.opFrom <= q.opTo <= |ops|
    requires r.opFrom <= r.opTo <= |ops|
    ensures Attributed(ops, log + [r], controller) == Attributed(ops, log, controller) + OpsOf(ops, r, controller)
  {
    assert (log + [r])[..|log|] == log;
  }

  // ----- Runs of many controllers -----

  /** Up to where a controller's writes have been attributed. */
  function Settled(ops: seq<Op>, running: map<string, Running>, controller: string): nat {
    if controller in running then running[controller].opFrom else |ops|
  }

  ghost predicate WellFormed(ops: seq<Op>, running: map<string, Running>, log: seq<Reconcile>) {
    && (forall r | r in log :: r.opFrom <= r.opTo <= |ops|)
    && forall c | c in running :: RunningOk(ops, running[c])
  }

  ghost predicate RunningOk(ops: seq<Op>, p: Running) {
    p.opFrom <= |ops| && (p.opTo.Some? ==> p.opFrom <= p.opTo.value <= |ops|)
  }

  /** A wrapped controller writes nothing once its pass has stopped. */
  ghost predicate Silent(ops: seq<Op>, running: map<string, Running>, controller: string) {
    controller in running && running[controller].opTo.Some? ==>
      forall at | running[controller].opTo.value <= at < |ops| :: ops[at].controller != controller
  }

  /** How many of the recorded passes are the controller's. */
  function PassesOf(log: seq<Reconcile>, controller: string): nat {
    if |log| == 0 then 0
    else
      var r := log[|log| - 1];
      PassesOf(log[..|log| - 1], controller) + if !r.gated && r.controller == controller then 1 else 0
  }

  /** The record of a pass says the how manyth of its controller it is. */
  ghost predicate NumberedAt(log: seq<Reconcile>, i: nat)
    requires i < |log|
  {
    !log[i].gated ==> log[i].number == PassesOf(log[..i + 1], log[i].controller)
  }

  /** Every record is numbered, and the next numbers are known. */
  ghost predicate Numbered(log: seq<Reconcile>, numbers: map<string, nat>) {
    && (forall i | 0 <= i < |log| :: NumberedAt(log, i))
    && forall c :: PassesOf(log, c) == if c in numbers then numbers[c] else 0
  }

  lemma {:induction false} NumberedNext(log: seq<Reconcile>, numbers: map<string, nat>, r: Reconcile)
    requires Numbered(log, numbers)
    requires !r.gated ==> r.number == PassesOf(log, r.controller) + 1
    ensures Numbered(log + [r], if r.gated then numbers else numbers[r.controller := r.number])
  {
    var next := log + [r];
    assert next[..|log|] == log && next[..|next|] == next;
    forall i | 0 <= i < |next| ensures NumberedAt(next, i) {
      if i < |log| {
        assert NumberedAt(log, i) && next[..i + 1] == log[..i + 1];
      }
    }
  }

  /** All accepted writes of the controller up to `Settled` are attributed to its passes, each once and in order. */
  ghost predicate AllAttributed(ops: seq<Op>, running: map<string, Running>, log: seq<Reconcile>, controller: string)
    requires WellFormed(ops, running, log)
  {
    Attributed(ops, log, controller) == OpsBetween(ops, 0, Settled(ops, running, controller), controller)
  }

  class Interceptor {
    /** The controllers whose reconcilers are wrapped; they write only inside passes. */
    ghost const wrapped: set<string>

    var ops: seq<Op>
    var log: seq<Reconcile>
    var running: map<string, Running>
    var numbers: map<string, nat>

    constructor (ghost wrapped: set<string>)
      ensures Valid() && this.wrapped == wrapped && ops == [] && log == [] && running == map[]
    {
      this.wrapped, ops, log, running, numbers := wrapped, [], [], map[], map[];
    }

    ghost predicate Valid()
      reads this
    {
      && WellFormed(ops, running, log)
      && (forall c | c in wrapped :: AllAttributed(ops, running, log, c))
      && Disjoint(log, running) && Numbered(log, numbers)
      && (forall c | c in wrapped :: Covered(ops, running, log, c) && Silent(ops, running, c))
    }

    /** An admitted pass starts; a controller runs one at a time. */
    method Start(controller: string, request: ObjectKey)
      requires Valid() && controller !in running
      modifies this`running
      ensures Valid() && running == old(running)[controller := Running(request, |ops|, None)]
    {
      hide Attributed, Numbered;
      running := running[controller := Running(request, |ops|, None)];
    }

    /** A write is recorded, once the API server has answered. */
    method AddKey(op: Op)
      requires Valid() && (op.controller in wrapped ==> op.controller in running && running[op.controller].opTo.None?)
      modifies this`ops
      ensures Valid() && ops == old(ops) + [op]
    {
      hide Numbered, Disjoint;
      forall c | c in wrapped ensures AllAttributed(ops + [op], running, log, c) {
        AttributedGrown(ops, op, log, c);
        OpsBetweenGrown(ops, op, 0, Settled(ops, running, c), c);
      }
      ops := ops + [op];
    }

    /** A pass is over: where the log ends now is where the pass does. Its record is filed a little later. */
    method Stop(controller: string)
      requires Valid() && controller in running && running[controller].opTo.None?
      modifies this`running
      ensures Valid() && running == old(running)[controller := old(running)[controller].(opTo := Some(|ops|))]
    {
      hide Attributed, Numbered;
      running := running[controller := running[controller].(opTo := Some(|ops|))];
    }

    /**
     The record of a stopped pass is filed under the next number of its controller. Others may have
     written since it stopped; it is attributed what lies between its start and its stop.
     */
    method File(controller: string)
      requires Valid() && controller in running && running[controller].opTo.Some?
      modifies this`running, this`log, this`numbers
      ensures Valid() && running == old(running) - {controller}
      ensures var p := old(running)[controller];
              log == old(log) + [Reconcile(controller, p.request, false, p.opFrom, p.opTo.value, PassesOf(old(log), controller) + 1)]
    {
      var n := (if controller in numbers then numbers[controller] else 0) + 1;
      var p := running[controller];
      var r := Reconcile(controller, p.request, false, p.opFrom, p.opTo.value, n);
      NumberedNext(log, numbers, r);
      FileKeeps(ops, running, log, controller, r);
      forall c | c in wrapped
        ensures AllAttributed(ops, running - {controller}, log + [r], c) && Covered(ops, running - {controller}, log + [r], c)
      {
        FileAttributes(ops, running, log, controller, r, c);
        CoveredNext(ops, running, log, controller, r, c);
      }
      hide AllAttributed, Disjoint, Covered, WellFormed;
      numbers := numbers[controller := n];
      log := log + [r];
      running := running - {controller};
    }

    /** The writes a recorded pass produced. */
    method Ops(r: Reconcile) returns (out: seq<Op>)
      requires Valid() && r in log
      ensures out == OpsOf(ops, r, r.controller)
    {
      if r.gated {
        return [];
      }
      out := [];
      for i := r.opFrom to r.opTo
        invariant out == OpsBetween(ops, r.opFrom, i, r.controller)
      {
        if Accepted(r.controller, ops[i]) {
          out := out + [ops[i]];
        }
      }
    }

    /** The recorded pass that produced the write at `at`: with no pass of its controller running, there is exactly one. */
    method ReconcileOf(controller: string, at: nat) returns (r: Option<Reconcile>)
      requires Valid()
      ensures r.Some? ==> r.value in log && Spans(r.value, controller, at)
      ensures r.None? <==> forall i | 0 <= i < |log| :: !Spans(log[i], controller, at)
      ensures controller in wrapped && controller !in running && at < |ops| && ops[at].controller == controller ==> r.Some?
    {
      for i := 0 to |log|
        invariant forall j | 0 <= j < i :: !Spans(log[j], controller, at)
      {
        if Spans(log[i], controller, at) {
          return Some(log[i]);
        }
      }
      r := None;
    }

    /** A refused request is filed too; it stands for no writes. */
    method Refuse(controller: string, request: ObjectKey)
      requires Valid()
      modifies this`log
      ensures Valid() && log == old(log) + [Reconcile(controller, request, true, 0, 0, 0)]
    {
      var r := Reconcile(controller, request, true, 0, 0, 0);
      forall c | c in wrapped ensures AllAttributed(ops, running, log + [r], c) {
        AttributedNext(ops, log, r, c);
      }
      NumberedNext(log, numbers, r);
      hide Numbered;
      log := log + [r];
    }
  }

  predicate Precedes(r: Reconcile, q: Reconcile) {
    !r.gated && !q.gated && r.controller == q.controller ==> r.opTo <= q.opFrom
  }

  /** Passes of one controller do not overlap, and are filed in the order they ran. */
  ghost predicate Disjoint(log: seq<Reconcile>, running: map<string, Running>) {
    && (forall i, j | 0 <= i < j < |log| :: Precedes(log[i], log[j]))
    && forall i | 0 <= i < |log| && !log[i].gated && log[i].controller in running ::
         log[i].opTo <= running[log[i].controller].opFrom
  }

  /** A record fits a pass that has stopped. */
  ghost predicate Records(ops: seq<Op>, running: map<string, Running>, controller: string, r: Reconcile) {
    && controller in running && RunningOk(ops, running[controller])
    && !r.gated && r.controller == controller && r.opFrom == running[controller].opFrom && running[controller].opTo == Some(r.opTo)
  }

  /** Filing a stopped pass keeps the order of the books, */
  lemma {:induction false} FileKeeps(ops: seq<Op>, running: map<string, Running>, log: seq<Reconcile>, controller: string, r: Reconcile)
    requires WellFormed(ops, running, log) && Disjoint(log, running) && Records(ops, running, controller, r)
    ensures WellFormed(ops, running - {controller}, log + [r]) && Disjoint(log + [r], running - {controller})
  {
  }

  /** attributes its writes, there being none of its controller's after it stopped, */
  lemma {:induction false} FileAttributes(ops: seq<Op>, running: map<string, Running>, log: seq<Reconcile>, controller: string,
                                          r: Reconcile, c: string)
    requires WellFormed(ops, running, log) && Records(ops, running, controller, r)
    requires AllAttributed(ops, running, log, c) && Silent(ops, running, c)
    ensures WellFormed(ops, running - {controller}, log + [r]) && AllAttributed(ops, running - {controller}, log + [r], c)
  {
    AttributedNext(ops, log, r, c);
    if c == controller {
      OpsBetweenSplits(ops, 0, r.opFrom, |ops|, c);
      OpsBetweenSplits(ops, r.opFrom, r.opTo, |ops|, c);
      NoneBetween(ops, r.opTo, |ops|, c);
    }
  }

  lemma {:induction false} NoneBetween(ops: seq<Op>, from: nat, end: nat, controller: string)
    requires from <= end <= |ops| && forall at | from <= at < end :: ops[at].controller != controller
    ensures OpsBetween(ops, from, end, controller) == []
    decreases end
  {
    if from < end {
      NoneBetween(ops, from, end - 1, controller);
    }
  }

  /** and covers them. */
  lemma {:induction false} CoveredNext(ops: seq<Op>, running: map<string, Running>, log: seq<Reconcile>,
                                       controller: string, r: Reconcile, c: string)
    requires Covered(ops, running, log, c) && Silent(ops, running, c) && Records(ops, running, controller, r)
    ensures Covered(ops, running - {controller}, log + [r], c)
  {
    var next := log + [r];
    assert next[|log|] == r;
    forall i | 0 <= i < |log| ensures next[i] == log[i] {
    }
  }

  predicate Spans(r: Reconcile, controller: string, at: nat) {
    !r.gated && r.controller == controller && r.opFrom <= at < r.opTo
  }

  /** Every write of the controller lies in one of its passes, recorded or running. */
  ghost predicate Covered(ops: seq<Op>, running: map<string, Running>, log: seq<Reconcile>, controller: string) {
    forall at | 0 <= at < |ops| && ops[at].controller == controller ::
      (controller in running && running[controller].opFrom <= at) || exists i :: 0 <= i < |log| && Spans(log[i], controller, at)
  }

  /**
   With none of its passes running, every write of a wrapped controller lies in exactly one
   recorded pass, and its accepted writes are those of its passes one after the other.
   */
  lemma {:induction false} WritesArePartitioned(ops: seq<Op>, running: map<string, Running>, log: seq<Reconcile>, controller: string)
    requires WellFormed(ops, running, log) && Disjoint(log, running) && controller !in running
    requires AllAttributed(ops, running, log, controller) && Covered(ops, running, log, controller)
    ensures Attributed(ops, log, controller) == OpsBetween(ops, 0, |ops|, controller)
    ensures forall at | 0 <= at < |ops| && ops[at].controller == controller :: ExactlyOne(log, controller, at)
  {
    hide Attributed, OpsBetween, Spans, ExactlyOne, Disjoint;
    forall at | 0 <= at < |ops| && ops[at].controller == controller ensures ExactlyOne(log, controller, at) {
      var i :| 0 <= i < |log| && Spans(log[i], controller, at);
      NoOtherPass(log, running, controller, at, i);
    }
  }

  lemma {:induction false} NoOtherPass(log: seq<Reconcile>, running: map<string, Running>, controller: string, at: nat, i: nat)
    requires Disjoint(log, running) && i < |log| && Spans(log[i], controller, at)
    ensures ExactlyOne(log, controller, at)
  {
    forall j | 0 <= j < |log| && j != i ensures !Spans(log[j], controller, at) {
      assert j < i ==> Precedes(log[j], log[i]);
      assert i < j ==> Precedes(log[i], log[j]);
    }
    assert OnlyPass(log, controller, at, i);
  }

  ghost predicate ExactlyOne(log: seq<Reconcile>, controller: string, at: nat) {
    exists i :: OnlyPass(log, controller, at, i)
  }

  ghost predicate OnlyPass(log: seq<Reconcile>, controller: string, at: nat, i: int) {
    0 <= i < |log| && Spans(log[i], controller, at) && forall j | 0 <= j < |log| && j != i :: !Spans(log[j], controller, at)
  }

  // ----- Which writes are credited how often -----

  /** Where in the log the writes of OpsBetween are. */
  function PlacesBetween(ops: seq<Op>, from: nat, end: nat, controller: string): seq<nat>
    requires from <= end <= |ops|
    decreases end
  {
    if from == end then []
    else
      var rest := PlacesBetween(ops, from, end - 1, controller);
      if Accepted(controller, ops[end - 1]) then rest + [end - 1] else rest
  }

  function PlacesOf(ops: seq<Op>, r: Reconcile, controller: string): seq<nat>
    requires r.opFrom <= r.opTo <= |ops|
  {
    if r.gated || r.controller != controller then [] else PlacesBetween(ops, r.opFrom, r.opTo, controller)
  }

  /** Where the writes attributed to a controller's passes are, pass by pass. */
  function PlacesAttributed(ops: seq<Op>, log: seq<Reconcile>, controller: string): seq<nat>
    requires forall r | r in log :: r.opFrom <= r.opTo <= |ops|
  {
    if |log| == 0 then []
    else
      var r := log[|log| - 1];
      PlacesAttributed(ops, log[..|log| - 1], controller) + PlacesOf(ops, r, controller)
  }

  /** The writes are those at the places. */
  ghost predicate Shows(ops: seq<Op>, places: seq<nat>, out: seq<Op>) {
    |out| == |places| && forall i | 0 <= i < |places| :: places[i] < |ops| && out[i] == ops[places[i]]
  }

  lemma {:induction false} PlacesShow(ops: seq<Op>, from: nat, end: nat, controller: string, at: nat)
    requires from <= end <= |ops|
    ensures Shows(ops, PlacesBetween(ops, from, end, controller), OpsBetween(ops, from, end, controller))
    ensures multiset(PlacesBetween(ops, from, end, controller))[at]
            == if from <= at < end && Accepted(controller, ops[at]) then 1 else 0
    decreases end
  {
    hide Shows, Accepted;
    ShowsNothing(ops);
    if from < end {
      PlacesShow(ops, from, end - 1, controller, at);
      ShowsOne(ops, end - 1);
      ShowsJoined(ops, PlacesBetween(ops, from, end - 1, controller), OpsBetween(ops, from, end - 1, controller),
                  [end - 1], [ops[end - 1]], at);
    }
  }

  lemma {:induction false} ShowsOne(ops: seq<Op>, at: nat)
    requires at < |ops|
    ensures Shows(ops, [at], [ops[at]])
  {
  }

  /** A pass is credited with exactly the writes of its controller between its start and its stop that the API server accepted. */
  lemma {:induction false} PassHolds(ops: seq<Op>, r: Reconcile, controller: string, at: nat)
    requires r.opFrom <= r.opTo <= |ops|
    ensures Shows(ops, PlacesOf(ops, r, controller), OpsOf(ops, r, controller))
    ensures at in PlacesOf(ops, r, controller) <==>
            && !r.gated && r.controller == controller && r.opFrom <= at < r.opTo
            && ops[at].accepted && ops[at].controller == controller
  {
    ShowsNothing(ops);
    PlacesShow(ops, r.opFrom, r.opTo, controller, at);
    Occurs(PlacesOf(ops, r, controller), at);
  }

  /** How many of the passes span the place. */
  function SpannedBy(log: seq<Reconcile>, controller: string, at: nat): nat {
    if |log| == 0 then 0
    else SpannedBy(log[..|log| - 1], controller, at) + if Spans(log[|log| - 1], controller, at) then 1 else 0
  }

  /**
   In any log, overlapping passes and all: what is attributed to a controller's passes are its
   accepted writes, each exactly as often as there are passes that span it.
   */
  lemma {:induction false} CreditedOncePerPass(ops: seq<Op>, log: seq<Reconcile>, controller: string, at: nat)
    requires forall r | r in log :: r.opFrom <= r.opTo <= |ops|
    ensures Shows(ops, PlacesAttributed(ops, log, controller), Attributed(ops, log, controller))
    ensures multiset(PlacesAttributed(ops, log, controller))[at]
            == if at < |ops| && Accepted(controller, ops[at]) then SpannedBy(log, controller, at) else 0
  {
    hide OpsBetween, PlacesBetween, Accepted, Shows;
    if |log| == 0 {
      ShowsNothing(ops);
    } else {
      var r, front := log[|log| - 1], log[..|log| - 1];
      CreditedOncePerPass(ops, front, controller, at);
      ShowsNothing(ops);
      PlacesShow(ops, r.opFrom, r.opTo, controller, at);
      ShowsJoined(ops, PlacesAttributed(ops, front, controller), Attributed(ops, front, controller),
                  PlacesOf(ops, r, controller), OpsOf(ops, r, controller), at);
    }
  }

  lemma {:induction false} ShowsNothing(ops: seq<Op>)
    ensures Shows(ops, [], [])
  {
  }

  lemma {:induction false} ShowsJoined(ops: seq<Op>, p: seq<nat>, a: seq<Op>, q: seq<nat>, b: seq<Op>, at: nat)
    requires Shows(ops, p, a) && Shows(ops, q, b)
    ensures Shows(ops, p + q, a + b) && multiset(p + q)[at] == multiset(p)[at] + multiset(q)[at]
  {
  }

  /** A write is credited to both of two passes of its controller exactly if it was accepted and lies in both stretches. */
  lemma {:induction false} OverlapCreditsTwice(ops: seq<Op>, a: Reconcile, b: Reconcile, at: nat)
    requires !a.gated && !b.gated && a.controller == b.controller
    requires a.opFrom <= a.opTo <= |ops| && b.opFrom <= b.opTo <= |ops|
    ensures Shows(ops, PlacesOf(ops, a, a.controller), OpsOf(ops, a, a.controller))
    ensures at in PlacesOf(ops, a, a.controller) && at in PlacesOf(ops, b, a.controller)
            <==> a.opFrom <= at < a.opTo && b.opFrom <= at < b.opTo && Accepted(a.controller, ops[at])
  {
    PlacesShow(ops, a.opFrom, a.opTo, a.controller, at);
    PlacesShow(ops, b.opFrom, b.opTo, a.controller, at);
    Occurs(PlacesOf(ops, a, a.controller), at);
    Occurs(PlacesOf(ops, b, a.controller), at);
  }

  lemma {:induction false} Occurs<T>(s: seq<T>, x: T)
    ensures x in s <==> multiset(s)[x] > 0
  {
  }
}
