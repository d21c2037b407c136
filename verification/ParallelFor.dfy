/**
 The work-sharing loop (modelcheck/index.go:125-191) as a machine of interleaved atomic
 steps. Workers claim items from a counter, skip those not below the lowest failure so far,
 write results to the slots of their items and record failures under a mutex. Whatever the
 schedule, the failure raised is the lowest-numbered failing item, and without a failure every
 item runs exactly once and every slot holds its item's result.
 */
module ParallelFor {
  import opened Wrappers

  /** Where a worker stands: between items, holding an unchecked claim, inside `fn`, waiting for
      the mutex, holding it with `fail` written, or gone. */
  datatype Worker =
    | Idle
    | Claimed(item: nat)
    | Running(item: nat)
    | Recording(item: nat)
    | Publishing(item: nat)
    | Gone
  {
    predicate Holds(i: nat) { !Idle? && !Gone? && item == i }
  }

  /** `started` counts, per item, how often `fn` was entered; `slots` is where it leaves its result. */
  datatype State<T> = State(next: nat, lowest: nat, fail: Option<nat>, locked: bool, workers: seq<Worker>,
                            started: seq<nat>, slots: seq<Option<T>>)

  /** `n` items; `f` is what `fn` leaves in an item's slot, None if it panics or ends its goroutine. */
  datatype Loop<!T> = Loop(n: nat, f: nat -> Option<T>) {

    predicate Fails(i: nat) { f(i).None? }

    function Start(workers: nat): State<T> {
      State(0, n, None, false, seq(workers, _ => Idle), seq(n, _ => 0), seq(n, _ => None))
    }

    /** Only items below `n` are ever run or recorded. */
    ghost predicate Shaped(s: State<T>) {
      && |s.started| == |s.slots| == n && s.lowest <= n
      && forall w | 0 <= w < |s.workers| ::
           s.workers[w].Running? || s.workers[w].Recording? || s.workers[w].Publishing? ==> s.workers[w].item < n
    }

    /** Whether worker `w` can take a step: only the mutex makes one wait. */
    predicate CanStep(s: State<T>, w: nat) {
      w < |s.workers| && !s.workers[w].Gone? && (s.workers[w].Recording? ==> !s.locked)
    }

    /** The one atomic step worker `w` takes next. */
    function Step(s: State<T>, w: nat): (s': State<T>)
      requires Shaped(s) && CanStep(s, w)
      ensures Shaped(s') && |s'.workers| == |s.workers|
    {
      match s.workers[w]
      case Idle => s.(next := s.next + 1, workers := s.workers[w := Claimed(s.next)])
      case Claimed(i) =>
        if i >= s.lowest then s.(workers := s.workers[w := Gone])
        else s.(workers := s.workers[w := Running(i)], started := s.started[i := s.started[i] + 1])
      case Running(i) =>
        if Fails(i) then s.(workers := s.workers[w := Recording(i)])
        else s.(workers := s.workers[w := Idle], slots := s.slots[i := f(i)])
      case Recording(i) =>
        if s.fail.None? || i < s.fail.value then
          s.(fail := Some(i), locked := true, workers := s.workers[w := Publishing(i)])
        else s.(workers := s.workers[w := Idle])
      case Publishing(i) => s.(lowest := i, locked := false, workers := s.workers[w := Idle])
      case Gone => s
    }

    /** Lets the workers step in the given order; a worker that cannot step is passed over. */
    function Run(s: State<T>, schedule: seq<nat>): (s': State<T>)
      requires Shaped(s)
      ensures Shaped(s') && |s'.workers| == |s.workers|
      decreases |schedule|
    {
      if |schedule| == 0 then s
      else
        var s' := Run(s, schedule[..|schedule| - 1]);
        var w := schedule[|schedule| - 1];
        if CanStep(s', w) then Step(s', w) else s'
    }

    /** Every worker has left. */
    ghost predicate Finished(s: State<T>) {
      forall w | 0 <= w < |s.workers| :: s.workers[w].Gone?
    }

    /** The lowest-numbered failing item below `m`. */
    function LowestFailing(m: nat): (f: Option<nat>)
      ensures f.Some? ==> f.value < m && Fails(f.value)
      ensures forall i: nat | i < (if f.Some? then f.value else m) :: !Fails(i)
    {
      if m == 0 then None
      else
        var f := LowestFailing(m - 1);
        if f.Some? then f else if Fails(m - 1) then Some(m - 1) else None
    }

    // ----- What every step keeps -----

    ghost predicate Held(s: State<T>, i: nat) {
      exists w :: 0 <= w < |s.workers| && s.workers[w].Holds(i)
    }

    /** Claims are handed out once: no two workers hold one item. */
    ghost predicate ClaimsApart(s: State<T>) {
      && (forall w, i: nat | 0 <= w < |s.workers| && s.workers[w].Holds(i) :: i < s.next)
      && (forall v, w, i: nat | 0 <= v < w < |s.workers| && s.workers[v].Holds(i) :: !s.workers[w].Holds(i))
    }

    /** A failure on record is a real one, published once the mutex is free again. */
    ghost predicate FailureOk(s: State<T>) {
      && |s.started| == n
      && (s.fail.Some? ==> s.fail.value < n && Fails(s.fail.value) && s.started[s.fail.value] == 1)
      && (s.lowest < n ==> s.fail.Some? && s.fail.value <= s.lowest)
      && (!s.locked ==> s.lowest == if s.fail.Some? then s.fail.value else n)
      && (s.locked ==> s.fail.Some? && exists w :: 0 <= w < |s.workers| && s.workers[w] == Publishing(s.fail.value))
      && (forall w | 0 <= w < |s.workers| && s.workers[w].Publishing? :: s.locked && s.fail == Some(s.workers[w].item))
    }

    /** A worker past the check has started its item, once; one that records saw it fail. */
    ghost predicate WorkerOk(s: State<T>, worker: Worker)
      requires |s.started| == n
    {
      match worker
      case Claimed(i) => i < n ==> s.started[i] == 0
      case Running(i) => i < n && s.started[i] == 1
      case Recording(i) => i < n && s.started[i] == 1 && Fails(i)
      case Publishing(i) => i < n && s.started[i] == 1 && Fails(i)
      case _ => true
    }

    /** An item claimed and checked was run once, unless a failure at or below it is published. */
    ghost predicate ItemsOk(s: State<T>) {
      && |s.started| == n
      && (forall i | 0 <= i < n :: s.started[i] <= 1)
      && (forall i | s.next <= i < n :: s.started[i] == 0)
      && (forall w | 0 <= w < |s.workers| :: WorkerOk(s, s.workers[w]))
      && (forall i | 0 <= i < n && i < s.next && !Held(s, i) :: s.started[i] == 1 || s.lowest <= i)
    }

    /** A failing item that ran is still on its way to the record, or recorded failures are as low. */
    ghost predicate NoFailureLost(s: State<T>) {
      forall i: nat | i < n && i < |s.started| && s.started[i] == 1 && Fails(i) ::
        Held(s, i) || (s.fail.Some? && s.fail.value <= i)
    }

    /** An item that ran without failing has left its result, unless its worker is still at it. */
    ghost predicate SlotsOk(s: State<T>) {
      forall i: nat | i < n && i < |s.started| && i < |s.slots| && s.started[i] == 1 && !Fails(i) && !Held(s, i) ::
        s.slots[i] == f(i)
    }

    ghost predicate Inv(s: State<T>) {
      && Shaped(s) && ClaimsApart(s) && FailureOk(s) && ItemsOk(s) && NoFailureLost(s) && SlotsOk(s)
      && forall w | 0 <= w < |s.workers| && s.workers[w].Gone? :: s.lowest < s.next
    }

    lemma {:induction false} StartInv(workers: nat)
      ensures Inv(Start(workers))
    {
    }

    lemma {:induction false} StepHeld(s: State<T>, w: nat, i: nat)
      requires Shaped(s) && CanStep(s, w)
      ensures Held(s, i) ==> Held(Step(s, w), i) || s.workers[w].Holds(i)
      ensures Step(s, w).workers[w].Holds(i) ==> Held(Step(s, w), i)
    {
      var s' := Step(s, w);
      if Held(s, i) && !s.workers[w].Holds(i) {
        var v :| 0 <= v < |s.workers| && s.workers[v].Holds(i);
        assert s'.workers[v].Holds(i);
      }
    }

    /** A step leaves the other workers alone, and its own holds what it held or has just claimed. */
    lemma {:induction false} StepHolds(s: State<T>, w: nat, v: nat, i: nat)
      requires Shaped(s) && CanStep(s, w) && v < |s.workers|
      ensures Step(s, w).next == if s.workers[w].Idle? then s.next + 1 else s.next
      ensures v != w ==> Step(s, w).workers[v] == s.workers[v]
      ensures Step(s, w).workers[v].Holds(i) ==> s.workers[v].Holds(i) || (v == w && s.workers[w].Idle? && i == s.next)
    {
    }

    lemma {:induction false} StepClaims(s: State<T>, w: nat)
      requires Shaped(s) && CanStep(s, w) && ClaimsApart(s)
      ensures ClaimsApart(Step(s, w))
    {
      hide Step, Shaped, CanStep;
      var s' := Step(s, w);
      forall v, i: nat | 0 <= v < |s'.workers| && s'.workers[v].Holds(i) ensures i < s'.next {
        StepHolds(s, w, v, i);
      }
      forall u, v, i: nat | 0 <= u < v < |s'.workers| && s'.workers[u].Holds(i) ensures !s'.workers[v].Holds(i) {
        StepHolds(s, w, u, i);
        StepHolds(s, w, v, i);
      }
    }

    lemma {:induction false} StepFailure(s: State<T>, w: nat)
      requires Inv(s) && CanStep(s, w)
      ensures FailureOk(Step(s, w))
      ensures Step(s, w).lowest <= s.lowest
    {
      hide NoFailureLost;
      var s' := Step(s, w);
      assert WorkerOk(s, s.workers[w]);
      if s.workers[w].Publishing? {
        assert s.workers[w].Holds(s.workers[w].item);
        forall v | 0 <= v < |s.workers| && v != w ensures !s.workers[v].Publishing? {
          assert !s.workers[v].Holds(s.workers[w].item);
        }
      } else if s.locked {
        var v :| 0 <= v < |s.workers| && s.workers[v] == Publishing(s.fail.value);
        assert s'.workers[v] == s.workers[v];
      } else if s.workers[w].Recording? && s'.locked {
        assert s'.workers[w] == Publishing(s'.fail.value);
      }
    }

    lemma {:induction false} StepGone(s: State<T>, w: nat)
      requires Inv(s) && CanStep(s, w) && Step(s, w).lowest <= s.lowest
      ensures forall v | 0 <= v < |s.workers| && Step(s, w).workers[v].Gone? :: Step(s, w).lowest < Step(s, w).next
    {
      assert s.workers[w].Claimed? ==> s.workers[w].Holds(s.workers[w].item);
    }

    lemma {:induction false} StepWorkers(s: State<T>, w: nat)
      requires Inv(s) && CanStep(s, w)
      ensures forall v | 0 <= v < |s.workers| :: WorkerOk(Step(s, w), Step(s, w).workers[v])
    {
      hide FailureOk, NoFailureLost;
      var s' := Step(s, w);
      forall v | 0 <= v < |s.workers| ensures WorkerOk(s', s'.workers[v]) {
        assert WorkerOk(s, s.workers[v]) && WorkerOk(s, s.workers[w]);
        if v != w && s.workers[w].Claimed? {
          assert !s.workers[v].Holds(s.workers[w].item) by {
            assert s.workers[w].Holds(s.workers[w].item);
          }
        }
      }
    }

    lemma {:induction false} StepItems(s: State<T>, w: nat)
      requires Inv(s) && CanStep(s, w)
      ensures ItemsOk(Step(s, w))
    {
      hide NoFailureLost, FailureOk;
      var s' := Step(s, w);
      StepWorkers(s, w);
      StepFailure(s, w);
      assert WorkerOk(s, s.workers[w]);
      assert s.workers[w].Claimed? ==> s.workers[w].Holds(s.workers[w].item);
      forall i | 0 <= i < n && i < s'.next && !Held(s', i) ensures s'.started[i] == 1 || s'.lowest <= i {
        StepHeld(s, w, i);
      }
    }

    lemma {:induction false} StepNoFailureLost(s: State<T>, w: nat)
      requires Inv(s) && CanStep(s, w)
      ensures NoFailureLost(Step(s, w))
    {
      hide ClaimsApart;
      var s' := Step(s, w);
      forall i: nat | i < n && i < |s'.started| && s'.started[i] == 1 && Fails(i)
        ensures Held(s', i) || (s'.fail.Some? && s'.fail.value <= i)
      {
        StepHeld(s, w, i);
        assert WorkerOk(s, s.workers[w]);
      }
    }

    lemma {:induction false} StepSlots(s: State<T>, w: nat)
      requires Inv(s) && CanStep(s, w)
      ensures SlotsOk(Step(s, w))
    {
      hide ClaimsApart, FailureOk, NoFailureLost;
      var s' := Step(s, w);
      forall i: nat | i < n && i < |s'.started| && s'.started[i] == 1 && !Fails(i) && !Held(s', i)
        ensures s'.slots[i] == f(i)
      {
        StepHeld(s, w, i);
        assert WorkerOk(s, s.workers[w]);
      }
    }

    lemma {:induction false} StepInv(s: State<T>, w: nat)
      requires Inv(s) && CanStep(s, w)
      ensures Inv(Step(s, w))
    {
      hide ClaimsApart, FailureOk, ItemsOk, NoFailureLost, SlotsOk;
      StepClaims(s, w);
      StepFailure(s, w);
      StepGone(s, w);
      StepItems(s, w);
      StepNoFailureLost(s, w);
      StepSlots(s, w);
    }

    lemma {:induction false} RunInv(s: State<T>, schedule: seq<nat>)
      requires Inv(s)
      ensures Inv(Run(s, schedule))
      decreases |schedule|
    {
      hide ClaimsApart, FailureOk, ItemsOk, NoFailureLost, SlotsOk, Step;
      if |schedule| > 0 {
        RunInv(s, schedule[..|schedule| - 1]);
        var s' := Run(s, schedule[..|schedule| - 1]);
        if CanStep(s', schedule[|schedule| - 1]) {
          StepInv(s', schedule[|schedule| - 1]);
        }
      }
    }

    // ----- Main results -----

    /** At most one entry into `fn` per item, at every moment of every schedule. */
    lemma {:induction false} NeverTwice(workers: nat, schedule: seq<nat>, i: nat)
      requires i < n
      ensures Run(Start(workers), schedule).started[i] <= 1
    {
      StartInv(workers);
      RunInv(Start(workers), schedule);
    }

    /**
     When all workers have left, the failure on record is the lowest-numbered failing item of
     all, whatever the schedule, and every item below it ran exactly once and left its result:
     all items, when none fails.
     */
    lemma {:induction false} OutcomeIsSequential(workers: nat, schedule: seq<nat>)
      requires 0 < workers && Finished(Run(Start(workers), schedule))
      ensures var s := Run(Start(workers), schedule);
              && s.fail == LowestFailing(n)
              && (forall i | 0 <= i < n && (s.fail.None? || i <= s.fail.value) :: s.started[i] == 1)
              && (forall i | 0 <= i < n && (s.fail.None? || i < s.fail.value) :: s.slots[i] == f(i))
    {
      StartInv(workers);
      RunInv(Start(workers), schedule);
      FinishedOutcome(Run(Start(workers), schedule));
    }

    lemma {:induction false} FinishedOutcome(s: State<T>)
      requires Inv(s) && Finished(s) && 0 < |s.workers|
      ensures s.fail == LowestFailing(n)
      ensures forall i | 0 <= i < n && (s.fail.None? || i <= s.fail.value) :: s.started[i] == 1
      ensures forall i | 0 <= i < n && (s.fail.None? || i < s.fail.value) :: s.slots[i] == f(i)
    {
      assert s.workers[0].Gone?;
      assert forall i: nat :: !Held(s, i);
      assert !s.locked;
      forall i | 0 <= i < n && i < s.lowest ensures s.started[i] == 1 && !Fails(i) {
        assert !Held(s, i);
      }
    }

    // ----- Every schedule ends -----

    /** Some worker can always step until all have left: nothing waits for a lock no one holds. */
    lemma {:induction false} NoDeadlock(workers: nat, schedule: seq<nat>) returns (w: nat)
      requires !Finished(Run(Start(workers), schedule))
      ensures CanStep(Run(Start(workers), schedule), w)
    {
      StartInv(workers);
      RunInv(Start(workers), schedule);
      w := SomeoneCan(Run(Start(workers), schedule));
    }

    lemma {:induction false} SomeoneCan(s: State<T>) returns (w: nat)
      requires Inv(s) && !Finished(s)
      ensures CanStep(s, w)
    {
      if s.locked {
        w :| 0 <= w < |s.workers| && s.workers[w] == Publishing(s.fail.value);
      } else {
        w :| 0 <= w < |s.workers| && !s.workers[w].Gone?;
      }
    }

    /** How many steps a worker still has with the item it holds, at most. */
    function Stage(worker: Worker): nat {
      match worker
      case Claimed(_) => 5
      case Running(_) => 4
      case Recording(_) => 3
      case Publishing(_) => 2
      case _ => 0
    }

    /** A worker that will claim no item below `n` any more. */
    function Past(worker: Worker): nat {
      if worker.Gone? || (worker.Claimed? && worker.item >= n) then 1 else 0
    }

    function Total(workers: seq<Worker>, weight: Worker -> nat): nat {
      if |workers| == 0 then 0
      else Total(workers[..|workers| - 1], weight) + weight(workers[|workers| - 1])
    }

    lemma {:induction false} TotalUpdate(workers: seq<Worker>, weight: Worker -> nat, w: nat, worker: Worker)
      requires w < |workers|
      ensures Total(workers[w := worker], weight) + weight(workers[w]) == Total(workers, weight) + weight(worker)
      decreases |workers|
    {
      var last := |workers| - 1;
      if w < last {
        assert workers[w := worker][..last] == workers[..last][w := worker];
        TotalUpdate(workers[..last], weight, w, worker);
      } else {
        assert workers[w := worker][..last] == workers[..last];
      }
    }

    lemma {:induction false} TotalAtMost(workers: seq<Worker>)
      ensures Total(workers, Past) <= |workers|
      decreases |workers|
    {
      if |workers| > 0 {
        TotalAtMost(workers[..|workers| - 1]);
      }
    }

    /** The steps left, at most. */
    ghost function Work(s: State<T>): int {
      6 * (n + |s.workers| - s.next) + Total(s.workers, Stage)
    }

    ghost predicate ClaimsBounded(s: State<T>) {
      s.next <= n + Total(s.workers, Past)
    }

    /** Every step uses up some of the work. */
    lemma {:induction false} StepShrinks(s: State<T>, w: nat)
      requires Shaped(s) && CanStep(s, w) && ClaimsBounded(s)
      ensures ClaimsBounded(Step(s, w)) && 0 <= Work(Step(s, w)) < Work(s)
    {
      var s' := Step(s, w);
      TotalUpdate(s.workers, Stage, w, s'.workers[w]);
      TotalUpdate(s.workers, Past, w, s'.workers[w]);
      TotalAtMost(s'.workers);
    }

    /** How many entries of the schedule let a worker step. */
    function StepsTaken(s: State<T>, schedule: seq<nat>): nat
      requires Shaped(s)
    {
      if |schedule| == 0 then 0
      else
        var before := schedule[..|schedule| - 1];
        StepsTaken(s, before) + if CanStep(Run(s, before), schedule[|schedule| - 1]) then 1 else 0
    }

    lemma {:induction false} StepsUseWork(s: State<T>, schedule: seq<nat>)
      requires Shaped(s) && ClaimsBounded(s) && 0 <= Work(s)
      ensures ClaimsBounded(Run(s, schedule)) && 0 <= Work(Run(s, schedule))
      ensures StepsTaken(s, schedule) + Work(Run(s, schedule)) <= Work(s)
      decreases |schedule|
    {
      hide Step, CanStep, Work, ClaimsBounded;
      if |schedule| > 0 {
        var before, w := schedule[..|schedule| - 1], schedule[|schedule| - 1];
        StepsUseWork(s, before);
        if CanStep(Run(s, before), w) {
          StepShrinks(Run(s, before), w);
        }
      }
    }

    lemma {:induction false} TotalIdle(count: nat, weight: Worker -> nat)
      requires weight(Idle) == 0
      ensures Total(seq(count, _ => Idle), weight) == 0
      decreases count
    {
      if count > 0 {
        assert seq(count, _ => Idle)[..count - 1] == seq(count - 1, _ => Idle);
        TotalIdle(count - 1, weight);
      }
    }

    lemma {:induction false} StartWork(workers: nat)
      ensures ClaimsBounded(Start(workers)) && Work(Start(workers)) == 6 * (n + workers)
    {
      TotalIdle(workers, Stage);
    }

    /** No schedule, however long, lets the workers step more than 6(n + workers) times. */
    lemma {:induction false} SchedulesEnd(workers: nat, schedule: seq<nat>)
      ensures StepsTaken(Start(workers), schedule) <= 6 * (n + workers)
    {
      StartWork(workers);
      StepsUseWork(Start(workers), schedule);
    }
  }

  /** The first worker that can step. */
  method FirstAble<T>(loop: Loop<T>, s: State<T>) returns (w: nat)
    requires loop.Inv(s) && !loop.Finished(s)
    ensures loop.CanStep(s, w)
  {
    ghost var able := loop.SomeoneCan(s);
    w := 0;
    while !loop.CanStep(s, w)
      invariant forall v: nat | v < w :: !loop.CanStep(s, v)
      decreases able - w
    {
      w := w + 1;
    }
  }

  method AllGone(workers: seq<Worker>) returns (gone: bool)
    ensures gone <==> forall w | 0 <= w < |workers| :: workers[w].Gone?
  {
    for w := 0 to |workers|
      invariant forall v | 0 <= v < w :: workers[v].Gone?
    {
      if !workers[w].Gone? {
        return false;
      }
    }
    gone := true;
  }

  /**
   Runs the loop with the given number of workers. `pick` chooses who steps next, so it stands
   for any scheduling; a worker that has left or waits for the mutex is not chosen.
   */
  method Fork<T>(workers: nat, n: nat, f: nat -> Option<T>, pick: nat -> nat) returns (slots: seq<Option<T>>, fail: Option<nat>)
    requires 0 < workers
    ensures |slots| == n && fail == Loop(n, f).LowestFailing(n)
    ensures forall i | 0 <= i < n && (fail.None? || i < fail.value) :: slots[i] == f(i)
  {
    var loop := Loop(n, f);
    var s := loop.Start(workers);
    loop.StartInv(workers);
    loop.StartWork(workers);
    var time := 0;
    while true
      invariant loop.Inv(s) && |s.workers| == workers
      invariant loop.ClaimsBounded(s) && 0 <= loop.Work(s)
      decreases loop.Work(s)
    {
      var gone := AllGone(s.workers);
      if gone {
        break;
      }
      var w := pick(time);
      time := time + 1;
      if !loop.CanStep(s, w) {
        w := FirstAble(loop, s);
      }
      loop.StepInv(s, w);
      loop.StepShrinks(s, w);
      s := loop.Step(s, w);
    }
    loop.FinishedOutcome(s);
    return s.slots, s.fail;
  }
}
