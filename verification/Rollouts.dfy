/**
 In which order a StatefulSet's pods are replaced and scaled away, said of the stores before and
 after a sweep (ctrltest/statefulset_sim.go:94-200).
 */
module Rollouts {
  import opened Wrappers
  import opened PodOrder
  import opened PodStore
  import opened StatefulSets

  /** The pod has been deleted since: it is gone, or now going. */
  ghost predicate Removed(p: Pod, u: Pods) {
    p.name !in u || (u[p.name].terminating && !p.terminating)
  }

  /** Some ready pod of the set sits at `k`. */
  ghost predicate ReadyAt(ss: StatefulSet, s: Pods, k: nat) {
    exists q :: SitsAt(ss, s, q, k) && q.ready
  }

  /** Some pod of the set at the update revision sits at `k`. */
  ghost predicate UpdatedAt(ss: StatefulSet, s: Pods, k: nat) {
    exists q :: SitsAt(ss, s, q, k) && q.revision == ss.revision
  }

  /** Some pod of the set on its way out sits at `k`. */
  ghost predicate LeavingAt(ss: StatefulSet, s: Pods, k: nat) {
    exists q :: SitsAt(ss, s, q, k) && q.terminating
  }

  /**
   A wanted pod may go only to be replaced by an update, from the top: it is at or above the partition
   and at another revision, every wanted ordinal has a ready pod, every higher one has an updated pod,
   and whatever is no longer wanted is on its way out.
   */
  ghost predicate MayRoll(ss: StatefulSet, s: Pods, p: Pod, k: nat) {
    && !ss.onDelete && ss.partition <= k && p.revision != ss.revision
    && (forall j: nat | j < Want(ss) :: ReadyAt(ss, s, j))
    && (forall j: nat | k < j < Want(ss) :: UpdatedAt(ss, s, j))
    && forall q, j: nat | SitsAt(ss, s, q, j) && j >= Want(ss) :: LeavingAt(ss, s, j)
  }

  /** Only pods that may be replaced are, and no other pod goes with one. */
  ghost predicate RolledInOrder(ss: StatefulSet, s: Pods, u: Pods) {
    forall p, k: nat | SitsAt(ss, s, p, k) && k < Want(ss) && Removed(p, u) :: MayRoll(ss, s, p, k) && OnlyOneRemoved(s, u, p)
  }

  ghost predicate OnlyOneRemoved(s: Pods, u: Pods, p: Pod) {
    forall n | n in s && Removed(s[n], u) :: n == p.name
  }

  /** Unless management is parallel, an unwanted pod goes alone, and only once all at higher ordinals are on their way out. */
  ghost predicate ScaledInOrder(ss: StatefulSet, s: Pods, u: Pods) {
    !ss.parallel ==>
      forall p, k: nat | SitsAt(ss, s, p, k) && k >= Want(ss) && Removed(p, u) ::
        && OnlyOneRemoved(s, u, p)
        && forall q, j: nat | SitsAt(ss, s, q, j) && j > k :: LeavingAt(ss, s, j)
  }

  // ----- One step -----

  lemma {:induction false} RemovedAt(idx: Index, s: Pods, ks: set<nat>, n: string)
    requires n in s && s[n].name == n
    ensures Removed(s[n], Deleted(s, PodsAt(idx, ks))) ==> exists k :: k in idx && idx[k].name == n && k in ks
  {
    DeletedAt(idx, s, ks, n);
  }

  lemma {:induction false} IndexedAt(ss: StatefulSet, s: Pods, idx: Index, k: nat)
    requires IsIndex(ss, s, idx) && k in idx
    ensures SitsAt(ss, s, idx[k], k)
  {
  }

  /** Whatever is not wanted and sits in the index without being among the active is on its way out. */
  lemma {:induction false} OthersLeaving(ss: StatefulSet, s: Pods, idx: Index, q: Pod, j: nat)
    requires IsIndex(ss, s, idx) && SitsAt(ss, s, q, j) && j >= Want(ss) && j !in Extras(ss, idx)
    ensures LeavingAt(ss, s, j)
  {
    assert j in idx && SitsAt(ss, s, idx[j], j);
  }

  lemma {:induction false} GreatestStaleMayRoll(ss: StatefulSet, s: Pods, idx: Index, k: nat)
    requires IsIndex(ss, s, idx) && IsGreatest(Stale(ss, idx), k) && AllReady(ss, idx) && !ss.onDelete
    requires Extras(ss, idx) == {} && !Creating(ss, idx)
    ensures MayRoll(ss, s, idx[k], k)
  {
    forall j: nat | j < Want(ss) ensures j in idx && ReadyAt(ss, s, j) && (k < j ==> UpdatedAt(ss, s, j)) {
      assert j in Before(Want(ss));
      assert j !in (if ss.parallel then Missing(ss, idx) else Blocked(ss, idx));
      IndexedAt(ss, s, idx, j);
      assert k < j ==> j !in Stale(ss, idx);
    }
    forall q, j: nat | SitsAt(ss, s, q, j) && j >= Want(ss) ensures LeavingAt(ss, s, j) {
      OthersLeaving(ss, s, idx, q, j);
    }
  }

  /** Deleting one indexed pod removes no other. */
  lemma {:induction false} OneDeleted(ss: StatefulSet, s: Pods, idx: Index, k: nat, n: string)
    requires Keyed(s) && k in idx && n in s && Removed(s[n], Deleted(s, PodsAt(idx, {k})))
    ensures n == idx[k].name
  {
    RemovedAt(idx, s, {k}, n);
  }

  lemma {:induction false} StepRollsInOrder(ss: StatefulSet, s: Pods, idx: Index, t: Pods, born: set<string>)
    requires Keyed(s) && IsIndex(ss, s, idx) && Step(ss, idx, s, t, born)
    ensures RolledInOrder(ss, s, t) && ScaledInOrder(ss, s, t)
  {
    hide IsIndex, MayRoll, Deleted, Extras, Stale, AllReady, Creating, Create, SitsAt, Removed, Keyed, LeavingAt;
    forall p, k: nat | SitsAt(ss, s, p, k) && Removed(p, t)
      ensures k < Want(ss) ==> MayRoll(ss, s, p, k) && OnlyOneRemoved(s, t, p)
      ensures k >= Want(ss) && !ss.parallel ==>
                OnlyOneRemoved(s, t, p) && forall q, j: nat | SitsAt(ss, s, q, j) && j > k :: LeavingAt(ss, s, j)
    {
      RemovedByStep(ss, s, idx, t, born, p, k);
    }
  }

  lemma {:induction false} RemovedByStep(ss: StatefulSet, s: Pods, idx: Index, t: Pods, born: set<string>, p: Pod, k: nat)
    requires Keyed(s) && IsIndex(ss, s, idx) && Step(ss, idx, s, t, born) && SitsAt(ss, s, p, k) && Removed(p, t)
    ensures k < Want(ss) ==> MayRoll(ss, s, p, k) && OnlyOneRemoved(s, t, p)
    ensures k >= Want(ss) && !ss.parallel ==>
              OnlyOneRemoved(s, t, p) && forall q, j: nat | SitsAt(ss, s, q, j) && j > k :: LeavingAt(ss, s, j)
  {
    hide IsIndex, MayRoll, Deleted, AllReady, LeavingAt;
    if Extras(ss, idx) != {} {
      if ss.parallel {
        RemovedAt(idx, s, Extras(ss, idx), p.name);
        var j :| j in idx && idx[j].name == p.name && j in Extras(ss, idx);
        IndexNames(ss, s, idx, p, k, j);
      } else {
        var g :| IsGreatest(Extras(ss, idx), g) && t == Deleted(s, PodsAt(idx, {g}));
        OnlyRemoved(ss, s, idx, t, g, p, k);
        forall q, j: nat | SitsAt(ss, s, q, j) && j > k ensures LeavingAt(ss, s, j) {
          OthersLeaving(ss, s, idx, q, j);
        }
      }
    } else if Creating(ss, idx) {
      NotRemovedByCreation(ss, s, idx, t, born, p);
    } else if t != s {
      var g :| IsGreatest(Stale(ss, idx), g) && t == Deleted(s, PodsAt(idx, {g}));
      OnlyRemoved(ss, s, idx, t, g, p, k);
      GreatestStaleMayRoll(ss, s, idx, g);
    }
  }

  lemma {:induction false} OnlyRemoved(ss: StatefulSet, s: Pods, idx: Index, t: Pods, g: nat, p: Pod, k: nat)
    requires Keyed(s) && IsIndex(ss, s, idx) && g in idx && t == Deleted(s, PodsAt(idx, {g}))
    requires SitsAt(ss, s, p, k) && Removed(p, t)
    ensures g == k && idx[g] == p && OnlyOneRemoved(s, t, p)
  {
    hide IsIndex, Deleted, Removed;
    OneDeleted(ss, s, idx, g, p.name);
    IndexNames(ss, s, idx, p, k, g);
    forall n | n in s && Removed(s[n], t) ensures n == p.name {
      OneDeleted(ss, s, idx, g, n);
    }
  }

  lemma {:induction false} NotRemovedByCreation(ss: StatefulSet, s: Pods, idx: Index, t: Pods, born: set<string>, p: Pod)
    requires Create(ss, idx, s, t, born) && p.name in s && s[p.name] == p
    ensures !Removed(p, t)
  {
  }

  /**
   When management is parallel, all that is too much goes at once, and, when nothing is, all that is
   missing comes at once, but for pods whose names are taken.
   */
  ghost predicate ActsAtOnce(ss: StatefulSet, s: Pods, u: Pods) {
    ss.parallel ==>
      && (forall q, j: nat | SitsAt(ss, s, q, j) && j >= Want(ss) :: LeavingSince(ss, s, u, j))
      && ((forall q, j: nat | SitsAt(ss, s, q, j) && j >= Want(ss) :: LeavingThroughout(ss, s, j)) ==>
            forall k: nat | k < Want(ss) && Vacant(ss, s, k) :: PodName(ss, k) in u)
  }

  /** Some pod at `j` was on its way out or has been deleted since. */
  ghost predicate LeavingSince(ss: StatefulSet, s: Pods, u: Pods, j: nat) {
    exists q :: SitsAt(ss, s, q, j) && (q.terminating || Removed(q, u))
  }

  /** All pods at `j` are on their way out. */
  ghost predicate LeavingThroughout(ss: StatefulSet, s: Pods, j: nat) {
    forall q | SitsAt(ss, s, q, j) :: q.terminating
  }

  ghost predicate Vacant(ss: StatefulSet, s: Pods, k: nat) {
    forall p :: !SitsAt(ss, s, p, k)
  }

  lemma {:induction false} ScalesDownAtOnce(ss: StatefulSet, s: Pods, idx: Index, t: Pods, born: set<string>, q: Pod, j: nat)
    requires IsIndex(ss, s, idx) && Step(ss, idx, s, t, born) && ss.parallel
    requires SitsAt(ss, s, q, j) && j >= Want(ss)
    ensures LeavingSince(ss, s, t, j)
  {
    hide Created;
    var p := idx[j];
    assert SitsAt(ss, s, p, j);
    if !p.terminating {
      assert j in Extras(ss, idx);
      assert p.name in PodsAt(idx, Extras(ss, idx));
      assert Removed(p, t);
    }
  }

  lemma {:induction false} VacantIsMissing(ss: StatefulSet, s: Pods, idx: Index, k: nat)
    requires IsIndex(ss, s, idx) && Vacant(ss, s, k)
    ensures k !in idx
  {
    hide SitsAt;
  }

  lemma {:induction false} ScalesUpAtOnce(ss: StatefulSet, s: Pods, idx: Index, t: Pods, born: set<string>, k: nat)
    requires IsIndex(ss, s, idx) && Step(ss, idx, s, t, born) && ss.parallel
    requires forall q, j: nat | SitsAt(ss, s, q, j) && j >= Want(ss) :: LeavingThroughout(ss, s, j)
    requires k < Want(ss) && Vacant(ss, s, k)
    ensures PodName(ss, k) in t
  {
    hide PodName, NewPod, Vacant;
    forall j | j in idx && j >= Want(ss) ensures idx[j].terminating {
      assert SitsAt(ss, s, idx[j], j);
    }
    assert Extras(ss, idx) == {};
    VacantIsMissing(ss, s, idx, k);
    assert k in Missing(ss, idx);
  }

  lemma {:induction false} StepActsAtOnce(ss: StatefulSet, s: Pods, idx: Index, t: Pods, born: set<string>)
    requires IsIndex(ss, s, idx) && Step(ss, idx, s, t, born)
    ensures ActsAtOnce(ss, s, t)
  {
    hide IsIndex, Step, SitsAt, LeavingSince, LeavingThroughout, Vacant;
    if ss.parallel {
      forall q, j: nat | SitsAt(ss, s, q, j) && j >= Want(ss) ensures LeavingSince(ss, s, t, j) {
        ScalesDownAtOnce(ss, s, idx, t, born, q, j);
      }
      if forall q, j: nat | SitsAt(ss, s, q, j) && j >= Want(ss) :: LeavingThroughout(ss, s, j) {
        forall k: nat | k < Want(ss) && Vacant(ss, s, k) ensures PodName(ss, k) in t {
          ScalesUpAtOnce(ss, s, idx, t, born, k);
        }
      }
    }
  }

  // ----- A sweep -----

  lemma {:induction false} TickRemovesNothing(s: Pods, t: Pods, born: set<string>, healthy: Pod -> bool)
    ensures forall p :: Removed(p, Ticked(t, born, healthy)) <==> Removed(p, t)
    ensures Ticked(t, born, healthy).Keys == t.Keys
  {
  }

  /** A sweep of the set: one step, then the pods' status. */
  lemma {:induction false} SweepRollsInOrder(ss: StatefulSet, s: Pods, idx: Index, t: Pods, born: set<string>, healthy: Pod -> bool)
    requires Keyed(s) && IsIndex(ss, s, idx) && Step(ss, idx, s, t, born)
    ensures RolledInOrder(ss, s, Ticked(t, born, healthy)) && ScaledInOrder(ss, s, Ticked(t, born, healthy))
    ensures ActsAtOnce(ss, s, Ticked(t, born, healthy))
  {
    hide IsIndex, Step, Ticked, Removed, MayRoll, SitsAt, LeavingAt, PodName, LeavingThroughout, Vacant;
    StepRollsInOrder(ss, s, idx, t, born);
    StepActsAtOnce(ss, s, idx, t, born);
    TickRemovesNothing(s, t, born, healthy);
  }

  // ----- A rollout over whole runs -----

  /**
   The rollout has come down to ordinal `m`: all pods from there on are at the update revision, and each
   ordinal below, as far as the partition, still has its pods, none of them at that revision.
   */
  ghost predicate RolledDownTo(ss: StatefulSet, s: Pods, m: nat) {
    && m <= Want(ss)
    && (forall p, k: nat | SitsAt(ss, s, p, k) && m <= k < Want(ss) :: p.revision == ss.revision)
    && forall k: nat | ss.partition <= k < m :: OnlyOldAt(ss, s, k)
  }

  ghost predicate OnlyOldAt(ss: StatefulSet, s: Pods, k: nat) {
    && (exists p :: SitsAt(ss, s, p, k))
    && forall p | SitsAt(ss, s, p, k) :: p.revision != ss.revision
  }

  /** Every pod after a sweep was there before, at the same revision, or is a new one at an ordinal that had none. */
  ghost predicate Comes(ss: StatefulSet, s: Pods, p: Pod, k: nat) {
    || (p.revision == ss.revision && Vacant(ss, s, k))
    || (p.name in s && SitsAt(ss, s, s[p.name], k) && s[p.name].revision == p.revision)
  }

  lemma {:induction false} SweptPodComes(ss: StatefulSet, s: Pods, idx: Index, t: Pods, born: set<string>, healthy: Pod -> bool,
                                         p: Pod, k: nat)
    requires Keyed(s) && IsIndex(ss, s, idx) && Step(ss, idx, s, t, born) && SitsAt(ss, Ticked(t, born, healthy), p, k)
    ensures Comes(ss, s, p, k)
  {
    hide IsIndex, Step, Created, PodName;
    if p.name in s {
      StepKeepsPod(ss, s, idx, t, born, p.name);
    } else {
      SteppedIn(ss, s, idx, t, born, p.name);
      var j :| j !in idx && p.name == PodName(ss, j) && t[p.name] == NewPod(ss, j);
      OrdinalRoundTrip(ss, j);
      NobodySits(ss, s, idx, j);
    }
  }

  lemma {:induction false} NobodySits(ss: StatefulSet, s: Pods, idx: Index, k: nat)
    requires IsIndex(ss, s, idx) && k !in idx
    ensures Vacant(ss, s, k)
  {
    hide SitsAt;
  }

  /** A pod that was not there is new, at an ordinal missing from the index. */
  lemma {:induction false} SteppedIn(ss: StatefulSet, s: Pods, idx: Index, t: Pods, born: set<string>, n: string)
    requires Step(ss, idx, s, t, born) && n in t && n !in s
    ensures exists j: nat :: j !in idx && n == PodName(ss, j) && t[n] == NewPod(ss, j)
  {
    hide Extras, Stale, AllReady, Blocked, Created, Deleted, PodsAt, NewPod, PodName;
    if Extras(ss, idx) != {} {
      if ss.parallel {
        DeletedShrinks(s, PodsAt(idx, Extras(ss, idx)));
      } else {
        var k :| IsGreatest(Extras(ss, idx), k) && t == Deleted(s, PodsAt(idx, {k}));
        DeletedShrinks(s, PodsAt(idx, {k}));
      }
    } else if Creating(ss, idx) {
      if ss.parallel {
        var j := CreatedAt(ss, s, Missing(ss, idx), t, born, n);
      } else {
        var k :| IsLeast(Blocked(ss, idx), k) && Created(ss, s, if k in idx then {} else {k}, t, born);
        var j := CreatedAt(ss, s, if k in idx then {} else {k}, t, born, n);
      }
    } else if t != s {
      var k :| IsGreatest(Stale(ss, idx), k) && t == Deleted(s, PodsAt(idx, {k}));
      DeletedShrinks(s, PodsAt(idx, {k}));
    }
  }

  lemma {:induction false} DeletedShrinks(s: Pods, gone: set<string>)
    ensures Deleted(s, gone).Keys <= s.Keys
  {
  }

  lemma {:induction false} CreatedAt(ss: StatefulSet, s: Pods, ks: set<nat>, t: Pods, born: set<string>, n: string) returns (j: nat)
    requires Created(ss, s, ks, t, born) && n in t && n !in s
    ensures j in ks && n == PodName(ss, j) && t[n] == NewPod(ss, j)
  {
    hide PodName;
    j :| j in ks && PodName(ss, j) == n;
  }

  /** A pod that was there and was not removed still sits at its ordinal, at its revision. */
  ghost predicate Stays(ss: StatefulSet, u: Pods, p: Pod, k: nat) {
    p.name in u && SitsAt(ss, u, u[p.name], k) && u[p.name].revision == p.revision
  }

  lemma {:induction false} SweptPodStays(ss: StatefulSet, s: Pods, idx: Index, t: Pods, born: set<string>, healthy: Pod -> bool,
                                         p: Pod, k: nat)
    requires Step(ss, idx, s, t, born) && SitsAt(ss, s, p, k) && p.name in Ticked(t, born, healthy)
    ensures Stays(ss, Ticked(t, born, healthy), p, k)
  {
    hide Step;
    StepKeepsPod(ss, s, idx, t, born, p.name);
  }

  /** A sweep leaves the rollout where it is or takes it one ordinal further down. */
  lemma {:induction false} SweepRollsDown(ss: StatefulSet, s: Pods, idx: Index, t: Pods, born: set<string>, healthy: Pod -> bool, m: nat)
    requires Keyed(s) && IsIndex(ss, s, idx) && Step(ss, idx, s, t, born) && RolledDownTo(ss, s, m)
    ensures var u := Ticked(t, born, healthy);
            RolledDownTo(ss, u, m) || (m > 0 && RolledDownTo(ss, u, m - 1))
  {
    hide IsIndex, Step, Ticked, SitsAt, Comes, Stays;
    var u := Ticked(t, born, healthy);
    forall p, k: nat | SitsAt(ss, u, p, k) ensures Comes(ss, s, p, k) {
      SweptPodComes(ss, s, idx, t, born, healthy, p, k);
    }
    forall p, k: nat | SitsAt(ss, s, p, k) && p.name in u ensures Stays(ss, u, p, k) {
      SweptPodStays(ss, s, idx, t, born, healthy, p, k);
    }
    SweepRollsInOrder(ss, s, idx, t, born, healthy);
    RollsDown(ss, s, u, m);
  }

  /** All about the stores before and after: what comes, what stays and in which order pods go. */
  lemma {:induction false} RollsDown(ss: StatefulSet, s: Pods, u: Pods, m: nat)
    requires RolledDownTo(ss, s, m) && RolledInOrder(ss, s, u)
    requires forall p, k: nat | SitsAt(ss, u, p, k) :: Comes(ss, s, p, k)
    requires forall p, k: nat | SitsAt(ss, s, p, k) && p.name in u :: Stays(ss, u, p, k)
    ensures RolledDownTo(ss, u, m) || (m > 0 && RolledDownTo(ss, u, m - 1))
  {
    hide Removed, SitsAt;
    forall p, k: nat | SitsAt(ss, u, p, k) && m <= k < Want(ss) ensures p.revision == ss.revision {
      assert Comes(ss, s, p, k);
    }
    forall k: nat | ss.partition <= k < m ensures if Vacant(ss, u, k) then k == m - 1 else OnlyOldAt(ss, u, k) {
      if Vacant(ss, u, k) {
        Vacated(ss, s, u, m, k);
      } else {
        assert OnlyOldAt(ss, s, k);
        forall p | SitsAt(ss, u, p, k) ensures p.revision != ss.revision {
          assert Comes(ss, s, p, k);
        }
      }
    }
    if m > ss.partition && Vacant(ss, u, m - 1) {
      assert RolledDownTo(ss, u, m - 1);
    } else {
      assert RolledDownTo(ss, u, m);
    }
  }

  /** The ordinal a sweep empties is the one the rollout comes down to next. */
  lemma {:induction false} Vacated(ss: StatefulSet, s: Pods, u: Pods, m: nat, k: nat)
    requires RolledDownTo(ss, s, m) && RolledInOrder(ss, s, u) && ss.partition <= k < m
    requires forall p, k: nat | SitsAt(ss, s, p, k) && p.name in u :: Stays(ss, u, p, k)
    requires Vacant(ss, u, k)
    ensures k == m - 1
  {
    hide SitsAt, OnlyOneRemoved;
    assert OnlyOldAt(ss, s, k);
    var p :| SitsAt(ss, s, p, k);
    assert Stays(ss, u, p, k) ==> !Vacant(ss, u, k);
    assert MayRoll(ss, s, p, k);
    assert k + 1 < m ==> OnlyOldAt(ss, s, k + 1);
    assert k + 1 < Want(ss) ==> UpdatedAt(ss, s, k + 1);
  }

  /** Every point the rollout had come down to by then, it has passed or reached since. */
  ghost predicate RollsOn(ss: StatefulSet, s: Pods, u: Pods) {
    forall m: nat | RolledDownTo(ss, s, m) :: PastIn(ss, u, m)
  }

  ghost predicate PastIn(ss: StatefulSet, u: Pods, m: nat) {
    exists n: nat :: n <= m && RolledDownTo(ss, u, n)
  }

  lemma {:induction false} RollsOnAtFirst(ss: StatefulSet, s: Pods)
    ensures RollsOn(ss, s, s)
  {
    hide RolledDownTo;
    forall m: nat | RolledDownTo(ss, s, m) ensures PastIn(ss, s, m) {
      assert m <= m;
    }
  }

  lemma {:induction false} SweepRollsOn(ss: StatefulSet, s0: Pods, s: Pods, idx: Index, t: Pods, born: set<string>, healthy: Pod -> bool)
    requires Keyed(s) && IsIndex(ss, s, idx) && Step(ss, idx, s, t, born) && RollsOn(ss, s0, s)
    ensures RollsOn(ss, s0, Ticked(t, born, healthy))
  {
    hide IsIndex, Step, Ticked, RolledDownTo;
    forall m: nat | RolledDownTo(ss, s0, m) ensures PastIn(ss, Ticked(t, born, healthy), m) {
      assert PastIn(ss, s, m);
      var n: nat :| n <= m && RolledDownTo(ss, s, n);
      SweepRollsDown(ss, s, idx, t, born, healthy, n);
    }
  }
}
