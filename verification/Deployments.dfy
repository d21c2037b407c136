/**
 One step of a Deployment's pod half (ctrltest/deployment_sim.go) as a relation between stores
 of pods, and what follows for whole runs of sweeps.
 */
module Deployments {
  import opened Wrappers
  import opened Ordinals
  import opened PodOrder
  import opened PodStore

  datatype Strategy = RollingUpdate | Recreate

  /** `revision` is the hash of the pod template. */
  datatype Deployment = Deployment(name: string, uid: nat, revision: string, replicas: Option<nat>,
                                   strategy: Strategy, terminating: bool)

  function Want(d: Deployment): nat {
    if d.replicas.None? then 1 else d.replicas.value
  }

  function ControllerOf(d: Deployment): Controller { Controller("apps/v1", "Deployment", d.uid) }

  predicate Owned(d: Deployment, p: Pod) { p.controller == Some(ControllerOf(d)) }

  function Prefix(d: Deployment, revision: string): string { d.name + "-" + revision + "-" }

  function PodName(d: Deployment, revision: string, i: nat): string { Prefix(d, revision) + Itoa(i) }

  function NewPod(d: Deployment, i: nat): Pod {
    Pod(PodName(d, d.revision, i), Some(ControllerOf(d)), d.revision, false, false, false)
  }

  // ----- Sets of pods, by name -----

  ghost function Active(d: Deployment, s: Pods): set<string> {
    set n | n in s && Owned(d, s[n]) && !s[n].terminating
  }

  ghost function Old(d: Deployment, s: Pods): set<string> {
    set n | n in Active(d, s) && s[n].revision != d.revision
  }

  ghost function Ready(d: Deployment, s: Pods): set<string> {
    set n | n in Active(d, s) && s[n].ready
  }

  /** The ordinals taken at the current revision, by pods being deleted too. */
  ghost function Used(d: Deployment, s: Pods): set<nat> {
    set n | n in s && Owned(d, s[n]) && s[n].revision == d.revision
            && ParseOrdinal(n, Prefix(d, d.revision)).Some? :: ParseOrdinal(n, Prefix(d, d.revision)).value
  }

  // ----- One step -----

  /** `chosen` are the first `n` of `among` in the order of deletion. */
  ghost predicate First(d: Deployment, s: Pods, among: set<string>, n: nat, chosen: set<string>)
    requires among <= s.Keys
  {
    && chosen <= among && |chosen| == n
    && forall v, a | v in chosen && a in among - chosen :: Sooner(d.revision, s[v], s[a])
  }

  ghost function NamesAt(d: Deployment, out: seq<nat>): set<string> {
    set i | i in out :: PodName(d, d.revision, i)
  }

  /** After creating pods at the ordinals `out`; a name already taken makes a creation fail. */
  ghost predicate Created(d: Deployment, s: Pods, out: seq<nat>, t: Pods, born: set<string>) {
    && born == NamesAt(d, out) - s.Keys
    && t.Keys == s.Keys + born
    && (forall n | n in s :: t[n] == s[n])
    && forall i | i in out && PodName(d, d.revision, i) in born :: t[PodName(d, d.revision, i)] == NewPod(d, i)
  }

  ghost predicate Step(d: Deployment, s: Pods, t: Pods, born: set<string>) {
    var active, stale, want := Active(d, s), Old(d, s), Want(d);
    if |active| > want then
      born == {} && exists gone :: First(d, s, active, |active| - want, gone) && t == Deleted(s, gone)
    else if |active| < want then
      exists out :: SmallestFree(Used(d, s), want - |active|, out) && Created(d, s, out, t, born)
    else
      && born == {}
      && if stale == {} then t == s
         else if d.strategy.Recreate? then t == Deleted(s, stale)
         else if Ready(d, s) == active then exists gone :: First(d, s, stale, 1, gone) && t == Deleted(s, gone)
         else t == s
  }

  // ----- A step is determined by what it starts from -----

  lemma {:induction false} FirstIsUnique(d: Deployment, s: Pods, among: set<string>, n: nat, a: set<string>, b: set<string>)
    requires Keyed(s) && among <= s.Keys
    requires First(d, s, among, n, a) && First(d, s, among, n, b)
    ensures a == b
  {
    SameSizeDiffers(a, b);
    if a != b {
      var x, y := AnyOf(a - b), AnyOf(b - a);
      SoonerTrichotomy(d.revision, s[x], s[y]);
    }
  }

  lemma {:induction false} SameSizeDiffers<T>(a: set<T>, b: set<T>)
    requires |a| == |b|
    ensures a != b ==> a - b != {} && b - a != {}
  {
    assert a == a * b + (a - b) && b == a * b + (b - a);
    assert |a - b| == |b - a|;
  }

  lemma {:induction false} ScaleDownIsDetermined(d: Deployment, s: Pods, t: Pods, born: set<string>, u: Pods, later: set<string>)
    requires Keyed(s) && Step(d, s, t, born) && Step(d, s, u, later) && |Active(d, s)| > Want(d)
    ensures t == u && born == later
  {
    hide First, Deleted;
    var active, n := Active(d, s), |Active(d, s)| - Want(d);
    var a :| First(d, s, active, n, a) && t == Deleted(s, a);
    var b :| First(d, s, active, n, b) && u == Deleted(s, b);
    FirstIsUnique(d, s, active, n, a, b);
  }

  lemma {:induction false} CreatedIsDetermined(d: Deployment, s: Pods, out: seq<nat>, t: Pods, born: set<string>, u: Pods, later: set<string>)
    requires Created(d, s, out, t, born) && Created(d, s, out, u, later)
    ensures t == u && born == later
  {
    hide PodName, NewPod;
    forall n | n in born ensures t[n] == u[n] {
      var i :| i in out && n == PodName(d, d.revision, i);
    }
  }

  lemma {:induction false} ScaleUpIsDetermined(d: Deployment, s: Pods, t: Pods, born: set<string>, u: Pods, later: set<string>)
    requires Step(d, s, t, born) && Step(d, s, u, later) && |Active(d, s)| < Want(d)
    ensures t == u && born == later
  {
    hide SmallestFree, Created, Active, Used;
    var n := Want(d) - |Active(d, s)|;
    var a :| SmallestFree(Used(d, s), n, a) && Created(d, s, a, t, born);
    var b :| SmallestFree(Used(d, s), n, b) && Created(d, s, b, u, later);
    SmallestFreeIsUnique(Used(d, s), n, a, b);
    CreatedIsDetermined(d, s, a, t, born, u, later);
  }

  lemma {:induction false} UpdateIsDetermined(d: Deployment, s: Pods, t: Pods, born: set<string>, u: Pods, later: set<string>)
    requires Keyed(s) && Step(d, s, t, born) && Step(d, s, u, later) && |Active(d, s)| == Want(d)
    ensures t == u && born == later
  {
    hide First, Deleted, Active, Ready;
    if Old(d, s) != {} && d.strategy.RollingUpdate? && Ready(d, s) == Active(d, s) {
      ReadyAreActive(d, s);
      var a :| First(d, s, Old(d, s), 1, a) && t == Deleted(s, a);
      var b :| First(d, s, Old(d, s), 1, b) && u == Deleted(s, b);
      FirstIsUnique(d, s, Old(d, s), 1, a, b);
    }
  }

  lemma {:induction false} StepIsDeterministic(d: Deployment, s: Pods, t: Pods, born: set<string>, u: Pods, later: set<string>)
    requires Keyed(s) && Step(d, s, t, born) && Step(d, s, u, later)
    ensures t == u && born == later
  {
    hide Step;
    if |Active(d, s)| > Want(d) {
      ScaleDownIsDetermined(d, s, t, born, u, later);
    } else if |Active(d, s)| < Want(d) {
      ScaleUpIsDetermined(d, s, t, born, u, later);
    } else {
      UpdateIsDetermined(d, s, t, born, u, later);
    }
  }

  // ----- Names -----

  lemma {:induction false} NumeralIsInjective(i: nat, j: nat)
    requires Itoa(i) == Itoa(j)
    ensures i == j
  {
    NumeralRoundTrip(i);
    NumeralRoundTrip(j);
  }

  lemma {:induction false} PodNameIsInjective(d: Deployment, r: string, i: nat, q: string, j: nat)
    requires |r| == |q| && PodName(d, r, i) == PodName(d, q, j)
    ensures r == q && i == j
  {
    var name := PodName(d, r, i);
    var stem := |d.name| + 1;
    assert r == name[stem..stem + |r|] && q == name[stem..stem + |q|];
    assert Itoa(i) == name[stem + |r| + 1..] && Itoa(j) == name[stem + |q| + 1..];
    NumeralIsInjective(i, j);
  }

  /** No pod of the current revision, being deleted or not, has a name about to be given out. */
  lemma {:induction false} NewNamesAreFree(d: Deployment, s: Pods, n: nat, out: seq<nat>, name: string)
    requires SmallestFree(Used(d, s), n, out)
    requires name in s && Owned(d, s[name]) && s[name].revision == d.revision
    ensures name !in NamesAt(d, out)
  {
    var taken := ParseOrdinal(name, Prefix(d, d.revision));
    assert taken.Some? ==> taken.value in Used(d, s);
    forall i | i in out ensures PodName(d, d.revision, i) != name {
      NameRoundTrip(Prefix(d, d.revision), i);
    }
  }

  /** The name of a pod this Deployment made, at a hash of the usual length. */
  ghost predicate WellNamed(d: Deployment, p: Pod) {
    |p.revision| == |d.revision| && exists i: nat :: p.name == PodName(d, p.revision, i)
  }

  /** The `i`-th ordinal is among the next `n` to be given out: unused, with fewer than `n` unused ones below it. */
  ghost predicate ComesNext(d: Deployment, s: Pods, n: nat, i: nat) {
    i !in Used(d, s) && |FreeBelow(Used(d, s), i)| < n
  }

  /** A name is about to be given out exactly if it is made of an ordinal that comes next, whoever bears it. */
  lemma {:induction false} NewNamesAre(d: Deployment, s: Pods, n: nat, out: seq<nat>, name: string)
    requires SmallestFree(Used(d, s), n, out)
    ensures name in NamesAt(d, out) <==> exists i: nat :: name == PodName(d, d.revision, i) && ComesNext(d, s, n, i)
  {
    hide PodName, SmallestFree, FreeBelow, Used;
    forall i: nat ensures i in out <==> ComesNext(d, s, n, i) {
      SmallestFreeHas(Used(d, s), n, out, i);
    }
  }

  /** The pod is marked with the current revision if it is named for it. */
  ghost predicate Labelled(d: Deployment, p: Pod) {
    forall i: nat :: p.name == PodName(d, d.revision, i) ==> p.revision == d.revision
  }

  /**
   Which new names are taken by pods of the Deployment's own. A pod named for the current revision
   takes one exactly if its ordinal comes next, for which it must be marked with another revision;
   a pod that is marked as it is named takes none, and all pods named by the Deployment are so.
   */
  lemma {:induction false} NewNamesAreNew(d: Deployment, s: Pods, n: nat, out: seq<nat>, name: string)
    requires SmallestFree(Used(d, s), n, out)
    requires name in s && s[name].name == name && Owned(d, s[name])
    ensures name in NamesAt(d, out) <==> exists i: nat :: name == PodName(d, d.revision, i) && ComesNext(d, s, n, i)
    ensures forall i: nat :: name == PodName(d, d.revision, i) && ComesNext(d, s, n, i) ==> s[name].revision != d.revision
    ensures Labelled(d, s[name]) ==> name !in NamesAt(d, out)
    ensures WellNamed(d, s[name]) ==> Labelled(d, s[name])
  {
    NewNamesAre(d, s, n, out, name);
    forall i: nat | name == PodName(d, d.revision, i) && ComesNext(d, s, n, i) ensures s[name].revision != d.revision {
      NameRoundTrip(Prefix(d, d.revision), i);
      if s[name].revision == d.revision {
        NewNamesAreFree(d, s, n, out, name);
        assert false;
      }
    }
    if WellNamed(d, s[name]) {
      WellNamedIsLabelled(d, s[name]);
    }
  }

  lemma {:induction false} WellNamedIsLabelled(d: Deployment, p: Pod)
    requires WellNamed(d, p)
    ensures Labelled(d, p)
  {
    hide PodName;
    var j: nat :| p.name == PodName(d, p.revision, j);
    forall i: nat | p.name == PodName(d, d.revision, i) ensures p.revision == d.revision {
      PodNameIsInjective(d, d.revision, i, p.revision, j);
    }
  }

  // ----- Scaling up where names are taken -----

  /** Every name about to be given out is taken, by whomever: too few pods are active, and none can be made. */
  ghost predicate Stalled(d: Deployment, s: Pods) {
    && |Active(d, s)| < Want(d)
    && forall i: nat :: ComesNext(d, s, Want(d) - |Active(d, s)|, i) ==> PodName(d, d.revision, i) in s
  }

  /** A step that should scale up changes nothing exactly if the store is stalled. */
  lemma {:induction false} ScaleUpStalls(d: Deployment, s: Pods, t: Pods, born: set<string>)
    requires Step(d, s, t, born) && |Active(d, s)| < Want(d)
    ensures t == s <==> Stalled(d, s)
    ensures t == s <==> born == {}
  {
    hide PodName, SmallestFree, ComesNext, Used, Active, NewPod;
    var n := Want(d) - |Active(d, s)|;
    var out :| SmallestFree(Used(d, s), n, out) && Created(d, s, out, t, born);
    forall i: nat ensures i in out <==> ComesNext(d, s, n, i) {
      ChosenComesNext(d, s, n, out, i);
    }
    assert born == {} <==> NamesAt(d, out) <= s.Keys;
    assert (forall i | i in out :: PodName(d, d.revision, i) in s) <==> NamesAt(d, out) <= s.Keys by {
      NamesTaken(d, s, out);
    }
  }

  lemma {:induction false} ChosenComesNext(d: Deployment, s: Pods, n: nat, out: seq<nat>, i: nat)
    requires SmallestFree(Used(d, s), n, out)
    ensures i in out <==> ComesNext(d, s, n, i)
  {
    SmallestFreeHas(Used(d, s), n, out, i);
  }

  lemma {:induction false} NamesTaken(d: Deployment, s: Pods, out: seq<nat>)
    ensures (forall i | i in out :: PodName(d, d.revision, i) in s) <==> NamesAt(d, out) <= s.Keys
  {
    hide PodName;
    forall i | i in out ensures PodName(d, d.revision, i) in NamesAt(d, out) {
    }
  }

  /** `u` is the store after `n` sweeps from `s` in which nobody else writes, whatever the pods' health. */
  ghost predicate SweptTo(d: Deployment, s: Pods, u: Pods, n: nat)
    decreases n
  {
    if n == 0 then u == s
    else exists m, t, born, healthy: Pod -> bool ::
           SweptTo(d, s, m, n - 1) && Step(d, m, t, born) && u == Ticked(t, born, healthy)
  }

  lemma {:induction false} NotSweptYet(d: Deployment, s: Pods)
    ensures SweptTo(d, s, s, 0)
  {
  }

  lemma {:induction false} SweptNext(d: Deployment, s: Pods, m: Pods, t: Pods, born: set<string>, healthy: Pod -> bool, n: nat)
    requires SweptTo(d, s, m, n) && Step(d, m, t, born)
    ensures SweptTo(d, s, Ticked(t, born, healthy), n + 1)
  {
    hide Step, Ticked;
  }

  lemma {:induction false} TickKeepsStall(d: Deployment, s: Pods, healthy: Pod -> bool)
    requires Stalled(d, s)
    ensures Stalled(d, Ticked(s, {}, healthy)) && Active(d, Ticked(s, {}, healthy)) == Active(d, s)
  {
    hide PodName;
    var u := Ticked(s, {}, healthy);
    assert u.Keys == s.Keys;
    assert Active(d, u) == Active(d, s) && Used(d, u) == Used(d, s);
  }

  /** Once stalled, sweeps alone never make or delete a pod again: the Deployment stays short for good. */
  lemma {:induction false} StalledForGood(d: Deployment, s: Pods, u: Pods, n: nat)
    requires Stalled(d, s) && SweptTo(d, s, u, n)
    ensures Stalled(d, u) && u.Keys == s.Keys && Active(d, u) == Active(d, s) && !Converged(d, u)
    decreases n
  {
    hide Step, Stalled, Active, Ticked, Converged;
    if n > 0 {
      var m, t, born, healthy: Pod -> bool :| SweptTo(d, s, m, n - 1) && Step(d, m, t, born) && u == Ticked(t, born, healthy);
      StalledForGood(d, s, m, n - 1);
      StalledStep(d, m, t, born);
      TickKeepsStall(d, m, healthy);
      TickKeepsKeys(m, born, healthy);
    }
    StalledIsShort(d, u);
  }

  lemma {:induction false} StalledStep(d: Deployment, s: Pods, t: Pods, born: set<string>)
    requires Stalled(d, s) && Step(d, s, t, born)
    ensures t == s && born == {}
  {
    hide Step;
    ScaleUpStalls(d, s, t, born);
  }

  lemma {:induction false} TickKeepsKeys(s: Pods, born: set<string>, healthy: Pod -> bool)
    ensures Ticked(s, born, healthy).Keys == s.Keys
  {
  }

  lemma {:induction false} StalledIsShort(d: Deployment, s: Pods)
    requires Stalled(d, s)
    ensures !Converged(d, s)
  {
  }

  // ----- Availability -----

  lemma {:induction false} ActiveAfterDelete(d: Deployment, s: Pods, gone: set<string>)
    ensures Active(d, Deleted(s, gone)) == Active(d, s) - gone
    ensures Ready(d, Deleted(s, gone)) == Ready(d, s) - gone
    ensures Old(d, Deleted(s, gone)) == Old(d, s) - gone
  {
  }

  lemma {:induction false} SubtractSize<T>(a: set<T>, b: set<T>)
    requires b <= a
    ensures |a - b| == |a| - |b|
  {
    assert a == (a - b) + b;
  }

  /** New pods are active, current and not yet ready; nothing else changes. */
  lemma {:induction false} ActiveAfterCreate(d: Deployment, s: Pods, out: seq<nat>, t: Pods, born: set<string>)
    requires Created(d, s, out, t, born)
    ensures Active(d, t) == Active(d, s) + born && born !! s.Keys
    ensures Ready(d, t) == Ready(d, s) && Old(d, t) == Old(d, s)
  {
    forall n | n in born ensures exists i :: i in out && n == PodName(d, d.revision, i) && t[n] == NewPod(d, i) {
      var i :| i in out && n == PodName(d, d.revision, i);
    }
  }

  lemma {:induction false} NamesAtSize(d: Deployment, out: seq<nat>)
    requires Ascending(out)
    ensures |NamesAt(d, out)| == |out|
  {
    if |out| > 0 {
      var front, last := out[..|out| - 1], out[|out| - 1];
      NamesAtSize(d, front);
      assert out == front + [last];
      assert NamesAt(d, out) == NamesAt(d, front) + {PodName(d, d.revision, last)};
      if PodName(d, d.revision, last) in NamesAt(d, front) {
        var i :| i in front && PodName(d, d.revision, last) == PodName(d, d.revision, i);
        PodNameIsInjective(d, d.revision, last, d.revision, i);
      }
    } else {
      assert NamesAt(d, out) == {};
    }
  }

  /**
   Whatever the pods' health: once no more pods are active than wanted, a step of a rolling
   update never leaves fewer ready than before or than one short of `want`, and retires a pod
   only when all are ready.
   */
  lemma {:induction false} StepKeepsAvailable(d: Deployment, s: Pods, t: Pods, born: set<string>)
    requires Step(d, s, t, born) && d.strategy.RollingUpdate? && |Active(d, s)| <= Want(d)
    ensures |Active(d, t)| <= Want(d)
    ensures |Ready(d, t)| >= Min(|Ready(d, s)|, Want(d) - 1)
    ensures !(Ready(d, s) <= Ready(d, t)) ==>
              Ready(d, s) == Active(d, s) && |Active(d, s)| == Want(d) && |Active(d, s) - Active(d, t)| == 1
  {
    hide Step, Active, Ready;
    ReadyAreActive(d, s);
    if |Active(d, s)| < Want(d) {
      ScaleUpKeepsReady(d, s, t, born);
    } else {
      UpdateRetiresOne(d, s, t, born);
    }
  }

  lemma {:induction false} ScaleUpKeepsReady(d: Deployment, s: Pods, t: Pods, born: set<string>)
    requires Step(d, s, t, born) && |Active(d, s)| < Want(d)
    ensures |Active(d, t)| <= Want(d) && Ready(d, t) == Ready(d, s)
  {
    hide SmallestFree, Created, Active, Ready, Used;
    var n := Want(d) - |Active(d, s)|;
    var out :| SmallestFree(Used(d, s), n, out) && Created(d, s, out, t, born);
    ActiveAfterCreate(d, s, out, t, born);
    BornAre(d, s, out, t, born);
    BornAreFew(d, s, out, n, born);
  }

  lemma {:induction false} UpdateRetiresOne(d: Deployment, s: Pods, t: Pods, born: set<string>)
    requires Step(d, s, t, born) && d.strategy.RollingUpdate? && |Active(d, s)| == Want(d)
    ensures t == s || (Ready(d, s) == Active(d, s) && |Active(d, t)| == |Ready(d, t)| == Want(d) - 1
                       && |Active(d, s) - Active(d, t)| == 1)
  {
    hide First, Deleted, Active, Ready, SmallestFree, Created;
    if t != s {
      ReadyAreActive(d, s);
      var gone :| First(d, s, Old(d, s), 1, gone) && t == Deleted(s, gone);
      FirstIsSubset(d, s, Old(d, s), 1, gone);
      ActiveAfterDelete(d, s, gone);
      SubtractSize(Active(d, s), gone);
      assert Active(d, s) - (Active(d, s) - gone) == gone;
    }
  }

  lemma {:induction false} FirstIsSubset(d: Deployment, s: Pods, among: set<string>, n: nat, chosen: set<string>)
    requires among <= s.Keys && First(d, s, among, n, chosen)
    ensures chosen <= among && |chosen| == n
  {
  }

  lemma {:induction false} BornAreFew(d: Deployment, s: Pods, out: seq<nat>, n: nat, born: set<string>)
    requires SmallestFree(Used(d, s), n, out) && born == NamesAt(d, out) - s.Keys
    ensures |born| <= n
    ensures |Active(d, s) + born| <= |Active(d, s)| + n
  {
    NamesAtSize(d, out);
    SubsetSize(born, NamesAt(d, out));
    assert |Active(d, s) + born| == |Active(d, s)| + |born - Active(d, s)|;
    SubsetSize(born - Active(d, s), born);
  }

  lemma {:induction false} TickOnlyHeals(d: Deployment, s: Pods, born: set<string>, healthy: Pod -> bool)
    requires Healthy(healthy)
    ensures Active(d, Ticked(s, born, healthy)) == Active(d, s) && Old(d, Ticked(s, born, healthy)) == Old(d, s)
    ensures Ready(d, s) <= Ready(d, Ticked(s, born, healthy))
    ensures Active(d, s) - born <= Ready(d, Ticked(s, born, healthy))
  {
  }

  /** At least `want - 1` pods are ready, and no more are active than wanted. */
  ghost predicate Available(d: Deployment, s: Pods) {
    |Active(d, s)| <= Want(d) && |Ready(d, s)| >= Want(d) - 1
  }

  /**
   With healthy pods, a sweep that starts with all wanted pods ready, or from an available store,
   ends in an available one, so from then on availability lasts; between the two halves of the
   sweep it holds as well, unless the sweep starts by scaling down (see ScaleDownAvailability).
   */
  lemma {:induction false} SweepKeepsAvailable(d: Deployment, s: Pods, t: Pods, born: set<string>, healthy: Pod -> bool)
    requires Step(d, s, t, born) && Healthy(healthy) && d.strategy.RollingUpdate?
    requires |Ready(d, s)| >= Want(d) || Available(d, s)
    ensures Available(d, Ticked(t, born, healthy))
    ensures |Active(d, s)| <= Want(d) ==> Available(d, t)
  {
    hide First;
    var u := Ticked(t, born, healthy);
    TickOnlyHeals(d, t, born, healthy);
    if |Active(d, s)| <= Want(d) {
      StepKeepsAvailable(d, s, t, born);
      SubsetSize(Ready(d, t), Ready(d, u));
    } else {
      var gone :| First(d, s, Active(d, s), |Active(d, s)| - Want(d), gone) && t == Deleted(s, gone);
      FirstIsSubset(d, s, Active(d, s), |Active(d, s)| - Want(d), gone);
      ActiveAfterDelete(d, s, gone);
      SubtractSize(Active(d, s), gone);
      SubsetSize(Active(d, t), Ready(d, u));
    }
  }

  // ----- Availability while scaling down -----

  /** Every member is deleted before every other of `among`. */
  ghost predicate Leading(d: Deployment, s: Pods, among: set<string>, part: set<string>)
    requires among <= s.Keys
  {
    part <= among && forall a, b | a in part && b in among - part :: Sooner(d.revision, s[a], s[b])
  }

  ghost function Overlap(a: set<string>, b: set<string>): nat { |a * b| }

  /** Of the pods that lead, as many are chosen as there is room for. */
  lemma {:induction false} LeadingGoFirst(d: Deployment, s: Pods, among: set<string>, n: nat, chosen: set<string>, part: set<string>)
    requires Keyed(s) && among <= s.Keys && First(d, s, among, n, chosen) && Leading(d, s, among, part)
    ensures Overlap(chosen, part) == Min(n, |part|)
  {
    if part <= chosen {
      assert chosen * part == part;
      SubsetSize(part, chosen);
    } else {
      var a :| a in part && a !in chosen;
      forall g | g in chosen ensures g in part {
        if g !in part {
          SoonerTrichotomy(d.revision, s[g], s[a]);
          assert false;
        }
      }
      assert chosen * part == chosen;
      SubsetSize(chosen, part);
    }
  }

  ghost function OldUnready(d: Deployment, s: Pods): set<string> { Old(d, s) - Ready(d, s) }

  ghost function CurrentUnready(d: Deployment, s: Pods): set<string> { Active(d, s) - Old(d, s) - Ready(d, s) }

  /** The pods that go before the ready ones of the current revision. */
  ghost function Early(d: Deployment, s: Pods): set<string> { Old(d, s) + CurrentUnready(d, s) }

  lemma {:induction false} DeletionClasses(d: Deployment, s: Pods)
    ensures Active(d, s) <= s.Keys
    ensures Leading(d, s, Active(d, s), OldUnready(d, s)) && Leading(d, s, Active(d, s), Old(d, s))
    ensures Leading(d, s, Active(d, s), Early(d, s))
  {
  }

  /** How many of the wanted pods a scale-down by `excess` leaves unready, counted before it. */
  ghost function UnreadyLeft(d: Deployment, s: Pods, excess: nat): nat {
    Max(0, |OldUnready(d, s)| - excess) + Max(0, |CurrentUnready(d, s)| - Max(0, excess - |Old(d, s)|))
  }

  /**
   A scale-down takes old pods first, ready or not. Whatever the pods' health, all but one wanted
   pod are ready after it exactly if the counts before it say so.
   */
  lemma {:induction false} ScaleDownAvailability(d: Deployment, s: Pods, t: Pods, born: set<string>)
    requires Keyed(s) && Step(d, s, t, born) && |Active(d, s)| > Want(d)
    ensures |Active(d, t)| == Want(d) && |Active(d, t) - Ready(d, t)| == UnreadyLeft(d, s, |Active(d, s)| - Want(d))
    ensures Available(d, t) <==> UnreadyLeft(d, s, |Active(d, s)| - Want(d)) <= 1
  {
    hide First, Active, Old, Ready, Deleted;
    var active, excess := Active(d, s), |Active(d, s)| - Want(d);
    ReadyAreActive(d, s);
    var gone :| First(d, s, active, excess, gone) && t == Deleted(s, gone);
    ActiveAfterDelete(d, s, gone);
    FirstIsSubset(d, s, active, excess, gone);
    SubtractSize(active, gone);
    UnreadyAfter(d, s, excess, gone);
    ReadyAreActive(d, t);
    SubtractSize(Active(d, t), Ready(d, t));
  }

  /** How many active pods are not ready once some are gone. */
  ghost function UnreadyWithout(d: Deployment, s: Pods, gone: set<string>): nat { |(Active(d, s) - gone) - (Ready(d, s) - gone)| }

  lemma {:induction false} UnreadyAfter(d: Deployment, s: Pods, excess: nat, gone: set<string>)
    requires Keyed(s) && Active(d, s) <= s.Keys && First(d, s, Active(d, s), excess, gone)
    ensures UnreadyWithout(d, s, gone) == UnreadyLeft(d, s, excess)
  {
    hide *;
    DeletionClasses(d, s);
    FirstIsSubset(d, s, Active(d, s), excess, gone);
    LeadingGoFirst(d, s, Active(d, s), excess, gone, OldUnready(d, s));
    LeadingGoFirst(d, s, Active(d, s), excess, gone, Old(d, s));
    LeadingGoFirst(d, s, Active(d, s), excess, gone, Early(d, s));
    UnreadyCount(d, s, gone);
    UnreadySum(UnreadyWithout(d, s, gone), |OldUnready(d, s)|, Overlap(gone, OldUnready(d, s)), |CurrentUnready(d, s)|,
               |Old(d, s)|, Overlap(gone, Old(d, s)), |Early(d, s)|, Overlap(gone, Early(d, s)), excess);
    UnreadyLeftIs(d, s, excess);
  }

  lemma {:induction false} UnreadyLeftIs(d: Deployment, s: Pods, excess: nat)
    ensures UnreadyLeft(d, s, excess)
            == Max(0, |OldUnready(d, s)| - excess) + Max(0, |CurrentUnready(d, s)| - Max(0, excess - |Old(d, s)|))
  {
  }

  lemma {:induction false} UnreadySum(left: int, oldUnready: nat, goneOldUnready: nat, currentUnready: nat, stale: nat, goneStale: nat,
                                      first: nat, goneFirst: nat, excess: nat)
    requires left == oldUnready - goneOldUnready + currentUnready - (goneFirst - goneStale)
    requires oldUnready <= stale && first == stale + currentUnready
    requires goneOldUnready == Min(excess, oldUnready) && goneStale == Min(excess, stale) && goneFirst == Min(excess, first)
    ensures left == Max(0, oldUnready - excess) + Max(0, currentUnready - Max(0, excess - stale))
  {
  }

  /** Counting what is left of the unready pods, class by class. */
  lemma {:induction false} UnreadyCount(d: Deployment, s: Pods, gone: set<string>)
    requires gone <= Active(d, s)
    ensures UnreadyWithout(d, s, gone) == |OldUnready(d, s)| - Overlap(gone, OldUnready(d, s))
                                          + |CurrentUnready(d, s)| - (Overlap(gone, Early(d, s)) - Overlap(gone, Old(d, s)))
    ensures |Early(d, s)| == |Old(d, s)| + |CurrentUnready(d, s)|
    ensures |OldUnready(d, s)| <= |Old(d, s)|
  {
    hide Active, Old, Ready;
    ReadyAreActive(d, s);
    SplitCount(Active(d, s), Ready(d, s), Old(d, s), gone);
    SubsetSize(OldUnready(d, s), Old(d, s));
  }

  lemma {:induction false} SplitCount(active: set<string>, ready: set<string>, stale: set<string>, gone: set<string>)
    requires ready <= active && stale <= active && gone <= active
    ensures var oldUnready, currentUnready := stale - ready, active - stale - ready;
            && |(active - gone) - (ready - gone)|
               == |oldUnready| - |gone * oldUnready| + |currentUnready| - (|gone * (stale + currentUnready)| - |gone * stale|)
            && |stale + currentUnready| == |stale| + |currentUnready|
  {
    var oldUnready, currentUnready := stale - ready, active - stale - ready;
    assert (active - gone) - (ready - gone) == (oldUnready - gone) + (currentUnready - gone);
    assert oldUnready == (oldUnready - gone) + (gone * oldUnready);
    assert currentUnready == (currentUnready - gone) + (gone * currentUnready);
    assert gone * (stale + currentUnready) == (gone * stale) + (gone * currentUnready);
  }

  const WEB := Deployment("web", 7, "11111111", Some(2), RollingUpdate, false)

  function PodOfWeb(name: string, revision: string, ready: bool): Pod {
    Pod(name, Some(ControllerOf(WEB)), revision, ready, false, false)
  }

  /** Two ready pods of an old revision and two of the current one that are not ready yet. */
  function TwoAndTwo(a: string, b: string, c: string, e: string): Pods {
    map[a := PodOfWeb(a, "00000000", true), b := PodOfWeb(b, "00000000", true),
        c := PodOfWeb(c, "11111111", false), e := PodOfWeb(e, "11111111", false)]
  }

  function MidRollout(): Pods {
    TwoAndTwo(PodName(WEB, "00000000", 0), PodName(WEB, "00000000", 1), PodName(WEB, "11111111", 0), PodName(WEB, "11111111", 1))
  }

  lemma {:induction false} TwoAndTwoSets(a: string, b: string, c: string, e: string)
    requires a != b && a != c && a != e && b != c && b != e && c != e
    ensures var s := TwoAndTwo(a, b, c, e);
            && Keyed(s) && Active(WEB, s) == {a, b, c, e} && Ready(WEB, s) == {a, b}
            && Old(WEB, s) == {a, b} && CurrentUnready(WEB, s) == {c, e}
    ensures |{a, b, c, e}| == 4 && |{a, b}| == 2 && |{c, e}| == 2
  {
    assert "00000000"[0] != "11111111"[0];
  }

  lemma {:induction false} TwoAndTwoStep(a: string, b: string, c: string, e: string)
    requires a != b && a != c && a != e && b != c && b != e && c != e
    ensures var s := TwoAndTwo(a, b, c, e); Step(WEB, s, Deleted(s, {a, b}), {})
  {
    hide Deleted, Active, Old, Ready, CurrentUnready;
    var s := TwoAndTwo(a, b, c, e);
    TwoAndTwoSets(a, b, c, e);
    assert "00000000"[0] != "11111111"[0];
    assert First(WEB, s, {a, b, c, e}, 2, {a, b});
  }

  /**
   The exception: a scale-down during a rollout takes the old pods first, ready or not, and can
   leave none ready until the tick, although as many as wanted were ready before it.
   */
  lemma {:induction false} ScaleDownCanDip()
    ensures var s := MidRollout();
            && Undisturbed(WEB, s) && |Ready(WEB, s)| >= Want(WEB)
            && exists t :: Step(WEB, s, t, {}) && !Available(WEB, t)
  {
    hide PodName, TwoAndTwo, Step, Available, Undisturbed, Deleted, Active, Ready, Old, CurrentUnready;
    var a, b := PodName(WEB, "00000000", 0), PodName(WEB, "00000000", 1);
    var c, e := PodName(WEB, "11111111", 0), PodName(WEB, "11111111", 1);
    MidRolloutNames();
    TwoAndTwoSets(a, b, c, e);
    TwoAndTwoStep(a, b, c, e);
    ScaleDownAvailability(WEB, MidRollout(), Deleted(MidRollout(), {a, b}), {});
  }

  lemma {:induction false} MidRolloutNames()
    ensures var a, b := PodName(WEB, "00000000", 0), PodName(WEB, "00000000", 1);
            var c, e := PodName(WEB, "11111111", 0), PodName(WEB, "11111111", 1);
            a != b && a != c && a != e && b != c && b != e && c != e
    ensures Undisturbed(WEB, MidRollout())
  {
    assert "00000000"[0] != "11111111"[0];
    forall r: string, q: string, i: nat, j: nat
      | |r| == |q| && PodName(WEB, r, i) == PodName(WEB, q, j) ensures r == q && i == j
    {
      PodNameIsInjective(WEB, r, i, q, j);
    }
    hide PodName;
  }

  /** One ready pod, named for the current revision but marked with another. */
  function Mislabelled(name: string): Pods { map[name := PodOfWeb(name, "00000000", true)] }

  /**
   A pod of the Deployment's own can take the next name: the creation fails, the step changes
   nothing, and the Deployment stays one pod short however many sweeps follow.
   */
  lemma {:induction false} MislabelledPodStalls(u: Pods, n: nat)
    ensures var s := Mislabelled(PodName(WEB, WEB.revision, 0));
            && Keyed(s) && Step(WEB, s, s, {}) && Stalled(WEB, s)
            && (SweptTo(WEB, s, u, n) ==> |Active(WEB, u)| == 1 < Want(WEB))
  {
    hide PodName, SweptTo;
    var name := PodName(WEB, WEB.revision, 0);
    var s := Mislabelled(name);
    MislabelledSets(name);
    assert SmallestFree({}, 1, [0]);
    assert NamesAt(WEB, [0]) == {name};
    assert Created(WEB, s, [0], s, {});
    assert Step(WEB, s, s, {});
    ScaleUpStalls(WEB, s, s, {});
    if SweptTo(WEB, s, u, n) {
      StalledForGood(WEB, s, u, n);
    }
  }

  lemma {:induction false} MislabelledSets(name: string)
    ensures var s := Mislabelled(name); Active(WEB, s) == {name} && Used(WEB, s) == {} && Keyed(s)
  {
    assert "00000000"[0] != "11111111"[0];
  }

  // ----- Convergence -----

  /** Only this Deployment's pods, marked as they are named, none being deleted and none held when it is. */
  ghost predicate Undisturbed(d: Deployment, s: Pods) {
    forall n | n in s :: Settled(d, n, s[n])
  }

  ghost predicate Settled(d: Deployment, n: string, p: Pod) {
    p.name == n && Owned(d, p) && !p.terminating && !p.held && Labelled(d, p)
  }

  /** Exactly the wanted number of pods, all at the current revision and ready. */
  ghost predicate Converged(d: Deployment, s: Pods) {
    |Active(d, s)| == Want(d) && Old(d, s) == {} && Ready(d, s) == Active(d, s)
  }

  /** How many more sweeps it can take. */
  ghost function Remaining(d: Deployment, s: Pods): nat {
    3 * |Old(d, s)| + if |Active(d, s)| != Want(d) then 2 else if Ready(d, s) != Active(d, s) then 1 else 0
  }

  lemma {:induction false} NothingRemains(d: Deployment, s: Pods)
    ensures Remaining(d, s) == 0 <==> Converged(d, s)
  {
  }

  /** After a step, no more pods are active than wanted. */
  lemma {:induction false} StepScalesDown(d: Deployment, s: Pods, t: Pods, born: set<string>)
    requires Step(d, s, t, born)
    ensures |Active(d, t)| <= Want(d)
  {
    hide Step;
    if |Active(d, s)| > Want(d) {
      ScaleDownReaches(d, s, t, born);
    } else if |Active(d, s)| < Want(d) {
      ScaleUpStays(d, s, t, born);
    } else {
      UpdateOnlyDeletes(d, s, t, born);
    }
  }

  lemma {:induction false} ScaleDownReaches(d: Deployment, s: Pods, t: Pods, born: set<string>)
    requires Step(d, s, t, born) && |Active(d, s)| > Want(d)
    ensures |Active(d, t)| == Want(d)
  {
    hide First, Deleted, Active;
    ReadyAreActive(d, s);
    var active, want := Active(d, s), Want(d);
    var gone :| First(d, s, active, |active| - want, gone) && t == Deleted(s, gone);
    FirstIsSubset(d, s, active, |active| - want, gone);
    ActiveAfterDelete(d, s, gone);
    SubtractSize(active, gone);
  }

  lemma {:induction false} ScaleUpStays(d: Deployment, s: Pods, t: Pods, born: set<string>)
    requires Step(d, s, t, born) && |Active(d, s)| < Want(d)
    ensures |Active(d, t)| <= Want(d)
  {
    hide SmallestFree, Created, Active;
    var n := Want(d) - |Active(d, s)|;
    var out :| SmallestFree(Used(d, s), n, out) && Created(d, s, out, t, born);
    ActiveAfterCreate(d, s, out, t, born);
    BornAre(d, s, out, t, born);
    BornAreFew(d, s, out, n, born);
  }

  lemma {:induction false} UpdateOnlyDeletes(d: Deployment, s: Pods, t: Pods, born: set<string>)
    requires Step(d, s, t, born) && |Active(d, s)| == Want(d)
    ensures |Active(d, t)| <= Want(d)
  {
    hide First, SmallestFree, Created;
    if t != s {
      var gone :| t == Deleted(s, gone);
      ActiveAfterDelete(d, s, gone);
      SubsetSize(Active(d, t), Active(d, s));
    }
  }

  lemma {:induction false} BornAre(d: Deployment, s: Pods, out: seq<nat>, t: Pods, born: set<string>)
    requires Created(d, s, out, t, born)
    ensures born == NamesAt(d, out) - s.Keys
  {
  }

  lemma {:induction false} TickKeepsActive(d: Deployment, s: Pods, born: set<string>, healthy: Pod -> bool)
    ensures Active(d, Ticked(s, born, healthy)) == Active(d, s)
  {
  }

  lemma {:induction false} RemainingBound(d: Deployment, s: Pods)
    ensures Remaining(d, s) <= 3 * |Old(d, s)| + 2
  {
  }

  lemma {:induction false} CreatedIsNew(d: Deployment, s: Pods, out: seq<nat>, t: Pods, born: set<string>)
    requires Created(d, s, out, t, born)
    ensures KeepsOrDeletes(s, t, born)
  {
    hide PodName;
  }

  lemma {:induction false} SweepShowsHealth(d: Deployment, s: Pods, t: Pods, born: set<string>, healthy: Pod -> bool)
    requires Step(d, s, t, born)
    ensures ShowsHealth(s, Ticked(t, born, healthy), healthy)
  {
    hide Active, Old, Ready, First, SmallestFree, Created, Ticked;
    if |Active(d, s)| < Want(d) {
      var out :| SmallestFree(Used(d, s), Want(d) - |Active(d, s)|, out) && Created(d, s, out, t, born);
      CreatedIsNew(d, s, out, t, born);
    }
    TickShowsHealth(s, t, born, healthy);
  }

  lemma {:induction false} StepKeepsNames(d: Deployment, s: Pods, t: Pods, born: set<string>)
    requires Keyed(s) && Step(d, s, t, born)
    ensures Keyed(t)
  {
    hide First, SmallestFree;
    if |Active(d, s)| < Want(d) {
      var out :| SmallestFree(Used(d, s), Want(d) - |Active(d, s)|, out) && Created(d, s, out, t, born);
      forall n | n in t ensures t[n].name == n {
        if n !in s {
          var i :| i in out && n == PodName(d, d.revision, i);
        }
      }
    }
  }

  lemma {:induction false} TickSettles(d: Deployment, s: Pods, born: set<string>, healthy: Pod -> bool)
    requires Undisturbed(d, s)
    ensures Undisturbed(d, Ticked(s, born, healthy))
  {
    var u := Ticked(s, born, healthy);
    forall n | n in u ensures Settled(d, n, u[n]) {
      assert Settled(d, n, s[n]);
    }
  }

  lemma {:induction false} DeleteSettles(d: Deployment, s: Pods, gone: set<string>)
    requires Undisturbed(d, s)
    ensures Undisturbed(d, Deleted(s, gone))
  {
    var t := Deleted(s, gone);
    forall n | n in t ensures Settled(d, n, t[n]) {
      assert Settled(d, n, s[n]);
    }
  }

  lemma {:induction false} CreateSettles(d: Deployment, s: Pods, n: nat, out: seq<nat>, t: Pods, born: set<string>)
    requires Undisturbed(d, s) && SmallestFree(Used(d, s), n, out) && Created(d, s, out, t, born)
    ensures Undisturbed(d, t) && |born| == n
  {
    hide Settled, NewPod, PodName;
    forall name | name in s ensures name !in NamesAt(d, out) {
      assert Settled(d, name, s[name]);
      NotNew(d, s, n, out, name);
    }
    assert born == NamesAt(d, out);
    NamesAtSize(d, out);
    forall name | name in t ensures Settled(d, name, t[name]) {
      if name in s {
        assert Settled(d, name, s[name]);
      } else {
        var i :| i in out && name == PodName(d, d.revision, i);
        assert t[name] == NewPod(d, i);
        NewIsSettled(d, i);
      }
    }
  }

  lemma {:induction false} NotNew(d: Deployment, s: Pods, n: nat, out: seq<nat>, name: string)
    requires SmallestFree(Used(d, s), n, out) && name in s && Settled(d, name, s[name])
    ensures name !in NamesAt(d, out)
  {
    NewNamesAreNew(d, s, n, out, name);
  }

  lemma {:induction false} NewIsSettled(d: Deployment, i: nat)
    ensures Settled(d, PodName(d, d.revision, i), NewPod(d, i))
  {
  }

  /** Scaling reaches the wanted number at once: down, */
  lemma {:induction false} ScaleDownProgress(d: Deployment, s: Pods, t: Pods, born: set<string>, healthy: Pod -> bool)
    requires Undisturbed(d, s) && Step(d, s, t, born) && Healthy(healthy) && |Active(d, s)| > Want(d)
    ensures var u := Ticked(t, born, healthy); Undisturbed(d, u) && Remaining(d, u) < Remaining(d, s)
  {
    hide First, SmallestFree, Undisturbed, Active, Old, Ready, Ticked, Deleted, Healthy;
    var active, want := Active(d, s), Want(d);
    ReadyAreActive(d, s);
    var gone :| First(d, s, active, |active| - want, gone) && t == Deleted(s, gone);
    FirstIsSubset(d, s, active, |active| - want, gone);
    ActiveAfterDelete(d, s, gone);
    DeleteSettles(d, s, gone);
    SubtractSize(active, gone);
    SubsetSize(Old(d, t), Old(d, s));
    TickOnlyHeals(d, t, born, healthy);
    TickSettles(d, t, born, healthy);
    ReadyAreActive(d, Ticked(t, born, healthy));
  }

  /** and up, to pods the tick leaves alone until the next sweep. */
  lemma {:induction false} ScaleUpProgress(d: Deployment, s: Pods, t: Pods, born: set<string>, healthy: Pod -> bool)
    requires Undisturbed(d, s) && Step(d, s, t, born) && Healthy(healthy) && |Active(d, s)| < Want(d)
    ensures var u := Ticked(t, born, healthy); Undisturbed(d, u) && Remaining(d, u) < Remaining(d, s)
  {
    hide First, SmallestFree, Undisturbed, Active, Old, Ready, Ticked, Created, Healthy;
    var active, want := Active(d, s), Want(d);
    var out :| SmallestFree(Used(d, s), want - |active|, out) && Created(d, s, out, t, born);
    CreateSettles(d, s, want - |active|, out, t, born);
    ActiveAfterCreate(d, s, out, t, born);
    ReadyAreActive(d, s);
    assert |active + born| == |active| + |born|;
    TickOnlyHeals(d, t, born, healthy);
    TickSettles(d, t, born, healthy);
  }

  lemma {:induction false} ReadyAreActive(d: Deployment, s: Pods)
    ensures Ready(d, s) <= Active(d, s) <= s.Keys && Old(d, s) <= Active(d, s)
  {
  }

  /** At the wanted number, a step retires old pods or waits for the tick to make pods ready. */
  lemma {:induction false} UpdateProgress(d: Deployment, s: Pods, t: Pods, born: set<string>, healthy: Pod -> bool)
    requires Undisturbed(d, s) && Step(d, s, t, born) && Healthy(healthy) && |Active(d, s)| == Want(d)
    ensures var u := Ticked(t, born, healthy);
            Undisturbed(d, u) && (!Converged(d, s) ==> Remaining(d, u) < Remaining(d, s))
            && (Converged(d, s) ==> u == s)
  {
    hide Step, Undisturbed, Active, Old, Ready, Ticked, Remaining, Healthy;
    if Old(d, s) != {} && (d.strategy.Recreate? || Ready(d, s) == Active(d, s)) {
      RetireProgress(d, s, t, born, healthy);
    } else {
      UpdateWaits(d, s, t, born);
      WaitProgress(d, s, healthy);
    }
  }

  lemma {:induction false} UpdateWaits(d: Deployment, s: Pods, t: Pods, born: set<string>)
    requires Step(d, s, t, born) && |Active(d, s)| == Want(d)
    requires Old(d, s) == {} || (d.strategy.RollingUpdate? && Ready(d, s) != Active(d, s))
    ensures t == s && born == {}
  {
  }

  /** Retiring old pods leaves fewer of them, */
  lemma {:induction false} RetireProgress(d: Deployment, s: Pods, t: Pods, born: set<string>, healthy: Pod -> bool)
    requires Undisturbed(d, s) && Step(d, s, t, born) && Healthy(healthy) && |Active(d, s)| == Want(d)
    requires Old(d, s) != {} && (d.strategy.Recreate? || Ready(d, s) == Active(d, s))
    ensures var u := Ticked(t, born, healthy); Undisturbed(d, u) && !Converged(d, s) && Remaining(d, u) < Remaining(d, s)
  {
    hide First, SmallestFree, Undisturbed, Active, Old, Ready, Ticked, Deleted, Healthy;
    var stale := Old(d, s);
    ReadyAreActive(d, s);
    var gone := stale;
    if d.strategy.RollingUpdate? {
      gone :| First(d, s, stale, 1, gone) && t == Deleted(s, gone);
      FirstIsSubset(d, s, stale, 1, gone);
    }
    ActiveAfterDelete(d, s, gone);
    DeleteSettles(d, s, gone);
    SubtractSize(stale, gone);
    TickOnlyHeals(d, t, born, healthy);
    TickSettles(d, t, born, healthy);
    assert |gone| > 0;
  }

  /** and waiting for the tick makes all pods ready. */
  lemma {:induction false} WaitProgress(d: Deployment, s: Pods, healthy: Pod -> bool)
    requires Undisturbed(d, s) && Healthy(healthy) && |Active(d, s)| == Want(d)
    ensures var u := Ticked(s, {}, healthy);
            Undisturbed(d, u) && (Ready(d, s) != Active(d, s) ==> !Converged(d, s) && Remaining(d, u) < Remaining(d, s))
            && (Ready(d, s) == Active(d, s) ==> u == s)
  {
    hide Undisturbed, Active, Old, Ready, Ticked, Healthy;
    TickOnlyHeals(d, s, {}, healthy);
    TickSettles(d, s, {}, healthy);
    ReadyAreActive(d, Ticked(s, {}, healthy));
    if Ready(d, s) == Active(d, s) {
      TickOfReady(d, s, healthy);
    }
  }

  lemma {:induction false} TickOfReady(d: Deployment, s: Pods, healthy: Pod -> bool)
    requires Undisturbed(d, s) && Ready(d, s) == Active(d, s) && Healthy(healthy)
    ensures Ticked(s, {}, healthy) == s
  {
    forall n | n in s ensures s[n].ready {
      assert Settled(d, n, s[n]);
      assert n in Active(d, s);
    }
  }

  /**
   Left alone with healthy pods, every sweep comes closer until exactly the wanted pods are
   there, and a converged store stays as it is.
   */
  lemma {:induction false} SweepConverges(d: Deployment, s: Pods, t: Pods, born: set<string>, healthy: Pod -> bool)
    requires Undisturbed(d, s) && Step(d, s, t, born) && Healthy(healthy)
    ensures var u := Ticked(t, born, healthy);
            Undisturbed(d, u) && (u == s <==> Converged(d, s)) && (!Converged(d, s) ==> Remaining(d, u) < Remaining(d, s))
  {
    hide Undisturbed, Step, Ticked;
    if |Active(d, s)| == Want(d) {
      UpdateProgress(d, s, t, born, healthy);
    } else if |Active(d, s)| > Want(d) {
      ScaleDownProgress(d, s, t, born, healthy);
    } else {
      ScaleUpProgress(d, s, t, born, healthy);
    }
  }
}
