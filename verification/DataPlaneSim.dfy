/**
 The Deployment half of the data-plane simulator (ctrltest/deployment_sim.go and the sweep in
 ctrltest/datasim.go): pods created and deleted in place, one step a sweep.
 */
module DataPlaneSim {
  import opened Wrappers
  import opened Ordinals
  import opened PodOrder
  import opened PodStore
  import opened Deployments
  import SS = StatefulSets
  import RO = Rollouts
  import RE = Retirements
  import opened StatefulSetClaims

  /** A list of the pods in the store, in some order. */
  ghost predicate Lists(all: seq<Pod>, s: Pods) {
    DistinctNames(all) && forall p :: p in all <==> p.name in s && s[p.name] == p
  }

  ghost function NamesIn(ps: seq<Pod>): set<string> { set p | p in ps :: p.name }

  lemma {:induction false} NamesInSize(ps: seq<Pod>)
    requires DistinctNames(ps)
    ensures |NamesIn(ps)| == |ps|
  {
    if |ps| == 0 {
      assert NamesIn(ps) == {};
    } else {
      var front, last := ps[..|ps| - 1], ps[|ps| - 1];
      NamesInSize(front);
      assert ps == front + [last];
      assert NamesIn(ps) == NamesIn(front) + {last.name};
    }
  }

  /** `ps` holds exactly the pods of `s` named in `names`. */
  ghost predicate Shows(ps: seq<Pod>, s: Pods, names: set<string>) {
    DistinctNames(ps) && names <= s.Keys && forall p :: p in ps <==> p.name in names && s[p.name] == p
  }

  lemma {:induction false} ShownNames(ps: seq<Pod>, s: Pods, names: set<string>)
    requires Shows(ps, s, names) && Keyed(s)
    ensures NamesIn(ps) == names && |ps| == |names|
  {
    forall n | n in names ensures n in NamesIn(ps) {
      assert s[n] in ps;
    }
    NamesInSize(ps);
  }

  /** The first `n` of the pods in order of deletion are the ones to go. */
  lemma {:induction false} FrontIsFirst(d: Deployment, s: Pods, ps: seq<Pod>, among: set<string>, n: nat)
    requires Shows(ps, s, among) && Keyed(s) && n <= |ps|
    ensures var sorted := DeletionPriority(d.revision, ps);
            |sorted| == |ps| && DistinctNames(sorted) && First(d, s, among, n, NamesIn(sorted[..n]))
            && forall p | p in sorted :: p.name in s && s[p.name] == p
  {
    hide Sooner, DeletionPriority;
    var sorted := DeletionPriority(d.revision, ps);
    DeletionPrioritySorts(d.revision, ps);
    assert |multiset(sorted)| == |multiset(ps)|;
    forall p | p in sorted ensures p in ps {
      assert p in multiset(sorted);
    }
    forall p | p in ps ensures p in sorted {
      assert p in multiset(sorted);
    }
    forall i, j | 0 <= i < j < |sorted| ensures sorted[i].name != sorted[j].name {
      SoonerTrichotomy(d.revision, sorted[i], sorted[j]);
      assert sorted[i] in sorted && sorted[j] in sorted;
    }
    NamesInSize(sorted[..n]);
    forall j | 0 <= j < n ensures sorted[j].name in NamesIn(sorted[..n]) {
      assert sorted[..n][j] == sorted[j];
    }
    forall v, a | v in NamesIn(sorted[..n]) && a in among - NamesIn(sorted[..n])
      ensures Sooner(d.revision, s[v], s[a])
    {
      var i :| 0 <= i < n && sorted[i].name == v;
      assert s[a] in sorted;
      var j :| 0 <= j < |sorted| && sorted[j] == s[a];
    }
  }

  lemma {:induction false} ShowsNext(ps: seq<Pod>, s: Pods, names: set<string>, all: seq<Pod>, i: nat)
    requires i < |all| && DistinctNames(all) && Shows(ps, s, names * NamesIn(all[..i]))
    requires all[i].name in s && s[all[i].name] == all[i]
    ensures Shows(if all[i].name in names then ps + [all[i]] else ps, s, names * NamesIn(all[..i + 1]))
  {
    assert all[..i + 1] == all[..i] + [all[i]];
    assert NamesIn(all[..i + 1]) == NamesIn(all[..i]) + {all[i].name};
    forall p | p in all[..i] ensures p.name != all[i].name {
      var j :| 0 <= j < i && all[j] == p;
    }
  }

  lemma {:induction false} CountNext(names: set<string>, all: seq<Pod>, i: nat)
    requires i < |all| && DistinctNames(all)
    ensures |names * NamesIn(all[..i + 1])| == |names * NamesIn(all[..i])| + if all[i].name in names then 1 else 0
  {
    assert all[..i + 1] == all[..i] + [all[i]];
    assert NamesIn(all[..i + 1]) == NamesIn(all[..i]) + {all[i].name};
    forall p | p in all[..i] ensures p.name != all[i].name {
      var j :| 0 <= j < i && all[j] == p;
    }
    OneMore(names, NamesIn(all[..i]), all[i].name);
  }

  lemma {:induction false} OneMore<T>(a: set<T>, b: set<T>, x: T)
    requires x !in b
    ensures |a * (b + {x})| == |a * b| + if x in a then 1 else 0
  {
    assert a * (b + {x}) == if x in a then a * b + {x} else a * b;
  }

  lemma {:induction false} AllShown(ps: seq<Pod>, s: Pods, names: set<string>, all: seq<Pod>)
    requires Shows(ps, s, names * NamesIn(all[..|all|])) && Keyed(s)
    requires forall n | n in names :: n in s && s[n] in all
    ensures Shows(ps, s, names) && |ps| == |names|
  {
    assert all[..|all|] == all;
    assert names * NamesIn(all) == names;
    ShownNames(ps, s, names);
  }

  lemma {:induction false} AllReadyMeans(d: Deployment, s: Pods, active: seq<Pod>)
    requires Shows(active, s, Active(d, s)) && Keyed(s)
    ensures EveryPodReady(active) <==> Active(d, s) != {} && Ready(d, s) == Active(d, s)
  {
    SomeElement(active);
    forall n | n in Active(d, s) ensures s[n] in active {
    }
    if Ready(d, s) == Active(d, s) {
      forall p | p in active ensures p.ready {
        assert p.name in Ready(d, s);
      }
    }
    ShownNames(active, s, Active(d, s));
  }

  ghost function MineOf(d: Deployment, s: Pods): set<string> {
    set n | n in s && Owned(d, s[n])
  }

  /** The ordinals read off the pods of the current revision among `ps`. */
  ghost function UsedBy(d: Deployment, ps: seq<Pod>): set<nat> {
    set p | p in ps && p.revision == d.revision && ParseOrdinal(p.name, Prefix(d, d.revision)).Some?
      :: ParseOrdinal(p.name, Prefix(d, d.revision)).value
  }

  lemma {:induction false} UsedByMine(d: Deployment, s: Pods, mine: seq<Pod>)
    requires Keyed(s) && Shows(mine, s, MineOf(d, s))
    ensures UsedBy(d, mine) == Used(d, s)
  {
    forall n | n in s && Owned(d, s[n]) ensures s[n] in mine {
    }
  }

  lemma {:induction false} CreatedNext(d: Deployment, s: Pods, out: seq<nat>, i: nat, t: Pods, born: set<string>)
    requires Ascending(out) && i < |out| && Created(d, s, out[..i], t, born)
    ensures var p := NewPod(d, out[i]);
            Created(d, s, out[..i + 1], if p.name in t then t else t[p.name := p], if p.name in t then born else born + {p.name})
  {
    hide PodName;
    var p := NewPod(d, out[i]);
    assert out[..i + 1] == out[..i] + [out[i]];
    assert NamesAt(d, out[..i + 1]) == NamesAt(d, out[..i]) + {p.name};
    forall j | j in out[..i] ensures PodName(d, d.revision, j) != p.name {
      if PodName(d, d.revision, j) == p.name {
        PodNameIsInjective(d, d.revision, j, d.revision, out[i]);
      }
    }
  }

  // ----- Status -----

  datatype MaxUnavailable = Count(pods: nat) | Percent(percent: nat) | Malformed

  datatype Status = Status(replicas: nat, updated: nat, ready: nat, available: nat, unavailable: nat,
                           isAvailable: bool, isComplete: bool)

  /** How many pods may be missing: nothing for Recreate or a malformed percentage, rounded down otherwise. */
  function Tolerated(d: Deployment, mu: MaxUnavailable): nat {
    if d.strategy.Recreate? then 0
    else
      match mu
      case Count(n) => n
      case Percent(p) => p * Want(d) / 100
      case Malformed => 0
  }

  /**
   A percentage tolerates the largest number of pods that is not above it, a number itself, and
   neither a malformed percentage nor a Deployment that recreates its pods tolerates any.
   */
  lemma {:induction false} ToleratedMeaning(d: Deployment, percent: nat, n: nat)
    ensures Tolerated(d, Percent(percent)) == n <==>
            if d.strategy.Recreate? then n == 0 else 100 * n <= percent * Want(d) < 100 * (n + 1)
    ensures d.strategy.RollingUpdate? ==> Tolerated(d, Count(n)) == n
    ensures d.strategy.Recreate? ==> Tolerated(d, Count(n)) == 0
    ensures Tolerated(d, Malformed) == 0
  {
  }

  lemma {:induction false} ShownMeans(d: Deployment, s: Pods, active: seq<Pod>, i: nat)
    requires Shows(active, s, Active(d, s)) && i < |active|
    ensures DistinctNames(active)
    ensures active[i].name in Current(d, s) <==> active[i].revision == d.revision
    ensures active[i].name in Ready(d, s) <==> active[i].ready
  {
    assert active[i] in active;
  }

  lemma {:induction false} AmongActive(d: Deployment, s: Pods)
    ensures Current(d, s) * Active(d, s) == Current(d, s) && Ready(d, s) * Active(d, s) == Ready(d, s)
  {
  }

  ghost function Current(d: Deployment, s: Pods): set<string> { Active(d, s) - Old(d, s) }

  /** The status that belongs to these pods. */
  ghost predicate IsStatus(d: Deployment, s: Pods, mu: MaxUnavailable, status: Status) {
    && status.replicas == |Active(d, s)| && status.updated == |Current(d, s)|
    && status.ready == |Ready(d, s)| && status.available == |Ready(d, s)|
    && status.unavailable == Max(Want(d) - |Ready(d, s)|, 0)
    && (status.isAvailable <==> |Ready(d, s)| + Tolerated(d, mu) >= Want(d))
    && (status.isComplete <==> |Current(d, s)| == Want(d) && |Ready(d, s)| >= Want(d))
  }

  /** The numbers a status reports are those of the Deployment's pods that are not being deleted. */
  lemma {:induction false} StatusCounts(d: Deployment, s: Pods, mu: MaxUnavailable, status: Status)
    requires IsStatus(d, s, mu, status)
    ensures var mine := set n | n in s && RE.Mine(d, s, n);
            && status.replicas == |mine|
            && status.updated == |set n | n in mine && s[n].revision == d.revision|
            && status.ready == status.available == |set n | n in mine && s[n].ready|
            && status.unavailable + Min(status.available, Want(d)) == Want(d)
            && (status.isAvailable <==> Want(d) <= status.available + Tolerated(d, mu))
  {
    RE.MineIsActive(d, s);
    assert (set n | n in Active(d, s) && s[n].revision == d.revision) == Current(d, s);
    assert (set n | n in Active(d, s) && s[n].ready) == Ready(d, s);
  }

  /**
   The status reports a complete rollout of exactly the wanted pods if and only if the store has
   converged, and then reports it available with nothing missing.
   */
  lemma {:induction false} StatusTellsConvergence(d: Deployment, s: Pods, mu: MaxUnavailable, status: Status)
    requires IsStatus(d, s, mu, status)
    ensures Converged(d, s) <==> status.isComplete && status.replicas == Want(d)
    ensures status.replicas <= Want(d) ==> (Converged(d, s) <==> status.isComplete)
    ensures Converged(d, s) ==> status.isAvailable && status.unavailable == 0
  {
    ReadyAreActive(d, s);
    SubsetSize(Ready(d, s), Active(d, s));
    assert Active(d, s) == Current(d, s) + Old(d, s);
    SubtractSize(Active(d, s), Ready(d, s));
  }

  class Simulator {
    /** What the pod status tick finds of a pod: all containers healthy, all gates true, no fault. */
    const healthy: Pod -> bool

    var pods: Pods
    var claims: Claims
    var born: set<string>

    constructor (pods: Pods, claims: Claims, healthy: Pod -> bool)
      ensures this.pods == pods && this.claims == claims && this.healthy == healthy && born == {}
    {
      this.pods, this.claims, this.healthy, born := pods, claims, healthy, {};
    }

    method ListPods() returns (all: seq<Pod>)
      requires Keyed(pods)
      ensures Lists(all, pods)
    {
      all := [];
      var left := pods.Keys;
      while left != {}
        invariant left <= pods.Keys && DistinctNames(all)
        invariant forall p :: p in all <==> p.name in pods && p.name !in left && pods[p.name] == p
        decreases |left|
      {
        var n :| n in left;
        left := left - {n};
        all := all + [pods[n]];
      }
    }

    /** Deletes a pod: it goes at once, unless something holds it. */
    method Delete(name: string)
      modifies this`pods
      ensures pods == Deleted(old(pods), {name})
    {
      if name in pods {
        pods := if pods[name].held then pods[name := pods[name].(terminating := true)] else pods - {name};
      }
    }

    method DeleteAll(victims: seq<Pod>)
      modifies this`pods
      ensures pods == Deleted(old(pods), NamesIn(victims))
    {
      for i := 0 to |victims|
        invariant pods == Deleted(old(pods), NamesIn(victims[..i]))
      {
        assert NamesIn(victims[..i + 1]) == NamesIn(victims[..i]) + {victims[i].name};
        Delete(victims[i].name);
      }
      assert victims[..|victims|] == victims;
    }

    /** Creates a pod on a workload's behalf and notes that it was born in this sweep. */
    method CreatePod(p: Pod)
      modifies this`pods, this`born
      ensures pods == if p.name in old(pods) then old(pods) else old(pods)[p.name := p]
      ensures born == if p.name in old(pods) then old(born) else old(born) + {p.name}
    {
      if p.name !in pods {
        pods := pods[p.name := p];
        born := born + {p.name};
      }
    }

    method CreateDeploymentPods(d: Deployment, mine: seq<Pod>, n: nat)
      requires Keyed(pods) && born == {}
      requires Shows(mine, pods, MineOf(d, pods))
      modifies this`pods, this`born
      ensures exists out :: SmallestFree(Used(d, old(pods)), n, out) && Created(d, old(pods), out, pods, born)
    {
      var prefix := Prefix(d, d.revision);
      var used: set<nat> := {};
      for i := 0 to |mine|
        invariant used == UsedBy(d, mine[..i])
        modifies {}
      {
        assert mine[..i + 1] == mine[..i] + [mine[i]];
        if mine[i].revision == d.revision {
          var ord := ParseOrdinal(mine[i].name, prefix);
          if ord.Some? {
            used := used + {ord.value};
          }
        }
      }
      assert mine[..|mine|] == mine;
      UsedByMine(d, pods, mine);
      var out := NextOrdinals(used, n);
      for i := 0 to |out|
        invariant Created(d, old(pods), out[..i], pods, born)
      {
        CreatedNext(d, old(pods), out, i, pods, born);
        CreatePod(NewPod(d, out[i]));
      }
      assert out[..|out|] == out;
    }

    /** The Deployment's pods on the list, and those of them not being deleted. */
    method SelectPods(d: Deployment, all: seq<Pod>) returns (mine: seq<Pod>, active: seq<Pod>)
      requires Keyed(pods) && Lists(all, pods)
      ensures Shows(mine, pods, MineOf(d, pods))
      ensures Shows(active, pods, Active(d, pods)) && |active| == |Active(d, pods)|
    {
      mine, active := [], [];
      for i := 0 to |all|
        invariant Shows(mine, pods, MineOf(d, pods) * NamesIn(all[..i]))
        invariant Shows(active, pods, Active(d, pods) * NamesIn(all[..i]))
      {
        ShowsNext(mine, pods, MineOf(d, pods), all, i);
        ShowsNext(active, pods, Active(d, pods), all, i);
        if Owned(d, all[i]) {
          mine := mine + [all[i]];
          if !all[i].terminating {
            active := active + [all[i]];
          }
        }
      }
      AllShown(mine, pods, MineOf(d, pods), all);
      AllShown(active, pods, Active(d, pods), all);
    }

    /** At the wanted number: deletes what the strategy lets go of the pods at old revisions. */
    method RetireOldPods(d: Deployment, active: seq<Pod>)
      requires Keyed(pods) && Shows(active, pods, Active(d, pods))
      requires |Active(d, pods)| == Want(d)
      modifies this`pods
      ensures Step(d, old(pods), pods, {})
    {
      hide SmallestFree, Created, Deleted;
      var stale: seq<Pod> := [];
      for i := 0 to |active|
        invariant Shows(stale, pods, Old(d, pods) * NamesIn(active[..i]))
        modifies {}
      {
        ShowsNext(stale, pods, Old(d, pods), active, i);
        if active[i].revision != d.revision {
          stale := stale + [active[i]];
        }
      }
      AllShown(stale, pods, Old(d, pods), active);
      AllReadyMeans(d, pods, active);
      if |stale| == 0 {
        return;
      }
      ShownNames(stale, pods, Old(d, pods));
      if d.strategy.Recreate? {
        DeleteAll(stale);
        return;
      }
      if !EveryPodReady(active) {
        return;
      }
      var victims := DeletionPriority(d.revision, stale);
      FrontIsFirst(d, pods, stale, Old(d, pods), 1);
      assert NamesIn(victims[..1]) == {victims[0].name};
      Delete(victims[0].name);
    }

    /** One step of one Deployment toward its spec, on a list of the pods as they are. */
    method ReconcileDeploymentPods(d: Deployment, all: seq<Pod>)
      requires Keyed(pods) && Lists(all, pods) && born == {}
      modifies this`pods, this`born
      ensures Step(d, old(pods), pods, born)
    {
      hide First, SmallestFree, Created, Deleted, Lists, Shows;
      var mine, active := SelectPods(d, all);
      var want, total := Want(d), |active|;
      if total > want {
        FrontIsFirst(d, pods, active, Active(d, pods), total - want);
        var victims := DeletionPriority(d.revision, active);
        DeleteAll(victims[..total - want]);
      } else if total < want {
        CreateDeploymentPods(d, mine, want - total);
      } else {
        RetireOldPods(d, active);
      }
    }

    /** The pod half of the status tick: every pod not born in this sweep shows its health. */
    method TickPods()
      modifies this`pods
      ensures pods == Ticked(old(pods), born, healthy)
    {
      var left := pods.Keys;
      ghost var s := pods;
      while left != {}
        invariant left <= s.Keys && pods.Keys == s.Keys
        invariant forall n | n in s :: pods[n] == if n in left then s[n] else Ticked(s, born, healthy)[n]
        decreases |left|
      {
        var n :| n in left;
        left := left - {n};
        if !pods[n].terminating && n !in born {
          pods := pods[n := pods[n].(ready := healthy(pods[n]))];
        }
      }
    }

    /** How many of the listed active pods are current, and how many ready. */
    method CountPods(d: Deployment, active: seq<Pod>) returns (updated: nat, ready: nat)
      requires Shows(active, pods, Active(d, pods))
      ensures updated == |Current(d, pods) * NamesIn(active)| && ready == |Ready(d, pods) * NamesIn(active)|
    {
      hide Lists, Active, Ready, Current, Shows;
      updated, ready := 0, 0;
      for i := 0 to |active|
        invariant updated == |Current(d, pods) * NamesIn(active[..i])|
        invariant ready == |Ready(d, pods) * NamesIn(active[..i])|
      {
        ShownMeans(d, pods, active, i);
        CountNext(Current(d, pods), active, i);
        CountNext(Ready(d, pods), active, i);
        if active[i].revision == d.revision {
          updated := updated + 1;
        }
        if active[i].ready {
          ready := ready + 1;
        }
      }
      assert active[..|active|] == active;
    }

    method UpdateDeploymentStatus(d: Deployment, mu: MaxUnavailable) returns (status: Status)
      requires Keyed(pods)
      ensures IsStatus(d, pods, mu, status)
    {
      hide Lists, Active, Ready, Current, Old, Shows;
      var all := ListPods();
      var _, active := SelectPods(d, all);
      var updated, ready := CountPods(d, active);
      ShownNames(active, pods, Active(d, pods));
      AmongActive(d, pods);
      var want: int, tolerated: int := Want(d), Tolerated(d, mu);
      status := Status(|active|, updated, ready, ready, Max(want - ready, 0),
                       ready >= want - tolerated, updated == want && ready >= want);
    }

    /**
     One sweep: the Deployment's step, then the pods' status, then the Deployment's, which
     reports a complete rollout exactly when there is nothing left to do.
     */
    method Sweep(d: Deployment, mu: MaxUnavailable) returns (status: Status)
      requires Keyed(pods) && !d.terminating
      modifies this`pods, this`born
      ensures Keyed(pods) && IsStatus(d, pods, mu, status)
      ensures status.isComplete <==> Converged(d, pods)
      ensures RE.DeletesInOrder(d, old(pods), pods) && RE.CreatesLowest(d, old(pods), pods)
      ensures ShowsHealth(old(pods), pods, healthy)
      ensures exists t :: Step(d, old(pods), t, born) && pods == Ticked(t, born, healthy)
    {
      hide Step, Lists, Converged, RE.DeletesInOrder, RE.CreatesLowest, ShowsHealth;
      ghost var s := pods;
      born := {};
      var all := ListPods();
      ReconcileDeploymentPods(d, all);
      StepKeepsNames(d, s, pods, born);
      RE.SweepDeletesInOrder(d, s, pods, born, healthy);
      RE.SweepCreatesLowest(d, s, pods, born, healthy);
      SweepShowsHealth(d, s, pods, born, healthy);
      StepScalesDown(d, s, pods, born);
      TickKeepsActive(d, pods, born, healthy);
      TickPods();
      status := UpdateDeploymentStatus(d, mu);
      StatusTellsConvergence(d, pods, mu, status);
    }

    /**
     Sweeps of one Deployment with a fixed spec and healthy pods. With nobody else at work they
     converge within three sweeps for each pod at an old revision and two more; and whatever
     else is in the store, a rolling update once available stays so. A stalled store never
     converges.
     */
    method Run(d: Deployment, mu: MaxUnavailable, sweeps: nat)
      requires Keyed(pods) && !d.terminating && Healthy(healthy)
      modifies this`pods, this`born
      ensures Keyed(pods)
      ensures Undisturbed(d, old(pods)) && sweeps >= 3 * |Old(d, old(pods))| + 2 ==> Converged(d, pods)
      ensures d.strategy.RollingUpdate? && |Ready(d, old(pods))| >= Want(d) && sweeps > 0 ==> Available(d, pods)
      ensures Stalled(d, old(pods)) ==> pods.Keys == old(pods).Keys && Active(d, pods) == Active(d, old(pods)) && !Converged(d, pods)
    {
      hide Step, Keyed, Undisturbed, Converged, Remaining, Healthy, Available, Ready, Old, Stalled, SweptTo, Active, Ticked;
      hide RE.DeletesInOrder, RE.CreatesLowest, ShowsHealth;
      ghost var s0 := pods;
      NotSweptYet(d, s0);
      for i := 0 to sweeps
        invariant Keyed(pods)
        invariant Undisturbed(d, s0) ==> Undisturbed(d, pods)
        invariant Undisturbed(d, s0) ==> Converged(d, pods) || Remaining(d, pods) + i <= Remaining(d, s0)
        invariant d.strategy.RollingUpdate? && |Ready(d, s0)| >= Want(d) ==> if i == 0 then pods == s0 else Available(d, pods)
        invariant SweptTo(d, s0, pods, i)
      {
        ghost var s := pods;
        var _ := Sweep(d, mu);
        ghost var t :| Step(d, s, t, born) && pods == Ticked(t, born, healthy);
        SweptNext(d, s0, s, t, born, healthy, i);
        if Undisturbed(d, s) {
          SweepConverges(d, s, t, born, healthy);
        }
        if d.strategy.RollingUpdate? && (|Ready(d, s)| >= Want(d) || Available(d, s)) {
          SweepKeepsAvailable(d, s, t, born, healthy);
        }
      }
      NothingRemains(d, pods);
      RemainingBound(d, s0);
      if Stalled(d, s0) {
        StalledForGood(d, s0, pods, sweeps);
      }
    }

    // ----- StatefulSets -----

    /** The set's pods on the list, being deleted or not, by ordinal. */
    method StatefulSetPodOrdinals(ss: SS.StatefulSet, all: seq<Pod>) returns (idx: SS.Index)
      requires Lists(all, pods)
      ensures SS.IsIndex(ss, pods, idx)
    {
      idx := map[];
      for i := 0 to |all|
        invariant forall k | k in idx :: SS.SitsAt(ss, pods, idx[k], k)
        invariant forall p, k :: SS.SitsAt(ss, pods, p, k) && p in all[..i] ==> k in idx
      {
        assert all[..i + 1] == all[..i] + [all[i]];
        assert all[i] in all;
        if SS.Owned(ss, all[i]) {
          var ord := SS.OrdinalOf(ss, all[i].name);
          if ord.Some? {
            idx := idx[ord.value := all[i]];
          }
        }
      }
      assert all[..|all|] == all;
    }

    /** The ordinals of active pods that are no longer wanted. */
    method ExtraOrdinals(ss: SS.StatefulSet, idx: SS.Index) returns (extras: set<nat>)
      ensures extras == SS.Extras(ss, idx)
    {
      extras := {};
      var left := idx.Keys;
      while left != {}
        invariant left <= idx.Keys && extras == SS.Extras(ss, idx) - left
        decreases |left|
      {
        var k: nat :| k in left;
        left := left - {k};
        if k >= SS.Want(ss) && !idx[k].terminating {
          extras := extras + {k};
        }
      }
    }

    /**
     Deletes active pods at ordinals no longer wanted, the highest first and, unless management
     is parallel, only that one.
     */
    method ScaleDownStatefulSet(ss: SS.StatefulSet, idx: SS.Index) returns (acted: bool)
      modifies this`pods
      ensures acted <==> SS.Extras(ss, idx) != {}
      ensures if acted then SS.ScaleDown(ss, idx, old(pods), pods) else pods == old(pods)
    {
      hide Deleted, SS.PodsAt;
      var extras := ExtraOrdinals(ss, idx);
      acted := extras != {};
      ghost var all, s := extras, pods;
      DeletedNone(idx, s);
      while extras != {}
        invariant extras <= all
        invariant pods == Deleted(s, SS.PodsAt(idx, all - extras))
        invariant !ss.parallel ==> extras == all
        decreases |extras|
      {
        var k := Greatest(extras);
        Delete(idx[k].name);
        DeletedMore(idx, s, all - extras, k);
        assert all - (extras - {k}) == all - extras + {k};
        if !ss.parallel {
          assert all - extras + {k} == {k};
          return;
        }
        extras := extras - {k};
      }
      assert all - {} == all;
    }

    /** Creates the pod at one more ordinal than `ks`, all created since `s`. */
    method CreateStatefulSetPod(ss: SS.StatefulSet, ord: nat, ghost ks: set<nat>, ghost s: Pods)
      requires SS.Created(ss, s, ks, pods, born) && ord !in ks
      modifies this`pods, this`born
      ensures SS.Created(ss, s, ks + {ord}, pods, born)
    {
      hide SS.Created;
      SS.CreatedNext(ss, s, ks, ord, pods, born);
      CreatePod(SS.NewPod(ss, ord));
    }

    /**
     Creates pods at missing ordinals: all of them, or in order the lowest, once all before it
     are ready. Reports whether to do nothing further.
     */
    method CreateStatefulSetPods(ss: SS.StatefulSet, idx: SS.Index) returns (acted: bool)
      requires born == {}
      modifies this`pods, this`born
      ensures acted <==> SS.Creating(ss, idx)
      ensures if acted then SS.Create(ss, idx, old(pods), pods, born) else pods == old(pods) && born == {}
    {
      hide SS.Created, SS.MissingBefore, SS.BlockedBefore, SS.Create, SS.Creating;
      acted := false;
      ghost var s, made: set<nat> := pods, {};
      SS.CreatedNone(ss, s);
      SS.BeforeFirst(ss, idx);
      for ord := 0 to SS.Want(ss)
        invariant made == SS.MissingBefore(ss, idx, ord)
        invariant SS.Created(ss, s, made, pods, born)
        invariant acted <==> made != {}
        invariant acted || (pods == s && born == {})
        invariant !ss.parallel ==> !acted && SS.BlockedBefore(ss, idx, ord) == {}
      {
        SS.BeforeNext(ss, idx, ord);
        if ord !in idx {
          CreateStatefulSetPod(ss, ord, made, s);
          acted := true;
          if !ss.parallel {
            assert made + {ord} == {ord};
            SS.CreatesLeast(ss, idx, ord, s, pods, born);
            return;
          }
          made := made + {ord};
        } else if !ss.parallel && (idx[ord].terminating || !idx[ord].ready) {
          acted := true;
          SS.CreatesLeast(ss, idx, ord, s, pods, born);
          return;
        }
      }
      SS.CreatesAll(ss, idx, made, s, pods, born);
    }

    /** Deletes the highest pod at or above the partition that an update replaces, once all are ready. */
    method RollStatefulSetPod(ss: SS.StatefulSet, idx: SS.Index)
      modifies this`pods
      ensures SS.Roll(ss, idx, old(pods), pods)
      ensures pods != old(pods) ==>
        exists k: nat :: k in idx && ss.partition <= k < SS.Want(ss) && pods == Deleted(old(pods), {idx[k].name})
          && idx[k].revision != ss.revision
          && forall j: nat | j in idx && j < SS.Want(ss) :: idx[j].ready && (k < j ==> idx[j].revision == ss.revision)
    {
      if ss.onDelete {
        return;
      }
      var active: seq<Pod> := [];
      for ord := 0 to SS.Want(ss)
        invariant forall p :: p in active <==> exists k: nat :: k < ord && k in idx && p == idx[k]
        modifies {}
      {
        if ord in idx {
          active := active + [idx[ord]];
        }
      }
      SomeElement(active);
      if !EveryPodReady(active) {
        SS.NotAllReady(ss, idx, active);
        return;
      }
      assert forall k | k in idx && k < SS.Want(ss) :: idx[k] in active;
      var ord := SS.Want(ss);
      while ord > ss.partition
        invariant pods == old(pods)
        invariant forall k | k in SS.Stale(ss, idx) :: k < ord
        invariant forall k: nat | k in idx && ord <= k < SS.Want(ss) :: idx[k].revision == ss.revision
      {
        ord := ord - 1;
        if ord in idx && idx[ord].revision != ss.revision {
          Delete(idx[ord].name);
          assert SS.IsGreatest(SS.Stale(ss, idx), ord);
          assert SS.PodsAt(idx, {ord}) == {idx[ord].name};
          assert forall j: nat | j in idx && j < SS.Want(ss) :: idx[j].ready && (ord < j ==> idx[j].revision == ss.revision);
          return;
        }
      }
    }

    /** One step of one StatefulSet's pods toward its spec. */
    method ReconcileStatefulSetPods(ss: SS.StatefulSet, idx: SS.Index)
      requires born == {}
      modifies this`pods, this`born
      ensures SS.Step(ss, idx, old(pods), pods, born)
    {
      hide SS.Extras, SS.Creating, SS.ScaleDown, SS.Create, SS.Roll;
      var acted := ScaleDownStatefulSet(ss, idx);
      if acted {
        return;
      }
      acted := CreateStatefulSetPods(ss, idx);
      if acted {
        return;
      }
      RollStatefulSetPod(ss, idx);
    }

    method DeleteClaim(name: string)
      modifies this`claims
      ensures claims == Dropped(old(claims), {name})
    {
      if name in claims {
        claims := if claims[name].held then claims[name := claims[name].(terminating := true)] else claims - {name};
      }
    }

    method CreateClaim(name: string, owned: bool)
      modifies this`claims
      ensures claims == WithClaims(old(claims), {name}, owned)
    {
      if name !in claims {
        claims := claims[name := Claim(owned, false, false)];
      }
    }

    /** Creates the claims of one template that no existing one reads as. */
    method ProvideClaims(ss: SS.StatefulSet, template: string, existing: map<nat, string>)
      modifies this`claims
      ensures claims == WithClaims(old(claims), Provided(ss, template, existing), ss.ownClaims)
    {
      hide WithClaims, ClaimName, ProvidedBefore, Provided;
      ghost var c := claims;
      ProvidedEnds(ss, template, existing);
      WithNoClaims(c, ProvidedBefore(ss, template, existing, 0), ss.ownClaims);
      for ord := 0 to SS.Want(ss)
        invariant claims == WithClaims(c, ProvidedBefore(ss, template, existing, ord), ss.ownClaims)
      {
        ProvidedNext(ss, template, existing, ord);
        if ord !in existing {
          WithOneMore(c, ProvidedBefore(ss, template, existing, ord), ClaimName(ss, template, ord), ss.ownClaims);
          CreateClaim(ClaimName(ss, template, ord), ss.ownClaims);
        }
      }
    }

    /** Deletes the claims of one template at ordinals scaled away whose pods are gone. */
    method RetireClaims(ss: SS.StatefulSet, idx: SS.Index, existing: map<nat, string>)
      requires ss.deleteScaled
      modifies this`claims
      ensures claims == Dropped(old(claims), ScaledAway(ss, idx.Keys, existing))
    {
      hide Dropped;
      ghost var d, seen: set<nat> := claims, {};
      DroppedNone(d, ScaledAwayAmong(ss, idx.Keys, existing, {}));
      var left := existing.Keys;
      while left != {}
        invariant left + seen == existing.Keys
        invariant claims == Dropped(d, ScaledAwayAmong(ss, idx.Keys, existing, seen))
        decreases |left|
      {
        var k: nat :| k in left;
        ScaledAwayNext(ss, idx.Keys, existing, seen, k);
        if k >= SS.Want(ss) && k !in idx {
          DroppedOneMore(d, ScaledAwayAmong(ss, idx.Keys, existing, seen), existing[k]);
          DeleteClaim(existing[k]);
        }
        left, seen := left - {k}, seen + {k};
      }
      assert ScaledAwayAmong(ss, idx.Keys, existing, seen) == ScaledAway(ss, idx.Keys, existing);
    }

    /** Provides and retires the claims of one template, on a list of all claims taken before. */
    method ReconcileTemplate(ss: SS.StatefulSet, template: string, idx: SS.Index, listed: set<string>)
      modifies this`claims
      ensures TemplateStep(ss, template, idx.Keys, listed, old(claims), claims)
    {
      hide WithClaims, Provided, Dropped;
      var existing := ExistingClaims(ss, template, listed);
      ProvideClaims(ss, template, existing);
      if ss.deleteScaled {
        RetireClaims(ss, idx, existing);
      } else {
        DroppedNone(claims, ScaledAway(ss, idx.Keys, existing));
      }
    }

    /** Every claim template in turn. */
    method ReconcileStatefulSetClaims(ss: SS.StatefulSet, idx: SS.Index, listed: set<string>)
      modifies this`claims
      ensures ClaimsStep(ss, ss.templates, idx.Keys, listed, old(claims), claims)
    {
      hide TemplateStep;
      for i := 0 to |ss.templates|
        invariant ClaimsStep(ss, ss.templates[..i], idx.Keys, listed, old(claims), claims)
      {
        ghost var mid := claims;
        assert ss.templates[..i + 1][..i] == ss.templates[..i];
        ReconcileTemplate(ss, ss.templates[i], idx, listed);
        assert TemplateStep(ss, ss.templates[i], idx.Keys, listed, mid, claims);
      }
      assert ss.templates[..|ss.templates|] == ss.templates;
    }

    /** One sweep of one StatefulSet: its claims, its pods, then the pods' status. */
    method SweepStatefulSet(ss: SS.StatefulSet)
      requires Keyed(pods) && !ss.terminating
      modifies this
      ensures Keyed(pods)
      ensures RO.RolledInOrder(ss, old(pods), pods) && RO.ScaledInOrder(ss, old(pods), pods) && RO.ActsAtOnce(ss, old(pods), pods)
      ensures ShowsHealth(old(pods), pods, healthy)
      ensures exists idx, t :: StatefulSetSwept(ss, idx, old(pods), t, born, old(claims), claims) && pods == Ticked(t, born, healthy)
    {
      hide Lists, SS.IsIndex, SS.Step, ClaimsStep, ShowsHealth, RO.RolledInOrder, RO.ScaledInOrder, RO.ActsAtOnce;
      ghost var s, c := pods, claims;
      born := {};
      var all := ListPods();
      var idx := StatefulSetPodOrdinals(ss, all);
      ReconcileStatefulSetClaims(ss, idx, claims.Keys);
      ReconcileStatefulSetPods(ss, idx);
      SS.StepKeepsNames(ss, s, idx, pods, born);
      ghost var t := pods;
      TickPods();
      assert StatefulSetSwept(ss, idx, s, t, born, c, claims);
      RO.SweepRollsInOrder(ss, s, idx, t, born, healthy);
      SS.SweepShowsHealth(ss, s, idx, t, born, healthy);
    }

    /**
     Sweeps of one StatefulSet with a fixed spec. Whatever the pods' health, the pods below the
     partition stay, every pod keeps its claims, and a rollout comes down from the highest ordinal
     one by one. With healthy pods and nobody else at work the set converges.
     */
    method RunStatefulSet(ss: SS.StatefulSet, sweeps: nat)
      requires Keyed(pods) && !ss.terminating
      modifies this
      ensures Keyed(pods)
      ensures SS.Spared(ss, old(pods), pods)
      ensures RO.RollsOn(ss, old(pods), pods)
      ensures ProperName(ss) && Canonical(ss, old(claims).Keys) && PodsHaveClaims(ss, old(pods), old(claims)) ==>
        PodsHaveClaims(ss, pods, claims)
      ensures Healthy(healthy) && SS.Undisturbed(ss, old(pods)) && sweeps >= 4 * SS.Want(ss) + |old(pods)| ==> SS.Converged(ss, pods)
    {
      hide Keyed, SS.Undisturbed, SS.Converged, SS.Remaining, SS.Spared, Healthy, PodsHaveClaims, Canonical, StatefulSetSwept, RO.RollsOn;
      hide RO.RolledInOrder, RO.ScaledInOrder, RO.ActsAtOnce, ShowsHealth;
      ghost var s0, c0 := pods, claims;
      SS.SparedAtFirst(ss, s0);
      RO.RollsOnAtFirst(ss, s0);
      for i := 0 to sweeps
        invariant Keyed(pods) && SS.Spared(ss, s0, pods) && RO.RollsOn(ss, s0, pods)
        invariant ProperName(ss) && Canonical(ss, c0.Keys) && PodsHaveClaims(ss, s0, c0) ==>
          Canonical(ss, claims.Keys) && PodsHaveClaims(ss, pods, claims)
        invariant Healthy(healthy) && SS.Undisturbed(ss, s0) ==>
          SS.Undisturbed(ss, pods) && (SS.Converged(ss, pods) || SS.RemainingAt(ss, pods) + i <= SS.RemainingAt(ss, s0))
      {
        ghost var s, c := pods, claims;
        SweepStatefulSet(ss);
        ghost var idx, t :| StatefulSetSwept(ss, idx, s, t, born, c, claims) && pods == Ticked(t, born, healthy);
        SweptSpares(ss, s0, idx, s, t, born, c, claims, healthy);
        SweptRollsOn(ss, s0, idx, s, t, born, c, claims, healthy);
        if ProperName(ss) && Canonical(ss, c.Keys) && PodsHaveClaims(ss, s, c) {
          SweptKeepsClaims(ss, idx, s, t, born, c, claims, healthy);
        }
        if Healthy(healthy) && SS.Undisturbed(ss, s) {
          SweptConverges(ss, idx, s, t, born, c, claims, healthy);
        }
      }
      SS.NothingRemains(ss, pods);
      SS.RemainingBound(ss, s0);
    }
  }

  /** What a sweep of a StatefulSet did before the tick. */
  ghost predicate StatefulSetSwept(ss: SS.StatefulSet, idx: SS.Index, s: Pods, t: Pods, born: set<string>, c: Claims, d: Claims) {
    && Keyed(s) && SS.IsIndex(ss, s, idx) && SS.Step(ss, idx, s, t, born)
    && ClaimsStep(ss, ss.templates, idx.Keys, c.Keys, c, d)
  }

  lemma {:induction false} SweptSpares(ss: SS.StatefulSet, s0: Pods, idx: SS.Index, s: Pods, t: Pods, born: set<string>,
                                       c: Claims, d: Claims, healthy: Pod -> bool)
    requires StatefulSetSwept(ss, idx, s, t, born, c, d) && SS.Spared(ss, s0, s)
    ensures SS.Spared(ss, s0, Ticked(t, born, healthy))
  {
    SS.SweepSpares(ss, s0, s, idx, t, born, healthy);
  }

  lemma {:induction false} SweptRollsOn(ss: SS.StatefulSet, s0: Pods, idx: SS.Index, s: Pods, t: Pods, born: set<string>,
                                        c: Claims, d: Claims, healthy: Pod -> bool)
    requires StatefulSetSwept(ss, idx, s, t, born, c, d) && RO.RollsOn(ss, s0, s)
    ensures RO.RollsOn(ss, s0, Ticked(t, born, healthy))
  {
    hide RO.RollsOn;
    RO.SweepRollsOn(ss, s0, s, idx, t, born, healthy);
  }

  lemma {:induction false} SweptKeepsClaims(ss: SS.StatefulSet, idx: SS.Index, s: Pods, t: Pods, born: set<string>,
                                            c: Claims, d: Claims, healthy: Pod -> bool)
    requires StatefulSetSwept(ss, idx, s, t, born, c, d)
    requires ProperName(ss) && Canonical(ss, c.Keys) && PodsHaveClaims(ss, s, c)
    ensures Canonical(ss, d.Keys) && PodsHaveClaims(ss, Ticked(t, born, healthy), d)
  {
    PodsKeepTheirClaims(ss, s, idx, t, born, c, d);
    TickKeepsClaims(ss, t, d, born, healthy);
  }

  lemma {:induction false} SweptConverges(ss: SS.StatefulSet, idx: SS.Index, s: Pods, t: Pods, born: set<string>,
                                          c: Claims, d: Claims, healthy: Pod -> bool)
    requires StatefulSetSwept(ss, idx, s, t, born, c, d) && Healthy(healthy) && SS.Undisturbed(ss, s)
    ensures var u := Ticked(t, born, healthy);
            SS.Undisturbed(ss, u) && (SS.Converged(ss, s) ==> u == s)
            && (!SS.Converged(ss, s) ==> SS.RemainingAt(ss, u) < SS.RemainingAt(ss, s))
  {
    SS.SweepConverges(ss, s, idx, t, born, healthy);
  }

  /** The listed names that read as claims of one template, by ordinal. */
  method ExistingClaims(ss: SS.StatefulSet, template: string, listed: set<string>) returns (existing: map<nat, string>)
    ensures IsExisting(ss, template, listed, existing)
  {
    existing := map[];
    var left := listed;
    while left != {}
      invariant left <= listed
      invariant forall k | k in existing :: existing[k] in listed && ReadsAs(ss, template, existing[k], k)
      invariant forall n, k | n in listed && n !in left && ReadsAs(ss, template, n, k) :: k in existing
      decreases |left|
    {
      var n :| n in left;
      left := left - {n};
      var ord := ParseOrdinal(n, ClaimPrefix(ss, template));
      if ord.Some? {
        existing := existing[ord.value := n];
      }
    }
  }

  method Greatest(xs: set<nat>) returns (m: nat)
    requires xs != {}
    ensures SS.IsGreatest(xs, m)
  {
    m :| m in xs;
    var left := xs - {m};
    while left != {}
      invariant left <= xs && m in xs
      invariant forall y | y in xs :: y in left || y <= m
      decreases |left|
    {
      var x: nat :| x in left;
      left := left - {x};
      if x > m {
        m := x;
      }
    }
  }

  lemma {:induction false} DeletedNone(idx: SS.Index, s: Pods)
    ensures forall ks :: ks == {} ==> Deleted(s, SS.PodsAt(idx, ks)) == s
  {
  }

  lemma {:induction false} DeletedMore(idx: SS.Index, s: Pods, ks: set<nat>, k: nat)
    requires k in idx
    ensures Deleted(Deleted(s, SS.PodsAt(idx, ks)), {idx[k].name}) == Deleted(s, SS.PodsAt(idx, ks + {k}))
  {
    assert SS.PodsAt(idx, ks + {k}) == SS.PodsAt(idx, ks) + {idx[k].name};
  }
}
