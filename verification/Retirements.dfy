/**
 Which pods of a Deployment a sweep deletes, said of the stores before and after it
 (ctrltest/deployment_sim.go:46-103, ctrltest/workload.go:143-162).
 */
module Retirements {
  import opened Wrappers
  import opened Ordinals
  import opened PodOrder
  import opened PodStore
  import opened Deployments

  /** Both agree up to some place, and there `a` goes on, with a higher character if `b` does too. */
  ghost predicate HigherName(a: string, b: string) {
    exists n :: 0 <= n < |a| && n <= |b| && a[..n] == b[..n] && (n == |b| || a[n] > b[n])
  }

  /** Pods at old revisions go before current ones, unready before ready ones, and higher names before lower ones. */
  ghost predicate GoesBefore(revision: string, p: Pod, q: Pod) {
    && (p.revision == revision ==> q.revision == revision)
    && ((p.revision == revision <==> q.revision == revision) ==>
          && (p.ready ==> q.ready)
          && (p.ready == q.ready ==> HigherName(p.name, q.name)))
  }

  lemma {:induction false} BelowIsHigher(a: string, b: string)
    requires Below(b, a)
    ensures HigherName(a, b)
  {
    if |b| == 0 {
      assert a[..0] == b[..0];
    } else if a[0] == b[0] {
      BelowIsHigher(a[1..], b[1..]);
      var n :| 0 <= n < |a[1..]| && n <= |b[1..]| && a[1..][..n] == b[1..][..n] && (n == |b[1..]| || a[1..][n] > b[1..][n]);
      assert a[..n + 1] == [a[0]] + a[1..][..n] && b[..n + 1] == [b[0]] + b[1..][..n];
      assert n + 1 < |a| && a[n + 1] == a[1..][n];
    } else {
      assert a[..0] == b[..0];
    }
  }

  lemma {:induction false} SoonerGoesBefore(revision: string, p: Pod, q: Pod)
    requires Sooner(revision, p, q)
    ensures GoesBefore(revision, p, q)
  {
    hide HigherName, Below;
    if Below(q.name, p.name) {
      BelowIsHigher(p.name, q.name);
    }
  }

  /** The pods in the order they are deleted in, most deletable first. */
  lemma {:induction false} DeletionPriorityMeaning(revision: string, ps: seq<Pod>, i: nat, j: nat)
    requires DistinctNames(ps) && i < j < |ps|
    ensures var sorted := DeletionPriority(revision, ps);
            multiset(sorted) == multiset(ps) && |sorted| == |ps| && GoesBefore(revision, sorted[i], sorted[j])
  {
    hide Sooner, GoesBefore;
    var sorted := DeletionPriority(revision, ps);
    DeletionPrioritySorts(revision, ps);
    assert |multiset(sorted)| == |multiset(ps)|;
    SoonerGoesBefore(revision, sorted[i], sorted[j]);
  }

  // ----- A sweep -----

  /** The pod was there and has been deleted since: it is gone, or now going. */
  ghost predicate Removed(s: Pods, u: Pods, n: string) {
    n in s && (n !in u || (u[n].terminating && !s[n].terminating))
  }

  ghost predicate Mine(d: Deployment, s: Pods, n: string) {
    n in s && s[n].controller == Some(Controller("apps/v1", "Deployment", d.uid)) && !s[n].terminating
  }

  /** None of those kept goes before one of those gone. */
  ghost predicate WellChosen(d: Deployment, s: Pods, among: set<string>, gone: set<string>)
    requires among <= s.Keys
  {
    gone <= among && forall v, a | v in gone && a in among - gone :: GoesBefore(d.revision, s[v], s[a])
  }

  /**
   What a sweep deletes. Of too many pods as many as are too many, in order; of too few none. Of exactly
   as many as wanted, only those at old revisions: all of them at once to recreate them, or the first of
   them, once all pods are ready, to update them one by one.
   */
  ghost predicate DeletesInOrder(d: Deployment, s: Pods, u: Pods) {
    var mine := set n | n in s && Mine(d, s, n);
    var old' := set n | n in mine && s[n].revision != d.revision;
    var gone := set n | n in s && Removed(s, u, n);
    var want := if d.replicas.None? then 1 else d.replicas.value;
    if |mine| > want then |gone| == |mine| - want && WellChosen(d, s, mine, gone)
    else if |mine| < want then gone == {}
    else if d.strategy.Recreate? then gone == old'
    else if old' != {} && forall n :: n in mine ==> s[n].ready then |gone| == 1 && WellChosen(d, s, old', gone)
    else gone == {}
  }

  lemma {:induction false} MineIsActive(d: Deployment, s: Pods)
    ensures (set n | n in s && Mine(d, s, n)) == Active(d, s)
    ensures (set n | n in Active(d, s) && s[n].revision != d.revision) == Old(d, s)
    ensures Ready(d, s) == Active(d, s) <==> forall n :: n in Active(d, s) ==> s[n].ready
  {
    if Ready(d, s) == Active(d, s) {
      forall n | n in Active(d, s) ensures s[n].ready {
        assert n in Ready(d, s);
      }
    }
  }

  /** Those removed are those deleted. */
  lemma {:induction false} DeletedAreRemoved(d: Deployment, s: Pods, gone: set<string>, born: set<string>, healthy: Pod -> bool)
    requires gone <= Active(d, s)
    ensures (set n | n in s && Removed(s, Ticked(Deleted(s, gone), born, healthy), n)) == gone
  {
  }

  lemma {:induction false} KeptAreNotRemoved(s: Pods, t: Pods, born: set<string>, healthy: Pod -> bool)
    requires forall n | n in s :: n in t && t[n] == s[n]
    ensures (set n | n in s && Removed(s, Ticked(t, born, healthy), n)) == {}
  {
  }

  lemma {:induction false} FirstIsWellChosen(d: Deployment, s: Pods, among: set<string>, n: nat, gone: set<string>)
    requires among <= s.Keys && First(d, s, among, n, gone)
    ensures WellChosen(d, s, among, gone) && |gone| == n
  {
    hide Sooner, GoesBefore;
    forall v, a | v in gone && a in among - gone ensures GoesBefore(d.revision, s[v], s[a]) {
      SoonerGoesBefore(d.revision, s[v], s[a]);
    }
  }

  lemma {:induction false} SweepDeletesInOrder(d: Deployment, s: Pods, t: Pods, born: set<string>, healthy: Pod -> bool)
    requires Step(d, s, t, born)
    ensures DeletesInOrder(d, s, Ticked(t, born, healthy))
  {
    hide Mine, Removed, Ticked, Deleted, First, WellChosen, Created, Active, Old, Ready;
    MineIsActive(d, s);
    var active, stale := Active(d, s), Old(d, s);
    ActiveIsThere(d, s);
    if |active| > Want(d) {
      var gone :| First(d, s, active, |active| - Want(d), gone) && t == Deleted(s, gone);
      FirstIsWellChosen(d, s, active, |active| - Want(d), gone);
      ChosenAmong(d, s, active, gone);
      DeletedAreRemoved(d, s, gone, born, healthy);
    } else if |active| < Want(d) {
      CreationKeeps(d, s, t, born);
      KeptAreNotRemoved(s, t, born, healthy);
    } else if stale == {} || (d.strategy.RollingUpdate? && Ready(d, s) != active) {
      KeptAreNotRemoved(s, t, born, healthy);
    } else if d.strategy.Recreate? {
      DeletedAreRemoved(d, s, stale, born, healthy);
    } else {
      var gone :| First(d, s, stale, 1, gone) && t == Deleted(s, gone);
      FirstIsWellChosen(d, s, stale, 1, gone);
      ChosenAmong(d, s, stale, gone);
      DeletedAreRemoved(d, s, gone, born, healthy);
    }
  }

  lemma {:induction false} ActiveIsThere(d: Deployment, s: Pods)
    ensures Active(d, s) <= s.Keys && Old(d, s) <= Active(d, s)
  {
  }

  lemma {:induction false} ChosenAmong(d: Deployment, s: Pods, among: set<string>, gone: set<string>)
    requires among <= s.Keys && WellChosen(d, s, among, gone)
    ensures gone <= among
  {
  }

  lemma {:induction false} CreationKeeps(d: Deployment, s: Pods, t: Pods, born: set<string>)
    requires Step(d, s, t, born) && |Active(d, s)| < Want(d)
    ensures forall n | n in s :: n in t && t[n] == s[n]
  {
    hide Active;
  }

  // ----- Names of new pods -----

  /** Some pod of the Deployment's at its current revision, going or not, bears the ordinal. */
  ghost predicate Borne(d: Deployment, s: Pods, i: nat) {
    exists n :: n in s && s[n].controller == Some(Controller("apps/v1", "Deployment", d.uid)) && s[n].revision == d.revision
                && ParseOrdinal(n, d.name + "-" + d.revision + "-") == Some(i)
  }

  /**
   Every new pod is named for the current revision and an ordinal no pod of it bears, and each lower
   ordinal is borne or was given out with it.
   */
  ghost predicate CreatesLowest(d: Deployment, s: Pods, u: Pods) {
    forall n | n in u && n !in s :: exists i: nat :: n == NameAt(d, i) && LowestAt(d, s, u, i)
  }

  ghost function NameAt(d: Deployment, i: nat): string { d.name + "-" + d.revision + "-" + Itoa(i) }

  ghost predicate LowestAt(d: Deployment, s: Pods, u: Pods, i: nat) {
    !Borne(d, s, i) && forall j: nat | j < i :: Borne(d, s, j) || NameAt(d, j) in u
  }

  lemma {:induction false} BorneIsUsed(d: Deployment, s: Pods, i: nat)
    ensures Borne(d, s, i) <==> i in Used(d, s)
  {
  }

  lemma {:induction false} SweepCreatesLowest(d: Deployment, s: Pods, t: Pods, born: set<string>, healthy: Pod -> bool)
    requires Step(d, s, t, born)
    ensures CreatesLowest(d, s, Ticked(t, born, healthy))
  {
    hide Active, Old, Ready, First, SmallestFree, Created, Ticked, NameAt, LowestAt;
    TickKeepsKeys(t, born, healthy);
    if |Active(d, s)| < Want(d) {
      var out :| SmallestFree(Used(d, s), Want(d) - |Active(d, s)|, out) && Created(d, s, out, t, born);
      forall n | n in t && n !in s ensures exists i: nat :: n == NameAt(d, i) && LowestAt(d, s, Ticked(t, born, healthy), i) {
        var i := OrdinalGiven(d, s, out, t, born, n);
        GivenIsLowest(d, s, Want(d) - |Active(d, s)|, out, t, born, Ticked(t, born, healthy), i);
      }
    }
  }

  lemma {:induction false} OrdinalGiven(d: Deployment, s: Pods, out: seq<nat>, t: Pods, born: set<string>, n: string) returns (i: nat)
    requires Created(d, s, out, t, born) && n in t && n !in s
    ensures i in out && n == NameAt(d, i)
  {
    assert n in NamesAt(d, out);
    i :| i in out && n == PodName(d, d.revision, i);
  }

  lemma {:induction false} GivenIsLowest(d: Deployment, s: Pods, n: nat, out: seq<nat>, t: Pods, born: set<string>, u: Pods, i: nat)
    requires SmallestFree(Used(d, s), n, out) && Created(d, s, out, t, born) && u.Keys == t.Keys && i in out
    ensures LowestAt(d, s, u, i)
  {
    hide Used, Borne;
    BorneIsUsed(d, s, i);
    forall j: nat | j < i ensures Borne(d, s, j) || NameAt(d, j) in u {
      BorneIsUsed(d, s, j);
      if j in out {
        assert PodName(d, d.revision, j) in NamesAt(d, out);
      }
    }
  }
}
