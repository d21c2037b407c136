/**
 One step of a StatefulSet (ctrltest/statefulset_sim.go) as a relation between stores of pods
 and claims, and what follows for whole runs of sweeps.
 */
module StatefulSets {
  import opened Wrappers
  import opened Ordinals
  import opened PodOrder
  import opened PodStore

  /**
   `revision` names the pod template, `templates` the volume claim templates; `ownClaims` makes
   new claims go with the set, `deleteScaled` makes the claims of ordinals scaled away go.
   */
  datatype StatefulSet = StatefulSet(name: string, uid: nat, revision: string, replicas: Option<nat>, parallel: bool,
                                     onDelete: bool, partition: nat, templates: seq<string>,
                                     ownClaims: bool, deleteScaled: bool, terminating: bool)

  function Want(ss: StatefulSet): nat {
    if ss.replicas.None? then 1 else ss.replicas.value
  }

  function ControllerOf(ss: StatefulSet): Controller { Controller("apps/v1", "StatefulSet", ss.uid) }

  predicate Owned(ss: StatefulSet, p: Pod) { p.controller == Some(ControllerOf(ss)) }

  function PodName(ss: StatefulSet, k: nat): string { ss.name + "-" + Itoa(k) }

  function NewPod(ss: StatefulSet, k: nat): Pod {
    Pod(PodName(ss, k), Some(ControllerOf(ss)), ss.revision, false, false, false)
  }

  function OrdinalOf(ss: StatefulSet, name: string): Option<nat> { ParseOrdinal(name, ss.name + "-") }

  // ----- The pods by ordinal -----

  type Index = map<nat, Pod>

  /** The pod `p` is one of the set's, at ordinal `k`. */
  ghost predicate SitsAt(ss: StatefulSet, s: Pods, p: Pod, k: nat) {
    p.name in s && s[p.name] == p && Owned(ss, p) && OrdinalOf(ss, p.name) == Some(k)
  }

  /** `idx` has one pod of the set for every ordinal that any of them has. */
  ghost predicate IsIndex(ss: StatefulSet, s: Pods, idx: Index) {
    && (forall k | k in idx :: SitsAt(ss, s, idx[k], k))
    && forall p, k :: SitsAt(ss, s, p, k) ==> k in idx
  }

  // ----- One step -----

  predicate Waiting(idx: Index, k: nat) {
    k !in idx || idx[k].terminating || !idx[k].ready
  }

  ghost predicate IsLeast(xs: set<nat>, x: nat) { x in xs && forall y | y in xs :: x <= y }

  ghost predicate IsGreatest(xs: set<nat>, x: nat) { x in xs && forall y | y in xs :: y <= x }

  /** Active pods at ordinals that are no longer wanted. */
  ghost function Extras(ss: StatefulSet, idx: Index): set<nat> {
    set k | k in idx && k >= Want(ss) && !idx[k].terminating
  }

  /** The numbers before `n`. */
  ghost function Before(n: nat): (ks: set<nat>)
    ensures forall k: nat :: k in ks <==> k < n
    ensures |ks| == n
  {
    if n == 0 then {} else Before(n - 1) + {n - 1}
  }

  ghost function Missing(ss: StatefulSet, idx: Index): set<nat> { Before(Want(ss)) - idx.Keys }

  ghost function Blocked(ss: StatefulSet, idx: Index): set<nat> {
    set k | k in Before(Want(ss)) && Waiting(idx, k)
  }

  /** Pods an update replaces. */
  ghost function Stale(ss: StatefulSet, idx: Index): set<nat> {
    set k | k in idx && ss.partition <= k < Want(ss) && idx[k].revision != ss.revision
  }

  ghost predicate AllReady(ss: StatefulSet, idx: Index) {
    forall k | k in idx && k < Want(ss) :: idx[k].ready
  }

  function PodsAt(idx: Index, ks: set<nat>): set<string> {
    set k | k in ks && k in idx :: idx[k].name
  }

  /** After creating the pods at the ordinals `ks`; a name already taken makes a creation fail. */
  ghost predicate Created(ss: StatefulSet, s: Pods, ks: set<nat>, t: Pods, born: set<string>) {
    && born == (set k | k in ks :: PodName(ss, k)) - s.Keys
    && t.Keys == s.Keys + born
    && (forall n | n in s :: t[n] == s[n])
    && forall k | k in ks && PodName(ss, k) in born :: t[PodName(ss, k)] == NewPod(ss, k)
  }

  ghost predicate ScaleDown(ss: StatefulSet, idx: Index, s: Pods, t: Pods) {
    if ss.parallel then t == Deleted(s, PodsAt(idx, Extras(ss, idx)))
    else exists k :: IsGreatest(Extras(ss, idx), k) && t == Deleted(s, PodsAt(idx, {k}))
  }

  /** Whether creation has something to do or to wait for. */
  ghost predicate Creating(ss: StatefulSet, idx: Index) {
    if ss.parallel then Missing(ss, idx) != {} else Blocked(ss, idx) != {}
  }

  ghost predicate Create(ss: StatefulSet, idx: Index, s: Pods, t: Pods, born: set<string>) {
    if ss.parallel then Created(ss, s, Missing(ss, idx), t, born)
    else exists k :: IsLeast(Blocked(ss, idx), k) && Created(ss, s, if k in idx then {} else {k}, t, born)
  }

  ghost predicate Roll(ss: StatefulSet, idx: Index, s: Pods, t: Pods) {
    if ss.onDelete || !AllReady(ss, idx) || Stale(ss, idx) == {} then t == s
    else exists k :: IsGreatest(Stale(ss, idx), k) && t == Deleted(s, PodsAt(idx, {k}))
  }

  ghost predicate Step(ss: StatefulSet, idx: Index, s: Pods, t: Pods, born: set<string>) {
    if Extras(ss, idx) != {} then ScaleDown(ss, idx, s, t) && born == {}
    else if Creating(ss, idx) then Create(ss, idx, s, t, born)
    else Roll(ss, idx, s, t) && born == {}
  }

  // ----- A step ordinal by ordinal -----

  lemma {:induction false} CreatedNone(ss: StatefulSet, s: Pods)
    ensures Created(ss, s, {}, s, {})
  {
  }

  lemma {:induction false} CreatedNext(ss: StatefulSet, s: Pods, ks: set<nat>, k: nat, t: Pods, born: set<string>)
    requires Created(ss, s, ks, t, born) && k !in ks
    ensures var p := NewPod(ss, k);
            Created(ss, s, ks + {k}, if p.name in t then t else t[p.name := p], if p.name in t then born else born + {p.name})
  {
    hide PodName;
    forall j | j in ks ensures PodName(ss, j) != PodName(ss, k) {
      if PodName(ss, j) == PodName(ss, k) {
        PodNameIsInjective(ss, j, k);
      }
    }
    assert (set j | j in ks + {k} :: PodName(ss, j)) == (set j | j in ks :: PodName(ss, j)) + {PodName(ss, k)};
  }

  ghost function MissingBefore(ss: StatefulSet, idx: Index, k: nat): set<nat> { Missing(ss, idx) * Before(k) }

  ghost function BlockedBefore(ss: StatefulSet, idx: Index, k: nat): set<nat> { Blocked(ss, idx) * Before(k) }

  lemma {:induction false} BeforeFirst(ss: StatefulSet, idx: Index)
    ensures MissingBefore(ss, idx, 0) == {} && BlockedBefore(ss, idx, 0) == {}
  {
  }

  lemma {:induction false} BeforeNext(ss: StatefulSet, idx: Index, k: nat)
    requires k < Want(ss)
    ensures k !in MissingBefore(ss, idx, k)
    ensures MissingBefore(ss, idx, k + 1) == MissingBefore(ss, idx, k) + if k in idx then {} else {k}
    ensures BlockedBefore(ss, idx, k + 1) == BlockedBefore(ss, idx, k) + if Waiting(idx, k) then {k} else {}
  {
    BeforeGrows(k);
    assert k in Missing(ss, idx) <==> k !in idx;
    assert k in Blocked(ss, idx) <==> Waiting(idx, k);
    hide Missing, Blocked, Before, Waiting;
    MeetNext(Missing(ss, idx), Before(k), k);
    MeetNext(Blocked(ss, idx), Before(k), k);
  }

  lemma {:induction false} BeforeGrows(k: nat)
    ensures k !in Before(k) && Before(k + 1) == Before(k) + {k}
  {
  }

  lemma {:induction false} MeetNext(m: set<nat>, before: set<nat>, k: nat)
    ensures m * (before + {k}) == m * before + if k in m then {k} else {}
  {
    forall x ensures x in m * (before + {k}) <==> x in m * before || (x == k && k in m) {
    }
  }

  lemma {:induction false} CreatesLeast(ss: StatefulSet, idx: Index, k: nat, s: Pods, t: Pods, born: set<string>)
    requires !ss.parallel && k < Want(ss) && Waiting(idx, k) && BlockedBefore(ss, idx, k) == {}
    requires Created(ss, s, if k in idx then {} else {k}, t, born)
    ensures Creating(ss, idx) && Create(ss, idx, s, t, born)
  {
    forall j | j in Blocked(ss, idx) ensures k <= j {
      assert j in BlockedBefore(ss, idx, k) || j !in Before(k);
    }
    assert IsLeast(Blocked(ss, idx), k);
  }

  lemma {:induction false} CreatesAll(ss: StatefulSet, idx: Index, made: set<nat>, s: Pods, t: Pods, born: set<string>)
    requires made == MissingBefore(ss, idx, Want(ss)) && Created(ss, s, made, t, born)
    requires !ss.parallel ==> BlockedBefore(ss, idx, Want(ss)) == {}
    ensures Creating(ss, idx) <==> ss.parallel && made != {}
    ensures ss.parallel ==> Create(ss, idx, s, t, born)
  {
    assert MissingBefore(ss, idx, Want(ss)) == Missing(ss, idx);
    assert BlockedBefore(ss, idx, Want(ss)) == Blocked(ss, idx);
  }

  lemma {:induction false} NotAllReady(ss: StatefulSet, idx: Index, active: seq<Pod>)
    requires forall p :: p in active <==> exists k: nat :: k < Want(ss) && k in idx && p == idx[k]
    ensures !EveryPodReady(active) ==> !AllReady(ss, idx) || Stale(ss, idx) == {}
  {
    forall k | k in Stale(ss, idx) ensures idx[k] in active {
    }
  }

  // ----- What a step may create and delete -----

  /** Unless management is parallel, a pod is created only after all before it are there, ready and not going away. */
  lemma {:induction false} CreatesInOrder(ss: StatefulSet, idx: Index, s: Pods, t: Pods, born: set<string>, n: string)
    requires Step(ss, idx, s, t, born) && !ss.parallel && n in born
    ensures exists k: nat :: k < Want(ss) && n == PodName(ss, k) && k !in idx
              && forall j: nat | j < k :: j in idx && idx[j].ready && !idx[j].terminating
  {
    hide Extras, Deleted, NewPod, Stale;
    var k :| IsLeast(Blocked(ss, idx), k) && Created(ss, s, if k in idx then {} else {k}, t, born);
    assert k !in idx && n == PodName(ss, k);
    forall j: nat | j < k ensures j in idx && idx[j].ready && !idx[j].terminating {
      assert j in Before(Want(ss));
      assert j !in Blocked(ss, idx);
    }
  }

  /** Whatever the ordinal's pods do, a step leaves alone those that are wanted and below the partition. */
  lemma {:induction false} KeepsBelowPartition(ss: StatefulSet, idx: Index, s: Pods, t: Pods, born: set<string>, p: Pod, k: nat)
    requires IsIndex(ss, s, idx) && Step(ss, idx, s, t, born)
    requires SitsAt(ss, s, p, k) && k < Want(ss) && (k < ss.partition || ss.onDelete)
    ensures p.name in t && t[p.name] == p
  {
    hide IsIndex, Created;
    StepDeletes(ss, idx, s, t, born, p.name);
    if j :| j in idx && idx[j].name == p.name && (j in Extras(ss, idx) || (j in Stale(ss, idx) && !ss.onDelete)) {
      IndexNames(ss, s, idx, p, k, j);
    }
  }

  lemma {:induction false} IndexNames(ss: StatefulSet, s: Pods, idx: Index, p: Pod, k: nat, j: nat)
    requires IsIndex(ss, s, idx) && SitsAt(ss, s, p, k) && j in idx && idx[j].name == p.name
    ensures j == k && idx[j] == p
  {
    assert SitsAt(ss, s, idx[j], j);
  }

  /** A step changes a pod only by deleting it: an unwanted one, or one an update replaces when all are ready. */
  lemma {:induction false} StepDeletes(ss: StatefulSet, idx: Index, s: Pods, t: Pods, born: set<string>, n: string)
    requires Step(ss, idx, s, t, born) && n in s
    ensures (n in t && t[n] == s[n])
            || exists k :: k in idx && idx[k].name == n
                 && (k in Extras(ss, idx) || (k in Stale(ss, idx) && AllReady(ss, idx) && !ss.onDelete))
  {
    hide Extras, Stale, AllReady;
    if Extras(ss, idx) != {} {
      if ss.parallel {
        DeletedAt(idx, s, Extras(ss, idx), n);
      } else {
        var k :| IsGreatest(Extras(ss, idx), k) && t == Deleted(s, PodsAt(idx, {k}));
        DeletedAt(idx, s, {k}, n);
      }
    } else if Creating(ss, idx) {
      if !ss.parallel {
        var k :| IsLeast(Blocked(ss, idx), k) && Created(ss, s, if k in idx then {} else {k}, t, born);
      }
    } else if t != s {
      var k :| IsGreatest(Stale(ss, idx), k) && t == Deleted(s, PodsAt(idx, {k}));
      DeletedAt(idx, s, {k}, n);
    }
  }

  /** What a step keeps of a pod: its controller and revision. */
  lemma {:induction false} StepKeepsPod(ss: StatefulSet, s: Pods, idx: Index, t: Pods, born: set<string>, n: string)
    requires Step(ss, idx, s, t, born) && n in s && n in t
    ensures t[n] == s[n] || t[n] == s[n].(terminating := true)
  {
  }

  /** A pod a step creates sits at a wanted ordinal. */
  lemma {:induction false} BornIsWanted(ss: StatefulSet, s: Pods, idx: Index, t: Pods, born: set<string>, k: nat)
    requires Step(ss, idx, s, t, born) && PodName(ss, k) in t && PodName(ss, k) !in s
    ensures k < Want(ss)
  {
    assert PodName(ss, k) in born;
    if ss.parallel {
      var j :| j in Missing(ss, idx) && PodName(ss, j) == PodName(ss, k);
      PodNameIsInjective(ss, j, k);
    } else {
      var j :| IsLeast(Blocked(ss, idx), j) && Created(ss, s, if j in idx then {} else {j}, t, born);
      PodNameIsInjective(ss, j, k);
    }
  }

  lemma {:induction false} CreatedIsNew(ss: StatefulSet, s: Pods, ks: set<nat>, t: Pods, born: set<string>)
    requires Created(ss, s, ks, t, born)
    ensures KeepsOrDeletes(s, t, born)
  {
    hide PodName;
  }

  lemma {:induction false} SweepShowsHealth(ss: StatefulSet, s: Pods, idx: Index, t: Pods, born: set<string>, healthy: Pod -> bool)
    requires Step(ss, idx, s, t, born)
    ensures ShowsHealth(s, Ticked(t, born, healthy), healthy)
  {
    hide Extras, Stale, AllReady, Missing, Blocked, Created, Ticked;
    if Extras(ss, idx) == {} && Creating(ss, idx) {
      if ss.parallel {
        CreatedIsNew(ss, s, Missing(ss, idx), t, born);
      } else {
        var k :| IsLeast(Blocked(ss, idx), k) && Created(ss, s, if k in idx then {} else {k}, t, born);
        CreatedIsNew(ss, s, if k in idx then {} else {k}, t, born);
      }
    }
    TickShowsHealth(s, t, born, healthy);
  }

  lemma {:induction false} StepKeepsNames(ss: StatefulSet, s: Pods, idx: Index, t: Pods, born: set<string>)
    requires Keyed(s) && Step(ss, idx, s, t, born)
    ensures Keyed(t)
  {
    hide Extras, Stale, AllReady, Missing, Blocked;
    forall n | n in t ensures t[n].name == n {
      if n in s {
        StepKeepsPod(ss, s, idx, t, born, n);
      }
    }
  }

  /** Since `s`, the pods out of an update's and a scale-down's reach have changed in readiness at most. */
  ghost predicate Spared(ss: StatefulSet, s: Pods, u: Pods) {
    forall p, k: nat | SitsAt(ss, s, p, k) && k < Want(ss) && (k < ss.partition || ss.onDelete) :: SameButReady(p, u)
  }

  ghost predicate SameButReady(p: Pod, u: Pods) {
    p.name in u && u[p.name] == p.(ready := u[p.name].ready)
  }

  lemma {:induction false} SparedAtFirst(ss: StatefulSet, s: Pods)
    ensures Spared(ss, s, s)
  {
  }

  lemma {:induction false} SweepSpares(ss: StatefulSet, s0: Pods, s: Pods, idx: Index, t: Pods, born: set<string>, healthy: Pod -> bool)
    requires IsIndex(ss, s, idx) && Step(ss, idx, s, t, born) && Spared(ss, s0, s)
    ensures Spared(ss, s0, Ticked(t, born, healthy))
  {
    hide Step, IsIndex;
    var u := Ticked(t, born, healthy);
    forall p, k: nat | SitsAt(ss, s0, p, k) && k < Want(ss) && (k < ss.partition || ss.onDelete) ensures SameButReady(p, u) {
      assert SameButReady(p, s);
      KeepsBelowPartition(ss, idx, s, t, born, s[p.name], k);
    }
  }

  lemma {:induction false} DeletedAt(idx: Index, s: Pods, ks: set<nat>, n: string)
    requires n in s
    ensures var t := Deleted(s, PodsAt(idx, ks));
            (n in t && t[n] == s[n]) || exists k :: k in idx && idx[k].name == n && k in ks
  {
  }

  // ----- Convergence -----

  /** Only this set's pods, bearing the names it gives, none being deleted and none held when it is. */
  ghost predicate Undisturbed(ss: StatefulSet, s: Pods) {
    forall n | n in s :: Settled(ss, n, s[n])
  }

  ghost predicate Settled(ss: StatefulSet, n: string, p: Pod) {
    p.name == n && Owned(ss, p) && !p.terminating && !p.held && exists k: nat :: n == PodName(ss, k)
  }

  /** Every pod of an undisturbed store is in the index, under the ordinal in its name. */
  ghost predicate Tracks(ss: StatefulSet, s: Pods, idx: Index) {
    Undisturbed(ss, s) && forall k: nat :: if PodName(ss, k) in s then k in idx && idx[k] == s[PodName(ss, k)] else k !in idx
  }

  lemma {:induction false} PodNameIsInjective(ss: StatefulSet, j: nat, k: nat)
    requires PodName(ss, j) == PodName(ss, k)
    ensures j == k
  {
    OrdinalRoundTrip(ss, j);
    OrdinalRoundTrip(ss, k);
  }

  lemma {:induction false} OrdinalRoundTrip(ss: StatefulSet, k: nat)
    ensures OrdinalOf(ss, PodName(ss, k)) == Some(k)
  {
    assert PodName(ss, k) == (ss.name + "-") + Itoa(k);
    NameRoundTrip(ss.name + "-", k);
  }

  lemma {:induction false} IndexTracks(ss: StatefulSet, s: Pods, idx: Index)
    requires Undisturbed(ss, s) && IsIndex(ss, s, idx)
    ensures Tracks(ss, s, idx)
  {
    forall k: nat ensures if PodName(ss, k) in s then k in idx && idx[k] == s[PodName(ss, k)] else k !in idx {
      OrdinalRoundTrip(ss, k);
      if PodName(ss, k) in s {
        assert Settled(ss, PodName(ss, k), s[PodName(ss, k)]);
        assert SitsAt(ss, s, s[PodName(ss, k)], k);
      }
      if k in idx {
        assert SitsAt(ss, s, idx[k], k) && Settled(ss, idx[k].name, s[idx[k].name]);
        var j: nat :| idx[k].name == PodName(ss, j);
        OrdinalRoundTrip(ss, j);
      }
    }
  }

  /** The wanted pods that are not ready. */
  ghost function Unready(ss: StatefulSet, idx: Index): set<nat> {
    set k | k in idx && k < Want(ss) && !idx[k].ready
  }

  /** The pods an update still has to replace. */
  ghost function Replaceable(ss: StatefulSet, idx: Index): set<nat> {
    if ss.onDelete then {} else Stale(ss, idx)
  }

  ghost function Total(extras: set<nat>, missing: set<nat>, unready: set<nat>, toReplace: set<nat>): nat {
    3 * |toReplace| + 2 * |missing| + |unready| + |extras|
  }

  /** How many more sweeps it can take. */
  ghost function Remaining(ss: StatefulSet, idx: Index): nat {
    Total(Extras(ss, idx), Missing(ss, idx), Unready(ss, idx), Replaceable(ss, idx))
  }

  /** Exactly the wanted ordinals, all ready, and at the update's revision from the partition on. */
  ghost predicate Converged(ss: StatefulSet, s: Pods) {
    && (forall k: nat | k < Want(ss) :: PodName(ss, k) in s && s[PodName(ss, k)].ready
          && (!ss.onDelete && k >= ss.partition ==> s[PodName(ss, k)].revision == ss.revision))
    && forall n | n in s :: exists k: nat :: k < Want(ss) && n == PodName(ss, k)
  }

  /** The index after losing the ordinals `gone` and gaining `made`. */
  function Changed(ss: StatefulSet, idx: Index, gone: set<nat>, made: set<nat>): Index {
    map k | k in idx.Keys - gone + made :: if k in made then NewPod(ss, k) else idx[k]
  }

  /** The index after the tick of healthy pods. */
  function TickedIndex(idx: Index, made: set<nat>): Index {
    map k | k in idx :: if k in made then idx[k] else idx[k].(ready := true)
  }

  ghost function NamesAt(ss: StatefulSet, ks: set<nat>): set<string> { set k | k in ks :: PodName(ss, k) }

  lemma {:induction false} InNamesAt(ss: StatefulSet, ks: set<nat>, k: nat)
    ensures PodName(ss, k) in NamesAt(ss, ks) <==> k in ks
  {
    if PodName(ss, k) in NamesAt(ss, ks) {
      var j: nat :| j in ks && PodName(ss, j) == PodName(ss, k);
      PodNameIsInjective(ss, j, k);
    }
  }

  lemma {:induction false} DeleteTracks(ss: StatefulSet, s: Pods, idx: Index, ks: set<nat>)
    requires Tracks(ss, s, idx) && ks <= idx.Keys
    ensures Tracks(ss, Deleted(s, PodsAt(idx, ks)), Changed(ss, idx, ks, {}))
  {
    var t := Deleted(s, PodsAt(idx, ks));
    forall n | n in t ensures Settled(ss, n, t[n]) {
      assert Settled(ss, n, s[n]);
    }
    assert PodsAt(idx, ks) == NamesAt(ss, ks) by {
      forall k | k in ks ensures idx[k].name == PodName(ss, k) {
        assert Settled(ss, PodName(ss, k), s[PodName(ss, k)]);
      }
    }
    forall k: nat ensures if PodName(ss, k) in t then k in idx.Keys - ks && idx[k] == t[PodName(ss, k)] else k !in idx.Keys - ks {
      InNamesAt(ss, ks, k);
      assert PodName(ss, k) in s ==> Settled(ss, PodName(ss, k), s[PodName(ss, k)]);
    }
  }

  lemma {:induction false} CreateTracks(ss: StatefulSet, s: Pods, idx: Index, ks: set<nat>, t: Pods, born: set<string>)
    requires Tracks(ss, s, idx) && ks !! idx.Keys && Created(ss, s, ks, t, born)
    ensures Tracks(ss, t, Changed(ss, idx, {}, ks)) && born == NamesAt(ss, ks)
  {
    assert born == NamesAt(ss, ks);
    forall n | n in t ensures Settled(ss, n, t[n]) {
      if n in s {
        assert Settled(ss, n, s[n]);
      } else {
        var k: nat :| k in ks && n == PodName(ss, k);
        assert t[n] == NewPod(ss, k);
      }
    }
    var next := Changed(ss, idx, {}, ks);
    forall k: nat ensures if PodName(ss, k) in t then k in next && next[k] == t[PodName(ss, k)] else k !in next {
      InNamesAt(ss, ks, k);
    }
  }

  lemma {:induction false} TickTracks(ss: StatefulSet, s: Pods, idx: Index, ks: set<nat>, healthy: Pod -> bool)
    requires Tracks(ss, s, idx) && Healthy(healthy)
    ensures Tracks(ss, Ticked(s, NamesAt(ss, ks), healthy), TickedIndex(idx, ks))
  {
    var u := Ticked(s, NamesAt(ss, ks), healthy);
    var next := TickedIndex(idx, ks);
    forall n | n in u ensures Settled(ss, n, u[n]) {
      assert Settled(ss, n, s[n]);
    }
    forall k: nat ensures if PodName(ss, k) in u then k in next && next[k] == u[PodName(ss, k)] else k !in next {
      InNamesAt(ss, ks, k);
      assert PodName(ss, k) in s ==> Settled(ss, PodName(ss, k), s[PodName(ss, k)]);
    }
  }

  ghost predicate NothingLeft(ss: StatefulSet, idx: Index) {
    Extras(ss, idx) == {} && Missing(ss, idx) == {} && Unready(ss, idx) == {} && Replaceable(ss, idx) == {}
  }

  /** The ordinals a step takes away and adds, and what makes it one that helps. */
  ghost predicate Helps(ss: StatefulSet, idx: Index, gone: set<nat>, made: set<nat>) {
    || (gone != {} && gone <= Extras(ss, idx) && made == {})
    || (gone == {} && made != {} && made <= Missing(ss, idx))
    || (gone == {} && made == {} && (Unready(ss, idx) != {} || NothingLeft(ss, idx)))
    || (made == {} && Unready(ss, idx) == {} && exists k :: gone == {k} && k in Replaceable(ss, idx))
  }

  lemma {:induction false} NoneTerminating(ss: StatefulSet, s: Pods, idx: Index)
    requires Tracks(ss, s, idx)
    ensures forall k | k in idx :: !idx[k].terminating && idx[k].name == PodName(ss, k)
  {
    forall k | k in idx ensures !idx[k].terminating && idx[k].name == PodName(ss, k) {
      assert Settled(ss, PodName(ss, k), s[PodName(ss, k)]);
    }
  }

  lemma {:induction false} ScaleDownHelps(ss: StatefulSet, s: Pods, idx: Index, t: Pods) returns (gone: set<nat>)
    requires Tracks(ss, s, idx) && Extras(ss, idx) != {} && ScaleDown(ss, idx, s, t)
    ensures gone != {} && gone <= Extras(ss, idx) <= idx.Keys && Tracks(ss, t, Changed(ss, idx, gone, {}))
  {
    hide Tracks, PodsAt, Deleted, Changed;
    if ss.parallel {
      gone := Extras(ss, idx);
    } else {
      var k :| IsGreatest(Extras(ss, idx), k) && t == Deleted(s, PodsAt(idx, {k}));
      gone := {k};
    }
    DeleteTracks(ss, s, idx, gone);
  }

  lemma {:induction false} CreateHelps(ss: StatefulSet, s: Pods, idx: Index, t: Pods, born: set<string>) returns (made: set<nat>)
    requires Tracks(ss, s, idx) && Creating(ss, idx) && Create(ss, idx, s, t, born)
    ensures made <= Missing(ss, idx) && (made == {} ==> Unready(ss, idx) != {})
    ensures born == NamesAt(ss, made) && Tracks(ss, t, Changed(ss, idx, {}, made))
  {
    hide Tracks, Created, Changed;
    NoneTerminating(ss, s, idx);
    if ss.parallel {
      made := Missing(ss, idx);
    } else {
      var k :| IsLeast(Blocked(ss, idx), k) && Created(ss, s, if k in idx then {} else {k}, t, born);
      made := if k in idx then {} else {k};
      assert k in idx ==> k in Unready(ss, idx);
    }
    CreateTracks(ss, s, idx, made, t, born);
  }

  lemma {:induction false} RollHelps(ss: StatefulSet, s: Pods, idx: Index, t: Pods) returns (gone: set<nat>)
    requires Tracks(ss, s, idx) && Extras(ss, idx) == {} && !Creating(ss, idx) && Roll(ss, idx, s, t)
    ensures Helps(ss, idx, gone, {}) && gone <= idx.Keys && Tracks(ss, t, Changed(ss, idx, gone, {}))
  {
    hide Tracks, PodsAt, Deleted, Changed;
    NothingBlocked(ss, idx);
    gone := {};
    if ss.onDelete || !AllReady(ss, idx) || Stale(ss, idx) == {} {
      Unchanged(ss, idx);
    } else {
      var k :| IsGreatest(Stale(ss, idx), k) && t == Deleted(s, PodsAt(idx, {k}));
      gone := {k};
      DeleteTracks(ss, s, idx, gone);
    }
  }

  lemma {:induction false} Unchanged(ss: StatefulSet, idx: Index)
    ensures Changed(ss, idx, {}, {}) == idx
  {
  }

  lemma {:induction false} NothingBlocked(ss: StatefulSet, idx: Index)
    requires !Creating(ss, idx)
    ensures Missing(ss, idx) == {} && (AllReady(ss, idx) <==> Unready(ss, idx) == {})
  {
    assert ss.parallel || forall k | k in Missing(ss, idx) :: k in Blocked(ss, idx);
    assert forall k | k in idx && k < Want(ss) && !idx[k].ready :: k in Unready(ss, idx);
  }

  lemma {:induction false} StepHelps(ss: StatefulSet, s: Pods, idx: Index, t: Pods, born: set<string>)
    returns (gone: set<nat>, made: set<nat>)
    requires Tracks(ss, s, idx) && Step(ss, idx, s, t, born)
    ensures gone <= idx.Keys && made <= Missing(ss, idx) && Helps(ss, idx, gone, made) && born == NamesAt(ss, made)
    ensures Tracks(ss, t, Changed(ss, idx, gone, made))
  {
    hide Tracks, Extras, Creating, ScaleDown, Create, Roll, Unready, Replaceable, NothingLeft, Changed;
    gone, made := {}, {};
    assert NamesAt(ss, {}) == {};
    if Extras(ss, idx) != {} {
      gone := ScaleDownHelps(ss, s, idx, t);
    } else if Creating(ss, idx) {
      made := CreateHelps(ss, s, idx, t, born);
    } else {
      gone := RollHelps(ss, s, idx, t);
    }
  }

  /** What losing and gaining ordinals, and a tick, do to the four kinds of work. */
  lemma {:induction false} WorkAfter(ss: StatefulSet, idx: Index, gone: set<nat>, made: set<nat>)
    requires forall k | k in idx :: !idx[k].terminating
    requires gone <= idx.Keys && made <= Missing(ss, idx)
    ensures var next := TickedIndex(Changed(ss, idx, gone, made), made);
            && Extras(ss, next) == Extras(ss, idx) - gone
            && Missing(ss, next) == Missing(ss, idx) - made + gone * Before(Want(ss))
            && Unready(ss, next) == made
            && Replaceable(ss, next) == Replaceable(ss, idx) - gone
  {
    hide PodName, ControllerOf;
    var next := TickedIndex(Changed(ss, idx, gone, made), made);
    forall k | k in next ensures k in made || (k in idx && next[k] == idx[k].(ready := true)) {
    }
  }

  lemma {:induction false} DeleteIsLess(e: set<nat>, m: set<nat>, u: set<nat>, r: set<nat>, wanted: set<nat>, gone: set<nat>)
    requires e * wanted == {} && e * r == {} && gone != {} && gone <= e
    ensures Total(e - gone, m - {} + gone * wanted, {}, r - gone) < Total(e, m, u, r)
  {
    forall x | x in gone ensures x !in wanted && x !in r {
      assert x in e;
      assert x in wanted ==> x in e * wanted;
      assert x in r ==> x in e * r;
    }
    assert gone * wanted == {};
    forall x ensures x in r - gone <==> x in r {
    }
    assert r - gone == r;
    assert m - {} + gone * wanted == m;
    assert e == (e - gone) + gone;
  }

  lemma {:induction false} CreateIsLess(e: set<nat>, m: set<nat>, u: set<nat>, r: set<nat>, wanted: set<nat>, made: set<nat>)
    requires made != {} && made <= m
    ensures Total(e - {}, m - made + {} * wanted, made, r - {}) < Total(e, m, u, r)
  {
    assert e - {} == e && r - {} == r && m - made + {} * wanted == m - made;
    assert m == (m - made) + made;
  }

  lemma {:induction false} WaitIsLess(e: set<nat>, m: set<nat>, u: set<nat>, r: set<nat>, wanted: set<nat>)
    requires u != {}
    ensures Total(e - {}, m - {} + {} * wanted, {}, r - {}) < Total(e, m, u, r)
  {
    assert e - {} == e && r - {} == r && m - {} + {} * wanted == m;
  }

  lemma {:induction false} RollIsLess(e: set<nat>, m: set<nat>, u: set<nat>, r: set<nat>, wanted: set<nat>, k: nat)
    requires r <= wanted && k in r
    ensures Total(e - {k}, m - {} + {k} * wanted, {}, r - {k}) < Total(e, m, u, r)
  {
    assert m - {} + {k} * wanted == m + {k};
    assert r == (r - {k}) + {k};
    SubsetSize(e - {k}, e);
  }

  /** Every step that helps leaves less to do, or found nothing to do. */
  lemma {:induction false} HelpsMeansLess(ss: StatefulSet, idx: Index, gone: set<nat>, made: set<nat>)
    requires forall k | k in idx :: !idx[k].terminating
    requires gone <= idx.Keys && made <= Missing(ss, idx) && Helps(ss, idx, gone, made)
    ensures !NothingLeft(ss, idx) ==>
              Remaining(ss, TickedIndex(Changed(ss, idx, gone, made), made)) < Remaining(ss, idx)
  {
    hide Extras, Missing, Unready, Replaceable, TickedIndex, Changed;
    WorkAfter(ss, idx, gone, made);
    ExtrasUnwanted(ss, idx);
    var e, m, u, r, wanted := Extras(ss, idx), Missing(ss, idx), Unready(ss, idx), Replaceable(ss, idx), Before(Want(ss));
    if gone != {} && gone <= Extras(ss, idx) && made == {} {
      DeleteIsLess(e, m, u, r, wanted, gone);
    } else if made != {} {
      CreateIsLess(e, m, u, r, wanted, made);
    } else if gone == {} {
      if u != {} {
        WaitIsLess(e, m, u, r, wanted);
      }
    } else {
      var k :| gone == {k} && k in Replaceable(ss, idx);
      RollIsLess(e, m, u, r, wanted, k);
    }
  }

  lemma {:induction false} ExtrasUnwanted(ss: StatefulSet, idx: Index)
    ensures Extras(ss, idx) * Before(Want(ss)) == {} && Replaceable(ss, idx) <= Before(Want(ss))
    ensures Extras(ss, idx) * Replaceable(ss, idx) == {}
  {
  }

  /** The pods of an undisturbed store by ordinal. */
  ghost function IndexOf(ss: StatefulSet, s: Pods): Index {
    map k | k in OrdinalsOf(ss, s) && PodName(ss, k) in s :: s[PodName(ss, k)]
  }

  ghost function OrdinalsOf(ss: StatefulSet, s: Pods): set<nat> {
    set n | n in s && OrdinalOf(ss, n).Some? :: OrdinalOf(ss, n).value
  }

  ghost function RemainingAt(ss: StatefulSet, s: Pods): nat { Remaining(ss, IndexOf(ss, s)) }

  lemma {:induction false} TracksIsIndexOf(ss: StatefulSet, s: Pods, idx: Index)
    requires Tracks(ss, s, idx)
    ensures idx == IndexOf(ss, s)
  {
    hide PodName, Settled;
    forall k: nat | PodName(ss, k) in s ensures k in OrdinalsOf(ss, s) {
      OrdinalRoundTrip(ss, k);
    }
  }

  lemma {:induction false} TracksDetermines(ss: StatefulSet, s: Pods, t: Pods, idx: Index)
    requires Tracks(ss, s, idx) && Tracks(ss, t, idx)
    ensures s == t
  {
    forall n | n in t ensures n in s {
      assert Settled(ss, n, t[n]);
    }
    forall n | n in s ensures n in t && s[n] == t[n] {
      assert Settled(ss, n, s[n]);
    }
  }

  lemma {:induction false} NothingLeftMeaning(ss: StatefulSet, s: Pods, idx: Index)
    requires Tracks(ss, s, idx)
    ensures NothingLeft(ss, idx) <==> Converged(ss, s)
  {
    hide Tracks, NothingLeft, Converged;
    if NothingLeft(ss, idx) {
      NothingLeftIsConverged(ss, s, idx);
    }
    if Converged(ss, s) {
      ConvergedLeavesNothing(ss, s, idx);
    }
  }

  lemma {:induction false} NothingLeftIsConverged(ss: StatefulSet, s: Pods, idx: Index)
    requires Tracks(ss, s, idx) && NothingLeft(ss, idx)
    ensures Converged(ss, s)
  {
    hide NothingLeft;
    NoneTerminating(ss, s, idx);
    forall k: nat | k < Want(ss)
      ensures PodName(ss, k) in s && s[PodName(ss, k)].ready
              && (!ss.onDelete && k >= ss.partition ==> s[PodName(ss, k)].revision == ss.revision)
    {
      WantedIsDone(ss, idx, k);
    }
    forall n | n in s ensures exists k: nat :: k < Want(ss) && n == PodName(ss, k) {
      assert Settled(ss, n, s[n]);
      var k: nat :| n == PodName(ss, k);
      WantedIsDone(ss, idx, k);
    }
  }

  lemma {:induction false} WantedIsDone(ss: StatefulSet, idx: Index, k: nat)
    requires NothingLeft(ss, idx) && forall j | j in idx :: !idx[j].terminating
    ensures k in idx ==> k < Want(ss)
    ensures k < Want(ss) ==> k in idx && idx[k].ready && (!ss.onDelete && k >= ss.partition ==> idx[k].revision == ss.revision)
  {
    assert k !in Missing(ss, idx) && k !in Unready(ss, idx) && k !in Replaceable(ss, idx) && k !in Extras(ss, idx);
  }

  lemma {:induction false} ConvergedLeavesNothing(ss: StatefulSet, s: Pods, idx: Index)
    requires Tracks(ss, s, idx) && Converged(ss, s)
    ensures NothingLeft(ss, idx)
  {
    hide PodName;
    forall k | k in idx ensures k < Want(ss) {
      var j: nat :| j < Want(ss) && PodName(ss, k) == PodName(ss, j);
      PodNameIsInjective(ss, j, k);
    }
  }

  /**
   Left alone with healthy pods, every sweep comes closer until exactly the wanted ordinals are
   there, ready and as updated as the partition lets them be; and there it stays.
   */
  lemma {:induction false} SweepConverges(ss: StatefulSet, s: Pods, idx: Index, t: Pods, born: set<string>, healthy: Pod -> bool)
    requires Undisturbed(ss, s) && IsIndex(ss, s, idx) && Step(ss, idx, s, t, born) && Healthy(healthy)
    ensures var u := Ticked(t, born, healthy);
            && Undisturbed(ss, u) && (u == s <==> Converged(ss, s))
            && (!Converged(ss, s) ==> RemainingAt(ss, u) < RemainingAt(ss, s))
  {
    hide IsIndex, Step, Helps, Ticked, Remaining, Undisturbed, Converged;
    var u := Ticked(t, born, healthy);
    IndexTracks(ss, s, idx);
    NoneTerminating(ss, s, idx);
    var gone, made := StepHelps(ss, s, idx, t, born);
    TickTracks(ss, t, Changed(ss, idx, gone, made), made, healthy);
    var next := TickedIndex(Changed(ss, idx, gone, made), made);
    HelpsMeansLess(ss, idx, gone, made);
    NothingLeftMeaning(ss, s, idx);
    TracksIsIndexOf(ss, s, idx);
    TracksIsIndexOf(ss, u, next);
    if NothingLeft(ss, idx) {
      NothingLeftStays(ss, idx, gone, made);
      TracksDetermines(ss, s, u, idx);
    }
  }

  lemma {:induction false} NothingLeftStays(ss: StatefulSet, idx: Index, gone: set<nat>, made: set<nat>)
    requires (forall k | k in idx :: !idx[k].terminating) && gone <= idx.Keys
    requires Helps(ss, idx, gone, made) && NothingLeft(ss, idx)
    ensures TickedIndex(Changed(ss, idx, gone, made), made) == idx
  {
    assert gone == {} && made == {};
    forall k | k in idx ensures idx[k].ready {
      assert k !in Extras(ss, idx) && k !in Unready(ss, idx);
    }
  }

  lemma {:induction false} IndexOfTracks(ss: StatefulSet, s: Pods)
    requires Undisturbed(ss, s)
    ensures Tracks(ss, s, IndexOf(ss, s))
  {
    forall k: nat | PodName(ss, k) in s ensures k in OrdinalsOf(ss, s) {
      OrdinalRoundTrip(ss, k);
    }
  }

  lemma {:induction false} NothingRemains(ss: StatefulSet, s: Pods)
    ensures Undisturbed(ss, s) && RemainingAt(ss, s) == 0 ==> Converged(ss, s)
  {
    hide Undisturbed, Converged, IndexOf;
    if Undisturbed(ss, s) && RemainingAt(ss, s) == 0 {
      IndexOfTracks(ss, s);
      NothingLeftMeaning(ss, s, IndexOf(ss, s));
    }
  }

  lemma {:induction false} RemainingBound(ss: StatefulSet, s: Pods)
    ensures RemainingAt(ss, s) <= 4 * Want(ss) + |s|
  {
    var idx := IndexOf(ss, s);
    var wanted := Before(Want(ss));
    SubsetSize(Missing(ss, idx) + Replaceable(ss, idx), wanted);
    SubsetSize(Unready(ss, idx), wanted);
    assert Missing(ss, idx) !! Replaceable(ss, idx);
    NamesAtSize(ss, Extras(ss, idx));
    SubsetSize(NamesAt(ss, Extras(ss, idx)), s.Keys);
  }

  lemma {:induction false} NamesAtSize(ss: StatefulSet, ks: set<nat>)
    ensures |NamesAt(ss, ks)| == |ks|
    decreases |ks|
  {
    if ks == {} {
      assert NamesAt(ss, ks) == {};
    } else {
      var k := AnyOf(ks);
      NamesAtSize(ss, ks - {k});
      InNamesAt(ss, ks - {k}, k);
      assert NamesAt(ss, ks) == NamesAt(ss, ks - {k}) + {PodName(ss, k)};
    }
  }
}
