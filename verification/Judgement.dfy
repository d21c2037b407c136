/**
 How a store's owner references are judged, and what it means that nothing is left to judge.
 */
module Judgement {
  import opened Wrappers
  import opened Cluster
  import opened Landings

  /** What looking up an owner found. */
  datatype Resolution = Resolution(found: bool, uid: nat, deletingDependents: bool)

  /** What a fresh lookup of the owner at `k` finds in `s`. */
  function ResolveIn(s: Store, k: Key): Resolution {
    if k !in s.objs then Resolution(false, 0, false)
    else
      var o := s.objs[k];
      Resolution(true, o.uid, o.deleting && FOREGROUND in o.finalizers)
  }

  /** The owner exists with the referenced UID and is not deleting its dependents. */
  predicate Solid(res: Resolution, ref: OwnerRef) {
    res.found && res.uid == ref.uid && !res.deletingDependents
  }

  /** What a sweep remembers still holds. */
  ghost predicate Fresh(cache: Option<map<Key, Resolution>>, s: Store) {
    cache.Some? ==> forall k | k in cache.value :: cache.value[k] == ResolveIn(s, k)
  }

  function ReferencesUid(owners: seq<OwnerRef>, uid: nat): (yes: bool)
    ensures yes <==> exists r :: r in owners && r.uid == uid
  {
    |owners| > 0 && (owners[|owners| - 1].uid == uid || ReferencesUid(owners[..|owners| - 1], uid))
  }

  ghost predicate HasFinalizer(s: Store, key: Key, uid: nat, finalizer: string) {
    key in s.objs && s.objs[key].uid == uid && finalizer in s.objs[key].finalizers
  }

  /** What taking the finalizer off this incarnation leaves of a store nobody else writes. */
  ghost function Unfinalized(s: Store, key: Key, uid: nat, finalizer: string): Store {
    if HasFinalizer(s, key, uid, finalizer)
    then AfterFinalizers(s, key, KeepFinalizers(s.objs[key].finalizers, finalizer)) else s
  }

  lemma {:induction false} UnfinalizedChanges(s: Store, key: Key, uid: nat, finalizer: string)
    ensures Unfinalized(s, key, uid, finalizer) != s <==> HasFinalizer(s, key, uid, finalizer)
  {
  }

  ghost predicate Resolvable(mapper: Mapper, ref: OwnerRef, ns: string) {
    OwnerKey(mapper, ref, ns).Some?
  }

  ghost predicate SolidAt(mapper: Mapper, s: Store, ref: OwnerRef, ns: string) {
    Resolvable(mapper, ref, ns) && Solid(ResolveIn(s, OwnerKey(mapper, ref, ns).value), ref)
  }

  /** A delete would change the object. */
  predicate Erasable(o: Obj) {
    !o.deleting || |o.finalizers| == 0
  }

  /** All owners can be looked up, and some is not solid: there is something to delete or to strip. */
  ghost predicate Collectable(mapper: Mapper, s: Store, key: Key) {
    && key in s.objs
    && var o := s.objs[key];
       && (forall r | r in o.owners :: Resolvable(mapper, r, key.namespace))
       && (exists r :: r in o.owners && !SolidAt(mapper, s, r, key.namespace))
       && (Erasable(o) || exists r :: r in o.owners && SolidAt(mapper, s, r, key.namespace))
  }

  lemma {:induction false} NotSolidIsGone(mapper: Mapper, s: Store, ref: OwnerRef, ns: string)
    requires Resolvable(mapper, ref, ns) && !SolidAt(mapper, s, ref, ns)
    ensures OwnerGone(mapper, s, ref, ns)
  {
  }

  /** As long as its owner is orphaning it, every reference of the protected dependent is solid. */
  lemma {:induction false} ProtectedOwnersAreSolid(mapper: Mapper, f: Focus, read: Store, s: Store, ref: OwnerRef)
    requires Protected(mapper, f, read) && Protected(mapper, f, s) && !Freed(f, s)
    requires ref in read.objs[f.dep].owners
    ensures SolidAt(mapper, s, ref, f.dep.namespace)
  {
  }

  /** What collecting one candidate does to a store nobody else writes. */
  ghost function Collected(mapper: Mapper, s: Store, key: Key): Store {
    if key !in s.objs || |s.objs[key].owners| == 0 || exists r :: r in s.objs[key].owners && !Resolvable(mapper, r, key.namespace)
    then s
    else
      var owners := s.objs[key].owners;
      var drop := set r | r in owners && !SolidAt(mapper, s, r, key.namespace) :: r.uid;
      if forall r | r in owners :: !SolidAt(mapper, s, r, key.namespace) then AfterDelete(s, key)
      else if drop == {} then s
      else AfterOwners(s, key, Keep(owners, drop))
  }

  /** Collecting changes a store exactly if there is something to delete or to strip. */
  lemma {:induction false} CollectedChanges(mapper: Mapper, s: Store, key: Key)
    ensures Collected(mapper, s, key) != s <==> Collectable(mapper, s, key)
  {
    hide SolidAt, Resolvable, AfterDelete, AfterOwners;
    if key in s.objs && |s.objs[key].owners| > 0 {
      var owners := s.objs[key].owners;
      assert owners[0] in owners;
      var drop := set r | r in owners && !SolidAt(mapper, s, r, key.namespace) :: r.uid;
      if r :| r in owners && !SolidAt(mapper, s, r, key.namespace) {
        assert r.uid in drop;
      }
      DeleteChanges(s, key);
      OwnersChange(s, key, Keep(owners, drop));
    }
  }

  lemma {:induction false} DeleteChanges(s: Store, key: Key)
    requires key in s.objs
    ensures AfterDelete(s, key) != s <==> Erasable(s.objs[key])
  {
  }

  lemma {:induction false} OwnersChange(s: Store, key: Key, owners: seq<OwnerRef>)
    requires key in s.objs
    ensures AfterOwners(s, key, owners) != s
  {
    assert AfterOwners(s, key, owners).nextRv == s.nextRv + 1;
  }

  /**
   The owner no longer keeps its dependent: it is absent, another object has its name, or it is
   being deleted in the foreground. Nothing is known of an owner of an unmapped kind.
   */
  ghost predicate LetsGo(mapper: Mapper, s: Store, ref: OwnerRef, ns: string) {
    var scope := mapper(ref.apiVersion, ref.kind);
    var k := Key(ref.apiVersion, ref.kind, if scope.Root? then "" else ns, ref.name);
    && !scope.Unmapped?
    && (k !in s.objs || s.objs[k].uid != ref.uid || (s.objs[k].deleting && FOREGROUND in s.objs[k].finalizers))
  }

  ghost predicate KnownKind(mapper: Mapper, ref: OwnerRef) {
    !mapper(ref.apiVersion, ref.kind).Unmapped?
  }

  lemma {:induction false} LetsGoIsNotSolid(mapper: Mapper, s: Store, ref: OwnerRef, ns: string)
    ensures Resolvable(mapper, ref, ns) <==> KnownKind(mapper, ref)
    ensures LetsGo(mapper, s, ref, ns) <==> Resolvable(mapper, ref, ns) && !SolidAt(mapper, s, ref, ns)
  {
  }

  /** Some owner with this UID lets its dependent go. */
  ghost predicate UidLetsGo(mapper: Mapper, s: Store, owners: seq<OwnerRef>, uid: nat, ns: string) {
    exists q :: q in owners && q.uid == uid && LetsGo(mapper, s, q, ns)
  }

  /** `t` is `s` but for the owners of `key`, and a new version if they changed. */
  ghost predicate OnlyOwnersChanged(s: Store, t: Store, key: Key)
    requires key in s.objs
  {
    && t.objs.Keys == s.objs.Keys && t.nextUid == s.nextUid
    && (forall k | k in s.objs && k != key :: t.objs[k] == s.objs[k])
    && t.objs[key] == s.objs[key].(owners := t.objs[key].owners, rv := t.objs[key].rv)
    && (t == s || (t.objs[key].rv == s.nextRv && t.nextRv == s.nextRv + 1))
  }

  /**
   What collecting an object leaves: it stays as it is if it is gone, has no owners, or has one of
   an unmapped kind. Otherwise it is deleted if every owner lets it go, and else keeps exactly the
   references whose UID no owner that lets it go carries.
   */
  ghost predicate CollectOutcome(mapper: Mapper, s: Store, t: Store, key: Key) {
    if key !in s.objs || s.objs[key].owners == [] || exists r :: r in s.objs[key].owners && !KnownKind(mapper, r) then t == s
    else
      var owners, ns := s.objs[key].owners, key.namespace;
      if forall r :: r in owners ==> LetsGo(mapper, s, r, ns) then t == AfterDelete(s, key)
      else
        && OnlyOwnersChanged(s, t, key)
        && (forall r :: r in t.objs[key].owners <==> r in owners && !UidLetsGo(mapper, s, owners, r.uid, ns))
        && (t == s <==> forall r :: r in owners ==> !LetsGo(mapper, s, r, ns))
  }

  lemma {:induction false} CollectedIsOutcome(mapper: Mapper, s: Store, key: Key)
    ensures CollectOutcome(mapper, s, Collected(mapper, s, key), key)
  {
    hide LetsGo, KnownKind, SolidAt, Resolvable, AfterDelete;
    if key in s.objs && |s.objs[key].owners| > 0 {
      var owners, ns := s.objs[key].owners, key.namespace;
      forall r | r in owners
        ensures Resolvable(mapper, r, ns) <==> KnownKind(mapper, r)
        ensures LetsGo(mapper, s, r, ns) <==> Resolvable(mapper, r, ns) && !SolidAt(mapper, s, r, ns)
      {
        LetsGoIsNotSolid(mapper, s, r, ns);
      }
      var drop := set r | r in owners && !SolidAt(mapper, s, r, ns) :: r.uid;
      if forall r | r in owners :: Resolvable(mapper, r, ns) {
        forall uid ensures uid in drop <==> UidLetsGo(mapper, s, owners, uid, ns) {
        }
        if r :| r in owners && LetsGo(mapper, s, r, ns) {
          assert r.uid in drop;
          OwnersChange(s, key, Keep(owners, drop));
        }
      }
    }
  }

  // ----- Nothing left to do -----

  /** No sweep would change anything. */
  ghost predicate AtRest(w: World, s: Store) {
    (forall k | k in s.objs && Watched(w, k) :: !Reapable(w.mapper, s, k)) && FinalizersAtRest(w, s)
  }

  ghost predicate FinalizersAtRest(w: World, s: Store) {
    forall k | k in s.objs && Watched(w, k) && s.objs[k].deleting :: OwnerAtRest(w, s, s.objs[k])
  }

  ghost predicate OwnerAtRest(w: World, s: Store, o: Obj) {
    if FOREGROUND in o.finalizers then WaitingForDependents(w, s, o.uid) else ORPHAN !in o.finalizers
  }

  /** Every owner reference is dangling, and a delete would change the object. */
  ghost predicate Reapable(mapper: Mapper, s: Store, key: Key)
    requires key in s.objs
  {
    var o := s.objs[key];
    Erasable(o) && |o.owners| > 0 && forall r | r in o.owners :: Dangling(mapper, s, r, key.namespace)
  }

  ghost predicate WaitingForDependents(w: World, s: Store, uid: nat) {
    && (exists d :: Dependent(w, s, d, uid))
    && forall d | Dependent(w, s, d, uid) :: !Collectable(w.mapper, s, d)
  }

  ghost predicate Dependent(w: World, s: Store, d: Key, uid: nat) {
    d in s.objs && Watched(w, d) && exists r :: r in s.objs[d].owners && r.uid == uid
  }

  /** For an object whose owners are all dangling, collecting comes down to reaping. */
  lemma {:induction false} DanglingIsCollectable(mapper: Mapper, s: Store, key: Key)
    requires key in s.objs && |s.objs[key].owners| > 0
    requires forall r | r in s.objs[key].owners :: Dangling(mapper, s, r, key.namespace)
    ensures Collectable(mapper, s, key) <==> Reapable(mapper, s, key)
  {
    var r := s.objs[key].owners[0];
    assert r in s.objs[key].owners && Dangling(mapper, s, r, key.namespace);
    assert !SolidAt(mapper, s, r, key.namespace);
  }

  /**
   What a foreground deletion still waits for once nothing moves: dependents being deleted
   themselves, held only by finalizers of their own, or naming an owner of an unknown kind.
   */
  lemma {:induction false} WaitingMeaning(w: World, s: Store, owner: Key, d: Key)
    requires WellFormed(s) && AtRest(w, s)
    requires owner in s.objs && Watched(w, owner) && s.objs[owner].deleting && FOREGROUND in s.objs[owner].finalizers
    requires Dependent(w, s, d, s.objs[owner].uid)
    ensures (exists r :: r in s.objs[d].owners && !Resolvable(w.mapper, r, d.namespace))
            || (s.objs[d].deleting && AllOwnersGone(w.mapper, s, s.objs[d].owners, d.namespace))
  {
    var uid := s.objs[owner].uid;
    assert WaitingForDependents(w, s, uid) && !Collectable(w.mapper, s, d);
    var r :| r in s.objs[d].owners && r.uid == uid;
    assert !SolidAt(w.mapper, s, r, d.namespace);
    if forall q | q in s.objs[d].owners :: Resolvable(w.mapper, q, d.namespace) {
      forall q | q in s.objs[d].owners ensures OwnerGone(w.mapper, s, q, d.namespace) {
        NotSolidIsGone(w.mapper, s, q, d.namespace);
      }
    }
  }

  /** The reference names nothing that exists: no object has its name, or one with another UID. */
  ghost predicate Vanished(mapper: Mapper, s: Store, ref: OwnerRef, ns: string) {
    var scope := mapper(ref.apiVersion, ref.kind);
    var k := Key(ref.apiVersion, ref.kind, if scope.Root? then "" else ns, ref.name);
    !scope.Unmapped? && (k !in s.objs || s.objs[k].uid != ref.uid)
  }

  /** Every owner has vanished, and the object is not just being held by its own finalizers. */
  ghost predicate Litter(mapper: Mapper, s: Store, key: Key)
    requires key in s.objs
  {
    var o := s.objs[key];
    && o.owners != [] && (forall r :: r in o.owners ==> Vanished(mapper, s, r, key.namespace))
    && !(o.deleting && o.finalizers != [])
  }

  /** Nothing can be done about the object: an owner's kind is unknown, no owner lets it go, or all do and its own finalizers hold it. */
  ghost predicate Held(mapper: Mapper, s: Store, key: Key)
    requires key in s.objs
  {
    var o := s.objs[key];
    || (exists r :: r in o.owners && !KnownKind(mapper, r))
    || (forall r :: r in o.owners ==> !LetsGo(mapper, s, r, key.namespace))
    || ((forall r :: r in o.owners ==> LetsGo(mapper, s, r, key.namespace)) && o.deleting && o.finalizers != [])
  }

  lemma {:induction false} CollectableIsNotHeld(mapper: Mapper, s: Store, key: Key)
    requires key in s.objs
    ensures Collectable(mapper, s, key) <==> !Held(mapper, s, key)
  {
    hide LetsGo, KnownKind, SolidAt, Resolvable;
    var owners, ns := s.objs[key].owners, key.namespace;
    forall r | r in owners
      ensures Resolvable(mapper, r, ns) <==> KnownKind(mapper, r)
      ensures LetsGo(mapper, s, r, ns) <==> Resolvable(mapper, r, ns) && !SolidAt(mapper, s, r, ns)
    {
      LetsGoIsNotSolid(mapper, s, r, ns);
    }
  }

  lemma {:induction false} ReapableIsLitter(mapper: Mapper, s: Store, key: Key)
    requires key in s.objs
    ensures Reapable(mapper, s, key) <==> Litter(mapper, s, key)
  {
    forall r ensures Dangling(mapper, s, r, key.namespace) <==> Vanished(mapper, s, r, key.namespace) {
    }
  }

  /** An owner whose deletion the collector has nothing to add to. */
  ghost predicate OwnerDone(w: World, s: Store, o: Obj) {
    if FOREGROUND in o.finalizers then
      && (exists d :: Dependent(w, s, d, o.uid))
      && forall d | Dependent(w, s, d, o.uid) :: Held(w.mapper, s, d)
    else ORPHAN !in o.finalizers
  }

  /**
   A store is at rest exactly when no watched object is litter, and every watched owner being deleted
   either waits in the foreground for dependents all of which are held, or orphans nothing any more.
   */
  lemma {:induction false} RestMeaning(w: World, s: Store)
    ensures AtRest(w, s) <==>
            forall k | k in s.objs && Watched(w, k) ::
              !Litter(w.mapper, s, k) && (s.objs[k].deleting ==> OwnerDone(w, s, s.objs[k]))
  {
    hide Reapable, Litter, Held, Collectable;
    forall k | k in s.objs
      ensures Reapable(w.mapper, s, k) <==> Litter(w.mapper, s, k)
      ensures Collectable(w.mapper, s, k) <==> !Held(w.mapper, s, k)
    {
      ReapableIsLitter(w.mapper, s, k);
      CollectableIsNotHeld(w.mapper, s, k);
    }
    forall k | k in s.objs ensures OwnerAtRest(w, s, s.objs[k]) <==> OwnerDone(w, s, s.objs[k]) {
    }
  }

  const POD := Key("v1", "Pod", "ns", "p")
  const HEIR := Key("v1", "Pod", "ns", "heir")

  function OnlyPods(apiVersion: string, kind: string): Scope { Namespaced }

  /** Stripping goes by UID alone, so a living owner that shares a UID with a vanished name is dropped too. */
  lemma {:induction false} StripCanDropLivingOwner()
    ensures var refs := [OwnerRef("v1", "Pod", "gone", 1), OwnerRef("v1", "Pod", "heir", 1)];
            var s := Store(map[POD := Obj(0, 1, refs, false, []), HEIR := Obj(1, 0, [], false, [])], 2, 2);
            var t := Collected(OnlyPods, s, POD);
            && WellFormed(s) && SolidAt(OnlyPods, s, refs[1], "ns")
            && POD in t.objs && t.objs[POD].owners == []
  {
    var refs := [OwnerRef("v1", "Pod", "gone", 1), OwnerRef("v1", "Pod", "heir", 1)];
    var live, heir := Obj(0, 1, refs, false, []), Obj(1, 0, [], false, []);
    var s := Store(map[POD := live, HEIR := heir], 2, 2);
    assert POD != HEIR && ObjOk(s, live) && ObjOk(s, heir);
    assert "gone" != "heir" && "gone" != "p";
    assert refs[0] in refs && refs[1] in refs;
    assert !SolidAt(OnlyPods, s, refs[0], "ns") && SolidAt(OnlyPods, s, refs[1], "ns");
    var drop := set r | r in refs && !SolidAt(OnlyPods, s, r, "ns") :: r.uid;
    assert refs[0].uid in drop;
    assert Keep(refs[..1], drop) == [];
    assert Keep(refs, drop) == [];
  }

  /**
   Two owners of each other, both being deleted in the foreground, wait for each other for
   good: nothing a sweep does gets either of them deleted.
   */
  lemma {:induction false} ForegroundCycleWaits(w: World)
    requires w.mapper == OnlyPods && w.kinds == [("v1", "Pod")]
    ensures var a := Obj(0, 0, [OwnerRef("v1", "Pod", "heir", 1)], true, [FOREGROUND]);
            var b := Obj(1, 1, [OwnerRef("v1", "Pod", "p", 0)], true, [FOREGROUND]);
            var s := Store(map[POD := a, HEIR := b], 2, 2);
            WellFormed(s) && AtRest(w, s)
  {
    var a := Obj(0, 0, [OwnerRef("v1", "Pod", "heir", 1)], true, [FOREGROUND]);
    var b := Obj(1, 1, [OwnerRef("v1", "Pod", "p", 0)], true, [FOREGROUND]);
    var s := Store(map[POD := a, HEIR := b], 2, 2);
    assert POD != HEIR && ObjOk(s, a) && ObjOk(s, b);
    assert !SolidAt(w.mapper, s, a.owners[0], "ns") && !SolidAt(w.mapper, s, b.owners[0], "ns");
    assert a.owners[0] in a.owners && b.owners[0] in b.owners;
    assert Dependent(w, s, POD, 1) && Dependent(w, s, HEIR, 0);
    assert !Collectable(w.mapper, s, POD) && !Collectable(w.mapper, s, HEIR);
  }

  // ----- Lists -----

  /** What a list taken earlier still says: identities have been handed out, and a deletion begun stays begun. */
  ghost predicate ListedEarlier(s: Store, objs: seq<Listed>) {
    forall e | e in objs :: EntryEarlier(s, e)
  }

  ghost predicate EntryEarlier(s: Store, e: Listed) {
    e.obj.uid < s.nextUid && (e.obj.deleting ==> UidGone(s, e.obj.uid))
  }

  lemma {:induction false} UidStaysGone(s: Store, t: Store, uid: nat)
    requires Evolves(s, t) && uid < s.nextUid && UidGone(s, uid)
    ensures UidGone(t, uid)
  {
    forall k | k in t.objs && t.objs[k].uid == uid ensures t.objs[k].deleting {
      assert SameOrNewer(s, k, t.objs[k]);
    }
  }

  lemma {:induction false} ListedEarlierStill(s: Store, t: Store, objs: seq<Listed>)
    requires Evolves(s, t) && ListedEarlier(s, objs)
    ensures ListedEarlier(t, objs)
  {
    forall e | e in objs ensures EntryEarlier(t, e) {
      assert EntryEarlier(s, e);
      if e.obj.deleting {
        UidStaysGone(s, t, e.obj.uid);
      }
    }
  }

  /** The list shows exactly the watched objects of `s`. */
  ghost predicate Current(w: World, s: Store, objs: seq<Listed>) {
    && (forall e | e in objs :: e.key in s.objs && s.objs[e.key] == e.obj && Watched(w, e.key))
    && forall k | k in s.objs && Watched(w, k) :: Listed(k, s.objs[k]) in objs
  }

  /** Some entry shows `key` with a reference to `uid`. */
  ghost predicate Shows(objs: seq<Listed>, key: Key, uid: nat) {
    exists e :: e in objs && e.key == key && ReferencesUid(e.obj.owners, uid)
  }

  /** The store `s` has the protected dependent, and this owner is the one it may still name. */
  ghost predicate Holds(w: World, f: Focus, s: Store, ownerUid: nat) {
    Respects(w, f) && Protected(w.mapper, f, s) && ownerUid == f.ownerUid
  }

  /** From `s` to `t`, an operation begun at `s0` has not bound the protected dependent again. */
  ghost predicate StaysFree(w: World, f: Focus, s0: Store, s: Store, t: Store) {
    Holds(w, f, s0, f.ownerUid) && Freed(f, s) ==> Freed(f, t)
  }

  /** The finalizer of an orphaning owner comes off only once the dependent is free. */
  lemma {:induction false} FreedBeforeRelease(w: World, f: Focus, s0: Store, s: Store, key: Key, finalizer: string)
    requires Advance(w, f, s0, s) && key in s.objs
    requires (Respects(w, f) && Protected(w.mapper, f, s0) && key == f.owner && s.objs[key].uid == f.ownerUid
              && finalizer == ORPHAN) ==> Freed(f, s)
    ensures Respects(w, f) && Protected(w.mapper, f, s0) && key == f.owner && finalizer == ORPHAN ==> Freed(f, s)
  {
  }

  ghost predicate NoneCollectable(mapper: Mapper, s: Store, objs: seq<Listed>, uid: nat) {
    forall e | e in objs && ReferencesUid(e.obj.owners, uid) :: !Collectable(mapper, s, e.key)
  }

  ghost predicate ListWaits(mapper: Mapper, s: Store, objs: seq<Listed>, uid: nat) {
    (exists e :: e in objs && ReferencesUid(e.obj.owners, uid)) && NoneCollectable(mapper, s, objs, uid)
  }

  /** The owners among `entries` that are being deleted need nothing more. */
  ghost predicate ListAtRest(w: World, s: Store, entries: seq<Listed>) {
    forall e | e in entries && e.obj.deleting :: OwnerAtRest(w, s, e.obj)
  }

  lemma {:induction false} ListWaitsMeaning(w: World, s: Store, objs: seq<Listed>, owner: Listed)
    ensures Current(w, s, objs) ==>
      (ListWaits(w.mapper, s, objs, owner.obj.uid) <==> WaitingForDependents(w, s, owner.obj.uid))
  {
    var uid := owner.obj.uid;
    if Current(w, s, objs) {
      forall d | Dependent(w, s, d, uid)
        ensures Listed(d, s.objs[d]) in objs && ReferencesUid(s.objs[d].owners, uid)
      {
      }
      forall e | e in objs && ReferencesUid(e.obj.owners, uid) ensures Dependent(w, s, e.key, uid) {
      }
    }
  }

  lemma {:induction false} ListAtRestMeaning(w: World, s: Store, objs: seq<Listed>)
    ensures Current(w, s, objs) ==> (ListAtRest(w, s, objs) <==> FinalizersAtRest(w, s))
  {
  }

  ghost predicate NoneReapable(mapper: Mapper, s: Store, entries: seq<Listed>) {
    forall e | e in entries && e.key in s.objs :: !Reapable(mapper, s, e.key)
  }

  lemma {:induction false} NoneReapableMeaning(w: World, s: Store, objs: seq<Listed>)
    ensures Current(w, s, objs) ==>
      (NoneReapable(w.mapper, s, objs) <==> forall k | k in s.objs && Watched(w, k) :: !Reapable(w.mapper, s, k))
  {
    if Current(w, s, objs) {
      forall k | k in s.objs && Watched(w, k) ensures Listed(k, s.objs[k]) in objs {
      }
    }
  }

  lemma {:induction false} FreshAtFirst(s: Store)
    ensures Fresh(Some(map[]), s)
  {
  }

  function KindOf(key: Key): (string, string) { (key.apiVersion, key.kind) }

  /** The list shows exactly the objects of these kinds. */
  ghost predicate ShowsKinds(s: Store, kinds: seq<(string, string)>, objs: seq<Listed>) {
    forall e :: e in objs <==> e.key in s.objs && s.objs[e.key] == e.obj && KindOf(e.key) in kinds
  }

  lemma {:induction false} ItemsAreCurrent(s: Store, kind: (string, string), items: seq<Listed>)
    requires WellFormed(s)
    requires forall e | e in items :: e.key in s.objs && s.objs[e.key] == e.obj
    ensures ListedEarlier(s, items)
  {
    forall e | e in items ensures EntryEarlier(s, e) {
      assert ObjOk(s, s.objs[e.key]);
    }
  }

  /** A list of the dependent's kind, taken while it is protected and not yet free, shows its reference. */
  lemma {:induction false} ItemsShow(mapper: Mapper, f: Focus, s: Store, items: seq<Listed>)
    requires Protected(mapper, f, s)
    requires Listed(f.dep, s.objs[f.dep]) in items
    ensures Freed(f, s) || Shows(items, f.dep, f.ownerUid)
  {
    var e := Listed(f.dep, s.objs[f.dep]);
    if |e.obj.owners| > 0 {
      assert e.obj.owners[0] in e.obj.owners;
      assert ReferencesUid(e.obj.owners, f.ownerUid);
    }
  }

  lemma {:induction false} JoinedEarlier(s: Store, objs: seq<Listed>, items: seq<Listed>)
    requires ListedEarlier(s, objs) && ListedEarlier(s, items)
    ensures ListedEarlier(s, objs + items)
  {
  }

  lemma {:induction false} KindsJoin(s: Store, kinds: seq<(string, string)>, objs: seq<Listed>, kind: (string, string), items: seq<Listed>)
    requires forall e :: e in items <==> e.key in s.objs && s.objs[e.key] == e.obj && KindOf(e.key) == kind
    ensures ShowsKinds(s, kinds, objs) ==> ShowsKinds(s, kinds + [kind], objs + items)
  {
  }

  /** Once all kinds are listed without a write in between, the list is current. */
  lemma {:induction false} AllKindsShown(w: World, s: Store, objs: seq<Listed>)
    ensures ShowsKinds(s, w.kinds, objs) ==> Current(w, s, objs)
  {
  }

  /** The dependent, held back at `s0`, is free by now or shown by the list of its kind. */
  lemma {:induction false} HoldsShown(w: World, f: Focus, s0: Store, s: Store, kind: (string, string), items: seq<Listed>, objs: seq<Listed>)
    requires Advance(w, f, s0, s)
    requires forall e :: e in items <==> e.key in s.objs && s.objs[e.key] == e.obj && KindOf(e.key) == kind
    ensures Holds(w, f, s0, f.ownerUid) && KindOf(f.dep) == kind ==> Freed(f, s) || Shows(objs + items, f.dep, f.ownerUid)
    ensures Shows(objs, f.dep, f.ownerUid) ==> Shows(objs + items, f.dep, f.ownerUid)
  {
    if Holds(w, f, s0, f.ownerUid) && KindOf(f.dep) == kind {
      ItemsShow(w.mapper, f, s, items);
    }
  }

  lemma {:induction false} DependentIsWatched(w: World, f: Focus, s: Store)
    ensures Holds(w, f, s, f.ownerUid) ==> KindOf(f.dep) in w.kinds
  {
  }

  lemma {:induction false} WeightlessIsAtRest(w: World, s: Store)
    ensures Weight(s.objs) == 0 ==> AtRest(w, s)
  {
    if k :| k in s.objs {
      WeightSplit(s.objs, k);
    }
  }
}
