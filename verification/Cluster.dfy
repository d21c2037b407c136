/**
 The API server as garbage collection sees it: objects with identities, versions, owner
 references, a deletion mark and finalizers, changed by many writers. Every creation takes
 a fresh UID and every write a fresh resource version.
 */
module Cluster {
  import opened Wrappers

  const FOREGROUND := "foregroundDeletion"
  const ORPHAN := "orphan"

  datatype Key = Key(apiVersion: string, kind: string, namespace: string, name: string)

  datatype OwnerRef = OwnerRef(apiVersion: string, kind: string, name: string, uid: nat)

  datatype Obj = Obj(uid: nat, rv: nat, owners: seq<OwnerRef>, deleting: bool, finalizers: seq<string>)

  datatype Store = Store(objs: map<Key, Obj>, nextUid: nat, nextRv: nat)

  /** How a kind maps to a resource: unknown, namespaced or cluster-scoped. */
  datatype Scope = Unmapped | Namespaced | Root

  type Mapper = (string, string) -> Scope

  ghost predicate WellFormed(s: Store) {
    && (forall k | k in s.objs :: ObjOk(s, s.objs[k]))
    && forall k, l | k in s.objs && l in s.objs && s.objs[k].uid == s.objs[l].uid :: k == l
  }

  /** Identities, versions and the owners named have all been handed out. */
  ghost predicate ObjOk(s: Store, o: Obj) {
    o.uid < s.nextUid && o.rv < s.nextRv && forall r | r in o.owners :: r.uid < s.nextUid
  }

  /** What other writers may have done: objects come, change and go, but no identity or version is
      reused, and a deletion once begun is not taken back. */
  ghost predicate Evolves(s: Store, t: Store) {
    && s.nextUid <= t.nextUid && s.nextRv <= t.nextRv && WellFormed(t)
    && forall k | k in t.objs :: SameOrNewer(s, k, t.objs[k])
  }

  ghost predicate SameOrNewer(s: Store, k: Key, o: Obj) {
    if o.uid >= s.nextUid then o.rv >= s.nextRv
    else k in s.objs && s.objs[k].uid == o.uid
         && (o == s.objs[k] || (o.rv >= s.nextRv && (s.objs[k].deleting ==> o.deleting)))
  }

  lemma {:induction false} EvolvesStill(s: Store)
    requires WellFormed(s)
    ensures Evolves(s, s)
  {
    forall k | k in s.objs ensures SameOrNewer(s, k, s.objs[k]) {
      assert ObjOk(s, s.objs[k]);
    }
  }

  lemma {:induction false} EvolvesTransitive(s: Store, t: Store, u: Store)
    requires WellFormed(s) && Evolves(s, t) && Evolves(t, u)
    ensures Evolves(s, u)
  {
    forall k | k in u.objs ensures SameOrNewer(s, k, u.objs[k]) {
      assert SameOrNewer(t, k, u.objs[k]);
      if k in t.objs {
        assert SameOrNewer(s, k, t.objs[k]);
      }
    }
  }

  /** An object seen again at a version handed out before has not been touched. */
  lemma {:induction false} SameVersionSameObject(s: Store, t: Store, k: Key)
    requires WellFormed(s) && Evolves(s, t) && k in t.objs && t.objs[k].rv < s.nextRv
    ensures k in s.objs && s.objs[k] == t.objs[k]
  {
    assert SameOrNewer(s, k, t.objs[k]);
  }

  // ----- What the server does with a request -----

  function Without(s: Store, k: Key): Store {
    s.(objs := s.objs - {k}, nextRv := s.nextRv + 1)
  }

  function With(s: Store, k: Key, o: Obj): Store {
    s.(objs := s.objs[k := o.(rv := s.nextRv)], nextRv := s.nextRv + 1)
  }

  /** A delete removes an object without finalizers and marks one with; a second changes nothing. */
  function AfterDelete(s: Store, k: Key): Store
    requires k in s.objs
  {
    var o := s.objs[k];
    if |o.finalizers| == 0 then Without(s, k)
    else if o.deleting then s
    else With(s, k, o.(deleting := true))
  }

  function AfterOwners(s: Store, k: Key, owners: seq<OwnerRef>): Store
    requires k in s.objs
  {
    With(s, k, s.objs[k].(owners := owners))
  }

  /** Taking the last finalizer off an object under deletion removes it. */
  function AfterFinalizers(s: Store, k: Key, finalizers: seq<string>): Store
    requires k in s.objs
  {
    if s.objs[k].deleting && |finalizers| == 0 then Without(s, k)
    else With(s, k, s.objs[k].(finalizers := finalizers))
  }

  lemma {:induction false} WithoutEvolves(s: Store, k: Key)
    requires WellFormed(s)
    ensures Evolves(s, Without(s, k))
  {
    var t := Without(s, k);
    forall l | l in t.objs ensures SameOrNewer(s, l, t.objs[l]) && ObjOk(t, t.objs[l]) {
      assert ObjOk(s, s.objs[l]);
    }
  }

  lemma {:induction false} WithEvolves(s: Store, k: Key, o: Obj)
    requires WellFormed(s) && k in s.objs && o.uid == s.objs[k].uid
    requires s.objs[k].deleting ==> o.deleting
    requires forall r | r in o.owners :: r.uid < s.nextUid
    ensures Evolves(s, With(s, k, o))
  {
    var t := With(s, k, o);
    forall l | l in t.objs ensures SameOrNewer(s, l, t.objs[l]) && ObjOk(t, t.objs[l]) {
      assert ObjOk(s, s.objs[l]);
    }
  }

  // ----- Owners -----

  /** The object an owner reference names, for a dependent in namespace `ns`. */
  function OwnerKey(mapper: Mapper, ref: OwnerRef, ns: string): Option<Key> {
    match mapper(ref.apiVersion, ref.kind)
    case Unmapped => None
    case Namespaced => Some(Key(ref.apiVersion, ref.kind, ns, ref.name))
    case Root => Some(Key(ref.apiVersion, ref.kind, "", ref.name))
  }

  /** The reference is dangling: the name is free, or taken by another incarnation. */
  ghost predicate Dangling(mapper: Mapper, s: Store, ref: OwnerRef, ns: string) {
    var k := OwnerKey(mapper, ref, ns);
    k.Some? && (k.value !in s.objs || s.objs[k.value].uid != ref.uid)
  }

  /** The owner is gone for good: dangling, or its deletion has begun. */
  ghost predicate OwnerGone(mapper: Mapper, s: Store, ref: OwnerRef, ns: string) {
    var k := OwnerKey(mapper, ref, ns);
    k.Some? && (k.value in s.objs && s.objs[k.value].uid == ref.uid ==> s.objs[k.value].deleting)
  }

  /** Once gone, an owner stays gone, whatever other writers do: its UID never comes back. */
  lemma {:induction false} OwnerStaysGone(mapper: Mapper, s: Store, t: Store, ref: OwnerRef, ns: string)
    requires WellFormed(s) && Evolves(s, t) && ref.uid < s.nextUid
    requires OwnerGone(mapper, s, ref, ns)
    ensures OwnerGone(mapper, t, ref, ns)
  {
    var k := OwnerKey(mapper, ref, ns).value;
    if k in t.objs {
      assert SameOrNewer(s, k, t.objs[k]);
    }
  }
}
