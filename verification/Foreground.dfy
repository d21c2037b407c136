/**
 When a foreground deletion left alone comes to its end: what the collector's own writes can do
 to a store only ever takes away, and below an owner without a cycle nothing is left waiting.
 */
module Foreground {
  import opened Wrappers
  import opened Cluster
  import opened Landings
  import opened Judgement
  import opened History

  /** Objects, owner references and finalizers have only gone; deletions have only begun. */
  ghost predicate Shrinks(s: Store, t: Store) {
    forall k | k in t.objs :: k in s.objs && Less(s.objs[k], t.objs[k])
  }

  ghost predicate Less(o: Obj, p: Obj) {
    && p.uid == o.uid && (o.deleting ==> p.deleting)
    && (forall r | r in p.owners :: r in o.owners) && (forall f | f in p.finalizers :: f in o.finalizers)
  }

  lemma {:induction false} AfterShrinks(s: Store, l: Landing, live: Obj)
    requires l.key in s.objs && (!l.action.DeleteLocked? && !l.action.DeleteByUid? ==> s.objs[l.key] == live)
    ensures Shrinks(s, After(s, l, live))
  {
  }

  /** Without other writers, later stores of a history have only shrunk. */
  lemma {:induction false} QuietShrinks(w: World, tr: Trail, i: nat, j: nat)
    requires Quiet(w) && Genuine(w, tr) && i <= j < |tr.stores|
    ensures Shrinks(tr.stores[i], tr.stores[j])
    decreases j
  {
    assert Shaped(tr);
    hide Justified, After, Genuine;
    if i < j {
      QuietShrinks(w, tr, i, j - 1);
      GenuineStep(w, tr, j - 1);
      if tr.events[j - 1].Wrote? {
        var l := tr.events[j - 1].landing;
        JustifiedIndices(w.mapper, tr, j - 1, l);
        AfterShrinks(tr.stores[j - 1], l, tr.stores[l.read].objs[l.key]);
      }
    }
  }

  /**
   Nothing below the owner can hold it up for good: ownership there has no cycle, as `rank`
   shows, all owners are of known kinds, and no finalizer needs anyone but the collector.
   */
  ghost predicate Unwinds(w: World, s: Store, below: set<Key>, rank: Key -> nat) {
    forall k, d | k in below && k in s.objs && Dependent(w, s, d, s.objs[k].uid) ::
      d in below && rank(d) < rank(k) && Free(w, s, d)
  }

  /** All owners of the object can be looked up and all its finalizers are the collector's. */
  ghost predicate Free(w: World, s: Store, d: Key)
    requires d in s.objs
  {
    && (forall r | r in s.objs[d].owners :: Resolvable(w.mapper, r, d.namespace))
    && (forall f | f in s.objs[d].finalizers :: f == FOREGROUND || f == ORPHAN)
  }

  lemma {:induction false} UnwindsStill(w: World, s: Store, t: Store, below: set<Key>, rank: Key -> nat)
    requires Unwinds(w, s, below, rank) && Shrinks(s, t)
    ensures Unwinds(w, t, below, rank)
  {
    forall k, d | k in below && k in t.objs && Dependent(w, t, d, t.objs[k].uid)
      ensures d in below && rank(d) < rank(k) && Free(w, t, d)
    {
      var r :| r in t.objs[d].owners && r.uid == t.objs[k].uid;
      assert r in s.objs[d].owners;
      assert Dependent(w, s, d, s.objs[k].uid);
    }
  }

  /** The owner's foreground finalizer is off: it is free to go, or gone. */
  ghost predicate Released(s: Store, owner: Key) {
    owner in s.objs && s.objs[owner].deleting ==> FOREGROUND !in s.objs[owner].finalizers
  }

  /** At rest no owner above an unwinding hierarchy is still waiting for its dependents. */
  lemma {:induction false} RestReleases(w: World, s: Store, below: set<Key>, rank: Key -> nat, owner: Key)
    requires WellFormed(s) && AtRest(w, s) && Unwinds(w, s, below, rank)
    requires owner in below && Watched(w, owner)
    ensures Released(s, owner)
    decreases rank(owner)
  {
    hide WellFormed, SolidAt, Reapable, Resolvable;
    if owner in s.objs && s.objs[owner].deleting && FOREGROUND in s.objs[owner].finalizers {
      assert WaitingForDependents(w, s, s.objs[owner].uid);
      var d :| Dependent(w, s, d, s.objs[owner].uid);
      assert Free(w, s, d) && rank(d) < rank(owner);
      WaitingMeaning(w, s, owner, d);
      HeldByFinalizer(w, s, owner, d);
      RestReleases(w, s, below, rank, d);
    }
  }

  /** A dependent at rest below a waiting owner is itself waiting in foreground deletion. */
  lemma {:induction false} HeldByFinalizer(w: World, s: Store, owner: Key, d: Key)
    requires WellFormed(s) && AtRest(w, s)
    requires owner in s.objs && Watched(w, owner) && s.objs[owner].deleting && FOREGROUND in s.objs[owner].finalizers
    requires Dependent(w, s, d, s.objs[owner].uid) && Free(w, s, d)
    ensures s.objs[d].deleting && FOREGROUND in s.objs[d].finalizers
  {
    hide WellFormed, Reapable;
    WaitingMeaning(w, s, owner, d);
    var uid := s.objs[owner].uid;
    assert WaitingForDependents(w, s, uid) && !Collectable(w.mapper, s, d);
    var r :| r in s.objs[d].owners && r.uid == uid;
    OwnerNotSolid(w, s, owner, d, r);
    assert !Erasable(s.objs[d]);
    SomeElement(s.objs[d].finalizers);
    assert OwnerAtRest(w, s, s.objs[d]);
  }

  /** A reference to an owner in foreground deletion is not solid, whatever it names. */
  lemma {:induction false} OwnerNotSolid(w: World, s: Store, owner: Key, d: Key, r: OwnerRef)
    requires WellFormed(s) && owner in s.objs && s.objs[owner].deleting && FOREGROUND in s.objs[owner].finalizers
    requires r.uid == s.objs[owner].uid
    ensures !SolidAt(w.mapper, s, r, d.namespace)
  {
  }

  /**
   A foreground deletion left alone finishes: whenever the collector has come to rest on a
   store that shrank from one where the hierarchy below the owner unwinds.
   */
  lemma {:induction false} ForegroundFinishes(w: World, tr: Trail, i: nat, below: set<Key>, rank: Key -> nat, owner: Key)
    requires Quiet(w) && Lawful(w) && Genuine(w, tr) && i < |tr.stores| && AtRest(w, Last(tr))
    requires Unwinds(w, tr.stores[i], below, rank) && owner in below && Watched(w, owner)
    ensures Released(Last(tr), owner)
  {
    assert Shaped(tr);
    hide Genuine, AtRest, Unwinds, WellFormed;
    var last := |tr.events|;
    TrailEvolves(w, tr, last, last);
    QuietShrinks(w, tr, i, last);
    UnwindsStill(w, tr.stores[i], Last(tr), below, rank);
    RestReleases(w, Last(tr), below, rank, owner);
  }

  // ----- Deletions that never finish -----

  /** The owner named is in the set, with the UID named. */
  ghost predicate NamesMember(w: World, s: Store, c: set<Key>, ref: OwnerRef, ns: string) {
    var k := OwnerKey(w.mapper, ref, ns);
    k.Some? && k.value in c && k.value in s.objs && s.objs[k.value].uid == ref.uid
  }

  ghost predicate HeldMember(w: World, s: Store, c: set<Key>, k: Key) {
    && k in s.objs && Watched(w, k) && s.objs[k].deleting && FOREGROUND in s.objs[k].finalizers
    && (exists d :: d in c && d in s.objs && ReferencesUid(s.objs[d].owners, s.objs[k].uid))
    && forall r | r in s.objs[k].owners :: NamesMember(w, s, c, r, k.namespace)
  }

  /**
   A set of objects in foreground deletion that hold each other: each waits for a dependent in the
   set and is owned by nothing outside it.
   */
  ghost predicate HoldEachOther(w: World, s: Store, c: set<Key>) {
    forall k {:trigger HeldMember(w, s, c, k)} | k in c :: HeldMember(w, s, c, k)
  }

  /** The members are as they were. */
  ghost predicate Unmoved(s: Store, t: Store, c: set<Key>) {
    forall k | k in c :: k in s.objs && k in t.objs && t.objs[k] == s.objs[k]
  }

  /** So they have been up to the `n`-th store. */
  ghost predicate UnmovedUpTo(tr: Trail, c: set<Key>, n: nat) {
    Shaped(tr) && n < |tr.stores| && forall q | 0 <= q <= n :: Unmoved(tr.stores[0], tr.stores[q], c)
  }

  lemma {:induction false} UnmovedAt(tr: Trail, c: set<Key>, n: nat, q: nat, k: Key)
    requires UnmovedUpTo(tr, c, n) && q <= n && k in c
    ensures k in tr.stores[0].objs && k in tr.stores[q].objs && tr.stores[q].objs[k] == tr.stores[0].objs[k]
  {
    assert Unmoved(tr.stores[0], tr.stores[q], c);
  }

  /** A member in the set: what it is, and where it is waited on by. */
  lemma {:induction false} MemberWaits(w: World, s: Store, c: set<Key>, k: Key) returns (d: Key)
    requires HoldEachOther(w, s, c) && k in c
    ensures k in s.objs && Watched(w, k) && s.objs[k].deleting && FOREGROUND in s.objs[k].finalizers
    ensures d in c && d in s.objs && ReferencesUid(s.objs[d].owners, s.objs[k].uid)
  {
    assert HeldMember(w, s, c, k);
    d :| d in c && d in s.objs && ReferencesUid(s.objs[d].owners, s.objs[k].uid);
  }

  lemma {:induction false} OwnerIsMember(w: World, s: Store, c: set<Key>, k: Key, ref: OwnerRef) returns (m: Key)
    requires HoldEachOther(w, s, c) && k in c && k in s.objs && ref in s.objs[k].owners
    ensures OwnerKey(w.mapper, ref, k.namespace) == Some(m) && m in c && m in s.objs && s.objs[m].uid == ref.uid
  {
    assert HeldMember(w, s, c, k);
    assert NamesMember(w, s, c, ref, k.namespace);
    m := OwnerKey(w.mapper, ref, k.namespace).value;
  }

  /** A member is not solid as an owner, whenever it is looked up. */
  lemma {:induction false} MembersAreNotSolid(w: World, tr: Trail, c: set<Key>, n: nat, q: nat, k: Key, ref: OwnerRef)
    requires UnmovedUpTo(tr, c, n) && HoldEachOther(w, tr.stores[0], c) && q <= n
    requires k in c && k in tr.stores[0].objs && ref in tr.stores[0].objs[k].owners
    ensures !SolidAt(w.mapper, tr.stores[q], ref, k.namespace)
  {
    assert Shaped(tr);
    hide UnmovedUpTo, HoldEachOther, OwnerKey, ReferencesUid;
    var m := OwnerIsMember(w, tr.stores[0], c, k, ref);
    var d := MemberWaits(w, tr.stores[0], c, m);
    UnmovedAt(tr, c, n, q, m);
  }

  /** A list shows every watched object, so it always shows a member's dependent. */
  lemma {:induction false} DependentIsListed(w: World, tr: Trail, c: set<Key>, n: nat, k: Key, list: ListCall)
    requires UnmovedUpTo(tr, c, n) && HoldEachOther(w, tr.stores[0], c) && k in c && k in tr.stores[0].objs
    requires ListedBefore(w, tr, n, list)
    ensures exists e :: e in list.objs && ReferencesUid(e.obj.owners, tr.stores[0].objs[k].uid)
  {
    assert Shaped(tr) && n <= |tr.events|;
    hide UnmovedUpTo, HoldEachOther, ReferencesUid;
    var s := tr.stores[0];
    var d := MemberWaits(w, s, c, k);
    var d' := MemberWaits(w, s, c, d);
    var j :| 0 <= j < |w.kinds| && w.kinds[j] == KindOf(d);
    var m := list.moments[j];
    UnmovedAt(tr, c, n, m, d);
    assert ListedAt(tr, m, w.kinds[j], Listed(d, s.objs[d]));
    assert Listed(d, s.objs[d]) in list.objs;
  }

  /** What a list shows of an object with a member's UID is the member, in foreground deletion. */
  lemma {:induction false} ListedMemberWaits(w: World, tr: Trail, c: set<Key>, n: nat, m: Key, list: ListCall, e: Listed)
    requires Lawful(w) && Genuine(w, tr) && UnmovedUpTo(tr, c, n) && HoldEachOther(w, tr.stores[0], c) && m in c
    requires ListedBefore(w, tr, n, list) && e in list.objs && m in tr.stores[0].objs && e.obj.uid == tr.stores[0].objs[m].uid
    ensures !Orphans(e.obj)
  {
    hide Genuine, UnmovedUpTo, HoldEachOther, ReferencesUid, Lawful;
    var d := MemberWaits(w, tr.stores[0], c, m);
    var q := ListedSomewhere(w, tr, n, list, e);
    TrailEvolves(w, tr, q, q);
    UnmovedAt(tr, c, n, q, m);
    SameUidSameKey(tr.stores[q], e.key, m);
  }

  lemma {:induction false} ListedSomewhere(w: World, tr: Trail, n: nat, list: ListCall, e: Listed) returns (q: nat)
    requires ListedBefore(w, tr, n, list) && e in list.objs
    ensures q < n && Shaped(tr) && q < |tr.events| && e.key in tr.stores[q].objs && tr.stores[q].objs[e.key] == e.obj
  {
    var j :| 0 <= j < |list.moments| && ListedAt(tr, list.moments[j], w.kinds[j], e);
    q := list.moments[j];
  }

  lemma {:induction false} SameUidSameKey(s: Store, k: Key, l: Key)
    requires WellFormed(s) && k in s.objs && l in s.objs && s.objs[k].uid == s.objs[l].uid
    ensures k == l
  {
  }

  /** No write of the collector's changes a member, as long as none has been changed. */
  lemma {:induction false} WriteSpares(w: World, tr: Trail, c: set<Key>, i: nat)
    requires Lawful(w) && Genuine(w, tr) && i < |tr.events| && tr.events[i].Wrote?
    requires UnmovedUpTo(tr, c, i) && HoldEachOther(w, tr.stores[0], c)
    ensures Unmoved(tr.stores[0], tr.stores[i + 1], c)
  {
    hide Genuine, UnmovedUpTo, HoldEachOther, Justified, Tended, After, Lawful, ReferencesUid;
    var l := tr.events[i].landing;
    GenuineStep(w, tr, i);
    JustifiedIndices(w.mapper, tr, i, l);
    OthersUntouched(tr.stores[i], l, tr.stores[l.read].objs[l.key]);
    if l.key in c {
      var d := MemberWaits(w, tr.stores[0], c, l.key);
      UnmovedAt(tr, c, i, i, l.key);
      StripNeedsSolid(w, tr, c, i);
      StripNeedsOrphan(w, tr, c, i);
      ReleaseNeedsFreedom(w, tr, c, i);
      DeleteIsIdle(tr.stores[i], l, tr.stores[l.read].objs[l.key]);
    }
    forall k | k in c ensures k in tr.stores[0].objs && k in tr.stores[i + 1].objs && tr.stores[i + 1].objs[k] == tr.stores[0].objs[k] {
      UnmovedAt(tr, c, i, i, k);
    }
  }

  lemma {:induction false} OthersUntouched(s: Store, l: Landing, live: Obj)
    requires l.key in s.objs
    ensures forall k | k in s.objs && k != l.key :: k in After(s, l, live).objs && After(s, l, live).objs[k] == s.objs[k]
  {
  }

  /** Deleting what is being deleted already and has finalizers changes nothing. */
  lemma {:induction false} DeleteIsIdle(s: Store, l: Landing, live: Obj)
    requires l.key in s.objs && s.objs[l.key].deleting && |s.objs[l.key].finalizers| > 0
    ensures l.action.DeleteLocked? || l.action.DeleteByUid? ==> After(s, l, live) == s
  {
  }

  /** A member has no solid owner, so it is not stripped for one. */
  lemma {:induction false} StripNeedsSolid(w: World, tr: Trail, c: set<Key>, i: nat)
    requires Genuine(w, tr) && i < |tr.events| && tr.events[i].Wrote?
    requires UnmovedUpTo(tr, c, i) && HoldEachOther(w, tr.stores[0], c) && tr.events[i].landing.key in c
    ensures !tr.events[i].landing.action.StripGone?
  {
    hide Genuine, UnmovedUpTo, HoldEachOther, Tended, After, SolidAt, NotSolid, ReferencesUid;
    var l := tr.events[i].landing;
    GenuineStep(w, tr, i);
    if l.action.StripGone? {
      var live, lookups := tr.stores[l.read].objs[l.key], l.action.lookups;
      UnmovedAt(tr, c, i, l.read, l.key);
      var j :| 0 <= j < |live.owners| && SolidThen(w.mapper, tr, lookups[j], live.owners[j], l.key.namespace);
      MembersAreNotSolid(w, tr, c, i, lookups[j], l.key, live.owners[j]);
    }
  }

  /** No owner of a member is ever listed as orphaning it. */
  lemma {:induction false} StripNeedsOrphan(w: World, tr: Trail, c: set<Key>, i: nat)
    requires Lawful(w) && Genuine(w, tr) && i < |tr.events| && tr.events[i].Wrote?
    requires UnmovedUpTo(tr, c, i) && HoldEachOther(w, tr.stores[0], c) && tr.events[i].landing.key in c
    ensures !tr.events[i].landing.action.StripOrphan?
  {
    hide Genuine, UnmovedUpTo, HoldEachOther, After, Orphans, IsList, Lawful, ReadAt;
    var l := tr.events[i].landing;
    GenuineStep(w, tr, i);
    if l.action.StripOrphan? {
      var owner, list := l.action.owner, l.action.list;
      UnmovedAt(tr, c, i, l.read, l.key);
      var r :| r in tr.stores[0].objs[l.key].owners && r.uid == owner;
      var m := OwnerIsMember(w, tr.stores[0], c, l.key, r);
      var e :| e in list.objs && e.obj.uid == owner && Orphans(e.obj);
      ListedMemberWaits(w, tr, c, i, m, list, e);
    }
  }

  /** A member's dependent is always listed, and it is never listed as orphaning them, so it is not released. */
  lemma {:induction false} ReleaseNeedsFreedom(w: World, tr: Trail, c: set<Key>, i: nat)
    requires Lawful(w) && Genuine(w, tr) && i < |tr.events| && tr.events[i].Wrote?
    requires UnmovedUpTo(tr, c, i) && HoldEachOther(w, tr.stores[0], c) && tr.events[i].landing.key in c
    ensures !tr.events[i].landing.action.Unfinalize?
  {
    hide Genuine, UnmovedUpTo, HoldEachOther, After, Orphans, IsList, Lawful, ReadAt, LetGoSince, ReferencesUid;
    var l := tr.events[i].landing;
    GenuineStep(w, tr, i);
    if l.action.Unfinalize? {
      var list := l.action.list;
      UnmovedAt(tr, c, i, l.read, l.key);
      var uid := tr.stores[0].objs[l.key].uid;
      NotRelieved(tr, i, l.key, uid, l.action.finalizer, list);
      DependentIsListed(w, tr, c, i, l.key, list);
      forall e | e in list.objs && e.obj.uid == uid ensures !Orphans(e.obj) {
        ListedMemberWaits(w, tr, c, i, l.key, list, e);
      }
    }
  }

  /** An owner with listed dependents that is not orphaning them still has something to wait for. */
  lemma {:induction false} NotRelieved(tr: Trail, i: nat, key: Key, uid: nat, f: string, list: ListCall)
    ensures (exists e :: e in list.objs && ReferencesUid(e.obj.owners, uid)) && NothingAwaited(tr, i, key, uid, f, list)
            ==> exists e :: e in list.objs && e.obj.uid == uid && Orphans(e.obj)
  {
    hide LetGoSince, Orphans, ReferencesUid;
  }

  /**
   Objects in foreground deletion that hold each other at the start of a history in which nobody
   else writes are never changed, let alone released, however long it gets.
   */
  lemma {:induction false} HeldForGood(w: World, tr: Trail, c: set<Key>, n: nat)
    requires Quiet(w) && Lawful(w) && Genuine(w, tr) && n < |tr.stores| && HoldEachOther(w, tr.stores[0], c)
    ensures UnmovedUpTo(tr, c, n)
    decreases n
  {
    assert Shaped(tr);
    hide Genuine, UnmovedUpTo, Unmoved, HoldEachOther;
    if n == 0 {
      UnmovedAtFirst(w, tr, c);
    } else {
      HeldForGood(w, tr, c, n - 1);
      if tr.events[n - 1].Wrote? {
        WriteSpares(w, tr, c, n - 1);
      } else {
        QuietStep(w, tr, n - 1);
      }
      UnmovedNext(tr, c, n);
    }
  }

  lemma {:induction false} UnmovedAtFirst(w: World, tr: Trail, c: set<Key>)
    requires Shaped(tr) && HoldEachOther(w, tr.stores[0], c)
    ensures UnmovedUpTo(tr, c, 0)
  {
    forall k | k in c ensures k in tr.stores[0].objs {
      var d := MemberWaits(w, tr.stores[0], c, k);
    }
  }

  lemma {:induction false} QuietStep(w: World, tr: Trail, i: nat)
    requires Quiet(w) && Genuine(w, tr) && i < |tr.events| && !tr.events[i].Wrote?
    ensures tr.stores[i + 1] == tr.stores[i]
  {
    GenuineStep(w, tr, i);
  }

  lemma {:induction false} UnmovedNext(tr: Trail, c: set<Key>, n: nat)
    requires 0 < n < |tr.stores| && UnmovedUpTo(tr, c, n - 1)
    requires tr.stores[n] == tr.stores[n - 1] || Unmoved(tr.stores[0], tr.stores[n], c)
    ensures UnmovedUpTo(tr, c, n)
  {
    hide Unmoved;
    assert Unmoved(tr.stores[0], tr.stores[n - 1], c);
  }

  /** The two owners of each other are such a set. */
  lemma {:induction false} CycleHoldsItself(w: World)
    requires w.mapper == OnlyPods && w.kinds == [("v1", "Pod")]
    ensures var a := Obj(0, 0, [OwnerRef("v1", "Pod", "heir", 1)], true, [FOREGROUND]);
            var b := Obj(1, 1, [OwnerRef("v1", "Pod", "p", 0)], true, [FOREGROUND]);
            HoldEachOther(w, Store(map[POD := a, HEIR := b], 2, 2), {POD, HEIR})
  {
    var a := Obj(0, 0, [OwnerRef("v1", "Pod", "heir", 1)], true, [FOREGROUND]);
    var b := Obj(1, 1, [OwnerRef("v1", "Pod", "p", 0)], true, [FOREGROUND]);
    var s, c := Store(map[POD := a, HEIR := b], 2, 2), {POD, HEIR};
    assert POD != HEIR;
    assert a.owners[0] in a.owners && b.owners[0] in b.owners;
    assert ReferencesUid(b.owners, 0) && ReferencesUid(a.owners, 1);
    assert HeldMember(w, s, c, POD) && HeldMember(w, s, c, HEIR);
  }

  // ----- Why there is no condition on the first store alone -----

  const TOP := Key("v1", "Pod", "ns", "a")
  const MID := Key("v1", "Pod", "ns", "b")
  const LEAF := Key("v1", "Pod", "ns", "c")

  function ToTop(): OwnerRef { OwnerRef("v1", "Pod", "a", 0) }

  function ToMid(): OwnerRef { OwnerRef("v1", "Pod", "b", 1) }

  function Top(): Obj { Obj(0, 0, [], true, [FOREGROUND]) }

  function Leaf(rv: nat, owners: seq<OwnerRef>, deleting: bool): Obj { Obj(2, rv, owners, deleting, ["other"]) }

  /** An owner in foreground deletion, a dependent, and a dependent of both that someone else's finalizer holds. */
  function Tree(): Store {
    Store(map[TOP := Top(), MID := Obj(1, 1, [ToTop()], false, []), LEAF := Leaf(2, [ToTop(), ToMid()], false)], 3, 3)
  }

  /** Collecting the dependent of both first strips it of the owner being deleted, */
  lemma {:induction false} LeafFirst(w: World)
    requires w.mapper == OnlyPods
    ensures Collected(w.mapper, Tree(), LEAF) == AfterOwners(Tree(), LEAF, [ToMid()])
    ensures Collected(w.mapper, AfterOwners(Tree(), LEAF, [ToMid()]), MID) == Without(AfterOwners(Tree(), LEAF, [ToMid()]), MID)
  {
    KeysDiffer();
    var s := Tree();
    var owners := s.objs[LEAF].owners;
    assert owners[0] == ToTop() && owners[1] == ToMid() && ToTop() in owners && ToMid() in owners;
    assert !SolidAt(w.mapper, s, ToTop(), "ns") && SolidAt(w.mapper, s, ToMid(), "ns");
    var drop := set r | r in owners && !SolidAt(w.mapper, s, r, "ns") :: r.uid;
    assert drop == {0};
    assert owners[..1] == [ToTop()] && [ToTop()][..0] == [];
    assert Keep([ToTop()], drop) == [] && Keep(owners, drop) == [ToMid()];
    var t := AfterOwners(s, LEAF, [ToMid()]);
    assert t.objs[MID].owners == [ToTop()] && [ToTop()][0] in [ToTop()];
    assert !SolidAt(w.mapper, t, ToTop(), "ns");
  }

  /** and collecting the other dependent first leaves it nothing but gone owners, so that it is deleted. */
  lemma {:induction false} MidFirst(w: World)
    requires w.mapper == OnlyPods
    ensures Collected(w.mapper, Tree(), MID) == Without(Tree(), MID)
    ensures Collected(w.mapper, Without(Tree(), MID), LEAF) == AfterDelete(Without(Tree(), MID), LEAF)
  {
    KeysDiffer();
    var s := Tree();
    assert s.objs[MID].owners == [ToTop()] && [ToTop()][0] in [ToTop()];
    assert !SolidAt(w.mapper, s, ToTop(), "ns");
    var t := Without(s, MID);
    var owners := t.objs[LEAF].owners;
    assert owners[0] == ToTop() && owners[1] == ToMid() && ToTop() in owners && ToMid() in owners;
    assert !SolidAt(w.mapper, t, ToTop(), "ns") && !SolidAt(w.mapper, t, ToMid(), "ns");
  }

  lemma {:induction false} KeysDiffer()
    ensures TOP != MID && TOP != LEAF && MID != LEAF
  {
    assert "a"[0] != "b"[0] && "a"[0] != "c"[0] && "b"[0] != "c"[0];
  }

  /**
   The order in which a list shows two dependents decides whether the owner's deletion finishes:
   after one order it has no dependent left to wait for, after the other it is at rest and waits.
   */
  lemma {:induction false} ListOrderDecides(w: World)
    requires w.mapper == OnlyPods && w.kinds == [("v1", "Pod")]
    ensures var u := Collected(w.mapper, Collected(w.mapper, Tree(), LEAF), MID);
            TOP in u.objs && forall d :: !Dependent(w, u, d, u.objs[TOP].uid)
    ensures var v := Collected(w.mapper, Collected(w.mapper, Tree(), MID), LEAF);
            AtRest(w, v) && !Released(v, TOP)
  {
    KeysDiffer();
    LeafFirst(w);
    MidFirst(w);
    LeafFirstFrees(w);
    MidFirstWaits(w);
  }

  lemma {:induction false} LeafFirstFrees(w: World)
    ensures var u := Without(AfterOwners(Tree(), LEAF, [ToMid()]), MID);
            TOP in u.objs && forall d :: !Dependent(w, u, d, u.objs[TOP].uid)
  {
    KeysDiffer();
  }

  lemma {:induction false} MidFirstWaits(w: World)
    requires w.mapper == OnlyPods && w.kinds == [("v1", "Pod")]
    ensures var v := AfterDelete(Without(Tree(), MID), LEAF); AtRest(w, v) && !Released(v, TOP)
  {
    KeysDiffer();
    var v := AfterDelete(Without(Tree(), MID), LEAF);
    var leaf := v.objs[LEAF];
    assert v.objs == map[TOP := Top(), LEAF := leaf];
    assert leaf.owners == [ToTop(), ToMid()] && leaf.deleting && leaf.finalizers == ["other"];
    assert leaf.owners[0] in leaf.owners;
    assert "other"[0] == 'o' && FOREGROUND[0] == 'f' && ORPHAN[1] != "other"[1];
    assert !SolidAt(w.mapper, v, ToTop(), "ns") && !SolidAt(w.mapper, v, ToMid(), "ns");
    assert !Collectable(w.mapper, v, LEAF);
    assert Dependent(w, v, LEAF, 0) && WaitingForDependents(w, v, 0);
  }
}
