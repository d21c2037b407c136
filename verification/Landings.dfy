/**
 What a garbage collector that acts from stale reads may do to a store while others write: its
 writes and their effects, how much work a store holds, and which dependents it must leave
 alone. All of it is about stores, not about the collector's code.
 */
module Landings {
  import opened Wrappers
  import opened Cluster

  // ----- The other writers -----

  /**
   Everything the collector does not decide: what the others do to the store before each of
   its calls, which calls fail for reasons of their own, how kinds map, and which are watched
   (by API version and kind).
   */
  datatype World = World(env: (nat, Store) -> Store, fails: nat -> bool, mapper: Mapper, kinds: seq<(string, string)>)

  ghost predicate Lawful(w: World) {
    forall t, s :: WellFormed(s) ==> Evolves(s, w.env(t, s))
  }

  predicate Watched(w: World, key: Key) {
    (key.apiVersion, key.kind) in w.kinds
  }

  /** Nobody else writes and no call fails. */
  ghost predicate Quiet(w: World) {
    (forall t, s :: w.env(t, s) == s) && forall t :: !w.fails(t)
  }

  // ----- Writes that land -----

  /** The owner references whose UID is not in `drop`. */
  function Keep(refs: seq<OwnerRef>, drop: set<nat>): (kept: seq<OwnerRef>)
    ensures forall r :: r in kept <==> r in refs && r.uid !in drop
    ensures |kept| <= |refs|
    ensures (exists r :: r in refs && r.uid in drop) ==> |kept| < |refs|
  {
    if |refs| == 0 then []
    else
      var rest := Keep(refs[..|refs| - 1], drop);
      var last := refs[|refs| - 1];
      if last.uid in drop then rest else rest + [last]
  }

  lemma {:induction false} KeepNext(refs: seq<OwnerRef>, r: OwnerRef, drop: set<nat>)
    ensures Keep(refs + [r], drop) == Keep(refs, drop) + if r.uid in drop then [] else [r]
  {
    assert (refs + [r])[..|refs|] == refs;
  }

  /** Dropping leaves the order of the rest as it is. */
  lemma {:induction false} KeepInOrder(a: seq<OwnerRef>, b: seq<OwnerRef>, drop: set<nat>)
    ensures Keep(a + b, drop) == Keep(a, drop) + Keep(b, drop)
    decreases b
  {
    if |b| == 0 {
      assert a + b == a;
    } else {
      hide Keep;
      var init, last := b[..|b| - 1], b[|b| - 1];
      assert b == init + [last] && a + b == (a + init) + [last];
      KeepInOrder(a, init, drop);
      KeepNext(init, last, drop);
      KeepNext(a + init, last, drop);
    }
  }

  /** The finalizers other than `f`. */
  function KeepFinalizers(fs: seq<string>, f: string): (kept: seq<string>)
    ensures forall x :: x in kept <==> x in fs && x != f
    ensures f in fs ==> |kept| < |fs|
    ensures |kept| <= |fs|
  {
    if |fs| == 0 then []
    else
      var rest := KeepFinalizers(fs[..|fs| - 1], f);
      if fs[|fs| - 1] == f then rest else rest + [fs[|fs| - 1]]
  }

  datatype Listed = Listed(key: Key, obj: Obj)

  /** A list of the watched objects, and at which positions of the collector's history its calls were. */
  datatype ListCall = ListCall(moments: seq<nat>, objs: seq<Listed>)

  /** What a write asks for. Numbers that are not UIDs are positions in the collector's history. */
  datatype Action =
    | DeleteLocked(lookups: seq<nat>)              // under the UID and the version of the live read
    | DeleteByUid(lookups: seq<nat>, again: nat)   // the retry, after the confirming read at `again`
    | StripGone(lookups: seq<nat>, drop: set<nat>) // of an object kept because some owner is solid
    | StripOrphan(owner: nat, list: ListCall)      // on behalf of an owner listed as deleted without its dependents
    | Unfinalize(finalizer: string, list: ListCall) // of an owner listed as having nothing left to wait for

  /** A write of the collector's that took effect, resting on the live read at position `read`. */
  datatype Landing = Landing(key: Key, read: nat, action: Action)

  function Dropped(action: Action): set<nat> {
    match action
    case StripGone(_, drop) => drop
    case StripOrphan(owner, _) => {owner}
    case _ => {}
  }

  /** What the write leaves of `s`, given the object it was computed from. */
  function After(s: Store, l: Landing, live: Obj): Store
    requires l.key in s.objs
  {
    match l.action
    case DeleteLocked(_) => AfterDelete(s, l.key)
    case DeleteByUid(_, _) => AfterDelete(s, l.key)
    case Unfinalize(f, _) => AfterFinalizers(s, l.key, KeepFinalizers(live.finalizers, f))
    case _ => AfterOwners(s, l.key, Keep(live.owners, Dropped(l.action)))
  }

  ghost predicate AllOwnersGone(mapper: Mapper, s: Store, owners: seq<OwnerRef>, ns: string) {
    forall r | r in owners :: OwnerGone(mapper, s, r, ns)
  }

  /** Any incarnation left with this UID is being deleted. */
  ghost predicate UidGone(s: Store, uid: nat) {
    forall k | k in s.objs && s.objs[k].uid == uid :: s.objs[k].deleting
  }

  // ----- Work left -----

  function WeightOf(o: Obj): nat {
    1 + (if o.deleting then 0 else 1) + |o.owners| + |o.finalizers|
  }

  /** Objects, deletions not begun, owner references and finalizers, all together. */
  ghost function Weight(objs: map<Key, Obj>): nat
    decreases |objs|
  {
    if |objs| == 0 then 0
    else
      var k := AnyOf(objs.Keys);
      WeightOf(objs[k]) + Weight(objs - {k})
  }

  lemma {:induction false} WeightSplit(objs: map<Key, Obj>, k: Key)
    requires k in objs
    ensures Weight(objs) == WeightOf(objs[k]) + Weight(objs - {k})
    decreases |objs|
  {
    var j := AnyOf(objs.Keys);
    if j != k {
      WeightSplit(objs - {j}, k);
      WeightSplit(objs - {k}, j);
      assert objs - {j} - {k} == objs - {k} - {j};
    }
  }

  /** Changed at all means less work left. */
  ghost predicate Progress(s: Store, t: Store) {
    t == s || Weight(t.objs) < Weight(s.objs)
  }

  /** Work once done is not undone: two steps leave everything as it was only if each does. */
  lemma {:induction false} ProgressAdds(s: Store, t: Store, u: Store)
    ensures Progress(s, s)
    ensures Progress(s, t) && Progress(t, u) ==> Progress(s, u) && (u == s ==> t == s)
  {
  }

  lemma {:induction false} WithoutIsProgress(s: Store, k: Key)
    requires k in s.objs
    ensures Progress(s, Without(s, k)) && Without(s, k) != s
  {
    WeightSplit(s.objs, k);
  }

  lemma {:induction false} WithIsProgress(s: Store, k: Key, o: Obj)
    requires k in s.objs && WeightOf(o) < WeightOf(s.objs[k])
    ensures Progress(s, With(s, k, o)) && With(s, k, o) != s
  {
    var t := With(s, k, o);
    WeightSplit(s.objs, k);
    WeightSplit(t.objs, k);
    assert t.objs - {k} == s.objs - {k};
  }

  // ----- A dependent that must survive -----

  /** One dependent and one owner, incarnations included. */
  datatype Focus = Focus(dep: Key, depUid: nat, owner: Key, ownerUid: nat)

  /** The owner is being deleted without its dependents. */
  ghost predicate Orphaning(f: Focus, s: Store) {
    && f.owner in s.objs && s.objs[f.owner].uid == f.ownerUid && s.objs[f.owner].deleting
    && ORPHAN in s.objs[f.owner].finalizers && FOREGROUND !in s.objs[f.owner].finalizers
  }

  ghost predicate DepAlive(f: Focus, s: Store) {
    f.dep in s.objs && s.objs[f.dep].uid == f.depUid && !s.objs[f.dep].deleting
  }

  ghost predicate Freed(f: Focus, s: Store) {
    f.dep in s.objs && |s.objs[f.dep].owners| == 0
  }

  ghost predicate OwnedOnlyBy(mapper: Mapper, f: Focus, owners: seq<OwnerRef>) {
    forall r | r in owners :: r.uid == f.ownerUid && OwnerKey(mapper, r, f.dep.namespace) == Some(f.owner)
  }

  /** The dependent is alive, and either free or owned by nothing but an owner that is orphaning it. */
  ghost predicate Protected(mapper: Mapper, f: Focus, s: Store) {
    DepAlive(f, s) && (Freed(f, s) || (OwnedOnlyBy(mapper, f, s.objs[f.dep].owners) && Orphaning(f, s)))
  }

  /** The dependent's kind is watched, and the other writers leave it and its release alone. */
  ghost predicate Respects(w: World, f: Focus) {
    Watched(w, f.dep) && forall t, s :: WellFormed(s) && Protected(w.mapper, f, s) ==>
      Protected(w.mapper, f, w.env(t, s)) && (Freed(f, s) ==> Freed(f, w.env(t, s)))
  }

  // ----- One or more calls of the collector, whatever happened in between -----

  ghost predicate Advance(w: World, f: Focus, s: Store, t: Store) {
    AdvanceIf(true, w, f, s, t)
  }

  /** An advance that has to spare the dependent only if `guard` says it was protected all along. */
  ghost predicate AdvanceIf(guard: bool, w: World, f: Focus, s: Store, t: Store) {
    && Evolves(s, t)
    && (Quiet(w) ==> Progress(s, t))
    && (guard && Respects(w, f) && Protected(w.mapper, f, s) ==>
          Protected(w.mapper, f, t) && (Freed(f, s) ==> Freed(f, t)))
  }

  lemma {:induction false} AdvanceStill(w: World, f: Focus, s: Store)
    requires WellFormed(s)
    ensures Advance(w, f, s, s)
  {
    EvolvesStill(s);
  }

  lemma {:induction false} AdvanceTransitive(w: World, f: Focus, s: Store, t: Store, u: Store)
    requires WellFormed(s) && Advance(w, f, s, t) && AdvanceIf(Protected(w.mapper, f, s), w, f, t, u)
    ensures Advance(w, f, s, u)
  {
    EvolvesTransitive(s, t, u);
  }

  lemma {:induction false} AdvanceWeaker(guard: bool, w: World, f: Focus, s: Store, t: Store)
    requires Advance(w, f, s, t)
    ensures AdvanceIf(guard, w, f, s, t)
  {
  }

  lemma {:induction false} EnvAdvances(w: World, f: Focus, tick: nat, s: Store)
    requires Lawful(w) && WellFormed(s)
    ensures Advance(w, f, s, w.env(tick, s))
  {
  }

  /** The server's answer to a delete is an advance unless it hits the protected dependent. */
  lemma {:induction false} DeleteAdvances(guard: bool, w: World, f: Focus, s: Store, k: Key)
    requires WellFormed(s) && k in s.objs
    requires guard && Respects(w, f) && Protected(w.mapper, f, s) ==> k != f.dep
    ensures AdvanceIf(guard, w, f, s, AfterDelete(s, k))
    ensures AfterDelete(s, k) != s <==> !s.objs[k].deleting || |s.objs[k].finalizers| == 0
  {
    hide WellFormed, Evolves, Protected, Freed, Respects;
    DeleteEvolves(s, k);
    if Protected(w.mapper, f, s) && k != f.dep {
      DeleteSpares(w.mapper, f, s, k);
    }
  }

  lemma {:induction false} DeleteEvolves(s: Store, k: Key)
    requires WellFormed(s) && k in s.objs
    ensures Evolves(s, AfterDelete(s, k)) && Progress(s, AfterDelete(s, k))
    ensures AfterDelete(s, k) != s <==> !s.objs[k].deleting || |s.objs[k].finalizers| == 0
  {
    hide Evolves;
    var o := s.objs[k];
    assert ObjOk(s, o);
    if |o.finalizers| == 0 {
      WithoutEvolves(s, k);
      WithoutIsProgress(s, k);
    } else if o.deleting {
      EvolvesStill(s);
    } else {
      WithEvolves(s, k, o.(deleting := true));
      WithIsProgress(s, k, o.(deleting := true));
    }
  }

  lemma {:induction false} DeleteSpares(mapper: Mapper, f: Focus, s: Store, k: Key)
    requires k in s.objs && k != f.dep && Protected(mapper, f, s)
    ensures Protected(mapper, f, AfterDelete(s, k)) && (Freed(f, s) ==> Freed(f, AfterDelete(s, k)))
  {
  }

  /** Dropping owner references is an advance. */
  lemma {:induction false} StripAdvances(w: World, f: Focus, s: Store, k: Key, drop: set<nat>)
    requires WellFormed(s) && k in s.objs
    requires exists r :: r in s.objs[k].owners && r.uid in drop
    ensures var t := AfterOwners(s, k, Keep(s.objs[k].owners, drop)); Advance(w, f, s, t) && t != s
  {
    var o := s.objs[k].(owners := Keep(s.objs[k].owners, drop));
    assert ObjOk(s, s.objs[k]);
    WithEvolves(s, k, o);
    WithIsProgress(s, k, o);
  }

  /** Taking a finalizer off is an advance, but for the one that keeps an orphaning owner waiting. */
  lemma {:induction false} UnfinalizeAdvances(guard: bool, w: World, f: Focus, s: Store, k: Key, finalizer: string)
    requires WellFormed(s) && k in s.objs && finalizer in s.objs[k].finalizers
    requires guard && Respects(w, f) && Protected(w.mapper, f, s) && k == f.owner && finalizer == ORPHAN ==> Freed(f, s)
    ensures var t := AfterFinalizers(s, k, KeepFinalizers(s.objs[k].finalizers, finalizer)); AdvanceIf(guard, w, f, s, t) && t != s
  {
    hide WellFormed, Evolves, Protected, Freed, Respects;
    UnfinalizeEvolves(s, k, finalizer);
    if guard && Respects(w, f) && Protected(w.mapper, f, s) {
      UnfinalizeSpares(w.mapper, f, s, k, finalizer);
    }
  }

  lemma {:induction false} UnfinalizeEvolves(s: Store, k: Key, finalizer: string)
    requires WellFormed(s) && k in s.objs && finalizer in s.objs[k].finalizers
    ensures var t := AfterFinalizers(s, k, KeepFinalizers(s.objs[k].finalizers, finalizer));
            Evolves(s, t) && Progress(s, t) && t != s
  {
    hide Evolves;
    var fs := KeepFinalizers(s.objs[k].finalizers, finalizer);
    var o := s.objs[k].(finalizers := fs);
    assert ObjOk(s, s.objs[k]);
    if s.objs[k].deleting && |fs| == 0 {
      WithoutEvolves(s, k);
      WithoutIsProgress(s, k);
    } else {
      WithEvolves(s, k, o);
      WithIsProgress(s, k, o);
    }
  }

  lemma {:induction false} UnfinalizeSpares(mapper: Mapper, f: Focus, s: Store, k: Key, finalizer: string)
    requires k in s.objs && Protected(mapper, f, s) && (k == f.owner && finalizer == ORPHAN ==> Freed(f, s))
    ensures var t := AfterFinalizers(s, k, KeepFinalizers(s.objs[k].finalizers, finalizer));
            Protected(mapper, f, t) && (Freed(f, s) ==> Freed(f, t))
  {
  }
}
