/**
 The garbage collector (ctrltest/gc.go), acting on a list that may be arbitrarily stale while
 others write between any two of its calls. Its history records every store it met and every
 write of its own, so that nothing happens to the store but what the others do and what a
 justified write does. Besides, every method says what it does when nobody else writes, and
 that a dependent being orphaned survives it.
 */
module GarbageCollector {
  import opened Wrappers
  import opened Cluster
  import opened Landings
  import opened Judgement
  import opened History
  import opened Foreground

  datatype Read = Found(obj: Obj) | NotFound | Failed

  datatype Answer = Done | Gone | Conflict | Error

  class Collector {
    const world: World
    ghost const focus: Focus

    var store: Store
    var tick: nat
    ghost var trail: Trail

    constructor (world: World, store: Store, ghost focus: Focus)
      requires Lawful(world) && WellFormed(store)
      ensures Ok() && this.world == world && this.store == store && this.focus == focus
      ensures trail == Trail([store], [])
    {
      this.world, this.store, this.focus := world, store, focus;
      tick, trail := 0, Trail([store], []);
    }

    /** The store is what a genuine history left. */
    ghost predicate Ok()
      reads this
    {
      Lawful(world) && Genuine(world, trail) && Last(trail) == store && WellFormed(store)
    }

    /** The history has only grown since `past`, and the store has advanced. */
    ghost predicate Since(past: Trail)
      reads this
    {
      Ok() && Extends(past, trail) && WellFormed(Last(past)) && Advance(world, focus, Last(past), store)
    }

    /** From `start` to `mid` and from `mid` on. */
    lemma {:induction false} Onward(start: Trail, mid: Trail)
      requires Extends(start, mid) && WellFormed(Last(start)) && Advance(world, focus, Last(start), Last(mid))
      requires Since(mid)
      ensures Since(start)
    {
      hide WellFormed, Evolves, Protected, Respects;
      ExtendsTransitive(start, mid, trail);
      AdvanceWeaker(Protected(world.mapper, focus, Last(start)), world, focus, Last(mid), store);
      AdvanceTransitive(world, focus, Last(start), Last(mid), store);
    }

    lemma {:induction false} SinceNow()
      requires Ok()
      ensures Since(trail) && NewWrites(trail, trail) == []
    {
      NoNewWrites(trail);
      AdvanceStill(world, focus, store);
    }

    lemma {:induction false} Evolved(past: Trail)
      requires Ok() && Extends(past, trail)
      ensures WellFormed(Last(past)) && Evolves(Last(past), store)
    {
      TrailEvolves(world, trail, |past.events|, |trail.events|);
    }

    /** An object found at the version at which it was read is the one that was read. */
    lemma {:induction false} Untouched(read: nat, key: Key, live: Obj)
      requires Ok() && ReadAt(trail, read, key, live) && key in store.objs && store.objs[key].rv == live.rv
      ensures store.objs[key] == live
    {
      TrailEvolves(world, trail, read, |trail.events|);
      UidsHandedOut(trail.stores[read], key);
      SameVersionSameObject(trail.stores[read], store, key);
    }

    /** The others write. */
    method Interleave()
      requires Ok()
      modifies this`store, this`tick, this`trail
      ensures Since(old(trail)) && NewWrites(old(trail), trail) == []
      ensures store == world.env(old(tick), old(store)) && tick == old(tick) + 1
      ensures Quiet(world) ==> store == old(store)
    {
      hide Genuine;
      EnvAdvances(world, focus, tick, store);
      var next := world.env(tick, store);
      GenuineThen(world, trail, Others(tick), next);
      NewWritesThen(trail, Others(tick), next);
      trail := Then(trail, Others(tick), next);
      store := next;
      tick := tick + 1;
    }

    /** A call that only reads. */
    ghost method Note(e: Event)
      requires Ok() && (e.Saw? || e.SawKind?)
      modifies this`trail
      ensures Ok() && trail == Then(old(trail), e, store) && Extends(old(trail), trail) && NewWrites(old(trail), trail) == []
    {
      hide Genuine;
      GenuineThen(world, trail, e, store);
      NewWritesThen(trail, e, store);
      trail := Then(trail, e, store);
    }

    /** Reads an object live. */
    method Get(key: Key) returns (r: Read)
      requires Ok()
      modifies this`store, this`tick, this`trail
      ensures Since(old(trail)) && NewWrites(old(trail), trail) == []
      ensures store == world.env(old(tick), old(store)) && tick == old(tick) + 1 && (r.Failed? <==> world.fails(tick))
      ensures r.Found? ==> key in store.objs && store.objs[key] == r.obj
      ensures r.NotFound? ==> key !in store.objs
      ensures !r.Failed? ==> |old(trail).events| < |trail.events| && trail.events[|trail.events| - 1] == Saw(key)
                             && trail.stores[|trail.events| - 1] == store
      ensures r.Found? ==> ReadAt(trail, |trail.events| - 1, key, r.obj)
      ensures Quiet(world) ==> store == old(store) && !r.Failed?
    {
      hide Evolves, WellFormed, Genuine, NewWrites, Respects, Protected;
      ghost var start := trail;
      Interleave();
      if world.fails(tick) {
        return Failed;
      }
      ghost var mid := trail;
      Note(Saw(key));
      NewWritesJoin(start, mid, trail);
      if key !in store.objs {
        r := NotFound;
      } else {
        r := Found(store.objs[key]);
      }
    }

    /** Carries out a justified write. */
    method Land(ghost l: Landing, next: Store, ghost start: Trail)
      requires Since(start) && Justified(world.mapper, trail, |trail.events|, l) && Tended(world, trail, |trail.events|, l)
      requires next == After(store, l, trail.stores[l.read].objs[l.key])
      requires AdvanceIf(Protected(world.mapper, focus, Last(start)), world, focus, store, next)
      modifies this`store, this`trail
      ensures Since(start) && Extends(old(trail), trail) && NewWrites(old(trail), trail) == [l] && store == next
      ensures |trail.stores| == |old(trail).stores| + 1 && trail.events == old(trail).events + [Wrote(l)]
    {
      hide Genuine, Justified, Tended;
      ghost var before := trail;
      AdvanceTransitive(world, focus, Last(start), store, next);
      GenuineThen(world, trail, Wrote(l), next);
      NewWritesThen(trail, Wrote(l), next);
      ExtendsTransitive(start, trail, Then(trail, Wrote(l), next));
      trail := Then(trail, Wrote(l), next);
      store := next;
    }

    /** Whether an operation begun at `start` need not spare the object at `key`: only the protected dependent, until it is free. */
    ghost predicate Spares(start: Trail, key: Key)
      requires Shaped(start)
      reads this
    {
      Respects(world, focus) && Protected(world.mapper, focus, Last(start)) && key == focus.dep ==> Freed(focus, store)
    }

    /** Deletes under the UID and version of a live read, all of whose owners were found gone since. */
    method DeleteLocked(key: Key, live: Obj, ghost read: nat, ghost lookups: seq<nat>, ghost start: Trail) returns (answer: Answer)
      requires Since(start) && Condemned(world.mapper, trail, read, key, live, lookups) && Spares(start, key)
      modifies this`store, this`tick, this`trail
      ensures Since(start) && Extends(old(trail), trail)
      ensures NewWrites(old(trail), trail) == if answer.Done? then [Landing(key, read, Action.DeleteLocked(lookups))] else []
      ensures Condemned(world.mapper, trail, read, key, live, lookups) && Spares(start, key)
      ensures tick == old(tick) + 1
      ensures var met := world.env(old(tick), old(store));
              && answer == (if world.fails(tick) then Error else if key !in met.objs then Answer.Gone
                            else if met.objs[key].uid != live.uid || met.objs[key].rv != live.rv then Conflict else Done)
              && store == if answer.Done? then AfterDelete(met, key) else met
      ensures Quiet(world) && trail.stores[read] == old(store) ==>
        answer.Done? && store == AfterDelete(trail.stores[read], key)
    {
      hide Evolves, WellFormed, Protected, Respects, Progress, AfterDelete, Genuine, NewWrites, Judged, SomeSolid;
      ghost var mid := trail;
      Interleave();
      Onward(start, mid);
      CondemnedExtends(world.mapper, mid, trail, read, key, live, lookups);
      if world.fails(tick) {
        return Error;
      }
      if key !in store.objs {
        return Answer.Gone;
      }
      if store.objs[key].uid != live.uid || store.objs[key].rv != live.rv {
        return Conflict;
      }
      Untouched(read, key, live);
      DeleteAdvances(Protected(world.mapper, focus, Last(start)), world, focus, store, key);
      ghost var before := trail;
      Land(Landing(key, read, Action.DeleteLocked(lookups)), AfterDelete(store, key), start);
      NewWritesJoin(mid, before, trail);
      CondemnedExtends(world.mapper, before, trail, read, key, live, lookups);
      answer := Done;
    }

    /** Whether an operation begun at `start` may well delete the object at `key`: it is not the protected dependent. */
    ghost predicate Fair(start: Trail, key: Key)
      requires Shaped(start)
      reads this
    {
      Respects(world, focus) && Protected(world.mapper, focus, Last(start)) ==> key != focus.dep
    }

    /** Deletes under the UID alone what the last event, a confirming read, met as it was judged. */
    method DeleteConfirmed(key: Key, live: Obj, ghost obj: Obj, ghost read: nat, ghost lookups: seq<nat>, ghost judged: Trail, ghost start: Trail)
      requires Since(start) && Condemned(world.mapper, judged, read, key, live, lookups) && Extends(judged, trail)
      requires |judged.events| < |trail.events| && ReadAt(trail, |trail.events| - 1, key, obj) && Fair(start, key)
      requires obj.uid == live.uid && obj.rv != live.rv && obj.owners == live.owners
      modifies this`store, this`tick, this`trail
      ensures Since(start) && Extends(old(trail), trail)
      ensures |NewWrites(old(trail), trail)| <= 1
      ensures forall l | l in NewWrites(old(trail), trail) :: IsCollecting(l, key)
      ensures tick == old(tick) + 1
      ensures var met := world.env(old(tick), old(store));
              store == if world.fails(tick) || key !in met.objs || met.objs[key].uid != live.uid then met else AfterDelete(met, key)
    {
      hide Evolves, WellFormed, Protected, Respects, AfterDelete, Genuine, NewWrites, Condemned, Justified, ReadAt;
      ghost var confirmed := trail;
      Interleave();
      Onward(start, confirmed);
      if world.fails(tick) || key !in store.objs || store.objs[key].uid != live.uid {
        return;
      }
      RetryIsJustified(world.mapper, judged, confirmed, trail, read, key, live, lookups, obj);
      DeleteAdvances(Protected(world.mapper, focus, Last(start)), world, focus, store, key);
      ghost var before := trail;
      Land(Landing(key, read, DeleteByUid(lookups, |confirmed.events| - 1)), AfterDelete(store, key), start);
      NewWritesJoin(confirmed, before, trail);
    }

    /**
     Deletes an object judged to have no owner left. After a version conflict it reads once
     more, and if only the version changed, deletes under the UID alone: it does not give up on
     an object that is merely written to often.
     */
    method DeleteLive(key: Key, live: Obj, ghost read: nat, ghost lookups: seq<nat>, ghost start: Trail)
      requires Since(start) && Condemned(world.mapper, trail, read, key, live, lookups) && Spares(start, key)
      modifies this`store, this`tick, this`trail
      ensures Since(start) && Extends(old(trail), trail)
      ensures |NewWrites(old(trail), trail)| <= 1
      ensures forall l | l in NewWrites(old(trail), trail) :: IsCollecting(l, key)
      ensures var first := world.env(old(tick), old(store));
              !world.fails(old(tick) + 1) && key in first.objs && first.objs[key].uid == live.uid ==>
                if first.objs[key].rv == live.rv then store == AfterDelete(first, key)
                else
                  var second := world.env(old(tick) + 1, first);
                  var third := world.env(old(tick) + 2, second);
                  && !world.fails(old(tick) + 2) && key in second.objs
                  && second.objs[key].uid == live.uid && second.objs[key].rv != live.rv && second.objs[key].owners == live.owners
                  && !world.fails(old(tick) + 3) && key in third.objs && third.objs[key].uid == live.uid
                  ==> store == AfterDelete(third, key)
      ensures Quiet(world) && old(trail).stores[read] == old(store) ==> store == AfterDelete(old(store), key)
    {
      hide Evolves, WellFormed, Protected, Respects, AfterDelete, Genuine, NewWrites, Judged, SomeSolid, Justified, Progress;
      ghost var begun := trail;
      var answer := DeleteLocked(key, live, read, lookups, start);
      if !answer.Conflict? {
        return;
      }
      ghost var judged := trail;
      var again := Get(key);
      Onward(start, judged);
      NewWritesJoin(begun, judged, trail);
      if !again.Found? || again.obj.uid != live.uid || again.obj.rv == live.rv || again.obj.owners != live.owners {
        return;
      }
      ghost var confirmed := trail;
      DeleteConfirmed(key, live, again.obj, read, lookups, judged, start);
      NewWritesJoin(begun, confirmed, trail);
    }

    /** Patches the owner references that remain, under the version of the live read. */
    method StripOwnerRefs(key: Key, live: Obj, drop: set<nat>, ghost action: Action, ghost read: nat) returns (answer: Answer)
      requires Ok() && StripAllowed(world.mapper, trail, read, key, live, action) && drop == Dropped(action)
      requires Tended(world, trail, |trail.events|, Landing(key, read, action))
      modifies this`store, this`tick, this`trail
      ensures Since(old(trail))
      ensures NewWrites(old(trail), trail) == if answer.Done? then [Landing(key, read, action)] else []
      ensures answer.Done? ==> key in store.objs && store.objs[key].owners == Keep(live.owners, drop)
      ensures answer.Gone? ==> key !in store.objs
      ensures tick == old(tick) + 1
      ensures var met := world.env(old(tick), old(store));
              && answer == (if world.fails(tick) then Error else if key !in met.objs then Answer.Gone
                            else if met.objs[key].rv != live.rv then Conflict else Done)
              && store == if answer.Done? then AfterOwners(met, key, Keep(live.owners, drop)) else met
      ensures Quiet(world) && old(trail).stores[read] == old(store) ==>
        answer.Done? && store == AfterOwners(old(store), key, Keep(live.owners, drop)) && store != old(store)
    {
      hide Evolves, WellFormed, Protected, Respects, Genuine, NewWrites, Judged, SomeSolid, NotSolid, Tended;
      ghost var begun := trail;
      Interleave();
      StripStaysAllowed(world.mapper, begun, trail, read, key, live, action);
      TendedExtends(world, begun, trail, |begun.events|, |trail.events|, Landing(key, read, action));
      if world.fails(tick) {
        return Error;
      }
      if key !in store.objs {
        return Answer.Gone;
      }
      if store.objs[key].rv != live.rv {
        return Conflict;
      }
      Untouched(read, key, live);
      StripDrops(world.mapper, trail, read, key, live, action);
      StripAdvances(world, focus, store, key, drop);
      AdvanceWeaker(Protected(world.mapper, focus, Last(begun)), world, focus, store, AfterOwners(store, key, Keep(live.owners, drop)));
      ghost var before := trail;
      Land(Landing(key, read, action), AfterOwners(store, key, Keep(live.owners, drop)), begun);
      NewWritesJoin(begun, before, trail);
      answer := Done;
    }

    /** Taking this finalizer off does not release an owner that the protected dependent still names. */
    ghost predicate Releasable(start: Trail, key: Key, uid: nat, finalizer: string)
      requires Shaped(start)
      reads this
    {
      (Respects(world, focus) && Protected(world.mapper, focus, Last(start))
       && key == focus.owner && uid == focus.ownerUid && finalizer == ORPHAN) ==> Freed(focus, store)
    }

    /**
     Takes a finalizer off the incarnation `uid` of an owner, trying again on a conflict from
     a fresh read, five times in all. It leaves it on only if a call failed or all ten were used up.
     */
    method RemoveFinalizer(key: Key, uid: nat, finalizer: string, ghost list: ListCall, ghost start: Trail)
      requires Since(start) && Releasable(start, key, uid, finalizer)
      requires ListedBefore(world, trail, |trail.events|, list)
      requires NothingAwaited(trail, |trail.events|, key, uid, finalizer, list)
      modifies this`store, this`tick, this`trail
      ensures Since(start) && Extends(old(trail), trail) && StaysFree(world, focus, Last(start), old(store), store)
      ensures |NewWrites(old(trail), trail)| <= 1
      ensures forall l | l in NewWrites(old(trail), trail) :: IsRelease(trail, l, key, uid, finalizer)
      ensures HasFinalizer(store, key, uid, finalizer) ==> world.fails(tick) || tick == old(tick) + 10
      ensures Quiet(world) ==> Progress(old(store), store)
      ensures Quiet(world) ==> store == Unfinalized(old(store), key, uid, finalizer)
    {
      hide Evolves, WellFormed, Protected, Respects, Genuine, NewWrites, ListedBefore, NothingAwaited;
      ghost var begun := trail;
      NoNewWrites(begun);
      for attempt := 0 to 5
        invariant Since(start) && Extends(begun, trail) && StaysFree(world, focus, Last(start), Last(begun), store)
        invariant NewWrites(begun, trail) == []
        invariant Quiet(world) ==> store == Last(begun)
        invariant tick == old(tick) + 2 * attempt
        invariant Quiet(world) && HasFinalizer(Last(begun), key, uid, finalizer) ==> attempt == 0
        invariant Releasable(start, key, uid, finalizer)
      {
        ghost var mid := trail;
        var r := Get(key);
        Onward(start, mid);
        NewWritesJoin(begun, mid, trail);
        if !r.Found? || r.obj.uid != uid || finalizer !in r.obj.finalizers {
          return;
        }
        var live := r.obj;
        ghost var seen, read := trail, |trail.events| - 1;
        Interleave();
        Onward(start, seen);
        NewWritesJoin(begun, seen, trail);
        ReadExtends(seen, trail, read, key, live);
        if world.fails(tick) || key !in store.objs {
          return;
        }
        if store.objs[key].rv == live.rv {
          Untouched(read, key, live);
          ReleaseIsTended(world, begun, trail, key, uid, read, finalizer, list);
          FreedBeforeRelease(world, focus, Last(start), store, key, finalizer);
          UnfinalizeAdvances(Protected(world.mapper, focus, Last(start)), world, focus, store, key, finalizer);
          ghost var before := trail;
          Land(Landing(key, read, Unfinalize(finalizer, list)), AfterFinalizers(store, key, KeepFinalizers(live.finalizers, finalizer)), start);
          NewWritesJoin(begun, before, trail);
          return;
        }
      }
    }

    /** Looks up an owner, in the sweep's cache if there is one, and otherwise live. */
    method ResolveOwner(cache: Option<map<Key, Resolution>>, ref: OwnerRef, ns: string)
      returns (res: Option<Resolution>, cache': Option<map<Key, Resolution>>)
      requires Ok()
      modifies this`store, this`tick, this`trail
      ensures Since(old(trail)) && NewWrites(old(trail), trail) == []
      ensures res.Some? ==> Resolvable(world.mapper, ref, ns)
      ensures cache.None? && res.Some? ==>
        && res.value == ResolveIn(store, OwnerKey(world.mapper, ref, ns).value)
        && |old(trail).events| < |trail.events| && LookedUp(world.mapper, trail, |trail.events| - 1, ref, ns)
        && trail.stores[|trail.events| - 1] == store
        && (Solid(res.value, ref) <==> !LetsGo(world.mapper, store, ref, ns))
      ensures cache'.Some? <==> cache.Some?
      ensures Quiet(world) ==> store == old(store) && (Resolvable(world.mapper, ref, ns) ==> res.Some?)
      ensures Quiet(world) && Fresh(cache, store) ==>
        Fresh(cache', store) && (res.Some? ==> res.value == ResolveIn(store, OwnerKey(world.mapper, ref, ns).value))
    {
      hide Evolves, WellFormed, Protected, Respects, Progress, Genuine, NewWrites, LetsGo;
      SinceNow();
      cache' := cache;
      var k := OwnerKey(world.mapper, ref, ns);
      if k.None? {
        return None, cache;
      }
      if cache.Some? && k.value in cache.value {
        return Some(cache.value[k.value]), cache;
      }
      var r := Get(k.value);
      if r.Failed? {
        return None, cache;
      }
      var found := if r.NotFound? then Resolution(false, 0, false)
                   else Resolution(true, r.obj.uid, r.obj.deleting && FOREGROUND in r.obj.finalizers);
      if cache.Some? {
        cache' := Some(cache.value[k.value := found]);
      }
      LetsGoIsNotSolid(world.mapper, store, ref, ns);
      res := Some(found);
    }

    /** The object read is the protected dependent. */
    ghost predicate Guarded(s: Store, key: Key, live: Obj)
      reads this
    {
      Respects(world, focus) && Protected(world.mapper, focus, s) && key == focus.dep && key in s.objs && s.objs[key] == live
    }

    /**
     Looks up each owner of a candidate afresh. One that cannot be looked up ends the attempt;
     otherwise it is known which were solid and the UIDs of those that were not.
     */
    method Judge(key: Key, live: Obj, ghost read: nat) returns (ok: bool, solid: bool, notSolid: set<nat>, ghost lookups: seq<nat>)
      requires Ok() && ReadAt(trail, read, key, live)
      modifies this`store, this`tick, this`trail
      ensures Since(old(trail)) && NewWrites(old(trail), trail) == []
      ensures ok ==>
        && Judged(world.mapper, trail, read, |trail.events|, live.owners, key.namespace, lookups)
        && solid == SomeSolid(world.mapper, trail, live.owners, key.namespace, lookups)
        && notSolid == NotSolid(world.mapper, trail, live.owners, key.namespace, lookups)
        && (solid <==> exists j :: 0 <= j < |live.owners| && !LetGoThen(world.mapper, trail, lookups[j], live.owners[j], key.namespace))
        && (forall uid :: uid in notSolid <==> exists j :: 0 <= j < |live.owners| && live.owners[j].uid == uid
                                                && LetGoThen(world.mapper, trail, lookups[j], live.owners[j], key.namespace))
      ensures ok && Guarded(old(store), key, live) && |live.owners| > 0 ==> solid || Freed(focus, store)
      ensures Quiet(world) ==>
        && store == old(store) && (ok <==> forall r | r in live.owners :: Resolvable(world.mapper, r, key.namespace))
        && (ok ==>
              && (solid <==> exists r :: r in live.owners && SolidAt(world.mapper, store, r, key.namespace))
              && notSolid == set r | r in live.owners && !SolidAt(world.mapper, store, r, key.namespace) :: r.uid)
    {
      hide Evolves, WellFormed, Protected, Respects, Genuine, NewWrites, Judged, SomeSolid, NotSolid, SolidAt, Resolvable;
      hide LookedUp, ResolveIn, Progress, ReadAt, LetGoThen, LetsGo;
      ghost var base := trail;
      ok, solid, notSolid, lookups := true, false, {}, [];
      SinceNow();
      NothingJudged(world.mapper, trail, read, live.owners, key.namespace);
      ReadBefore(trail, read, key, live);
      for i := 0 to |live.owners|
        invariant Since(base) && NewWrites(base, trail) == []
        invariant |lookups| == i && Judged(world.mapper, trail, read, |trail.events|, live.owners[..i], key.namespace, lookups)
        invariant solid == SomeSolid(world.mapper, trail, live.owners[..i], key.namespace, lookups)
        invariant notSolid == NotSolid(world.mapper, trail, live.owners[..i], key.namespace, lookups)
        invariant Guarded(Last(base), key, live) && i > 0 ==> solid || Freed(focus, store)
        invariant Quiet(world) ==> store == Last(base)
        invariant Quiet(world) ==> forall j | 0 <= j < i :: lookups[j] < |trail.stores| && trail.stores[lookups[j]] == Last(base)
      {
        ghost var mid := trail;
        var res, _ := ResolveOwner(None, live.owners[i], key.namespace);
        Onward(base, mid);
        NewWritesJoin(base, mid, trail);
        if res.None? {
          ok := false;
          return;
        }
        JudgedNext(world.mapper, mid, trail, read, live.owners, key.namespace, lookups, i);
        FoundSolid(world.mapper, trail, live.owners[i], key.namespace, res.value);
        if Guarded(Last(base), key, live) && !Freed(focus, store) {
          ProtectedOwnersAreSolid(world.mapper, focus, Last(base), store, live.owners[i]);
        }
        lookups := lookups + [|trail.events| - 1];
        if Solid(res.value, live.owners[i]) {
          solid := true;
        } else {
          notSolid := notSolid + {live.owners[i].uid};
        }
      }
      assert live.owners[..|live.owners|] == live.owners;
      JudgedByLetGo(world.mapper, trail, read, live.owners, key.namespace, lookups);
      if Quiet(world) {
        JudgedAtOnce(world.mapper, trail, store, read, live.owners, key.namespace, lookups);
      }
    }

    /**
     Judges one candidate from a live read and fresh owner lookups alone: deletes it if no owner
     is solid, and otherwise strips the references to owners that are not.
     */
    method Collect(key: Key)
      requires Ok()
      modifies this`store, this`tick, this`trail
      ensures Since(old(trail))
      ensures |NewWrites(old(trail), trail)| <= 1 && forall l | l in NewWrites(old(trail), trail) :: IsCollecting(l, key)
      ensures Quiet(world) ==> store == Collected(world.mapper, old(store), key)
      ensures Quiet(world) ==> CollectOutcome(world.mapper, old(store), store, key)
    {
      hide Evolves, WellFormed, Protected, Respects, Genuine, NewWrites, Judged, SomeSolid, NotSolid, SolidAt, Resolvable, AfterDelete;
      hide CollectOutcome;
      CollectedIsOutcome(world.mapper, store, key);
      ghost var begun := trail;
      var r := Get(key);
      if !r.Found? || |r.obj.owners| == 0 {
        return;
      }
      var live := r.obj;
      ghost var base, read := trail, |trail.events| - 1;
      ghost var lookups;
      var ok, solid, notSolid;
      ok, solid, notSolid, lookups := Judge(key, live, read);
      Onward(begun, base);
      NewWritesJoin(begun, base, trail);
      if !ok {
        return;
      }
      ghost var judged := trail;
      ReadExtends(base, judged, read, key, live);
      if solid {
        if notSolid != {} {
          var _ := StripOwnerRefs(key, live, notSolid, StripGone(lookups, notSolid), read);
          Onward(begun, judged);
          NewWritesJoin(begun, judged, trail);
        }
      } else {
        DeleteLive(key, live, read, lookups, base);
        Onward(begun, base);
        NewWritesJoin(base, judged, trail);
        NewWritesJoin(begun, base, trail);
      }
    }

    /** One dependent of an orphaning owner: takes the reference off, unless it is gone already. */
    method Disown(ownerUid: nat, dep: Key, ghost list: ListCall) returns (done: bool)
      requires Ok() && ownerUid < store.nextUid && UidGone(store, ownerUid)
      requires ListedBefore(world, trail, |trail.events|, list) && Shows(list.objs, dep, ownerUid)
      requires exists e :: e in list.objs && e.obj.uid == ownerUid && Orphans(e.obj)
      modifies this`store, this`tick, this`trail
      ensures Since(old(trail))
      ensures |NewWrites(old(trail), trail)| <= 1
      ensures forall l | l in NewWrites(old(trail), trail) :: l.key == dep && l.action.StripOrphan? && l.action.owner == ownerUid
      ensures done ==> !Names(store, dep, ownerUid)
      ensures !done ==> world.fails(tick) || (tick == old(tick) + 2 && dep in store.objs)
      ensures Quiet(world) ==> done && (store == old(store) <==> !Names(old(store), dep, ownerUid))
    {
      hide WellFormed, Respects, Protected, Evolves, SameOrNewer, Genuine, NewWrites, UidGone, Progress, ListedBefore, Orphans, Shows;
      ghost var begun := trail;
      var r := Get(dep);
      if r.NotFound? {
        return true;
      }
      if r.Failed? {
        return false;
      }
      if !ReferencesUid(r.obj.owners, ownerUid) {
        return true;
      }
      ghost var seen, read := trail, |trail.events| - 1;
      UidStaysGone(Last(begun), store, ownerUid);
      NextUidGrows(Last(begun), store);
      StripIsTended(world, begun, trail, dep, ownerUid, read, list);
      var answer := StripOwnerRefs(dep, r.obj, {ownerUid}, StripOrphan(ownerUid, list), read);
      Onward(begun, seen);
      NewWritesJoin(begun, seen, trail);
      done := answer.Done? || answer.Gone?;
    }

    /**
     Orphan deletion: strips the owner's reference from every dependent the list shows, and
     takes the finalizer off only if each strip landed or found its dependent gone.
     */
    method OrphanDependents(owner: Listed, objs: seq<Listed>, ghost list: ListCall, ghost start: Trail)
      requires Since(start) && EntryEarlier(store, owner) && Orphans(owner.obj)
      requires owner in objs && list.objs == objs && ListedBefore(world, trail, |trail.events|, list)
      requires Holds(world, focus, Last(start), owner.obj.uid) ==> Freed(focus, store) || Shows(objs, focus.dep, focus.ownerUid)
      modifies this`store, this`tick, this`trail
      ensures Since(start) && Extends(old(trail), trail) && StaysFree(world, focus, Last(start), old(store), store)
      ensures forall l | l in NewWrites(old(trail), trail) ::
        || IsRelease(trail, l, owner.key, owner.obj.uid, ORPHAN)
        || (l.action.StripOrphan? && l.action.owner == owner.obj.uid && Shows(objs, l.key, owner.obj.uid))
      ensures (exists l :: l in NewWrites(old(trail), trail) && l.action.Unfinalize?) ==>
        forall e | e in objs && ReferencesUid(e.obj.owners, owner.obj.uid) ::
          LetGo(trail, |old(trail).events|, e.key, owner.obj.uid)
      ensures Quiet(world) ==> Progress(old(store), store)
      ensures Quiet(world) && HasFinalizer(old(store), owner.key, owner.obj.uid, ORPHAN) ==> store != old(store)
    {
      hide WellFormed, Respects, Protected, SameOrNewer, Evolves, Genuine, NewWrites, UidGone, Progress, Freed, Names, ListedBefore;
      var uid := owner.obj.uid;
      ghost var begun := trail;
      var done := true;
      SinceNow();
      for i := 0 to |objs|
        invariant Since(begun) && EntryEarlier(store, owner) && ListedBefore(world, trail, |trail.events|, list)
        invariant forall l | l in NewWrites(begun, trail) :: l.action.StripOrphan? && l.action.owner == uid && Shows(objs, l.key, uid)
        invariant Quiet(world) ==> done
        invariant done ==> forall e | e in objs[..i] && ReferencesUid(e.obj.owners, uid) :: LetGo(trail, |begun.events|, e.key, uid)
        invariant done && Holds(world, focus, Last(begun), uid) && Shows(objs[..i], focus.dep, focus.ownerUid) ==> Freed(focus, store)
      {
        ghost var mid := trail;
        assert objs[..i + 1] == objs[..i] + [objs[i]];
        if ReferencesUid(objs[i].obj.owners, uid) {
          assert owner in list.objs && Shows(list.objs, objs[i].key, uid);
          var ok := Disown(uid, objs[i].key, list);
          Onward(begun, mid);
          ListExtends(world, mid, trail, list);
          NewWritesJoin(begun, mid, trail);
          UidStaysGone(Last(mid), store, uid);
          NextUidGrows(Last(mid), store);
          if done && ok {
            LetGoNow(begun, mid, trail, objs[..i], objs[i], uid);
            if Holds(world, focus, Last(begun), uid) && objs[i].key == focus.dep {
              UnnamedIsFreed(world, focus, Last(begun), store, uid);
            }
          }
          done := done && ok;
        }
      }
      assert objs[..|objs|] == objs;
      Onward(start, begun);
      if done {
        ghost var mid := trail;
        LetGoIsSince(world, begun, mid, list, uid);
        OrphanIsRelieved(mid, owner, list);
        RemoveFinalizer(owner.key, uid, ORPHAN, list, start);
        UnfinalizedChanges(Last(mid), owner.key, uid, ORPHAN);
        NewWritesJoin(begun, mid, trail);
        LetGoStill(begun, mid, trail, objs, uid);
        ProgressAdds(Last(begun), Last(mid), store);
      }
    }

    /**
     Foreground deletion: collects every dependent the list shows, and takes the finalizer off
     once it shows none.
     */
    method ForegroundDeleteDependents(owner: Listed, objs: seq<Listed>, ghost list: ListCall, ghost start: Trail)
      requires Since(start) && owner.obj.deleting && FOREGROUND in owner.obj.finalizers
      requires owner in objs && list.objs == objs && ListedBefore(world, trail, |trail.events|, list)
      modifies this`store, this`tick, this`trail
      ensures Since(start) && Extends(old(trail), trail) && StaysFree(world, focus, Last(start), old(store), store)
      ensures forall l | l in NewWrites(old(trail), trail) ::
        if exists e :: e in objs && ReferencesUid(e.obj.owners, owner.obj.uid)
        then IsCollecting(l, l.key) && Shows(objs, l.key, owner.obj.uid)
        else IsRelease(trail, l, owner.key, owner.obj.uid, FOREGROUND)
      ensures Quiet(world) ==> Progress(old(store), store)
      ensures Quiet(world) && HasFinalizer(old(store), owner.key, owner.obj.uid, FOREGROUND) ==>
        (store == old(store) <==> ListWaits(world.mapper, old(store), objs, owner.obj.uid))
    {
      hide WellFormed, Respects, Protected, SameOrNewer, Evolves, Genuine, NewWrites, Collectable, Collected, Freed, ListedBefore;
      var uid := owner.obj.uid;
      ghost var begun := trail;
      var remaining := 0;
      SinceNow();
      for i := 0 to |objs|
        invariant Since(begun)
        invariant forall l | l in NewWrites(begun, trail) :: IsCollecting(l, l.key) && Shows(objs, l.key, uid)
        invariant remaining == 0 ==> trail == begun
        invariant remaining > 0 <==> exists e :: e in objs[..i] && ReferencesUid(e.obj.owners, uid)
        invariant Quiet(world) ==> (store == Last(begun) <==> NoneCollectable(world.mapper, Last(begun), objs[..i], uid))
      {
        ghost var mid := trail;
        assert objs[..i + 1] == objs[..i] + [objs[i]];
        if ReferencesUid(objs[i].obj.owners, uid) {
          remaining := remaining + 1;
          Collect(objs[i].key);
          CollectedChanges(world.mapper, Last(mid), objs[i].key);
          Onward(begun, mid);
          NewWritesJoin(begun, mid, trail);
          ProgressAdds(Last(begun), Last(mid), store);
        }
      }
      assert objs[..|objs|] == objs;
      Onward(start, begun);
      if remaining == 0 {
        NoneIsAwaited(begun, owner, list);
        RemoveFinalizer(owner.key, uid, FOREGROUND, list, start);
        UnfinalizedChanges(Last(begun), owner.key, uid, FOREGROUND);
      }
    }

    /** The foreground or orphan finalizer of one listed object, if it is being deleted. */
    method TendOwner(owner: Listed, objs: seq<Listed>, ghost list: ListCall, ghost start: Trail)
      requires Since(start) && EntryEarlier(store, owner)
      requires Holds(world, focus, Last(start), owner.obj.uid) ==> Freed(focus, store) || Shows(objs, focus.dep, focus.ownerUid)
      requires owner in objs && list.objs == objs && ListedBefore(world, trail, |trail.events|, list)
      requires forall e | e in objs :: Watched(world, e.key)
      modifies this`store, this`tick, this`trail
      ensures Since(start) && Extends(old(trail), trail) && StaysFree(world, focus, Last(start), old(store), store)
      ensures Watching(world, NewWrites(old(trail), trail))
      ensures !owner.obj.deleting ==> trail == old(trail)
      ensures Quiet(world) ==> Progress(old(store), store)
      ensures Quiet(world) && Current(world, old(store), objs) ==>
        (store == old(store) <==> owner.obj.deleting ==> OwnerAtRest(world, old(store), owner.obj))
    {
      hide WellFormed, Respects, Protected, Evolves, Freed, ListWaits, WaitingForDependents, Genuine, NewWrites, Watched, ListedBefore;
      NoNewWrites(trail);
      if owner.obj.deleting {
        if FOREGROUND in owner.obj.finalizers {
          ForegroundDeleteDependents(owner, objs, list, start);
          ListWaitsMeaning(world, old(store), objs, owner);
        } else if ORPHAN in owner.obj.finalizers {
          OrphanDependents(owner, objs, list, start);
        }
      }
    }

    /** The foreground and orphan finalizers of every owner the list shows being deleted. */
    method FinalizerPass(objs: seq<Listed>, ghost list: ListCall, ghost start: Trail)
      requires list.objs == objs && ListedBefore(world, trail, |trail.events|, list)
      requires Since(start) && ListedEarlier(store, objs) && forall e | e in objs :: Watched(world, e.key)
      requires Holds(world, focus, Last(start), focus.ownerUid) ==> Freed(focus, store) || Shows(objs, focus.dep, focus.ownerUid)
      modifies this`store, this`tick, this`trail
      ensures Since(start) && Extends(old(trail), trail)
      ensures Watching(world, NewWrites(old(trail), trail))
      ensures Quiet(world) ==> Progress(old(store), store)
      ensures Quiet(world) && Current(world, old(store), objs) ==>
        (store == old(store) <==> FinalizersAtRest(world, old(store)))
    {
      hide WellFormed, Respects, Protected, Evolves, Freed, OwnerAtRest, Progress, Current, FinalizersAtRest, Genuine, NewWrites, Watched, ListedBefore;
      ghost var begun := trail;
      NoNewWrites(begun);
      ProgressAdds(store, store, store);
      for i := 0 to |objs|
        invariant Since(start) && Extends(begun, trail) && ListedEarlier(store, objs) && ListedBefore(world, trail, |trail.events|, list)
        invariant Watching(world, NewWrites(begun, trail))
        invariant Holds(world, focus, Last(start), focus.ownerUid) ==> Freed(focus, store) || Shows(objs, focus.dep, focus.ownerUid)
        invariant Quiet(world) ==> Progress(Last(begun), store)
        invariant Quiet(world) && Current(world, Last(begun), objs) ==>
                    (store == Last(begun) <==> ListAtRest(world, Last(begun), objs[..i]))
      {
        ghost var mid := trail;
        assert objs[..i + 1] == objs[..i] + [objs[i]];
        assert EntryEarlier(store, objs[i]);
        TendOwner(objs[i], objs, list, start);
        ListExtends(world, mid, trail, list);
        NewWritesJoin(begun, mid, trail);
        Evolved(mid);
        ListedEarlierStill(Last(mid), store, objs);
        ProgressAdds(Last(begun), Last(mid), store);
      }
      assert objs[..|objs|] == objs;
      ListAtRestMeaning(world, Last(begun), objs);
    }

    /** Whether the sweep's view of the owner is that it is gone; one that cannot be looked up is not. */
    method OwnerDangling(cache: Option<map<Key, Resolution>>, ref: OwnerRef, ns: string)
      returns (dangling: bool, cache': Option<map<Key, Resolution>>)
      requires Ok()
      modifies this`store, this`tick, this`trail
      ensures Since(old(trail)) && NewWrites(old(trail), trail) == [] && (cache'.Some? <==> cache.Some?)
      ensures Quiet(world) ==> store == old(store)
      ensures Quiet(world) && Fresh(cache, store) ==>
        Fresh(cache', store) && (dangling <==> Dangling(world.mapper, store, ref, ns))
    {
      hide WellFormed, Respects, Protected, Evolves, Fresh, Genuine, NewWrites;
      var res;
      res, cache' := ResolveOwner(cache, ref, ns);
      dangling := res.Some? && (!res.value.found || res.value.uid != ref.uid);
    }

    /** Whether all owners of one listed object seem to dangle. */
    method AllOwnersDangle(cache: Option<map<Key, Resolution>>, owners: seq<OwnerRef>, ns: string)
      returns (dangling: bool, cache': Option<map<Key, Resolution>>)
      requires Ok()
      modifies this`store, this`tick, this`trail
      ensures Since(old(trail)) && NewWrites(old(trail), trail) == [] && (cache'.Some? <==> cache.Some?)
      ensures Quiet(world) ==> store == old(store)
      ensures Quiet(world) && Fresh(cache, store) ==>
        Fresh(cache', store) && (dangling <==> forall r | r in owners :: Dangling(world.mapper, store, r, ns))
    {
      hide WellFormed, Respects, Protected, Evolves, Fresh, Dangling, Progress, Genuine, NewWrites;
      ghost var begun := trail;
      SinceNow();
      cache' := cache;
      for i := 0 to |owners|
        invariant Since(begun) && NewWrites(begun, trail) == [] && (cache'.Some? <==> cache.Some?)
        invariant Quiet(world) ==> store == Last(begun)
        invariant Quiet(world) && Fresh(cache, Last(begun)) ==>
          Fresh(cache', Last(begun)) && forall r | r in owners[..i] :: Dangling(world.mapper, Last(begun), r, ns)
      {
        ghost var mid := trail;
        assert owners[..i + 1] == owners[..i] + [owners[i]];
        dangling, cache' := OwnerDangling(cache', owners[i], ns);
        Onward(begun, mid);
        NewWritesJoin(begun, mid, trail);
        if !dangling {
          return;
        }
      }
      assert owners[..|owners|] == owners;
      dangling := true;
    }

    /** One listed object of the background pass. */
    method Reap(cache: Option<map<Key, Resolution>>, e: Listed) returns (cache': Option<map<Key, Resolution>>)
      requires Ok() && cache.Some?
      modifies this`store, this`tick, this`trail
      ensures Since(old(trail)) && cache'.Some?
      ensures forall l | l in NewWrites(old(trail), trail) :: IsCollecting(l, e.key)
      ensures Quiet(world) ==> Progress(old(store), store)
      ensures Quiet(world) && Fresh(cache, old(store)) && store == old(store) ==> Fresh(cache', store)
      ensures Quiet(world) && Fresh(cache, old(store)) && e.key in old(store).objs && old(store).objs[e.key] == e.obj ==>
        (store == old(store) <==> !Reapable(world.mapper, old(store), e.key))
    {
      hide WellFormed, Respects, Protected, Evolves, Fresh, Dangling, Collectable, Collected, Genuine, NewWrites;
      ghost var begun := trail;
      SinceNow();
      cache' := cache;
      if |e.obj.owners| > 0 {
        var dangling;
        dangling, cache' := AllOwnersDangle(cache, e.obj.owners, e.key.namespace);
        if dangling {
          ghost var mid := trail;
          Collect(e.key);
          Onward(begun, mid);
          NewWritesJoin(begun, mid, trail);
          CollectedChanges(world.mapper, Last(begun), e.key);
          if Quiet(world) && Fresh(cache, Last(begun)) && e.key in Last(begun).objs && Last(begun).objs[e.key] == e.obj {
            DanglingIsCollectable(world.mapper, Last(begun), e.key);
          }
        }
      }
    }

    /** The background pass: collects every listed object whose owners all seem to dangle. */
    method BackgroundPass(objs: seq<Listed>)
      requires Ok() && forall e | e in objs :: Watched(world, e.key)
      modifies this`store, this`tick, this`trail
      ensures Since(old(trail))
      ensures Watching(world, NewWrites(old(trail), trail))
      ensures Quiet(world) && Current(world, old(store), objs) ==>
        (store == old(store) <==> NoneReapable(world.mapper, old(store), objs))
    {
      hide WellFormed, Respects, Protected, Evolves, Fresh, Reapable, Genuine, NewWrites, Watched;
      ghost var begun := trail;
      SinceNow();
      var cache := Some(map[]);
      FreshAtFirst(store);
      for i := 0 to |objs|
        invariant Since(begun) && cache.Some?
        invariant Watching(world, NewWrites(begun, trail))
        invariant Quiet(world) && store == Last(begun) ==> Fresh(cache, Last(begun))
        invariant Quiet(world) && Current(world, Last(begun), objs) ==>
                    (store == Last(begun) <==> NoneReapable(world.mapper, Last(begun), objs[..i]))
      {
        ghost var mid := trail;
        assert objs[..i + 1] == objs[..i] + [objs[i]];
        cache := Reap(cache, objs[i]);
        Onward(begun, mid);
        NewWritesJoin(begun, mid, trail);
        ProgressAdds(Last(begun), Last(mid), store);
      }
      assert objs[..|objs|] == objs;
    }

    /** One pass over a list taken earlier in an operation begun at `start`. */
    method SweepGC(objs: seq<Listed>, ghost list: ListCall, ghost start: Trail)
      requires list.objs == objs && ListedBefore(world, trail, |trail.events|, list)
      requires Since(start) && ListedEarlier(store, objs) && forall e | e in objs :: Watched(world, e.key)
      requires Holds(world, focus, Last(start), focus.ownerUid) ==> Freed(focus, store) || Shows(objs, focus.dep, focus.ownerUid)
      modifies this`store, this`tick, this`trail
      ensures Since(start) && Extends(old(trail), trail)
      ensures Watching(world, NewWrites(old(trail), trail))
      ensures Quiet(world) ==> Progress(old(store), store)
      ensures Quiet(world) && Current(world, old(store), objs) ==> (store == old(store) <==> AtRest(world, old(store)))
    {
      hide WellFormed, Respects, Protected, Evolves, FinalizersAtRest, Genuine, NewWrites, Watched;
      ghost var begun := trail;
      FinalizerPass(objs, list, start);
      ghost var mid := trail;
      BackgroundPass(objs);
      Onward(start, mid);
      NewWritesJoin(begun, mid, trail);
      ProgressAdds(Last(begun), Last(mid), store);
      NoneReapableMeaning(world, Last(begun), objs);
    }

    /** Lists one kind. */
    method ListKind(kind: (string, string)) returns (items: Option<seq<Listed>>)
      requires Ok()
      modifies this`store, this`tick, this`trail
      ensures Since(old(trail)) && NewWrites(old(trail), trail) == []
      ensures items.Some? ==>
        && |old(trail).events| < |trail.events| && trail.events[|trail.events| - 1] == SawKind(kind)
        && (forall e :: e in items.value <==> ListedAt(trail, |trail.events| - 1, kind, e))
        && (forall e :: e in items.value <==> e.key in store.objs && store.objs[e.key] == e.obj && KindOf(e.key) == kind)
      ensures Quiet(world) ==> store == old(store) && items.Some?
    {
      hide WellFormed, Evolves, Progress, Protected, Respects, Genuine, NewWrites;
      ghost var begun := trail;
      Interleave();
      if world.fails(tick) {
        return None;
      }
      ghost var met := trail;
      Note(SawKind(kind));
      NewWritesJoin(begun, met, trail);
      var found := ItemsOf(store.objs, kind);
      items := Some(found);
    }

    /** Lists the watched kinds, one call a kind, while others write. */
    method ListWatched() returns (objs: Option<seq<Listed>>, ghost moments: seq<nat>)
      requires Ok()
      modifies this`store, this`tick, this`trail
      ensures Since(old(trail)) && NewWrites(old(trail), trail) == []
      ensures objs.Some? ==> IsList(trail, |old(trail).events|, world.kinds, moments, objs.value) && ListedEarlier(store, objs.value)
      ensures objs.Some? && Holds(world, focus, old(store), focus.ownerUid) ==>
        Freed(focus, store) || Shows(objs.value, focus.dep, focus.ownerUid)
      ensures Quiet(world) ==> store == old(store) && objs.Some? && Current(world, store, objs.value)
    {
      hide WellFormed, Evolves, Progress, Genuine, NewWrites, Protected, Respects, IsList, ShowsKinds, ListedEarlier, Freed, ListedAt;
      ghost var begun := trail;
      SinceNow();
      var out: seq<Listed> := [];
      moments := [];
      NothingListed(trail, store);
      for i := 0 to |world.kinds|
        invariant Since(begun) && NewWrites(begun, trail) == [] && ListedEarlier(store, out)
        invariant IsList(trail, |begun.events|, world.kinds[..i], moments, out)
        invariant Holds(world, focus, Last(begun), focus.ownerUid) && KindOf(focus.dep) in world.kinds[..i] ==>
                    Freed(focus, store) || Shows(out, focus.dep, focus.ownerUid)
        invariant Quiet(world) ==> store == Last(begun) && ShowsKinds(Last(begun), world.kinds[..i], out)
      {
        ghost var mid, kind := trail, world.kinds[i];
        assert world.kinds[..i + 1] == world.kinds[..i] + [kind];
        var items := ListKind(world.kinds[i]);
        Onward(begun, mid);
        NewWritesJoin(begun, mid, trail);
        if items.None? {
          return None, moments;
        }
        ListedEarlierStill(Last(mid), store, out);
        ItemsAreCurrent(store, kind, items.value);
        JoinedEarlier(store, out, items.value);
        IsListNext(mid, trail, |begun.events|, world.kinds[..i], moments, out, kind, items.value);
        KindsJoin(store, world.kinds[..i], out, kind, items.value);
        HoldsShown(world, focus, Last(begun), store, kind, items.value, out);
        out := out + items.value;
        moments := moments + [|trail.events| - 1];
      }
      assert world.kinds[..|world.kinds|] == world.kinds;
      AllKindsShown(world, store, out);
      DependentIsWatched(world, focus, Last(begun));
      objs := Some(out);
    }

    /**
     One tick: a fresh list, then a sweep. Without outside writes it changes nothing exactly when
     the store is at rest, and otherwise leaves less work.
     */
    method TickGC()
      requires Ok()
      modifies this`store, this`tick, this`trail
      ensures Since(old(trail)) && Watching(world, NewWrites(old(trail), trail))
      ensures Quiet(world) ==> (store == old(store) <==> AtRest(world, old(store)))
    {
      hide WellFormed, Evolves, Respects, Protected, Progress, AtRest, Current, Genuine, NewWrites, Watched, IsList, ListedBefore;
      ghost var begun := trail;
      var objs, moments := ListWatched();
      if objs.Some? {
        ListIsWatched(world, trail, |begun.events|, moments, objs.value);
        ghost var mid := trail;
        ListIsBefore(world, trail, |begun.events|, moments, objs.value);
        SweepGC(objs.value, ListCall(moments, objs.value), begun);
        NewWritesJoin(begun, mid, trail);
      }
    }

    /**
     A run of ticks, whatever others do in between: its history is genuine, so that no write of its
     own did more than its lookups allow, all of them were to watched objects, and a dependent that
     is being orphaned was never deleted. Left alone, it brings the store to rest in no more ticks
     than there is work, and every foreground deletion below which ownership unwinds is finished;
     those that hold each other when the collector starts never are.
     */
    method Run(ticks: nat)
      requires Ok()
      modifies this`store, this`tick, this`trail
      ensures Since(old(trail)) && Watching(world, NewWrites(old(trail), trail))
      ensures Quiet(world) && ticks >= Weight(old(store).objs) ==>
        && AtRest(world, store)
        && forall below, rank, owner | Unwinds(world, old(store), below, rank) && owner in below && Watched(world, owner) ::
             Released(store, owner)
      ensures Quiet(world) && old(trail).events == [] ==>
        forall c | HoldEachOther(world, old(store), c) :: Unmoved(old(store), store, c)
    {
      hide WellFormed, Evolves, Respects, Protected, AtRest, Genuine, NewWrites, Watched, Unwinds, Released, HoldEachOther, Unmoved;
      ghost var begun := trail;
      SinceNow();
      for i := 0 to ticks
        invariant Since(begun) && Watching(world, NewWrites(begun, trail))
        invariant Quiet(world) ==> AtRest(world, store) || Weight(store.objs) + i <= Weight(Last(begun).objs)
      {
        ghost var mid := trail;
        TickGC();
        Onward(begun, mid);
        NewWritesJoin(begun, mid, trail);
      }
      WeightlessIsAtRest(world, store);
      if Quiet(world) && AtRest(world, store) {
        forall below, rank, owner | Unwinds(world, Last(begun), below, rank) && owner in below && Watched(world, owner)
          ensures Released(store, owner)
        {
          ForegroundFinishes(world, trail, |begun.events|, below, rank, owner);
        }
      }
      if Quiet(world) && begun.events == [] {
        forall c | HoldEachOther(world, Last(begun), c) ensures Unmoved(Last(begun), store, c) {
          HeldForGood(world, trail, c, |trail.events|);
          assert Unmoved(trail.stores[0], trail.stores[|trail.events|], c);
        }
      }
    }
  }

  /** The objects of one kind, as a list. */
  method ItemsOf(objs: map<Key, Obj>, kind: (string, string)) returns (items: seq<Listed>)
    ensures forall e :: e in items <==> e.key in objs && objs[e.key] == e.obj && KindOf(e.key) == kind
  {
    items := [];
    var left := objs.Keys;
    while left != {}
      invariant left <= objs.Keys
      invariant forall e :: e in items <==>
        e.key in objs && e.key !in left && objs[e.key] == e.obj && KindOf(e.key) == kind
      decreases |left|
    {
      var k :| k in left;
      left := left - {k};
      if KindOf(k) == kind {
        items := items + [Listed(k, objs[k])];
      }
    }
  }
}
