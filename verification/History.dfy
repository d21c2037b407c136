/**
 The history of a collector: every store it met, what happened to it, and on which reads each
 write of its own rests. What its writes can do to an object others want to keep is told from
 histories alone.
 */
module History {
  import opened Wrappers
  import opened Cluster
  import opened Landings
  import opened Judgement

  datatype Event =
    | Others(tick: nat)
    | Saw(key: Key)
    | SawKind(kind: (string, string))
    | Wrote(landing: Landing)

  /** `stores[i]` is what the `i`-th event met, `stores[i + 1]` what it left. */
  datatype Trail = Trail(stores: seq<Store>, events: seq<Event>)

  ghost predicate Shaped(tr: Trail) {
    |tr.stores| == |tr.events| + 1
  }

  ghost function Last(tr: Trail): Store
    requires Shaped(tr)
  {
    tr.stores[|tr.events|]
  }

  ghost function Then(tr: Trail, e: Event, s: Store): Trail {
    Trail(tr.stores + [s], tr.events + [e])
  }

  ghost predicate Extends(past: Trail, now: Trail) {
    Shaped(past) && Shaped(now) && past.stores <= now.stores && past.events <= now.events
  }

  lemma {:induction false} ExtendsTransitive(a: Trail, b: Trail, c: Trail)
    requires Extends(a, b) && Extends(b, c)
    ensures Extends(a, c)
  {
  }

  /** The collector's writes among the events, in order. */
  ghost function Writes(events: seq<Event>): seq<Landing> {
    if |events| == 0 then []
    else
      var last := events[|events| - 1];
      Writes(events[..|events| - 1]) + if last.Wrote? then [last.landing] else []
  }

  /** What the collector has written since `past`. */
  ghost function NewWrites(past: Trail, now: Trail): seq<Landing> {
    if |past.events| <= |now.events| then Writes(now.events[|past.events|..]) else []
  }

  lemma {:induction false} WritesJoin(a: seq<Event>, b: seq<Event>)
    ensures Writes(a + b) == Writes(a) + Writes(b)
    decreases b
  {
    if |b| == 0 {
      assert a + b == a;
    } else {
      assert (a + b)[..|a + b| - 1] == a + b[..|b| - 1];
      WritesJoin(a, b[..|b| - 1]);
    }
  }

  lemma {:induction false} NewWritesJoin(a: Trail, b: Trail, c: Trail)
    requires Extends(a, b) && Extends(b, c)
    ensures Extends(a, c) && NewWrites(a, c) == NewWrites(a, b) + NewWrites(b, c)
  {
    WritesJoin(b.events[|a.events|..], c.events[|b.events|..]);
    assert c.events[|a.events|..] == b.events[|a.events|..] + c.events[|b.events|..];
  }

  lemma {:induction false} NewWritesThen(tr: Trail, e: Event, s: Store)
    requires Shaped(tr)
    ensures Extends(tr, Then(tr, e, s))
    ensures NewWrites(tr, Then(tr, e, s)) == if e.Wrote? then [e.landing] else []
    ensures NewWrites(tr, tr) == []
  {
    assert Then(tr, e, s).events[|tr.events|..] == [e];
    assert [e][..0] == [] && Writes([]) == [];
    assert Writes([e]) == if e.Wrote? then [e.landing] else [];
  }

  lemma {:induction false} NoNewWrites(tr: Trail)
    requires Shaped(tr)
    ensures Extends(tr, tr) && NewWrites(tr, tr) == []
  {
  }

  // ----- What a write rests on -----

  /** The event at `p` is a read of `key`, and it met `live` there. */
  ghost predicate ReadAt(tr: Trail, p: nat, key: Key, live: Obj) {
    Shaped(tr) && p < |tr.events| && tr.events[p] == Saw(key) && key in tr.stores[p].objs && tr.stores[p].objs[key] == live
  }

  /** The event at `p` looked the owner up. */
  ghost predicate LookedUp(mapper: Mapper, tr: Trail, p: nat, ref: OwnerRef, ns: string) {
    Shaped(tr) && p < |tr.events| && Resolvable(mapper, ref, ns) && tr.events[p] == Saw(OwnerKey(mapper, ref, ns).value)
  }

  /** The lookup at `p` found the owner there and not deleting its dependents. */
  ghost predicate SolidThen(mapper: Mapper, tr: Trail, p: nat, ref: OwnerRef, ns: string) {
    LookedUp(mapper, tr, p, ref, ns) && SolidAt(mapper, tr.stores[p], ref, ns)
  }

  /** Each of the owners was looked up after the read at `read` and before `until`. */
  ghost predicate Judged(mapper: Mapper, tr: Trail, read: nat, until: nat, owners: seq<OwnerRef>, ns: string, lookups: seq<nat>) {
    |lookups| == |owners| && forall j | 0 <= j < |owners| :: read < lookups[j] < until && LookedUp(mapper, tr, lookups[j], owners[j], ns)
  }

  ghost predicate SomeSolid(mapper: Mapper, tr: Trail, owners: seq<OwnerRef>, ns: string, lookups: seq<nat>)
    requires |lookups| == |owners|
  {
    exists j :: 0 <= j < |owners| && SolidThen(mapper, tr, lookups[j], owners[j], ns)
  }

  /** The UIDs of the owners found gone or deleting their dependents. */
  ghost function NotSolid(mapper: Mapper, tr: Trail, owners: seq<OwnerRef>, ns: string, lookups: seq<nat>): set<nat>
    requires |lookups| == |owners|
  {
    set j | 0 <= j < |owners| && !SolidThen(mapper, tr, lookups[j], owners[j], ns) :: owners[j].uid
  }

  /** The write meets what it was computed from, and its lookups and confirming read allow it. */
  ghost predicate Justified(mapper: Mapper, tr: Trail, i: nat, l: Landing) {
    && Shaped(tr) && l.read < i <= |tr.events| && l.key in tr.stores[l.read].objs && l.key in tr.stores[i].objs
    && var live, now, ns := tr.stores[l.read].objs[l.key], tr.stores[i].objs[l.key], l.key.namespace;
       && ReadAt(tr, l.read, l.key, live)
       && match l.action
          case DeleteLocked(lookups) =>
            && now == live && |live.owners| > 0
            && Judged(mapper, tr, l.read, i, live.owners, ns, lookups) && !SomeSolid(mapper, tr, live.owners, ns, lookups)
          case DeleteByUid(lookups, again) =>
            && now.uid == live.uid && |live.owners| > 0
            && Judged(mapper, tr, l.read, again, live.owners, ns, lookups) && !SomeSolid(mapper, tr, live.owners, ns, lookups)
            && again < i && Confirms(tr, again, l.key, live)
          case StripGone(lookups, drop) =>
            && now == live
            && Judged(mapper, tr, l.read, i, live.owners, ns, lookups) && SomeSolid(mapper, tr, live.owners, ns, lookups)
            && drop == NotSolid(mapper, tr, live.owners, ns, lookups) && drop != {}
          case StripOrphan(owner, _) =>
            now == live && ReferencesUid(live.owners, owner) && UidGone(tr.stores[i], owner)
          case Unfinalize(f, _) =>
            now == live && f in live.finalizers
  }

  /** The list calls were all before `p`. */
  ghost predicate ListedBefore(w: World, tr: Trail, p: nat, list: ListCall) {
    IsList(tr, 0, w.kinds, list.moments, list.objs) && forall j | 0 <= j < |list.moments| :: list.moments[j] < p
  }

  /** The object is being deleted without its dependents. */
  ghost predicate Orphans(o: Obj) {
    o.deleting && ORPHAN in o.finalizers && FOREGROUND !in o.finalizers
  }

  /** Between the list and `i` there was a moment at which the object was gone or did not name the owner. */
  ghost predicate LetGoSince(tr: Trail, list: ListCall, i: nat, key: Key, uid: nat) {
    exists q :: 0 <= q <= i && q < |tr.stores| && (forall j | 0 <= j < |list.moments| :: list.moments[j] < q)
                && !Names(tr.stores[q], key, uid)
  }

  /**
   By `i` the owner listed has nothing left to wait for: no dependent was listed, or, if it orphans
   them, each one listed has let go since.
   */
  ghost predicate NothingAwaited(tr: Trail, i: nat, key: Key, uid: nat, f: string, list: ListCall) {
    exists e :: e in list.objs && e.key == key && e.obj.uid == uid
      && if f == FOREGROUND
         then e.obj.deleting && FOREGROUND in e.obj.finalizers && forall d | d in list.objs :: !ReferencesUid(d.obj.owners, uid)
         else f == ORPHAN && Orphans(e.obj)
              && forall d | d in list.objs && ReferencesUid(d.obj.owners, uid) :: LetGoSince(tr, list, i, d.key, uid)
  }

  /** What is done for an owner's finalizer rests on a list that shows the owner, taken before the live read. */
  ghost predicate Tended(w: World, tr: Trail, i: nat, l: Landing) {
    match l.action
    case StripOrphan(owner, list) =>
      && ListedBefore(w, tr, l.read, list) && Shows(list.objs, l.key, owner)
      && exists e :: e in list.objs && e.obj.uid == owner && Orphans(e.obj)
    case Unfinalize(f, list) =>
      && ListedBefore(w, tr, l.read, list) && l.read < |tr.stores| && l.key in tr.stores[l.read].objs
      && NothingAwaited(tr, i, l.key, tr.stores[l.read].objs[l.key].uid, f, list)
    case _ => true
  }

  /** A second read met the same incarnation at another version with the same owner references. */
  ghost predicate Confirms(tr: Trail, again: nat, key: Key, live: Obj) {
    exists obj :: ReadAt(tr, again, key, obj) && obj.uid == live.uid && obj.rv != live.rv && obj.owners == live.owners
  }

  // ----- Genuine histories -----

  ghost predicate StepOk(w: World, tr: Trail, i: nat)
    requires Shaped(tr) && i < |tr.events|
  {
    match tr.events[i]
    case Others(t) => tr.stores[i + 1] == w.env(t, tr.stores[i])
    case Wrote(l) =>
      && Justified(w.mapper, tr, i, l) && Tended(w, tr, i, l)
      && tr.stores[i + 1] == After(tr.stores[i], l, tr.stores[l.read].objs[l.key])
    case _ => tr.stores[i + 1] == tr.stores[i]
  }

  /** Nothing ever changed the store but the others and justified writes of the collector's. */
  ghost predicate Genuine(w: World, tr: Trail) {
    && Shaped(tr) && WellFormed(tr.stores[0])
    && forall i | 0 <= i < |tr.events| :: StepOk(w, tr, i)
  }

  lemma {:induction false} JudgedExtends(mapper: Mapper, past: Trail, now: Trail, read: nat, until: nat, owners: seq<OwnerRef>,
                                         ns: string, lookups: seq<nat>)
    requires Extends(past, now) && Judged(mapper, past, read, until, owners, ns, lookups)
    ensures Judged(mapper, now, read, until, owners, ns, lookups)
    ensures SomeSolid(mapper, now, owners, ns, lookups) <==> SomeSolid(mapper, past, owners, ns, lookups)
    ensures NotSolid(mapper, now, owners, ns, lookups) == NotSolid(mapper, past, owners, ns, lookups)
  {
    hide SolidAt, Resolvable;
    forall j | 0 <= j < |owners|
      ensures LookedUp(mapper, now, lookups[j], owners[j], ns)
      ensures SolidThen(mapper, now, lookups[j], owners[j], ns) <==> SolidThen(mapper, past, lookups[j], owners[j], ns)
    {
      assert LookedUp(mapper, past, lookups[j], owners[j], ns);
    }
  }

  lemma {:induction false} ReadExtends(past: Trail, now: Trail, p: nat, key: Key, live: Obj)
    requires Extends(past, now) && ReadAt(past, p, key, live)
    ensures ReadAt(now, p, key, live)
  {
  }

  lemma {:induction false} ReadBefore(tr: Trail, p: nat, key: Key, live: Obj)
    requires ReadAt(tr, p, key, live)
    ensures p < |tr.events|
  {
  }

  lemma {:induction false} ConfirmsExtends(past: Trail, now: Trail, again: nat, key: Key, live: Obj)
    requires Extends(past, now) && Confirms(past, again, key, live)
    ensures Confirms(now, again, key, live)
  {
    hide ReadAt;
    var obj :| ReadAt(past, again, key, obj) && obj.uid == live.uid && obj.rv != live.rv && obj.owners == live.owners;
    ReadExtends(past, now, again, key, obj);
  }

  lemma {:induction false} JustifiedExtends(mapper: Mapper, past: Trail, now: Trail, i: nat, l: Landing)
    requires Extends(past, now) && Justified(mapper, past, i, l)
    ensures Justified(mapper, now, i, l)
  {
    hide Judged, SomeSolid, NotSolid, UidGone, Confirms, ReferencesUid, ReadAt;
    var live := past.stores[l.read].objs[l.key];
    ReadExtends(past, now, l.read, l.key, live);
    match l.action
    case DeleteLocked(lookups) =>
      JudgedExtends(mapper, past, now, l.read, i, live.owners, l.key.namespace, lookups);
    case DeleteByUid(lookups, again) =>
      JudgedExtends(mapper, past, now, l.read, again, live.owners, l.key.namespace, lookups);
      ConfirmsExtends(past, now, again, l.key, live);
    case StripGone(lookups, _) =>
      JudgedExtends(mapper, past, now, l.read, i, live.owners, l.key.namespace, lookups);
    case _ =>
  }

  lemma {:induction false} IsListExtends(past: Trail, now: Trail, kinds: seq<(string, string)>, moments: seq<nat>, objs: seq<Listed>)
    requires Extends(past, now) && IsList(past, 0, kinds, moments, objs)
    ensures IsList(now, 0, kinds, moments, objs)
  {
    forall e ensures e in objs <==> exists j :: 0 <= j < |moments| && ListedAt(now, moments[j], kinds[j], e) {
      forall j | 0 <= j < |moments| ensures ListedAt(past, moments[j], kinds[j], e) <==> ListedAt(now, moments[j], kinds[j], e) {
      }
    }
  }

  lemma {:induction false} ListExtends(w: World, past: Trail, now: Trail, list: ListCall)
    requires Extends(past, now) && ListedBefore(w, past, |past.events|, list)
    ensures ListedBefore(w, now, |now.events|, list)
  {
    hide IsList;
    IsListExtends(past, now, w.kinds, list.moments, list.objs);
  }

  lemma {:induction false} LetGoExtends(past: Trail, now: Trail, list: ListCall, i: nat, j: nat, key: Key, uid: nat)
    requires Extends(past, now) && i <= j && LetGoSince(past, list, i, key, uid)
    ensures LetGoSince(now, list, j, key, uid)
  {
    hide Names;
    var q :| 0 <= q <= i && q < |past.stores| && (forall m | 0 <= m < |list.moments| :: list.moments[m] < q)
             && !Names(past.stores[q], key, uid);
    assert now.stores[q] == past.stores[q];
  }

  lemma {:induction false} NothingAwaitedExtends(past: Trail, now: Trail, i: nat, j: nat, key: Key, uid: nat, f: string, list: ListCall)
    requires Extends(past, now) && i <= j && NothingAwaited(past, i, key, uid, f, list)
    ensures NothingAwaited(now, j, key, uid, f, list)
  {
    hide LetGoSince, Orphans, ReferencesUid;
    forall d | d in list.objs && LetGoSince(past, list, i, d.key, uid) ensures LetGoSince(now, list, j, d.key, uid) {
      LetGoExtends(past, now, list, i, j, d.key, uid);
    }
  }

  lemma {:induction false} TendedExtends(w: World, past: Trail, now: Trail, i: nat, j: nat, l: Landing)
    requires Extends(past, now) && i <= j && l.read < |past.stores| && Tended(w, past, i, l)
    ensures Tended(w, now, j, l)
  {
    hide IsList, NothingAwaited, Orphans, Shows;
    match l.action
    case StripOrphan(_, list) => IsListExtends(past, now, w.kinds, list.moments, list.objs);
    case Unfinalize(f, list) =>
      IsListExtends(past, now, w.kinds, list.moments, list.objs);
      NothingAwaitedExtends(past, now, i, j, l.key, past.stores[l.read].objs[l.key].uid, f, list);
    case _ =>
  }

  /** A genuine history stays so when one more event happens by the rules. */
  lemma {:induction false} GenuineThen(w: World, tr: Trail, e: Event, s: Store)
    requires Genuine(w, tr)
    requires match e
             case Others(t) => s == w.env(t, Last(tr))
             case Wrote(l) => Justified(w.mapper, tr, |tr.events|, l) && Tended(w, tr, |tr.events|, l) && s == After(Last(tr), l, tr.stores[l.read].objs[l.key])
             case _ => s == Last(tr)
    ensures Genuine(w, Then(tr, e, s)) && Extends(tr, Then(tr, e, s)) && Last(Then(tr, e, s)) == s
  {
    hide Justified, After, Tended;
    var next := Then(tr, e, s);
    assert Extends(tr, next);
    forall i | 0 <= i < |next.events| ensures StepOk(w, next, i) {
      if i < |tr.events| {
        assert StepOk(w, tr, i);
        if tr.events[i].Wrote? {
          JustifiedExtends(w.mapper, tr, next, i, tr.events[i].landing);
          JustifiedIndices(w.mapper, tr, i, tr.events[i].landing);
          TendedExtends(w, tr, next, i, i, tr.events[i].landing);
        }
      } else if e.Wrote? {
        JustifiedExtends(w.mapper, tr, next, i, e.landing);
        JustifiedIndices(w.mapper, tr, i, e.landing);
        TendedExtends(w, tr, next, i, i, e.landing);
      }
    }
  }

  lemma {:induction false} JustifiedIndices(mapper: Mapper, tr: Trail, i: nat, l: Landing)
    requires Justified(mapper, tr, i, l)
    ensures Shaped(tr) && l.read < i <= |tr.events| && l.key in tr.stores[l.read].objs && l.key in tr.stores[i].objs
    ensures tr.stores[i].objs[l.key].uid == tr.stores[l.read].objs[l.key].uid
    ensures !l.action.DeleteByUid? ==> tr.stores[i].objs[l.key] == tr.stores[l.read].objs[l.key]
  {
  }

  // ----- Judging owner by owner -----

  /** One more owner has been looked up, in the last event. */
  lemma {:induction false} JudgedNext(mapper: Mapper, past: Trail, now: Trail, read: nat, owners: seq<OwnerRef>, ns: string,
                                      lookups: seq<nat>, i: nat)
    requires Extends(past, now) && |past.events| < |now.events| && read < |past.events| && i < |owners|
    requires Judged(mapper, past, read, |past.events|, owners[..i], ns, lookups)
    requires LookedUp(mapper, now, |now.events| - 1, owners[i], ns)
    ensures var more := lookups + [|now.events| - 1];
            var solid := SolidThen(mapper, now, |now.events| - 1, owners[i], ns);
            && Judged(mapper, now, read, |now.events|, owners[..i + 1], ns, more)
            && (SomeSolid(mapper, now, owners[..i + 1], ns, more) <==> SomeSolid(mapper, past, owners[..i], ns, lookups) || solid)
            && NotSolid(mapper, now, owners[..i + 1], ns, more)
               == NotSolid(mapper, past, owners[..i], ns, lookups) + if solid then {} else {owners[i].uid}
  {
    hide LookedUp, SolidThen;
    JudgedExtends(mapper, past, now, read, |past.events|, owners[..i], ns, lookups);
    assert owners[..i + 1] == owners[..i] + [owners[i]];
    SolidNext(mapper, now, owners[..i], ns, lookups, owners[i], |now.events| - 1);
  }

  lemma {:induction false} SolidNext(mapper: Mapper, tr: Trail, owners: seq<OwnerRef>, ns: string, lookups: seq<nat>, r: OwnerRef, p: nat)
    requires |lookups| == |owners|
    ensures SomeSolid(mapper, tr, owners + [r], ns, lookups + [p])
            <==> SomeSolid(mapper, tr, owners, ns, lookups) || SolidThen(mapper, tr, p, r, ns)
    ensures NotSolid(mapper, tr, owners + [r], ns, lookups + [p])
            == NotSolid(mapper, tr, owners, ns, lookups) + if SolidThen(mapper, tr, p, r, ns) then {} else {r.uid}
  {
    hide SolidThen;
    var owners', lookups' := owners + [r], lookups + [p];
    assert owners'[|owners|] == r && lookups'[|owners|] == p;
    if SomeSolid(mapper, tr, owners, ns, lookups) {
      var j :| 0 <= j < |owners| && SolidThen(mapper, tr, lookups[j], owners[j], ns);
      assert SolidThen(mapper, tr, lookups'[j], owners'[j], ns);
    }
    forall uid | uid in NotSolid(mapper, tr, owners, ns, lookups) ensures uid in NotSolid(mapper, tr, owners', ns, lookups') {
      var j :| 0 <= j < |owners| && !SolidThen(mapper, tr, lookups[j], owners[j], ns) && owners[j].uid == uid;
      assert !SolidThen(mapper, tr, lookups'[j], owners'[j], ns) && owners'[j].uid == uid;
    }
  }

  /** Lookups that all met one store say what is solid in it. */
  lemma {:induction false} JudgedAtOnce(mapper: Mapper, tr: Trail, s: Store, read: nat, owners: seq<OwnerRef>, ns: string, lookups: seq<nat>)
    requires Judged(mapper, tr, read, |tr.events|, owners, ns, lookups)
    requires Shaped(tr) && forall j | 0 <= j < |lookups| :: lookups[j] < |tr.stores| && tr.stores[lookups[j]] == s
    ensures SomeSolid(mapper, tr, owners, ns, lookups) <==> exists r :: r in owners && SolidAt(mapper, s, r, ns)
    ensures NotSolid(mapper, tr, owners, ns, lookups) == set r | r in owners && !SolidAt(mapper, s, r, ns) :: r.uid
    ensures forall r | r in owners :: Resolvable(mapper, r, ns)
  {
    hide SolidAt, Resolvable, OwnerKey;
    forall j | 0 <= j < |owners|
      ensures LookedUp(mapper, tr, lookups[j], owners[j], ns)
      ensures SolidThen(mapper, tr, lookups[j], owners[j], ns) <==> SolidAt(mapper, s, owners[j], ns)
    {
    }
    forall r | r in owners ensures exists j :: 0 <= j < |owners| && owners[j] == r {
    }
  }

  /** The object read has owners, each has been looked up since, and none was solid. */
  ghost predicate Condemned(mapper: Mapper, tr: Trail, read: nat, key: Key, live: Obj, lookups: seq<nat>) {
    && ReadAt(tr, read, key, live) && |live.owners| > 0
    && Judged(mapper, tr, read, |tr.events|, live.owners, key.namespace, lookups)
    && !SomeSolid(mapper, tr, live.owners, key.namespace, lookups)
  }

  lemma {:induction false} CondemnedExtends(mapper: Mapper, past: Trail, now: Trail, read: nat, key: Key, live: Obj, lookups: seq<nat>)
    requires Extends(past, now) && Condemned(mapper, past, read, key, live, lookups)
    ensures Condemned(mapper, now, read, key, live, lookups)
    ensures Judged(mapper, now, read, |past.events|, live.owners, key.namespace, lookups)
  {
    hide LookedUp, SolidThen;
    JudgedExtends(mapper, past, now, read, |past.events|, live.owners, key.namespace, lookups);
  }

  /** The retry rests on the judgement and on what the confirming read, the last event of `confirmed`, met. */
  lemma {:induction false} RetryIsJustified(mapper: Mapper, mid: Trail, confirmed: Trail, now: Trail, read: nat, key: Key,
                                            live: Obj, lookups: seq<nat>, obj: Obj)
    requires Condemned(mapper, mid, read, key, live, lookups) && Extends(mid, confirmed) && Extends(confirmed, now)
    requires |mid.events| < |confirmed.events| && ReadAt(confirmed, |confirmed.events| - 1, key, obj)
    requires obj.uid == live.uid && obj.rv != live.rv && obj.owners == live.owners
    requires key in Last(now).objs && Last(now).objs[key].uid == live.uid
    ensures Justified(mapper, now, |now.events|, Landing(key, read, DeleteByUid(lookups, |confirmed.events| - 1)))
    ensures now.stores[read].objs[key] == live
  {
    hide LookedUp, SolidThen;
    ExtendsTransitive(mid, confirmed, now);
    CondemnedExtends(mapper, mid, now, read, key, live, lookups);
    ReadExtends(confirmed, now, |confirmed.events| - 1, key, obj);
  }

  lemma {:induction false} NothingJudged(mapper: Mapper, tr: Trail, read: nat, owners: seq<OwnerRef>, ns: string)
    ensures Judged(mapper, tr, read, |tr.events|, owners[..0], ns, [])
    ensures !SomeSolid(mapper, tr, owners[..0], ns, []) && NotSolid(mapper, tr, owners[..0], ns, []) == {}
  {
  }

  /** What a lookup found says whether the owner was solid then. */
  lemma {:induction false} FoundSolid(mapper: Mapper, tr: Trail, ref: OwnerRef, ns: string, res: Resolution)
    requires |tr.events| > 0 && LookedUp(mapper, tr, |tr.events| - 1, ref, ns)
    requires res == ResolveIn(tr.stores[|tr.events| - 1], OwnerKey(mapper, ref, ns).value)
    ensures SolidThen(mapper, tr, |tr.events| - 1, ref, ns) <==> Solid(res, ref)
    ensures SolidAt(mapper, tr.stores[|tr.events| - 1], ref, ns) <==> Solid(res, ref)
  {
  }

  /** What a strip rests on, as far as the history goes. */
  ghost predicate StripAllowed(mapper: Mapper, tr: Trail, read: nat, key: Key, live: Obj, action: Action) {
    && ReadAt(tr, read, key, live)
    && match action
       case StripGone(lookups, drop) =>
         && Judged(mapper, tr, read, |tr.events|, live.owners, key.namespace, lookups)
         && SomeSolid(mapper, tr, live.owners, key.namespace, lookups)
         && drop == NotSolid(mapper, tr, live.owners, key.namespace, lookups) && drop != {}
       case StripOrphan(owner, _) =>
         owner < Last(tr).nextUid && UidGone(Last(tr), owner) && ReferencesUid(live.owners, owner)
       case _ => false
  }

  lemma {:induction false} StripStaysAllowed(mapper: Mapper, past: Trail, now: Trail, read: nat, key: Key, live: Obj, action: Action)
    requires Extends(past, now) && StripAllowed(mapper, past, read, key, live, action) && Evolves(Last(past), Last(now))
    ensures StripAllowed(mapper, now, read, key, live, action)
  {
    hide LookedUp, SolidThen, SameOrNewer;
    match action
    case StripGone(lookups, _) =>
      JudgedExtends(mapper, past, now, read, |past.events|, live.owners, key.namespace, lookups);
    case StripOrphan(owner, _) => UidStaysGone(Last(past), Last(now), owner);
  }

  lemma {:induction false} StripDrops(mapper: Mapper, tr: Trail, read: nat, key: Key, live: Obj, action: Action)
    requires StripAllowed(mapper, tr, read, key, live, action)
    ensures exists r :: r in live.owners && r.uid in Dropped(action)
  {
    hide LookedUp, SolidThen;
    if action.StripGone? {
      var uid :| uid in action.drop;
      var j :| 0 <= j < |live.owners| && !SolidThen(mapper, tr, action.lookups[j], live.owners[j], key.namespace)
               && live.owners[j].uid == uid;
      assert live.owners[j] in live.owners;
    }
  }

  // ----- Writes told apart by their purpose -----

  /** Judging one candidate writes to that object alone: a delete, or a strip of gone owners. */
  ghost predicate IsCollecting(l: Landing, key: Key) {
    l.key == key && (l.action.DeleteLocked? || l.action.DeleteByUid? || l.action.StripGone?)
  }

  /** The write takes the finalizer off this incarnation. */
  ghost predicate IsRelease(tr: Trail, l: Landing, key: Key, uid: nat, finalizer: string) {
    && l.key == key && l.action.Unfinalize? && l.action.finalizer == finalizer
    && l.read < |tr.stores| && key in tr.stores[l.read].objs && tr.stores[l.read].objs[key].uid == uid
  }

  ghost predicate Names(s: Store, key: Key, uid: nat) {
    key in s.objs && ReferencesUid(s.objs[key].owners, uid)
  }

  /** Once it does not name the orphaning owner, the protected dependent is free. */
  lemma {:induction false} UnnamedIsFreed(w: World, f: Focus, s0: Store, s: Store, uid: nat)
    requires Holds(w, f, s0, uid) && Advance(w, f, s0, s) && !Names(s, f.dep, uid)
    ensures Freed(f, s)
  {
    if !Freed(f, s) {
      SomeElement(s.objs[f.dep].owners);
    }
  }

  /** At some moment from `from` on the object was gone or did not name the owner. */
  ghost predicate LetGo(tr: Trail, from: nat, key: Key, uid: nat) {
    exists i :: from <= i < |tr.stores| && !Names(tr.stores[i], key, uid)
  }

  /** The objects that had let go so far still have, and one more has just now. */
  lemma {:induction false} LetGoNow(begun: Trail, mid: Trail, now: Trail, objs: seq<Listed>, e: Listed, uid: nat)
    requires Extends(begun, mid) && Extends(mid, now) && !Names(Last(now), e.key, uid)
    requires forall d | d in objs && ReferencesUid(d.obj.owners, uid) :: LetGo(mid, |begun.events|, d.key, uid)
    ensures forall d | d in objs + [e] && ReferencesUid(d.obj.owners, uid) :: LetGo(now, |begun.events|, d.key, uid)
  {
    hide Names;
    LetGoStill(begun, mid, now, objs, uid);
    assert !Names(now.stores[|now.events|], e.key, uid);
  }

  lemma {:induction false} LetGoStill(begun: Trail, mid: Trail, now: Trail, objs: seq<Listed>, uid: nat)
    requires Extends(begun, mid) && Extends(mid, now)
    requires forall d | d in objs && ReferencesUid(d.obj.owners, uid) :: LetGo(mid, |begun.events|, d.key, uid)
    ensures forall d | d in objs && ReferencesUid(d.obj.owners, uid) :: LetGo(now, |begun.events|, d.key, uid)
  {
    hide Names;
    forall d | d in objs && ReferencesUid(d.obj.owners, uid) ensures LetGo(now, |begun.events|, d.key, uid) {
      var i :| |begun.events| <= i < |mid.stores| && !Names(mid.stores[i], d.key, uid);
      assert now.stores[i] == mid.stores[i];
    }
  }

  /** What has let go since the list's calls were over has let go since the list. */
  lemma {:induction false} LetGoIsSince(w: World, begun: Trail, now: Trail, list: ListCall, uid: nat)
    requires Extends(begun, now) && ListedBefore(w, begun, |begun.events|, list)
    requires forall d | d in list.objs && ReferencesUid(d.obj.owners, uid) :: LetGo(now, |begun.events|, d.key, uid)
    ensures forall d | d in list.objs && ReferencesUid(d.obj.owners, uid) :: LetGoSince(now, list, |now.events|, d.key, uid)
  {
    hide Names, IsList;
    forall d | d in list.objs && ReferencesUid(d.obj.owners, uid) ensures LetGoSince(now, list, |now.events|, d.key, uid) {
      var q :| |begun.events| <= q < |now.stores| && !Names(now.stores[q], d.key, uid);
    }
  }

  /** The release rests on the list and on what has happened since, up to the live read and after it. */
  lemma {:induction false} ReleaseIsTended(w: World, begun: Trail, now: Trail, key: Key, uid: nat, read: nat, f: string, list: ListCall)
    requires Extends(begun, now) && |begun.events| <= read < |now.events|
    requires key in now.stores[read].objs && now.stores[read].objs[key].uid == uid
    requires ListedBefore(w, begun, |begun.events|, list) && NothingAwaited(begun, |begun.events|, key, uid, f, list)
    ensures Tended(w, now, |now.events|, Landing(key, read, Unfinalize(f, list)))
  {
    hide IsList, NothingAwaited;
    IsListExtends(begun, now, w.kinds, list.moments, list.objs);
    NothingAwaitedExtends(begun, now, |begun.events|, |now.events|, key, uid, f, list);
  }

  lemma {:induction false} StripIsTended(w: World, begun: Trail, now: Trail, key: Key, owner: nat, read: nat, list: ListCall)
    requires Extends(begun, now) && |begun.events| <= read
    requires ListedBefore(w, begun, |begun.events|, list) && Shows(list.objs, key, owner)
    requires exists e :: e in list.objs && e.obj.uid == owner && Orphans(e.obj)
    ensures Tended(w, now, |now.events|, Landing(key, read, StripOrphan(owner, list)))
  {
    hide IsList, Shows, Orphans;
    IsListExtends(begun, now, w.kinds, list.moments, list.objs);
  }

  lemma {:induction false} OrphanIsRelieved(tr: Trail, owner: Listed, list: ListCall)
    requires Shaped(tr) && owner in list.objs && Orphans(owner.obj)
    requires forall d | d in list.objs && ReferencesUid(d.obj.owners, owner.obj.uid) ::
               LetGoSince(tr, list, |tr.events|, d.key, owner.obj.uid)
    ensures NothingAwaited(tr, |tr.events|, owner.key, owner.obj.uid, ORPHAN, list)
  {
    hide LetGoSince, Orphans;
    assert ORPHAN[0] != FOREGROUND[0];
  }

  lemma {:induction false} NoneIsAwaited(tr: Trail, owner: Listed, list: ListCall)
    requires Shaped(tr) && owner in list.objs && owner.obj.deleting && FOREGROUND in owner.obj.finalizers
    requires forall d | d in list.objs :: !ReferencesUid(d.obj.owners, owner.obj.uid)
    ensures NothingAwaited(tr, |tr.events|, owner.key, owner.obj.uid, FOREGROUND, list)
  {
  }

  ghost predicate Watching(w: World, ws: seq<Landing>) {
    forall l | l in ws :: Watched(w, l.key)
  }

  // ----- Lists -----

  /** The list call at `p` showed the entry. */
  ghost predicate ListedAt(tr: Trail, p: nat, kind: (string, string), e: Listed) {
    && Shaped(tr) && p < |tr.events| && tr.events[p] == SawKind(kind)
    && KindOf(e.key) == kind && e.key in tr.stores[p].objs && tr.stores[p].objs[e.key] == e.obj
  }

  /** One list call a kind, each at a moment of its own from `from` on, and nothing else. */
  ghost predicate IsList(tr: Trail, from: nat, kinds: seq<(string, string)>, moments: seq<nat>, objs: seq<Listed>) {
    && |moments| == |kinds|
    && (forall j | 0 <= j < |moments| :: from <= moments[j] < |tr.events| && tr.events[moments[j]] == SawKind(kinds[j]))
    && forall e :: e in objs <==> exists j :: 0 <= j < |moments| && ListedAt(tr, moments[j], kinds[j], e)
  }

  lemma {:induction false} NothingListed(tr: Trail, s: Store)
    ensures IsList(tr, |tr.events|, [], [], []) && ListedEarlier(s, []) && ShowsKinds(s, [], [])
  {
  }

  lemma {:induction false} IsListNext(past: Trail, now: Trail, from: nat, kinds: seq<(string, string)>, moments: seq<nat>,
                                      objs: seq<Listed>, kind: (string, string), items: seq<Listed>)
    requires Extends(past, now) && from <= |past.events| < |now.events| && IsList(past, from, kinds, moments, objs)
    requires now.events[|now.events| - 1] == SawKind(kind)
    requires forall e :: e in items <==> ListedAt(now, |now.events| - 1, kind, e)
    ensures IsList(now, from, kinds + [kind], moments + [|now.events| - 1], objs + items)
  {
    var kinds', moments', objs' := kinds + [kind], moments + [|now.events| - 1], objs + items;
    assert kinds'[|kinds|] == kind && moments'[|kinds|] == |now.events| - 1;
    forall e ensures e in objs' <==> exists j :: 0 <= j < |moments'| && ListedAt(now, moments'[j], kinds'[j], e) {
      forall j | 0 <= j < |moments| ensures ListedAt(past, moments[j], kinds[j], e) <==> ListedAt(now, moments'[j], kinds'[j], e) {
      }
    }
  }

  /** A list taken since `from` is one taken before now. */
  lemma {:induction false} ListIsBefore(w: World, tr: Trail, from: nat, moments: seq<nat>, objs: seq<Listed>)
    requires Shaped(tr) && IsList(tr, from, w.kinds, moments, objs)
    ensures ListedBefore(w, tr, |tr.events|, ListCall(moments, objs))
  {
  }

  lemma {:induction false} ListIsWatched(w: World, tr: Trail, from: nat, moments: seq<nat>, objs: seq<Listed>)
    requires IsList(tr, from, w.kinds, moments, objs)
    ensures forall e | e in objs :: Watched(w, e.key)
  {
  }

  // ----- Histories evolve -----

  /** Whatever the write, it respects the laws of the API server. */
  lemma {:induction false} AfterEvolves(s: Store, l: Landing, live: Obj)
    requires WellFormed(s) && l.key in s.objs
    requires !l.action.DeleteLocked? && !l.action.DeleteByUid? ==> s.objs[l.key] == live
    ensures Evolves(s, After(s, l, live))
  {
    hide WellFormed, Evolves;
    var o := s.objs[l.key];
    UidsHandedOut(s, l.key);
    match l.action
    case Unfinalize(f, _) =>
      WithoutEvolves(s, l.key);
      WithEvolves(s, l.key, o.(finalizers := KeepFinalizers(live.finalizers, f)));
    case StripGone(_, drop) => WithEvolves(s, l.key, o.(owners := Keep(live.owners, drop)));
    case StripOrphan(owner, _) => WithEvolves(s, l.key, o.(owners := Keep(live.owners, {owner})));
    case _ =>
      WithoutEvolves(s, l.key);
      WithEvolves(s, l.key, o.(deleting := true));
      EvolvesStill(s);
  }

  lemma {:induction false} UidsHandedOut(s: Store, key: Key)
    requires WellFormed(s) && key in s.objs
    ensures forall r | r in s.objs[key].owners :: r.uid < s.nextUid
    ensures s.objs[key].uid < s.nextUid && s.objs[key].rv < s.nextRv
  {
    assert ObjOk(s, s.objs[key]);
  }

  lemma {:induction false} StepEvolves(w: World, tr: Trail, i: nat)
    requires Lawful(w) && Genuine(w, tr) && i < |tr.events| && WellFormed(tr.stores[i])
    ensures Evolves(tr.stores[i], tr.stores[i + 1])
  {
    hide Evolves, WellFormed, Justified, After;
    assert StepOk(w, tr, i);
    match tr.events[i]
    case Others(t) =>
    case Wrote(l) =>
      JustifiedIndices(w.mapper, tr, i, l);
      AfterEvolves(tr.stores[i], l, tr.stores[l.read].objs[l.key]);
    case _ => EvolvesStill(tr.stores[i]);
  }

  /** Later stores of a history have evolved from earlier ones. */
  lemma {:induction false} TrailEvolves(w: World, tr: Trail, i: nat, j: nat)
    requires Lawful(w) && Genuine(w, tr) && i <= j < |tr.stores|
    ensures WellFormed(tr.stores[i]) && WellFormed(tr.stores[j]) && Evolves(tr.stores[i], tr.stores[j])
    decreases j
  {
    hide WellFormed, StepOk, SameOrNewer;
    if i == j {
      if i > 0 {
        TrailEvolves(w, tr, i - 1, i - 1);
        StepEvolves(w, tr, i - 1);
      }
      EvolvesStill(tr.stores[i]);
    } else {
      TrailEvolves(w, tr, i, j - 1);
      StepEvolves(w, tr, j - 1);
      EvolvesTransitive(tr.stores[i], tr.stores[j - 1], tr.stores[j]);
    }
  }

  // ----- What the collector can and cannot do -----

  /** An owner not solid at its lookup is gone by the time a write resting on the lookup lands. */
  lemma {:induction false} LookupStands(w: World, tr: Trail, read: nat, key: Key, live: Obj, until: nat, i: nat, lookups: seq<nat>, j: nat)
    requires Lawful(w) && Genuine(w, tr) && ReadAt(tr, read, key, live) && until <= i < |tr.stores|
    requires Judged(w.mapper, tr, read, until, live.owners, key.namespace, lookups) && j < |live.owners|
    requires !SolidThen(w.mapper, tr, lookups[j], live.owners[j], key.namespace)
    ensures OwnerGone(w.mapper, tr.stores[i], live.owners[j], key.namespace)
  {
    hide WellFormed, Genuine, OwnerGone, SolidAt, SameOrNewer;
    var p, r := lookups[j], live.owners[j];
    TrailEvolves(w, tr, read, p);
    TrailEvolves(w, tr, p, i);
    UidsHandedOut(tr.stores[read], key);
    assert LookedUp(w.mapper, tr, p, r, key.namespace);
    NotSolidIsGone(w.mapper, tr.stores[p], r, key.namespace);
    OwnerStaysGone(w.mapper, tr.stores[p], tr.stores[i], r, key.namespace);
  }

  /** The collector had reason to delete: the object has owners, and all of them are gone. */
  ghost predicate Abandoned(mapper: Mapper, s: Store, key: Key) {
    key in s.objs && |s.objs[key].owners| > 0 && AllOwnersGone(mapper, s, s.objs[key].owners, key.namespace)
  }

  /**
   The locked delete meets exactly the object that was read live, and all its owners are gone
   at that very moment, however long ago each was looked up.
   */
  lemma {:induction false} LockedDeleteIsSafe(w: World, tr: Trail, i: nat)
    requires Lawful(w) && Genuine(w, tr) && i < |tr.events|
    requires tr.events[i].Wrote? && tr.events[i].landing.action.DeleteLocked?
    ensures Abandoned(w.mapper, tr.stores[i], tr.events[i].landing.key)
  {
    hide Genuine, OwnerGone, WellFormed, SomeSolid;
    var l := tr.events[i].landing;
    GenuineStep(w, tr, i);
    var live := tr.stores[l.read].objs[l.key];
    forall r | r in live.owners ensures OwnerGone(w.mapper, tr.stores[i], r, l.key.namespace) {
      var j :| 0 <= j < |live.owners| && live.owners[j] == r;
      NoneSolid(w.mapper, tr, live.owners, l.key.namespace, l.action.lookups, j);
      LookupStands(w, tr, l.read, l.key, live, i, i, l.action.lookups, j);
    }
  }

  lemma {:induction false} GenuineStep(w: World, tr: Trail, i: nat)
    requires Genuine(w, tr) && i < |tr.events|
    ensures Shaped(tr) && StepOk(w, tr, i)
  {
  }

  lemma {:induction false} NoneSolid(mapper: Mapper, tr: Trail, owners: seq<OwnerRef>, ns: string, lookups: seq<nat>, j: nat)
    requires |lookups| == |owners| && j < |owners| && !SomeSolid(mapper, tr, owners, ns, lookups)
    ensures !SolidThen(mapper, tr, lookups[j], owners[j], ns)
  {
  }

  /** At its lookup the owner let its dependent go. */
  ghost predicate LetGoThen(mapper: Mapper, tr: Trail, p: nat, ref: OwnerRef, ns: string) {
    p < |tr.stores| && LetsGo(mapper, tr.stores[p], ref, ns)
  }

  lemma {:induction false} LookedUpLetsGo(mapper: Mapper, tr: Trail, read: nat, until: nat, owners: seq<OwnerRef>, ns: string,
                                          lookups: seq<nat>)
    requires Shaped(tr) && until <= |tr.events| && Judged(mapper, tr, read, until, owners, ns, lookups)
    ensures forall j | 0 <= j < |owners| ::
              read < lookups[j] < until && (LetGoThen(mapper, tr, lookups[j], owners[j], ns)
                                            <==> !SolidThen(mapper, tr, lookups[j], owners[j], ns))
  {
    hide LetsGo, SolidAt, Resolvable;
    forall j | 0 <= j < |owners|
      ensures read < lookups[j] < until && (LetGoThen(mapper, tr, lookups[j], owners[j], ns)
                                            <==> !SolidThen(mapper, tr, lookups[j], owners[j], ns))
    {
      assert LookedUp(mapper, tr, lookups[j], owners[j], ns);
      LetsGoIsNotSolid(mapper, tr.stores[lookups[j]], owners[j], ns);
    }
  }

  /** What a judgement comes to: some owner had not let go, and the UIDs of those that had. */
  lemma {:induction false} JudgedByLetGo(mapper: Mapper, tr: Trail, read: nat, owners: seq<OwnerRef>, ns: string, lookups: seq<nat>)
    requires Shaped(tr) && Judged(mapper, tr, read, |tr.events|, owners, ns, lookups)
    ensures SomeSolid(mapper, tr, owners, ns, lookups)
            <==> exists j :: 0 <= j < |owners| && !LetGoThen(mapper, tr, lookups[j], owners[j], ns)
    ensures forall uid :: uid in NotSolid(mapper, tr, owners, ns, lookups)
              <==> exists j :: 0 <= j < |owners| && owners[j].uid == uid && LetGoThen(mapper, tr, lookups[j], owners[j], ns)
  {
    hide LetGoThen, SolidThen, LookedUp;
    LookedUpLetsGo(mapper, tr, read, |tr.events|, owners, ns, lookups);
  }

  /**
   Whatever others do meanwhile, a delete lands only for an object read live that has owners, each
   of which was looked up after that read and had let the object go by then: it was absent, replaced,
   or being deleted in the foreground.
   */
  lemma {:induction false} DeletedForOwnersThatLetGo(w: World, tr: Trail, i: nat)
    requires Genuine(w, tr) && i < |tr.events| && tr.events[i].Wrote?
    requires tr.events[i].landing.action.DeleteLocked? || tr.events[i].landing.action.DeleteByUid?
    ensures var l := tr.events[i].landing;
            && l.read < i && l.key in tr.stores[l.read].objs && l.key in tr.stores[i].objs
            && var owners := tr.stores[l.read].objs[l.key].owners;
               && |owners| == |l.action.lookups| > 0
               && forall j | 0 <= j < |owners| ::
                    l.read < l.action.lookups[j] < i && LetGoThen(w.mapper, tr, l.action.lookups[j], owners[j], l.key.namespace)
  {
    hide Genuine, LetGoThen, SolidThen, LookedUp;
    GenuineStep(w, tr, i);
    var l := tr.events[i].landing;
    var owners, lookups := tr.stores[l.read].objs[l.key].owners, l.action.lookups;
    LookedUpLetsGo(w.mapper, tr, l.read, if l.action.DeleteByUid? then l.action.again else i, owners, l.key.namespace, lookups);
  }

  /**
   A strip lands on the object exactly as it was read, after each of its owners was looked up and at
   least one had not let it go. It drops exactly the references whose UID an owner carries that had.
   */
  lemma {:induction false} StrippedForOwnersThatLetGo(w: World, tr: Trail, i: nat)
    requires Genuine(w, tr) && i < |tr.events| && tr.events[i].Wrote? && tr.events[i].landing.action.StripGone?
    ensures var l := tr.events[i].landing;
            && l.read < i && l.key in tr.stores[i].objs && l.key in tr.stores[i + 1].objs
            && var owners, lookups, ns := tr.stores[i].objs[l.key].owners, l.action.lookups, l.key.namespace;
               && |owners| == |lookups|
               && (forall j | 0 <= j < |owners| :: l.read < lookups[j] < i)
               && (exists j :: 0 <= j < |owners| && !LetGoThen(w.mapper, tr, lookups[j], owners[j], ns))
               && (forall r :: r in tr.stores[i + 1].objs[l.key].owners <==>
                    r in owners && forall j | 0 <= j < |owners| && owners[j].uid == r.uid ::
                                     !LetGoThen(w.mapper, tr, lookups[j], owners[j], ns))
  {
    hide Genuine, LetGoThen, SolidThen, LookedUp;
    GenuineStep(w, tr, i);
    var l := tr.events[i].landing;
    var owners, lookups := tr.stores[i].objs[l.key].owners, l.action.lookups;
    LookedUpLetsGo(w.mapper, tr, l.read, i, owners, l.key.namespace, lookups);
  }

  /** The event at `e` added the owner reference `r` to the object at `key`. */
  ghost predicate AddsOwner(tr: Trail, e: nat, key: Key, r: OwnerRef) {
    && Shaped(tr) && e < |tr.events| && key in tr.stores[e].objs && key in tr.stores[e + 1].objs
    && r !in tr.stores[e].objs[key].owners && r in tr.stores[e + 1].objs[key].owners
  }

  /** Between `from` and `i` others gave the object an owner that it has at `i` and that is not gone then. */
  ghost predicate Adopted(mapper: Mapper, tr: Trail, from: nat, i: nat, key: Key) {
    exists e, r :: from < e < i && e < |tr.events| && tr.events[e].Others? && AddsOwner(tr, e, key, r)
                   && i < |tr.stores| && key in tr.stores[i].objs && r in tr.stores[i].objs[key].owners
                   && !OwnerGone(mapper, tr.stores[i], r, key.namespace)
  }

  /** An incarnation met at `i` and handed out by `p` was there all the time in between. */
  lemma {:induction false} ThereAllAlong(w: World, tr: Trail, p: nat, i: nat, key: Key, uid: nat)
    requires Lawful(w) && Genuine(w, tr) && p <= i < |tr.stores|
    requires key in tr.stores[i].objs && tr.stores[i].objs[key].uid == uid && uid < tr.stores[p].nextUid
    ensures key in tr.stores[p].objs && tr.stores[p].objs[key].uid == uid
  {
    hide Genuine, WellFormed;
    TrailEvolves(w, tr, p, i);
    assert SameOrNewer(tr.stores[p], key, tr.stores[i].objs[key]);
  }

  /** No write of the collector's gives an object an owner. */
  lemma {:induction false} OnlyOthersAddOwners(w: World, tr: Trail, e: nat, key: Key, r: OwnerRef)
    requires Genuine(w, tr) && AddsOwner(tr, e, key, r)
    ensures tr.events[e].Others?
  {
    hide Genuine, Justified;
    GenuineStep(w, tr, e);
    if tr.events[e].Wrote? {
      JustifiedIndices(w.mapper, tr, e, tr.events[e].landing);
    }
  }

  /** A reference there at `i` and not at `p` was added in between. */
  lemma {:induction false} FindAdding(w: World, tr: Trail, p: nat, i: nat, key: Key, uid: nat, r: OwnerRef) returns (e: nat)
    requires Lawful(w) && Genuine(w, tr) && p < i < |tr.stores|
    requires key in tr.stores[i].objs && tr.stores[i].objs[key].uid == uid && r in tr.stores[i].objs[key].owners
    requires key in tr.stores[p].objs && tr.stores[p].objs[key].uid == uid && r !in tr.stores[p].objs[key].owners
    ensures p <= e < i && AddsOwner(tr, e, key, r)
    decreases i - p
  {
    hide WellFormed, Evolves, StepOk;
    TrailEvolves(w, tr, p, p + 1);
    UidsHandedOut(tr.stores[p], key);
    NextUidGrows(tr.stores[p], tr.stores[p + 1]);
    ThereAllAlong(w, tr, p + 1, i, key, uid);
    if r in tr.stores[p + 1].objs[key].owners {
      e := p;
    } else {
      e := FindAdding(w, tr, p + 1, i, key, uid, r);
    }
  }

  lemma {:induction false} NextUidGrows(s: Store, t: Store)
    requires Evolves(s, t)
    ensures s.nextUid <= t.nextUid
  {
  }

  /**
   The retry under the UID alone: what it deletes is the incarnation that was judged, at its
   confirming read it still had exactly the owners it was judged on, and those are all gone.
   The delete is right exactly when the object still has an owner reference and none was given
   to it since the confirming read whose owner is not gone.
   */
  lemma {:induction false} RetryIsRightUnlessAdopted(w: World, tr: Trail, i: nat)
    requires Lawful(w) && Genuine(w, tr) && i < |tr.events|
    requires tr.events[i].Wrote? && tr.events[i].landing.action.DeleteByUid?
    ensures var l := tr.events[i].landing;
            var again := l.action.again;
            && l.read < again < i && l.key in tr.stores[l.read].objs && l.key in tr.stores[again].objs && l.key in tr.stores[i].objs
            && var live, confirmed, now := tr.stores[l.read].objs[l.key], tr.stores[again].objs[l.key], tr.stores[i].objs[l.key];
               && live.uid == confirmed.uid == now.uid && live.owners == confirmed.owners
               && AllOwnersGone(w.mapper, tr.stores[i], live.owners, l.key.namespace)
               && (Abandoned(w.mapper, tr.stores[i], l.key)
                   <==> |now.owners| > 0 && !Adopted(w.mapper, tr, again, i, l.key))
  {
    hide Genuine, OwnerGone, WellFormed, SomeSolid, AddsOwner, LookedUp;
    var l := tr.events[i].landing;
    GenuineStep(w, tr, i);
    var live, again := tr.stores[l.read].objs[l.key], l.action.again;
    assert live.owners[0] in live.owners;
    assert l.read < l.action.lookups[0] < again;
    forall r | r in live.owners ensures OwnerGone(w.mapper, tr.stores[i], r, l.key.namespace) {
      var j :| 0 <= j < |live.owners| && live.owners[j] == r;
      NoneSolid(w.mapper, tr, live.owners, l.key.namespace, l.action.lookups, j);
      LookupStands(w, tr, l.read, l.key, live, again, i, l.action.lookups, j);
    }
    forall r | r in tr.stores[i].objs[l.key].owners && !OwnerGone(w.mapper, tr.stores[i], r, l.key.namespace)
      ensures Adopted(w.mapper, tr, again, i, l.key)
    {
      var e := FindAdding(w, tr, again, i, l.key, live.uid, r);
      OnlyOthersAddOwners(w, tr, e, l.key, r);
      assert e != again;
    }
  }

  /**
   No write of the collector's deletes or marks an object that is not abandoned, but for a retry
   that meets an object adopted, or left without any owner reference, since its confirming read.
   */
  lemma {:induction false} OnlyTheAbandonedAreDeleted(w: World, tr: Trail, i: nat, key: Key)
    requires Lawful(w) && Genuine(w, tr) && i < |tr.events| && tr.events[i].Wrote?
    requires key in tr.stores[i].objs && !tr.stores[i].objs[key].deleting && !Abandoned(w.mapper, tr.stores[i], key)
    ensures (key in tr.stores[i + 1].objs && !tr.stores[i + 1].objs[key].deleting)
            || (tr.events[i].landing.key == key && tr.events[i].landing.action.DeleteByUid?
                && (|tr.stores[i].objs[key].owners| == 0 || Adopted(w.mapper, tr, tr.events[i].landing.action.again, i, key)))
  {
    hide Genuine, OwnerGone, WellFormed, Abandoned, Justified, Adopted, AllOwnersGone;
    var l := tr.events[i].landing;
    GenuineStep(w, tr, i);
    JustifiedIndices(w.mapper, tr, i, l);
    if l.action.DeleteLocked? {
      LockedDeleteIsSafe(w, tr, i);
    } else if l.action.DeleteByUid? {
      RetryIsRightUnlessAdopted(w, tr, i);
    }
  }

  /**
   Stripping goes by UID. It drops a reference whose owner is not gone exactly if another
   reference of the same object carries the same UID and was not solid when looked up; what is
   dropped besides is gone.
   */
  lemma {:induction false} StripDropsLivingOnlyByUid(w: World, tr: Trail, i: nat, r: OwnerRef)
    requires Lawful(w) && Genuine(w, tr) && i < |tr.events|
    requires tr.events[i].Wrote? && tr.events[i].landing.action.StripGone?
    requires tr.events[i].landing.key in tr.stores[i].objs && r in tr.stores[i].objs[tr.events[i].landing.key].owners
    requires !OwnerGone(w.mapper, tr.stores[i], r, tr.events[i].landing.key.namespace)
    ensures var l := tr.events[i].landing;
            var owners, lookups := tr.stores[i].objs[l.key].owners, l.action.lookups;
            && l.key in tr.stores[i + 1].objs && |lookups| == |owners|
            && (r !in tr.stores[i + 1].objs[l.key].owners
                <==> exists j :: 0 <= j < |owners| && owners[j] != r && owners[j].uid == r.uid
                                 && !SolidThen(w.mapper, tr, lookups[j], owners[j], l.key.namespace))
  {
    hide Genuine, OwnerGone, WellFormed, SomeSolid, SolidThen, LookedUp;
    var l := tr.events[i].landing;
    GenuineStep(w, tr, i);
    var live, lookups := tr.stores[l.read].objs[l.key], l.action.lookups;
    forall j | 0 <= j < |live.owners| && !SolidThen(w.mapper, tr, lookups[j], live.owners[j], l.key.namespace)
      ensures live.owners[j] != r
    {
      LookupStands(w, tr, l.read, l.key, live, i, i, lookups, j);
    }
  }

  /** Where equal UIDs mean equal references, no strip drops a reference whose owner is not gone. */
  lemma {:induction false} StripDropsOnlyTheGone(w: World, tr: Trail, i: nat, r: OwnerRef)
    requires Lawful(w) && Genuine(w, tr) && i < |tr.events|
    requires tr.events[i].Wrote? && tr.events[i].landing.action.StripGone?
    requires tr.events[i].landing.key in tr.stores[i].objs && r in tr.stores[i].objs[tr.events[i].landing.key].owners
    requires forall p, q | p in tr.stores[i].objs[tr.events[i].landing.key].owners
                           && q in tr.stores[i].objs[tr.events[i].landing.key].owners && p.uid == q.uid :: p == q
    ensures var key := tr.events[i].landing.key;
            key in tr.stores[i + 1].objs
            && (r in tr.stores[i + 1].objs[key].owners || OwnerGone(w.mapper, tr.stores[i], r, key.namespace))
  {
    hide Genuine, OwnerGone, WellFormed;
    var l := tr.events[i].landing;
    GenuineStep(w, tr, i);
    JustifiedIndices(w.mapper, tr, i, l);
    if !OwnerGone(w.mapper, tr.stores[i], r, l.key.namespace) {
      StripDropsLivingOnlyByUid(w, tr, i, r);
    }
  }

  /** Stripping for an orphaning owner drops only references whose owner is gone, or of an unknown kind. */
  lemma {:induction false} OrphanStripDropsOnlyTheGone(w: World, tr: Trail, i: nat, r: OwnerRef)
    requires Genuine(w, tr) && i < |tr.events|
    requires tr.events[i].Wrote? && tr.events[i].landing.action.StripOrphan?
    requires tr.events[i].landing.key in tr.stores[i].objs && r in tr.stores[i].objs[tr.events[i].landing.key].owners
    ensures var key := tr.events[i].landing.key;
            key in tr.stores[i + 1].objs
            && (r in tr.stores[i + 1].objs[key].owners || !Resolvable(w.mapper, r, key.namespace)
                || OwnerGone(w.mapper, tr.stores[i], r, key.namespace))
  {
    hide Genuine;
    GenuineStep(w, tr, i);
  }

  // ----- A run that shows what the retry does not protect -----

  const NOBODY := Key("v1", "Pod", "ns", "gone")

  /** The pod, owned by something long gone, and an heir. */
  function Alone(rv: nat): Store {
    Store(map[POD := Obj(0, rv, [OwnerRef("v1", "Pod", "gone", 5)], false, []), HEIR := Obj(1, 0, [], false, [])], 6, rv + 1)
  }

  /** The pod after the heir adopted it. */
  function Together(): Store {
    Store(map[POD := Obj(0, 3, [OwnerRef("v1", "Pod", "gone", 5), OwnerRef("v1", "Pod", "heir", 1)], false, []),
              HEIR := Obj(1, 0, [], false, [])], 6, 4)
  }

  /** Others write twice: something of no consequence after the judgement, and the adoption after the confirming read. */
  function Meddling(tick: nat, s: Store): Store {
    if tick == 2 && s == Alone(1) then Alone(2)
    else if tick == 4 && s == Alone(2) then Together()
    else s
  }

  function MeddledWorld(): World {
    World(Meddling, _ => false, OnlyPods, [("v1", "Pod")])
  }

  /** Reading the pod, looking its owner up, a refused delete, the confirming read, and the retry. */
  ghost function MeddledTrail(): Trail {
    Trail([Alone(1), Alone(1), Alone(1), Alone(1), Alone(1), Alone(2), Alone(2), Alone(2), Together(), AfterDelete(Together(), POD)],
          [Others(0), Saw(POD), Others(1), Saw(NOBODY), Others(2), Others(3), Saw(POD), Others(4),
           Wrote(Landing(POD, 1, DeleteByUid([3], 6)))])
  }

  lemma {:induction false} MeddlingIsLawful()
    ensures Lawful(MeddledWorld())
  {
    hide Evolves, WellFormed, Alone, Together;
    AloneEvolves();
    TogetherEvolves();
    forall t: nat, s | WellFormed(s) ensures Evolves(s, Meddling(t, s)) {
      EvolvesStill(s);
    }
  }

  lemma {:induction false} AloneEvolves()
    ensures WellFormed(Alone(1)) && Evolves(Alone(1), Alone(2))
  {
    assert POD != HEIR;
    var heir := Obj(1, 0, [], false, []);
    assert ObjOk(Alone(1), Alone(1).objs[POD]) && ObjOk(Alone(1), heir);
    assert ObjOk(Alone(2), Alone(2).objs[POD]) && ObjOk(Alone(2), heir);
    assert SameOrNewer(Alone(1), POD, Alone(2).objs[POD]) && SameOrNewer(Alone(1), HEIR, heir);
  }

  lemma {:induction false} TogetherEvolves()
    ensures Evolves(Alone(2), Together())
  {
    assert POD != HEIR;
    var heir := Obj(1, 0, [], false, []);
    assert ObjOk(Together(), Together().objs[POD]) && ObjOk(Together(), heir);
    assert SameOrNewer(Alone(2), POD, Together().objs[POD]) && SameOrNewer(Alone(2), HEIR, heir);
  }

  lemma {:induction false} TogetherLosesPod()
    ensures POD in Together().objs && !Abandoned(OnlyPods, Together(), POD)
    ensures POD !in AfterDelete(Together(), POD).objs
  {
    assert POD != HEIR;
    var adopter := OwnerRef("v1", "Pod", "heir", 1);
    assert Together().objs[POD].owners[1] == adopter && adopter in Together().objs[POD].owners;
    assert !OwnerGone(OnlyPods, Together(), adopter, "ns");
  }

  /**
   A genuine history in a lawful world that ends with the retry deleting a pod adopted by a
   living owner: the adoption came between the confirming read and the retry.
   */
  lemma {:induction false} RetryCanDeleteAdopted()
    ensures var tr := MeddledTrail();
            && Lawful(MeddledWorld()) && Genuine(MeddledWorld(), tr)
            && POD in tr.stores[8].objs && !Abandoned(OnlyPods, tr.stores[8], POD) && POD !in tr.stores[9].objs
  {
    hide Justified, AfterDelete, Alone, Together, Lawful, Abandoned, WellFormed, StepOk;
    var w, tr := MeddledWorld(), MeddledTrail();
    MeddlingIsLawful();
    AloneEvolves();
    TogetherLosesPod();
    MeddledRetryIsJustified();
    forall i | 0 <= i < |tr.events| ensures StepOk(w, tr, i) {
      MeddledStep(i);
    }
  }

  lemma {:induction false} MeddledStep(i: nat)
    requires i < |MeddledTrail().events|
    requires Justified(OnlyPods, MeddledTrail(), 8, MeddledTrail().events[8].landing)
    ensures StepOk(MeddledWorld(), MeddledTrail(), i)
  {
    hide Justified, AfterDelete;
    var tr := MeddledTrail();
    assert Meddling(0, Alone(1)) == Alone(1) && Meddling(1, Alone(1)) == Alone(1) && Meddling(2, Alone(1)) == Alone(2);
    assert Alone(2) != Alone(1);
    assert Meddling(3, Alone(2)) == Alone(2) && Meddling(4, Alone(2)) == Together();
    if i == 8 {
      assert tr.stores[8] == Together() && tr.stores[9] == AfterDelete(Together(), POD);
    }
  }

  lemma {:induction false} MeddledRetryIsJustified()
    ensures Justified(OnlyPods, MeddledTrail(), 8, MeddledTrail().events[8].landing)
  {
    var tr := MeddledTrail();
    var owner := OwnerRef("v1", "Pod", "gone", 5);
    var live, confirmed := Alone(1).objs[POD], Alone(2).objs[POD];
    assert NOBODY != POD && NOBODY != HEIR by { assert "gone" != "heir" && "gone" != "p"; }
    assert ReadAt(tr, 1, POD, live) && ReadAt(tr, 6, POD, confirmed);
    assert Confirms(tr, 6, POD, live);
    assert OwnerKey(OnlyPods, owner, "ns") == Some(NOBODY);
    assert LookedUp(OnlyPods, tr, 3, owner, "ns") && !SolidThen(OnlyPods, tr, 3, owner, "ns");
    assert Judged(OnlyPods, tr, 1, 6, live.owners, "ns", [3]);
    assert !SomeSolid(OnlyPods, tr, live.owners, "ns", [3]);
  }
}
