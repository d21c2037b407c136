/**
 The filtered watch (fakeapi/watch.go): a cached membership set, seeded by a list taken after the
 watch was opened and kept by filtering the events since, against the store they came from.
 */
module FilteredWatch {
  import opened Wrappers

  datatype Obj = Obj(key: string, rv: nat, body: string)

  type Store = map<string, Obj>

  datatype Type = Added | Modified | Deleted | Bookmark

  /** An upstream event; one without object metadata is a status. */
  datatype Event = Change(typ: Type, obj: Obj) | Status(message: string)

  /** One equality requirement: the value is among those the field's indexer yields. */
  datatype FieldReq = FieldReq(fn: Obj -> seq<string>, value: string)

  predicate MatchesAll(want: seq<FieldReq>, obj: Obj) {
    forall r | 0 <= r < |want| :: want[r].value in want[r].fn(obj)
  }

  /** An object is inside a selector if it meets each requirement, so that requirements only narrow. */
  lemma {:induction false} RequirementsAdd(a: seq<FieldReq>, req: FieldReq, obj: Obj)
    ensures MatchesAll([], obj)
    ensures MatchesAll(a + [req], obj) <==> MatchesAll(a, obj) && req.value in req.fn(obj)
  {
    var all := a + [req];
    assert all[|a|] == req;
    forall r | 0 <= r < |a| ensures all[r] == a[r] {
    }
  }

  // ----- Where events come from -----

  /** Bookmarks and statuses report no change. */
  predicate IsChange(ev: Event) { ev.Change? && !ev.typ.Bookmark? }

  /** If the event reports a change, it is one that can happen to `s`. */
  ghost predicate Reports(s: Store, ev: Event) {
    IsChange(ev) ==>
       match ev.typ
       case Added => ev.obj.key !in s
       case Modified => ev.obj.key in s
       case _ => ev.obj.key in s && s[ev.obj.key] == ev.obj
  }

  function Changed(s: Store, ev: Event): Store {
    if !IsChange(ev) then s
    else if ev.typ.Deleted? then s - {ev.obj.key}
    else s[ev.obj.key := ev.obj]
  }

  /** The store after the changes reported. */
  function After(s: Store, evs: seq<Event>): Store {
    if |evs| == 0 then s else Changed(After(s, evs[..|evs| - 1]), evs[|evs| - 1])
  }

  ghost predicate History(s: Store, evs: seq<Event>) {
    && (forall k | k in s :: s[k].key == k)
    && forall i | 0 <= i < |evs| :: Reports(After(s, evs[..i]), evs[i])
  }

  /** The objects of the store inside the selector. */
  function Matching(want: seq<FieldReq>, s: Store): Store {
    map k | k in s && MatchesAll(want, s[k]) :: s[k]
  }

  // ----- What the filter does with an event -----

  function Kept(want: seq<FieldReq>, members: Store, ev: Event): Store {
    if !IsChange(ev) then members
    else if !ev.typ.Deleted? && MatchesAll(want, ev.obj) then members[ev.obj.key := ev.obj]
    else members - {ev.obj.key}
  }

  function Emitted(want: seq<FieldReq>, members: Store, ev: Event): Option<Event> {
    if !IsChange(ev) then Some(ev)
    else
      var was := ev.obj.key in members;
      if ev.typ.Deleted? then if was || MatchesAll(want, ev.obj) then Some(ev) else None
      else if MatchesAll(want, ev.obj) then Some(Change(if was then Modified else Added, ev.obj))
      else if was then Some(Change(Deleted, members[ev.obj.key].(rv := ev.obj.rv)))
      else None
  }

  function KeptAll(want: seq<FieldReq>, members: Store, evs: seq<Event>): Store {
    if |evs| == 0 then members
    else Kept(want, KeptAll(want, members, evs[..|evs| - 1]), evs[|evs| - 1])
  }

  function EmittedAll(want: seq<FieldReq>, members: Store, evs: seq<Event>): seq<Event> {
    if |evs| == 0 then []
    else
      var front := evs[..|evs| - 1];
      var e := Emitted(want, KeptAll(want, members, front), evs[|evs| - 1]);
      var sent := EmittedAll(want, members, front);
      if e.Some? then sent + [e.value] else sent
  }

  class Watch {
    const want: seq<FieldReq>
    var members: Store

    /** Seeds the membership from a list of the objects, taken once the upstream watch is open. */
    constructor (want: seq<FieldReq>, items: seq<Obj>)
      requires forall i, j | 0 <= i < j < |items| :: items[i].key != items[j].key
      ensures this.want == want
      ensures forall k :: k in members <==> exists o :: o in items && o.key == k && MatchesAll(want, o)
      ensures forall o :: o in items && MatchesAll(want, o) ==> members[o.key] == o
    {
      this.want := want;
      var seed: Store := map[];
      for i := 0 to |items|
        invariant forall k :: k in seed <==> exists o :: o in items[..i] && o.key == k && MatchesAll(want, o)
        invariant forall o :: o in items[..i] && MatchesAll(want, o) ==> seed[o.key] == o
      {
        assert items[..i + 1] == items[..i] + [items[i]];
        forall o | o in items[..i] ensures o.key != items[i].key {
          var j :| 0 <= j < i && items[j] == o;
        }
        if MatchesAll(want, items[i]) {
          seed := seed[items[i].key := items[i]];
        }
      }
      assert items[..|items|] == items;
      members := seed;
    }

    /** Filters one event: what to deliver of it, if anything. */
    method Filter(ev: Event) returns (out: Option<Event>)
      requires forall k | k in members :: members[k].key == k
      modifies this`members
      ensures members == Kept(want, old(members), ev)
      ensures out == Emitted(want, old(members), ev)
    {
      if !ev.Change? {
        return Some(ev);
      }
      var key := ev.obj.key;
      var was := key in members;
      match ev.typ {
        case Added | Modified =>
          if MatchesAll(want, ev.obj) {
            members := members[key := ev.obj];
            return Some(Change(if was then Modified else Added, ev.obj));
          }
          var prev := if was then members[key] else ev.obj;
          members := members - {key};
          if was {
            return Some(Change(Deleted, prev.(rv := ev.obj.rv)));
          }
          return None;
        case Deleted =>
          members := members - {key};
          return if was || MatchesAll(want, ev.obj) then Some(ev) else None;
        case Bookmark =>
          return Some(ev);
      }
    }

    /** Filters the upstream events until they end. */
    method Run(upstream: seq<Event>) returns (out: seq<Event>)
      requires forall k | k in members :: members[k].key == k
      modifies this`members
      ensures members == KeptAll(want, old(members), upstream)
      ensures out == EmittedAll(want, old(members), upstream)
    {
      out := [];
      for i := 0 to |upstream|
        invariant forall k | k in members :: members[k].key == k
        invariant members == KeptAll(want, old(members), upstream[..i])
        invariant out == EmittedAll(want, old(members), upstream[..i])
      {
        assert upstream[..i + 1][..i] == upstream[..i];
        var e := Filter(upstream[i]);
        if e.Some? {
          out := out + [e.value];
        }
      }
      assert upstream[..|upstream|] == upstream;
    }
  }

  // ----- Membership agrees with the store -----

  predicate IsOn(ev: Event, key: string) { IsChange(ev) && ev.obj.key == key }

  ghost predicate Touches(evs: seq<Event>, key: string) {
    exists i :: 0 <= i < |evs| && IsOn(evs[i], key)
  }

  lemma {:induction false} TouchesNext(evs: seq<Event>, key: string)
    requires |evs| > 0
    ensures Touches(evs, key) <==>
      Touches(evs[..|evs| - 1], key) || IsOn(evs[|evs| - 1], key)
  {
    var front := evs[..|evs| - 1];
    if Touches(evs, key) {
      var i :| 0 <= i < |evs| && IsOn(evs[i], key);
      assert i < |front| ==> front[i] == evs[i];
    }
    if Touches(front, key) {
      var i :| 0 <= i < |front| && IsOn(front[i], key);
      assert evs[i] == front[i];
    }
  }

  lemma {:induction false} HistoryPrefix(s: Store, evs: seq<Event>, n: nat)
    requires History(s, evs) && n <= |evs|
    ensures History(s, evs[..n])
  {
    forall i | 0 <= i < n ensures Reports(After(s, evs[..n][..i]), evs[..n][i]) {
      assert evs[..n][..i] == evs[..i];
    }
  }

  /** Keys nothing has touched are as they were. */
  lemma {:induction false} UntouchedStays(s: Store, evs: seq<Event>, key: string)
    requires !Touches(evs, key)
    ensures (key in After(s, evs) <==> key in s) && (key in s ==> After(s, evs)[key] == s[key])
  {
    if |evs| > 0 {
      TouchesNext(evs, key);
      UntouchedStays(s, evs[..|evs| - 1], key);
    }
  }

  /** `a` and `b` agree at `key`. */
  ghost predicate SameAt(a: Store, b: Store, key: string) {
    (key in a <==> key in b) && (key in a ==> a[key] == b[key])
  }

  /** At any moment, a key is as the store has it if it was touched, and otherwise as seeded. */
  lemma {:induction false} MembersSoFar(want: seq<FieldReq>, s: Store, seed: Store, evs: seq<Event>, key: string)
    requires History(s, evs)
    ensures SameAt(KeptAll(want, seed, evs), if Touches(evs, key) then Matching(want, After(s, evs)) else seed, key)
  {
    if |evs| > 0 {
      var front, last := evs[..|evs| - 1], evs[|evs| - 1];
      HistoryPrefix(s, evs, |evs| - 1);
      MembersSoFar(want, s, seed, front, key);
      TouchesNext(evs, key);
      assert Reports(After(s, evs[..|evs| - 1]), last);
    }
  }

  /**
   If the seeding list was taken after `k` of the store's changes, then after the filter has
   seen the first `n >= k` of them, its members are exactly the store's matching objects then.
   */
  lemma {:induction false} MembersAgree(want: seq<FieldReq>, s: Store, evs: seq<Event>, k: nat)
    requires History(s, evs) && k <= |evs|
    ensures KeptAll(want, Matching(want, After(s, evs[..k])), evs) == Matching(want, After(s, evs))
  {
    var seed := Matching(want, After(s, evs[..k]));
    forall key ensures SameAt(KeptAll(want, seed, evs), Matching(want, After(s, evs)), key) {
      MembersSoFar(want, s, seed, evs, key);
      if !Touches(evs, key) {
        assert !Touches(evs[..k], key);
        UntouchedStays(s, evs, key);
        UntouchedStays(s, evs[..k], key);
      }
    }
    SameEverywhere(KeptAll(want, seed, evs), Matching(want, After(s, evs)));
  }

  lemma {:induction false} SameEverywhere(a: Store, b: Store)
    requires forall key :: SameAt(a, b, key)
    ensures a == b
  {
    forall key ensures key in a <==> key in b {
      assert SameAt(a, b, key);
    }
    forall key | key in a ensures a[key] == b[key] {
      assert SameAt(a, b, key);
    }
  }

  // ----- So does what a consumer sees -----

  lemma {:induction false} MembersKeyed(want: seq<FieldReq>, seed: Store, evs: seq<Event>)
    requires forall k | k in seed :: seed[k].key == k
    ensures forall k | k in KeptAll(want, seed, evs) :: KeptAll(want, seed, evs)[k].key == k
  {
    if |evs| > 0 {
      MembersKeyed(want, seed, evs[..|evs| - 1]);
    }
  }

  /** A consumer that starts from the seed and applies what it is sent always sees the members. */
  lemma {:induction false} ReplayIsMembers(want: seq<FieldReq>, seed: Store, evs: seq<Event>)
    requires forall k | k in seed :: seed[k].key == k
    ensures After(seed, EmittedAll(want, seed, evs)) == KeptAll(want, seed, evs)
  {
    if |evs| > 0 {
      var front, last := evs[..|evs| - 1], evs[|evs| - 1];
      ReplayIsMembers(want, seed, front);
      MembersKeyed(want, seed, front);
      var m := KeptAll(want, seed, front);
      EmittedKeeps(want, m, last);
      var e := Emitted(want, m, last);
      if e.Some? {
        AfterNext(seed, EmittedAll(want, seed, front), e.value);
      }
    }
  }

  lemma {:induction false} AfterNext(s: Store, evs: seq<Event>, e: Event)
    ensures After(s, evs + [e]) == Changed(After(s, evs), e)
  {
    assert (evs + [e])[..|evs|] == evs;
  }

  /** What is sent for an event does to the members what the event did. */
  lemma {:induction false} EmittedKeeps(want: seq<FieldReq>, m: Store, ev: Event)
    requires forall k | k in m :: m[k].key == k
    ensures var e := Emitted(want, m, ev); Kept(want, m, ev) == if e.Some? then Changed(m, e.value) else m
  {
  }

  /** In a store with these objects inside the selector, the consumer is sent exactly the changes inside it. */
  lemma {:induction false} EmittedMeans(want: seq<FieldReq>, s: Store, ev: Event)
    requires (forall k | k in s :: s[k].key == k) && Reports(s, ev) && IsChange(ev)
    ensures var m, next, key := Matching(want, s), Matching(want, Changed(s, ev)), ev.obj.key;
            var e := Emitted(want, m, ev);
            if key !in m && key !in next then e == None
            else if key !in m then e == Some(Change(Added, next[key]))
            else if key in next then e == Some(Change(Modified, next[key]))
            else e.Some? && e.value.Change? && e.value.typ == Deleted && e.value.obj == m[key].(rv := ev.obj.rv)
  {
  }

  /** The events that report no change, in order. */
  function Notices(evs: seq<Event>): seq<Event> {
    if |evs| == 0 then []
    else Notices(evs[..|evs| - 1]) + if IsChange(evs[|evs| - 1]) then [] else [evs[|evs| - 1]]
  }

  /** Bookmarks and statuses come through as they are and in their order, and nothing else becomes one. */
  lemma {:induction false} NoticesPass(want: seq<FieldReq>, seed: Store, evs: seq<Event>)
    ensures Notices(EmittedAll(want, seed, evs)) == Notices(evs)
  {
    if |evs| > 0 {
      var front, last := evs[..|evs| - 1], evs[|evs| - 1];
      NoticesPass(want, seed, front);
      var sent := EmittedAll(want, seed, front);
      var e := Emitted(want, KeptAll(want, seed, front), last);
      if e.Some? {
        assert (sent + [e.value])[..|sent|] == sent;
      }
    }
  }

  /**
   The whole contract: from the seeding list on, after every event, what was sent so far turns
   the seed into the store's matching objects, and every later change is sent as what it is to them.
   */
  lemma {:induction false} WatchAgreesWithStore(want: seq<FieldReq>, s: Store, evs: seq<Event>, k: nat, n: nat)
    requires History(s, evs) && k <= n <= |evs|
    ensures var seed := Matching(want, After(s, evs[..k]));
            && After(seed, EmittedAll(want, seed, evs[..n])) == Matching(want, After(s, evs[..n]))
            && (n < |evs| && IsChange(evs[n]) ==>
                  var m, next, key := Matching(want, After(s, evs[..n])), Matching(want, After(s, evs[..n + 1])), evs[n].obj.key;
                  var e := Emitted(want, KeptAll(want, seed, evs[..n]), evs[n]);
                  if key !in m && key !in next then e == None
                  else if key !in m then e == Some(Change(Added, next[key]))
                  else if key in next then e == Some(Change(Modified, next[key]))
                  else e == Some(Change(Deleted, m[key].(rv := evs[n].obj.rv))))
  {
    hide Emitted, Kept, KeptAll, EmittedAll, MatchesAll, Matching, After, History;
    MembersAgreeAt(want, s, evs, k, n);
    ViewAgreesAt(want, s, evs, k, n);
    if n < |evs| && IsChange(evs[n]) {
      SentAsItIs(want, s, evs, n);
    }
  }

  lemma {:induction false} MembersAgreeAt(want: seq<FieldReq>, s: Store, evs: seq<Event>, k: nat, n: nat)
    requires History(s, evs) && k <= n <= |evs|
    ensures KeptAll(want, Matching(want, After(s, evs[..k])), evs[..n]) == Matching(want, After(s, evs[..n]))
  {
    hide KeptAll, MatchesAll, Matching;
    HistoryPrefix(s, evs, n);
    assert evs[..n][..k] == evs[..k];
    MembersAgree(want, s, evs[..n], k);
  }

  lemma {:induction false} ViewAgreesAt(want: seq<FieldReq>, s: Store, evs: seq<Event>, k: nat, n: nat)
    requires History(s, evs) && k <= n <= |evs|
    ensures var seed := Matching(want, After(s, evs[..k]));
            After(seed, EmittedAll(want, seed, evs[..n])) == KeptAll(want, seed, evs[..n])
  {
    hide KeptAll, EmittedAll, MatchesAll;
    AfterKeyed(s, evs[..k]);
    ReplayIsMembers(want, Matching(want, After(s, evs[..k])), evs[..n]);
  }

  lemma {:induction false} SentAsItIs(want: seq<FieldReq>, s: Store, evs: seq<Event>, n: nat)
    requires History(s, evs) && n < |evs| && IsChange(evs[n])
    ensures var m, next, key := Matching(want, After(s, evs[..n])), Matching(want, After(s, evs[..n + 1])), evs[n].obj.key;
            var e := Emitted(want, m, evs[n]);
            if key !in m && key !in next then e == None
            else if key !in m then e == Some(Change(Added, next[key]))
            else if key in next then e == Some(Change(Modified, next[key]))
            else e == Some(Change(Deleted, m[key].(rv := evs[n].obj.rv)))
  {
    hide Emitted, MatchesAll, Matching;
    AfterKeyed(s, evs[..n]);
    assert evs[..n + 1][..n] == evs[..n];
    EmittedMeans(want, After(s, evs[..n]), evs[n]);
  }

  lemma {:induction false} AfterKeyed(s: Store, evs: seq<Event>)
    requires forall k | k in s :: s[k].key == k
    ensures forall k | k in After(s, evs) :: After(s, evs)[k].key == k
  {
    if |evs| > 0 {
      AfterKeyed(s, evs[..|evs| - 1]);
    }
  }

  // ----- A consumer that listed before the watch was opened -----

  ghost predicate SentOn(want: seq<FieldReq>, seed: Store, evs: seq<Event>, key: string) {
    Touches(EmittedAll(want, seed, evs), key)
  }

  /** The object left the selector between the opening and the seeding list, and never came back. */
  ghost predicate Missed(want: seq<FieldReq>, s: Store, seed: Store, evs: seq<Event>, key: string) {
    && key in Matching(want, s) && key !in seed && Touches(evs, key)
    && forall i | 0 <= i < |evs| && IsOn(evs[i], key) :: !MatchesAll(want, evs[i].obj)
  }

  /** Until something is sent about a key, an older view keeps what it had of it; from then on it follows the members. */
  lemma {:induction false} OlderView(want: seq<FieldReq>, view: Store, seed: Store, evs: seq<Event>, key: string)
    requires (forall k | k in seed :: seed[k].key == k)
    ensures SameAt(After(view, EmittedAll(want, seed, evs)), if SentOn(want, seed, evs, key) then KeptAll(want, seed, evs) else view, key)
  {
    hide Emitted, Kept;
    if |evs| > 0 {
      var front, last := evs[..|evs| - 1], evs[|evs| - 1];
      OlderView(want, view, seed, front, key);
      MembersKeyed(want, seed, front);
      var m, sent := KeptAll(want, seed, front), EmittedAll(want, seed, front);
      var e := Emitted(want, m, last);
      OlderViewNext(want, view, After(view, sent), m, SentOn(want, seed, front, key), last, key);
      if e.Some? {
        AfterNext(view, sent, e.value);
        TouchesNext(sent + [e.value], key);
        assert (sent + [e.value])[..|sent|] == sent;
      }
    }
  }

  lemma {:induction false} OlderViewNext(want: seq<FieldReq>, older: Store, view: Store, m: Store, sent: bool, ev: Event, key: string)
    requires (forall k | k in m :: m[k].key == k) && SameAt(view, if sent then m else older, key)
    ensures var e := Emitted(want, m, ev);
            SameAt(if e.Some? then Changed(view, e.value) else view,
                   if sent || (e.Some? && IsOn(e.value, key)) then Kept(want, m, ev) else older, key)
  {
    hide MatchesAll;
  }

  /** Nothing has been sent about a key exactly when no event on it matched and it was not seeded, or none was on it. */
  lemma {:induction false} SilentOn(want: seq<FieldReq>, seed: Store, evs: seq<Event>, key: string)
    requires (forall k | k in seed :: seed[k].key == k)
    ensures !SentOn(want, seed, evs, key) <==>
      !Touches(evs, key) || (key !in seed && forall i | 0 <= i < |evs| && IsOn(evs[i], key) :: !MatchesAll(want, evs[i].obj))
    ensures !SentOn(want, seed, evs, key) ==> SameAt(KeptAll(want, seed, evs), seed, key)
  {
    if |evs| > 0 {
      var front, last := evs[..|evs| - 1], evs[|evs| - 1];
      SilentOn(want, seed, front, key);
      MembersKeyed(want, seed, front);
      TouchesNext(evs, key);
      var m, sent := KeptAll(want, seed, front), EmittedAll(want, seed, front);
      var e := Emitted(want, m, last);
      EmittedKeeps(want, m, last);
      if e.Some? {
        TouchesNext(sent + [e.value], key);
        assert (sent + [e.value])[..|sent|] == sent;
      }
      forall i | 0 <= i < |front| ensures front[i] == evs[i] {
      }
    }
  }

  /**
   A consumer that listed when the watch was opened ends up, key by key, with the store's
   matching objects, except for exactly those that left the selector before the seeding list
   and never came back: these it keeps.
   */
  lemma {:induction false} OlderListKeepsMissed(want: seq<FieldReq>, s: Store, evs: seq<Event>, k: nat, key: string)
    requires History(s, evs) && k <= |evs|
    ensures var seed := Matching(want, After(s, evs[..k]));
            var view := After(Matching(want, s), EmittedAll(want, seed, evs));
            SameAt(view, Matching(want, After(s, evs)), key) <==> !Missed(want, s, seed, evs, key)
  {
    var seed := Matching(want, After(s, evs[..k]));
    AfterKeyed(s, evs[..k]);
    OlderView(want, Matching(want, s), seed, evs, key);
    SilentOn(want, seed, evs, key);
    MembersAgree(want, s, evs, k);
    if !Touches(evs, key) {
      UntouchedStays(s, evs, key);
    }
  }

  /** It can happen under every selector that an object can leave: seeded after the change, the consumer keeps the object for good. */
  lemma {:induction false} MissedCanHappen(want: seq<FieldReq>, o: Obj, p: Obj)
    requires MatchesAll(want, o) && !MatchesAll(want, p) && p.key == o.key
    ensures var s, evs: seq<Event> := map[o.key := o], [Change(Modified, p)];
            var seed := Matching(want, After(s, evs[..1]));
            var view := After(Matching(want, s), EmittedAll(want, seed, evs));
            && History(s, evs) && Missed(want, s, seed, evs, o.key)
            && o.key in view && o.key !in Matching(want, After(s, evs))
  {
    hide MatchesAll;
    var s, ev := map[o.key := o], Change(Modified, p);
    var evs: seq<Event> := [ev];
    assert evs[..1] == evs && evs[..0] == [];
    assert After(s, evs[..0]) == s && After(s, evs) == s[o.key := p];
    assert IsOn(evs[0], o.key);
    OlderListKeepsMissed(want, s, evs, 1, o.key);
  }
}
