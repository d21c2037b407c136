/**
 The reorder buffer of the event stream (ctrltest/events.go): arrivals from several watches are
 held for a while and taken in the order of their resource versions.
 */
module ReorderBuffer {
  import opened Wrappers

  /** How long an event is held, in milliseconds. */
  const WINDOW := 50

  /** One arrival: `at` is when a pump accepted it. */
  datatype RawEvent = RawEvent(kind: string, typ: string, object: string, rv: nat, at: nat)

  ghost predicate Sorted(held: seq<RawEvent>) {
    forall i, j | 0 <= i < j < |held| :: held[i].rv <= held[j].rv
  }

  /** The first place in a sorted buffer whose version is at least `rv`. */
  method Search(held: seq<RawEvent>, rv: nat) returns (i: nat)
    requires Sorted(held)
    ensures i <= |held|
    ensures forall j | 0 <= j < i :: held[j].rv < rv
    ensures forall j | i <= j < |held| :: rv <= held[j].rv
  {
    var j := |held|;
    i := 0;
    while i < j
      invariant i <= j <= |held|
      invariant forall k | 0 <= k < i :: held[k].rv < rv
      invariant forall k | j <= k < |held| :: rv <= held[k].rv
    {
      var mid := (i + j) / 2;
      if held[mid].rv < rv {
        i := mid + 1;
      } else {
        j := mid;
      }
    }
  }

  /** How many events at the front of the buffer have a lower version. */
  function Place(held: seq<RawEvent>, rv: nat): (i: nat)
    ensures i <= |held| && (forall j | 0 <= j < i :: held[j].rv < rv) && (i < |held| ==> rv <= held[i].rv)
  {
    if |held| == 0 || held[0].rv >= rv then 0 else 1 + Place(held[1..], rv)
  }

  /** The buffer with one more event, before all that have its version already. */
  function Inserted(held: seq<RawEvent>, ev: RawEvent): seq<RawEvent> {
    held[..Place(held, ev.rv)] + [ev] + held[Place(held, ev.rv)..]
  }

  lemma {:induction false} InsertedStaysSorted(held: seq<RawEvent>, ev: RawEvent)
    requires Sorted(held)
    ensures Sorted(Inserted(held, ev)) && multiset(Inserted(held, ev)) == multiset(held) + multiset{ev}
    ensures |Inserted(held, ev)| == |held| + 1
  {
    var i := Place(held, ev.rv);
    hide Place;
    assert held == held[..i] + held[i..];
    forall j | i <= j < |held| ensures ev.rv <= held[j].rv {
      assert held[i].rv <= held[j].rv;
    }
    SplicedIsSorted(held, i, ev);
  }

  lemma {:induction false} SplicedIsSorted(held: seq<RawEvent>, i: nat, ev: RawEvent)
    requires Sorted(held) && i <= |held|
    requires forall j | 0 <= j < i :: held[j].rv <= ev.rv
    requires forall j | i <= j < |held| :: ev.rv <= held[j].rv
    ensures Sorted(held[..i] + [ev] + held[i..])
  {
    var next := held[..i] + [ev] + held[i..];
    forall j, k | 0 <= j < k < |next| ensures next[j].rv <= next[k].rv {
      assert next[j] == if j < i then held[j] else if j == i then ev else held[j - 1];
      assert next[k] == if k < i then held[k] else if k == i then ev else held[k - 1];
    }
  }

  method InsertByResourceVersion(held: seq<RawEvent>, ev: RawEvent) returns (next: seq<RawEvent>)
    requires Sorted(held)
    ensures next == Inserted(held, ev)
    ensures Sorted(next) && multiset(next) == multiset(held) + multiset{ev}
  {
    var i := Search(held, ev.rv);
    InsertedStaysSorted(held, ev);
    next := held[..i] + [ev] + held[i..];
  }

  /**
   What happens before one check of the buffer: pumps queue events, the queue is drained, and a
   while later the clock is read to see whether the head is ripe.
   */
  datatype Batch = Batch(drained: nat, check: nat, arrivals: seq<RawEvent>)

  /**
   How long things may take: at most `lag` from an event's stamp to its place in the queue, and at
   most `stall` from a drain to the check after it.
   */
  datatype Delays = Delays(lag: nat, stall: nat)

  /**
   Time does not run backwards, no delay is longer than it may be, and an event that misses a
   drain is queued after it.
   */
  ghost predicate Timely(d: Delays, drained: nat, check: nat, feed: seq<Batch>)
    decreases |feed|
  {
    |feed| > 0 ==>
      && drained <= check <= feed[0].drained <= feed[0].check <= feed[0].drained + d.stall
      && (forall e | e in feed[0].arrivals :: drained <= e.at + d.lag && e.at <= feed[0].drained)
      && Timely(d, feed[0].drained, feed[0].check, feed[1..])
  }

  ghost predicate TimelyFeed(d: Delays, feed: seq<Batch>) { Timely(d, 0, 0, feed) }

  /** An event taken for publishing, after which drain and at which check. */
  datatype Taken = Taken(ev: RawEvent, drained: nat, at: nat)

  // ----- The buffer as a function of what it is fed -----

  /** The buffer: what it holds, what waits in the queue, what is still to come, what has been taken and accepted. */
  datatype State = State(held: seq<RawEvent>, raw: seq<RawEvent>, drained: nat, check: nat, feed: seq<Batch>, taken: seq<Taken>,
                         accepted: multiset<RawEvent>)

  function Initially(feed: seq<Batch>): State { State([], [], 0, 0, feed, [], multiset{}) }

  /** The pumps: time passes and events are queued. */
  function AfterOthers(s: State): State {
    if s.feed == [] then s
    else
      var b := s.feed[0];
      s.(drained := b.drained, check := b.check, raw := s.raw + b.arrivals, feed := s.feed[1..], accepted := s.accepted + multiset(b.arrivals))
  }

  /** One queued arrival, if there is one, goes into the sorted buffer. */
  function Received(s: State): State {
    if s.raw == [] then s else s.(held := Inserted(s.held, s.raw[0]), raw := s.raw[1..])
  }

  function Drained(s: State): (t: State)
    ensures t.raw == [] && |t.held| == |s.held| + |s.raw|
    ensures t == s.(held := t.held, raw := [])
    decreases |s.raw|
  {
    if s.raw == [] then s else Drained(Received(s))
  }

  predicate Ripe(s: State) { s.held != [] && s.check - s.held[0].at >= WINDOW }

  function Taking(s: State): State
    requires s.held != []
  {
    s.(held := s.held[1..], taken := s.taken + [Taken(s.held[0], s.drained, s.check)])
  }

  /** Ripe heads are taken, the queue drained before every check, until the head is unripe. */
  function Emitted(s: State): (t: State)
    ensures t.raw == [] && !Ripe(t) && |t.feed| <= |s.feed|
    decreases |s.feed|, |s.held| + |s.raw|
  {
    var t := Drained(AfterOthers(s));
    if Ripe(t) then Emitted(Taking(t)) else t
  }

  function Merged(s: State): State
    decreases |s.feed|
  {
    if s.feed == [] then s else Merged(Emitted(Received(AfterOthers(s))))
  }

  /** What is published of a whole feed. */
  function Output(feed: seq<Batch>): seq<RawEvent> {
    Events(Merged(Emitted(Initially(feed))).taken)
  }

  // ----- The books are kept -----

  ghost predicate Valid(d: Delays, s: State) {
    && Sorted(s.held) && s.drained <= s.check <= s.drained + d.stall && Timely(d, s.drained, s.check, s.feed)
    && Accounted(d, s.accepted, s.taken, multiset(s.held) + multiset(s.raw), s.drained)
  }

  /** All that has been accepted or is still to arrive. */
  ghost function Everything(s: State): multiset<RawEvent> { s.accepted + Arriving(s.feed) }

  lemma {:induction false} ValidAtFirst(d: Delays, feed: seq<Batch>)
    requires TimelyFeed(d, feed)
    ensures Valid(d, Initially(feed)) && Everything(Initially(feed)) == Arriving(feed)
  {
  }

  lemma {:induction false} OthersKeep(d: Delays, s: State)
    requires Valid(d, s)
    ensures Valid(d, AfterOthers(s)) && Everything(AfterOthers(s)) == Everything(s)
  {
    hide Accounted, Sorted;
    if s.feed != [] {
      var b := s.feed[0];
      AcceptAccounted(d, s.accepted, s.taken, multiset(s.held) + multiset(s.raw), s.drained, b);
      assert multiset(s.held) + multiset(s.raw) + multiset(b.arrivals) == multiset(s.held) + multiset(s.raw + b.arrivals);
    }
  }

  lemma {:induction false} ReceivedKeeps(d: Delays, s: State)
    requires Valid(d, s)
    ensures Valid(d, Received(s)) && Everything(Received(s)) == Everything(s)
  {
    hide Accounted, Timely, Inserted, Sorted;
    if s.raw != [] {
      InsertedStaysSorted(s.held, s.raw[0]);
      assert s.raw == [s.raw[0]] + s.raw[1..];
      assert multiset(s.held) + multiset(s.raw) == multiset(Inserted(s.held, s.raw[0])) + multiset(s.raw[1..]);
    }
  }

  lemma {:induction false} DrainedKeeps(d: Delays, s: State)
    requires Valid(d, s)
    ensures Valid(d, Drained(s)) && Everything(Drained(s)) == Everything(s)
    decreases |s.raw|
  {
    hide Valid, Everything, Received;
    if s.raw != [] {
      ReceivedKeeps(d, s);
      ReceivedShrinks(s);
      DrainedKeeps(d, Received(s));
    }
  }

  lemma {:induction false} ReceivedShrinks(s: State)
    requires s.raw != []
    ensures |Received(s).raw| < |s.raw|
  {
  }

  /** Taking the head: it has the lowest version of all events accepted and not yet taken. */
  lemma {:induction false} TakingKeeps(d: Delays, s: State)
    requires Valid(d, s) && s.raw == [] && Ripe(s)
    ensures Valid(d, Taking(s)) && Everything(Taking(s)) == Everything(s)
    ensures forall e | e in multiset(s.held) :: s.held[0].rv <= e.rv
  {
    hide Accounted, Timely, Sorted;
    HeadIsLowest(s.held);
    assert multiset(s.held) + multiset(s.raw) == multiset(s.held[1..]) + multiset{s.held[0]};
    TakeAccounted(d, s.accepted, s.taken, multiset(s.held[1..]), s.held[0], s.drained, s.check);
    assert multiset(s.held[1..]) + multiset(s.raw) == multiset(s.held[1..]);
  }

  lemma {:induction false} EmittedKeeps(d: Delays, s: State)
    requires Valid(d, s)
    ensures Valid(d, Emitted(s)) && Everything(Emitted(s)) == Everything(s)
    ensures s.taken <= Emitted(s).taken
    decreases |s.feed|, |s.held| + |s.raw|
  {
    hide Valid, Everything, Timely, Accounted;
    OthersKeep(d, s);
    DrainedKeeps(d, AfterOthers(s));
    var t := Drained(AfterOthers(s));
    if Ripe(t) {
      TakingKeeps(d, t);
      EmittedKeeps(d, Taking(t));
    }
  }

  lemma {:induction false} MergedKeeps(d: Delays, s: State)
    requires Valid(d, s) && s.raw == [] && !Ripe(s)
    ensures var t := Merged(s); Valid(d, t) && Everything(t) == Everything(s) && t.feed == [] && t.raw == [] && !Ripe(t)
    ensures s.taken <= Merged(s).taken
    decreases |s.feed|
  {
    hide Valid, Everything, Ripe, Emitted;
    if s.feed != [] {
      OthersKeep(d, s);
      ReceivedKeeps(d, AfterOthers(s));
      EmittedKeeps(d, Received(AfterOthers(s)));
      MergedKeeps(d, Emitted(Received(AfterOthers(s))));
    }
  }

  /** A whole feed: every event accepted is published or held, exactly once. */
  lemma {:induction false} OutputIsAccounted(d: Delays, feed: seq<Batch>) returns (s: State)
    requires TimelyFeed(d, feed)
    ensures s == Merged(Emitted(Initially(feed))) && Valid(d, s) && s.raw == [] && !Ripe(s)
    ensures s.accepted == Arriving(feed) && s.accepted == multiset(Output(feed)) + multiset(s.held)
  {
    hide Accounted, Sorted, Ripe;
    s := Merged(Emitted(Initially(feed)));
    ValidAtFirst(d, feed);
    EmittedKeeps(d, Initially(feed));
    MergedKeeps(d, Emitted(Initially(feed)));
    NothingArrives(s.feed);
    AccountedIsConserved(d, s.accepted, s.taken, multiset(s.held) + multiset(s.raw), s.drained);
  }

  // ----- The program -----

  class Merge {
    var held: seq<RawEvent>
    var raw: seq<RawEvent>
    /** When the queue was last drained, and what the clock says since. */
    var drained: nat
    var check: nat
    var feed: seq<Batch>
    /** What has been published. */
    var out: seq<RawEvent>
    ghost var accepted: multiset<RawEvent>
    ghost var taken: seq<Taken>

    constructor (feed: seq<Batch>)
      ensures View() == Initially(feed) && out == []
    {
      this.feed := feed;
      held, raw, drained, check, out, accepted, taken := [], [], 0, 0, [], multiset{}, [];
    }

    ghost function View(): State
      reads this
    {
      State(held, raw, drained, check, feed, taken, accepted)
    }

    /** The pumps: time passes and events are queued. */
    method Others()
      modifies this`drained, this`check, this`raw, this`feed, this`accepted
      ensures View() == AfterOthers(old(View()))
    {
      if feed != [] {
        accepted := accepted + multiset(feed[0].arrivals);
        drained, check, raw, feed := feed[0].drained, feed[0].check, raw + feed[0].arrivals, feed[1..];
      }
    }

    /** Takes one queued arrival, if there is one, into the sorted buffer. */
    method Receive()
      requires Sorted(held)
      modifies this`held, this`raw
      ensures Sorted(held) && View() == Received(old(View()))
    {
      hide Inserted;
      if raw != [] {
        var next := InsertByResourceVersion(held, raw[0]);
        held, raw := next, raw[1..];
      }
    }

    /** Moves every queued arrival into the sorted buffer. */
    method DrainQueued()
      requires Sorted(held)
      modifies this`held, this`raw
      ensures Sorted(held) && View() == Drained(old(View()))
    {
      while raw != []
        invariant Sorted(held) && Drained(View()) == Drained(old(View()))
        decreases |raw|
      {
        Receive();
      }
    }

    /** Publishes the head. */
    method TakeHead()
      requires Sorted(held) && held != [] && out == Events(taken)
      modifies this`held, this`taken, this`out
      ensures Sorted(held) && View() == Taking(old(View())) && out == Events(taken)
      ensures out == old(out) + [old(held)[0]]
    {
      EventsAre(taken, Taken(held[0], drained, check));
      taken := taken + [Taken(held[0], drained, check)];
      out := out + [held[0]];
      held := held[1..];
    }

    /** Publishes from the head as long as it is ripe, draining the queue before every check. */
    method EmitRipe()
      requires Sorted(held) && out == Events(taken)
      modifies this
      ensures Sorted(held) && out == Events(taken) && View() == Emitted(old(View()))
    {
      hide Sorted;
      while true
        invariant Sorted(held) && out == Events(taken)
        invariant Emitted(View()) == Emitted(old(View()))
        decreases |feed|, |held| + |raw|
      {
        Others();
        DrainQueued();
        if held == [] || check - held[0].at < WINDOW {
          return;
        }
        TakeHead();
      }
    }

    /** Merges until the feed ends, and publishes exactly the output of the feed. */
    method Run()
      requires View() == Initially(feed) && out == []
      modifies this
      ensures out == Output(old(feed)) == Events(taken) && View() == Merged(Emitted(Initially(old(feed))))
    {
      hide Emitted, Received, AfterOthers;
      EmitRipe();
      while feed != []
        invariant Sorted(held) && out == Events(taken)
        invariant Merged(View()) == Merged(Emitted(Initially(old(feed))))
        decreases |feed|
      {
        Shorter(View());
        Others();
        Receive();
        EmitRipe();
      }
    }
  }

  lemma {:induction false} Shorter(s: State)
    requires s.feed != []
    ensures |Emitted(Received(AfterOthers(s))).feed| < |s.feed|
  {
  }

  lemma {:induction false} EventsAre(taken: seq<Taken>, t: Taken)
    ensures Events(taken + [t]) == Events(taken) + [t.ev]
  {
  }

  function Events(taken: seq<Taken>): seq<RawEvent> {
    seq(|taken|, i requires 0 <= i < |taken| => taken[i].ev)
  }

  /**
   The books of the buffer. Every accepted event is taken or pending, once; every event taken was
   ripe at the check; and everything taken later or pending that has a lower version missed the
   drain before that check.
   */
  ghost predicate Accounted(d: Delays, accepted: multiset<RawEvent>, taken: seq<Taken>, pending: multiset<RawEvent>, drained: nat) {
    && accepted == multiset(Events(taken)) + pending
    && (forall e | e in pending :: e.at <= drained)
    && (forall i | 0 <= i < |taken| :: TakenOk(d, taken[i], drained))
    && (forall i, j | 0 <= i < j < |taken| :: taken[j].ev.rv < taken[i].ev.rv ==> taken[i].drained <= taken[j].ev.at + d.lag)
    && forall i, e | 0 <= i < |taken| && e in pending :: e.rv < taken[i].ev.rv ==> taken[i].drained <= e.at + d.lag
  }

  ghost predicate TakenOk(d: Delays, t: Taken, drained: nat) {
    t.ev.at <= t.drained <= drained && t.ev.at + WINDOW <= t.at <= t.drained + d.stall
  }

  /** Everything still to arrive. */
  function Arriving(feed: seq<Batch>): multiset<RawEvent> {
    if |feed| == 0 then multiset{} else multiset(feed[0].arrivals) + Arriving(feed[1..])
  }

  lemma {:induction false} HeadIsLowest(held: seq<RawEvent>)
    requires Sorted(held) && held != []
    ensures Sorted(held[1..]) && multiset(held) == multiset(held[1..]) + multiset{held[0]}
    ensures forall e | e in multiset(held) :: held[0].rv <= e.rv
  {
    assert held == [held[0]] + held[1..];
  }

  lemma {:induction false} NothingArrives(feed: seq<Batch>)
    ensures feed == [] ==> Arriving(feed) == multiset{}
  {
  }

  /** What arrives later missed every drain so far. */
  lemma {:induction false} AcceptAccounted(d: Delays, accepted: multiset<RawEvent>, taken: seq<Taken>, pending: multiset<RawEvent>,
                                           drained: nat, b: Batch)
    requires Accounted(d, accepted, taken, pending, drained)
    requires drained <= b.drained && forall e | e in b.arrivals :: drained <= e.at + d.lag && e.at <= b.drained
    ensures Accounted(d, accepted + multiset(b.arrivals), taken, pending + multiset(b.arrivals), b.drained)
  {
  }

  /** Taking the lowest of what is pending, once it is ripe. */
  lemma {:induction false} TakeAccounted(d: Delays, accepted: multiset<RawEvent>, taken: seq<Taken>, rest: multiset<RawEvent>, ev: RawEvent,
                                         drained: nat, check: nat)
    requires Accounted(d, accepted, taken, rest + multiset{ev}, drained) && check <= drained + d.stall
    requires check - ev.at >= WINDOW && forall e | e in rest :: ev.rv <= e.rv
    ensures Accounted(d, accepted, taken + [Taken(ev, drained, check)], rest, drained)
  {
    EventsNext(taken, Taken(ev, drained, check));
    hide Events;
    assert ev in rest + multiset{ev};
    var next := taken + [Taken(ev, drained, check)];
    forall i | 0 <= i < |next| ensures TakenOk(d, next[i], drained) && (i < |taken| ==> next[i] == taken[i]) {
    }
  }

  lemma {:induction false} EventsNext(taken: seq<Taken>, t: Taken)
    ensures multiset(Events(taken + [t])) == multiset(Events(taken)) + multiset{t.ev}
  {
    assert Events(taken + [t]) == Events(taken) + [t.ev];
  }

  lemma {:induction false} AccountedIsConserved(d: Delays, accepted: multiset<RawEvent>, taken: seq<Taken>, pending: multiset<RawEvent>, drained: nat)
    requires Accounted(d, accepted, taken, pending, drained)
    ensures accepted == multiset(Events(taken)) + pending
  {
  }

  // ----- The output is in order -----

  /** What is left of the window when the check after a drain may come late. */
  function Margin(d: Delays): nat { Max(0, WINDOW - d.stall) }

  /** The first was accepted so much later than the second, lag included, that it can miss the drain before the second is taken. */
  predicate TooLate(d: Delays, a: RawEvent, b: RawEvent) {
    a.at + d.lag >= b.at + Margin(d)
  }

  /** No event with a lower version is too late for one with a higher. */
  ghost predicate Punctual(d: Delays, accepted: multiset<RawEvent>) {
    forall a, b | a in accepted && b in accepted && a.rv < b.rv :: !TooLate(d, a, b)
  }

  /** An event published out of order was too late for one published before it. */
  lemma {:induction false} InversionIsLate(d: Delays, accepted: multiset<RawEvent>, taken: seq<Taken>, pending: multiset<RawEvent>,
                                           drained: nat, i: nat, j: nat)
    requires Accounted(d, accepted, taken, pending, drained) && i < j < |taken|
    ensures taken[i].ev in accepted && taken[j].ev in accepted
    ensures taken[j].ev.rv < taken[i].ev.rv ==> TooLate(d, taken[j].ev, taken[i].ev)
  {
    var out := Events(taken);
    assert out[i] in multiset(out) && out[j] in multiset(out);
    assert TakenOk(d, taken[i], drained);
  }

  /** Punctual events come out in ascending order, whatever order they were accepted in. */
  lemma {:induction false} PunctualComesOutSorted(d: Delays, accepted: multiset<RawEvent>, taken: seq<Taken>, pending: multiset<RawEvent>, drained: nat)
    requires Accounted(d, accepted, taken, pending, drained) && Punctual(d, accepted)
    ensures Sorted(Events(taken))
  {
    hide Accounted, TooLate;
    var out := Events(taken);
    forall i, j | 0 <= i < j < |out| ensures out[i].rv <= out[j].rv {
      InversionIsLate(d, accepted, taken, pending, drained, i, j);
    }
  }

  /** On every timely feed whose events are punctual, the output is in ascending order. */
  lemma {:induction false} PunctualFeedComesOutSorted(d: Delays, feed: seq<Batch>)
    requires TimelyFeed(d, feed) && Punctual(d, Arriving(feed))
    ensures Sorted(Output(feed))
  {
    var s := OutputIsAccounted(d, feed);
    PunctualComesOutSorted(d, s.accepted, s.taken, multiset(s.held) + multiset(s.raw), s.drained);
  }

  /** Some way of feeding the two events makes the second come out first. */
  ghost predicate CanOvertake(d: Delays, a: RawEvent, b: RawEvent) {
    exists feed :: TimelyFeed(d, feed) && Arriving(feed) == multiset{a, b} && Output(feed) == [b, a]
  }

  /** `b` is drained as late as it can be for the check at which it ripens; `a` is queued after that drain, and ripens. */
  function Overtaking(d: Delays, a: RawEvent, b: RawEvent): seq<Batch> {
    var last := Max(b.at, a.at) + WINDOW;
    [Batch(b.at + Margin(d), b.at + WINDOW, [b]), Batch(last, last, [a])]
  }

  /**
   The window is exact: of two events with ascending versions the second can come out first if
   and only if the first was accepted so late that, with the delays there may be, it can miss the
   drain before the second is taken. Without delays that is a whole window after the second.
   */
  lemma {:induction false} WindowIsExact(d: Delays, a: RawEvent, b: RawEvent)
    requires a.rv < b.rv
    ensures CanOvertake(d, a, b) <==> TooLate(d, a, b)
    ensures d == Delays(0, 0) ==> (TooLate(d, a, b) <==> a.at >= b.at + WINDOW)
  {
    hide Accounted, TimelyFeed, Sorted, Output, Arriving, Overtaking;
    if TooLate(d, a, b) {
      OvertakingIsTimely(d, a, b);
      OvertakingOvertakes(d, a, b);
    }
    forall feed | TimelyFeed(d, feed) && Arriving(feed) == multiset{a, b} && Output(feed) == [b, a]
      ensures TooLate(d, a, b)
    {
      var s := OutputIsAccounted(d, feed);
      OutputIs(feed);
      assert s.taken[0].ev == [b, a][0] && s.taken[1].ev == [b, a][1];
      InversionIsLate(d, s.accepted, s.taken, multiset(s.held) + multiset(s.raw), s.drained, 0, 1);
    }
  }

  lemma {:induction false} OutputIs(feed: seq<Batch>)
    ensures Output(feed) == Events(Merged(Emitted(Initially(feed))).taken)
  {
  }

  lemma {:induction false} OvertakingIsTimely(d: Delays, a: RawEvent, b: RawEvent)
    requires TooLate(d, a, b)
    ensures TimelyFeed(d, Overtaking(d, a, b)) && Arriving(Overtaking(d, a, b)) == multiset{a, b}
  {
    var feed := Overtaking(d, a, b);
    assert feed[1..][1..] == [] && feed[1..] == [feed[1]];
    assert Timely(d, feed[1].drained, feed[1].check, []) && Arriving([]) == multiset{};
    assert Timely(d, feed[0].drained, feed[0].check, feed[1..]);
    assert Arriving(feed[1..]) == multiset{a};
    assert multiset([a]) == multiset{a} && multiset([b]) == multiset{b};
  }

  /** The run on that feed: each event is drained, found ripe and published. */
  lemma {:induction false} OvertakingOvertakes(d: Delays, a: RawEvent, b: RawEvent)
    ensures Output(Overtaking(d, a, b)) == [b, a]
  {
    hide Emitted, Merged;
    var feed := Overtaking(d, a, b);
    var last := feed[1].check;
    assert feed[1..] == [Batch(last, last, [a])] && feed[1..][1..] == [];
    var s0 := Initially(feed);
    OneArrives(s0, b);
    var s1 := Drained(AfterOthers(s0));
    var t1 := Taking(s1);
    TakesIfRipe(s0, s1, t1);
    OneArrives(t1, a);
    var s2 := Drained(AfterOthers(t1));
    var t2 := Taking(s2);
    TakesIfRipe(t1, s2, t2);
    assert AfterOthers(t2) == t2 && Drained(t2) == t2;
    WaitsIfUnripe(t2, t2);
    MergesOn(t2, t2);
    assert Events(t2.taken) == [b, a];
  }

  lemma {:induction false} OneArrives(s: State, e: RawEvent)
    requires s.held == [] && s.raw == [] && s.feed != [] && s.feed[0].arrivals == [e]
    ensures Drained(AfterOthers(s))
            == State([e], [], s.feed[0].drained, s.feed[0].check, s.feed[1..], s.taken, s.accepted + multiset{e})
  {
    var t := AfterOthers(s);
    assert t.raw == [e];
    assert Inserted([], e) == [e];
    assert Received(t).raw == [] && Received(t).held == [e];
    assert Drained(t) == Drained(Received(t)) == Received(t);
    assert multiset([e]) == multiset{e};
  }

  lemma {:induction false} WaitsIfUnripe(s: State, t: State)
    requires t == Drained(AfterOthers(s)) && !Ripe(t)
    ensures Emitted(s) == t
  {
  }

  lemma {:induction false} TakesIfRipe(s: State, t: State, u: State)
    requires t == Drained(AfterOthers(s)) && Ripe(t) && u == Taking(t)
    ensures Emitted(s) == Emitted(u)
  {
  }

  lemma {:induction false} MergesOn(s: State, t: State)
    requires s.feed != [] ==> t == Emitted(Received(AfterOthers(s)))
    requires s.feed == [] ==> t == s
    ensures s.feed != [] ==> Merged(s) == Merged(t)
    ensures s.feed == [] ==> Merged(s) == s
  {
  }
}
