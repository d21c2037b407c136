/**
 Facts about the successors of one state: where each actor's moves sit among them, and how
 the ordinal recorded for a successor tells it apart from others of the same move name.
 */
module Expansion {
  import opened Wrappers
  import opened Index
  import opened Systems
  import opened Search

  /** How many of the first `n` moves carry the name. */
  function CountNamed<S>(moves: seq<Move<S>>, n: nat, name: string): nat
    requires n <= |moves|
  {
    if n == 0 then 0 else CountNamed(moves, n - 1, name) + if moves[n - 1].name == name then 1 else 0
  }

  /** Move `j` is the one carrying its name that `k` others of that name precede. */
  ghost predicate IsOccurrence<S>(moves: seq<Move<S>>, j: nat, name: string, k: nat) {
    j < |moves| && moves[j].name == name && CountNamed(moves, j, name) == k
  }

  /** The `k`-th move named `name` of actor `l.actor` leads to `t`. */
  ghost predicate Yields<S>(sys: System<S>, s: S, l: Label, k: nat, t: S) {
    l.actor < |sys.actors| &&
    exists j: nat :: IsOccurrence(sys.Moves(l.actor, s), j, l.move, k) && sys.Moves(l.actor, s)[j].state == t
  }

  lemma {:induction false} CountNamedGrows<S>(moves: seq<Move<S>>, i: nat, j: nat, name: string)
    requires i <= j <= |moves|
    ensures CountNamed(moves, i, name) <= CountNamed(moves, j, name)
    decreases j
  {
    if i < j {
      CountNamedGrows(moves, i, j - 1, name);
    }
  }

  /** A name and an ordinal single out one move, so a replay cannot pick another. */
  lemma {:induction false} OccurrenceIsUnique<S>(moves: seq<Move<S>>, i: nat, j: nat, name: string, k: nat)
    requires IsOccurrence(moves, i, name, k) && IsOccurrence(moves, j, name, k)
    ensures i == j
  {
    if i < j {
      CountNamedGrows(moves, i + 1, j, name);
    } else if j < i {
      CountNamedGrows(moves, j + 1, i, name);
    }
  }

  /** Actor `a`'s moves start where the expansion by the actors before it ends. */
  lemma {:induction false} ExpandActorsAt<S>(cfg: Config<S>, s: S, n: nat, a: nat, j: nat)
    requires a < n <= |cfg.sys.actors| && j < |cfg.sys.Moves(a, s)|
    ensures var p := |ExpandActors(cfg, s, a)| + j;
            p < |ExpandActors(cfg, s, n)| && ExpandActors(cfg, s, n)[p] == ToSucc(cfg, a, cfg.sys.Moves(a, s)[j])
    decreases n
  {
    if a < n - 1 {
      ExpandActorsAt(cfg, s, n - 1, a, j);
    }
  }

  /** Every successor comes from one move of one actor. */
  lemma {:induction false} LocateSucc<S>(cfg: Config<S>, s: S, n: nat, p: nat) returns (a: nat, j: nat)
    requires n <= |cfg.sys.actors| && p < |ExpandActors(cfg, s, n)|
    ensures a < n && j < |cfg.sys.Moves(a, s)|
    ensures p == |ExpandActors(cfg, s, a)| + j
    ensures ExpandActors(cfg, s, n)[p] == ToSucc(cfg, a, cfg.sys.Moves(a, s)[j])
    decreases n
  {
    var before := ExpandActors(cfg, s, n - 1);
    if p < |before| {
      a, j := LocateSucc(cfg, s, n - 1, p);
    } else {
      a, j := n - 1, p - |before|;
    }
  }

  /** Counting only looks at the counted prefix. */
  lemma {:induction false} CountLabelledPrefix<S>(succs: seq<Succ<S>>, more: seq<Succ<S>>, n: nat, l: Label)
    requires n <= |succs| <= |more| && succs == more[..|succs|]
    ensures CountLabelled(succs, n, l) == CountLabelled(more, n, l)
    decreases n
  {
    if n > 0 {
      CountLabelledPrefix(succs, more, n - 1, l);
    }
  }

  lemma {:induction false} NoneOfLaterActor<S>(cfg: Config<S>, s: S, n: nat, m: nat, l: Label)
    requires n <= |cfg.sys.actors| && m <= |ExpandActors(cfg, s, n)| && n <= l.actor
    ensures CountLabelled(ExpandActors(cfg, s, n), m, l) == 0
    decreases m
  {
    if m > 0 {
      var a, j := LocateSucc(cfg, s, n, m - 1);
      NoneOfLaterActor(cfg, s, n, m - 1, l);
    }
  }

  /** ExpandActors by fewer actors is a prefix of ExpandActors by more. */
  lemma {:induction false} ExpandActorsPrefix<S>(cfg: Config<S>, s: S, a: nat, n: nat)
    requires a <= n <= |cfg.sys.actors|
    ensures |ExpandActors(cfg, s, a)| <= |ExpandActors(cfg, s, n)|
    ensures ExpandActors(cfg, s, n)[..|ExpandActors(cfg, s, a)|] == ExpandActors(cfg, s, a)
    decreases n
  {
    if a < n {
      ExpandActorsPrefix(cfg, s, a, n - 1);
      var before := ExpandActors(cfg, s, n - 1);
      assert ExpandActors(cfg, s, n)[..|before|] == before;
    }
  }

  /** The ordinal a merge counts is the successor's place among its actor's like-named moves. */
  lemma {:induction false} OrdinalIsOccurrence<S>(cfg: Config<S>, s: S, a: nat, j: nat, name: string)
    requires a < |cfg.sys.actors| && j <= |cfg.sys.Moves(a, s)|
    requires |ExpandActors(cfg, s, a)| + j <= |Expand(cfg, s)|
    ensures CountLabelled(Expand(cfg, s), |ExpandActors(cfg, s, a)| + j, Label(a, name))
            == CountNamed(cfg.sys.Moves(a, s), j, name)
    decreases j
  {
    hide ExpandActors;
    var l := Label(a, name);
    var base := ExpandActors(cfg, s, a);
    if j == 0 {
      NoneOfLaterActor(cfg, s, a, |base|, l);
      ExpandActorsPrefix(cfg, s, a, |cfg.sys.actors|);
      CountLabelledPrefix(base, Expand(cfg, s), |base|, l);
    } else {
      OrdinalIsOccurrence(cfg, s, a, j - 1, name);
      ExpandActorsAt(cfg, s, |cfg.sys.actors|, a, j - 1);
    }
  }

  /** What the merge records about a successor identifies it. */
  lemma {:induction false} SuccYields<S>(cfg: Config<S>, s: S, p: nat)
    requires p < |Expand(cfg, s)|
    ensures var succs := Expand(cfg, s);
            Yields(cfg.sys, s, LabelOf(succs[p]), CountLabelled(succs, p, LabelOf(succs[p])), succs[p].state)
  {
    var a, j := LocateSucc(cfg, s, |cfg.sys.actors|, p);
    var m := cfg.sys.Moves(a, s)[j];
    OrdinalIsOccurrence(cfg, s, a, j, m.name);
    assert IsOccurrence(cfg.sys.Moves(a, s), j, m.name, CountLabelled(Expand(cfg, s), p, Label(a, m.name)));
  }

  /** A state's successors are exactly the states one step away. */
  lemma {:induction false} SuccIffStep<S>(cfg: Config<S>, s: S, a: nat, t: S)
    ensures Steps(cfg.sys, a, s, t) <==>
            exists p :: 0 <= p < |Expand(cfg, s)| && Expand(cfg, s)[p].actor == a && Expand(cfg, s)[p].state == t
  {
    if Steps(cfg.sys, a, s, t) {
      var j :| 0 <= j < |cfg.sys.Moves(a, s)| && cfg.sys.Moves(a, s)[j].state == t;
      ExpandActorsAt(cfg, s, |cfg.sys.actors|, a, j);
      assert Expand(cfg, s)[|ExpandActors(cfg, s, a)| + j].state == t;
    }
    forall p | 0 <= p < |Expand(cfg, s)| && Expand(cfg, s)[p].actor == a && Expand(cfg, s)[p].state == t
      ensures Steps(cfg.sys, a, s, t)
    {
      var a', j := LocateSucc(cfg, s, |cfg.sys.actors|, p);
    }
  }

  // ----- The moves of a state -----

  /** A move and the actor that makes it. */
  datatype Offer<+S> = Offer(actor: nat, move: Move<S>)

  /** The moves of `s` by the actors from `a` on, each actor's in the order it yields them. */
  function OffersFrom<S>(sys: System<S>, s: S, a: nat): seq<Offer<S>>
    requires a <= |sys.actors|
    decreases |sys.actors| - a
  {
    if a == |sys.actors| then []
    else
      var moves := sys.Moves(a, s);
      seq(|moves|, j requires 0 <= j < |moves| => Offer(a, moves[j])) + OffersFrom(sys, s, a + 1)
  }

  /** Every move of `s`. */
  function Offers<S>(sys: System<S>, s: S): seq<Offer<S>> {
    OffersFrom(sys, s, 0)
  }

  ghost function SuccsOfOffers<S>(cfg: Config<S>, offers: seq<Offer<S>>): seq<Succ<S>> {
    seq(|offers|, j requires 0 <= j < |offers| => ToSucc(cfg, offers[j].actor, offers[j].move))
  }

  lemma {:induction false} ExpandFrom<S>(cfg: Config<S>, s: S, a: nat)
    requires a <= |cfg.sys.actors|
    ensures Expand(cfg, s) == ExpandActors(cfg, s, a) + SuccsOfOffers(cfg, OffersFrom(cfg.sys, s, a))
    decreases |cfg.sys.actors| - a
  {
    if a < |cfg.sys.actors| {
      ExpandFrom(cfg, s, a + 1);
      var here := SuccsOf(cfg, a, cfg.sys.Moves(a, s));
      var rest := OffersFrom(cfg.sys, s, a + 1);
      assert SuccsOfOffers(cfg, OffersFrom(cfg.sys, s, a)) == here + SuccsOfOffers(cfg, rest);
      assert ExpandActors(cfg, s, a + 1) == ExpandActors(cfg, s, a) + here;
    }
  }

  /** The successors of a state are all its moves, actor by actor, each actor's in its own order. */
  lemma {:induction false} ExpandIsOffers<S>(cfg: Config<S>, s: S)
    ensures var succs, offers := Expand(cfg, s), Offers(cfg.sys, s);
            && |succs| == |offers|
            && forall j | 0 <= j < |offers| ::
                 && succs[j].actor == offers[j].actor && succs[j].move == offers[j].move.name
                 && succs[j].state == offers[j].move.state
                 && Identify(cfg.exact, succs[j].hash, succs[j].key) == cfg.Id(offers[j].move.state)
  {
    ExpandFrom(cfg, s, 0);
  }
}
