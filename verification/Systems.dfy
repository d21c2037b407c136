/**
 A system to be checked: initial states, actors that each yield the successors of a state
 under named moves, and properties (modelcheck/modelcheck.go). Reachability is defined here
 on the system itself, independently of any search.
 */
module Systems {
  import opened Wrappers
  import opened Index

  datatype Move<+S> = Move(name: string, state: S)

  datatype Actor<!S> = Actor(name: string, moves: S -> seq<Move<S>>)

  /** `actors` names the actors expected to do the recovering; none named means all of them. */
  datatype Recoverable<!S> = Recoverable(name: string, goal: S -> bool, actors: seq<string>)

  datatype Invariant<!S> = Invariant(name: string, ok: S -> bool)

  /** `hash` stands for the first 128 bits of a key's SHA-256. */
  datatype System<!S> = System(
    initial: seq<S>,
    actors: seq<Actor<S>>,
    key: S -> string,
    hash: string -> Hash128,
    invariants: seq<Invariant<S>>,
    recoverables: seq<Recoverable<S>>)
  {
    function Id(exact: bool, s: S): Ident {
      Identify(exact, hash(key(s)), key(s))
    }

    function Moves(a: nat, s: S): seq<Move<S>>
      requires a < |actors|
    {
      actors[a].moves(s)
    }
  }

  /** In exact-key mode states are told apart by their keys, and otherwise by the hashes of their keys. */
  lemma {:induction false} IdentityMeaning<S>(sys: System<S>, exact: bool, s: S, t: S)
    ensures sys.Id(exact, s) == sys.Id(exact, t)
            <==> if exact then sys.key(s) == sys.key(t) else sys.hash(sys.key(s)) == sys.hash(sys.key(t))
  {
  }

  /** One move of actor `a` leads from `s` to `t`. */
  ghost predicate Steps<S>(sys: System<S>, a: nat, s: S, t: S) {
    a < |sys.actors| && exists j | 0 <= j < |sys.Moves(a, s)| :: sys.Moves(a, s)[j].state == t
  }

  /** Some run of exactly `n` moves leads from an initial state to `s`. */
  ghost predicate ReachableIn<S(!new)>(sys: System<S>, s: S, n: nat) {
    if n == 0 then s in sys.initial
    else exists a, t :: ReachableIn(sys, t, n - 1) && Steps(sys, a, t, s)
  }

  /** Some run of at most `n` moves by allowed actors leads from `s` to a goal state. */
  ghost predicate RecoversIn<S(!new)>(sys: System<S>, allowed: set<nat>, goal: S -> bool, s: S, n: nat) {
    goal(s) || (n > 0 && exists a, t :: a in allowed && Steps(sys, a, s, t) && RecoversIn(sys, allowed, goal, t, n - 1))
  }

  ghost predicate Recovers<S(!new)>(sys: System<S>, allowed: set<nat>, goal: S -> bool, s: S) {
    exists n :: RecoversIn(sys, allowed, goal, s, n)
  }

  /** Two states are told apart by nothing but their identity: same moves, same properties. */
  ghost predicate Alike<S>(sys: System<S>, exact: bool, s: S, t: S) {
    && (forall a | 0 <= a < |sys.actors| ::
          && |sys.Moves(a, s)| == |sys.Moves(a, t)|
          && forall j | 0 <= j < |sys.Moves(a, s)| ::
               && sys.Moves(a, s)[j].name == sys.Moves(a, t)[j].name
               && sys.Id(exact, sys.Moves(a, s)[j].state) == sys.Id(exact, sys.Moves(a, t)[j].state))
    && (forall r | 0 <= r < |sys.recoverables| :: sys.recoverables[r].goal(s) == sys.recoverables[r].goal(t))
    && (forall i | 0 <= i < |sys.invariants| :: sys.invariants[i].ok(s) == sys.invariants[i].ok(t))
  }

  ghost predicate Reachable<S(!new)>(sys: System<S>, s: S) {
    exists n: nat :: ReachableIn(sys, s, n)
  }

  /**
   The contract a model owes the search: reachable states with one identity are the same state.
   With hashed keys this also says that no two reachable states of the model collide.
   */
  ghost predicate IdentityDecides<S(!new)>(sys: System<S>, exact: bool) {
    forall s, t :: Reachable(sys, s) && Reachable(sys, t) && sys.Id(exact, s) == sys.Id(exact, t) ==> Alike(sys, exact, s, t)
  }

  /** Injective keys meet the contract: by themselves, or through hashes that tell the reachable states apart. */
  lemma {:induction false} InjectiveKeysDecide<S(!new)>(sys: System<S>, exact: bool)
    requires forall s, t :: Reachable(sys, s) && Reachable(sys, t) && sys.key(s) == sys.key(t) ==> s == t
    requires !exact ==> forall s, t :: Reachable(sys, s) && Reachable(sys, t) && sys.hash(sys.key(s)) == sys.hash(sys.key(t))
                                       ==> sys.key(s) == sys.key(t)
    ensures IdentityDecides(sys, exact)
  {
    forall s, t | Reachable(sys, s) && Reachable(sys, t) && sys.Id(exact, s) == sys.Id(exact, t)
      ensures Alike(sys, exact, s, t)
    {
      assert sys.key(s) == sys.key(t) ==> s == t;
    }
  }

  lemma {:induction false} StepsStayReachable<S(!new)>(sys: System<S>, a: nat, s: S, t: S)
    requires Reachable(sys, s) && Steps(sys, a, s, t)
    ensures Reachable(sys, t)
  {
    var n: nat :| ReachableIn(sys, s, n);
    assert ReachableIn(sys, t, n + 1);
  }

  /** A step from a state can be repeated from any state with the same identity. */
  lemma {:induction false} StepFromTwin<S(!new)>(sys: System<S>, exact: bool, a: nat, s: S, t: S, twin: S) returns (j: nat)
    requires IdentityDecides(sys, exact) && Steps(sys, a, s, t)
    requires Reachable(sys, s) && Reachable(sys, twin) && sys.Id(exact, s) == sys.Id(exact, twin)
    ensures j < |sys.Moves(a, twin)|
    ensures sys.Id(exact, sys.Moves(a, twin)[j].state) == sys.Id(exact, t)
  {
    assert Alike(sys, exact, s, twin);
    j :| 0 <= j < |sys.Moves(a, s)| && sys.Moves(a, s)[j].state == t;
  }

  /** Whether a goal can be recovered depends only on a state's identity. */
  lemma {:induction false} RecoveryOfTwin<S(!new)>(
      sys: System<S>, exact: bool, allowed: set<nat>, r: nat, s: S, twin: S, n: nat)
    requires IdentityDecides(sys, exact) && r < |sys.recoverables|
    requires Reachable(sys, s) && Reachable(sys, twin) && sys.Id(exact, s) == sys.Id(exact, twin)
    requires RecoversIn(sys, allowed, sys.recoverables[r].goal, s, n)
    ensures RecoversIn(sys, allowed, sys.recoverables[r].goal, twin, n)
    decreases n
  {
    var goal := sys.recoverables[r].goal;
    assert Alike(sys, exact, s, twin);
    if !goal(s) {
      var a, t :| a in allowed && Steps(sys, a, s, t) && RecoversIn(sys, allowed, goal, t, n - 1);
      var j := StepFromTwin(sys, exact, a, s, t, twin);
      var t' := sys.Moves(a, twin)[j].state;
      assert Steps(sys, a, twin, t');
      StepsStayReachable(sys, a, s, t);
      StepsStayReachable(sys, a, twin, t');
      RecoveryOfTwin(sys, exact, allowed, r, t, t', n - 1);
    }
  }
}
