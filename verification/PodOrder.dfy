/** Pods as the workload simulators see them, and the order in which they are deleted (ctrltest/workload.go). */
module PodOrder {
  import opened Wrappers

  datatype Controller = Controller(apiVersion: string, kind: string, uid: nat)

  /**
   A pod of one namespace. `revision` is the value of the label a workload marks its pods with;
   `held` says that something keeps a deleted pod around for a while.
   */
  datatype Pod = Pod(name: string, controller: Option<Controller>, revision: string, ready: bool,
                     terminating: bool, held: bool)

  // ----- Names in the order of their characters -----

  predicate Below(a: string, b: string) {
    if |b| == 0 then false
    else if |a| == 0 then true
    else if a[0] != b[0] then a[0] < b[0]
    else Below(a[1..], b[1..])
  }

  lemma {:induction false} BelowTrichotomy(a: string, b: string)
    ensures a == b ==> !Below(a, b)
    ensures a != b ==> (Below(a, b) <==> !Below(b, a))
  {
    if |a| > 0 && |b| > 0 && a[0] == b[0] {
      BelowTrichotomy(a[1..], b[1..]);
      assert a == [a[0]] + a[1..] && b == [b[0]] + b[1..];
    }
  }

  lemma {:induction false} BelowTransitive(a: string, b: string, c: string)
    requires Below(a, b) && Below(b, c)
    ensures Below(a, c)
  {
    if |a| > 0 && a[0] == b[0] == c[0] {
      BelowTransitive(a[1..], b[1..], c[1..]);
    }
  }

  // ----- Which pod goes first -----

  /** Pods not at `revision` first, then those not ready, then the higher name. */
  predicate Sooner(revision: string, p: Pod, q: Pod) {
    if (p.revision != revision) != (q.revision != revision) then p.revision != revision
    else if p.ready != q.ready then !p.ready
    else Below(q.name, p.name)
  }

  lemma {:induction false} SoonerTrichotomy(revision: string, p: Pod, q: Pod)
    ensures p.name == q.name && p == q ==> !Sooner(revision, p, q)
    ensures p.name != q.name ==> (Sooner(revision, p, q) <==> !Sooner(revision, q, p))
  {
    BelowTrichotomy(p.name, q.name);
  }

  lemma {:induction false} SoonerTransitive(revision: string, p: Pod, q: Pod, r: Pod)
    requires Sooner(revision, p, q) && Sooner(revision, q, r)
    ensures Sooner(revision, p, r)
  {
    if Below(q.name, p.name) && Below(r.name, q.name) {
      BelowTransitive(r.name, q.name, p.name);
    }
  }

  ghost predicate DistinctNames(ps: seq<Pod>) {
    forall i, j | 0 <= i < j < |ps| :: ps[i].name != ps[j].name
  }

  ghost predicate InOrder(revision: string, ps: seq<Pod>) {
    forall i, j | 0 <= i < j < |ps| :: Sooner(revision, ps[i], ps[j])
  }

  function Insert(revision: string, p: Pod, ps: seq<Pod>): seq<Pod> {
    if |ps| == 0 || Sooner(revision, p, ps[0]) then [p] + ps
    else [ps[0]] + Insert(revision, p, ps[1..])
  }

  /** The pods in the order they are deleted in. */
  function DeletionPriority(revision: string, ps: seq<Pod>): seq<Pod> {
    if |ps| == 0 then [] else Insert(revision, ps[0], DeletionPriority(revision, ps[1..]))
  }

  lemma {:induction false} InsertKeeps(revision: string, p: Pod, ps: seq<Pod>)
    ensures multiset(Insert(revision, p, ps)) == multiset([p]) + multiset(ps)
  {
    if |ps| > 0 && !Sooner(revision, p, ps[0]) {
      InsertKeeps(revision, p, ps[1..]);
      assert ps == [ps[0]] + ps[1..];
    }
  }

  lemma {:induction false} InsertInOrder(revision: string, p: Pod, ps: seq<Pod>)
    requires InOrder(revision, ps) && forall q | q in ps :: q.name != p.name
    ensures InOrder(revision, Insert(revision, p, ps))
  {
    if |ps| > 0 {
      if Sooner(revision, p, ps[0]) {
        forall j | 0 <= j < |ps| ensures Sooner(revision, p, ps[j]) {
          if j > 0 {
            SoonerTransitive(revision, p, ps[0], ps[j]);
          }
        }
      } else {
        var rest := Insert(revision, p, ps[1..]);
        InsertInOrder(revision, p, ps[1..]);
        InsertKeeps(revision, p, ps[1..]);
        SoonerTrichotomy(revision, p, ps[0]);
        forall j | 0 <= j < |rest| ensures Sooner(revision, ps[0], rest[j]) {
          assert rest[j] in multiset(rest);
          assert rest[j] == p || rest[j] in ps[1..];
        }
      }
    }
  }

  /** Sorting permutes, and leaves every pod before those to be deleted later. */
  lemma {:induction false} DeletionPrioritySorts(revision: string, ps: seq<Pod>)
    requires DistinctNames(ps)
    ensures multiset(DeletionPriority(revision, ps)) == multiset(ps)
    ensures InOrder(revision, DeletionPriority(revision, ps))
  {
    if |ps| > 0 {
      var rest := DeletionPriority(revision, ps[1..]);
      DeletionPrioritySorts(revision, ps[1..]);
      InsertKeeps(revision, ps[0], rest);
      assert ps == [ps[0]] + ps[1..];
      forall q | q in rest ensures q.name != ps[0].name {
        assert q in multiset(rest);
        assert q in ps[1..];
      }
      InsertInOrder(revision, ps[0], rest);
    }
  }

  /** All pods are ready, and there is at least one. */
  predicate EveryPodReady(ps: seq<Pod>) {
    |ps| > 0 && forall p | p in ps :: p.ready
  }
}
