/** The store of pods that the workload simulators act on. */
module PodStore {
  import opened PodOrder

  /** The pods of one namespace, by name. */
  type Pods = map<string, Pod>

  ghost predicate Keyed(s: Pods) { forall n | n in s :: s[n].name == n }

  /** After deleting `gone`: pods that nothing holds vanish, the others start terminating. */
  function Deleted(s: Pods, gone: set<string>): Pods {
    map n | n in s && (n !in gone || s[n].held) :: if n in gone then s[n].(terminating := true) else s[n]
  }

  /** What the pod status tick makes of it: every pod settled before this sweep is as ready as it is healthy. */
  function Ticked(s: Pods, born: set<string>, healthy: Pod -> bool): Pods {
    map n | n in s :: if s[n].terminating || n in born then s[n] else s[n].(ready := healthy(s[n]))
  }

  /**
   What a sweep makes of the pods one by one: a new one is not ready yet, one that is going stays as it
   was, and any other shows its health.
   */
  ghost predicate ShowsHealth(s: Pods, u: Pods, healthy: Pod -> bool) {
    forall n | n in u ::
      if n !in s then !u[n].ready && !u[n].terminating
      else if u[n].terminating then u[n] == s[n].(terminating := true)
      else u[n] == s[n].(ready := healthy(s[n]))
  }

  /** A step changes a pod at most by deleting it, and one it creates is as good as new. */
  ghost predicate KeepsOrDeletes(s: Pods, t: Pods, born: set<string>) {
    && born !! s.Keys
    && forall n | n in t ::
         if n in s then t[n] == s[n] || t[n] == s[n].(terminating := true)
         else n in born && !t[n].ready && !t[n].terminating
  }

  lemma {:induction false} TickShowsHealth(s: Pods, t: Pods, born: set<string>, healthy: Pod -> bool)
    requires KeepsOrDeletes(s, t, born)
    ensures ShowsHealth(s, Ticked(t, born, healthy), healthy)
  {
  }

  ghost predicate Healthy(healthy: Pod -> bool) { forall p :: healthy(p) }
}
