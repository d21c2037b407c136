/**
 What a fault does to a pod, in terms of the fault and the pod's spec alone: its phase, its address,
 and what each container is doing (ctrltest/podfault.go:127-279).
 */
module PodFaults {
  import opened Wrappers
  import opened PodStatus

  predicate OffNode(f: Fault) { f.Fault? && f.unscheduled }

  predicate Crashing(f: Fault, name: string) { f.Fault? && name in f.crashLoop }

  predicate Faulty(f: Fault, name: string) { f.Fault? && (name in f.crashLoop || name in f.notReady) }

  /** An init container that never finishes, or, a sidecar, never starts. */
  predicate HoldsBack(c: Container, f: Fault) {
    if c.sidecar then Crashing(f, c.name) else Faulty(f, c.name)
  }

  /** One of the first `n` init containers holds back what comes after it. */
  ghost predicate HeldBack(spec: PodSpec, f: Fault, n: nat)
    requires n <= |spec.inits|
  {
    exists i :: 0 <= i < n && HoldsBack(spec.inits[i], f)
  }

  lemma {:induction false} HeldBackIsBlocked(spec: PodSpec, f: Fault, n: nat)
    requires n <= |spec.inits|
    ensures Blocked(spec.inits[..n], f) <==> HeldBack(spec, f, n)
  {
    hide HealthOf, HoldsBack, Blocks;
    forall i | 0 <= i < n ensures Blocks(spec.inits[..n][i], HealthOf(f, spec.inits[i].name)) <==> HoldsBack(spec.inits[i], f) {
      SameBlocks(spec.inits[i], f);
    }
    if HeldBack(spec, f, n) {
      var i :| 0 <= i < n && HoldsBack(spec.inits[i], f);
      assert spec.inits[..n][i] == spec.inits[i];
    }
  }

  lemma {:induction false} SameBlocks(c: Container, f: Fault)
    ensures Blocks(c, HealthOf(f, c.name)) <==> HoldsBack(c, f)
    ensures HealthOf(f, c.name).CrashLoop? <==> Crashing(f, c.name)
    ensures HealthOf(f, c.name).Healthy? <==> !Faulty(f, c.name)
  {
  }

  /**
   A pod runs if and only if it is on a node and none of its init containers holds the rest back, and
   its conditions say so.
   */
  lemma {:induction false} PhaseMeaning(spec: PodSpec, st: Status, f: Fault, now: nat, ip: nat)
    ensures var next := PodStatusOf(spec, st, f, now, ip);
            && (next.phase.Running? <==> !OffNode(f) && !HeldBack(spec, f, |spec.inits|))
            && (ConditionTrue(next.conditions, SCHEDULED) <==> !OffNode(f))
            && (ConditionTrue(next.conditions, INITIALIZED) <==> next.phase.Running?)
            && (ConditionTrue(next.conditions, CONTAINERS_READY) <==>
                 && next.phase.Running?
                 && (forall i | 0 <= i < |spec.inits| :: !Faulty(f, spec.inits[i].name))
                 && forall i | 0 <= i < |spec.mains| :: !Faulty(f, spec.mains[i].name))
  {
    hide SetCondition, AllReady, InitStatuses, MainStatuses, Blocked, Conditions, HeldBack, HealthOf, Faulty;
    assert spec.inits[..|spec.inits|] == spec.inits;
    HeldBackIsBlocked(spec, f, |spec.inits|);
    ContainersReadyMeaning(spec, st, f, now);
    forall i | 0 <= i < |spec.inits| ensures HealthOf(f, spec.inits[i].name).Healthy? <==> !Faulty(f, spec.inits[i].name) {
      SameBlocks(spec.inits[i], f);
    }
    forall i | 0 <= i < |spec.mains| ensures HealthOf(f, spec.mains[i].name).Healthy? <==> !Faulty(f, spec.mains[i].name) {
      SameBlocks(spec.mains[i], f);
    }
    var blocked := Blocked(spec.inits, f);
    if OffNode(f) {
      ConditionsSay(st.conditions, false, "Unschedulable", false, "", false, false, "ContainersNotReady", now, "");
    } else {
      var containersReady := !blocked && AllReady(spec, f, InitStatuses(spec.inits, st.inits, f, now),
                                                  MainStatuses(spec.mains, st.mains, blocked, f, now));
      var gatesReady := GatesReady(spec, st.conditions);
      ConditionsSay(st.conditions, true, "", !blocked, if blocked then "ContainersNotInitialized" else "",
                    containersReady, containersReady && gatesReady, WhyNotReady(containersReady, gatesReady), now, "");
    }
  }

  /** On a node a pod keeps its address and start time, and is given them once; off it, it has neither, nor containers. */
  lemma {:induction false} PlaceMeaning(spec: PodSpec, st: Status, f: Fault, now: nat, ip: nat)
    ensures var next := PodStatusOf(spec, st, f, now, ip);
            if OffNode(f) then next.ip.None? && next.start.None? && next.inits == [] && next.mains == []
            else
              && next.ip == (if st.ip.Some? then st.ip else Some(ip))
              && next.start == (if st.start.Some? then st.start else Some(now))
              && |next.inits| == |spec.inits| && |next.mains| == |spec.mains|
  {
    hide Conditions, InitStatuses, MainStatuses, Blocked, AllReady;
  }

  // ----- What a container is doing -----

  /** What is known of a container from its status before. */
  ghost predicate Continues(c: Container, prev: Option<ContainerStatus>, cs: ContainerStatus, now: nat) {
    && cs.name == c.name && cs.image == c.image
    && (cs.state.Up? ==> cs.state == if prev.Some? && prev.value.state.Up? then prev.value.state else Up(now))
    && (cs.state.Down? ==>
          cs.state == if prev.Some? && prev.value.state.Down? && prev.value.state.end.exitCode == 0
                      then prev.value.state else Down(Ended(0, "Completed", now)))
    && (cs.state != Waiting("CrashLoopBackOff") ==> Carried(prev, cs))
  }

  /** Restarts and the last end are as they were. */
  ghost predicate Carried(prev: Option<ContainerStatus>, cs: ContainerStatus) {
    if prev.None? then cs.restarts == 0 && cs.last.None?
    else cs.restarts == prev.value.restarts && cs.last == prev.value.last
  }

  /**
   A crash-looping container is never overdue: it has just ended once more if it never had or if its
   backoff was over, and otherwise is waiting for the backoff to be.
   */
  ghost predicate BacksOff(prev: Option<ContainerStatus>, cs: ContainerStatus, now: nat) {
    && cs.last.Some? && now - cs.last.value.at < Backoff(cs.restarts)
    && (|| Carried(prev, cs)
        || (cs.last == Some(Ended(1, "Error", now)) && cs.restarts == 1 + (if prev.None? then 0 else prev.value.restarts)
            && (prev.None? || prev.value.last.None? || now - prev.value.last.value.at >= Backoff(prev.value.restarts))))
  }

  /** The container's status fits what holds it back, its own fault and its status so far. */
  ghost predicate Fits(c: Container, prev: Option<ContainerStatus>, cs: ContainerStatus, held: bool, finishes: bool, f: Fault, now: nat) {
    && Continues(c, prev, cs, now)
    && (held <==> cs.state == Waiting("PodInitializing"))
    && (!held && Crashing(f, c.name) <==> cs.state == Waiting("CrashLoopBackOff"))
    && (!held && finishes && !Faulty(f, c.name) <==> cs.state.Down?)
    && (!held && !Crashing(f, c.name) && !(finishes && !Faulty(f, c.name)) <==> cs.state.Up?)
    && (cs.started <==> cs.state.Up?)
    && (cs.ready <==> !held && !Faulty(f, c.name))
    && (cs.state == Waiting("CrashLoopBackOff") ==> BacksOff(prev, cs, now))
  }

  lemma {:induction false} BackoffIsSome(restarts: nat)
    ensures 10 <= Backoff(restarts) <= 300
  {
    if restarts > 0 {
      Pow2Grows(0, restarts - 1);
    }
  }

  /** The first two waits are ten seconds, each further one twice as long, up to five minutes. */
  lemma {:induction false} BackoffDoubles(restarts: nat)
    ensures Backoff(0) == Backoff(1) == 10
    ensures restarts > 0 ==> Backoff(restarts + 1) == Min(2 * Backoff(restarts), 300)
  {
    assert Pow2(0) == 1;
  }

  lemma {:induction false} RunningFits(c: Container, prev: Option<ContainerStatus>, f: Fault, now: nat)
    ensures Fits(c, prev, RunningStatus(c, prev, HealthOf(f, c.name), now), false, false, f, now)
  {
    assert "CrashLoopBackOff"[0] != "PodInitializing"[0];
    var cs := RunningStatus(c, prev, HealthOf(f, c.name), now);
    hide Backoff;
    BackoffIsSome(cs.restarts);
  }

  lemma {:induction false} WaitingFits(c: Container, prev: Option<ContainerStatus>, finishes: bool, f: Fault, now: nat)
    ensures Fits(c, prev, WaitingStatus(c, prev, "PodInitializing"), true, finishes, f, now)
  {
    assert "CrashLoopBackOff"[0] != "PodInitializing"[0];
  }

  /** Every container is doing what the fault and the init containers before it let it do. */
  lemma {:induction false} ContainersMeaning(spec: PodSpec, st: Status, f: Fault, now: nat, ip: nat)
    requires !OffNode(f)
    ensures var next := PodStatusOf(spec, st, f, now, ip);
            && |next.inits| == |spec.inits| && |next.mains| == |spec.mains|
            && (forall i | 0 <= i < |spec.inits| ::
                  Fits(spec.inits[i], Find(st.inits, spec.inits[i].name), next.inits[i], HeldBack(spec, f, i), !spec.inits[i].sidecar, f, now))
            && forall i | 0 <= i < |spec.mains| ::
                 Fits(spec.mains[i], Find(st.mains, spec.mains[i].name), next.mains[i], HeldBack(spec, f, |spec.inits|), false, f, now)
  {
    hide Conditions, Blocked, AllReady, HeldBack, Fits, Find, HealthOf;
    var next := PodStatusOf(spec, st, f, now, ip);
    forall i | 0 <= i < |spec.inits|
      ensures Fits(spec.inits[i], Find(st.inits, spec.inits[i].name), next.inits[i], HeldBack(spec, f, i), !spec.inits[i].sidecar, f, now)
    {
      HeldBackIsBlocked(spec, f, i);
      InitFits(spec.inits[i], Find(st.inits, spec.inits[i].name), HeldBack(spec, f, i), f, now);
    }
    assert spec.inits[..|spec.inits|] == spec.inits;
    HeldBackIsBlocked(spec, f, |spec.inits|);
    forall i | 0 <= i < |spec.mains|
      ensures Fits(spec.mains[i], Find(st.mains, spec.mains[i].name), next.mains[i], HeldBack(spec, f, |spec.inits|), false, f, now)
    {
      RunningFits(spec.mains[i], Find(st.mains, spec.mains[i].name), f, now);
      WaitingFits(spec.mains[i], Find(st.mains, spec.mains[i].name), false, f, now);
    }
  }

  lemma {:induction false} InitFits(c: Container, prev: Option<ContainerStatus>, held: bool, f: Fault, now: nat)
    ensures Fits(c, prev, InitStatus(c, prev, held, HealthOf(f, c.name), now), held, !c.sidecar, f, now)
  {
    RunningFits(c, prev, f, now);
    WaitingFits(c, prev, !c.sidecar, f, now);
  }
}
