/** The status kubelet would report for a pod under a fault (ctrltest/podfault.go). */
module PodStatus {
  import opened Wrappers

  // ----- Faults and containers -----

  datatype Fault = NoFault | Fault(unscheduled: bool, notReady: seq<string>, crashLoop: seq<string>)

  datatype Health = Healthy | NotReady | CrashLoop

  function HealthOf(f: Fault, name: string): Health {
    if f.NoFault? then Healthy
    else if name in f.crashLoop then CrashLoop
    else if name in f.notReady then NotReady
    else Healthy
  }

  datatype Container = Container(name: string, image: string, sidecar: bool)

  datatype PodSpec = PodSpec(inits: seq<Container>, mains: seq<Container>, gates: seq<string>)

  datatype Ended = Ended(exitCode: int, reason: string, at: nat)

  datatype State = Waiting(reason: string) | Up(since: nat) | Down(end: Ended)

  datatype ContainerStatus = ContainerStatus(name: string, image: string, ready: bool, started: bool,
                                             restarts: nat, last: Option<Ended>, state: State)

  function Find(list: seq<ContainerStatus>, name: string): Option<ContainerStatus> {
    if |list| == 0 then None
    else if list[0].name == name then Some(list[0])
    else Find(list[1..], name)
  }

  // ----- Restart backoff -----

  function Pow2(n: nat): nat { if n == 0 then 1 else 2 * Pow2(n - 1) }

  /** In seconds: ten, doubling with every restart after the first, and never more than five minutes. */
  function Backoff(restarts: nat): nat {
    if restarts == 0 then 10 else Min(10 * Pow2(restarts - 1), 300)
  }

  lemma {:induction false} Pow2Grows(m: nat, n: nat)
    requires m <= n
    ensures Pow2(m) <= Pow2(n)
  {
    if m < n {
      Pow2Grows(m, n - 1);
    }
  }

  method CrashLoopBackoff(restarts: nat) returns (d: nat)
    ensures d == Backoff(restarts)
  {
    d := 10;
    var i := 1;
    while i < restarts && d < 300
      invariant 1 <= i && (i <= restarts || i == 1)
      invariant d == 10 * Pow2(i - 1)
    {
      d := d * 2;
      i := i + 1;
    }
    if restarts > 0 {
      Pow2Grows(i - 1, restarts - 1);
    }
    d := Min(d, 300);
  }

  // ----- One container -----

  function Base(c: Container, prev: Option<ContainerStatus>): ContainerStatus {
    ContainerStatus(c.name, c.image, false, false,
                    if prev.Some? then prev.value.restarts else 0, if prev.Some? then prev.value.last else None, Waiting(""))
  }

  function WaitingStatus(c: Container, prev: Option<ContainerStatus>, reason: string): ContainerStatus {
    Base(c, prev).(state := Waiting(reason))
  }

  /** A restart is due: the container has not ended yet, or its backoff is over. */
  predicate Due(cs: ContainerStatus, now: int) {
    cs.last.None? || now - cs.last.value.at >= Backoff(cs.restarts)
  }

  function RunningStatus(c: Container, prev: Option<ContainerStatus>, h: Health, now: nat): ContainerStatus {
    var cs := Base(c, prev);
    if h.CrashLoop? then
      var waiting := cs.(state := Waiting("CrashLoopBackOff"));
      if Due(cs, now) then waiting.(restarts := cs.restarts + 1, last := Some(Ended(1, "Error", now))) else waiting
    else
      cs.(started := true, ready := h.Healthy?,
          state := if prev.Some? && prev.value.state.Up? then prev.value.state else Up(now))
  }

  function CompletedStatus(c: Container, prev: Option<ContainerStatus>, now: nat): ContainerStatus {
    Base(c, prev).(ready := true,
                   state := if prev.Some? && prev.value.state.Down? && prev.value.state.end.exitCode == 0
                            then prev.value.state else Down(Ended(0, "Completed", now)))
  }

  /** An init container: waiting behind a blocked one, running on as a sidecar, or on its way to completion. */
  function InitStatus(c: Container, prev: Option<ContainerStatus>, blocked: bool, h: Health, now: nat): ContainerStatus {
    if blocked then WaitingStatus(c, prev, "PodInitializing")
    else if c.sidecar then RunningStatus(c, prev, h, now)
    else if h.Healthy? then CompletedStatus(c, prev, now)
    else RunningStatus(c, prev, h, now)
  }

  function MainStatus(c: Container, prev: Option<ContainerStatus>, blocked: bool, h: Health, now: nat): ContainerStatus {
    if blocked then WaitingStatus(c, prev, "PodInitializing") else RunningStatus(c, prev, h, now)
  }

  /** The init container holds back everything after it: it has not completed or, a sidecar, not started. */
  predicate Blocks(c: Container, h: Health) {
    if c.sidecar then h.CrashLoop? else !h.Healthy?
  }

  predicate Blocked(inits: seq<Container>, f: Fault) {
    exists i :: 0 <= i < |inits| && Blocks(inits[i], HealthOf(f, inits[i].name))
  }

  function InitStatuses(inits: seq<Container>, prev: seq<ContainerStatus>, f: Fault, now: nat): (out: seq<ContainerStatus>)
    ensures |out| == |inits|
  {
    seq(|inits|, i requires 0 <= i < |inits| =>
      InitStatus(inits[i], Find(prev, inits[i].name), Blocked(inits[..i], f), HealthOf(f, inits[i].name), now))
  }

  function MainStatuses(mains: seq<Container>, prev: seq<ContainerStatus>, blocked: bool, f: Fault, now: nat): (out: seq<ContainerStatus>)
    ensures |out| == |mains|
  {
    seq(|mains|, i requires 0 <= i < |mains| =>
      MainStatus(mains[i], Find(prev, mains[i].name), blocked, HealthOf(f, mains[i].name), now))
  }

  // ----- Conditions -----

  datatype Truth = Yes | No | Unknown

  datatype Condition = Condition(typ: string, status: Truth, reason: string, since: nat)

  function Verdict(ok: bool): Truth { if ok then Yes else No }

  /** The first condition of this type takes the status and reason, and a new time if the status changed. */
  function SetCondition(conds: seq<Condition>, t: string, ok: bool, reason: string, now: nat): seq<Condition> {
    if |conds| == 0 then [Condition(t, Verdict(ok), reason, now)]
    else if conds[0].typ == t then
      var c := conds[0];
      [Condition(t, Verdict(ok), reason, if c.status != Verdict(ok) then now else c.since)] + conds[1..]
    else [conds[0]] + SetCondition(conds[1..], t, ok, reason, now)
  }

  /** The first condition of this type, if there is one. */
  function ConditionOf(conds: seq<Condition>, t: string): Option<Condition> {
    if |conds| == 0 then None
    else if conds[0].typ == t then Some(conds[0])
    else ConditionOf(conds[1..], t)
  }

  predicate ConditionTrue(conds: seq<Condition>, t: string) {
    var c := ConditionOf(conds, t);
    c.Some? && c.value.status.Yes?
  }

  predicate Says(conds: seq<Condition>, t: string, ok: bool, reason: string) {
    var c := ConditionOf(conds, t);
    c.Some? && c.value.status == Verdict(ok) && c.value.reason == reason
  }

  lemma {:induction false} SetSays(conds: seq<Condition>, t: string, ok: bool, reason: string, now: nat, other: string)
    ensures var next := SetCondition(conds, t, ok, reason, now);
            Says(next, t, ok, reason) && (other != t ==> ConditionOf(next, other) == ConditionOf(conds, other))
  {
    if |conds| > 0 {
      var next := SetCondition(conds, t, ok, reason, now);
      if conds[0].typ == t {
        assert next[1..] == conds[1..];
      } else {
        SetSays(conds[1..], t, ok, reason, now, other);
        assert next[1..] == SetCondition(conds[1..], t, ok, reason, now);
      }
    }
  }

  /** A condition keeps its time as long as its verdict stays what it was, and takes the new time otherwise. */
  lemma {:induction false} SetDates(conds: seq<Condition>, t: string, ok: bool, reason: string, now: nat)
    ensures var before, after := ConditionOf(conds, t), ConditionOf(SetCondition(conds, t, ok, reason, now), t);
            && after.Some?
            && after.value.since == (if before.Some? && before.value.status == Verdict(ok) then before.value.since else now)
    ensures |SetCondition(conds, t, ok, reason, now)| == |conds| + if ConditionOf(conds, t).Some? then 0 else 1
  {
    if |conds| > 0 && conds[0].typ != t {
      SetDates(conds[1..], t, ok, reason, now);
      assert SetCondition(conds, t, ok, reason, now)[1..] == SetCondition(conds[1..], t, ok, reason, now);
    }
  }

  lemma {:induction false} SaidStays(conds: seq<Condition>, t: string, ok: bool, reason: string, now: nat)
    requires Says(conds, t, ok, reason)
    ensures SetCondition(conds, t, ok, reason, now) == conds
  {
    if conds[0].typ != t {
      SaidStays(conds[1..], t, ok, reason, now);
    }
  }

  // ----- The pod -----

  datatype Phase = Pending | Running

  /** `ip` is the number the address is made from. */
  datatype Status = Status(phase: Phase, ip: Option<nat>, start: Option<nat>, inits: seq<ContainerStatus>,
                           mains: seq<ContainerStatus>, conditions: seq<Condition>)

  const SCHEDULED := "PodScheduled"
  const INITIALIZED := "Initialized"
  const CONTAINERS_READY := "ContainersReady"
  const READY := "Ready"

  function Conditions(conds: seq<Condition>, scheduled: bool, why: string, initialized: bool, whyNot: string,
                      containersReady: bool, ready: bool, whyNotReady: string, now: nat): seq<Condition> {
    var a := SetCondition(conds, SCHEDULED, scheduled, why, now);
    var b := SetCondition(a, INITIALIZED, initialized, whyNot, now);
    var c := SetCondition(b, CONTAINERS_READY, containersReady, if containersReady then "" else "ContainersNotReady", now);
    SetCondition(c, READY, ready, whyNotReady, now)
  }

  predicate GatesReady(spec: PodSpec, conds: seq<Condition>) {
    forall i | 0 <= i < |spec.gates| :: ConditionTrue(conds, spec.gates[i])
  }

  /** The first `n` init containers include no sidecar that could start and is not ready. */
  predicate SidecarsReady(spec: PodSpec, f: Fault, inits: seq<ContainerStatus>, n: nat)
    requires n <= |inits| && n <= |spec.inits|
  {
    forall i | 0 <= i < n && spec.inits[i].sidecar && !Blocked(spec.inits[..i], f) :: inits[i].ready
  }

  predicate MainsReady(mains: seq<ContainerStatus>) {
    forall i | 0 <= i < |mains| :: mains[i].ready
  }

  /** Every sidecar that could start, and every regular container, is ready. */
  predicate AllReady(spec: PodSpec, f: Fault, inits: seq<ContainerStatus>, mains: seq<ContainerStatus>)
    requires |inits| == |spec.inits|
  {
    SidecarsReady(spec, f, inits, |inits|) && MainsReady(mains)
  }

  predicate Unscheduled(f: Fault) { f.Fault? && f.unscheduled }

  /** The status of a pod under fault `f`, from its status so far; `ip` is the address it gets if it has none. */
  function PodStatusOf(spec: PodSpec, st: Status, f: Fault, now: nat, ip: nat): Status {
    if Unscheduled(f) then
      Status(Pending, None, None, [], [],
             Conditions(st.conditions, false, "Unschedulable", false, "", false, false, "ContainersNotReady", now))
    else
      var blocked := Blocked(spec.inits, f);
      var inits := InitStatuses(spec.inits, st.inits, f, now);
      var mains := MainStatuses(spec.mains, st.mains, blocked, f, now);
      var containersReady := !blocked && AllReady(spec, f, inits, mains);
      var gatesReady := GatesReady(spec, st.conditions);
      Status(if blocked then Pending else Running,
             if st.ip.None? then Some(ip) else st.ip,
             if st.start.None? then Some(now) else st.start,
             inits, mains,
             Conditions(st.conditions, true, "", !blocked, if blocked then "ContainersNotInitialized" else "",
                        containersReady, containersReady && gatesReady, WhyNotReady(containersReady, gatesReady), now))
  }

  function WhyNotReady(containersReady: bool, gatesReady: bool): string {
    if !containersReady then "ContainersNotReady" else if !gatesReady then "ReadinessGatesNotReady" else ""
  }

  class PodSim {
    var podIPSeq: nat

    constructor ()
      ensures podIPSeq == 0
    {
      podIPSeq := 0;
    }

    /** The init containers in order; one that has not finished holds back those after it. */
    method InitContainers(spec: PodSpec, prev: seq<ContainerStatus>, f: Fault, now: nat)
      returns (inits: seq<ContainerStatus>, blocked: bool, ready: bool)
      ensures inits == InitStatuses(spec.inits, prev, f, now) && blocked == Blocked(spec.inits, f)
      ensures ready == SidecarsReady(spec, f, inits, |inits|)
    {
      hide Blocked;
      inits, blocked, ready := [], false, true;
      NoneBlocked(spec.inits[..0], f);
      for i := 0 to |spec.inits|
        invariant |inits| == i && blocked == Blocked(spec.inits[..i], f)
        invariant forall j | 0 <= j < i :: inits[j] == InitStatuses(spec.inits, prev, f, now)[j]
        invariant ready == SidecarsReady(spec, f, inits, i)
      {
        var c := spec.inits[i];
        var h := HealthOf(f, c.name);
        var cs := InitStatus(c, Find(prev, c.name), blocked, h, now);
        BlockedNext(spec.inits, f, i);
        inits := inits + [cs];
        if !blocked && c.sidecar {
          ready := ready && cs.ready;
        }
        blocked := blocked || Blocks(c, h);
      }
      assert spec.inits[..|spec.inits|] == spec.inits;
    }

    method MainContainers(specs: seq<Container>, prev: seq<ContainerStatus>, blocked: bool, f: Fault, now: nat)
      returns (mains: seq<ContainerStatus>, ready: bool)
      ensures mains == MainStatuses(specs, prev, blocked, f, now) && ready == MainsReady(mains)
    {
      mains, ready := [], true;
      for i := 0 to |specs|
        invariant |mains| == i && ready == MainsReady(mains)
        invariant forall j | 0 <= j < i :: mains[j] == MainStatuses(specs, prev, blocked, f, now)[j]
      {
        var cs := MainStatus(specs[i], Find(prev, specs[i].name), blocked, HealthOf(f, specs[i].name), now);
        ReadyNext(mains, cs);
        ready := ready && cs.ready;
        mains := mains + [cs];
      }
    }

    method PodStatus(spec: PodSpec, st: Status, f: Fault, now: nat) returns (next: Status)
      modifies this
      ensures next == PodStatusOf(spec, st, f, now, old(podIPSeq) + 1)
      ensures podIPSeq == if Unscheduled(f) || st.ip.Some? then old(podIPSeq) else old(podIPSeq) + 1
    {
      if Unscheduled(f) {
        return Status(Pending, None, None, [], [],
                      Conditions(st.conditions, false, "Unschedulable", false, "", false, false, "ContainersNotReady", now));
      }
      var ip := st.ip;
      if ip.None? {
        podIPSeq := podIPSeq + 1;
        ip := Some(podIPSeq);
      }
      var start := if st.start.None? then Some(now) else st.start;
      var inits, blocked, sidecarsReady := InitContainers(spec, st.inits, f, now);
      var mains, mainsReady := MainContainers(spec.mains, st.mains, blocked, f, now);
      var containersReady := sidecarsReady && mainsReady && !blocked;
      var gatesReady := true;
      for i := 0 to |spec.gates|
        invariant gatesReady <==> forall j | 0 <= j < i :: ConditionTrue(st.conditions, spec.gates[j])
        modifies {}
      {
        gatesReady := gatesReady && ConditionTrue(st.conditions, spec.gates[i]);
      }
      next := Status(if blocked then Pending else Running, ip, start, inits, mains,
                     Conditions(st.conditions, true, "", !blocked, if blocked then "ContainersNotInitialized" else "",
                                containersReady, containersReady && gatesReady, WhyNotReady(containersReady, gatesReady), now));
    }
  }

  lemma {:induction false} ReadyNext(mains: seq<ContainerStatus>, cs: ContainerStatus)
    ensures MainsReady(mains + [cs]) <==> MainsReady(mains) && cs.ready
  {
    var next := mains + [cs];
    forall i | 0 <= i < |mains| ensures next[i] == mains[i] {
    }
    assert next[|mains|] == cs;
  }

  lemma {:induction false} NoneBlocked(inits: seq<Container>, f: Fault)
    ensures |inits| == 0 ==> !Blocked(inits, f)
  {
  }

  lemma {:induction false} BlockedNext(inits: seq<Container>, f: Fault, i: nat)
    requires i < |inits|
    ensures Blocked(inits[..i + 1], f) <==> Blocked(inits[..i], f) || Blocks(inits[i], HealthOf(f, inits[i].name))
  {
    forall j | 0 <= j < i ensures inits[..i + 1][j] == inits[..i][j] {
    }
    assert inits[..i + 1][i] == inits[i];
  }

  // ----- Ready means what it says -----

  ghost predicate AllHealthy(f: Fault, cs: seq<Container>) {
    forall i | 0 <= i < |cs| :: HealthOf(f, cs[i].name).Healthy?
  }

  /**
   A pod is Ready if and only if it is scheduled, every container of every kind is healthy and
   every readiness gate was true; and conditions of other kinds are never touched.
   */
  lemma {:induction false} ReadyMeaning(spec: PodSpec, st: Status, f: Fault, now: nat, ip: nat, other: string)
    ensures var next := PodStatusOf(spec, st, f, now, ip);
            ConditionTrue(next.conditions, READY) <==>
              !Unscheduled(f) && AllHealthy(f, spec.inits) && AllHealthy(f, spec.mains) && GatesReady(spec, st.conditions)
    ensures other !in {SCHEDULED, INITIALIZED, CONTAINERS_READY, READY} ==>
      ConditionOf(PodStatusOf(spec, st, f, now, ip).conditions, other) == ConditionOf(st.conditions, other)
  {
    hide SetCondition, AllReady, InitStatuses, MainStatuses, Blocked, Conditions;
    ContainersReadyMeaning(spec, st, f, now);
    if Unscheduled(f) {
      ConditionsSay(st.conditions, false, "Unschedulable", false, "", false, false, "ContainersNotReady", now, other);
    } else {
      var blocked := Blocked(spec.inits, f);
      var containersReady := !blocked && AllReady(spec, f, InitStatuses(spec.inits, st.inits, f, now),
                                                  MainStatuses(spec.mains, st.mains, blocked, f, now));
      var gatesReady := GatesReady(spec, st.conditions);
      ConditionsSay(st.conditions, true, "", !blocked, if blocked then "ContainersNotInitialized" else "",
                    containersReady, containersReady && gatesReady, WhyNotReady(containersReady, gatesReady), now, other);
    }
  }

  lemma {:induction false} ContainersReadyMeaning(spec: PodSpec, st: Status, f: Fault, now: nat)
    ensures var blocked := Blocked(spec.inits, f);
            !blocked && AllReady(spec, f, InitStatuses(spec.inits, st.inits, f, now), MainStatuses(spec.mains, st.mains, blocked, f, now))
            <==> AllHealthy(f, spec.inits) && AllHealthy(f, spec.mains)
  {
    var blocked := Blocked(spec.inits, f);
    var inits, mains := InitStatuses(spec.inits, st.inits, f, now), MainStatuses(spec.mains, st.mains, blocked, f, now);
    if !blocked {
      forall i | 0 <= i < |spec.inits| ensures !Blocked(spec.inits[..i], f) && !Blocks(spec.inits[i], HealthOf(f, spec.inits[i].name)) {
        forall j | 0 <= j < i ensures spec.inits[..i][j] == spec.inits[j] {
        }
      }
      if AllReady(spec, f, inits, mains) {
        forall i | 0 <= i < |spec.inits| ensures HealthOf(f, spec.inits[i].name).Healthy? {
          assert spec.inits[i].sidecar ==> inits[i].ready;
        }
        forall i | 0 <= i < |spec.mains| ensures HealthOf(f, spec.mains[i].name).Healthy? {
          assert mains[i].ready;
        }
      }
    }
  }

  /** All four conditions come out as set, the others as they were. */
  lemma {:induction false} ConditionsSay(conds: seq<Condition>, scheduled: bool, why: string, initialized: bool, whyNot: string,
                                         containersReady: bool, ready: bool, whyNotReady: string, now: nat, other: string)
    ensures var next := Conditions(conds, scheduled, why, initialized, whyNot, containersReady, ready, whyNotReady, now);
            && Says(next, SCHEDULED, scheduled, why) && Says(next, INITIALIZED, initialized, whyNot)
            && Says(next, CONTAINERS_READY, containersReady, if containersReady then "" else "ContainersNotReady")
            && Says(next, READY, ready, whyNotReady)
            && (other !in {SCHEDULED, INITIALIZED, CONTAINERS_READY, READY} ==> ConditionOf(next, other) == ConditionOf(conds, other))
    ensures SCHEDULED != INITIALIZED && SCHEDULED != CONTAINERS_READY && SCHEDULED != READY
            && INITIALIZED != CONTAINERS_READY && INITIALIZED != READY && CONTAINERS_READY != READY
  {
    hide SetCondition;
    assert SCHEDULED[0] == 'P' && INITIALIZED[0] == 'I' && CONTAINERS_READY[0] == 'C' && READY[0] == 'R';
    var reason := if containersReady then "" else "ContainersNotReady";
    var a := SetCondition(conds, SCHEDULED, scheduled, why, now);
    var b := SetCondition(a, INITIALIZED, initialized, whyNot, now);
    var c := SetCondition(b, CONTAINERS_READY, containersReady, reason, now);
    SetSays(conds, SCHEDULED, scheduled, why, now, other);
    SetSays(a, INITIALIZED, initialized, whyNot, now, SCHEDULED);
    SetSays(a, INITIALIZED, initialized, whyNot, now, other);
    SetSays(b, CONTAINERS_READY, containersReady, reason, now, SCHEDULED);
    SetSays(b, CONTAINERS_READY, containersReady, reason, now, INITIALIZED);
    SetSays(b, CONTAINERS_READY, containersReady, reason, now, other);
    SetSays(c, READY, ready, whyNotReady, now, SCHEDULED);
    SetSays(c, READY, ready, whyNotReady, now, INITIALIZED);
    SetSays(c, READY, ready, whyNotReady, now, CONTAINERS_READY);
    SetSays(c, READY, ready, whyNotReady, now, other);
  }

  // ----- Applied again, it changes nothing -----

  ghost predicate DistinctNames(cs: seq<Container>) {
    forall i, j | 0 <= i < j < |cs| :: cs[i].name != cs[j].name
  }

  /** Some container's crash-loop backoff is over. */
  ghost predicate BackoffOver(st: Status, now: nat) {
    exists cs :: cs in st.inits + st.mains && Restarts(cs, now)
  }

  predicate Restarts(cs: ContainerStatus, now: nat) {
    cs.state == Waiting("CrashLoopBackOff") && Due(cs, now)
  }

  /** The statuses are of these containers, in order. */
  ghost predicate Of(cs: seq<Container>, list: seq<ContainerStatus>) {
    |list| == |cs| && forall i | 0 <= i < |cs| :: list[i].name == cs[i].name
  }

  lemma {:induction false} FindOwn(cs: seq<Container>, list: seq<ContainerStatus>, i: nat)
    requires DistinctNames(cs) && Of(cs, list) && i < |cs|
    ensures Find(list, cs[i].name) == Some(list[i])
  {
    if i > 0 {
      FindOwn(cs[1..], list[1..], i - 1);
    }
  }

  /** One container's status settles at once, unless it is due to restart. */
  lemma {:induction false} StatusAgain(c: Container, prev: Option<ContainerStatus>, blocked: bool, h: Health, now: nat, later: nat)
    ensures var cs := InitStatus(c, prev, blocked, h, now);
            cs.name == c.name && (InitStatus(c, Some(cs), blocked, h, later) == cs <==> !Restarts(cs, later))
    ensures var cs := MainStatus(c, prev, blocked, h, now);
            cs.name == c.name && (MainStatus(c, Some(cs), blocked, h, later) == cs <==> !Restarts(cs, later))
  {
    assert "CrashLoopBackOff"[0] != "PodInitializing"[0];
  }

  lemma {:induction false} InitsAgain(spec: PodSpec, prev: seq<ContainerStatus>, f: Fault, now: nat, later: nat)
    requires DistinctNames(spec.inits)
    ensures var once := InitStatuses(spec.inits, prev, f, now);
            InitStatuses(spec.inits, once, f, later) == once <==> forall i | 0 <= i < |once| :: !Restarts(once[i], later)
  {
    hide Blocked, InitStatus, Restarts, HealthOf;
    var once := InitStatuses(spec.inits, prev, f, now);
    var twice := InitStatuses(spec.inits, once, f, later);
    forall i | 0 <= i < |once| ensures once[i].name == spec.inits[i].name {
      StatusAgain(spec.inits[i], Find(prev, spec.inits[i].name), Blocked(spec.inits[..i], f), HealthOf(f, spec.inits[i].name), now, later);
    }
    forall i | 0 <= i < |once| ensures twice[i] == once[i] <==> !Restarts(once[i], later) {
      StatusAgain(spec.inits[i], Find(prev, spec.inits[i].name), Blocked(spec.inits[..i], f), HealthOf(f, spec.inits[i].name), now, later);
      FindOwn(spec.inits, once, i);
    }
  }

  lemma {:induction false} MainsAgain(specs: seq<Container>, prev: seq<ContainerStatus>, blocked: bool, f: Fault, now: nat, later: nat)
    requires DistinctNames(specs)
    ensures var once := MainStatuses(specs, prev, blocked, f, now);
            MainStatuses(specs, once, blocked, f, later) == once <==> forall i | 0 <= i < |once| :: !Restarts(once[i], later)
  {
    hide MainStatus, Restarts, HealthOf;
    var once := MainStatuses(specs, prev, blocked, f, now);
    var twice := MainStatuses(specs, once, blocked, f, later);
    forall i | 0 <= i < |once| ensures once[i].name == specs[i].name {
      StatusAgain(specs[i], Find(prev, specs[i].name), blocked, HealthOf(f, specs[i].name), now, later);
    }
    forall i | 0 <= i < |once| ensures twice[i] == once[i] <==> !Restarts(once[i], later) {
      StatusAgain(specs[i], Find(prev, specs[i].name), blocked, HealthOf(f, specs[i].name), now, later);
      FindOwn(specs, once, i);
    }
  }

  /** The conditions that hold of every scheduled pod with healthy containers; Ready waits for the gates besides. */
  predicate Granted(t: string) {
    t in {SCHEDULED, INITIALIZED, CONTAINERS_READY}
  }

  /** All gates but such conditions were true, some such condition gates the pod and was not, and Ready itself is no gate. */
  ghost predicate OnlyGrantedMissing(spec: PodSpec, conds: seq<Condition>) {
    && READY !in spec.gates
    && (forall g | g in spec.gates && !Granted(g) :: ConditionTrue(conds, g))
    && exists g :: g in spec.gates && !ConditionTrue(conds, g)
  }

  /** The pod was held back by nothing but gates that the very same computation opens. */
  ghost predicate Lags(spec: PodSpec, st: Status, f: Fault) {
    && !Unscheduled(f) && AllHealthy(f, spec.inits) && AllHealthy(f, spec.mains)
    && OnlyGrantedMissing(spec, st.conditions)
  }

  /** With healthy containers a condition is true afterwards if it is granted or was true, and Ready if all gates were. */
  lemma {:induction false} HealthyConditions(spec: PodSpec, st: Status, f: Fault, now: nat, ip: nat, t: string)
    requires !Unscheduled(f) && AllHealthy(f, spec.inits) && AllHealthy(f, spec.mains)
    ensures var next := PodStatusOf(spec, st, f, now, ip).conditions;
            ConditionTrue(next, t) <==>
              if Granted(t) then true else if t == READY then GatesReady(spec, st.conditions) else ConditionTrue(st.conditions, t)
  {
    hide SetCondition, AllReady, InitStatuses, MainStatuses, Blocked, Conditions;
    ContainersReadyMeaning(spec, st, f, now);
    var gatesReady := GatesReady(spec, st.conditions);
    ConditionsSay(st.conditions, true, "", true, "", true, gatesReady, WhyNotReady(true, gatesReady), now, t);
  }

  /** The gates come out otherwise than they went in exactly for a pod that lags. */
  lemma {:induction false} GatesAgain(spec: PodSpec, st: Status, f: Fault, now: nat, ip: nat)
    requires !Unscheduled(f) && AllHealthy(f, spec.inits) && AllHealthy(f, spec.mains)
    ensures GatesReady(spec, PodStatusOf(spec, st, f, now, ip).conditions) != GatesReady(spec, st.conditions) <==> Lags(spec, st, f)
    ensures !OnlyGrantedMissing(spec, PodStatusOf(spec, st, f, now, ip).conditions)
  {
    hide PodStatusOf, ConditionTrue;
    var next := PodStatusOf(spec, st, f, now, ip).conditions;
    assert !Granted(READY) by {
      assert SCHEDULED[0] == 'P' && INITIALIZED[0] == 'I' && CONTAINERS_READY[0] == 'C' && READY[0] == 'R';
    }
    forall g | g in spec.gates
      ensures ConditionTrue(next, g) <==>
                if Granted(g) then true else if g == READY then GatesReady(spec, st.conditions) else ConditionTrue(st.conditions, g)
    {
      HealthyConditions(spec, st, f, now, ip, g);
    }
    GatesReadyMeans(spec, st.conditions);
    GatesReadyMeans(spec, next);
  }

  lemma {:induction false} GatesReadyMeans(spec: PodSpec, conds: seq<Condition>)
    ensures GatesReady(spec, conds) <==> forall g | g in spec.gates :: ConditionTrue(conds, g)
  {
  }

  lemma {:induction false} ConditionsAgain(conds: seq<Condition>, scheduled: bool, why: string, initialized: bool, whyNot: string,
                                           containersReady: bool, ready: bool, whyNotReady: string, now: nat, later: nat)
    ensures var once := Conditions(conds, scheduled, why, initialized, whyNot, containersReady, ready, whyNotReady, now);
            Conditions(once, scheduled, why, initialized, whyNot, containersReady, ready, whyNotReady, later) == once
  {
    hide SetCondition, Says;
    var once := Conditions(conds, scheduled, why, initialized, whyNot, containersReady, ready, whyNotReady, now);
    ConditionsSay(conds, scheduled, why, initialized, whyNot, containersReady, ready, whyNotReady, now, "");
    SaidStays(once, SCHEDULED, scheduled, why, later);
    SaidStays(once, INITIALIZED, initialized, whyNot, later);
    SaidStays(once, CONTAINERS_READY, containersReady, if containersReady then "" else "ContainersNotReady", later);
    SaidStays(once, READY, ready, whyNotReady, later);
  }

  /** Once all containers are healthy, another view of the gates is another verdict on Ready. */
  lemma {:induction false} OtherGatesOtherStatus(spec: PodSpec, once: Status, f: Fault, later: nat, ip: nat, was: bool)
    requires !Unscheduled(f) && AllHealthy(f, spec.inits) && AllHealthy(f, spec.mains)
    requires ConditionTrue(once.conditions, READY) == was && GatesReady(spec, once.conditions) != was
    ensures PodStatusOf(spec, once, f, later, ip) != once
  {
    hide PodStatusOf;
    ReadyMeaning(spec, once, f, later, ip, "");
  }

  /** What is set of the conditions when all containers are ready or not, given the gates. */
  function ScheduledConditions(conds: seq<Condition>, blocked: bool, containersReady: bool, gatesReady: bool, now: nat): seq<Condition> {
    Conditions(conds, true, "", !blocked, if blocked then "ContainersNotInitialized" else "",
               containersReady, containersReady && gatesReady, WhyNotReady(containersReady, gatesReady), now)
  }

  /**
   Under the same fault, the status is a fixed point of its own computation exactly if no
   container's crash-loop backoff is over by then and the pod does not lag behind its own gates.
   */
  lemma {:induction false} StatusIsFixpoint(spec: PodSpec, st: Status, f: Fault, now: nat, ip: nat, later: nat, nextIp: nat)
    requires DistinctNames(spec.inits) && DistinctNames(spec.mains)
    ensures var once := PodStatusOf(spec, st, f, now, ip);
            PodStatusOf(spec, once, f, later, nextIp) == once <==> !BackoffOver(once, later) && !Lags(spec, st, f)
  {
    hide InitStatuses, MainStatuses, Blocked, Restarts, Conditions, GatesReady, OnlyGrantedMissing, AllReady, HealthOf;
    var once := PodStatusOf(spec, st, f, now, ip);
    if Unscheduled(f) {
      ConditionsAgain(st.conditions, false, "Unschedulable", false, "", false, false, "ContainersNotReady", now, later);
    } else {
      var blocked := Blocked(spec.inits, f);
      InitsAgain(spec, st.inits, f, now, later);
      MainsAgain(spec.mains, st.mains, blocked, f, now, later);
      ReadyAgain(spec, st, f, now, later);
      ContainersReadyMeaning(spec, st, f, now);
      var containersReady := !blocked && AllReady(spec, f, once.inits, once.mains);
      var before, after := GatesReady(spec, st.conditions), GatesReady(spec, once.conditions);
      assert once.conditions == ScheduledConditions(st.conditions, blocked, containersReady, before, now);
      ConditionsAgain(st.conditions, true, "", !blocked, if blocked then "ContainersNotInitialized" else "",
                      containersReady, containersReady && before, WhyNotReady(containersReady, before), now, later);
      OverMeans(once, later);
      if containersReady {
        GatesAgain(spec, st, f, now, ip);
        if before != after {
          ReadyMeaning(spec, st, f, now, ip, "");
          OtherGatesOtherStatus(spec, once, f, later, nextIp, before);
        }
      }
    }
  }

  /** A pod lags for one sweep at most: from then on only a restart changes its status. */
  lemma {:induction false} LagsOnce(spec: PodSpec, st: Status, f: Fault, now: nat, ip: nat, later: nat, ip1: nat, last: nat, ip2: nat)
    requires DistinctNames(spec.inits) && DistinctNames(spec.mains)
    ensures var once := PodStatusOf(spec, st, f, now, ip);
            var twice := PodStatusOf(spec, once, f, later, ip1);
            !Lags(spec, once, f) && (PodStatusOf(spec, twice, f, last, ip2) == twice <==> !BackoffOver(twice, last))
  {
    hide PodStatusOf, BackoffOver, GatesReady, OnlyGrantedMissing;
    var once := PodStatusOf(spec, st, f, now, ip);
    StatusIsFixpoint(spec, once, f, later, ip1, last, ip2);
    if !Unscheduled(f) && AllHealthy(f, spec.inits) && AllHealthy(f, spec.mains) {
      GatesAgain(spec, st, f, now, ip);
    }
  }

  lemma {:induction false} OverMeans(st: Status, now: nat)
    ensures BackoffOver(st, now) <==>
      (exists i :: 0 <= i < |st.inits| && Restarts(st.inits[i], now)) || exists i :: 0 <= i < |st.mains| && Restarts(st.mains[i], now)
  {
    forall i | 0 <= i < |st.inits| ensures st.inits[i] in st.inits + st.mains {
    }
    forall i | 0 <= i < |st.mains| ensures st.mains[i] in st.inits + st.mains {
      assert (st.inits + st.mains)[|st.inits| + i] == st.mains[i];
    }
  }

  /** Whether all containers are ready depends on the fault alone. */
  lemma {:induction false} ReadyAgain(spec: PodSpec, st: Status, f: Fault, now: nat, later: nat)
    ensures var blocked := Blocked(spec.inits, f);
            var inits, mains := InitStatuses(spec.inits, st.inits, f, now), MainStatuses(spec.mains, st.mains, blocked, f, now);
            (!blocked && AllReady(spec, f, inits, mains))
            == (!blocked && AllReady(spec, f, InitStatuses(spec.inits, inits, f, later), MainStatuses(spec.mains, mains, blocked, f, later)))
  {
    hide InitStatuses, MainStatuses, Blocked, AllReady;
    var blocked := Blocked(spec.inits, f);
    var inits, mains := InitStatuses(spec.inits, st.inits, f, now), MainStatuses(spec.mains, st.mains, blocked, f, now);
    ContainersReadyMeaning(spec, st, f, now);
    ContainersReadyMeaning(spec, st.(inits := inits, mains := mains), f, later);
  }

  /** A new pod gated on a condition that kubelet sets: the second application changes its status. */
  lemma {:induction false} GateOnOwnConditionLags()
    ensures var spec := PodSpec([], [Container("app", "image", false)], [CONTAINERS_READY]);
            var st := Status(Pending, None, None, [], [], []);
            var once := PodStatusOf(spec, st, NoFault, 0, 1);
            Lags(spec, st, NoFault) && PodStatusOf(spec, once, NoFault, 0, 2) != once
  {
    var spec := PodSpec([], [Container("app", "image", false)], [CONTAINERS_READY]);
    var st := Status(Pending, None, None, [], [], []);
    assert CONTAINERS_READY[0] != READY[0];
    assert CONTAINERS_READY in spec.gates && !ConditionTrue(st.conditions, CONTAINERS_READY);
    StatusIsFixpoint(spec, st, NoFault, 0, 1, 0, 2);
  }

  // ----- Restarts are paced -----

  /** The least time between the first and the last of so many restarts. */
  function Pace(restarts: nat): nat {
    if restarts <= 1 then 0 else Pace(restarts - 1) + Backoff(restarts - 1)
  }

  /** One more status of the container, whatever its health and whatever holds it back, or its pod is off its node. */
  datatype Moment = Moment(blocked: bool, init: bool, health: Health, now: nat) | Unplaced(now: nat)

  function StatusAt(c: Container, prev: Option<ContainerStatus>, m: Moment): Option<ContainerStatus> {
    match m
    case Unplaced(_) => None
    case Moment(blocked, init, h, now) => Some(if init then InitStatus(c, prev, blocked, h, now) else MainStatus(c, prev, blocked, h, now))
  }

  function StatusAfter(c: Container, moments: seq<Moment>): Option<ContainerStatus> {
    if |moments| == 0 then None
    else StatusAt(c, StatusAfter(c, moments[..|moments| - 1]), moments[|moments| - 1])
  }

  /** Where the moments since the pod was last off its node begin. */
  function Placed(moments: seq<Moment>): (start: nat)
    ensures start <= |moments|
    ensures forall i | start <= i < |moments| :: moments[i].Moment?
    ensures start > 0 ==> moments[start - 1].Unplaced?
  {
    if |moments| == 0 then 0
    else if moments[|moments| - 1].Unplaced? then |moments|
    else Placed(moments[..|moments| - 1])
  }

  /** After `r` restarts, the last of them ended no sooner than the backoffs before it allow. */
  ghost predicate Paced(cs: ContainerStatus, first: nat, now: nat) {
    if cs.restarts == 0 then cs.last.None?
    else cs.last.Some? && cs.last.value.at <= now && first + Pace(cs.restarts) <= cs.last.value.at
  }

  /**
   However its faults change, a container has a status exactly while its pod is on a node, and
   by the time it has restarted `r` times there the backoffs between those restarts have gone by.
   */
  lemma {:induction false} RestartsArePaced(c: Container, moments: seq<Moment>)
    requires forall i, j | 0 <= i < j < |moments| :: moments[i].now <= moments[j].now
    ensures var cs, start := StatusAfter(c, moments), Placed(moments);
            && (cs.Some? <==> start < |moments|)
            && (cs.Some? ==> Paced(cs.value, moments[start].now, moments[|moments| - 1].now))
  {
    hide Pace, InitStatus, MainStatus;
    if |moments| > 0 {
      var front, m := moments[..|moments| - 1], moments[|moments| - 1];
      RestartsArePaced(c, front);
      if m.Moment? {
        PacedNext(c, StatusAfter(c, front), m, if Placed(front) == |front| then m.now else moments[Placed(front)].now);
      }
    }
  }

  lemma {:induction false} PacedNext(c: Container, prev: Option<ContainerStatus>, m: Moment, first: nat)
    requires m.Moment? && first <= m.now && (prev.Some? ==> Paced(prev.value, first, m.now))
    ensures StatusAt(c, prev, m).Some? && Paced(StatusAt(c, prev, m).value, first, m.now)
  {
  }

  /** One sweep over the pod: the fault then, the time, and the address it would hand out. */
  datatype Sweep = Sweep(f: Fault, now: nat, ip: nat)

  /** The status of a new pod after so many sweeps. */
  function StatusHistory(spec: PodSpec, sweeps: seq<Sweep>): Status {
    if |sweeps| == 0 then Status(Pending, None, None, [], [], [])
    else
      var last := sweeps[|sweeps| - 1];
      PodStatusOf(spec, StatusHistory(spec, sweeps[..|sweeps| - 1]), last.f, last.now, last.ip)
  }

  /** What the sweeps mean for one regular container. */
  function MainMoments(spec: PodSpec, i: nat, sweeps: seq<Sweep>): (moments: seq<Moment>)
    requires i < |spec.mains|
    ensures |moments| == |sweeps| && forall k | 0 <= k < |sweeps| :: moments[k].now == sweeps[k].now
  {
    if |sweeps| == 0 then []
    else
      var last := sweeps[|sweeps| - 1];
      MainMoments(spec, i, sweeps[..|sweeps| - 1])
      + [if Unscheduled(last.f) then Unplaced(last.now)
         else Moment(Blocked(spec.inits, last.f), false, HealthOf(last.f, spec.mains[i].name), last.now)]
  }

  /** What they mean for one init container. */
  function InitMoments(spec: PodSpec, i: nat, sweeps: seq<Sweep>): (moments: seq<Moment>)
    requires i < |spec.inits|
    ensures |moments| == |sweeps| && forall k | 0 <= k < |sweeps| :: moments[k].now == sweeps[k].now
  {
    if |sweeps| == 0 then []
    else
      var last := sweeps[|sweeps| - 1];
      InitMoments(spec, i, sweeps[..|sweeps| - 1])
      + [if Unscheduled(last.f) then Unplaced(last.now)
         else Moment(Blocked(spec.inits[..i], last.f), true, HealthOf(last.f, spec.inits[i].name), last.now)]
  }

  lemma {:induction false} MainHistory(spec: PodSpec, i: nat, sweeps: seq<Sweep>)
    requires DistinctNames(spec.mains) && i < |spec.mains|
    ensures Find(StatusHistory(spec, sweeps).mains, spec.mains[i].name) == StatusAfter(spec.mains[i], MainMoments(spec, i, sweeps))
    decreases |sweeps|
  {
    hide Blocked, MainStatus, InitStatuses, Conditions, AllReady;
    if |sweeps| > 0 {
      var front, last := sweeps[..|sweeps| - 1], sweeps[|sweeps| - 1];
      MainHistory(spec, i, front);
      var moments := MainMoments(spec, i, sweeps);
      assert moments[..|moments| - 1] == MainMoments(spec, i, front);
      if !Unscheduled(last.f) {
        var prev := StatusHistory(spec, front).mains;
        MainNames(spec.mains, prev, Blocked(spec.inits, last.f), last.f, last.now);
        FindOwn(spec.mains, StatusHistory(spec, sweeps).mains, i);
      }
    }
  }

  lemma {:induction false} InitHistory(spec: PodSpec, i: nat, sweeps: seq<Sweep>)
    requires DistinctNames(spec.inits) && i < |spec.inits|
    ensures Find(StatusHistory(spec, sweeps).inits, spec.inits[i].name) == StatusAfter(spec.inits[i], InitMoments(spec, i, sweeps))
    decreases |sweeps|
  {
    hide Blocked, InitStatus, MainStatuses, Conditions, AllReady;
    if |sweeps| > 0 {
      var front, last := sweeps[..|sweeps| - 1], sweeps[|sweeps| - 1];
      InitHistory(spec, i, front);
      var moments := InitMoments(spec, i, sweeps);
      assert moments[..|moments| - 1] == InitMoments(spec, i, front);
      if !Unscheduled(last.f) {
        var prev := StatusHistory(spec, front).inits;
        InitNames(spec.inits, prev, last.f, last.now);
        FindOwn(spec.inits, StatusHistory(spec, sweeps).inits, i);
      }
    }
  }

  lemma {:induction false} MainNames(mains: seq<Container>, prev: seq<ContainerStatus>, blocked: bool, f: Fault, now: nat)
    ensures Of(mains, MainStatuses(mains, prev, blocked, f, now))
  {
  }

  lemma {:induction false} InitNames(inits: seq<Container>, prev: seq<ContainerStatus>, f: Fault, now: nat)
    ensures Of(inits, InitStatuses(inits, prev, f, now))
  {
    hide Blocked;
  }

  /** Whatever faults a pod goes through, each of its regular containers restarts on its backoff. */
  lemma {:induction false} PodRestartsArePaced(spec: PodSpec, i: nat, sweeps: seq<Sweep>)
    requires DistinctNames(spec.mains) && i < |spec.mains|
    requires forall j, k | 0 <= j < k < |sweeps| :: sweeps[j].now <= sweeps[k].now
    ensures var cs := Find(StatusHistory(spec, sweeps).mains, spec.mains[i].name);
            var start := Placed(MainMoments(spec, i, sweeps));
            && (cs.Some? <==> start < |sweeps|)
            && (cs.Some? ==> Paced(cs.value, sweeps[start].now, sweeps[|sweeps| - 1].now))
  {
    hide Blocked, PodStatusOf, Paced, HealthOf, Unscheduled;
    MainHistory(spec, i, sweeps);
    RestartsArePaced(spec.mains[i], MainMoments(spec, i, sweeps));
  }

  /** So does each of its init containers. */
  lemma {:induction false} PodInitRestartsArePaced(spec: PodSpec, i: nat, sweeps: seq<Sweep>)
    requires DistinctNames(spec.inits) && i < |spec.inits|
    requires forall j, k | 0 <= j < k < |sweeps| :: sweeps[j].now <= sweeps[k].now
    ensures var cs := Find(StatusHistory(spec, sweeps).inits, spec.inits[i].name);
            var start := Placed(InitMoments(spec, i, sweeps));
            && (cs.Some? <==> start < |sweeps|)
            && (cs.Some? ==> Paced(cs.value, sweeps[start].now, sweeps[|sweeps| - 1].now))
  {
    hide Blocked, PodStatusOf, Paced, HealthOf, Unscheduled;
    InitHistory(spec, i, sweeps);
    RestartsArePaced(spec.inits[i], InitMoments(spec, i, sweeps));
  }
}
