// The CPU hotplug state space of kernel/cpu.c: the state numbering, the
// step records of the two step tables, and the callback sequences that
// stepping through a range of states produces.

module HotplugSteps {
  import opened Base

  // enum cpuhp_state (Linux 4.6).
  const OFFLINE: nat := 0
  const CREATE_THREADS: nat := 1
  const NOTIFY_PREPARE: nat := 2
  const BRINGUP_CPU: nat := 3
  const AP_IDLE_DEAD: nat := 4
  const AP_OFFLINE: nat := 5
  const AP_NOTIFY_STARTING: nat := 6
  const AP_ONLINE: nat := 7
  const TEARDOWN_CPU: nat := 8
  const AP_ONLINE_IDLE: nat := 9
  const AP_SMPBOOT_THREADS: nat := 10
  const AP_NOTIFY_ONLINE: nat := 11
  const AP_ONLINE_DYN: nat := 12
  const AP_ONLINE_DYN_END: nat := AP_ONLINE_DYN + 30
  const ONLINE: nat := 43

  // A callback pointer: NULL or a function identified by a number. What a
  // function does is outside the model; only its int result is seen.
  datatype Callback = Null | Fn(id: nat)

  // struct cpuhp_step
  datatype Step = Step(name: Option<string>, startup: Callback, teardown: Callback,
                       skipOnErr: bool, cantStop: bool)

  const EmptyStep := Step(None, Null, Null, false, false)

  // Numbers of the callback functions the static tables install.
  const SMPBOOT_CREATE_THREADS: nat := 1
  const NOTIFY_PREPARE_FN: nat := 2
  const NOTIFY_DEAD_FN: nat := 3
  const BRINGUP_CPU_FN: nat := 4
  const TAKEDOWN_CPU_FN: nat := 5
  const NOTIFY_STARTING_FN: nat := 6
  const NOTIFY_DYING_FN: nat := 7
  const SMPBOOT_UNPARK_THREADS: nat := 8
  const NOTIFY_ONLINE_FN: nat := 9
  const NOTIFY_DOWN_PREPARE_FN: nat := 10

  // Sizes of cpuhp_bp_states[] and cpuhp_ap_states[].
  const BP_STEPS: nat := TEARDOWN_CPU + 1
  const AP_STEPS: nat := ONLINE + 1

  // The static initialiser of cpuhp_bp_states[]; entries it leaves out are
  // zero: no name, NULL callbacks.
  function BpStep(s: nat): Step
  {
    if s == OFFLINE then Step(Some("offline"), Null, Null, false, false)
    else if s == CREATE_THREADS then Step(Some("threads:create"), Fn(SMPBOOT_CREATE_THREADS), Null, false, true)
    else if s == NOTIFY_PREPARE then Step(Some("notify:prepare"), Fn(NOTIFY_PREPARE_FN), Fn(NOTIFY_DEAD_FN), true, true)
    else if s == BRINGUP_CPU then Step(Some("cpu:bringup"), Fn(BRINGUP_CPU_FN), Null, false, true)
    else if s == TEARDOWN_CPU then Step(Some("cpu:teardown"), Null, Fn(TAKEDOWN_CPU_FN), false, true)
    else EmptyStep
  }

  // The static initialiser of cpuhp_ap_states[].
  function ApStep(s: nat): Step
  {
    if s == AP_IDLE_DEAD then Step(Some("idle:dead"), Null, Null, false, false)
    else if s == AP_OFFLINE then Step(Some("ap:offline"), Null, Null, false, true)
    else if s == AP_NOTIFY_STARTING then Step(Some("notify:starting"), Fn(NOTIFY_STARTING_FN), Fn(NOTIFY_DYING_FN), true, true)
    else if s == AP_ONLINE then Step(Some("ap:online"), Null, Null, false, false)
    else if s == AP_SMPBOOT_THREADS then Step(Some("smpboot:threads"), Fn(SMPBOOT_UNPARK_THREADS), Null, false, false)
    else if s == AP_NOTIFY_ONLINE then Step(Some("notify:online"), Fn(NOTIFY_ONLINE_FN), Fn(NOTIFY_DOWN_PREPARE_FN), true, false)
    else if s == ONLINE then Step(Some("online"), Null, Null, false, false)
    else EmptyStep
  }

  // One invocation of a callback function for a CPU at a state.
  datatype Call = Call(cpu: nat, state: nat, fn: nat)

  // cpuhp_cb_check: the states a callback may be installed at.
  function CbCheck(state: int): (r: int)
    ensures r == 0 || r == -EINVAL
    ensures r == 0 <==> OFFLINE < state < ONLINE
  {
    if state <= OFFLINE || state >= ONLINE then -EINVAL else 0
  }

  // cpuhp_is_ap_state: states run by the CPU's own hotplug thread.
  predicate IsApState(state: nat)
  {
    state > BRINGUP_CPU && state != TEARDOWN_CPU
  }

  // cpuhp_get_step picks the AP table for AP states and the BP table
  // otherwise; for every state that passes cpuhp_cb_check the index is
  // inside the chosen table, and it is never the OFFLINE or ONLINE step.
  // The two step tables, as values.
  datatype Tables = Tables(bp: seq<Step>, ap: seq<Step>)

  predicate WellSized(t: Tables)
  {
    |t.bp| == BP_STEPS && |t.ap| == AP_STEPS
  }

  // cpuhp_get_step: an AP state's step lives in the AP table, any other
  // state's in the BP table. Every state cpuhp_cb_check accepts has one.
  function StepOf(t: Tables, state: nat): Step
    requires WellSized(t) && CbCheck(state) == 0
  {
    if IsApState(state) then t.ap[state] else t.bp[state]
  }

  // cpuhp_store_callbacks: the state's step gets the name and both
  // callbacks; every other step, and the step's own flags, stay.
  function StoreIn(t: Tables, state: nat, name: Option<string>, startup: Callback, teardown: Callback): (u: Tables)
    requires WellSized(t) && CbCheck(state) == 0
    ensures WellSized(u)
    ensures StepOf(u, state) == StepOf(t, state).(name := name, startup := startup, teardown := teardown)
    ensures forall s :: CbCheck(s) == 0 && s != state ==> StepOf(u, s) == StepOf(t, s)
    ensures u.ap[ONLINE] == t.ap[ONLINE]
  {
    var sp := StepOf(t, state).(name := name, startup := startup, teardown := teardown);
    if IsApState(state) then Tables(t.bp, t.ap[state := sp]) else Tables(t.bp[state := sp], t.ap)
  }

  // Storing twice into the same state: the second store is all that shows.
  lemma StoreInTwice(t: Tables, state: nat, n1: Option<string>, a1: Callback, b1: Callback,
                     n2: Option<string>, a2: Callback, b2: Callback)
    requires WellSized(t) && CbCheck(state) == 0
    ensures StoreIn(StoreIn(t, state, n1, a1, b1), state, n2, a2, b2) == StoreIn(t, state, n2, a2, b2)
  {
  }

  // The callback of step s in one direction, if it is invoked: a NULL
  // pointer is no call, and on error rollback (onErr) a skip_onerr step is
  // passed over.
  function StepCall(steps: seq<Step>, cpu: nat, s: nat, startup: bool, onErr: bool): seq<Call>
    requires s < |steps|
  {
    var cb := if startup then steps[s].startup else steps[s].teardown;
    if cb.Fn? && !(onErr && steps[s].skipOnErr) then [Call(cpu, s, cb.id)] else []
  }

  // Startup calls made while the state climbs through lo..hi.
  function Startups(steps: seq<Step>, cpu: nat, lo: int, hi: int, onErr: bool): seq<Call>
    requires 0 <= lo && (lo <= hi ==> hi < |steps|)
    decreases hi - lo
  {
    if hi < lo then [] else Startups(steps, cpu, lo, hi - 1, onErr) + StepCall(steps, cpu, hi, true, onErr)
  }

  // Teardown calls made while the state descends through hi..lo.
  function Teardowns(steps: seq<Step>, cpu: nat, hi: int, lo: int, onErr: bool): seq<Call>
    requires 0 <= lo && (lo <= hi ==> hi < |steps|)
    decreases hi - lo
  {
    if hi < lo then [] else Teardowns(steps, cpu, hi, lo + 1, onErr) + StepCall(steps, cpu, lo, false, onErr)
  }

  // A call is among the startups of lo..hi exactly when its state is in
  // the range and that step's startup would be invoked.
  lemma {:induction false} StartupsExactly(steps: seq<Step>, cpu: nat, lo: int, hi: int, onErr: bool, c: Call)
    requires 0 <= lo && (lo <= hi ==> hi < |steps|)
    ensures c in Startups(steps, cpu, lo, hi, onErr) <==>
              lo <= c.state <= hi && StepCall(steps, cpu, c.state, true, onErr) == [c]
    decreases hi - lo
  {
    if hi >= lo {
      StartupsExactly(steps, cpu, lo, hi - 1, onErr, c);
    }
  }

  lemma {:induction false} TeardownsExactly(steps: seq<Step>, cpu: nat, hi: int, lo: int, onErr: bool, c: Call)
    requires 0 <= lo && (lo <= hi ==> hi < |steps|)
    ensures c in Teardowns(steps, cpu, hi, lo, onErr) <==>
              lo <= c.state <= hi && StepCall(steps, cpu, c.state, false, onErr) == [c]
    decreases hi - lo
  {
    if hi >= lo {
      TeardownsExactly(steps, cpu, hi, lo + 1, onErr, c);
    }
  }

  // Startups run in strictly ascending state order, for this CPU only,
  // at most one call per state.
  lemma {:induction false} StartupsAscending(steps: seq<Step>, cpu: nat, lo: int, hi: int, onErr: bool)
    requires 0 <= lo && (lo <= hi ==> hi < |steps|)
    ensures var r := Startups(steps, cpu, lo, hi, onErr);
            |r| <= (if hi < lo then 0 else hi - lo + 1) &&
            (forall i :: 0 <= i < |r| ==> r[i].cpu == cpu && lo <= r[i].state <= hi) &&
            (forall i, j :: 0 <= i < j < |r| ==> r[i].state < r[j].state)
    decreases hi - lo
  {
    if hi >= lo {
      StartupsAscending(steps, cpu, lo, hi - 1, onErr);
    }
  }

  // Teardowns run in strictly descending state order.
  lemma {:induction false} TeardownsDescending(steps: seq<Step>, cpu: nat, hi: int, lo: int, onErr: bool)
    requires 0 <= lo && (lo <= hi ==> hi < |steps|)
    ensures var r := Teardowns(steps, cpu, hi, lo, onErr);
            |r| <= (if hi < lo then 0 else hi - lo + 1) &&
            (forall i :: 0 <= i < |r| ==> r[i].cpu == cpu && lo <= r[i].state <= hi) &&
            (forall i, j :: 0 <= i < j < |r| ==> r[i].state > r[j].state)
    decreases hi - lo
  {
    if hi >= lo {
      TeardownsDescending(steps, cpu, hi, lo + 1, onErr);
    }
  }

  predicate AllZero(r: seq<int>)
  {
    forall i :: 0 <= i < |r| ==> r[i] == 0
  }

  // What cpuhp_up_callbacks leaves behind, for a CPU that was at `prev`
  // with target `oldTarget` and is driven toward `target`: the new state and
  // target, the return value, and the calls made (c) with their results (r).
  // On failure `failed` is the state whose startup failed.
  ghost predicate UpOutcome(steps: seq<Step>, cpu: nat, prev: nat, target: nat, oldTarget: nat,
                            state: nat, newTarget: nat, ret: int, c: seq<Call>, r: seq<int>, failed: nat)
    requires target < |steps|
  {
    |c| == |r| &&
    if prev >= target then
      ret == 0 && state == prev && newTarget == oldTarget && c == []
    else if ret == 0 then
      state == target && newTarget == oldTarget &&
      c == Startups(steps, cpu, prev + 1, target, false) && AllZero(r)
    else
      prev < failed <= target && steps[failed].startup.Fn? &&
      state == prev && newTarget == prev &&
      var n := |Startups(steps, cpu, prev + 1, failed, false)|;
      c == Startups(steps, cpu, prev + 1, failed, false) + Teardowns(steps, cpu, failed - 1, prev + 1, true) &&
      1 <= n && c[n - 1] == Call(cpu, failed, steps[failed].startup.id) &&
      AllZero(r[..n - 1]) && r[n - 1] == ret
  }

  // What cpuhp_down_callbacks leaves behind. When the very first teardown
  // fails (failed == prev), undo_cpu_down still increments the state once,
  // so the state ends one above where it started.
  ghost predicate DownOutcome(steps: seq<Step>, cpu: nat, prev: nat, target: nat, oldTarget: nat,
                              state: nat, newTarget: nat, ret: int, c: seq<Call>, r: seq<int>, failed: nat)
    requires prev < |steps|
  {
    |c| == |r| &&
    if prev <= target then
      ret == 0 && state == prev && newTarget == oldTarget && c == []
    else if ret == 0 then
      state == target && newTarget == oldTarget &&
      c == Teardowns(steps, cpu, prev, target + 1, false) && AllZero(r)
    else
      target < failed <= prev && steps[failed].teardown.Fn? &&
      newTarget == prev && state == (if failed == prev then prev + 1 else prev) &&
      var n := |Teardowns(steps, cpu, prev, failed, false)|;
      c == Teardowns(steps, cpu, prev, failed, false) + Startups(steps, cpu, failed + 1, prev - 1, true) &&
      1 <= n && c[n - 1] == Call(cpu, failed, steps[failed].teardown.id) &&
      AllZero(r[..n - 1]) && r[n - 1] == ret
  }

  // Where cpuhp_up_callbacks leaves the state and target: at the target
  // on success, back where it started (target too) on failure.
  lemma UpOutcomeState(steps: seq<Step>, cpu: nat, prev: nat, target: nat, oldTarget: nat,
                       state: nat, newTarget: nat, ret: int, c: seq<Call>, r: seq<int>, failed: nat)
    requires target < |steps| && UpOutcome(steps, cpu, prev, target, oldTarget, state, newTarget, ret, c, r, failed)
    ensures ret == 0 ==> state == Max(prev, target) && newTarget == oldTarget
    ensures ret != 0 ==> prev < target && state == prev && newTarget == prev
  {
  }

  // Where cpuhp_down_callbacks leaves the state and target: at the target
  // on success; on failure back where it started, or one above it when the
  // first teardown was the one that failed.
  lemma DownOutcomeState(steps: seq<Step>, cpu: nat, prev: nat, target: nat, oldTarget: nat,
                         state: nat, newTarget: nat, ret: int, c: seq<Call>, r: seq<int>, failed: nat)
    requires prev < |steps| && DownOutcome(steps, cpu, prev, target, oldTarget, state, newTarget, ret, c, r, failed)
    ensures ret == 0 ==> state == Min(prev, target) && newTarget == oldTarget
    ensures ret != 0 ==> target < prev && prev <= state <= prev + 1 && newTarget == prev
    ensures state == prev + 1 ==> steps[prev].teardown.Fn?
  {
  }

  // cpuhp_up_callbacks when every startup succeeded (or there was nothing to do).
  lemma UpDone(steps: seq<Step>, cpu: nat, prev: nat, target: nat, oldTarget: nat, state: nat, failed: nat,
               c0: seq<Call>, r0: seq<int>, c: seq<Call>, r: seq<int>)
    requires target < |steps| && state == (if prev >= target then prev else target)
    requires |c0| == |r0| && c == c0 + Startups(steps, cpu, prev + 1, state, false)
    requires r0 <= r && |r| == |c| && AllZero(r[|r0|..])
    ensures UpOutcome(steps, cpu, prev, target, oldTarget, state, oldTarget, 0, c[|c0|..], r[|r0|..], failed)
  {
    assert c[|c0|..] == Startups(steps, cpu, prev + 1, state, false);
  }

  // cpuhp_down_callbacks when every teardown succeeded (or there was nothing to do).
  lemma DownDone(steps: seq<Step>, cpu: nat, prev: nat, target: nat, oldTarget: nat, state: nat, failed: nat,
                 c0: seq<Call>, r0: seq<int>, c: seq<Call>, r: seq<int>)
    requires prev < |steps| && state == (if prev <= target then prev else target)
    requires |c0| == |r0| && c == c0 + Teardowns(steps, cpu, prev, state + 1, false)
    requires r0 <= r && |r| == |c| && AllZero(r[|r0|..])
    ensures DownOutcome(steps, cpu, prev, target, oldTarget, state, oldTarget, 0, c[|c0|..], r[|r0|..], failed)
  {
    assert c[|c0|..] == Teardowns(steps, cpu, prev, state + 1, false);
  }

  // The failure branch of cpuhp_up_callbacks, from the logs as they stand
  // before the call (c0, r0), just after the failing startup (c1, r1) and
  // at the end (c, r).
  lemma UpFailed(steps: seq<Step>, cpu: nat, prev: nat, target: nat, oldTarget: nat, failed: nat, ret: int,
                 c0: seq<Call>, r0: seq<int>, c1: seq<Call>, r1: seq<int>, c: seq<Call>, r: seq<int>)
    requires target < |steps| && prev < failed <= target && steps[failed].startup.Fn? && ret != 0
    requires |c0| == |r0|
    requires c1 == c0 + Startups(steps, cpu, prev + 1, failed - 1, false) + [Call(cpu, failed, steps[failed].startup.id)]
    requires r0 <= r1 && |r1| == |c1| && r1[|r1| - 1] == ret && AllZero(r1[|r0|..|r1| - 1])
    requires c == c1 + Teardowns(steps, cpu, failed - 1, prev + 1, true) && r1 <= r && |r| == |c|
    ensures UpOutcome(steps, cpu, prev, target, oldTarget, prev, prev, ret, c[|c0|..], r[|r0|..], failed)
  {
    var n := |c1| - |c0|;
    assert c[|c0|..] == c1[|c0|..] + Teardowns(steps, cpu, failed - 1, prev + 1, true);
    assert r[|r0|..][..n - 1] == r1[|r0|..|r1| - 1];
  }

  // The failure branch of cpuhp_down_callbacks.
  lemma DownFailed(steps: seq<Step>, cpu: nat, prev: nat, target: nat, oldTarget: nat, failed: nat, ret: int,
                   c0: seq<Call>, r0: seq<int>, c1: seq<Call>, r1: seq<int>, c: seq<Call>, r: seq<int>)
    requires prev < |steps| && target < failed <= prev && steps[failed].teardown.Fn? && ret != 0
    requires |c0| == |r0|
    requires c1 == c0 + Teardowns(steps, cpu, prev, failed + 1, false) + [Call(cpu, failed, steps[failed].teardown.id)]
    requires r0 <= r1 && |r1| == |c1| && r1[|r1| - 1] == ret && AllZero(r1[|r0|..|r1| - 1])
    requires c == c1 + Startups(steps, cpu, failed + 1, prev - 1, true) && r1 <= r && |r| == |c|
    ensures DownOutcome(steps, cpu, prev, target, oldTarget, if failed == prev then prev + 1 else prev, prev, ret,
                        c[|c0|..], r[|r0|..], failed)
  {
    var n := |c1| - |c0|;
    assert c[|c0|..] == c1[|c0|..] + Startups(steps, cpu, failed + 1, prev - 1, true);
    assert r[|r0|..][..n - 1] == r1[|r0|..|r1| - 1];
  }

  // cpuhp_reserve_state's choice: the lowest dynamic slot without a name,
  // or -1 when every dynamic slot is named.
  function FirstFreeDyn(steps: seq<Step>, from: nat): (i: int)
    requires AP_ONLINE_DYN <= from <= AP_ONLINE_DYN_END + 1 && |steps| == AP_STEPS
    ensures i == -1 ==> forall j :: from <= j <= AP_ONLINE_DYN_END ==> steps[j].name.Some?
    ensures i != -1 ==> from <= i <= AP_ONLINE_DYN_END && steps[i].name.None? &&
                        forall j :: from <= j < i ==> steps[j].name.Some?
    decreases AP_ONLINE_DYN_END + 1 - from
  {
    if from > AP_ONLINE_DYN_END then -1
    else if steps[from].name.None? then from
    else FirstFreeDyn(steps, from + 1)
  }
}
