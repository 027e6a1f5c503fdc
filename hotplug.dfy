// The CPU hotplug state machine of kernel/cpu.c.
//
// Each possible CPU has a cpuhp_cpu_state record that the machine updates in
// place. Two step tables drive it: the BP table, run by the controlling CPU,
// and the AP table, run by the hotplug thread of the CPU being plugged. The
// thread is modelled as a synchronous call (waking it and waiting for its
// completion is one step). Callbacks are opaque: calling one appends the
// call to `calls` and its int result, drawn from `outcome`, to `results`.

module Hotplug {
  import opened Base
  import opened HotplugSteps

  // The fields of one cpuhp_cpu_state, as a value.
  datatype HpRecord = HpRecord(state: nat, target: nat, shouldRun: bool, rollback: bool,
                               cbState: nat, cb: Callback, result: int)

  // What the hotplug thread does on a regular wake-up (no single callback,
  // no rollback): step up to the target through the AP table, or down to
  // max(target, TEARDOWN_CPU), or nothing. s0/t0 are the state and target
  // before, s1/t1 after, ret the result, c and r the calls made.
  ghost predicate RegularWork(ap: seq<Step>, cpu: nat, s0: nat, t0: nat, s1: nat, t1: nat, ret: int,
                              c: seq<Call>, r: seq<int>)
    requires s0 < |ap| && t0 < |ap|
  {
    if s0 < t0 then exists f :: UpOutcome(ap, cpu, s0, t0, t0, s1, t1, ret, c, r, f)
    else if s0 > t0 then exists f :: DownOutcome(ap, cpu, s0, Max(t0, TEARDOWN_CPU), t0, s1, t1, ret, c, r, f)
    else ret == 0 && s1 == s0 && t1 == t0 && c == [] && r == []
  }

  // The regular work reaches its goal (the target, or TEARDOWN_CPU when
  // that is higher and the CPU is above it) or leaves the CPU where it was,
  // with the target pulled back to it; a failed descent may end one above.
  lemma RegularWorkState(ap: seq<Step>, cpu: nat, s0: nat, t0: nat, s1: nat, t1: nat, ret: int,
                         c: seq<Call>, r: seq<int>)
    requires s0 < |ap| && t0 < |ap| && RegularWork(ap, cpu, s0, t0, s1, t1, ret, c, r)
    ensures ret == 0 ==> t1 == t0 && s1 == (if s0 > t0 then Min(s0, Max(t0, TEARDOWN_CPU)) else t0)
    ensures ret != 0 ==> s0 != t0 && t1 == s0 && (if s0 < t0 then s1 == s0 else s0 <= s1 <= s0 + 1)
  {
    if s0 < t0 {
      var f :| UpOutcome(ap, cpu, s0, t0, t0, s1, t1, ret, c, r, f);
      UpOutcomeState(ap, cpu, s0, t0, t0, s1, t1, ret, c, r, f);
    } else if s0 > t0 {
      var f :| DownOutcome(ap, cpu, s0, Max(t0, TEARDOWN_CPU), t0, s1, t1, ret, c, r, f);
      DownOutcomeState(ap, cpu, s0, Max(t0, TEARDOWN_CPU), t0, s1, t1, ret, c, r, f);
    }
  }

  // The calls _cpu_up makes once it has committed to the target: from the
  // AP range the CPU's thread walks up (the BP walk that follows then has
  // nothing to do); otherwise cpuhp_up_callbacks walks the BP table up to
  // BRINGUP_CPU, rolling back on failure.
  ghost predicate UpCalls(bp: seq<Step>, ap: seq<Step>, cpu: nat, target: nat, s0: nat,
                          s1: nat, t1: nat, ret: int, c: seq<Call>, r: seq<int>)
    requires |bp| == BP_STEPS && |ap| == AP_STEPS && s0 <= ONLINE && target <= ONLINE
  {
    if s0 > BRINGUP_CPU then RegularWork(ap, cpu, s0, target, s1, t1, ret, c, r)
    else exists f :: UpOutcome(bp, cpu, s0, Min(target, BRINGUP_CPU), target, s1, t1, ret, c, r, f)
  }

  // The BP part of _cpu_down, from state sB with target tB: the teardowns
  // of cpuhp_down_callbacks (the first m calls) and, when they fail having
  // left the CPU in the AP range below prev, the rollback startups the
  // CPU's thread runs back up to prev.
  ghost predicate BpDown(bp: seq<Step>, ap: seq<Step>, cpu: nat, prev: nat, sB: nat, target: nat, tB: nat,
                         s1: nat, t1: nat, ret: int, c: seq<Call>, r: seq<int>)
    requires sB < |bp| && |ap| == AP_STEPS && prev <= ONLINE
  {
    |c| == |r| &&
    exists sC: nat, tC: nat, f: nat, m: nat :: m <= |c| &&
      DownOutcome(bp, cpu, sB, target, tB, sC, tC, ret, c[..m], r[..m], f) &&
      if ret != 0 && TEARDOWN_CPU < sC < prev then
        s1 == prev && t1 == prev && c[m..] == Startups(ap, cpu, sC + 1, prev - 1, true)
      else
        s1 == sC && t1 == tC && m == |c|
  }

  // The calls _cpu_down makes for a present CPU with another CPU online:
  // from the AP range the CPU's thread walks first (the first n calls),
  // and only if it succeeded and reached TEARDOWN_CPU or below does the
  // BP part run.
  ghost predicate DownCalls(bp: seq<Step>, ap: seq<Step>, cpu: nat, target: nat, s0: nat,
                            s1: nat, t1: nat, ret: int, c: seq<Call>, r: seq<int>)
    requires |bp| == BP_STEPS && |ap| == AP_STEPS && s0 <= ONLINE && target <= ONLINE
  {
    |c| == |r| &&
    if s0 > TEARDOWN_CPU then
      exists sA: nat, tA: nat, retA: int, n: nat :: n <= |c| &&
        RegularWork(ap, cpu, s0, target, sA, tA, retA, c[..n], r[..n]) &&
        if retA != 0 || sA > TEARDOWN_CPU then ret == retA && s1 == sA && t1 == tA && n == |c|
        else BpDown(bp, ap, cpu, s0, sA, target, tA, s1, t1, ret, c[n..], r[n..])
    else
      BpDown(bp, ap, cpu, s0, s0, target, target, s1, t1, ret, c, r)
  }

  // Where the BP part of _cpu_down leaves the CPU: at the target on
  // success; on failure back at prev after a rollback, or where the BP
  // walk started (or one above it) with the target pulled back there.
  lemma BpDownState(bp: seq<Step>, ap: seq<Step>, cpu: nat, prev: nat, sB: nat, target: nat, tB: nat,
                    s1: nat, t1: nat, ret: int, c: seq<Call>, r: seq<int>)
    requires sB < |bp| && |ap| == AP_STEPS && prev <= ONLINE
    requires BpDown(bp, ap, cpu, prev, sB, target, tB, s1, t1, ret, c, r)
    ensures ret == 0 ==> s1 == Min(sB, target) && t1 == tB
    ensures ret != 0 ==> target < sB && ((s1 == prev && t1 == prev) || (sB <= s1 <= sB + 1 && t1 == sB))
  {
    var sC: nat, tC: nat, f: nat, m: nat :| m <= |c| &&
      DownOutcome(bp, cpu, sB, target, tB, sC, tC, ret, c[..m], r[..m], f) &&
      if ret != 0 && TEARDOWN_CPU < sC < prev then
        s1 == prev && t1 == prev && c[m..] == Startups(ap, cpu, sC + 1, prev - 1, true)
      else
        s1 == sC && t1 == tC && m == |c|;
    DownOutcomeState(bp, cpu, sB, target, tB, sC, tC, ret, c[..m], r[..m], f);
  }

  // Where _cpu_down leaves the CPU: success reaches the target (from the
  // AP range only if the thread took it all the way) with the target
  // kept; failure leaves the CPU where it was, one above it, or at
  // TEARDOWN_CPU, with the target back at the starting state or at
  // TEARDOWN_CPU.
  lemma DownCallsState(bp: seq<Step>, ap: seq<Step>, cpu: nat, target: nat, s0: nat,
                       s1: nat, t1: nat, ret: int, c: seq<Call>, r: seq<int>)
    requires |bp| == BP_STEPS && |ap| == AP_STEPS && s0 <= ONLINE && target <= ONLINE
    requires DownCalls(bp, ap, cpu, target, s0, s1, t1, ret, c, r)
    ensures ret == 0 ==> t1 == target && s1 == (if s0 <= TEARDOWN_CPU then Min(s0, target) else target)
    ensures ret != 0 ==> (s0 <= s1 <= s0 + 1 || s1 == TEARDOWN_CPU) &&
                         (t1 == s0 || (s0 > TEARDOWN_CPU && t1 == TEARDOWN_CPU))
  {
    if s0 > TEARDOWN_CPU {
      var sA: nat, tA: nat, retA: int, n: nat :| n <= |c| &&
        RegularWork(ap, cpu, s0, target, sA, tA, retA, c[..n], r[..n]) &&
        if retA != 0 || sA > TEARDOWN_CPU then ret == retA && s1 == sA && t1 == tA && n == |c|
        else BpDown(bp, ap, cpu, s0, sA, target, tA, s1, t1, ret, c[n..], r[n..]);
      RegularWorkState(ap, cpu, s0, target, sA, tA, retA, c[..n], r[..n]);
      if retA == 0 && sA <= TEARDOWN_CPU {
        BpDownState(bp, ap, cpu, s0, sA, target, tA, s1, t1, ret, c[n..], r[n..]);
      }
    } else {
      BpDownState(bp, ap, cpu, s0, s0, target, target, s1, t1, ret, c, r);
    }
  }

  // The BP part of _cpu_down when no rollback follows the BP walk.
  lemma BpDownDone(bp: seq<Step>, ap: seq<Step>, cpu: nat, prev: nat, sB: nat, target: nat, tB: nat,
                   sC: nat, tC: nat, ret: int, f: nat, c: seq<Call>, r: seq<int>)
    requires sB < |bp| && |ap| == AP_STEPS && prev <= ONLINE
    requires DownOutcome(bp, cpu, sB, target, tB, sC, tC, ret, c, r, f)
    requires !(ret != 0 && TEARDOWN_CPU < sC < prev)
    ensures BpDown(bp, ap, cpu, prev, sB, target, tB, sC, tC, ret, c, r)
  {
    assert c[..|c|] == c && r[..|r|] == r;
  }

  // The BP part of _cpu_down when the CPU's thread rolls back up to prev.
  lemma BpDownRollback(bp: seq<Step>, ap: seq<Step>, cpu: nat, prev: nat, sB: nat, target: nat, tB: nat,
                       sC: nat, tC: nat, ret: int, f: nat, cD: seq<Call>, rD: seq<int>, cR: seq<Call>, rR: seq<int>)
    requires sB < |bp| && |ap| == AP_STEPS && prev <= ONLINE
    requires DownOutcome(bp, cpu, sB, target, tB, sC, tC, ret, cD, rD, f)
    requires ret != 0 && TEARDOWN_CPU < sC < prev
    requires cR == Startups(ap, cpu, sC + 1, prev - 1, true) && |cR| == |rR|
    ensures BpDown(bp, ap, cpu, prev, sB, target, tB, prev, prev, ret, cD + cR, rD + rR)
  {
    assert (cD + cR)[..|cD|] == cD && (rD + rR)[..|rD|] == rD && (cD + cR)[|cD|..] == cR;
  }

  // _cpu_down when the CPU's thread failed or stopped in the AP range.
  lemma DownCallsAp(bp: seq<Step>, ap: seq<Step>, cpu: nat, target: nat, s0: nat,
                    sA: nat, tA: nat, retA: int, c: seq<Call>, r: seq<int>)
    requires |bp| == BP_STEPS && |ap| == AP_STEPS && TEARDOWN_CPU < s0 <= ONLINE && target <= ONLINE
    requires RegularWork(ap, cpu, s0, target, sA, tA, retA, c, r) && |c| == |r|
    requires retA != 0 || sA > TEARDOWN_CPU
    ensures DownCalls(bp, ap, cpu, target, s0, sA, tA, retA, c, r)
  {
    assert c[..|c|] == c && r[..|r|] == r;
  }

  // _cpu_down when the CPU's thread brought it down to TEARDOWN_CPU and
  // the BP part followed.
  lemma DownCallsBp(bp: seq<Step>, ap: seq<Step>, cpu: nat, target: nat, s0: nat, sA: nat, tA: nat,
                    cA: seq<Call>, rA: seq<int>, s1: nat, t1: nat, ret: int, cB: seq<Call>, rB: seq<int>)
    requires |bp| == BP_STEPS && |ap| == AP_STEPS && TEARDOWN_CPU < s0 <= ONLINE && target <= ONLINE
    requires RegularWork(ap, cpu, s0, target, sA, tA, 0, cA, rA) && |cA| == |rA| && sA <= TEARDOWN_CPU
    requires BpDown(bp, ap, cpu, s0, sA, target, tA, s1, t1, ret, cB, rB)
    ensures DownCalls(bp, ap, cpu, target, s0, s1, t1, ret, cA + cB, rA + rB)
  {
    assert (cA + cB)[..|cA|] == cA && (rA + rB)[..|rA|] == rA;
    assert (cA + cB)[|cA|..] == cB && (rA + rB)[|rA|..] == rB;
  }

  // struct cpuhp_cpu_state
  class CpuHpState {
    var state: nat
    var target: nat
    var shouldRun: bool
    var rollback: bool
    var cbState: nat
    var cb: Callback
    var result: int

    ghost function View(): HpRecord
      reads this
    {
      HpRecord(state, target, shouldRun, rollback, cbState, cb, result)
    }

    // The per-CPU variable starts zeroed: OFFLINE, nothing to run.
    constructor ()
      ensures state == OFFLINE && target == OFFLINE && cbState == OFFLINE
      ensures !shouldRun && !rollback && cb == Null && result == 0
    {
      state, target, cbState := OFFLINE, OFFLINE, OFFLINE;
      shouldRun, rollback := false, false;
      cb, result := Null, 0;
    }
  }

  // The state of every CPU.
  ghost function States(cs: seq<CpuHpState>): (p: seq<nat>)
    reads cs
    ensures |p| == |cs|
    ensures forall i :: 0 <= i < |cs| ==> p[i] == cs[i].state
  {
    if cs == [] then [] else States(cs[..|cs| - 1]) + [cs[|cs| - 1].state]
  }

  class Machine {
    const nrCpus: nat
    const cpus: seq<CpuHpState>
    ghost const objs: set<CpuHpState>
    const bp: array<Step>            // cpuhp_bp_states[]
    const ap: array<Step>            // cpuhp_ap_states[]
    const present: set<nat>          // cpu_present_mask
    const online: set<nat>           // cpu_online_mask
    const outcome: (nat, Call) -> int // result of the n-th callback call
    var disabled: int                // cpu_hotplug_disabled
    var calls: seq<Call>
    var results: seq<int>
    ghost var oops: bool             // a BUG_ON has fired

    ghost predicate Structure()
      reads this, bp, ap
    {
      |cpus| == nrCpus &&
      (forall c :: c in present ==> c < nrCpus) && online <= present &&
      objs == (set i | 0 <= i < |cpus| :: cpus[i]) &&
      (forall i, j :: 0 <= i < j < |cpus| ==> cpus[i] != cpus[j]) &&
      bp.Length == BP_STEPS && ap.Length == AP_STEPS &&
      ap[ONLINE].teardown == Null &&
      |calls| == |results|
    }

    // Every CPU within the state space, and no rollback pending.
    ghost predicate Valid()
      reads this, objs, bp, ap
    {
      Structure() &&
      forall i :: 0 <= i < |cpus| ==>
        cpus[i].state <= ONLINE && cpus[i].target <= ONLINE && !cpus[i].rollback
    }

    // As Valid, except that `cpu` may have a rollback pending, which
    // _cpu_down only requests for a state below the target.
    ghost predicate RollbackPending(cpu: nat)
      reads this, objs, bp, ap
    {
      Structure() && cpu < |cpus| &&
      forall i :: 0 <= i < |cpus| ==>
        cpus[i].state <= ONLINE && cpus[i].target <= ONLINE &&
        (cpus[i].rollback ==> i == cpu && cpus[i].state < cpus[i].target)
    }

    // The static step tables (kernel/cpu.c:1208-1311), every CPU OFFLINE
    // except the boot CPU, which boot_cpu_state_init puts at ONLINE.
    constructor (n: nat, boot: nat, present: set<nat>, online: set<nat>, outcome: (nat, Call) -> int)
      requires boot < n && (forall c :: c in present ==> c < n) && online <= present
      ensures Valid() && fresh(objs) && fresh(bp) && fresh(ap)
      ensures this.present == present && this.online == online && this.outcome == outcome
      ensures disabled == 0 && calls == [] && results == [] && !oops
      ensures nrCpus == n && |cpus| == n
      ensures forall i :: 0 <= i < n ==> cpus[i].state == (if i == boot then ONLINE else OFFLINE)
      ensures forall s :: 0 <= s < BP_STEPS ==> bp[s] == BpStep(s)
      ensures forall s :: 0 <= s < AP_STEPS ==> ap[s] == ApStep(s)
    {
      var list: seq<CpuHpState> := [];
      while |list| < n
        invariant |list| <= n
        invariant forall i, j :: 0 <= i < j < |list| ==> list[i] != list[j]
        invariant forall i :: 0 <= i < |list| ==> fresh(list[i])
        invariant forall i :: 0 <= i < |list| ==> list[i].state == OFFLINE && list[i].target == OFFLINE && !list[i].rollback
      {
        var c := new CpuHpState();
        list := list + [c];
      }
      list[boot].state := ONLINE;
      var b := new Step[BP_STEPS](s => BpStep(s));
      var a := new Step[AP_STEPS](s => ApStep(s));
      nrCpus, cpus := n, list;
      objs := set i | 0 <= i < |list| :: list[i];
      bp, ap := b, a;
      this.present, this.online, this.outcome := present, online, outcome;
      disabled, calls, results := 0, [], [];
      oops := false;
    }

    // cpuhp_invoke_callback: a NULL callback is a successful no-op.
    method InvokeCallback(cpu: nat, s: nat, cb: Callback) returns (ret: int)
      modifies this`calls, this`results
      ensures cb.Null? ==> ret == 0 && calls == old(calls) && results == old(results)
      ensures cb.Fn? ==> ret == outcome(|old(calls)|, Call(cpu, s, cb.id)) &&
                         calls == old(calls) + [Call(cpu, s, cb.id)] && results == old(results) + [ret]
    {
      ret := 0;
      if cb.Fn? {
        var c := Call(cpu, s, cb.id);
        ret := outcome(|calls|, c);
        calls, results := calls + [c], results + [ret];
      }
    }

    // undo_cpu_down: re-run the startups above the state, up to the target.
    method UndoCpuDown(cpu: nat, st: CpuHpState, steps: seq<Step>)
      requires st.state < |steps| && st.target <= |steps|
      requires |calls| == |results|
      modifies st`state, this`calls, this`results
      ensures st.state == Max(old(st.state) + 1, st.target)
      ensures calls == old(calls) + Startups(steps, cpu, old(st.state) + 1, st.target - 1, true)
      ensures |calls| == |results| && old(results) <= results
    {
      st.state := st.state + 1;
      while st.state < st.target
        invariant old(st.state) + 1 <= st.state <= Max(old(st.state) + 1, st.target)
        invariant calls == old(calls) + Startups(steps, cpu, old(st.state) + 1, st.state - 1, true)
        invariant |calls| == |results| && old(results) <= results
        decreases st.target - st.state
      {
        var step := steps[st.state];
        if !step.skipOnErr {
          var _ := InvokeCallback(cpu, st.state, step.startup);
        }
        st.state := st.state + 1;
      }
    }

    // The loop of cpuhp_down_callbacks: teardowns from the state down to
    // target + 1, stopping at the first one that fails, with the state
    // left at the failing step.
    method DownWalk(cpu: nat, st: CpuHpState, steps: seq<Step>, target: nat) returns (ret: int)
      requires st.state < |steps| && |calls| == |results|
      modifies st`state, this`calls, this`results
      ensures |calls| == |results| && old(calls) <= calls && old(results) <= results
      ensures ret == 0 ==> st.state == Min(old(st.state), target) &&
                           calls == old(calls) + Teardowns(steps, cpu, old(st.state), st.state + 1, false) &&
                           AllZero(results[|old(results)|..])
      ensures ret != 0 ==> target < st.state <= old(st.state) && steps[st.state].teardown.Fn? &&
                           calls == old(calls) + Teardowns(steps, cpu, old(st.state), st.state + 1, false) +
                                    [Call(cpu, st.state, steps[st.state].teardown.id)] &&
                           AllZero(results[|old(results)|..|results| - 1]) && results[|results| - 1] == ret
    {
      ret := 0;
      while st.state > target
        invariant st.state <= old(st.state) && (old(st.state) > target ==> target <= st.state)
        invariant old(st.state) <= target ==> st.state == old(st.state)
        invariant calls == old(calls) + Teardowns(steps, cpu, old(st.state), st.state + 1, false)
        invariant |calls| == |results| && old(results) <= results && AllZero(results[|old(results)|..])
      {
        ret := InvokeCallback(cpu, st.state, steps[st.state].teardown);
        if ret != 0 {
          return;
        }
        st.state := st.state - 1;
      }
    }

    // cpuhp_down_callbacks
    method DownCallbacks(cpu: nat, st: CpuHpState, steps: seq<Step>, target: nat) returns (ret: int, ghost failed: nat)
      requires st.state < |steps| && |calls| == |results|
      modifies st`state, st`target, this`calls, this`results
      ensures old(calls) <= calls && old(results) <= results
      ensures DownOutcome(steps, cpu, old(st.state), target, old(st.target), st.state, st.target, ret,
                          calls[|old(calls)|..], results[|old(results)|..], failed)
    {
      var prev := st.state;
      failed := 0;
      ret := DownWalk(cpu, st, steps, target);
      if ret != 0 {
        failed := st.state;
        st.target := prev;
        ghost var c1, r1 := calls, results;
        UndoCpuDown(cpu, st, steps);
        DownFailed(steps, cpu, prev, target, old(st.target), failed, ret,
                   old(calls), old(results), c1, r1, calls, results);
      } else {
        DownDone(steps, cpu, prev, target, old(st.target), st.state, failed, old(calls), old(results), calls, results);
      }
    }

    // undo_cpu_up: re-run the teardowns below the state, down to the target.
    method UndoCpuUp(cpu: nat, st: CpuHpState, steps: seq<Step>)
      requires 0 < st.state <= |steps| && |calls| == |results|
      modifies st`state, this`calls, this`results
      ensures st.state == Min(old(st.state) - 1, st.target)
      ensures calls == old(calls) + Teardowns(steps, cpu, old(st.state) - 1, st.target + 1, true)
      ensures |calls| == |results| && old(results) <= results
    {
      st.state := st.state - 1;
      while st.state > st.target
        invariant Min(old(st.state) - 1, st.target) <= st.state <= old(st.state) - 1
        invariant calls == old(calls) + Teardowns(steps, cpu, old(st.state) - 1, st.state + 1, true)
        invariant |calls| == |results| && old(results) <= results
      {
        var step := steps[st.state];
        if !step.skipOnErr {
          var _ := InvokeCallback(cpu, st.state, step.teardown);
        }
        st.state := st.state - 1;
      }
    }

    // The loop of cpuhp_up_callbacks: startups from state + 1 up to the
    // target, stopping at the first one that fails, with the state left at
    // the failing step.
    method UpWalk(cpu: nat, st: CpuHpState, steps: seq<Step>, target: nat) returns (ret: int)
      requires target < |steps| && |calls| == |results|
      modifies st`state, this`calls, this`results
      ensures |calls| == |results| && old(calls) <= calls && old(results) <= results
      ensures ret == 0 ==> st.state == Max(old(st.state), target) &&
                           calls == old(calls) + Startups(steps, cpu, old(st.state) + 1, st.state, false) &&
                           AllZero(results[|old(results)|..])
      ensures ret != 0 ==> old(st.state) < st.state <= target && steps[st.state].startup.Fn? &&
                           calls == old(calls) + Startups(steps, cpu, old(st.state) + 1, st.state - 1, false) +
                                    [Call(cpu, st.state, steps[st.state].startup.id)] &&
                           AllZero(results[|old(results)|..|results| - 1]) && results[|results| - 1] == ret
    {
      ret := 0;
      while st.state < target
        invariant old(st.state) <= st.state && (old(st.state) < target ==> st.state <= target)
        invariant old(st.state) >= target ==> st.state == old(st.state)
        invariant calls == old(calls) + Startups(steps, cpu, old(st.state) + 1, st.state, false)
        invariant |calls| == |results| && old(results) <= results && AllZero(results[|old(results)|..])
      {
        st.state := st.state + 1;
        ret := InvokeCallback(cpu, st.state, steps[st.state].startup);
        if ret != 0 {
          return;
        }
      }
    }

    // cpuhp_up_callbacks
    method UpCallbacks(cpu: nat, st: CpuHpState, steps: seq<Step>, target: nat) returns (ret: int, ghost failed: nat)
      requires target < |steps| && |calls| == |results|
      modifies st`state, st`target, this`calls, this`results
      ensures old(calls) <= calls && old(results) <= results
      ensures UpOutcome(steps, cpu, old(st.state), target, old(st.target), st.state, st.target, ret,
                        calls[|old(calls)|..], results[|old(results)|..], failed)
    {
      var prev := st.state;
      failed := 0;
      ret := UpWalk(cpu, st, steps, target);
      if ret != 0 {
        failed := st.state;
        st.target := prev;
        ghost var c1, r1 := calls, results;
        UndoCpuUp(cpu, st, steps);
        UpFailed(steps, cpu, prev, target, old(st.target), failed, ret,
                 old(calls), old(results), c1, r1, calls, results);
      } else {
        UpDone(steps, cpu, prev, target, old(st.target), st.state, failed, old(calls), old(results), calls, results);
      }
    }

    // cpuhp_ap_online: the thread steps up to the CPU's target.
    method ApOnline(cpu: nat, st: CpuHpState) returns (ret: int, ghost failed: nat)
      requires st.target < ap.Length && |calls| == |results|
      modifies st`state, st`target, this`calls, this`results
      ensures old(calls) <= calls && old(results) <= results
      ensures UpOutcome(ap[..], cpu, old(st.state), old(st.target), old(st.target), st.state, st.target, ret,
                        calls[|old(calls)|..], results[|old(results)|..], failed)
    {
      ret, failed := UpCallbacks(cpu, st, ap[..], st.target);
    }

    // cpuhp_ap_offline: the thread steps down, never below TEARDOWN_CPU;
    // the rest of the way down is the controlling CPU's.
    method ApOffline(cpu: nat, st: CpuHpState) returns (ret: int, ghost failed: nat)
      requires st.state < ap.Length && |calls| == |results|
      modifies st`state, st`target, this`calls, this`results
      ensures old(calls) <= calls && old(results) <= results
      ensures DownOutcome(ap[..], cpu, old(st.state), Max(old(st.target), TEARDOWN_CPU), old(st.target),
                          st.state, st.target, ret, calls[|old(calls)|..], results[|old(results)|..], failed)
    {
      var target := Max(st.target, TEARDOWN_CPU);
      ret, failed := DownCallbacks(cpu, st, ap[..], target);
    }

    // cpuhp_thread_fun: one wake-up of the CPU's hotplug thread. It does
    // exactly one kind of work: a single callback if one is set, else the
    // pending rollback, else regular stepping. A BUG_ON that fires is
    // recorded in `oops`.
    method ThreadFun(cpu: nat)
      requires RollbackPending(cpu)
      modifies cpus[cpu], this`calls, this`results, this`oops
      ensures RollbackPending(cpu) && old(calls) <= calls && old(results) <= results
      ensures var v, w := old(cpus[cpu].View()), cpus[cpu].View();
              !v.shouldRun ==> w == v && calls == old(calls) && results == old(results) && oops == old(oops)
      ensures var v, w := old(cpus[cpu].View()), cpus[cpu].View();
              v.shouldRun && v.cb.Fn? ==>
                w == v.(shouldRun := false, result := w.result) && oops == old(oops) &&
                calls == old(calls) + [Call(cpu, v.cbState, v.cb.id)] && results == old(results) + [w.result]
      ensures var v := old(cpus[cpu].View());
              v.shouldRun && v.cb.Null? ==> oops == (old(oops) || v.state < AP_ONLINE_IDLE)
      ensures var v, w := old(cpus[cpu].View()), cpus[cpu].View();
              v.shouldRun && v.cb.Null? && v.rollback ==>
                w == v.(shouldRun := false, rollback := false, state := v.target, result := 0) &&
                calls == old(calls) + Startups(ap[..], cpu, v.state + 1, v.target - 1, true)
      ensures var v, w := old(cpus[cpu].View()), cpus[cpu].View();
              v.shouldRun && v.cb.Null? && !v.rollback ==>
                !w.shouldRun && !w.rollback && w.cb == v.cb && w.cbState == v.cbState &&
                RegularWork(ap[..], cpu, v.state, v.target, w.state, w.target, w.result,
                            calls[|old(calls)|..], results[|old(results)|..])
    {
      var st := cpus[cpu];
      if !st.shouldRun {
        return;
      }
      st.shouldRun := false;
      var ret := 0;
      if st.cb.Fn? {
        ret := InvokeCallback(cpu, st.cbState, st.cb);
      } else if st.rollback {
        RollbackWork(cpu, st);
      } else {
        ret := ApWork(cpu, st);
      }
      st.result := ret;
    }

    // The rollback branch of cpuhp_thread_fun: undo_cpu_down brings the
    // CPU back up to the target _cpu_down restored.
    method RollbackWork(cpu: nat, st: CpuHpState)
      requires st.state < st.target <= ONLINE && ap.Length == AP_STEPS && |calls| == |results|
      modifies st`state, st`rollback, this`oops, this`calls, this`results
      ensures st.state == old(st.target) && !st.rollback
      ensures oops == (old(oops) || old(st.state) < AP_ONLINE_IDLE)
      ensures calls == old(calls) + Startups(ap[..], cpu, old(st.state) + 1, st.target - 1, true)
      ensures |calls| == |results| && old(results) <= results
    {
      oops := oops || st.state < AP_ONLINE_IDLE;
      UndoCpuDown(cpu, st, ap[..]);
      st.rollback := false;
    }

    // The regular branch of cpuhp_thread_fun.
    method ApWork(cpu: nat, st: CpuHpState) returns (ret: int)
      requires st.state <= ONLINE && st.target <= ONLINE && |calls| == |results|
      requires ap.Length == AP_STEPS && ap[ONLINE].teardown == Null
      modifies st`state, st`target, this`oops, this`calls, this`results
      ensures st.state <= ONLINE && st.target <= ONLINE
      ensures oops == (old(oops) || old(st.state) < AP_ONLINE_IDLE)
      ensures |calls| == |results| && old(calls) <= calls && old(results) <= results
      ensures RegularWork(ap[..], cpu, old(st.state), old(st.target), st.state, st.target, ret,
                          calls[|old(calls)|..], results[|old(results)|..])
    {
      oops := oops || st.state < AP_ONLINE_IDLE;
      ret := 0;
      if st.state < st.target {
        ghost var f;
        ret, f := ApOnline(cpu, st);
      } else if st.state > st.target {
        ghost var f;
        ret, f := ApOffline(cpu, st);
      }
    }

    ghost function Tabs(): Tables
      reads this, bp, ap
    {
      Tables(bp[..], ap[..])
    }

    // __cpuhp_kick_ap_work and cpuhp_kick_ap_work: regular (or rollback)
    // work for the CPU's thread, waited for.
    method KickApWork(cpu: nat) returns (ret: int)
      requires RollbackPending(cpu)
      modifies cpus[cpu], this`calls, this`results, this`oops
      ensures Valid() && old(calls) <= calls && old(results) <= results
      ensures cpus[cpu].cb == Null && !cpus[cpu].shouldRun && cpus[cpu].result == ret
      ensures oops == (old(oops) || old(cpus[cpu].state) < AP_ONLINE_IDLE)
      ensures old(cpus[cpu].rollback) ==>
                ret == 0 && cpus[cpu].state == old(cpus[cpu].target) && cpus[cpu].target == old(cpus[cpu].target) &&
                calls == old(calls) + Startups(ap[..], cpu, old(cpus[cpu].state) + 1, old(cpus[cpu].target) - 1, true)
      ensures !old(cpus[cpu].rollback) ==>
                RegularWork(ap[..], cpu, old(cpus[cpu].state), old(cpus[cpu].target), cpus[cpu].state,
                            cpus[cpu].target, ret, calls[|old(calls)|..], results[|old(results)|..])
    {
      var st := cpus[cpu];
      st.result, st.cb, st.shouldRun := 0, Null, true;
      ThreadFun(cpu);
      ret := st.result;
    }

    // cpuhp_invoke_ap_callback: run one callback on the CPU's thread; an
    // offline CPU has no thread to run it and reports success.
    method InvokeApCallback(cpu: nat, state: nat, cb: Callback) returns (ret: int)
      requires Valid() && cpu < nrCpus && cb.Fn?
      modifies cpus[cpu], this`calls, this`results, this`oops
      ensures Valid() && oops == old(oops) && cpus[cpu].state == old(cpus[cpu].state) && cpus[cpu].target == old(cpus[cpu].target)
      ensures cpu !in online ==> ret == 0 && calls == old(calls) && results == old(results)
      ensures cpu in online ==> calls == old(calls) + [Call(cpu, state, cb.id)] && results == old(results) + [ret]
    {
      if cpu !in online {
        return 0;
      }
      var st := cpus[cpu];
      st.cbState, st.cb, st.shouldRun := state, cb, true;
      ThreadFun(cpu);
      ret := st.result;
    }

    // notify_cpu_starting: on the incoming CPU, run the AP startups up to
    // min(target, AP_ONLINE); their results are not looked at.
    method NotifyCpuStarting(cpu: nat)
      requires Valid() && cpu < nrCpus
      modifies cpus[cpu], this`calls, this`results
      ensures Valid() && cpus[cpu].View() == old(cpus[cpu].View()).(state := cpus[cpu].state)
      ensures var t := Min(cpus[cpu].target, AP_ONLINE);
              cpus[cpu].state == Max(old(cpus[cpu].state), t) &&
              calls == old(calls) + Startups(ap[..], cpu, old(cpus[cpu].state) + 1, t, false)
    {
      var st := cpus[cpu];
      var target := Min(st.target, AP_ONLINE);
      while st.state < target
        invariant old(st.state) <= st.state <= Max(old(st.state), target)
        invariant st.View() == old(st.View()).(state := st.state)
        invariant calls == old(calls) + Startups(ap[..], cpu, old(st.state) + 1, st.state, false)
        invariant |calls| == |results|
      {
        st.state := st.state + 1;
        var _ := InvokeCallback(cpu, st.state, ap[st.state].startup);
      }
    }

    // What _cpu_up promises: the error returns leave everything alone;
    // otherwise success reaches the target (the BP side stopping at
    // BRINGUP_CPU, the rest being the AP thread's), and failure leaves the
    // CPU where it was with the target pulled back to it.
    twostate predicate UpResult(cpu: nat, target: nat, idleErr: int, ret: int)
      reads this, cpus, ap, bp
      requires cpu < |cpus| && target <= ONLINE && old(cpus[cpu].state) <= ONLINE
      requires ap.Length == AP_STEPS && bp.Length == BP_STEPS
    {
      var s0, t0 := old(cpus[cpu].state), old(cpus[cpu].target);
      var s1, t1 := cpus[cpu].state, cpus[cpu].target;
      var untouched := s1 == s0 && t1 == t0 && calls == old(calls);
      (s0 >= target ==> ret == 0 && untouched) &&
      (s0 == OFFLINE < target && idleErr != 0 ==> ret == idleErr && untouched) &&
      (s0 < target && (s0 != OFFLINE || idleErr == 0) ==>
         (ret == 0 ==> t1 == target && s1 == (if s0 <= BRINGUP_CPU then Min(target, BRINGUP_CPU) else target)) &&
         (ret != 0 ==> s1 == s0 && t1 == s0) &&
         |old(calls)| <= |calls| && |old(results)| <= |results| &&
         UpCalls(bp[..], ap[..], cpu, target, s0, s1, t1, ret, calls[|old(calls)|..], results[|old(results)|..]))
    }

    // _cpu_up. A non-present CPU is refused before anything is looked at;
    // idleErr is what idle_thread_get reports for an OFFLINE CPU.
    method CpuUp(cpu: nat, target: nat, idleErr: int) returns (ret: int)
      requires Valid() && target <= ONLINE
      modifies objs, this`calls, this`results, this`oops
      ensures Valid() && old(calls) <= calls && old(results) <= results
      ensures cpu !in present ==> ret == -EINVAL && calls == old(calls) && unchanged(objs)
      ensures cpu in present ==> UpResult(cpu, target, idleErr, ret)
      ensures cpu in present && old(cpus[cpu].state) <= BRINGUP_CPU ==> oops == old(oops)
      ensures forall i :: 0 <= i < nrCpus && i != cpu ==> unchanged(cpus[i])
    {
      if cpu !in present {
        return -EINVAL;
      }
      var st := cpus[cpu];
      if st.state >= target {
        return 0;
      }
      if st.state == OFFLINE && idleErr != 0 {
        return idleErr;
      }
      st.target := target;
      if st.state > BRINGUP_CPU {
        ret := CpuUpAp(cpu, target);
        RegularWorkState(ap[..], cpu, old(st.state), target, st.state, st.target, ret,
                         calls[|old(calls)|..], results[|old(results)|..]);
      } else {
        ghost var f;
        ret, f := UpCallbacks(cpu, st, bp[..], Min(target, BRINGUP_CPU));
        UpOutcomeState(bp[..], cpu, old(st.state), Min(target, BRINGUP_CPU), target, st.state, st.target, ret,
                       calls[|old(calls)|..], results[|old(results)|..], f);
      }
    }

    // _cpu_up from the AP range: the CPU's thread walks up to the target;
    // the BP walk to BRINGUP_CPU that follows has nothing left to do.
    method CpuUpAp(cpu: nat, target: nat) returns (ret: int)
      requires Valid() && cpu < nrCpus && BRINGUP_CPU < cpus[cpu].state < target <= ONLINE
      requires cpus[cpu].target == target
      modifies cpus[cpu], this`calls, this`results, this`oops
      ensures Valid() && old(calls) <= calls && old(results) <= results
      ensures RegularWork(ap[..], cpu, old(cpus[cpu].state), target, cpus[cpu].state, cpus[cpu].target, ret,
                          calls[|old(calls)|..], results[|old(results)|..])
    {
      var st := cpus[cpu];
      ret := KickApWork(cpu);
      if ret != 0 {
        return;
      }
      RegularWorkState(ap[..], cpu, old(st.state), target, st.state, st.target, ret,
                       calls[|old(calls)|..], results[|old(results)|..]);
      ghost var s1, t1, c1, r1 := st.state, st.target, calls, results;
      ghost var f;
      ret, f := UpCallbacks(cpu, st, bp[..], Min(target, BRINGUP_CPU));
      UpOutcomeState(bp[..], cpu, s1, Min(target, BRINGUP_CPU), t1, st.state, st.target, ret,
                     calls[|c1|..], results[|r1|..], f);
      assert calls[|c1|..] == [] && results[|r1|..] == [];
      assert calls == c1 && results == r1;
    }

    // What _cpu_down promises for a present CPU with another CPU online:
    // the calls of DownCalls, and the state and target DownCallsState
    // derives from them.
    twostate predicate DownResult(cpu: nat, target: nat, ret: int)
      reads this, cpus, ap, bp
      requires cpu < |cpus| && target <= ONLINE && old(cpus[cpu].state) <= ONLINE
      requires ap.Length == AP_STEPS && bp.Length == BP_STEPS
    {
      var s0, s1, t1 := old(cpus[cpu].state), cpus[cpu].state, cpus[cpu].target;
      (ret == 0 ==> t1 == target && s1 == (if s0 <= TEARDOWN_CPU then Min(s0, target) else target)) &&
      (ret != 0 ==> (s0 <= s1 <= s0 + 1 || s1 == TEARDOWN_CPU) &&
                    (t1 == s0 || (s0 > TEARDOWN_CPU && t1 == TEARDOWN_CPU))) &&
      |old(calls)| <= |calls| && |old(results)| <= |results| &&
      DownCalls(bp[..], ap[..], cpu, target, s0, s1, t1, ret, calls[|old(calls)|..], results[|old(results)|..])
    }

    // _cpu_down
    method CpuDown(cpu: nat, target: nat) returns (ret: int)
      requires Valid() && target <= ONLINE
      modifies objs, this`calls, this`results, this`oops
      ensures Valid() && old(calls) <= calls && old(results) <= results && oops == old(oops)
      ensures |online| == 1 ==> ret == -EBUSY && calls == old(calls) && unchanged(objs)
      ensures |online| != 1 && cpu !in present ==>
                ret == -EINVAL && calls == old(calls) && unchanged(objs)
      ensures |online| != 1 && cpu in present ==> DownResult(cpu, target, ret)
      ensures forall i :: 0 <= i < nrCpus && i != cpu ==> unchanged(cpus[i])
    {
      if |online| == 1 {
        return -EBUSY;
      }
      if cpu !in present {
        return -EINVAL;
      }
      var st := cpus[cpu];
      var prev := st.state;
      st.target := target;
      if st.state > TEARDOWN_CPU {
        ret := CpuDownAp(cpu, prev, target);
      } else {
        ret := CpuDownBp(cpu, prev, target);
      }
      DownCallsState(bp[..], ap[..], cpu, target, prev, st.state, st.target, ret,
                     calls[|old(calls)|..], results[|old(results)|..]);
    }

    // _cpu_down from the AP range: the CPU's thread walks first, and the
    // BP part follows only if it got down to TEARDOWN_CPU.
    method CpuDownAp(cpu: nat, prev: nat, target: nat) returns (ret: int)
      requires Valid() && cpu < nrCpus && TEARDOWN_CPU < prev <= ONLINE && target <= ONLINE
      requires cpus[cpu].state == prev && cpus[cpu].target == target
      modifies cpus[cpu], this`calls, this`results, this`oops
      ensures Valid() && old(calls) <= calls && old(results) <= results && oops == old(oops)
      ensures DownCalls(bp[..], ap[..], cpu, target, prev, cpus[cpu].state, cpus[cpu].target, ret,
                        calls[|old(calls)|..], results[|old(results)|..])
    {
      var st := cpus[cpu];
      ret := KickApWork(cpu);
      ghost var sA, tA, c1, r1 := st.state, st.target, calls, results;
      RegularWorkState(ap[..], cpu, prev, target, sA, tA, ret, calls[|old(calls)|..], results[|old(results)|..]);
      if ret != 0 || st.state > TEARDOWN_CPU {
        DownCallsAp(bp[..], ap[..], cpu, target, prev, sA, tA, ret, calls[|old(calls)|..], results[|old(results)|..]);
        return;
      }
      ret := CpuDownBp(cpu, prev, target);
      DownCallsBp(bp[..], ap[..], cpu, target, prev, sA, tA, c1[|old(calls)|..], r1[|old(results)|..],
                  st.state, st.target, ret, calls[|c1|..], results[|r1|..]);
      assert calls[|old(calls)|..] == c1[|old(calls)|..] + calls[|c1|..];
      assert results[|old(results)|..] == r1[|old(results)|..] + results[|r1|..];
    }

    // The part of _cpu_down on the controlling CPU, from TEARDOWN_CPU or
    // below: the BP teardowns, and if they fail having left the CPU in the
    // AP range below where _cpu_down found it (prev), a rollback by the
    // CPU's thread back up to prev.
    method CpuDownBp(cpu: nat, prev: nat, target: nat) returns (ret: int)
      requires Valid() && cpu < nrCpus && cpus[cpu].state <= TEARDOWN_CPU && cpus[cpu].state <= prev <= ONLINE
      modifies cpus[cpu], this`calls, this`results, this`oops
      ensures Valid() && old(calls) <= calls && old(results) <= results && oops == old(oops)
      ensures ret == 0 ==> cpus[cpu].state == Min(old(cpus[cpu].state), target)
      ensures ret != 0 ==> cpus[cpu].state == prev ||
                           (old(cpus[cpu].state) <= cpus[cpu].state <= old(cpus[cpu].state) + 1 &&
                            !(TEARDOWN_CPU < cpus[cpu].state < prev))
      ensures BpDown(bp[..], ap[..], cpu, prev, old(cpus[cpu].state), target, old(cpus[cpu].target),
                     cpus[cpu].state, cpus[cpu].target, ret, calls[|old(calls)|..], results[|old(results)|..])
    {
      var st := cpus[cpu];
      ghost var s1, t1, c1, r1 := st.state, st.target, calls, results;
      ghost var f;
      ret, f := DownCallbacks(cpu, st, bp[..], target);
      DownOutcomeState(bp[..], cpu, s1, target, t1, st.state, st.target, ret, calls[|c1|..], results[|r1|..], f);
      if ret != 0 && TEARDOWN_CPU < st.state < prev {
        ghost var sC, tC, c2, r2 := st.state, st.target, calls, results;
        RollbackAp(cpu, prev);
        BpDownRollback(bp[..], ap[..], cpu, prev, s1, target, t1, sC, tC, ret, f,
                       c2[|c1|..], r2[|r1|..], calls[|c2|..], results[|r2|..]);
        assert calls[|c1|..] == c2[|c1|..] + calls[|c2|..];
        assert results[|r1|..] == r2[|r1|..] + results[|r2|..];
      } else {
        BpDownDone(bp[..], ap[..], cpu, prev, s1, target, t1, st.state, st.target, ret, f,
                   calls[|c1|..], results[|r1|..]);
      }
    }

    // The rollback at the end of _cpu_down: the target goes back to prev
    // and the CPU's thread re-runs the AP startups up to it.
    method RollbackAp(cpu: nat, prev: nat)
      requires Valid() && cpu < nrCpus && TEARDOWN_CPU < cpus[cpu].state < prev <= ONLINE
      modifies cpus[cpu], this`calls, this`results, this`oops
      ensures Valid() && oops == old(oops) && old(results) <= results
      ensures cpus[cpu].state == prev && cpus[cpu].target == prev
      ensures calls == old(calls) + Startups(ap[..], cpu, old(cpus[cpu].state) + 1, prev - 1, true)
    {
      var st := cpus[cpu];
      st.target, st.rollback := prev, true;
      var _ := KickApWork(cpu);
    }

    // do_cpu_up: cpu_possible, try_online_node (nodeErr) and the disable
    // counter are checked before _cpu_up runs.
    method DoCpuUp(cpu: nat, target: nat, idleErr: int, nodeErr: int) returns (ret: int)
      requires Valid() && target <= ONLINE
      modifies objs, this`calls, this`results, this`oops
      ensures Valid() && old(calls) <= calls && old(results) <= results
      ensures (cpu >= nrCpus || nodeErr != 0 || disabled != 0) ==>
                calls == old(calls) && unchanged(objs) &&
                ret == (if cpu >= nrCpus then -EINVAL else if nodeErr != 0 then nodeErr else -EBUSY)
      ensures cpu < nrCpus && nodeErr == 0 && disabled == 0 && cpu in present ==> UpResult(cpu, target, idleErr, ret)
      ensures cpu < nrCpus && nodeErr == 0 && disabled == 0 && cpu !in present ==> ret == -EINVAL
    {
      if cpu >= nrCpus {
        return -EINVAL;
      }
      if nodeErr != 0 {
        return nodeErr;
      }
      if disabled != 0 {
        return -EBUSY;
      }
      ret := CpuUp(cpu, target, idleErr);
    }

    // do_cpu_down
    method DoCpuDown(cpu: nat, target: nat) returns (ret: int)
      requires Valid() && target <= ONLINE
      modifies objs, this`calls, this`results, this`oops
      ensures Valid() && old(calls) <= calls && old(results) <= results && oops == old(oops)
      ensures disabled != 0 ==> ret == -EBUSY && calls == old(calls) && unchanged(objs)
      ensures disabled == 0 && |online| == 1 ==> ret == -EBUSY
      ensures disabled == 0 && |online| != 1 && cpu !in present ==> ret == -EINVAL
      ensures disabled == 0 && |online| != 1 && cpu in present ==> DownResult(cpu, target, ret)
    {
      if disabled != 0 {
        return -EBUSY;
      }
      ret := CpuDown(cpu, target);
    }

    // cpu_hotplug_disable
    method Disable()
      modifies this`disabled
      ensures disabled == old(disabled) + 1
    {
      disabled := disabled + 1;
    }

    // cpu_hotplug_enable: the counter going negative is only warned about.
    method Enable()
      modifies this`disabled
      ensures disabled == old(disabled) - 1
    {
      disabled := disabled - 1;
    }

    // The call cpuhp_issue_call makes: none for a NULL callback, and none
    // for an AP state on a CPU that is not online (it has no thread).
    function IssuedCall(cpu: nat, state: nat, cb: Callback): seq<Call>
    {
      if cb.Fn? && (!IsApState(state) || cpu in online) then [Call(cpu, state, cb.id)] else []
    }

    // The calls a for_each_present_cpu pass below CPU hi issues for a
    // slot: one to each present CPU whose state (in states) has reached it.
    function InstallCalls(states: seq<nat>, slot: nat, cb: Callback, hi: nat): seq<Call>
      requires hi <= |states|
    {
      if hi == 0 then []
      else InstallCalls(states, slot, cb, hi - 1) +
           (if hi - 1 in present && states[hi - 1] >= slot then IssuedCall(hi - 1, slot, cb) else [])
    }

    lemma {:induction false} InstallCallsExactly(states: seq<nat>, slot: nat, cb: Callback, hi: nat, c: Call)
      requires hi <= |states|
      ensures c in InstallCalls(states, slot, cb, hi) <==>
                c.cpu < hi && c.cpu in present && states[c.cpu] >= slot && c.state == slot && cb == Fn(c.fn) &&
                (IsApState(slot) ==> c.cpu in online)
    {
      if hi > 0 {
        InstallCallsExactly(states, slot, cb, hi - 1, c);
      }
    }

    // The CPUs are visited in ascending order, at most one call each.
    lemma {:induction false} InstallCallsAscending(states: seq<nat>, slot: nat, cb: Callback, hi: nat)
      requires hi <= |states|
      ensures var r := InstallCalls(states, slot, cb, hi);
              |r| <= hi && (forall i :: 0 <= i < |r| ==> r[i].cpu < hi) &&
              (forall i, j :: 0 <= i < j < |r| ==> r[i].cpu < r[j].cpu)
    {
      if hi > 0 {
        InstallCallsAscending(states, slot, cb, hi - 1);
      }
    }

    // One more CPU of the pass, on the end of a log.
    lemma InstallCallsNext(states: seq<nat>, slot: nat, cb: Callback, hi: nat, log: seq<Call>)
      requires hi < |states|
      ensures log + InstallCalls(states, slot, cb, hi + 1) ==
              log + InstallCalls(states, slot, cb, hi) +
              (if hi in present && states[hi] >= slot then IssuedCall(hi, slot, cb) else [])
    {
    }

    // A NULL callback is never issued.
    lemma {:induction false} InstallCallsNull(states: seq<nat>, slot: nat, hi: nat)
      requires hi <= |states|
      ensures InstallCalls(states, slot, Null, hi) == []
    {
      if hi > 0 {
        InstallCallsNull(states, slot, hi - 1);
      }
    }

    // cpuhp_store_callbacks
    method StoreCallbacks(state: nat, name: Option<string>, startup: Callback, teardown: Callback)
      requires bp.Length == BP_STEPS && ap.Length == AP_STEPS && CbCheck(state) == 0
      modifies ap, bp
      ensures Tabs() == StoreIn(old(Tabs()), state, name, startup, teardown)
      ensures ap[ONLINE] == old(ap[ONLINE])
    {
      if IsApState(state) {
        ap[state] := ap[state].(name := name, startup := startup, teardown := teardown);
      } else {
        bp[state] := bp[state].(name := name, startup := startup, teardown := teardown);
      }
    }

    // cpuhp_reserve_state: name the lowest unnamed dynamic slot "Reserved"
    // (its callbacks stay as they are), or report -ENOSPC.
    method ReserveState() returns (ret: int)
      requires bp.Length == BP_STEPS && ap.Length == AP_STEPS
      modifies ap
      ensures var i := FirstFreeDyn(old(ap[..]), AP_ONLINE_DYN);
              (i == -1 ==> ret == -ENOSPC && Tabs() == old(Tabs())) &&
              (i != -1 ==> (ret == i &&
                 Tabs() == StoreIn(old(Tabs()), i, Some("Reserved"), old(ap[i].startup), old(ap[i].teardown))))
    {
      var i := AP_ONLINE_DYN;
      while i <= AP_ONLINE_DYN_END
        invariant AP_ONLINE_DYN <= i <= AP_ONLINE_DYN_END + 1
        invariant ap[..] == old(ap[..])
        invariant FirstFreeDyn(ap[..], AP_ONLINE_DYN) == FirstFreeDyn(ap[..], i)
      {
        if ap[i].name.None? {
          ap[i] := ap[i].(name := Some("Reserved"));
          return i;
        }
        i := i + 1;
      }
      return -ENOSPC;
    }

    // cpuhp_issue_call: an AP state's callback runs on the CPU's thread,
    // any other on the calling CPU. Only a bring-up call may fail; a
    // failing teardown is a BUG_ON.
    method IssueCall(cpu: nat, state: nat, cb: Callback, bringup: bool) returns (ret: int)
      requires Valid() && cpu < nrCpus
      modifies cpus[cpu], this`calls, this`results, this`oops
      ensures Valid() && cpus[cpu].state == old(cpus[cpu].state) && cpus[cpu].target == old(cpus[cpu].target)
      ensures calls == old(calls) + IssuedCall(cpu, state, cb)
      ensures IssuedCall(cpu, state, cb) == [] ==> ret == 0 && results == old(results)
      ensures IssuedCall(cpu, state, cb) != [] ==> results == old(results) + [ret]
      ensures oops == (old(oops) || (ret != 0 && !bringup))
    {
      if cb.Null? {
        return 0;
      }
      if IsApState(state) {
        ret := InvokeApCallback(cpu, state, cb);
      } else {
        ret := InvokeCallback(cpu, state, cb);
      }
      oops := oops || (ret != 0 && !bringup);
    }

    // The CPUs' states are those of s0 and the log holds c0 followed by
    // the calls a pass over the CPUs below hi issued for the slot.
    ghost predicate Issued(s0: seq<nat>, slot: nat, cb: Callback, hi: nat, c0: seq<Call>)
      reads this, objs, bp, ap
    {
      Valid() && |s0| == nrCpus && hi <= nrCpus &&
      (forall i :: 0 <= i < nrCpus ==> cpus[i].state == s0[i]) &&
      calls == c0 + InstallCalls(s0, slot, cb, hi)
    }

    // One CPU of a for_each_present_cpu pass: the callback is issued if
    // the CPU is present and its state has reached the slot.
    method IssueStep(cpu: nat, slot: nat, cb: Callback, bringup: bool, ghost s0: seq<nat>, ghost c0: seq<Call>)
      returns (ret: int)
      requires cpu < nrCpus && Issued(s0, slot, cb, cpu, c0)
      modifies cpus[cpu], this`calls, this`results, this`oops
      ensures Issued(s0, slot, cb, cpu + 1, c0)
      ensures var issued := if cpu in present && s0[cpu] >= slot then IssuedCall(cpu, slot, cb) else [];
              results == old(results) + (if issued == [] then [] else [ret]) && (issued == [] ==> ret == 0)
      ensures oops == (old(oops) || (ret != 0 && !bringup))
    {
      InstallCallsNext(s0, slot, cb, cpu, c0);
      ret := 0;
      if cpu in present && cpus[cpu].state >= slot {
        ret := IssueCall(cpu, slot, cb, bringup);
      }
    }

    // A for_each_present_cpu pass over the CPUs below hi that issues the
    // teardown to each one whose state has reached the slot.
    method TeardownPass(hi: nat, state: nat, teardown: Callback)
      requires Valid() && hi <= nrCpus
      modifies objs, this`calls, this`results, this`oops
      ensures Issued(old(States(cpus)), state, teardown, hi, old(calls))
      ensures (old(oops) ==> oops) && old(results) <= results
    {
      ghost var s0 := States(cpus);
      var cpu := 0;
      while cpu < hi
        invariant cpu <= hi && Issued(s0, state, teardown, cpu, old(calls))
        invariant (old(oops) ==> oops) && old(results) <= results
      {
        var _ := IssueStep(cpu, state, teardown, false, s0, old(calls));
        cpu := cpu + 1;
      }
    }

    // cpuhp_rollback_install: the teardown goes to every present CPU below
    // the one that failed whose state has reached the slot. The pass stops
    // at the first present CPU at or above the failed one, so the CPUs
    // after it are never looked at.
    method RollbackInstall(failedCpu: nat, state: nat, teardown: Callback)
      requires Valid()
      modifies objs, this`calls, this`results, this`oops
      ensures Issued(old(States(cpus)), state, teardown, Min(failedCpu, nrCpus), old(calls))
      ensures (old(oops) ==> oops) && old(results) <= results
    {
      if teardown.Null? {
        InstallCallsNull(States(cpus), state, Min(failedCpu, nrCpus));
        return;
      }
      TeardownPass(Min(failedCpu, nrCpus), state, teardown);
    }

    // cpuhp_store_callbacks(state, NULL, NULL, NULL) after a pass: only the
    // step tables change, so what the pass established still holds.
    method ClearSlot(state: nat, ghost s0: seq<nat>, ghost cb: Callback, ghost hi: nat, ghost c0: seq<Call>)
      requires CbCheck(state) == 0 && Issued(s0, state, cb, hi, c0)
      modifies ap, bp
      ensures Issued(s0, state, cb, hi, c0)
      ensures Tabs() == StoreIn(old(Tabs()), state, None, Null, Null)
    {
      StoreCallbacks(state, None, Null, Null);
    }

    // __cpuhp_setup_state. name None is a NULL name; ret is the slot for a
    // dynamic request, 0 for a fixed one, or the error. failedCpu is the
    // CPU whose startup failed, -1 if none did.
    method SetupState(state: nat, name: Option<string>, invoke: bool, startup: Callback, teardown: Callback)
      returns (ret: int, ghost failedCpu: int)
      requires Valid()
      modifies ap, bp, objs, this`calls, this`results, this`oops
      ensures Valid() && old(results) <= results
      ensures CbCheck(state) != 0 || name.None? ==>
                ret == -EINVAL && Tabs() == old(Tabs()) && calls == old(calls) && unchanged(objs)
      ensures CbCheck(state) == 0 && name.Some? && state == AP_ONLINE_DYN && FirstFreeDyn(old(ap[..]), AP_ONLINE_DYN) == -1 ==>
                ret == -ENOSPC && Tabs() == old(Tabs()) && calls == old(calls) && unchanged(objs)
      ensures CbCheck(state) == 0 && name.Some? && (state != AP_ONLINE_DYN || FirstFreeDyn(old(ap[..]), AP_ONLINE_DYN) != -1) ==>
                var slot := if state == AP_ONLINE_DYN then FirstFreeDyn(old(ap[..]), AP_ONLINE_DYN) else state;
                var s0 := old(States(cpus));
                CbCheck(slot) == 0 &&
                (failedCpu == -1 ==>
                   ret == (if state == AP_ONLINE_DYN then slot else 0) &&
                   Tabs() == StoreIn(old(Tabs()), slot, name, startup, teardown) &&
                   Issued(s0, slot, if invoke then startup else Null, nrCpus, old(calls)) &&
                   AllZero(results[|old(results)|..])) &&
                (failedCpu != -1 ==>
                   invoke && startup.Fn? && 0 <= failedCpu < nrCpus && ret != 0 &&
                   Tabs() == StoreIn(old(Tabs()), slot, None, Null, Null) &&
                   InstallFailed(s0, slot, startup, teardown, failedCpu, ret, old(calls), old(results)))
    {
      failedCpu := -1;
      if CbCheck(state) != 0 || name.None? {
        return -EINVAL, -1;
      }
      ghost var t0 := Tabs();
      var slot := state;
      if state == AP_ONLINE_DYN {
        var r := ReserveState();
        if r < 0 {
          return r, -1;
        }
        slot := r;
      }
      var err;
      err, failedCpu := StoreAndInstall(slot, name, invoke, startup, teardown);
      if state == AP_ONLINE_DYN && failedCpu == -1 {
        StoreInTwice(t0, slot, Some("Reserved"), StepOf(t0, slot).startup, StepOf(t0, slot).teardown,
                     name, startup, teardown);
      }
      ret := if err != 0 then err else if state == AP_ONLINE_DYN then slot else 0;
    }

    // The part of __cpuhp_setup_state after the slot is known: store the
    // callbacks and, if asked to, run the startup on the CPUs.
    method StoreAndInstall(slot: nat, name: Option<string>, invoke: bool, startup: Callback, teardown: Callback)
      returns (err: int, ghost failedCpu: int)
      requires Valid() && CbCheck(slot) == 0
      modifies ap, bp, objs, this`calls, this`results, this`oops
      ensures Valid() && old(results) <= results
      ensures failedCpu == -1 ==>
                err == 0 && Tabs() == StoreIn(old(Tabs()), slot, name, startup, teardown) &&
                Issued(old(States(cpus)), slot, if invoke then startup else Null, nrCpus, old(calls)) &&
                AllZero(results[|old(results)|..])
      ensures failedCpu != -1 ==>
                invoke && startup.Fn? && 0 <= failedCpu < nrCpus && err != 0 &&
                Tabs() == StoreIn(old(Tabs()), slot, None, Null, Null) &&
                InstallFailed(old(States(cpus)), slot, startup, teardown, failedCpu, err, old(calls), old(results))
    {
      ghost var t0 := Tabs();
      StoreCallbacks(slot, name, startup, teardown);
      if !invoke || startup.Null? {
        InstallCallsNull(States(cpus), slot, nrCpus);
        return 0, -1;
      }
      err, failedCpu := InstallStartups(slot, startup, teardown);
      if err != 0 {
        StoreInTwice(t0, slot, name, startup, teardown, None, Null, Null);
      }
    }

    // How a failed install pass ends: the startups to the present CPUs
    // below failedCpu that had reached the slot all succeeded, the one to
    // failedCpu returned err, and then the teardowns went to those same
    // CPUs below failedCpu.
    ghost predicate InstallFailed(s0: seq<nat>, slot: nat, startup: Callback, teardown: Callback, failedCpu: nat,
                                  err: int, c0: seq<Call>, r0: seq<int>)
      reads this, objs, bp, ap
      requires startup.Fn? && failedCpu < |s0|
    {
      var done := InstallCalls(s0, slot, startup, failedCpu);
      InstallCalls(s0, slot, startup, failedCpu + 1) == done + [Call(failedCpu, slot, startup.id)] &&
      Issued(s0, slot, teardown, failedCpu, c0 + done + [Call(failedCpu, slot, startup.id)]) &&
      r0 <= results && |r0| + |done| < |results| &&
      AllZero(results[|r0|..|r0| + |done|]) && results[|r0| + |done|] == err
    }

    // The per-CPU loop of __cpuhp_setup_state: the startup goes to every
    // present CPU whose state has reached the slot; at the first failure
    // the CPUs already done get the teardown and the slot is cleared.
    method InstallStartups(slot: nat, startup: Callback, teardown: Callback) returns (err: int, ghost failedCpu: int)
      requires Valid() && CbCheck(slot) == 0 && startup.Fn?
      modifies ap, bp, objs, this`calls, this`results, this`oops
      ensures old(results) <= results
      ensures failedCpu == -1 ==>
                err == 0 && Tabs() == old(Tabs()) && AllZero(results[|old(results)|..]) &&
                Issued(old(States(cpus)), slot, startup, nrCpus, old(calls))
      ensures failedCpu != -1 ==>
                0 <= failedCpu < nrCpus && err != 0 && Valid() &&
                Tabs() == StoreIn(old(Tabs()), slot, None, Null, Null) &&
                InstallFailed(old(States(cpus)), slot, startup, teardown, failedCpu, err, old(calls), old(results))
    {
      ghost var s0 := States(cpus);
      var cpu := 0;
      while cpu < nrCpus
        invariant cpu <= nrCpus && Issued(s0, slot, startup, cpu, old(calls))
        invariant oops == old(oops) && Tabs() == old(Tabs())
        invariant old(results) <= results && AllZero(results[|old(results)|..])
      {
        var r := IssueStep(cpu, slot, startup, true, s0, old(calls));
        if r != 0 {
          AbortInstall(cpu, slot, startup, teardown, s0, old(calls), old(results));
          return r, cpu;
        }
        cpu := cpu + 1;
      }
      return 0, -1;
    }

    // The failure path of the install loop: the CPUs below the one whose
    // startup failed get the teardown and the slot is cleared.
    method AbortInstall(cpu: nat, slot: nat, startup: Callback, teardown: Callback,
                        ghost s0: seq<nat>, ghost c0: seq<Call>, ghost r0: seq<int>)
      requires cpu < nrCpus && startup.Fn? && CbCheck(slot) == 0
      requires Issued(s0, slot, startup, cpu + 1, c0)
      requires InstallCalls(s0, slot, startup, cpu + 1) != InstallCalls(s0, slot, startup, cpu)
      requires r0 <= results && |results| == |r0| + |InstallCalls(s0, slot, startup, cpu)| + 1
      requires AllZero(results[|r0|..|results| - 1])
      modifies ap, bp, objs, this`calls, this`results, this`oops
      ensures Valid() && Tabs() == StoreIn(old(Tabs()), slot, None, Null, Null)
      ensures InstallFailed(s0, slot, startup, teardown, cpu, old(results[|results| - 1]), c0, r0)
    {
      ghost var done := InstallCalls(s0, slot, startup, cpu);
      InstallCallsNext(s0, slot, startup, cpu, []);
      assert InstallCalls(s0, slot, startup, cpu + 1) == done + [Call(cpu, slot, startup.id)];
      ghost var c1 := calls;
      assert c1 == c0 + done + [Call(cpu, slot, startup.id)];
      ghost var r1 := results;
      assert States(cpus) == s0;
      RollbackInstall(cpu, slot, teardown);
      ClearSlot(slot, s0, teardown, cpu, c1);
      assert results[|r0|..|r0| + |done|] == r1[|r0|..|r1| - 1];
      assert results[|r0| + |done|] == r1[|r1| - 1];
    }

    // __cpuhp_remove_state: the teardown goes to every present CPU whose
    // state has reached the slot (and is not allowed to fail), then the
    // slot is cleared whatever happened.
    method RemoveState(state: nat, invoke: bool)
      requires Valid() && CbCheck(state) == 0
      modifies ap, bp, objs, this`calls, this`results, this`oops
      ensures (old(oops) ==> oops) && old(results) <= results
      ensures Tabs() == StoreIn(old(Tabs()), state, None, Null, Null)
      ensures Issued(old(States(cpus)), state, if invoke then StepOf(old(Tabs()), state).teardown else Null, nrCpus,
                     old(calls))
    {
      var teardown := if IsApState(state) then ap[state].teardown else bp[state].teardown;
      if !invoke || teardown.Null? {
        InstallCallsNull(States(cpus), state, nrCpus);
      } else {
        TeardownPass(nrCpus, state, teardown);
      }
      ClearSlot(state, old(States(cpus)), if invoke then teardown else Null, nrCpus, old(calls));
    }
  }
}
