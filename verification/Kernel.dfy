/** The kernel's environments, scheduler, system calls and trap handler as code that updates
    one shared machine (lab/kern/env.c, sched.c, trap.c, syscall.c). A trap runs from lock to
    unlock without interruption, so each Trap method is one atomic step of the machine. */
module Kernel {
  import opened Basics
  import opened FreeList
  import opened Paging
  import opened EnvTable
  import opened EnvSteps
  import opened Traps
  import opened TrapRuns

  class Machine {
    var envs: seq<Env>
    var envLink: seq<int>
    var envFreeList: int
    var cur: seq<int>                          // each CPU's curenv
    var halted: seq<bool>                      // each CPU's cpu_status == CPU_HALTED
    var stopped: bool                          // panicked, or in the monitor for good

    ghost var free: seq<int>
    ghost var allocs: seq<nat>
    ghost var trace: seq<Event>

    ghost function Snap(): Sys
      reads this
    {
      Sys(envs, cur, halted, free, allocs, trace)
    }

    ghost predicate ListOk()
      reads this
    {
      |envLink| == NENV && Chain(envLink, envFreeList, free)
    }

    /** The machine as any CPU finds it when it takes the lock. */
    ghost predicate Valid()
      reads this
    {
      ListOk() && Unlocked(Snap()) && !stopped
    }

    ghost predicate Inside(c: int)
      reads this
    {
      ListOk() && LockedBy(Snap(), c) && !stopped
    }

    // ---- env_init ----

    constructor (ncpu: nat)
      ensures Valid() && Snap() == InitialSys(ncpu)
    {
      var link, head;
      ghost var list;
      link, head, list := EnvLinks();
      envs := seq(NENV, _ => Env(FREE, 0, 0, 0, map[], false, 0, 0, 0, {}));
      cur := seq(ncpu, _ => NONE);
      halted := seq(ncpu, _ => false);
      stopped := false;
      envLink, envFreeList, free := link, head, list;
      allocs := seq(NENV, _ => 0);
      trace := [];
      new;
      hide Chain, Unlocked, NoDup;
      InitialIsSafe(ncpu);
    }

    // ---- envid2env ----

    /** The slot an environment id stands for, on behalf of CPU `c`. */
    method Envid2Env(c: nat, envid: int, checkperm: bool) returns (r: Option<nat>)
      requires Inside(c) && cur[c] != NONE
      ensures r == Target(envs, cur[c], envid, checkperm)
      ensures r.Some? ==> envs[r.value].status != FREE
    {
      if envid == 0 {
        return Some(cur[c]);
      }
      var e := envid % NENV;
      if envs[e].status == FREE || envs[e].id != envid {
        return None;
      }
      if checkperm && e != cur[c] && envs[e].parent != envs[cur[c]].id {
        return None;
      }
      r := Some(e);
    }

    // ---- env_run, sched_yield, sched_halt ----

    /** Switch to environment `e`. The machine is safe again if `e` may run here. */
    method EnvRun(c: nat, e: nat)
      requires ListOk() && HasCur(Snap(), c) && e < NENV && !stopped
      modifies this`envs, this`cur
      ensures ListOk() && Snap() == Switched(old(Snap()), c, e)
      ensures old(LockedBy(Snap(), c) && MayRun(Snap(), c, e)) ==> Valid()
    {
      hide Unlocked, LockedBy, Chain;
      if LockedBy(Snap(), c) && MayRun(Snap(), c, e) {
        RunStep(Snap(), c, e);
      }
      if cur[c] != NONE {
        var p := cur[c];
        if envs[p].status == RUNNING {
          envs := envs[p := envs[p].(status := RUNNABLE)];
        }
      }
      cur := cur[c := e];
      envs := envs[e := envs[e].(status := RUNNING, runs := envs[e].runs + 1)];
    }

    method SchedYield(c: nat)
      requires Inside(c)
      modifies this`envs, this`cur, this`halted, this`stopped
      ensures !stopped ==> Valid()
      ensures ListOk() && Scheduled(old(Snap()), c, Snap(), stopped)
    {
      hide Unlocked, LockedBy, RunEnvs, FirstAfter, NoneRunnable;
      LockedFacts(Snap(), c);
      var i := 0;
      if cur[c] != NONE {
        SlotOfId(Snap(), cur[c]);
        i := envs[cur[c]].id % NENV;
      }
      var next := NextRunnable(envs, i);
      if next.Some? {
        FirstIsRunnable(envs, i, next.value);
        EnvRun(c, next.value);
      } else if cur[c] != NONE && envs[cur[c]].status == RUNNING {
        EnvRun(c, cur[c]);
      } else {
        SchedHalt(c);
      }
    }

    method SchedHalt(c: nat)
      requires Inside(c) && (cur[c] != NONE ==> !Busy(envs[cur[c]].status)) && NoneRunnable(envs)
      modifies this`cur, this`halted, this`stopped
      ensures stopped <==> NoneBusy(envs)
      ensures stopped ==> Snap() == old(Snap())
      ensures !stopped ==> Valid() && cur == old(cur)[c := NONE] && halted == old(halted)[c := true]
    {
      hide Unlocked, LockedBy;
      LockedFacts(Snap(), c);
      var i := 0;
      while i < NENV && !(envs[i].status == RUNNABLE || Busy(envs[i].status))
        invariant 0 <= i <= NENV
        invariant forall e :: 0 <= e < i ==> !Busy(envs[e].status)
      {
        i := i + 1;
      }
      if i == NENV {
        stopped := true;
        return;
      }
      HaltStep(Snap(), c);
      cur := cur[c := NONE];
      halted := halted[c := true];
    }

    // ---- env_alloc, env_free, env_destroy ----

    method EnvAlloc(c: nat, parent: int, vmOk: bool) returns (r: Option<nat>)
      requires Inside(c)
      modifies this`envs, this`envFreeList, this`free, this`allocs, this`trace
      ensures Inside(c)
      ensures r == if old(free) == [] || !vmOk then None else Some(old(free)[0])
      ensures r == None ==> Snap() == old(Snap())
      ensures r.Some? ==> r.value < NENV && old(envs)[r.value].status == FREE
                          && Snap() == AllocEnv(old(Snap()), r.value, parent, RUNNABLE)
    {
      hide Unlocked, LockedBy, Chain;
      LockedFacts(Snap(), c);
      ChainHead(envLink, envFreeList, free);
      if envFreeList == NONE || !vmOk {
        return None;
      }
      var e := envFreeList;
      AllocStep(Snap(), c, parent, RUNNABLE);
      ChainPop(envLink, envFreeList, free, NONE);
      var x := envs[e];
      var sum := Wrap32(x.id + GENSTEP);
      var generation := sum - sum % NENV;
      if generation <= 0 {
        generation := GENSTEP;
      }
      envs := envs[e := x.(status := RUNNABLE, id := generation + e, parent := parent, runs := 0,
                           space := map[], recving := false)];
      envFreeList := envLink[e];
      free, allocs, trace := free[1..], allocs[e := allocs[e] + 1], trace + [Born(e)];
      r := Some(e);
    }

    method EnvFree(e: nat)
      requires ListOk() && |envs| == NENV && e < NENV && e !in free
      modifies this`envs, this`envLink, this`envFreeList, this`free
      ensures ListOk() && Snap() == FreeEnv(old(Snap()), e)
    {
      ChainPush(envLink, envFreeList, free, e);
      envs := envs[e := envs[e].(status := FREE)];
      envLink := envLink[e := envFreeList];
      envFreeList := e;
      free := [e] + free;
    }

    /** Destroying an environment. When it is the current one, the CPU goes on to schedule
        another and `left` is true. Destroying a zombie breaks the invariant. */
    method EnvDestroy(c: nat, e: nat) returns (left: bool)
      requires Inside(c) && e < NENV && envs[e].status != FREE
      modifies this
      ensures ListOk() && left == (e == old(cur[c]))
      ensures left && !stopped ==> Valid()
      ensures !left ==> Snap() == Destroyed(old(Snap()), c, e) && !stopped
      ensures !left ==> (Inside(c) <==> old(envs[e].status) != DYING)
      ensures left ==> Scheduled(Destroyed(old(Snap()), c, e), c, Snap(), stopped)
    {
      hide Unlocked, LockedBy, Chain, Scheduled;
      LockedFacts(Snap(), c);
      FreeFacts(Snap(), c, e);
      if envs[e].status == RUNNING && cur[c] != e {
        MarkDyingStep(Snap(), c, e);
        envs := envs[e := envs[e].(status := DYING)];
        return false;
      }
      if cur[c] != e {
        FreeStepExact(Snap(), c, e);
        EnvFree(e);
        return false;
      }
      FreeCurrentFacts(Snap(), c);
      EnvFree(e);
      cur := cur[c := NONE];
      SchedYield(c);
      left := true;
    }

    // ---- system calls ----

    method SysExofork(c: nat, vmOk: bool) returns (r: Option<int>)
      requires Inside(c) && cur[c] != NONE
      modifies this`envs, this`envFreeList, this`free, this`allocs, this`trace
      ensures Inside(c)
      ensures r == None <==> old(free) == [] || !vmOk
      ensures r == None ==> Snap() == old(Snap())
      ensures r.Some? ==> var e := old(free)[0];
                && 0 <= e < NENV && r.value == envs[e].id
                && Snap() == AllocEnv(old(Snap()), e, old(envs)[cur[c]].id, NOT_RUNNABLE)
    {
      hide Unlocked, LockedBy, Chain;
      LockedFacts(Snap(), c);
      ChainHead(envLink, envFreeList, free);
      var parent := envs[cur[c]].id;
      if free != [] {
        AllocStep(Snap(), c, parent, NOT_RUNNABLE);
      }
      var e := EnvAlloc(c, parent, vmOk);
      if e == None {
        return None;
      }
      envs := envs[e.value := envs[e.value].(status := NOT_RUNNABLE)];
      assert Snap() == AllocEnv(old(Snap()), e.value, parent, NOT_RUNNABLE);
      r := Some(envs[e.value].id);
    }

    method SysEnvDestroy(c: nat, envid: int) returns (left: bool)
      requires Inside(c) && cur[c] != NONE && envs[cur[c]].status == RUNNING
      modifies this
      ensures ListOk() && DispatchResult(old(Snap()), c, Destroy(envid), left, Snap(), stopped)
      ensures !stopped && left ==> Valid()
      ensures !stopped && !left ==> (Inside(c) <==> Guarded(old(envs), old(cur), c, Destroy(envid)))
    {
      hide Unlocked, LockedBy, Chain, Scheduled, Guarded;
      LockedFacts(Snap(), c);
      GuardedDestroy(envs, cur, c, envid);
      left := false;
      var e := Envid2Env(c, envid, true);
      if e.Some? {
        left := EnvDestroy(c, e.value);
      }
    }

    /** What the page system calls leave of the environment table: the address space of the
        environment they name may have changed. */
    method SysPage(c: nat, envid: int, space: map<int, Entry>)
      requires Inside(c) && cur[c] != NONE
      modifies this`envs
      ensures ListOk() && Inside(c)
      ensures var t := Target(old(envs), cur[c], envid, true);
              envs == if t.Some? then old(envs)[t.value := old(envs)[t.value].(space := space)] else old(envs)
    {
      hide Unlocked, LockedBy, Chain;
      LockedFacts(Snap(), c);
      var e := Envid2Env(c, envid, true);
      if e.Some? {
        RemapStep(Snap(), c, e.value, space);
        envs := envs[e.value := envs[e.value].(space := space)];
      }
    }

    /** True when the status was stored. */
    method SysEnvSetStatus(c: nat, envid: int, st: Status) returns (ok: bool)
      requires Inside(c) && cur[c] != NONE
      modifies this`envs
      ensures ListOk() && (Inside(c) <==> Guarded(old(envs), cur, c, SetStatus(envid, st)))
      ensures var t := Target(old(envs), cur[c], envid, true);
              && ok == ((st == RUNNABLE || st == NOT_RUNNABLE) && t.Some?)
              && envs == if ok then old(envs)[t.value := old(envs)[t.value].(status := st)] else old(envs)
    {
      hide Unlocked, LockedBy, Chain;
      LockedFacts(Snap(), c);
      if st != RUNNABLE && st != NOT_RUNNABLE {
        return false;
      }
      var e := Envid2Env(c, envid, true);
      if e == None {
        return false;
      }
      SetStatusExact(Snap(), c, e.value, st);
      envs := envs[e.value := envs[e.value].(status := st)];
      ok := true;
    }

    /** Try to hand `value`, and the page at `srcva` if that is below UTOP, to a blocked
        receiver. */
    method SysIpcTrySend(c: nat, envid: int, value: nat, srcva: nat, perm: Bits, memOk: bool) returns (r: SendResult)
      requires Inside(c) && cur[c] != NONE && SendMapped(envs, cur, c, TrySend(envid, value, srcva, perm, memOk))
      modifies this`envs, this`trace, this`stopped
      ensures r == SendOutcome(old(envs), cur[c], envid, srcva, perm, memOk)
      ensures ListOk() && stopped == (r == SendPanic)
      ensures !stopped ==> Inside(c)
      ensures r != Sent ==> Snap() == old(Snap())
      ensures r == Sent ==> Snap() == SentTo(old(Snap()), c, envid, value, srcva, perm)
    {
      hide Unlocked, LockedBy, Chain;
      LockedFacts(Snap(), c);
      var t := Envid2Env(c, envid, false);
      if t == None {
        stopped := true;
        return SendPanic;
      }
      var e := t.value;
      if !envs[e].recving {
        return NotRecv;
      }
      var newPerm, space := {}, envs[e].space;
      if srcva < UTOP {
        var pte := envs[cur[c]].space[srcva / PGSIZE];
        if srcva % PGSIZE != 0 || !(perm <= PTE_SYSCALL) || (W in perm && W !in pte.flags) {
          stopped := true;
          return SendPanic;
        }
        if envs[e].dstva < UTOP {
          if !memOk {
            stopped := true;
            return SendPanic;
          }
          space := space[envs[e].dstva / PGSIZE := Entry(pte.ppn, perm + {P})];
          newPerm := perm;
        }
      }
      var me := envs[cur[c]].id;
      DeliverStep(Snap(), c, e, me, value, newPerm, space);
      envs := envs[e := envs[e].(recving := false, from := me, value := value, perm := newPerm,
                                 space := space, status := RUNNABLE)];
      trace := trace + [Delivered(e, me, value, newPerm)];
      r := Sent;
    }

    /** Block until a message comes; `left` is false only for a bad address. */
    method SysIpcRecv(c: nat, dstva: nat) returns (left: bool)
      requires Inside(c) && cur[c] != NONE && envs[cur[c]].status == RUNNING
      modifies this
      ensures ListOk() && left == !(dstva < UTOP && dstva % PGSIZE != 0)
      ensures !left ==> Snap() == old(Snap()) && Inside(c)
      ensures left && !stopped ==> Valid()
      ensures left ==> Scheduled(Block(old(Snap()), old(cur[c]), dstva), c, Snap(), stopped)
    {
      hide Unlocked, LockedBy, Chain, Scheduled;
      LockedFacts(Snap(), c);
      if dstva < UTOP && dstva % PGSIZE != 0 {
        return false;
      }
      BlockStep(Snap(), c, dstva);
      var e := cur[c];
      envs := envs[e := envs[e].(recving := true, status := NOT_RUNNABLE, dstva := dstva)];
      trace := trace + [Blocked(e, dstva)];
      assert Snap() == Block(old(Snap()), e, dstva);
      SchedYield(c);
      left := true;
    }

    // ---- trap ----

    /** The environment running on CPU `c` traps: from lock_kernel to unlock_kernel. The
        machine is safe afterwards exactly if the call kept clear of what the kernel does
        not guard against. */
    method TrapUser(c: nat, cause: Cause)
      requires Valid() && c < |cur| && 0 <= cur[c] < NENV
      requires envs[cur[c]].status != DYING ==> SendMapped(envs, cur, c, cause)
      modifies this
      ensures ListOk() && IsStep(old(Snap()), c, cause, Snap(), stopped)
      ensures !stopped ==> (Valid() <==> Admissible(old(Snap()), c, cause))
    {
      hide Unlocked, LockedBy, Chain, Scheduled, Effect, Destroyed, Guarded, SendMapped;
      CurrentFacts(Snap(), c);
      if envs[cur[c]].status == DYING {
        ReapFacts(Snap(), c);
        EnvFree(cur[c]);
        cur := cur[c := NONE];
        assert Snap() == Reaped(old(Snap()), c);
        SchedYield(c);
        return;
      }
      EnterStep(Snap(), c);
      var left := Dispatch(c, cause);
      if !Guarded(old(envs), old(cur), c, cause) {
        UnguardedEffect(old(Snap()), c, cause);
      }
      if stopped || left {
        return;
      }
      if cur[c] != NONE && envs[cur[c]].status == RUNNING {
        EnvRun(c, cur[c]);
        if !Guarded(old(envs), old(cur), c, cause) {
          UnguardedBreaks(old(Snap()), c, cause, Snap());
        }
      } else {
        SchedYield(c);
      }
    }

    /** trap_dispatch: `left` when control does not come back to trap. */
    method Dispatch(c: nat, cause: Cause) returns (left: bool)
      requires Inside(c) && cur[c] != NONE && envs[cur[c]].status == RUNNING && SendMapped(envs, cur, c, cause)
      modifies this
      ensures ListOk() && DispatchResult(old(Snap()), c, cause, left, Snap(), stopped)
      ensures !stopped && left ==> Valid()
      ensures !stopped && !left ==> (Inside(c) <==> Guarded(old(envs), old(cur), c, cause))
    {
      hide Unlocked, LockedBy, Chain, Scheduled, Guarded;
      LockedFacts(Snap(), c);
      if cause.Return? || cause.Tick? || cause.Fault? {
        GuardedElse(envs, cur, c, cause);
      }
      match cause {
        case Return => left := false;
        case Tick => SchedYield(c); left := true;
        case Fault => left := EnvDestroy(c, cur[c]);
        case _ => left := Syscall(c, cause);
      }
    }

    /** The system calls that change the environment table. */
    method Syscall(c: nat, cause: Cause) returns (left: bool)
      requires Inside(c) && cur[c] != NONE && envs[cur[c]].status == RUNNING && SendMapped(envs, cur, c, cause)
      requires !cause.Return? && !cause.Tick? && !cause.Fault?
      modifies this
      ensures ListOk() && DispatchResult(old(Snap()), c, cause, left, Snap(), stopped)
      ensures !stopped && left ==> Valid()
      ensures !stopped && !left ==> (Inside(c) <==> Guarded(old(envs), old(cur), c, cause))
    {
      hide Unlocked, LockedBy, Chain, Scheduled, Guarded, Destroyed, Target;
      LockedFacts(Snap(), c);
      left := false;
      match cause {
        case Remap(envid, space) =>
          GuardedElse(envs, cur, c, cause);
          SysPage(c, envid, space);
          assert Effect(old(Snap()), c, cause) == Some(Snap());
        case Exofork(vmOk) =>
          GuardedElse(envs, cur, c, cause);
          var _ := SysExofork(c, vmOk);
          assert Effect(old(Snap()), c, cause) == Some(Snap());
        case SetStatus(envid, st) =>
          var _ := SysEnvSetStatus(c, envid, st);
          assert Effect(old(Snap()), c, cause) == Some(Snap());
        case Destroy(envid) => left := SysEnvDestroy(c, envid);
        case TrySend(envid, value, srcva, perm, memOk) =>
          GuardedElse(envs, cur, c, cause);
          var _ := SysIpcTrySend(c, envid, value, srcva, perm, memOk);
        case Recv(dstva) =>
          GuardedElse(envs, cur, c, cause);
          left := SysIpcRecv(c, dstva);
      }
    }

    /** An interrupt wakes a halted CPU, or an application processor starts. */
    method TrapIdle(c: nat)
      requires Valid() && c < |cur| && cur[c] == NONE
      modifies this
      ensures !stopped ==> Valid()
      ensures ListOk() && Scheduled(Woken(old(Snap()), c), c, Snap(), stopped)
    {
      hide Unlocked, LockedBy, Chain, Scheduled;
      CurrentFacts(Snap(), c);
      if halted[c] {
        WakeStep(Snap(), c);
        halted := halted[c := false];
      } else {
        EnterStep(Snap(), c);
      }
      assert Snap() == Woken(old(Snap()), c);
      SchedYield(c);
    }

    /** i386_init on the boot CPU: create `n` environments, then schedule. */
    method Boot(c: nat, n: nat, vmOk: bool)
      requires Valid() && c < |cur| && cur[c] == NONE && !halted[c]
      modifies this
      ensures !stopped ==> Valid()
      ensures if n <= old(|free|) && (n == 0 || vmOk)
              then HasCur(Created(old(Snap()), n), c) && Scheduled(Created(old(Snap()), n), c, Snap(), stopped)
              else stopped
    {
      hide Unlocked, LockedBy, Chain, Scheduled;
      CurrentFacts(Snap(), c);
      EnterStep(Snap(), c);
      var i := 0;
      while i < n
        invariant 0 <= i <= n && Inside(c) && |free| == old(|free|) - i && Snap() == Created(old(Snap()), i)
        invariant i == 0 || vmOk
      {
        LockedFacts(Snap(), c);
        var e := EnvAlloc(c, 0, vmOk);
        if e == None {
          stopped := true;
          return;
        }
        i := i + 1;
      }
      LockedFacts(Snap(), c);
      SchedYield(c);
    }

    /** A run of traps, each taken by the CPU that `steps` names. It goes on until the
        machine stops or a trap is not admissible; `ks` are its states. */
    method Run(steps: seq<(nat, Cause)>) returns (done: nat, ghost ks: seq<Sys>)
      requires Valid()
      modifies this
      ensures done <= |steps| && Follows(ks, steps[..done], stopped)
      ensures ks[0] == old(Snap()) && ks[done] == Snap()
      ensures if stopped then 0 < done else Valid()
      ensures !stopped && done < |steps| ==> !Admissible(Snap(), steps[done].0, steps[done].1)
    {
      hide Unlocked, LockedBy, Chain, IsStep, Guarded, SendMapped;
      done, ks := 0, [Snap()];
      while done < |steps|
        invariant done <= |steps| && Valid() && Follows(ks, steps[..done], false)
        invariant ks[0] == old(Snap()) && ks[done] == Snap()
      {
        var (c, cause) := steps[done];
        if c >= |cur| {
          return;
        }
        ghost var k := Snap();
        CurrentFacts(k, c);
        if cur[c] == NONE {
          TrapIdle(c);
          assert IsStep(k, c, cause, Snap(), stopped) by { IdleIsStep(k, c, cause, Snap(), stopped); }
        } else {
          if envs[cur[c]].status != DYING && !(Guarded(envs, cur, c, cause) && SendMapped(envs, cur, c, cause)) {
            return;
          }
          TrapUser(c, cause);
        }
        FollowsMore(ks, steps, done, Snap(), stopped);
        done, ks := done + 1, ks + [Snap()];
        if stopped {
          return;
        }
      }
    }
  }

  /** The free list env_init builds: all slots, in order. */
  method EnvLinks() returns (link: seq<int>, head: int, ghost list: seq<int>)
    ensures |link| == NENV && Chain(link, head, list) && list == seq(NENV, i => i)
  {
    hide Chain;
    link, head, list := seq(NENV, _ => NONE), NONE, [];
    ChainIntro(link, head, list);
    var i := NENV;
    while i > 0
      invariant 0 <= i <= NENV && |link| == NENV && Chain(link, head, list)
      invariant |list| == NENV - i && forall k :: 0 <= k < |list| ==> list[k] == i + k
    {
      i := i - 1;
      ChainPush(link, head, list, i);
      link := link[i := head];
      head := i;
      list := [i] + list;
    }
  }

  /** The search of sched_yield: the first runnable environment after `start`, if any. */
  method NextRunnable(envs: seq<Env>, start: nat) returns (r: Option<nat>)
    requires |envs| == NENV && start < NENV
    ensures r.Some? ==> FirstAfter(envs, start, r.value)
    ensures r == None <==> NoneRunnable(envs)
  {
    var i := start;
    var nevs := NENV;
    while nevs > 0
      invariant 0 <= nevs <= NENV && 0 <= i < NENV
      invariant i == if start + (NENV - nevs) < NENV then start + (NENV - nevs) else start + (NENV - nevs) - NENV
      invariant forall e :: 0 <= e < NENV && Dist(start, e) <= NENV - nevs ==> envs[e].status != RUNNABLE
    {
      i := if i + 1 == NENV then 0 else i + 1;
      if envs[i].status == RUNNABLE {
        return Some(i);
      }
      nevs := nevs - 1;
    }
    r := None;
  }

  lemma IdleIsStep(k: Sys, c: nat, cause: Cause, k': Sys, stopped: bool)
    requires HasCur(k, c) && k.cur[c] == NONE && Scheduled(Woken(k, c), c, k', stopped)
    ensures IsStep(k, c, cause, k', stopped)
  {
  }

  lemma FirstIsRunnable(envs: seq<Env>, start: nat, j: nat)
    requires FirstAfter(envs, start, j)
    ensures j < |envs| && envs[j].status == RUNNABLE && !NoneRunnable(envs)
  {
  }
}
