/** What a trap does to the kernel's state (lab/kern/trap.c, sched.c, env.c, syscall.c), from
    taking the big lock to releasing it, as relations between snapshots. */
module Traps {
  import opened Basics
  import opened FreeList
  import opened Paging
  import opened EnvTable
  import opened EnvSteps

  /** What the environment running on a CPU trapped for. `vmOk` and `memOk` say whether
      the page allocator can serve the request; a page call may leave any address space. */
  datatype Cause =
    | Return                                   // a call or interrupt that changes nothing here
    | Tick                                     // timer interrupt or sys_yield
    | Fault                                    // unhandled fault: env_destroy(curenv)
    | Remap(envid: int, space: map<int, Entry>) // sys_page_alloc, sys_page_map, sys_page_unmap
    | Exofork(vmOk: bool)
    | SetStatus(envid: int, st: Status)
    | Destroy(envid: int)
    | TrySend(envid: int, value: nat, srcva: nat, perm: Bits, memOk: bool)
    | Recv(dstva: nat)

  datatype SendResult = Sent | NotRecv | SendPanic

  /** sys_ipc_try_send reads the page table entry of the offered page through a pointer
      that page_lookup sets only if the page is mapped. */
  predicate SendMapped(envs: seq<Env>, cur: seq<int>, c: nat, cause: Cause)
    requires |envs| == NENV && c < |cur| && 0 <= cur[c] < NENV
  {
    cause.TrySend? ==>
      var t := Target(envs, cur[c], cause.envid, false);
      t.Some? && envs[t.value].recving && cause.srcva < UTOP ==> cause.srcva / PGSIZE in envs[cur[c]].space
  }

  /** The call keeps clear of what the kernel does not guard against: it does not set the
      status of an environment that another CPU runs, or make one that waits for a message
      runnable, and does not destroy a dying environment a second time. */
  predicate Guarded(envs: seq<Env>, cur: seq<int>, c: nat, cause: Cause)
    requires |envs| == NENV && c < |cur| && 0 <= cur[c] < NENV
  {
    match cause
    case SetStatus(envid, st) =>
      var t := Target(envs, cur[c], envid, true);
      (st == RUNNABLE || st == NOT_RUNNABLE) && t.Some? ==>
        (forall d :: 0 <= d < |cur| && d != c ==> cur[d] != t.value) && (st == RUNNABLE ==> !envs[t.value].recving)
    case Destroy(envid) =>
      var t := Target(envs, cur[c], envid, true);
      t.Some? ==> envs[t.value].status != DYING
    case _ => true
  }

  /** Which environment an id names: 0 names the caller, otherwise the one environment
      that has this id now and that the caller may manipulate. */
  function Target(envs: seq<Env>, caller: int, envid: int, checkperm: bool): (r: Option<nat>)
    requires |envs| == NENV && 0 <= caller < NENV
    ensures envid == 0 ==> r == Some(caller)
    ensures envid != 0 && r.Some? ==>
              && r.value < NENV && envs[r.value].status != FREE && envs[r.value].id == envid
              && (checkperm ==> r.value == caller || envs[r.value].parent == envs[caller].id)
    ensures r == None ==> forall e :: 0 <= e < NENV && envs[e].id == envid && envid % NENV == e && envs[e].status != FREE ==>
              checkperm && e != caller && envs[e].parent != envs[caller].id
  {
    if envid == 0 then Some(caller)
    else
      var e := envid % NENV;
      if envs[e].status == FREE || envs[e].id != envid then None
      else if checkperm && e != caller && envs[e].parent != envs[caller].id then None
      else Some(e)
  }

  ghost predicate NoneRunnable(envs: seq<Env>) {
    forall e :: 0 <= e < |envs| ==> envs[e].status != RUNNABLE
  }

  ghost predicate NoneBusy(envs: seq<Env>) {
    forall e :: 0 <= e < |envs| ==> !Busy(envs[e].status)
  }

  /** How many steps `i = (i + 1) % NENV` takes from `a` to `b`, at least one. */
  function Dist(a: nat, b: nat): nat
    requires a < NENV && b < NENV
  {
    if b > a then b - a else b + NENV - a
  }

  /** `j` is the first runnable environment in circular order after `start`. */
  ghost predicate FirstAfter(envs: seq<Env>, start: nat, j: nat) {
    && |envs| == NENV && start < NENV && j < NENV && envs[j].status == RUNNABLE
    && forall e :: 0 <= e < NENV && Dist(start, e) < Dist(start, j) ==> envs[e].status != RUNNABLE
  }

  // ---- what each trap comes to ----

  ghost predicate HasCur(k: Sys, c: nat) {
    SizesOk(k) && c < |k.cur| && (k.cur[c] == NONE || 0 <= k.cur[c] < NENV)
  }

  ghost function Switched(k: Sys, c: nat, e: nat): Sys
    requires HasCur(k, c) && e < NENV
  {
    k.(envs := RunEnvs(k.envs, k.cur[c], e), cur := k.cur[c := e])
  }

  /** Where sched_yield leaves the machine: the next runnable environment in circular
      order runs; if there is none the CPU goes back to its own; if that cannot run the
      CPU halts, or stops for good when no environment is left at all. */
  ghost predicate Scheduled(k: Sys, c: nat, k': Sys, stopped: bool)
    requires HasCur(k, c)
  {
    var mine := k.cur[c];
    if !NoneRunnable(k.envs) then
      !stopped && exists j: nat | FirstAfter(k.envs, if mine == NONE then 0 else mine, j) :: k' == Switched(k, c, j)
    else if mine != NONE && k.envs[mine].status == RUNNING then !stopped && k' == Switched(k, c, mine)
    else if NoneBusy(k.envs) then stopped && k' == k
    else !stopped && k' == k.(cur := k.cur[c := NONE], halted := k.halted[c := true])
  }

  /** The current environment freed and forgotten. */
  ghost function Reaped(k: Sys, c: nat): Sys
    requires HasCur(k, c) && k.cur[c] != NONE
  {
    FreeEnv(k, k.cur[c]).(cur := k.cur[c := NONE])
  }

  /** env_destroy up to the point where it may schedule: an environment another CPU runs
      becomes a zombie, any other is freed. */
  ghost function Destroyed(k: Sys, c: nat, e: nat): Sys
    requires HasCur(k, c) && e < NENV
  {
    if e == k.cur[c] then Reaped(k, c)
    else if k.envs[e].status == RUNNING then SetEnv(k, e, k.envs[e].(status := DYING))
    else FreeEnv(k, e)
  }

  /** A page at `srcva` with these permissions can be given to receiver `x`. */
  ghost predicate Sendable(me: Env, x: Env, srcva: nat, perm: Bits, memOk: bool) {
    && srcva % PGSIZE == 0 && perm <= PTE_SYSCALL
    && (W in perm ==> srcva / PGSIZE in me.space && W in me.space[srcva / PGSIZE].flags)
    && (x.dstva < UTOP ==> memOk)
  }

  ghost function SendOutcome(envs: seq<Env>, mine: nat, envid: int, srcva: nat, perm: Bits, memOk: bool): SendResult
    requires |envs| == NENV && mine < NENV
  {
    var t := Target(envs, mine, envid, false);
    if t == None then SendPanic
    else if !envs[t.value].recving then NotRecv
    else if srcva < UTOP && !Sendable(envs[mine], envs[t.value], srcva, perm, memOk) then SendPanic
    else Sent
  }

  /** The message arrives with its page if one is offered and wanted, else without. */
  ghost function SentTo(k: Sys, c: nat, envid: int, value: nat, srcva: nat, perm: Bits): Sys
    requires HasCur(k, c) && k.cur[c] != NONE && Target(k.envs, k.cur[c], envid, false).Some?
  {
    var t := Target(k.envs, k.cur[c], envid, false).value;
    var x, me := k.envs[t], k.envs[k.cur[c]];
    if srcva < UTOP && x.dstva < UTOP && srcva / PGSIZE in me.space then
      Deliver(k, t, me.id, value, perm, x.space[x.dstva / PGSIZE := Entry(me.space[srcva / PGSIZE].ppn, perm + {P})])
    else Deliver(k, t, me.id, value, {}, x.space)
  }

  /** The state a trap's handler makes before the CPU resumes or schedules; None when
      the kernel panics. */
  ghost function Effect(k: Sys, c: nat, cause: Cause): Option<Sys>
    requires HasCur(k, c) && k.cur[c] != NONE
  {
    var mine := k.cur[c];
    match cause
    case Return => Some(k)
    case Tick => Some(k)
    case Fault => Some(Reaped(k, c))
    case Remap(envid, space) =>
      var t := Target(k.envs, mine, envid, true);
      Some(if t.Some? then SetEnv(k, t.value, k.envs[t.value].(space := space)) else k)
    case Exofork(vmOk) =>
      Some(if k.free == [] || !vmOk || !(0 <= k.free[0] < NENV) then k
           else AllocEnv(k, k.free[0], k.envs[mine].id, NOT_RUNNABLE))
    case SetStatus(envid, st) =>
      var t := Target(k.envs, mine, envid, true);
      Some(if t.Some? && (st == RUNNABLE || st == NOT_RUNNABLE)
           then SetEnv(k, t.value, k.envs[t.value].(status := st)) else k)
    case Destroy(envid) =>
      var t := Target(k.envs, mine, envid, true);
      Some(if t.Some? then Destroyed(k, c, t.value) else k)
    case TrySend(envid, value, srcva, perm, memOk) => (
      match SendOutcome(k.envs, mine, envid, srcva, perm, memOk)
      case SendPanic => None
      case NotRecv => Some(k)
      case Sent => Some(SentTo(k, c, envid, value, srcva, perm)))
    case Recv(dstva) =>
      Some(if dstva < UTOP && dstva % PGSIZE != 0 then k else Block(k, mine, dstva))
  }

  /** The handler does not return to trap: it scheduled by itself. */
  ghost predicate Leaves(k1: Sys, c: nat, cause: Cause)
    requires HasCur(k1, c)
  {
    cause.Tick? || k1.cur[c] == NONE || (cause.Recv? && (cause.dstva < UTOP ==> cause.dstva % PGSIZE == 0))
  }

  ghost predicate DispatchResult(k: Sys, c: nat, cause: Cause, left: bool, k': Sys, stopped: bool)
    requires HasCur(k, c) && k.cur[c] != NONE
  {
    match Effect(k, c, cause)
    case None => stopped && k' == k
    case Some(k1) =>
      && HasCur(k1, c) && left == Leaves(k1, c, cause)
      && if left then Scheduled(k1, c, k', stopped) else !stopped && k' == k1
  }

  /** A zombie is reaped at its next trap. Otherwise the handler runs, and then the
      environment goes on if it still runs and did not give up the CPU. */
  ghost predicate TrapResult(k: Sys, c: nat, cause: Cause, k': Sys, stopped: bool)
    requires HasCur(k, c) && k.cur[c] != NONE
  {
    if k.envs[k.cur[c]].status == DYING then Scheduled(Reaped(k, c), c, k', stopped)
    else
      match Effect(k, c, cause)
      case None => stopped && k' == k
      case Some(k1) =>
        && HasCur(k1, c)
        && if !Leaves(k1, c, cause) && k1.envs[k1.cur[c]].status == RUNNING
           then !stopped && k' == Switched(k1, c, k1.cur[c])
           else Scheduled(k1, c, k', stopped)
  }

  /** The kernel's state after env_init: all slots free, and on the free list in order. */
  ghost function InitialSys(ncpu: nat): Sys {
    Sys(seq(NENV, _ => Env(FREE, 0, 0, 0, map[], false, 0, 0, 0, {})),
        seq(ncpu, _ => NONE), seq(ncpu, _ => false), seq(NENV, i => i), seq(NENV, _ => 0), [])
  }

  /** The kernel's state after `n` calls of env_create. */
  ghost function Created(k: Sys, n: nat): Sys {
    if n == 0 then k
    else
      var k1 := Created(k, n - 1);
      if SizesOk(k1) && k1.free != [] && 0 <= k1.free[0] < NENV then AllocEnv(k1, k1.free[0], 0, RUNNABLE) else k1
  }

  // ---- facts ----

  lemma GuardedDestroy(envs: seq<Env>, cur: seq<int>, c: nat, envid: int)
    requires |envs| == NENV && c < |cur| && 0 <= cur[c] < NENV
    ensures Guarded(envs, cur, c, Destroy(envid)) <==>
            var t := Target(envs, cur[c], envid, true); t.Some? ==> envs[t.value].status != DYING
  {
  }

  lemma GuardedElse(envs: seq<Env>, cur: seq<int>, c: nat, cause: Cause)
    requires |envs| == NENV && c < |cur| && 0 <= cur[c] < NENV && !cause.SetStatus? && !cause.Destroy?
    ensures Guarded(envs, cur, c, cause)
  {
  }

  lemma LockedFacts(k: Sys, c: int)
    requires LockedBy(k, c)
    ensures SizesOk(k) && IdsOk(k) && 0 <= c < |k.cur| && CpuInside(k, c)
  {
  }

  lemma CurrentFacts(k: Sys, c: nat)
    requires Unlocked(k) && c < |k.cur|
    ensures SizesOk(k)
    ensures k.cur[c] == NONE || (0 <= k.cur[c] < NENV && Busy(k.envs[k.cur[c]].status) && !k.halted[c])
  {
    assert CpuOk(k, c);
  }

  lemma ReapFacts(k: Sys, c: nat)
    requires Unlocked(k) && c < |k.cur| && 0 <= k.cur[c] < NENV && Busy(k.envs[k.cur[c]].status)
    ensures k.cur[c] !in k.free
    ensures LockedBy(FreeEnv(k, k.cur[c]).(cur := k.cur[c := NONE]), c)
  {
    assert CpuOk(k, c);
    FreeCurrentStep(k, c);
  }

  lemma FreeFacts(k: Sys, c: int, e: nat)
    requires LockedBy(k, c) && e < NENV && k.envs[e].status != FREE
    ensures e !in k.free
  {
  }

  lemma FreeCurrentFacts(k: Sys, c: nat)
    requires LockedBy(k, c) && 0 <= k.cur[c] < NENV
    ensures LockedBy(FreeEnv(k, k.cur[c]).(cur := k.cur[c := NONE]), c)
  {
    FreeCurrentStep(k, c);
  }

  lemma SlotOfId(k: Sys, e: nat)
    requires SizesOk(k) && IdsOk(k) && e < NENV && k.envs[e].status != FREE
    ensures k.envs[e].id % NENV == e && k.envs[e].id > 0
  {
    IdBounds(e, k.allocs[e]);
  }
}
