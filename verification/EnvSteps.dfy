/** The changes kernel code makes to the environment table and the processors, each
    with what it does to the invariant (lab/kern/env.c, lab/kern/sched.c,
    lab/kern/syscall.c). */
module EnvSteps {
  import opened Basics
  import opened FreeList
  import opened Paging
  import opened EnvTable

  ghost function SetEnv(k: Sys, e: nat, x: Env): Sys
    requires e < |k.envs|
  {
    k.(envs := k.envs[e := x])
  }

  // ---- env_run ----

  function RunEnvs(envs: seq<Env>, cur: int, e: nat): seq<Env>
    requires e < |envs| && (cur == NONE || 0 <= cur < |envs|)
  {
    var envs1 := if cur != NONE && envs[cur].status == RUNNING
                 then envs[cur := envs[cur].(status := RUNNABLE)] else envs;
    envs1[e := envs1[e].(status := RUNNING, runs := envs1[e].runs + 1)]
  }

  ghost predicate MayRun(k: Sys, c: int, e: int)
    requires SizesOk(k) && 0 <= c < |k.cur|
  {
    0 <= e < NENV && (k.envs[e].status == RUNNABLE || (e == k.cur[c] && k.envs[e].status == RUNNING))
  }

  /** Switching to a runnable environment, or back to the current one, restores the
      invariant other CPUs rely on. */
  lemma RunStep(k: Sys, c: nat, e: nat)
    requires LockedBy(k, c) && MayRun(k, c, e)
    ensures Unlocked(k.(envs := RunEnvs(k.envs, k.cur[c], e), cur := k.cur[c := e]))
  {
    var k' := k.(envs := RunEnvs(k.envs, k.cur[c], e), cur := k.cur[c := e]);
    forall d | 0 <= d < |k.cur| && d != c ensures k.cur[d] != e && (k.cur[d] != NONE ==> k.cur[d] != k.cur[c]) {
      assert CpuOk(k, d);
    }
    forall f | 0 <= f < NENV && Busy(k'.envs[f].status) ensures f in k'.cur {
      if f == e {
        assert k'.cur[c] == e;
      } else {
        assert f != k.cur[c];
        var d :| 0 <= d < |k.cur| && k.cur[d] == f;
        assert k'.cur[d] == f;
      }
    }
    forall d | 0 <= d < |k'.cur| ensures CpuOk(k', d) {
      if d != c { assert CpuOk(k, d); }
    }
    KeepsIpc(k, k');
  }

  /** IPC bookkeeping depends only on the IPC fields and on who is blocked. */
  lemma KeepsIpc(k: Sys, k': Sys)
    requires SizesOk(k) && SizesOk(k') && IpcOk(k) && k'.trace == k.trace
    requires forall e :: 0 <= e < NENV ==>
      var x, y := k.envs[e], k'.envs[e];
      y.status != FREE ==>
        x.status != FREE && y.recving == x.recving && y.dstva == x.dstva
        && y.value == x.value && y.from == x.from && y.perm == x.perm
        && (x.recving ==> y.status == NOT_RUNNABLE)
    ensures IpcOk(k')
  {
    forall e | 0 <= e < NENV && k'.envs[e].status != FREE ensures IpcFields(k'.envs[e], Last(k'.trace, e)) {
      assert IpcFields(k.envs[e], Last(k.trace, e));
    }
  }

  // ---- sched_halt ----

  lemma HaltStep(k: Sys, c: nat)
    requires LockedBy(k, c) && (k.cur[c] != NONE ==> !Busy(k.envs[k.cur[c]].status))
    ensures Unlocked(k.(cur := k.cur[c := NONE], halted := k.halted[c := true]))
  {
    var k' := k.(cur := k.cur[c := NONE], halted := k.halted[c := true]);
    forall f | 0 <= f < NENV && Busy(k'.envs[f].status) ensures f in k'.cur {
      var d :| 0 <= d < |k.cur| && k.cur[d] == f;
      assert k'.cur[d] == f;
    }
    forall d | 0 <= d < |k'.cur| ensures CpuOk(k', d) {
      if d != c { assert CpuOk(k, d); }
    }
  }

  // ---- entering the kernel ----

  lemma EnterStep(k: Sys, c: nat)
    requires Unlocked(k) && c < |k.cur| && !k.halted[c]
    requires k.cur[c] == NONE || (0 <= k.cur[c] < NENV && k.envs[k.cur[c]].status == RUNNING)
    ensures LockedBy(k, c)
  {
    assert CpuOk(k, c);
  }

  lemma WakeStep(k: Sys, c: nat)
    requires Unlocked(k) && c < |k.cur| && k.halted[c]
    ensures LockedBy(k.(halted := k.halted[c := false]), c)
  {
    var k' := k.(halted := k.halted[c := false]);
    assert CpuOk(k, c);
    forall d | 0 <= d < |k'.cur| && d != c ensures CpuOk(k', d) {
      assert CpuOk(k, d);
    }
  }

  // ---- env_free ----

  ghost function FreeEnv(k: Sys, e: nat): Sys
    requires e < |k.envs|
  {
    SetEnv(k, e, k.envs[e].(status := FREE)).(free := [e] + k.free)
  }

  /** Freeing an environment that is not current keeps the invariant of the CPU in the
      kernel exactly when no other CPU is running it as a zombie. */
  lemma FreeStepExact(k: Sys, c: nat, e: nat)
    requires LockedBy(k, c) && e < NENV && k.envs[e].status != FREE && k.cur[c] != e
    ensures LockedBy(FreeEnv(k, e), c) <==> !Busy(k.envs[e].status)
  {
    var k' := FreeEnv(k, e);
    FreeListGrows(k, e);
    if Busy(k.envs[e].status) {
      var d :| 0 <= d < |k.cur| && k.cur[d] == e;
      assert !CpuOk(k', d);
    } else {
      forall d | 0 <= d < |k.cur| && d != c ensures CpuOk(k', d) {
        assert CpuOk(k, d);
      }
      KeepsIpc(k, k');
    }
  }

  lemma FreeListGrows(k: Sys, e: nat)
    requires SizesOk(k) && FreeEnvsOk(k) && e < NENV
    ensures FreeEnvsOk(FreeEnv(k, e))
  {
    assert forall f :: f in [e] + k.free <==> f == e || f in k.free;
  }

  /** Freeing the current environment and forgetting it, as trap does with a zombie and
      env_destroy with the caller itself. */
  lemma FreeCurrentStep(k: Sys, c: nat)
    requires Common(k) && c < |k.cur| && 0 <= k.cur[c] < NENV && !k.halted[c]
    requires forall d :: 0 <= d < |k.cur| && d != c ==> CpuOk(k, d)
    ensures LockedBy(FreeEnv(k, k.cur[c]).(cur := k.cur[c := NONE]), c)
  {
    var e := k.cur[c];
    var k' := FreeEnv(k, e).(cur := k.cur[c := NONE]);
    FreeListGrows(k, e);
    forall f | 0 <= f < NENV && Busy(k'.envs[f].status) ensures f in k'.cur {
      var d :| 0 <= d < |k.cur| && k.cur[d] == f;
      assert k'.cur[d] == f;
    }
    forall d | 0 <= d < |k'.cur| && d != c ensures CpuOk(k', d) {
      assert CpuOk(k, d) && k.cur[d] != e;
    }
    KeepsIpc(k, k');
  }

  /** env_destroy of an environment running on another CPU only marks it. */
  lemma MarkDyingStep(k: Sys, c: nat, e: nat)
    requires LockedBy(k, c) && e < NENV && k.envs[e].status == RUNNING && k.cur[c] != e
    ensures LockedBy(SetEnv(k, e, k.envs[e].(status := DYING)), c)
  {
    var k' := SetEnv(k, e, k.envs[e].(status := DYING));
    forall d | 0 <= d < |k.cur| && d != c ensures CpuOk(k', d) {
      assert CpuOk(k, d);
    }
    KeepsIpc(k, k');
  }

  // ---- env_alloc ----

  ghost function AllocEnv(k: Sys, e: nat, parent: int, st: Status): Sys
    requires e < |k.envs| && e < |k.allocs| && k.free != []
  {
    var x := k.envs[e].(status := st, id := NextId(k.envs[e].id, e), parent := parent, runs := 0,
                        space := map[], recving := false);
    SetEnv(k, e, x).(free := k.free[1..], allocs := k.allocs[e := k.allocs[e] + 1], trace := k.trace + [Born(e)])
  }

  lemma AllocStep(k: Sys, c: nat, parent: int, st: Status)
    requires LockedBy(k, c) && k.free != [] && NoDup(k.free) && (st == RUNNABLE || st == NOT_RUNNABLE)
    ensures 0 <= k.free[0] < NENV && k.envs[k.free[0]].status == FREE
    ensures LockedBy(AllocEnv(k, k.free[0], parent, st), c)
  {
    var e := k.free[0];
    assert e in k.free;
    var k' := AllocEnv(k, e, parent, st);
    assert k.free == [e] + k'.free;
    forall f ensures f in k'.free <==> f in k.free && f != e {
    }
    forall d | 0 <= d < |k.cur| && d != c ensures CpuOk(k', d) {
      assert CpuOk(k, d);
    }
    LastStep(k.trace, Born(e));
    RendezvousStep(k.trace, Born(e));
    forall f | 0 <= f < NENV && k'.envs[f].status != FREE ensures IpcFields(k'.envs[f], Last(k'.trace, f)) {
      if f != e { assert IpcFields(k.envs[f], Last(k.trace, f)); }
    }
  }

  // ---- the page system calls ----

  lemma RemapStep(k: Sys, c: nat, e: nat, space: map<int, Entry>)
    requires LockedBy(k, c) && e < NENV
    ensures LockedBy(SetEnv(k, e, k.envs[e].(space := space)), c)
  {
    var k' := SetEnv(k, e, k.envs[e].(space := space));
    forall d | 0 <= d < |k.cur| && d != c ensures CpuOk(k', d) {
      assert CpuOk(k, d);
    }
    KeepsIpc(k, k');
  }

  // ---- sys_env_set_status ----

  /** sys_env_set_status stores over any status. That keeps the invariant exactly when
      the target is not current on another CPU and is not made runnable while it waits
      for a message. */
  lemma SetStatusExact(k: Sys, c: nat, e: nat, st: Status)
    requires LockedBy(k, c) && e < NENV && k.envs[e].status != FREE && (st == RUNNABLE || st == NOT_RUNNABLE)
    ensures LockedBy(SetEnv(k, e, k.envs[e].(status := st)), c) <==>
            (forall d :: 0 <= d < |k.cur| && d != c ==> k.cur[d] != e)
            && (st == RUNNABLE ==> !k.envs[e].recving)
  {
    var k' := SetEnv(k, e, k.envs[e].(status := st));
    if d :| 0 <= d < |k.cur| && d != c && k.cur[d] == e {
      assert !CpuOk(k', d);
    } else if st == RUNNABLE && k.envs[e].recving {
      assert !IpcFields(k'.envs[e], Last(k'.trace, e));
    } else {
      forall d | 0 <= d < |k.cur| && d != c ensures CpuOk(k', d) {
        assert CpuOk(k, d);
      }
      KeepsIpc(k, k');
    }
  }

  // ---- what the calls do not guard against ----

  /** Two CPUs, each running one environment; the second is the child of the first and
      has status `st`. */
  ghost function TwoCpus(st: Status): Sys {
    Sys(seq(NENV, i requires 0 <= i < NENV => Env(if i == 0 then RUNNING else if i == 1 then st else FREE,
                           IdAfter(i, if i < 2 then 1 else 0), if i == 1 then IdAfter(0, 1) else 0,
                           0, map[], false, 0, 0, 0, {})),
        [0, 1], [false, false], seq(NENV - 2, i => i + 2),
        seq(NENV, i => if i < 2 then 1 else 0), [Born(0), Born(1)])
  }

  lemma TwoCpusOk(st: Status)
    requires Busy(st)
    ensures Unlocked(TwoCpus(st)) && LockedBy(TwoCpus(st), 0)
  {
    hide IdAfter;
    var k := TwoCpus(st);
    forall e ensures e in k.free <==> 2 <= e < NENV {
      if 2 <= e < NENV { assert k.free[e - 2] == e; }
    }
    assert k.cur[0] == 0 && k.cur[1] == 1;
    assert k.trace[..1] == [Born(0)] && k.trace[..1][..0] == [];
    assert Last(k.trace, 1) == Some(Born(1)) && Last(k.trace, 0) == Some(Born(0));
    assert CpuOk(k, 1);
  }

  /** The same two once the child has blocked in a receive and its CPU has halted. */
  ghost function WaitingChild(): Sys {
    var k := Block(TwoCpus(RUNNING), 1, UTOP);
    k.(cur := k.cur[1 := NONE], halted := k.halted[1 := true])
  }

  lemma WaitingChildOk()
    ensures LockedBy(WaitingChild(), 0)
  {
    hide Unlocked, LockedBy, IdAfter;
    var k := TwoCpus(RUNNING);
    TwoCpusOk(RUNNING);
    EnterStep(k, 1);
    BlockStep(k, 1, UTOP);
    HaltStep(Block(k, 1, UTOP), 1);
    EnterStep(WaitingChild(), 0);
  }

  /** A parent can set the status of a child that another CPU runs, can make a child that
      waits for a message runnable, and can destroy a child that is dying already; each
      breaks the invariant. */
  lemma UnguardedCalls()
    ensures LockedBy(TwoCpus(RUNNING), 0)
            && !LockedBy(SetEnv(TwoCpus(RUNNING), 1, TwoCpus(RUNNING).envs[1].(status := RUNNABLE)), 0)
    ensures LockedBy(WaitingChild(), 0)
            && !LockedBy(SetEnv(WaitingChild(), 1, WaitingChild().envs[1].(status := RUNNABLE)), 0)
    ensures LockedBy(TwoCpus(DYING), 0) && !LockedBy(FreeEnv(TwoCpus(DYING), 1), 0)
  {
    hide Unlocked, LockedBy, IdAfter;
    TwoCpusOk(RUNNING);
    TwoCpusOk(DYING);
    WaitingChildOk();
    assert TwoCpus(RUNNING).cur[1] == 1;
    SetStatusExact(TwoCpus(RUNNING), 0, 1, RUNNABLE);
    SetStatusExact(WaitingChild(), 0, 1, RUNNABLE);
    FreeStepExact(TwoCpus(DYING), 0, 1);
  }

  // ---- message passing ----

  ghost function Block(k: Sys, e: nat, dstva: nat): Sys
    requires e < |k.envs|
  {
    SetEnv(k, e, k.envs[e].(recving := true, status := NOT_RUNNABLE, dstva := dstva))
    .(trace := k.trace + [Blocked(e, dstva)])
  }

  lemma BlockStep(k: Sys, c: nat, dstva: nat)
    requires LockedBy(k, c) && k.cur[c] != NONE && k.envs[k.cur[c]].status == RUNNING
    ensures LockedBy(Block(k, k.cur[c], dstva), c)
  {
    var e := k.cur[c];
    var k' := Block(k, e, dstva);
    assert IpcFields(k.envs[e], Last(k.trace, e));
    LastStep(k.trace, Blocked(e, dstva));
    RendezvousStep(k.trace, Blocked(e, dstva));
    forall f | 0 <= f < NENV && k'.envs[f].status != FREE ensures IpcFields(k'.envs[f], Last(k'.trace, f)) {
      if f != e { assert IpcFields(k.envs[f], Last(k.trace, f)); }
    }
    forall d | 0 <= d < |k.cur| && d != c ensures CpuOk(k', d) {
      assert CpuOk(k, d) && k.cur[d] != e;
    }
  }

  ghost function Deliver(k: Sys, e: nat, from: int, value: nat, perm: Bits, space: map<int, Entry>): Sys
    requires e < |k.envs|
  {
    SetEnv(k, e, k.envs[e].(recving := false, status := RUNNABLE, from := from, value := value, perm := perm, space := space))
    .(trace := k.trace + [Delivered(e, from, value, perm)])
  }

  lemma DeliverStep(k: Sys, c: nat, e: nat, from: int, value: nat, perm: Bits, space: map<int, Entry>)
    requires LockedBy(k, c) && e < NENV && k.envs[e].status != FREE && k.envs[e].recving
    ensures LockedBy(Deliver(k, e, from, value, perm, space), c)
  {
    var k' := Deliver(k, e, from, value, perm, space);
    assert IpcFields(k.envs[e], Last(k.trace, e));
    LastStep(k.trace, Delivered(e, from, value, perm));
    RendezvousStep(k.trace, Delivered(e, from, value, perm));
    forall f | 0 <= f < NENV && k'.envs[f].status != FREE ensures IpcFields(k'.envs[f], Last(k'.trace, f)) {
      if f != e { assert IpcFields(k.envs[f], Last(k.trace, f)); }
    }
    forall d | 0 <= d < |k.cur| && d != c ensures CpuOk(k', d) {
      assert CpuOk(k, d);
    }
  }
}
