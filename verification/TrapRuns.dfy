/** Runs of the kernel: traps of any number of CPUs in any order, each one atomic step. What
    holds in every state of every run, stated over the sequence of its states. */
module TrapRuns {
  import opened Basics
  import opened FreeList
  import opened Paging
  import opened EnvTable
  import opened EnvSteps
  import opened Traps

  // ---- runs ----

  /** A CPU with an environment takes a trap of it; one without wakes up or starts. */
  ghost predicate IsStep(k: Sys, c: nat, cause: Cause, k': Sys, stopped: bool) {
    && HasCur(k, c)
    && if k.cur[c] == NONE then Scheduled(Woken(k, c), c, k', stopped) else TrapResult(k, c, cause, k', stopped)
  }

  ghost function Woken(k: Sys, c: nat): Sys
    requires SizesOk(k) && c < |k.cur|
  {
    k.(halted := k.halted[c := false])
  }

  /** The trap keeps clear of what the kernel does not guard against. The cause of a
      zombie's trap does not matter. */
  ghost predicate Admissible(k: Sys, c: nat, cause: Cause) {
    && HasCur(k, c)
    && (k.cur[c] != NONE && k.envs[k.cur[c]].status != DYING ==>
          Guarded(k.envs, k.cur, c, cause) && SendMapped(k.envs, k.cur, c, cause))
  }

  ghost predicate Taken(k: Sys, step: (nat, Cause), k': Sys, stopped: bool) {
    Admissible(k, step.0, step.1) && IsStep(k, step.0, step.1, k', stopped)
  }

  /** `ks` are the states of a run of `steps`; only its last step can stop the machine. */
  ghost predicate Follows(ks: seq<Sys>, steps: seq<(nat, Cause)>, stopped: bool) {
    && |ks| == |steps| + 1
    && forall i :: 0 <= i < |steps| ==> Taken(ks[i], steps[i], ks[i + 1], stopped && i == |steps| - 1)
  }

  lemma FollowsMore(ks: seq<Sys>, steps: seq<(nat, Cause)>, n: nat, k': Sys, stopped: bool)
    requires n < |steps| && Follows(ks, steps[..n], false) && Taken(ks[n], steps[n], k', stopped)
    ensures Follows(ks + [k'], steps[..n + 1], stopped)
  {
  }

  lemma FollowsLess(ks: seq<Sys>, steps: seq<(nat, Cause)>, n: nat)
    requires Follows(ks, steps, false) && n <= |steps|
    ensures Follows(ks[..n + 1], steps[..n], false)
  {
    forall i | 0 <= i < n ensures Taken(ks[..n + 1][i], steps[..n][i], ks[..n + 1][i + 1], false) {
      assert Taken(ks[i], steps[i], ks[i + 1], false);
    }
  }

  // ---- every state of every run is safe ----

  /** The invariant other CPUs find when they take the lock. */
  ghost predicate Safe(k: Sys) {
    Unlocked(k) && NoDup(k.free)
  }

  lemma EffectSafe(k: Sys, c: nat, cause: Cause)
    requires LockedBy(k, c) && NoDup(k.free) && k.cur[c] != NONE && k.envs[k.cur[c]].status == RUNNING
    requires Guarded(k.envs, k.cur, c, cause) && Effect(k, c, cause).Some?
    ensures var k1 := Effect(k, c, cause).value; LockedBy(k1, c) && NoDup(k1.free)
  {
    hide LockedBy, NoDup;
    LockedFacts(k, c);
    var mine := k.cur[c];
    match cause {
      case Return =>
      case Tick =>
      case Fault => ReapSafe(k, c);
      case Remap(envid, space) =>
        var t := Target(k.envs, mine, envid, true);
        if t.Some? {
          RemapStep(k, c, t.value, space);
        }
      case Exofork(vmOk) =>
        if k.free != [] {
          AllocStep(k, c, k.envs[mine].id, NOT_RUNNABLE);
          TailNoDup(k.free);
        }
      case SetStatus(envid, st) =>
        var t := Target(k.envs, mine, envid, true);
        if t.Some? && (st == RUNNABLE || st == NOT_RUNNABLE) {
          SetStatusExact(k, c, t.value, st);
        }
      case Destroy(envid) =>
        var t := Target(k.envs, mine, envid, true);
        if t.Some? {
          DestroySafe(k, c, t.value);
        }
      case TrySend(envid, value, srcva, perm, memOk) =>
        var t := Target(k.envs, mine, envid, false);
        if SendOutcome(k.envs, mine, envid, srcva, perm, memOk) == Sent {
          SendSafe(k, c, envid, value, srcva, perm);
        }
      case Recv(dstva) => BlockStep(k, c, dstva);
    }
  }

  lemma TailNoDup(s: seq<int>)
    requires NoDup(s) && s != []
    ensures NoDup(s[1..])
  {
  }

  lemma ConsNoDup(e: int, s: seq<int>)
    requires NoDup(s) && e !in s
    ensures NoDup([e] + s)
  {
  }

  lemma ReapSafe(k: Sys, c: nat)
    requires LockedBy(k, c) && NoDup(k.free) && k.cur[c] != NONE
    ensures HasCur(k, c) && LockedBy(Reaped(k, c), c) && NoDup(Reaped(k, c).free)
  {
    FreeCurrentStep(k, c);
    ConsNoDup(k.cur[c], k.free);
  }

  lemma DestroySafe(k: Sys, c: nat, e: nat)
    requires LockedBy(k, c) && NoDup(k.free) && e < NENV && k.envs[e].status != FREE && k.envs[e].status != DYING
    ensures HasCur(k, c) && LockedBy(Destroyed(k, c, e), c) && NoDup(Destroyed(k, c, e).free)
  {
    hide LockedBy, NoDup;
    LockedFacts(k, c);
    FreeFacts(k, c, e);
    if e == k.cur[c] {
      ReapSafe(k, c);
    } else if k.envs[e].status == RUNNING {
      MarkDyingStep(k, c, e);
    } else {
      FreeStepExact(k, c, e);
      ConsNoDup(e, k.free);
    }
  }

  lemma SendSafe(k: Sys, c: nat, envid: int, value: nat, srcva: nat, perm: Bits)
    requires LockedBy(k, c) && k.cur[c] != NONE && Target(k.envs, k.cur[c], envid, false).Some?
    requires k.envs[Target(k.envs, k.cur[c], envid, false).value].recving
    ensures LockedBy(SentTo(k, c, envid, value, srcva, perm), c)
    ensures SentTo(k, c, envid, value, srcva, perm).free == k.free
  {
    hide LockedBy;
    LockedFacts(k, c);
    var t := Target(k.envs, k.cur[c], envid, false).value;
    var x, me := k.envs[t], k.envs[k.cur[c]];
    if srcva < UTOP && x.dstva < UTOP && srcva / PGSIZE in me.space {
      DeliverStep(k, c, t, me.id, value, perm,
                  x.space[x.dstva / PGSIZE := Entry(me.space[srcva / PGSIZE].ppn, perm + {P})]);
    } else {
      DeliverStep(k, c, t, me.id, value, {}, x.space);
    }
  }

  lemma ScheduleSafe(k: Sys, c: nat, k': Sys)
    requires LockedBy(k, c) && HasCur(k, c) && Scheduled(k, c, k', false)
    ensures Unlocked(k') && k'.free == k.free
  {
    hide LockedBy, Unlocked, RunEnvs;
    LockedFacts(k, c);
    if !NoneRunnable(k.envs) {
      var j: nat :| FirstAfter(k.envs, if k.cur[c] == NONE then 0 else k.cur[c], j) && k' == Switched(k, c, j);
      RunStep(k, c, j);
    } else if k.cur[c] != NONE && k.envs[k.cur[c]].status == RUNNING {
      RunStep(k, c, k.cur[c]);
    } else {
      HaltStep(k, c);
    }
  }

  /** One trap, taken at any moment the lock is free, leads to such a moment again. */
  lemma StepSafe(k: Sys, c: nat, cause: Cause, k': Sys)
    requires Safe(k) && Taken(k, (c, cause), k', false)
    ensures Safe(k') && |k'.cur| == |k.cur|
  {
    hide LockedBy, Unlocked, RunEnvs, Scheduled, Effect, NoDup, Guarded, SendMapped;
    CurrentFacts(k, c);
    StepCpus(k, c, cause, k');
    if k.cur[c] == NONE {
      WokenLocked(k, c);
      ScheduleSafe(Woken(k, c), c, k');
    } else if k.envs[k.cur[c]].status == DYING {
      ZombieLocked(k, c);
      ScheduleSafe(Reaped(k, c), c, k');
    } else {
      EnterStep(k, c);
      EffectSafe(k, c, cause);
      var k1 := Effect(k, c, cause).value;
      if !Leaves(k1, c, cause) && k1.envs[k1.cur[c]].status == RUNNING {
        RunStep(k1, c, k1.cur[c]);
      } else {
        ScheduleSafe(k1, c, k');
      }
    }
  }

  lemma WokenLocked(k: Sys, c: nat)
    requires Unlocked(k) && c < |k.cur| && k.cur[c] == NONE
    ensures LockedBy(Woken(k, c), c)
  {
    if k.halted[c] {
      WakeStep(k, c);
    } else {
      assert Woken(k, c) == k;
      EnterStep(k, c);
    }
  }

  lemma ZombieLocked(k: Sys, c: nat)
    requires Safe(k) && c < |k.cur| && 0 <= k.cur[c] < NENV && Busy(k.envs[k.cur[c]].status)
    ensures LockedBy(Reaped(k, c), c) && NoDup(Reaped(k, c).free)
  {
    ReapFacts(k, c);
    ConsNoDup(k.cur[c], k.free);
  }

  /** Runs start with the state env_init makes. */
  lemma InitialIsSafe(ncpu: nat)
    ensures Safe(InitialSys(ncpu))
  {
    var k := InitialSys(ncpu);
    forall e | 0 <= e < NENV ensures e in k.free {
      assert k.free[e] == e;
    }
  }

  /** Every state of every run, on any number of CPUs, is safe. */
  lemma {:induction false} RunSafe(ks: seq<Sys>, steps: seq<(nat, Cause)>, i: nat)
    requires Follows(ks, steps, false) && Safe(ks[0]) && i <= |steps|
    ensures Safe(ks[i]) && |ks[i].cur| == |ks[0].cur|
  {
    if i == 0 {
    } else {
      RunSafe(ks, steps, i - 1);
      assert Taken(ks[i - 1], steps[i - 1], ks[i], false);
      StepSafe(ks[i - 1], steps[i - 1].0, steps[i - 1].1, ks[i]);
    }
  }

  // ---- the guards are exact ----

  /** A call that does not keep clear of them breaks the invariant, and its caller goes on. */
  lemma UnguardedEffect(k: Sys, c: nat, cause: Cause)
    requires LockedBy(k, c) && HasCur(k, c) && k.cur[c] != NONE && k.envs[k.cur[c]].status == RUNNING
    requires !Guarded(k.envs, k.cur, c, cause)
    ensures Effect(k, c, cause).Some?
    ensures var k1 := Effect(k, c, cause).value;
            && HasCur(k1, c) && k1.cur == k.cur && k1.halted == k.halted && k1.envs[k.cur[c]].status == RUNNING
            && !Leaves(k1, c, cause) && !LockedBy(k1, c)
  {
    hide LockedBy, Scheduled;
    LockedFacts(k, c);
    var t := Target(k.envs, k.cur[c], cause.envid, true).value;
    if cause.SetStatus? {
      NotMine(k, c, t);
      SetStatusExact(k, c, t, cause.st);
    } else {
      FreeStepExact(k, c, t);
    }
  }

  /** So the state its trap leaves is not safe. */
  lemma UnguardedBreaks(k: Sys, c: nat, cause: Cause, k': Sys)
    requires Unlocked(k) && HasCur(k, c) && k.cur[c] != NONE && k.envs[k.cur[c]].status == RUNNING
    requires !Guarded(k.envs, k.cur, c, cause) && TrapResult(k, c, cause, k', false)
    ensures !Unlocked(k')
  {
    hide LockedBy, Unlocked, Scheduled, Effect, Guarded;
    CurrentFacts(k, c);
    EnterStep(k, c);
    UnguardedEffect(k, c, cause);
    var k1 := Effect(k, c, cause).value;
    if Unlocked(k') {
      EnterStep(k', c);
      RunsDoNotMatter(k1, c, k');
    }
  }

  /** An environment another CPU runs, or one that waits, is not the caller. */
  lemma NotMine(k: Sys, c: nat, t: nat)
    requires LockedBy(k, c) && k.cur[c] != NONE && k.envs[k.cur[c]].status == RUNNING && t < NENV
    ensures (exists d :: 0 <= d < |k.cur| && d != c && k.cur[d] == t) || k.envs[t].recving ==> t != k.cur[c]
  {
    assert IpcFields(k.envs[k.cur[c]], Last(k.trace, k.cur[c]));
  }

  lemma RunsDoNotMatter(k: Sys, c: nat, k': Sys)
    requires HasCur(k, c) && k.cur[c] != NONE && k.envs[k.cur[c]].status == RUNNING
    requires k' == Switched(k, c, k.cur[c]) && LockedBy(k', c)
    ensures LockedBy(k, c)
  {
    assert k'.cur == k.cur;
    forall d | 0 <= d < |k.cur| && d != c ensures CpuOk(k, d) {
      assert CpuOk(k', d);
    }
    forall e | 0 <= e < NENV && k.envs[e].status != FREE ensures IpcFields(k.envs[e], Last(k.trace, e)) {
      assert IpcFields(k'.envs[e], Last(k'.trace, e));
    }
  }

  // ---- what steps leave alone ----

  /** A trap changes the current environment of its own CPU only. */
  lemma StepCpus(k: Sys, c: nat, cause: Cause, k': Sys)
    requires IsStep(k, c, cause, k', false)
    ensures |k'.cur| == |k.cur| && forall d :: 0 <= d < |k.cur| && d != c ==> k'.cur[d] == k.cur[d]
  {
    if k.cur[c] == NONE {
      ScheduleCpus(Woken(k, c), c, k');
    } else if k.envs[k.cur[c]].status == DYING {
      ScheduleCpus(Reaped(k, c), c, k');
    } else {
      var k1 := Effect(k, c, cause).value;
      if !(!Leaves(k1, c, cause) && k1.envs[k1.cur[c]].status == RUNNING) {
        ScheduleCpus(k1, c, k');
      }
    }
  }

  lemma ScheduleCpus(k: Sys, c: nat, k': Sys)
    requires HasCur(k, c) && Scheduled(k, c, k', false)
    ensures |k'.cur| == |k.cur| && forall d :: 0 <= d < |k.cur| && d != c ==> k'.cur[d] == k.cur[d]
    ensures k'.allocs == k.allocs && k'.trace == k.trace && SizesOk(k')
  {
    if !NoneRunnable(k.envs) {
      var j: nat :| FirstAfter(k.envs, if k.cur[c] == NONE then 0 else k.cur[c], j) && k' == Switched(k, c, j);
    }
  }
}
