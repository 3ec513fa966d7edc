/** Laws of kernel runs: zombies, round-robin scheduling and environment ids
    (lab/kern/env.c, sched.c, trap.c). */
module TrapLaws {
  import opened Basics
  import opened FreeList
  import opened Paging
  import opened EnvTable
  import opened EnvSteps
  import opened Traps
  import opened TrapRuns

  // ---- zombies ----

  ghost predicate Zombie(k: Sys, d: nat, e: int) {
    SizesOk(k) && d < |k.cur| && k.cur[d] == e && 0 <= e < NENV && k.envs[e].status == DYING
  }

  /** A zombie is freed by its own CPU's next trap, whatever the trap was for. */
  lemma ZombieReaped(k: Sys, d: nat, cause: Cause, k': Sys, e: int)
    requires Unlocked(k) && Zombie(k, d, e) && IsStep(k, d, cause, k', false)
    ensures |k'.envs| == NENV && k'.envs[e].status == FREE && e in k'.free && e !in k'.cur
  {
    var k1 := Reaped(k, d);
    assert e !in k1.cur && e in k1.free;
    if !NoneRunnable(k1.envs) {
      var j: nat :| FirstAfter(k1.envs, 0, j) && k' == Switched(k1, d, j);
      assert j != e;
    }
  }

  /** A trap of another CPU, idle or not, leaves it a zombie. */
  lemma ZombieKept(k: Sys, c: nat, d: nat, cause: Cause, k': Sys, e: int)
    requires Unlocked(k) && Zombie(k, d, e) && c != d && Taken(k, (c, cause), k', false)
    ensures Zombie(k', d, e)
  {
    hide Unlocked, RunEnvs, FirstAfter, SendMapped;
    CurrentFacts(k, c);
    ZombieFacts(k, c, d, e);
    StepCpus(k, c, cause, k');
    if k.cur[c] == NONE {
      ScheduleKeeps(Woken(k, c), c, e, k');
    } else if k.envs[k.cur[c]].status == DYING {
      ScheduleKeeps(Reaped(k, c), c, e, k');
    } else {
      EffectKeeps(k, c, d, e, cause);
      var k1 := Effect(k, c, cause).value;
      if !Leaves(k1, c, cause) && k1.envs[k1.cur[c]].status == RUNNING {
        RunKeeps(k1, c, k1.cur[c], e);
      } else {
        ScheduleKeeps(k1, c, e, k');
      }
    }
  }

  lemma ZombieFacts(k: Sys, c: nat, d: nat, e: int)
    requires Unlocked(k) && c < |k.cur| && c != d && Zombie(k, d, e)
    ensures e != k.cur[c] && e !in k.free && !k.envs[e].recving
  {
    assert IpcFields(k.envs[e], Last(k.trace, e));
  }

  lemma EffectKeeps(k: Sys, c: nat, d: nat, e: nat, cause: Cause)
    requires HasCur(k, c) && k.cur[c] != NONE && Guarded(k.envs, k.cur, c, cause)
    requires c != d && Zombie(k, d, e) && e != k.cur[c] && e !in k.free && !k.envs[e].recving
    requires Effect(k, c, cause).Some?
    ensures var k1 := Effect(k, c, cause).value;
            HasCur(k1, c) && k1.envs[e].status == DYING && k1.cur[c] != e
  {
  }

  lemma RunKeeps(k: Sys, c: nat, j: nat, e: nat)
    requires HasCur(k, c) && j < NENV && e < NENV && e != j && k.envs[e].status == DYING
    ensures var k' := Switched(k, c, j); SizesOk(k') && k'.envs[e].status == DYING
  {
  }

  lemma ScheduleKeeps(k: Sys, c: nat, e: nat, k': Sys)
    requires HasCur(k, c) && e < NENV && k.envs[e].status == DYING && k.cur[c] != e
    requires Scheduled(k, c, k', false)
    ensures SizesOk(k') && k'.envs[e].status == DYING
  {
    if !NoneRunnable(k.envs) {
      var j: nat :| FirstAfter(k.envs, if k.cur[c] == NONE then 0 else k.cur[c], j) && k' == Switched(k, c, j);
      RunKeeps(k, c, j, e);
    }
  }

  /** In every run a zombie stays a zombie, current on its CPU, until that CPU traps, and
      is free right after. */
  lemma {:induction false} ZombieFate(ks: seq<Sys>, steps: seq<(nat, Cause)>, d: nat, e: int)
    requires Follows(ks, steps, false) && Safe(ks[0]) && Zombie(ks[0], d, e)
    requires forall i :: 0 <= i < |steps| - 1 ==> steps[i].0 != d
    ensures forall i :: 0 <= i < |steps| ==> Zombie(ks[i], d, e)
    ensures var k' := ks[|steps|];
            if steps == [] || steps[|steps| - 1].0 != d then Zombie(k', d, e)
            else |k'.envs| == NENV && k'.envs[e].status == FREE && e in k'.free && e !in k'.cur
    decreases |steps|
  {
    hide Unlocked, IsStep, Admissible, NoDup;
    var n := |steps|;
    if n == 0 {
    } else {
      FollowsLess(ks, steps, n - 1);
      ZombieFate(ks[..n], steps[..n - 1], d, e);
      forall i | 0 <= i < n ensures Zombie(ks[i], d, e) {
        assert ks[i] == ks[..n][i];
      }
      RunSafe(ks, steps, n - 1);
      var (c, cause) := steps[n - 1];
      assert Taken(ks[n - 1], steps[n - 1], ks[n], false);
      if c == d {
        ZombieReaped(ks[n - 1], d, cause, ks[n], e);
      } else {
        ZombieKept(ks[n - 1], c, d, cause, ks[n], e);
      }
    }
  }

  // ---- round robin ----

  /** The trap makes its CPU call sched_yield while it still has its environment. */
  ghost predicate Yields(k: Sys, c: nat, cause: Cause) {
    && HasCur(k, c) && k.cur[c] != NONE && k.envs[k.cur[c]].status == RUNNING
    && Effect(k, c, cause).Some?
    && var k1 := Effect(k, c, cause).value;
    && HasCur(k1, c) && k1.cur[c] == k.cur[c] && (Leaves(k1, c, cause) || k1.envs[k1.cur[c]].status != RUNNING)
  }

  /** The trap returns to the environment it came from. */
  ghost predicate Resumes(k: Sys, c: nat, cause: Cause) {
    && HasCur(k, c) && k.cur[c] != NONE && k.envs[k.cur[c]].status == RUNNING
    && Effect(k, c, cause).Some?
    && var k1 := Effect(k, c, cause).value;
    && HasCur(k1, c) && k1.cur[c] == k.cur[c] && !Leaves(k1, c, cause) && k1.envs[k1.cur[c]].status == RUNNING
  }

  /** How often CPU `c` called sched_yield in a run. */
  ghost function Calls(ks: seq<Sys>, steps: seq<(nat, Cause)>, c: nat): nat
    requires |ks| == |steps| + 1
    decreases |steps|
  {
    if steps == [] then 0
    else
      var n := |steps| - 1;
      Calls(ks[..n + 1], steps[..n], c) + if steps[n].0 == c && Yields(ks[n], c, steps[n].1) then 1 else 0
  }

  /** Each call either picks `j` or brings the CPU's place in the circle closer to `j`. */
  lemma YieldStep(k: Sys, c: nat, cause: Cause, k': Sys, j: nat)
    requires IsStep(k, c, cause, k', false) && Yields(k, c, cause) && j < NENV
    requires k.envs[j].status == RUNNABLE && |k'.envs| == NENV && k'.envs[j].status == RUNNABLE
    ensures |k'.cur| == |k.cur| && 0 <= k'.cur[c] < NENV && Dist(k'.cur[c], j) < Dist(k.cur[c], j)
  {
    var k1, mine := Effect(k, c, cause).value, k.cur[c];
    if !NoneRunnable(k1.envs) {
      var p: nat :| FirstAfter(k1.envs, mine, p) && k' == Switched(k1, c, p);
      assert p != j && k1.envs[j].status == RUNNABLE;
    }
  }

  /** While `j` stays runnable, a CPU that keeps an environment makes fewer calls of
      sched_yield than the circular distance from where it is to `j`, in any run of all CPUs:
      the call that would be next picks `j`. */
  lemma {:induction false} RoundRobin(ks: seq<Sys>, steps: seq<(nat, Cause)>, c: nat, j: nat)
    requires Follows(ks, steps, false) && j < NENV
    requires SizesOk(ks[0]) && c < |ks[0].cur| && 0 <= ks[0].cur[c] < NENV
    requires forall i :: 0 <= i < |ks| ==> |ks[i].envs| == NENV && ks[i].envs[j].status == RUNNABLE
    requires forall i :: 0 <= i < |steps| && steps[i].0 == c ==>
               Yields(ks[i], c, steps[i].1) || Resumes(ks[i], c, steps[i].1)
    ensures var k' := ks[|steps|];
            && c < |k'.cur| && 0 <= k'.cur[c] < NENV
            && Calls(ks, steps, c) + Dist(k'.cur[c], j) <= Dist(ks[0].cur[c], j) <= NENV
    decreases |steps|
  {
    var n := |steps| - 1;
    if steps == [] {
    } else {
      FollowsLess(ks, steps, n);
      RoundRobin(ks[..n + 1], steps[..n], c, j);
      var k, k' := ks[n], ks[n + 1];
      var (d, cause) := steps[n];
      assert Taken(k, steps[n], k', false);
      StepCpus(k, d, cause, k');
      if d == c && Yields(k, c, cause) {
        YieldStep(k, c, cause, k', j);
      }
    }
  }

  // ---- ids ----

  /** Ids of live environments name exactly those environments. */
  lemma LiveIdResolves(k: Sys, caller: nat, e: nat)
    requires SizesOk(k) && IdsOk(k) && caller < NENV && e < NENV && k.envs[e].status != FREE
    ensures k.envs[e].id > 0 && Target(k.envs, caller, k.envs[e].id, false) == Some(e)
  {
    SlotOfId(k, e);
  }

  /** A dead environment's id names nothing until its slot has been allocated 2^19-1
      more times. */
  lemma DeadIdResolvesToNothing(k: Sys, caller: nat, e: nat, n: nat, checkperm: bool)
    requires SizesOk(k) && IdsOk(k) && caller < NENV && e < NENV
    requires 0 < n <= k.allocs[e] < n + GENS && (n == k.allocs[e] ==> k.envs[e].status == FREE)
    ensures Target(k.envs, caller, IdAfter(e, n), checkperm) == None
  {
    hide IdAfter, NextId;
    IdBounds(e, n);
    if n < k.allocs[e] {
      IdsDistinct(e, n, k.allocs[e]);
    }
  }

  /** Allocation counts only grow, and history is only added to. */
  ghost predicate Grows(k: Sys, k': Sys) {
    |k'.allocs| == |k.allocs| && (forall e :: 0 <= e < |k.allocs| ==> k.allocs[e] <= k'.allocs[e]) && k.trace <= k'.trace
  }

  lemma StepGrows(k: Sys, c: nat, cause: Cause, k': Sys)
    requires IsStep(k, c, cause, k', false)
    ensures Grows(k, k')
  {
    if k.cur[c] == NONE {
      ScheduleCpus(Woken(k, c), c, k');
    } else if k.envs[k.cur[c]].status == DYING {
      ScheduleCpus(Reaped(k, c), c, k');
    } else {
      var k1 := Effect(k, c, cause).value;
      if !(!Leaves(k1, c, cause) && k1.envs[k1.cur[c]].status == RUNNING) {
        ScheduleCpus(k1, c, k');
      }
    }
  }

  lemma {:induction false} RunGrows(ks: seq<Sys>, steps: seq<(nat, Cause)>, i: nat, j: nat)
    requires Follows(ks, steps, false) && i <= j <= |steps|
    ensures Grows(ks[i], ks[j])
    decreases j
  {
    if i == j {
    } else {
      RunGrows(ks, steps, i, j - 1);
      assert Taken(ks[j - 1], steps[j - 1], ks[j], false);
      StepGrows(ks[j - 1], steps[j - 1].0, steps[j - 1].1, ks[j]);
    }
  }

  /** In every run: once an environment is gone, freed or its slot given away, its id names
      nothing to any caller, until the slot has been allocated 2^19-1 more times. */
  lemma StaleIds(ks: seq<Sys>, steps: seq<(nat, Cause)>, i: nat, j: nat, e: nat, caller: nat, checkperm: bool)
    requires Follows(ks, steps, false) && Safe(ks[0]) && i <= j <= |steps| && e < NENV && caller < NENV
    requires SizesOk(ks[i]) && SizesOk(ks[j]) && ks[i].envs[e].status != FREE
    requires ks[j].allocs[e] < ks[i].allocs[e] + GENS
    requires ks[j].allocs[e] == ks[i].allocs[e] ==> ks[j].envs[e].status == FREE
    ensures Target(ks[j].envs, caller, ks[i].envs[e].id, checkperm) == None
  {
    RunSafe(ks, steps, i);
    RunSafe(ks, steps, j);
    RunGrows(ks, steps, i, j);
    DeadIdResolvesToNothing(ks[j], caller, e, ks[i].allocs[e], checkperm);
  }
}
