/** What each trap does, said over statuses, current environments and IPC fields alone
    (lab/kern/trap.c, sched.c, env.c, syscall.c), and what follows for runs: whose turn it is,
    and that nobody is forgotten. */
module TrapEffects {
  import opened Basics
  import opened FreeList
  import opened Paging
  import opened EnvTable
  import opened EnvSteps
  import opened Traps
  import opened TrapRuns
  import opened TrapLaws

  /** CPU `c` runs user code. */
  ghost predicate Running(k: Sys, c: nat) {
    HasCur(k, c) && k.cur[c] != NONE && k.envs[k.cur[c]].status == RUNNING
  }

  /** Everything but `e` and `f` is as it was, and so are the other CPUs. */
  ghost predicate OnlyChanged(k: Sys, k': Sys, c: nat, e: int, f: int) {
    && |k'.envs| == |k.envs| && (forall g :: 0 <= g < |k.envs| && g != e && g != f ==> k'.envs[g] == k.envs[g])
    && |k'.cur| == |k.cur| && (forall d :: 0 <= d < |k.cur| && d != c ==> k'.cur[d] == k.cur[d])
  }

  /** Environment `f` takes the CPU: it runs, once more than before. */
  ghost predicate Picked(k: Sys, k': Sys, c: nat, f: int) {
    && 0 <= f < |k.envs| == |k'.envs| && c < |k'.cur| && k'.cur[c] == f
    && k'.envs[f] == k.envs[f].(status := RUNNING, runs := k.envs[f].runs + 1)
  }

  // ---- scheduling ----

  /** A timer interrupt or sys_yield gives the CPU to the next runnable environment in
      circular order, and leaves the old one runnable; if there is none, the old one goes on. */
  lemma TickSchedules(k: Sys, c: nat, k': Sys)
    requires Taken(k, (c, Tick), k', false) && Running(k, c)
    ensures var mine := k.cur[c];
            if NoneRunnable(k.envs) then Picked(k, k', c, mine) && OnlyChanged(k, k', c, mine, mine)
            else
              && c < |k'.cur| && 0 <= k'.cur[c] < NENV && FirstAfter(k.envs, mine, k'.cur[c])
              && Picked(k, k', c, k'.cur[c]) && OnlyChanged(k, k', c, mine, k'.cur[c])
              && k'.envs[mine] == k.envs[mine].(status := RUNNABLE)
  {
  }

  /** A CPU without an environment takes the first runnable one; without any it halts. */
  lemma IdleSchedules(k: Sys, c: nat, cause: Cause, k': Sys)
    requires Taken(k, (c, cause), k', false) && HasCur(k, c) && k.cur[c] == NONE
    ensures if NoneRunnable(k.envs) then c < |k'.cur| && k'.cur[c] == NONE && c < |k'.halted| && k'.halted[c] && k'.envs == k.envs
            else
              && c < |k'.cur| && 0 <= k'.cur[c] < NENV && FirstAfter(k.envs, 0, k'.cur[c])
              && Picked(k, k', c, k'.cur[c]) && OnlyChanged(k, k', c, k'.cur[c], k'.cur[c]) && !k'.halted[c]
  {
    var k1 := Woken(k, c);
    if !NoneRunnable(k1.envs) {
      var j: nat :| FirstAfter(k1.envs, 0, j) && k' == Switched(k1, c, j);
    }
  }

  /** The machine stops only when no environment is runnable or running, or when a send
      panics: to nobody, or with a page that cannot be given to one that waits. */
  lemma StopsOnly(k: Sys, c: nat, cause: Cause, k': Sys)
    requires Taken(k, (c, cause), k', true)
    ensures
      || (&& cause.TrySend? && HasCur(k, c) && k.cur[c] != NONE
          && var t := Target(k.envs, k.cur[c], cause.envid, false);
          t == None || (k.envs[t.value].recving && cause.srcva < UTOP))
      || (|k'.envs| == NENV && forall e :: 0 <= e < NENV ==>
            k'.envs[e].status != RUNNABLE && k'.envs[e].status != RUNNING && k'.envs[e].status != DYING)
  {
  }

  /** What the laws of runs leave out: a status stored over that of an environment another CPU
      runs or over that of one that waits, a zombie destroyed, and a send of an unmapped page
      to an environment that waits. */
  lemma InadmissibleOnly(k: Sys, c: nat, cause: Cause)
    requires Safe(k) && c < |k.cur| && !Admissible(k, c, cause)
    ensures Running(k, c)
    ensures match cause
            case SetStatus(envid, st) =>
              && Target(k.envs, k.cur[c], envid, true).Some?
              && var t := Target(k.envs, k.cur[c], envid, true).value;
              (exists d :: 0 <= d < |k.cur| && d != c && k.cur[d] == t) || (st == RUNNABLE && k.envs[t].recving)
            case Destroy(envid) =>
              && Target(k.envs, k.cur[c], envid, true).Some?
              && k.envs[Target(k.envs, k.cur[c], envid, true).value].status == DYING
            case TrySend(envid, _, srcva, _, _) =>
              && Target(k.envs, k.cur[c], envid, false).Some?
              && k.envs[Target(k.envs, k.cur[c], envid, false).value].recving
              && srcva < UTOP && srcva / PGSIZE !in k.envs[k.cur[c]].space
            case _ => false
  {
    CurrentFacts(k, c);
  }

  // ---- calls ----

  /** A call or interrupt that changes nothing returns to its environment. */
  lemma ReturnResumes(k: Sys, c: nat, k': Sys)
    requires Taken(k, (c, Return), k', false) && Running(k, c)
    ensures Picked(k, k', c, k.cur[c]) && OnlyChanged(k, k', c, k.cur[c], k.cur[c])
    ensures k'.cur == k.cur && k'.free == k.free && k'.allocs == k.allocs && k'.trace == k.trace
  {
  }

  /** sys_ipc_recv with a good address: the caller waits, for a page at that address, and
      gives up the CPU. With a bad one it goes on. */
  lemma RecvWaits(k: Sys, c: nat, dstva: nat, k': Sys)
    requires Taken(k, (c, Recv(dstva)), k', false) && Running(k, c)
    ensures var mine := k.cur[c];
            if dstva < UTOP && dstva % PGSIZE != 0 then
              Picked(k, k', c, mine) && k'.trace == k.trace
            else
              && |k'.envs| == NENV && k'.envs[mine] == k.envs[mine].(status := NOT_RUNNABLE, recving := true, dstva := dstva)
              && k'.trace == k.trace + [Blocked(mine, dstva)] && c < |k'.cur| && k'.cur[c] != mine
  {
    var k1, mine := Effect(k, c, Recv(dstva)).value, k.cur[c];
    if !(dstva < UTOP && dstva % PGSIZE != 0) && !NoneRunnable(k1.envs) {
      var j: nat :| FirstAfter(k1.envs, mine, j) && k' == Switched(k1, c, j);
      assert j != mine;
    }
  }

  /** sys_exofork makes a child of the caller in the first free slot: not runnable, waiting
      for nothing, with an empty address space. It fails only without a slot or memory. */
  lemma ExoforkMakes(k: Sys, c: nat, vmOk: bool, k': Sys)
    requires Taken(k, (c, Exofork(vmOk)), k', false) && Running(k, c) && Safe(k)
    ensures Picked(k, k', c, k.cur[c]) && k'.cur == k.cur
    ensures if k.free == [] || !vmOk then OnlyChanged(k, k', c, k.cur[c], k.cur[c]) && k'.free == k.free
            else
              var e := k.free[0];
              && 0 <= e < NENV && k.envs[e].status == FREE && k'.free == k.free[1..] && OnlyChanged(k, k', c, k.cur[c], e)
              && k'.envs[e].status == NOT_RUNNABLE && k'.envs[e].parent == k.envs[k.cur[c]].id && !k'.envs[e].recving
              && k'.envs[e].space == map[] && k'.trace == k.trace + [Born(e)]
  {
    if k.free != [] {
      assert k.free[0] in k.free;
    }
  }

  /** A page system call changes one address space, that of the caller or of a child of its
      own, and returns. */
  lemma RemapChanges(k: Sys, c: nat, envid: int, space: map<int, Entry>, k': Sys)
    requires Taken(k, (c, Remap(envid, space)), k', false) && Running(k, c)
    ensures k'.cur == k.cur && k'.free == k.free && k'.trace == k.trace && |k'.envs| == NENV
    ensures var t := Target(k.envs, k.cur[c], envid, true);
            && (t.Some? ==> k'.envs[t.value].space == space
                            && (t.value == k.cur[c] || k.envs[t.value].parent == k.envs[k.cur[c]].id))
            && forall e :: 0 <= e < NENV && t != Some(e) ==> k'.envs[e].space == k.envs[e].space
  {
  }

  /** sys_env_set_status on another environment stores the status and returns. */
  lemma SetStatusStores(k: Sys, c: nat, envid: int, st: Status, k': Sys)
    requires Taken(k, (c, SetStatus(envid, st)), k', false) && Running(k, c)
    ensures var t := Target(k.envs, k.cur[c], envid, true);
            if t == None || (st != RUNNABLE && st != NOT_RUNNABLE) then
              Picked(k, k', c, k.cur[c]) && OnlyChanged(k, k', c, k.cur[c], k.cur[c])
            else if t.value != k.cur[c] then
              && Picked(k, k', c, k.cur[c]) && OnlyChanged(k, k', c, k.cur[c], t.value)
              && k'.envs[t.value] == k.envs[t.value].(status := st)
            else st == NOT_RUNNABLE ==>
              |k'.envs| == NENV && k'.envs[t.value].status == NOT_RUNNABLE && c < |k'.cur| && k'.cur[c] != t.value
  {
    var t := Target(k.envs, k.cur[c], envid, true);
    if t == Some(k.cur[c]) && st == NOT_RUNNABLE {
      var k1 := Effect(k, c, SetStatus(envid, st)).value;
      if !NoneRunnable(k1.envs) {
        var j: nat :| FirstAfter(k1.envs, k.cur[c], j) && k' == Switched(k1, c, j);
        assert j != t.value;
      }
    }
  }

  /** Destroying an environment frees it and its slot, at once unless another CPU runs it;
      then it becomes a zombie. */
  lemma DestroyEnds(k: Sys, c: nat, envid: int, k': Sys)
    requires Taken(k, (c, Destroy(envid)), k', false) && Running(k, c)
    ensures var t := Target(k.envs, k.cur[c], envid, true);
            && |k'.envs| == NENV
            && match t
               case None => Picked(k, k', c, k.cur[c]) && OnlyChanged(k, k', c, k.cur[c], k.cur[c]) && k'.free == k.free
               case Some(e) =>
                 if e != k.cur[c] && k.envs[e].status == RUNNING then k'.envs[e].status == DYING && k'.free == k.free
                 else k'.envs[e].status == FREE && k'.free == [e] + k.free
  {
    var t := Target(k.envs, k.cur[c], envid, true);
    if t == Some(k.cur[c]) {
      ReapedIsFree(k, c, k');
    }
  }

  /** An unhandled fault frees the environment and its slot. */
  lemma FaultEnds(k: Sys, c: nat, k': Sys)
    requires Taken(k, (c, Fault), k', false) && Running(k, c)
    ensures |k'.envs| == NENV && k'.envs[k.cur[c]].status == FREE && k'.free == [k.cur[c]] + k.free
    ensures c < |k'.cur| && k'.cur[c] != k.cur[c]
  {
    ReapedIsFree(k, c, k');
  }

  lemma ReapedIsFree(k: Sys, c: nat, k': Sys)
    requires HasCur(k, c) && k.cur[c] != NONE && Scheduled(Reaped(k, c), c, k', false)
    ensures |k'.envs| == NENV && k'.envs[k.cur[c]].status == FREE && k'.free == [k.cur[c]] + k.free
    ensures c < |k'.cur| && k'.cur[c] != k.cur[c]
  {
    var k1 := Reaped(k, c);
    if !NoneRunnable(k1.envs) {
      var j: nat :| FirstAfter(k1.envs, 0, j) && k' == Switched(k1, c, j);
      assert j != k.cur[c];
    }
  }

  /** The environments i386_init creates: one for each slot at the head of the free list, all
      runnable, without a parent. */
  lemma {:induction false} CreatedAre(k: Sys, n: nat)
    requires SizesOk(k) && n <= |k.free| && NoDup(k.free) && forall e :: e in k.free ==> 0 <= e < NENV
    ensures var k' := Created(k, n);
            && SizesOk(k') && k'.free == k.free[n..] && k'.cur == k.cur && k'.halted == k.halted
            && (forall i :: 0 <= i < n ==>
                  0 <= k.free[i] < NENV && k'.envs[k.free[i]].status == RUNNABLE && k'.envs[k.free[i]].parent == 0)
            && (forall e :: 0 <= e < NENV && e !in k.free[..n] ==> k'.envs[e] == k.envs[e])
  {
    if n == 0 {
    } else {
      CreatedAre(k, n - 1);
      var k1, e := Created(k, n - 1), k.free[n - 1];
      assert k1.free[0] == e && e in k.free;
      assert Created(k, n) == AllocEnv(k1, e, 0, RUNNABLE);
      forall i | 0 <= i < n - 1 ensures k.free[i] != e {
      }
    }
  }

  // ---- nobody is forgotten ----

  ghost predicate Ready(k: Sys, e: nat) {
    e < |k.envs| && (k.envs[e].status == RUNNABLE || k.envs[e].status == RUNNING)
  }

  /** The trap blocks, stops or destroys environment `e`. */
  ghost predicate Harms(k: Sys, c: nat, cause: Cause, e: nat) {
    && HasCur(k, c) && k.cur[c] != NONE
    && match cause
       case Fault => k.cur[c] == e
       case Recv(_) => k.cur[c] == e
       case Destroy(envid) => Target(k.envs, k.cur[c], envid, true) == Some(e)
       case SetStatus(envid, st) => st == NOT_RUNNABLE && Target(k.envs, k.cur[c], envid, true) == Some(e)
       case _ => false
  }

  lemma ScheduleReady(k: Sys, c: nat, k': Sys, e: nat)
    requires HasCur(k, c) && Scheduled(k, c, k', false) && Ready(k, e)
    ensures Ready(k', e)
  {
    if !NoneRunnable(k.envs) {
      var j: nat :| FirstAfter(k.envs, if k.cur[c] == NONE then 0 else k.cur[c], j) && k' == Switched(k, c, j);
    }
  }

  lemma StepReady(k: Sys, c: nat, cause: Cause, k': Sys, e: nat)
    requires Safe(k) && Taken(k, (c, cause), k', false) && Ready(k, e) && !Harms(k, c, cause, e)
    ensures Ready(k', e)
  {
    hide Scheduled, RunEnvs, Unlocked, NoDup;
    if k.cur[c] == NONE {
      ScheduleReady(Woken(k, c), c, k', e);
    } else if k.envs[k.cur[c]].status == DYING {
      ScheduleReady(Reaped(k, c), c, k', e);
    } else {
      EffectReady(k, c, cause, e);
      var k1 := Effect(k, c, cause).value;
      if !Leaves(k1, c, cause) && k1.envs[k1.cur[c]].status == RUNNING {
        assert Ready(Switched(k1, c, k1.cur[c]), e) by { SwitchReady(k1, c, e); }
      } else {
        ScheduleReady(k1, c, k', e);
      }
    }
  }

  lemma SwitchReady(k: Sys, c: nat, e: nat)
    requires HasCur(k, c) && k.cur[c] != NONE && Ready(k, e)
    ensures Ready(Switched(k, c, k.cur[c]), e)
  {
  }

  lemma EffectReady(k: Sys, c: nat, cause: Cause, e: nat)
    requires Safe(k) && HasCur(k, c) && k.cur[c] != NONE && Ready(k, e) && !Harms(k, c, cause, e)
    requires Effect(k, c, cause).Some?
    ensures Ready(Effect(k, c, cause).value, e)
  {
    if cause.Exofork? && k.free != [] {
      assert k.free[0] in k.free;
    }
  }

  /** In every run an environment that can run goes on to, unless a trap blocks it, stops it
      or destroys it. */
  lemma {:induction false} NobodyIsForgotten(ks: seq<Sys>, steps: seq<(nat, Cause)>, e: nat, n: nat)
    requires Follows(ks, steps, false) && Safe(ks[0]) && n <= |steps| && Ready(ks[0], e)
    requires forall i :: 0 <= i < n ==> !Harms(ks[i], steps[i].0, steps[i].1, e)
    ensures Ready(ks[n], e)
  {
    hide Safe, Ready, Harms, Taken;
    if n == 0 {
    } else {
      NobodyIsForgotten(ks, steps, e, n - 1);
      RunSafe(ks, steps, n - 1);
      assert Taken(ks[n - 1], steps[n - 1], ks[n], false);
      StepReady(ks[n - 1], steps[n - 1].0, steps[n - 1].1, ks[n], e);
    }
  }

  // ---- whose turn it is ----

  /** How many timer interrupts and yields CPU `c` had. */
  function Ticks(steps: seq<(nat, Cause)>, c: nat): nat {
    if steps == [] then 0
    else Ticks(steps[..|steps| - 1], c) + if steps[|steps| - 1] == (c, Tick) then 1 else 0
  }

  /** The trap comes from a running environment, which it does not destroy. */
  ghost predicate Spares(k: Sys, c: nat, cause: Cause) {
    && Running(k, c) && !cause.Fault?
    && (cause.Destroy? ==> Target(k.envs, k.cur[c], cause.envid, true) != Some(k.cur[c]))
  }

  /** A trap that leaves its CPU an environment moves it forward in the circle, never past a
      runnable environment, and a tick really moves it. */
  lemma TickStep(k: Sys, c: nat, cause: Cause, k': Sys, j: nat)
    requires Taken(k, (c, cause), k', false) && Spares(k, c, cause) && j < NENV
    requires k.envs[j].status == RUNNABLE && |k'.envs| == NENV && k'.envs[j].status == RUNNABLE
    ensures |k'.cur| == |k.cur| && 0 <= k'.cur[c] < NENV && Dist(k'.cur[c], j) <= Dist(k.cur[c], j)
    ensures cause.Tick? ==> Dist(k'.cur[c], j) < Dist(k.cur[c], j)
  {
    if cause.Tick? {
      TickSchedules(k, c, k');
      StepCpus(k, c, cause, k');
      assert FirstAfter(k.envs, k.cur[c], k'.cur[c]) && k'.cur[c] != j;
    } else {
      SparedStep(k, c, cause, k', j);
    }
  }

  lemma SparedStep(k: Sys, c: nat, cause: Cause, k': Sys, j: nat)
    requires Taken(k, (c, cause), k', false) && Spares(k, c, cause) && j < NENV
    requires k.envs[j].status == RUNNABLE && |k'.envs| == NENV && k'.envs[j].status == RUNNABLE
    ensures |k'.cur| == |k.cur| && 0 <= k'.cur[c] < NENV && Dist(k'.cur[c], j) <= Dist(k.cur[c], j)
  {
    var k1 := Effect(k, c, cause).value;
    if Yields(k, c, cause) {
      YieldStep(k, c, cause, k', j);
    } else {
      assert k1.cur[c] == k.cur[c];
    }
  }

  /** While `j` stays runnable, a CPU has fewer ticks than its circular distance to `j`. */
  lemma {:induction false} TicksAreFew(ks: seq<Sys>, steps: seq<(nat, Cause)>, c: nat, j: nat)
    requires Follows(ks, steps, false) && j < NENV
    requires SizesOk(ks[0]) && c < |ks[0].cur| && 0 <= ks[0].cur[c] < NENV
    requires forall i :: 0 <= i < |ks| ==> |ks[i].envs| == NENV && ks[i].envs[j].status == RUNNABLE
    requires forall i :: 0 <= i < |steps| && steps[i].0 == c ==> Spares(ks[i], c, steps[i].1)
    ensures var k' := ks[|steps|];
            c < |k'.cur| && 0 <= k'.cur[c] < NENV && Ticks(steps, c) + Dist(k'.cur[c], j) <= Dist(ks[0].cur[c], j)
    decreases |steps|
  {
    hide Spares;
    var n := |steps| - 1;
    if steps == [] {
    } else {
      FollowsLess(ks, steps, n);
      TicksAreFew(ks[..n + 1], steps[..n], c, j);
      var k, k' := ks[n], ks[n + 1];
      var (d, cause) := steps[n];
      assert Taken(k, steps[n], k', false);
      if d == c {
        TickStep(k, c, cause, k', j);
      } else {
        StepCpus(k, d, cause, k');
      }
    }
  }

  /** Round robin: an environment that can run, and that nothing blocks, stops or destroys,
      has been picked by some CPU by the time one CPU had as many ticks as its circular
      distance to it. */
  lemma TurnComes(ks: seq<Sys>, steps: seq<(nat, Cause)>, c: nat, j: nat) returns (i: nat)
    requires Follows(ks, steps, false) && Safe(ks[0]) && j < NENV && c < |ks[0].cur| && 0 <= ks[0].cur[c] < NENV
    requires |ks[0].envs| == NENV && ks[0].envs[j].status == RUNNABLE
    requires forall i :: 0 <= i < |steps| ==> !Harms(ks[i], steps[i].0, steps[i].1, j)
    requires forall i :: 0 <= i < |steps| && steps[i].0 == c ==> Spares(ks[i], c, steps[i].1)
    requires Ticks(steps, c) >= Dist(ks[0].cur[c], j)
    ensures i <= |steps| && |ks[i].envs| == NENV && ks[i].envs[j].status == RUNNING && j in ks[i].cur
  {
    hide Taken, Harms, Spares, Unlocked, NoDup;
    if i' :| 0 <= i' <= |steps| && |ks[i'].envs| == NENV && ks[i'].envs[j].status == RUNNING {
      i := i';
      RunSafe(ks, steps, i);
      RunsOnCpu(ks[i], j);
    } else {
      forall i' | 0 <= i' < |ks| ensures |ks[i'].envs| == NENV && ks[i'].envs[j].status == RUNNABLE {
        NobodyIsForgotten(ks, steps, j, i');
        RunSafe(ks, steps, i');
        SafeSizes(ks[i']);
      }
      SafeSizes(ks[0]);
      TicksAreFew(ks, steps, c, j);
      assert false;
    }
  }

  lemma RunsOnCpu(k: Sys, e: nat)
    requires Safe(k) && e < NENV && |k.envs| == NENV && k.envs[e].status == RUNNING
    ensures e in k.cur
  {
  }

  lemma SafeSizes(k: Sys)
    requires Safe(k)
    ensures SizesOk(k)
  {
  }
}
