/** Laws of message passing over kernel runs (lab/kern/syscall.c): which send a message came
    from, what it brought, and how sends and receives pair up. */
module IpcLaws {
  import opened Basics
  import opened Paging
  import opened EnvTable
  import opened EnvSteps
  import opened Traps
  import opened TrapRuns
  import opened TrapLaws
  import opened TrapEffects

  // ---- one step ----

  /** The trap is a sys_ipc_try_send that finds its receiver waiting and succeeds. */
  ghost predicate Sends(k: Sys, c: nat, cause: Cause) {
    && HasCur(k, c) && k.cur[c] != NONE && k.envs[k.cur[c]].status != DYING && cause.TrySend?
    && SendOutcome(k.envs, k.cur[c], cause.envid, cause.srcva, cause.perm, cause.memOk) == Sent
  }

  ghost function Receiver(k: Sys, c: nat, cause: Cause): nat
    requires Sends(k, c, cause)
  {
    Target(k.envs, k.cur[c], cause.envid, false).value
  }

  /** A page is offered and wanted. */
  ghost predicate WithPage(k: Sys, c: nat, cause: Cause)
    requires Sends(k, c, cause)
  {
    cause.srcva < UTOP && k.envs[Receiver(k, c, cause)].dstva < UTOP
  }

  /** What the receiver has after the step: the sender's id, the value, and at the address it
      waits with the page the sender has at `srcva`. No other mapping of any environment
      changed. */
  ghost predicate Arrived(k: Sys, c: nat, cause: Cause, k': Sys)
    requires Sends(k, c, cause)
  {
    var e, me := Receiver(k, c, cause), k.envs[k.cur[c]];
    var perm := if WithPage(k, c, cause) then cause.perm else {};
    && k'.trace == k.trace + [Delivered(e, me.id, cause.value, perm)]
    && |k'.envs| == NENV && !k'.envs[e].recving
    && k'.envs[e].from == me.id && k'.envs[e].value == cause.value && k'.envs[e].perm == perm
    && (WithPage(k, c, cause) ==>
          && cause.srcva / PGSIZE in me.space
          && k'.envs[e].space ==
             k.envs[e].space[k.envs[e].dstva / PGSIZE := Entry(me.space[cause.srcva / PGSIZE].ppn, cause.perm + {P})])
    && (!WithPage(k, c, cause) ==> k'.envs[e].space == k.envs[e].space)
    && (forall f :: 0 <= f < NENV && f != e ==> k'.envs[f].space == k.envs[f].space)
  }

  lemma SendArrives(k: Sys, c: nat, cause: Cause, k': Sys)
    requires Taken(k, (c, cause), k', false) && Sends(k, c, cause)
    ensures Arrived(k, c, cause, k')
  {
    var k1 := Effect(k, c, cause).value;
    assert k1 == SentTo(k, c, cause.envid, cause.value, cause.srcva, cause.perm);
    if !(!Leaves(k1, c, cause) && k1.envs[k1.cur[c]].status == RUNNING) {
      ScheduleSpaces(k1, c, k');
    }
  }

  /** Scheduling changes statuses and run counts alone. */
  lemma ScheduleSpaces(k: Sys, c: nat, k': Sys)
    requires HasCur(k, c) && Scheduled(k, c, k', false)
    ensures k'.trace == k.trace && |k'.envs| == NENV
    ensures forall e :: 0 <= e < NENV ==>
              k'.envs[e].(status := k.envs[e].status, runs := k.envs[e].runs) == k.envs[e]
  {
    if !NoneRunnable(k.envs) {
      var j: nat :| FirstAfter(k.envs, if k.cur[c] == NONE then 0 else k.cur[c], j) && k' == Switched(k, c, j);
    }
  }

  /** A step adds at most one event, and a delivery exactly when it is a successful send. */
  lemma StepEvents(k: Sys, c: nat, cause: Cause, k': Sys)
    requires Taken(k, (c, cause), k', false)
    ensures k.trace <= k'.trace && |k'.trace| <= |k.trace| + 1
    ensures Sends(k, c, cause) <==> |k'.trace| == |k.trace| + 1 && k'.trace[|k.trace|].Delivered?
  {
    if Sends(k, c, cause) {
      SendArrives(k, c, cause, k');
    } else if k.cur[c] == NONE {
      ScheduleCpus(Woken(k, c), c, k');
    } else if k.envs[k.cur[c]].status == DYING {
      ScheduleCpus(Reaped(k, c), c, k');
    } else {
      var k1 := Effect(k, c, cause).value;
      if !(!Leaves(k1, c, cause) && k1.envs[k1.cur[c]].status == RUNNING) {
        ScheduleCpus(k1, c, k');
      }
    }
  }

  /** Exactly when a send succeeds: the receiver waits, and a page that is offered is aligned,
      with rights a user may give and the sender has, and can be mapped if it is wanted. */
  lemma SendsWhen(k: Sys, c: nat, cause: Cause)
    requires HasCur(k, c) && k.cur[c] != NONE && k.envs[k.cur[c]].status != DYING && cause.TrySend?
    requires SendMapped(k.envs, k.cur, c, cause)
    ensures Sends(k, c, cause) <==>
              var t, me := Target(k.envs, k.cur[c], cause.envid, false), k.envs[k.cur[c]];
              && t.Some? && k.envs[t.value].recving
              && (cause.srcva < UTOP ==>
                    && cause.srcva % PGSIZE == 0 && cause.perm <= {0, 1, 2, 9, 10, 11}
                    && (W in cause.perm ==> W in me.space[cause.srcva / PGSIZE].flags)
                    && (k.envs[t.value].dstva < UTOP ==> cause.memOk))
  {
  }

  /** After a successful send the receiver can run again, and the sender goes on. */
  lemma SendWakes(k: Sys, c: nat, cause: Cause, k': Sys)
    requires Safe(k) && Taken(k, (c, cause), k', false) && Sends(k, c, cause)
    ensures |k'.envs| == NENV && k'.envs[Receiver(k, c, cause)].status == RUNNABLE && k'.cur == k.cur
  {
    CurrentFacts(k, c);
    WaitsFor(k, c, cause);
  }

  /** A send to an environment that does not wait changes nothing. */
  lemma NotWaiting(k: Sys, c: nat, cause: Cause, k': Sys)
    requires Safe(k) && Taken(k, (c, cause), k', false) && HasCur(k, c) && k.cur[c] != NONE
    requires k.envs[k.cur[c]].status != DYING && cause.TrySend? && !Sends(k, c, cause)
    ensures k' == Switched(k, c, k.cur[c])
  {
    CurrentFacts(k, c);
  }

  /** The trap is a sys_ipc_recv with an address it accepts. */
  ghost predicate Receives(k: Sys, c: nat, cause: Cause) {
    && HasCur(k, c) && k.cur[c] != NONE && k.envs[k.cur[c]].status != DYING && cause.Recv?
    && (cause.dstva < UTOP ==> cause.dstva % PGSIZE == 0)
  }

  /** A step adds a receive to the history exactly when it is one, by that environment and
      for that address. */
  lemma StepReceives(k: Sys, c: nat, cause: Cause, k': Sys)
    requires Safe(k) && Taken(k, (c, cause), k', false)
    ensures Receives(k, c, cause) <==> |k'.trace| == |k.trace| + 1 && k'.trace[|k.trace|].Blocked?
    ensures Receives(k, c, cause) ==> k'.trace == k.trace + [Blocked(k.cur[c], cause.dstva)]
  {
    CurrentFacts(k, c);
    if Receives(k, c, cause) {
      RecvWaits(k, c, cause.dstva, k');
    } else if k.cur[c] == NONE {
      ScheduleCpus(Woken(k, c), c, k');
    } else if k.envs[k.cur[c]].status == DYING {
      ScheduleCpus(Reaped(k, c), c, k');
    } else {
      var k1 := Effect(k, c, cause).value;
      if !(!Leaves(k1, c, cause) && k1.envs[k1.cur[c]].status == RUNNING) {
        ScheduleCpus(k1, c, k');
      }
    }
  }

  // ---- runs ----

  /** The step that added event `i` of the history. */
  lemma {:induction false} StepOfEvent(ks: seq<Sys>, steps: seq<(nat, Cause)>, n: nat, i: nat) returns (m: nat)
    requires Follows(ks, steps, false) && n <= |steps| && |ks[0].trace| <= i < |ks[n].trace|
    ensures m < n && |ks[m].trace| == i && |ks[m + 1].trace| == i + 1
    ensures ks[m + 1].trace[i] == ks[n].trace[i]
  {
    hide Taken, Sends;
    var (c, cause) := steps[n - 1];
    assert Taken(ks[n - 1], steps[n - 1], ks[n], false);
    StepEvents(ks[n - 1], c, cause, ks[n]);
    if i >= |ks[n - 1].trace| {
      m := n - 1;
    } else {
      m := StepOfEvent(ks, steps, n - 1, i);
    }
  }

  lemma {:induction false} LastAt(trace: seq<Event>, e: int) returns (b: nat)
    requires Last(trace, e).Some?
    ensures b < |trace| && trace[b].e == e && Last(trace, e) == Some(trace[b])
    ensures forall l :: b < l < |trace| ==> trace[l].e != e
  {
    if trace[|trace| - 1].e == e {
      b := |trace| - 1;
    } else {
      b := LastAt(trace[..|trace| - 1], e);
    }
  }

  /** In every run each delivery `i` in the history is the work of exactly one step `m`: a
      send, by the environment and with the value the event names. It answers one receive
      `b`, the last thing the receiver did, and the page offered is then mapped at the
      address that receive named. */
  lemma DeliveryIsOneSend(ks: seq<Sys>, steps: seq<(nat, Cause)>, i: nat) returns (m: nat, b: nat)
    requires Follows(ks, steps, false) && Safe(ks[0])
    requires |ks[0].trace| <= i < |ks[|steps|].trace| && ks[|steps|].trace[i].Delivered?
    ensures m < |steps| && Sends(ks[m], steps[m].0, steps[m].1) && |ks[m].trace| == i
    ensures forall m' :: 0 <= m' < |steps| && Sends(ks[m'], steps[m'].0, steps[m'].1) && |ks[m'].trace| == i ==> m' == m
    ensures Arrived(ks[m], steps[m].0, steps[m].1, ks[m + 1])
    ensures ks[|steps|].trace[i] == ks[m + 1].trace[i]
    ensures var e, trace := Receiver(ks[m], steps[m].0, steps[m].1), ks[|steps|].trace;
            && b < i && trace[b].Blocked? && trace[b].e == e && trace[b].dstva == ks[m].envs[e].dstva
            && forall l :: b < l < i ==> trace[l].e != e
  {
    hide Safe, Sends, Arrived, Taken;
    m := StepOfEvent(ks, steps, |steps|, i);
    var (c, cause) := steps[m];
    assert Taken(ks[m], steps[m], ks[m + 1], false);
    StepEvents(ks[m], c, cause, ks[m + 1]);
    SendArrives(ks[m], c, cause, ks[m + 1]);
    RunSafe(ks, steps, m);
    WaitsFor(ks[m], c, cause);
    b := LastAt(ks[m].trace, Receiver(ks[m], c, cause));
    RunGrows(ks, steps, m, |steps|);
    forall m' | 0 <= m' < |steps| && Sends(ks[m'], steps[m'].0, steps[m'].1) && |ks[m'].trace| == i ensures m' == m {
      OneStepEach(ks, steps, m, m');
    }
  }

  /** In every run each receive `b` in the history is the work of exactly one step `r`: a
      sys_ipc_recv of that environment for that address. */
  lemma ReceiveIsOneCall(ks: seq<Sys>, steps: seq<(nat, Cause)>, b: nat) returns (r: nat)
    requires Follows(ks, steps, false) && Safe(ks[0])
    requires |ks[0].trace| <= b < |ks[|steps|].trace| && ks[|steps|].trace[b].Blocked?
    ensures r < |steps| && Receives(ks[r], steps[r].0, steps[r].1) && |ks[r].trace| == b
    ensures forall r' :: 0 <= r' < |steps| && Receives(ks[r'], steps[r'].0, steps[r'].1) && |ks[r'].trace| == b ==> r' == r
    ensures ks[|steps|].trace[b] == Blocked(ks[r].cur[steps[r].0], steps[r].1.dstva)
  {
    hide Safe, Receives, Taken;
    r := StepOfEvent(ks, steps, |steps|, b);
    assert Taken(ks[r], steps[r], ks[r + 1], false);
    RunSafe(ks, steps, r);
    StepReceives(ks[r], steps[r].0, steps[r].1, ks[r + 1]);
    forall r' | 0 <= r' < |steps| && Receives(ks[r'], steps[r'].0, steps[r'].1) && |ks[r'].trace| == b ensures r' == r {
      assert Taken(ks[r'], steps[r'], ks[r' + 1], false);
      RunSafe(ks, steps, r');
      StepReceives(ks[r'], steps[r'].0, steps[r'].1, ks[r' + 1]);
      SameGrowth(ks, steps, r, r');
    }
  }

  /** Two steps that each add an event to a history of one length are one step. */
  lemma SameGrowth(ks: seq<Sys>, steps: seq<(nat, Cause)>, m: nat, m': nat)
    requires Follows(ks, steps, false) && m < |steps| && m' < |steps| && |ks[m].trace| == |ks[m'].trace|
    requires |ks[m + 1].trace| > |ks[m].trace| && |ks[m' + 1].trace| > |ks[m'].trace|
    ensures m == m'
  {
    hide Taken;
    if m < m' {
      RunGrows(ks, steps, m + 1, m');
    } else if m' < m {
      RunGrows(ks, steps, m' + 1, m);
    }
  }

  /** From system call to system call: in every run from boot each message that arrives was
      sent by one sys_ipc_try_send and asked for by an earlier sys_ipc_recv of the receiver.
      The page offered is mapped at the very address that call named, with the rights
      given, of which writing is one only if the sender had it. */
  lemma MessageArrives(ks: seq<Sys>, steps: seq<(nat, Cause)>, i: nat) returns (r: nat, m: nat)
    requires Follows(ks, steps, false) && Safe(ks[0]) && ks[0].trace == []
    requires i < |ks[|steps|].trace| && ks[|steps|].trace[i].Delivered?
    ensures r < m < |steps| && steps[r].1.Recv? && steps[m].1.TrySend? && HasCur(ks[r], steps[r].0) && HasCur(ks[m], steps[m].0)
    ensures var event, send, from := ks[|steps|].trace[i], steps[m].1, ks[m].cur[steps[m].0];
            && ks[r].cur[steps[r].0] == event.e && 0 <= event.e < NENV && 0 <= from < NENV && |ks[m + 1].envs| == NENV
            && event.from == ks[m].envs[from].id && event.value == send.value
            && if send.srcva < UTOP && steps[r].1.dstva < UTOP then
                 var space, dv := ks[m].envs[from].space, steps[r].1.dstva / PGSIZE;
                 && event.perm == send.perm && send.srcva / PGSIZE in space && dv in ks[m + 1].envs[event.e].space
                 && ks[m + 1].envs[event.e].space[dv] == Entry(space[send.srcva / PGSIZE].ppn, send.perm + {P})
                 && (W in send.perm ==> W in space[send.srcva / PGSIZE].flags)
               else event.perm == {}
  {
    hide Safe, Taken, Follows;
    var b;
    m, b := DeliveryIsOneSend(ks, steps, i);
    r := ReceiveIsOneCall(ks, steps, b);
    RunGrowsOnly(ks, steps, r, m);
  }

  lemma RunGrowsOnly(ks: seq<Sys>, steps: seq<(nat, Cause)>, r: nat, m: nat)
    requires Follows(ks, steps, false) && r <= |steps| && m <= |steps| && |ks[r].trace| < |ks[m].trace|
    ensures r < m
  {
    hide Taken;
    if m <= r {
      RunGrows(ks, steps, m, r);
    }
  }

  lemma WaitsFor(k: Sys, c: nat, cause: Cause)
    requires Safe(k) && Sends(k, c, cause)
    ensures var e := Receiver(k, c, cause);
            && e < NENV && Last(k.trace, e).Some? && Last(k.trace, e).value.Blocked?
            && Last(k.trace, e).value.dstva == k.envs[e].dstva
  {
    CurrentFacts(k, c);
    var e := Receiver(k, c, cause);
    assert IpcFields(k.envs[e], Last(k.trace, e));
  }

  lemma OneStepEach(ks: seq<Sys>, steps: seq<(nat, Cause)>, m: nat, m': nat)
    requires Follows(ks, steps, false) && m < |steps| && m' < |steps|
    requires Sends(ks[m], steps[m].0, steps[m].1) && Sends(ks[m'], steps[m'].0, steps[m'].1)
    requires |ks[m].trace| == |ks[m'].trace|
    ensures m == m'
  {
    hide Sends, Taken;
    assert Taken(ks[m], steps[m], ks[m + 1], false) && Taken(ks[m'], steps[m'], ks[m' + 1], false);
    StepEvents(ks[m], steps[m].0, steps[m].1, ks[m + 1]);
    StepEvents(ks[m'], steps[m'].0, steps[m'].1, ks[m' + 1]);
    SameGrowth(ks, steps, m, m');
  }

  /** In every state of every run a live environment whose last event is a delivery still has
      that message: sender, value and permissions stay until it receives again or its slot
      is given to a new environment. */
  lemma MessageStays(ks: seq<Sys>, steps: seq<(nat, Cause)>, n: nat, e: nat, i: nat)
    requires Follows(ks, steps, false) && Safe(ks[0]) && n <= |steps| && e < NENV
    requires i < |ks[n].trace| && ks[n].trace[i].Delivered? && ks[n].trace[i].e == e
    requires forall l :: i < l < |ks[n].trace| ==> ks[n].trace[l].e != e
    requires |ks[n].envs| == NENV && ks[n].envs[e].status != FREE
    ensures var x, event := ks[n].envs[e], ks[n].trace[i];
            !x.recving && x.from == event.from && x.value == event.value && x.perm == event.perm
  {
    RunSafe(ks, steps, n);
    assert IpcFields(ks[n].envs[e], Last(ks[n].trace, e));
    var trace := ks[n].trace;
    var l := LastIndex(trace, e, i, |trace|);
    assert trace[..|trace|] == trace;
  }

  /** `j` is where the receive at `i` ends in the history: at the environment's next receive,
      at the birth of another in its slot, or, if there is neither, at the end. */
  ghost predicate Receive(trace: seq<Event>, e: int, i: nat, j: nat) {
    && i < j <= |trace| && trace[i].Blocked? && trace[i].e == e
    && (forall l :: i < l < j && trace[l].e == e ==> trace[l].Delivered?)
    && (j < |trace| ==> trace[j].e == e && !trace[j].Delivered?)
  }

  ghost predicate Answered(trace: seq<Event>, e: int, i: nat, j: nat)
    requires i < j <= |trace|
  {
    exists l :: i < l < j && trace[l].e == e
  }

  /** In every run each receive is answered by at most one delivery. It is answered by exactly
      one if the environment receives again, and so is its latest receive exactly if it is
      not still waiting. */
  lemma RunPairs(ks: seq<Sys>, steps: seq<(nat, Cause)>, e: nat, i: nat, j: nat)
    requires Follows(ks, steps, false) && Safe(ks[0]) && e < NENV && Receive(ks[|steps|].trace, e, i, j)
    ensures var k := ks[|steps|];
            && (forall l, m :: i < l < j && i < m < j && k.trace[l].e == e && k.trace[m].e == e ==> l == m)
            && (j < |k.trace| && k.trace[j].Blocked? ==> Answered(k.trace, e, i, j))
            && |k.envs| == NENV
            && (j == |k.trace| && k.envs[e].status != FREE ==> (Answered(k.trace, e, i, j) <==> !k.envs[e].recving))
  {
    RunSafe(ks, steps, |steps|);
    var k := ks[|steps|];
    AtMostOne(k.trace, e, i, j);
    var b := LastIndex(k.trace, e, i, j);
    if j == |k.trace| {
      assert k.trace[..j] == k.trace;
      assert k.envs[e].status != FREE ==> IpcFields(k.envs[e], Last(k.trace, e));
    }
  }

  lemma AtMostOne(trace: seq<Event>, e: int, i: nat, j: nat)
    requires Rendezvous(trace) && Receive(trace, e, i, j)
    ensures forall l, m :: i < l < j && i < m < j && trace[l].e == e && trace[m].e == e ==> l == m
  {
    forall l, m | i < l < m < j && trace[l].e == e && trace[m].e == e ensures false {
      var b := LastIndex(trace, e, l, m);
    }
  }
}
