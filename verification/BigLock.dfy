/** The big kernel lock (lab/kern/spinlock.c) as a state machine whose steps are the single
    atomic exchanges and stores of spin_lock and spin_unlock and every store to the kernel's
    data, on any number of CPUs in any interleaving. It makes each trap one atomic step. */
module BigLock {
  import opened Basics
  import opened EnvTable
  import opened Traps
  import opened TrapRuns

  /** Where a CPU is: outside, spinning, past the winning exchange, in the critical
      section, past clearing the holder, or panicked. */
  datatype Pc = Out | Spin | Won | In | Drop | Dead

  /** `data` is the kernel's data as it stands in memory, `found` what each CPU saw of it
      when it last entered the critical section. `ks` and `steps` record the data and the
      trap at each release so far. */
  datatype State = State(
    locked: nat, holder: int, pc: seq<Pc>, data: Sys, found: seq<Sys>, ks: seq<Sys>, steps: seq<(nat, Cause)>)

  datatype Act =
    | Acquire                                  // the holding() test of spin_lock
    | Xchg                                     // xchg(&lk->locked, 1)
    | Record                                   // lk->cpu = thiscpu
    | Work(data: Sys)                          // any store to the kernel's data
    | Release(cause: Cause)                    // the holding() test, then lk->cpu = 0
    | Unlock                                   // xchg(&lk->locked, 0)

  predicate Holding(s: State, c: nat) {
    s.locked != 0 && s.holder == c
  }

  ghost function Latest(s: State): Sys
    requires s.ks != []
  {
    s.ks[|s.ks| - 1]
  }

  /** A CPU knows only what it found when it entered: by the time it releases the lock, the
      data must be one trap away from that, whatever others stored in between. */
  ghost predicate Enabled(s: State, c: nat, a: Act) {
    && c < |s.pc| == |s.found|
    && match a
       case Acquire => s.pc[c] == Out
       case Xchg => s.pc[c] == Spin
       case Record => s.pc[c] == Won
       case Work(_) => s.pc[c] == In
       case Release(cause) => s.pc[c] == In && Taken(s.found[c], (c, cause), s.data, false)
       case Unlock => s.pc[c] == Drop
  }

  ghost function Step(s: State, c: nat, a: Act): State
    requires Enabled(s, c, a)
  {
    match a
    case Acquire => s.(pc := s.pc[c := if Holding(s, c) then Dead else Spin])
    case Xchg => s.(locked := 1, pc := s.pc[c := if s.locked == 0 then Won else Spin])
    case Record => s.(holder := c, pc := s.pc[c := In], found := s.found[c := s.data])
    case Work(data) => s.(data := data)
    case Release(cause) =>
      if Holding(s, c)
      then s.(holder := NONE, pc := s.pc[c := Drop], ks := s.ks + [s.data], steps := s.steps + [(c, cause)])
      else s.(pc := s.pc[c := Dead])
    case Unlock => s.(locked := 0, pc := s.pc[c := Out])
  }

  /** A CPU between its winning exchange and its releasing exchange. */
  predicate Owns(s: State, c: int)
    requires 0 <= c < |s.pc|
  {
    s.pc[c] == Won || s.pc[c] == In || s.pc[c] == Drop
  }

  ghost predicate Mutex(s: State) {
    forall c, d :: 0 <= c < |s.pc| && 0 <= d < |s.pc| && Owns(s, c) && Owns(s, d) ==> c == d
  }

  ghost predicate LockOk(s: State) {
    && Mutex(s)
    && s.locked <= 1
    && (s.locked != 0 <==> exists c :: 0 <= c < |s.pc| && Owns(s, c))
    && (forall c :: 0 <= c < |s.pc| ==> s.pc[c] != Dead)
    && (forall c :: 0 <= c < |s.pc| ==> (s.pc[c] == In <==> s.holder == c))
  }

  /** The releases so far are a run of traps, and the data is as the latest of them left it:
      now, unless a CPU is in the critical section, and otherwise when that CPU entered. */
  ghost predicate DataOk(s: State) {
    && |s.found| == |s.pc| && Follows(s.ks, s.steps, false) && Safe(s.ks[0])
    && (forall c :: 0 <= c < |s.pc| && s.pc[c] == In ==> s.found[c] == Latest(s))
    && ((forall c :: 0 <= c < |s.pc| ==> s.pc[c] != In) ==> s.data == Latest(s))
  }

  predicate Initial(s: State) {
    && s.locked == 0 && s.holder == NONE && (forall c :: 0 <= c < |s.pc| ==> s.pc[c] == Out)
    && |s.found| == |s.pc| && s.ks == [s.data] && s.steps == []
  }

  ghost predicate Reaches(s: State, acts: seq<(nat, Act)>, s': State)
    decreases |acts|
  {
    if acts == [] then s' == s
    else Enabled(s, acts[0].0, acts[0].1) && Reaches(Step(s, acts[0].0, acts[0].1), acts[1..], s')
  }

  lemma StepLock(s: State, c: nat, a: Act)
    requires LockOk(s) && Enabled(s, c, a)
    ensures LockOk(Step(s, c, a))
  {
    hide Taken;
    var s' := Step(s, c, a);
    assert Owns(s, c) ==> s.locked != 0;
    assert s.pc[c] == In <==> s.holder == c;
    assert s'.pc[c] != Dead;
    forall d | 0 <= d < |s.pc| && d != c
      ensures Owns(s', d) == Owns(s, d) && s'.pc[d] == s.pc[d]
      ensures Owns(s, c) ==> !Owns(s, d)
      ensures s.locked == 0 ==> !Owns(s, d)
    {
    }
    if Owns(s', c) {
    } else if s'.locked != 0 {
      var d :| 0 <= d < |s.pc| && Owns(s, d);
      assert d != c && Owns(s', d);
    }
  }

  lemma StepData(s: State, c: nat, a: Act)
    requires LockOk(s) && DataOk(s) && Enabled(s, c, a)
    ensures DataOk(Step(s, c, a))
    ensures s.ks <= Step(s, c, a).ks && s.steps <= Step(s, c, a).steps
  {
    hide Taken, Safe;
    var s' := Step(s, c, a);
    match a {
      case Work(_) => assert s'.pc[c] == In;
      case Release(cause) =>
        assert Owns(s, c);
        var steps := s.steps + [(c, cause)];
        assert steps[..|s.steps|] == s.steps && steps[..|s.steps| + 1] == steps;
        FollowsMore(s.ks, steps, |s.steps|, s.data, false);
      case Record => assert s.data == Latest(s) by { NobodyIn(s, c); }
      case Acquire => SameIn(s, s', c);
      case Xchg => SameIn(s, s', c);
      case Unlock => SameIn(s, s', c);
    }
  }

  lemma NobodyIn(s: State, c: nat)
    requires LockOk(s) && c < |s.pc| && s.pc[c] == Won
    ensures forall d :: 0 <= d < |s.pc| ==> s.pc[d] != In
  {
    assert Owns(s, c);
    forall d | 0 <= d < |s.pc| ensures s.pc[d] != In {
      assert s.pc[d] == In ==> Owns(s, d);
    }
  }

  lemma SameIn(s: State, s': State, c: nat)
    requires c < |s.pc| == |s'.pc| && s.pc[c] != In && s'.pc == s.pc[c := s'.pc[c]]
    ensures (forall d :: 0 <= d < |s'.pc| ==> s'.pc[d] != In) ==> forall d :: 0 <= d < |s.pc| ==> s.pc[d] != In
  {
    forall d | 0 <= d < |s.pc| && d != c ensures s'.pc[d] == s.pc[d] {
    }
  }

  /** In every interleaving: at most one CPU owns the lock and neither debugging check ever
      panics; the releases are a run of atomic traps that only grows; and whenever the lock
      is free the data is the last state of that run, and safe. */
  lemma {:induction false} TrapsAreAtomic(s: State, acts: seq<(nat, Act)>, s': State)
    requires LockOk(s) && DataOk(s) && Reaches(s, acts, s')
    ensures LockOk(s') && DataOk(s') && s.ks <= s'.ks && s.steps <= s'.steps
    ensures s'.locked == 0 ==> s'.data == Latest(s') && Safe(s'.data)
    decreases |acts|
  {
    if acts == [] {
      RunSafe(s.ks, s.steps, |s.steps|);
      forall c | 0 <= c < |s.pc| ensures s.locked == 0 ==> s.pc[c] != In {
        assert s.pc[c] == In ==> Owns(s, c);
      }
    } else {
      var (c, a) := acts[0];
      StepLock(s, c, a);
      StepData(s, c, a);
      TrapsAreAtomic(Step(s, c, a), acts[1..], s');
    }
  }

  lemma InitialIsSafe(s: State)
    requires Initial(s) && Safe(s.data)
    ensures LockOk(s) && DataOk(s)
  {
  }

  // ---- the lock is taken and given back ----

  /** A CPU that wants the free lock has it after three steps, and sees the data as it is. */
  lemma FreeLockIsTaken(s: State, c: nat)
    requires LockOk(s) && s.locked == 0 && c < |s.pc| == |s.found| && s.pc[c] == Out
    ensures Reaches(s, [(c, Acquire), (c, Xchg), (c, Record)],
                    s.(locked := 1, holder := c, pc := s.pc[c := In], found := s.found[c := s.data]))
  {
    hide Taken;
    var s1 := Step(s, c, Acquire);
    var s2 := Step(s1, c, Xchg);
    var s3 := Step(s2, c, Record);
    assert s1.pc[c] == Spin && s2.pc[c] == Won;
    assert s3 == s.(locked := 1, holder := c, pc := s.pc[c := In], found := s.found[c := s.data]);
    var acts: seq<(nat, Act)> := [(c, Acquire), (c, Xchg), (c, Record)];
    Prepend(s2, acts, 2, s3);
    Prepend(s1, acts, 1, s3);
    Prepend(s, acts, 0, s3);
    assert acts[0..] == acts;
  }

  lemma Prepend(s: State, acts: seq<(nat, Act)>, i: nat, s': State)
    requires i < |acts| && Enabled(s, acts[i].0, acts[i].1)
    requires Reaches(Step(s, acts[i].0, acts[i].1), acts[i + 1..], s')
    ensures Reaches(s, acts[i..], s')
  {
    hide Taken;
    assert acts[i..][1..] == acts[i + 1..];
  }

  /** While another CPU has it, trying changes nothing. */
  lemma HeldLockIsNotTaken(s: State, c: nat)
    requires LockOk(s) && s.locked != 0 && c < |s.pc| == |s.found| && s.pc[c] == Spin
    ensures Step(s, c, Xchg) == s
  {
    assert s.pc == s.pc[c := Spin];
  }

  /** A CPU that has finished its trap gives the lock back in two steps, and the trap is on
      record. */
  lemma LockIsReleased(s: State, c: nat, cause: Cause)
    requires LockOk(s) && Enabled(s, c, Release(cause))
    ensures Reaches(s, [(c, Release(cause)), (c, Unlock)],
                    s.(locked := 0, holder := NONE, pc := s.pc[c := Out], ks := s.ks + [s.data], steps := s.steps + [(c, cause)]))
  {
    hide Taken;
    assert Owns(s, c) && Holding(s, c);
    var s1 := Step(s, c, Release(cause));
    var s2 := Step(s1, c, Unlock);
    assert s2 == s.(locked := 0, holder := NONE, pc := s.pc[c := Out], ks := s.ks + [s.data], steps := s.steps + [(c, cause)]);
    var acts: seq<(nat, Act)> := [(c, Release(cause)), (c, Unlock)];
    Prepend(s1, acts, 1, s2);
    Prepend(s, acts, 0, s2);
    assert acts[0..] == acts;
  }
}
