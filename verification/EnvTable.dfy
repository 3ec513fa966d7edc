/** The environment table, the processors and the invariant between them
    (lab/kern/env.c, lab/kern/sched.c, lab/kern/trap.c), as snapshot values. */
module EnvTable {
  import opened Basics
  import opened FreeList
  import opened Paging

  datatype Status = FREE | DYING | RUNNABLE | RUNNING | NOT_RUNNABLE

  /** One struct Env. `space` is the user address space as a flat map. */
  datatype Env = Env(
    status: Status, id: int, parent: int, runs: nat, space: map<int, Entry>,
    recving: bool, dstva: nat, value: nat, from: int, perm: Bits)

  /** What happened to environments in the order it happened. */
  datatype Event =
    | Born(e: int)
    | Blocked(e: int, dstva: nat)
    | Delivered(e: int, from: int, value: nat, perm: Bits)

  /** The kernel's shared state: environments, each CPU's current environment and halt
      flag, the env free list, how often each slot was allocated, and the history. */
  datatype Sys = Sys(
    envs: seq<Env>, cur: seq<int>, halted: seq<bool>,
    free: seq<int>, allocs: seq<nat>, trace: seq<Event>)

  // ---- environment ids ----

  const GENSTEP: int := 4096                   // 1 << ENVGENSHIFT
  const GENS: int := 0x7FFFF                   // 2^19 - 1 generations before ids repeat

  function Wrap32(x: int): int {
    var y := x % 0x1_0000_0000;
    if y < 0x8000_0000 then y else y - 0x1_0000_0000
  }

  /** The id env_alloc gives slot `slot` whose last id was `id`, in int32_t arithmetic. */
  function NextId(id: int, slot: nat): int {
    var sum := Wrap32(id + GENSTEP);
    var generation := sum - sum % NENV;        // sum & ~(NENV - 1)
    (if generation <= 0 then GENSTEP else generation) + slot
  }

  /** The id of a slot after `n` allocations. */
  function IdAfter(slot: nat, n: nat): int {
    if n == 0 then 0 else NextId(IdAfter(slot, n - 1), slot)
  }

  lemma NextIdIs(g: int, slot: nat)
    requires slot < NENV && 1 <= g <= GENS
    ensures NextId(GENSTEP * g + slot, slot) == GENSTEP * (if g == GENS then 1 else g + 1) + slot
  {
    var x := GENSTEP * (g + 1) + slot;
    if g == GENS {
      assert Wrap32(x) == slot - 0x8000_0000 by { assert x == 0x8000_0000 + slot; }
      SlotOf(-0x20_0000, slot);
    } else {
      assert Wrap32(x) == x;
      SlotOf(4 * (g + 1), slot);
    }
  }

  lemma SlotOf(q: int, slot: nat)
    requires slot < NENV
    ensures (NENV * q + slot) % NENV == slot
  {
  }

  /** Ids count through the generations 1 .. 2^19-1 and start over. */
  lemma {:induction false} IdAfterIs(slot: nat, n: nat)
    requires slot < NENV && n > 0
    ensures IdAfter(slot, n) == GENSTEP * (1 + (n - 1) % GENS) + slot
  {
    if n == 1 {
      assert NextId(0, slot) == GENSTEP + slot;
    } else {
      IdAfterIs(slot, n - 1);
      NextIdIs(1 + (n - 2) % GENS, slot);
      ModStep(n - 2);
    }
  }

  lemma ModStep(x: nat)
    ensures (x + 1) % GENS == if x % GENS == GENS - 1 then 0 else x % GENS + 1
  {
  }

  /** Ids of live environments are positive and carry their slot number. */
  lemma IdBounds(slot: nat, n: nat)
    requires slot < NENV && n > 0
    ensures 0 < IdAfter(slot, n) < 0x8000_0000 && IdAfter(slot, n) % NENV == slot
  {
    hide IdAfter;
    IdAfterIs(slot, n);
    SlotOf(4 * (1 + (n - 1) % GENS), slot);
  }

  /** An id does not come back to its slot before the slot has been allocated 2^19-1
      more times. */
  lemma IdsDistinct(slot: nat, n: nat, m: nat)
    requires slot < NENV && 0 < n < m < n + GENS
    ensures IdAfter(slot, n) != IdAfter(slot, m)
  {
    hide IdAfter;
    IdAfterIs(slot, n);
    IdAfterIs(slot, m);
    ModDistinct(n - 1, m - 1);
  }

  lemma ModDistinct(a: nat, b: nat)
    requires a < b < a + GENS
    ensures a % GENS != b % GENS
  {
    var p, q := a / GENS, b / GENS;
    assert a == GENS * p + a % GENS && b == GENS * q + b % GENS;
    assert b - a == GENS * (q - p) + (b % GENS - a % GENS);
    assert q - p <= 0 || q - p >= 1;
  }

  /** The bound is exact: after 2^19-1 more allocations the same id is back. */
  lemma IdsRepeat(slot: nat, n: nat)
    requires slot < NENV && n > 0
    ensures IdAfter(slot, n + GENS) == IdAfter(slot, n)
  {
    IdAfterIs(slot, n);
    IdAfterIs(slot, n + GENS);
    assert (n - 1 + GENS) % GENS == (n - 1) % GENS;
  }

  // ---- the invariant ----

  predicate Busy(s: Status) {
    s == RUNNING || s == DYING
  }

  ghost predicate SizesOk(k: Sys) {
    |k.envs| == NENV && |k.allocs| == NENV && |k.halted| == |k.cur|
  }

  /** A CPU's current environment as other CPUs may find it when the lock is free. */
  ghost predicate CpuOk(k: Sys, c: int)
    requires SizesOk(k) && 0 <= c < |k.cur|
  {
    && (k.cur[c] == NONE || (0 <= k.cur[c] < NENV && Busy(k.envs[k.cur[c]].status)))
    && (k.halted[c] ==> k.cur[c] == NONE)
  }

  /** A CPU inside the kernel: its current environment exists, in whatever state. */
  ghost predicate CpuInside(k: Sys, c: int)
    requires SizesOk(k) && 0 <= c < |k.cur|
  {
    && (k.cur[c] == NONE || (0 <= k.cur[c] < NENV && k.envs[k.cur[c]].status != FREE
                             && k.envs[k.cur[c]].status != DYING))
    && !k.halted[c]
  }

  ghost predicate CursDistinct(k: Sys) {
    forall c, d :: 0 <= c < d < |k.cur| && k.cur[c] != NONE ==> k.cur[c] != k.cur[d]
  }

  /** Every running or dying environment is current on some CPU. */
  ghost predicate BusyIsCurrent(k: Sys)
    requires SizesOk(k)
  {
    forall e :: 0 <= e < NENV && Busy(k.envs[e].status) ==> e in k.cur
  }

  ghost predicate FreeEnvsOk(k: Sys)
    requires SizesOk(k)
  {
    forall e :: e in k.free <==> 0 <= e < NENV && k.envs[e].status == FREE
  }

  ghost predicate IdsOk(k: Sys)
    requires SizesOk(k)
  {
    forall e :: 0 <= e < NENV ==>
      k.envs[e].id == IdAfter(e, k.allocs[e]) && (k.envs[e].status != FREE ==> k.allocs[e] > 0)
  }

  ghost predicate Common(k: Sys) {
    SizesOk(k) && CursDistinct(k) && BusyIsCurrent(k) && FreeEnvsOk(k) && IdsOk(k) && IpcOk(k)
  }

  /** The invariant whenever the big kernel lock is free. */
  ghost predicate Unlocked(k: Sys) {
    Common(k) && forall c :: 0 <= c < |k.cur| ==> CpuOk(k, c)
  }

  /** The invariant while CPU `c` holds the lock. */
  ghost predicate LockedBy(k: Sys, c: int) {
    && Common(k) && 0 <= c < |k.cur| && CpuInside(k, c)
    && forall d :: 0 <= d < |k.cur| && d != c ==> CpuOk(k, d)
  }

  /** Running means running on one CPU: an environment is running, or dying, exactly
      when some CPU has it as its current one, and then no other CPU has. */
  lemma ExactlyOneCpu(k: Sys, e: nat)
    requires Unlocked(k) && e < NENV
    ensures Busy(k.envs[e].status) <==> exists c :: 0 <= c < |k.cur| && k.cur[c] == e
    ensures forall c, d :: 0 <= c < |k.cur| && 0 <= d < |k.cur| && k.cur[c] == e && k.cur[d] == e ==> c == d
  {
    if c :| 0 <= c < |k.cur| && k.cur[c] == e {
      assert CpuOk(k, c);
    }
  }

  // ---- message passing ----

  /** The last thing that happened to slot `e`. */
  function Last(trace: seq<Event>, e: int): Option<Event> {
    if trace == [] then None
    else if trace[|trace| - 1].e == e then Some(trace[|trace| - 1])
    else Last(trace[..|trace| - 1], e)
  }

  lemma LastStep(trace: seq<Event>, x: Event)
    ensures forall e :: Last(trace + [x], e) == if e == x.e then Some(x) else Last(trace, e)
  {
    assert (trace + [x])[..|trace|] == trace;
  }

  /** A message is delivered only to a blocked receiver, and a receiver blocks only when
      its previous receive is over. */
  ghost predicate Rendezvous(trace: seq<Event>) {
    forall k :: 0 <= k < |trace| ==>
      match trace[k]
      case Born(_) => true
      case Blocked(e, _) => Last(trace[..k], e).Some? && !Last(trace[..k], e).value.Blocked?
      case Delivered(e, _, _, _) => Last(trace[..k], e).Some? && Last(trace[..k], e).value.Blocked?
  }

  /** What a live environment's IPC fields say about its history. */
  ghost predicate IpcFields(x: Env, last: Option<Event>) {
    && last.Some?
    && x.recving == last.value.Blocked?
    && (x.recving ==> x.status == NOT_RUNNABLE && x.dstva == last.value.dstva)
    && (last.value.Delivered? ==>
          x.from == last.value.from && x.value == last.value.value && x.perm == last.value.perm)
  }

  ghost predicate IpcOk(k: Sys)
    requires SizesOk(k)
  {
    && Rendezvous(k.trace)
    && (forall e :: 0 <= e < NENV && k.envs[e].status != FREE ==> IpcFields(k.envs[e], Last(k.trace, e)))
  }

  lemma RendezvousStep(trace: seq<Event>, x: Event)
    requires Rendezvous(trace)
    requires x.Blocked? ==> Last(trace, x.e).Some? && !Last(trace, x.e).value.Blocked?
    requires x.Delivered? ==> Last(trace, x.e).Some? && Last(trace, x.e).value.Blocked?
    ensures Rendezvous(trace + [x])
  {
    var t' := trace + [x];
    forall k | 0 <= k < |t'| ensures t'[..k] == if k < |trace| then trace[..k] else trace {
    }
  }

  /** The position of the last event of `e` before `j`, given one at `i`. */
  lemma {:induction false} LastIndex(trace: seq<Event>, e: int, i: nat, j: nat) returns (k: nat)
    requires i < j <= |trace| && trace[i].e == e
    ensures i <= k < j && trace[k].e == e && Last(trace[..j], e) == Some(trace[k])
    ensures forall l :: k < l < j ==> trace[l].e != e
  {
    if trace[j - 1].e == e {
      k := j - 1;
    } else {
      assert trace[..j][..j - 1] == trace[..j - 1];
      k := LastIndex(trace, e, i, j - 1);
    }
  }
}
