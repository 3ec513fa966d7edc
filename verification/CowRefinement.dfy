/** The copy-on-write system refines the eager one: every run of the lazy system is, for
    what programs can observe, a run of the eager system. */
module CowRefinement {
  import opened Basics
  import opened Paging
  import opened CopyOnWrite
  import opened CowSteps

  /** One step of the lazy system is the matching eager step, or none. */
  ghost predicate Simulated(c: Lazy, c': Lazy, a: Eager, x: Option<AOp>) {
    && Frames(c')
    && match x
       case None => Rel(c', a)
       case Some(y) => AEnabled(a, y) && Rel(c', AStep(a, y))
  }

  /** The same observable pages with the same bits and contents. */
  lemma RelStutter(c: Lazy, c': Lazy, a: Eager)
    requires Frames(c) && Frames(c') && Rel(c, a)
    requires forall l :: Plain(c', l) <==> Plain(c, l)
    requires forall l :: Plain(c, l) ==> SameFor(c, c', l)
    ensures Rel(c', a)
  {
    forall l | l in a.pages ensures PageRel(c', a, l) {
      assert PageRel(c, a, l);
      assert Plain(c, l) && SameFor(c, c', l);
    }
  }

  /** Programs cannot tell mapping `l` in `c` from mapping `l` in `c'`. */
  ghost predicate SameFor(c: Lazy, c': Lazy, l: Loc)
    requires Frames(c) && Frames(c') && Plain(c, l) && Plain(c', l)
  {
    var p, q := c.maps[l], c'.maps[l];
    && q.share == p.share && (p.share ==> q == p)
    && (q.w || q.cow <==> p.w || p.cow) && c'.frames[q.frame] == c.frames[p.frame]
  }

  lemma SimStart(c: Lazy, a: Eager, e: int, ch: int)
    requires CowInv(c) && Rel(c, a)
    ensures Simulated(c, StartS(c, e, ch), a, None)
  {
    RelStutter(c, StartS(c, e, ch), a);
  }

  lemma SimSkip(c: Lazy, a: Eager, e: int)
    requires CowInv(c) && Rel(c, a) && e in c.forks
    ensures Simulated(c, SkipS(c, e), a, None)
  {
    RelStutter(c, SkipS(c, e), a);
  }

  lemma SimCopy(c: Lazy, a: Eager, e: int, v: int, f: int)
    requires CowInv(c) && Rel(c, a) && Loc(e, v) in c.maps && Unused(c, f)
    ensures Simulated(c, CopyS(c, e, v, f), a, None)
  {
    RelStutter(c, CopyS(c, e, v, f), a);
  }

  lemma SimRemap(c: Lazy, a: Eager, e: int)
    requires CowInv(c) && Rel(c, a) && e in c.handling
    ensures Loc(e, PFTEMP) in c.maps && Simulated(c, RemapS(c, e), a, None)
  {
    HandlerFacts(c, e);
    RelStutter(c, RemapS(c, e), a);
  }

  lemma SimStore(c: Lazy, a: Eager, e: int, v: int, k: int, x: int)
    requires CowInv(c) && Rel(c, a) && Runs(c, e) && UserPage(v) && Loc(e, v) in c.maps && c.maps[Loc(e, v)].w
    ensures Simulated(c, StoreS(c, e, v, k, x), a, Some(AStore(e, v, k, x)))
  {
    hide Handling, Pending, Halves;
    var c' := StoreS(c, e, v, k, x);
    var l0 := Loc(e, v);
    NotPending(c, l0);
    assert PageRel(c, a, l0);
    var a' := AStep(a, AStore(e, v, k, x));
    forall l ensures l in a'.pages <==> Plain(c', l) { }
    forall l | l in a'.pages ensures PageRel(c', a', l) { assert PageRel(c, a, l); }
  }

  lemma SimAlloc(c: Lazy, a: Eager, e: int, v: int, f: int, w: bool, s: bool)
    requires CowInv(c) && Rel(c, a) && Runs(c, e) && UserPage(v) && Unused(c, f)
    ensures Simulated(c, AllocS(c, e, v, f, w, s), a, Some(AAlloc(e, v, f, w, s)))
  {
    hide Handling, Pending, Halves, Sharing;
    var c' := AllocS(c, e, v, f, w, s);
    var l0 := Loc(e, v);
    NotPending(c, l0);
    FreshCell(c, a, f);
    var a' := AStep(a, AAlloc(e, v, f, w, s));
    forall l ensures l in a'.pages <==> Plain(c', l) { }
    forall l | l in a'.pages ensures PageRel(c', a', l) { assert l != l0 ==> PageRel(c, a, l); }
  }

  lemma FreshCell(c: Lazy, a: Eager, f: int)
    requires Frames(c) && Rel(c, a) && Unused(c, f)
    ensures forall l :: l in a.pages && a.pages[l].Shared? ==> a.pages[l].cell != f
  {
    forall l | l in a.pages && a.pages[l].Shared? ensures a.pages[l].cell != f { assert PageRel(c, a, l); }
  }

  lemma SimDrop(c: Lazy, a: Eager, e: int, v: int)
    requires CowInv(c) && Rel(c, a)
    ensures Simulated(c, DropS(c, e, v), a, Some(ADrop(e, v)))
  {
    hide Handling, Pending, Halves, Sharing;
    var c', a' := DropS(c, e, v), AStep(a, ADrop(e, v));
    forall l ensures l in a'.pages <==> Plain(c', l) { }
    forall l | l in a'.pages ensures PageRel(c', a', l) { assert PageRel(c, a, l); }
  }

  lemma SimExit(c: Lazy, a: Eager, e: int)
    requires CowInv(c) && Rel(c, a)
    ensures Simulated(c, ExitS(c, e), a, Some(AExit(e)))
  {
    hide Handling, Pending, Halves, Sharing;
    var c', a' := ExitS(c, e), AStep(a, AExit(e));
    forall l ensures l in a'.pages <==> Plain(c', l) { }
    forall l | l in a'.pages ensures PageRel(c', a', l) { assert PageRel(c, a, l); }
  }

  lemma SimFinish(c: Lazy, a: Eager, e: int, f: int)
    requires CowInv(c) && Rel(c, a) && e in c.forks && !c.forks[e].half && Unused(c, f)
    ensures Simulated(c, FinishS(c, e, f), a, Some(AAlloc(c.forks[e].child, UXSTACK, f, true, false)))
  {
    hide Handling, Pending, Halves, Sharing;
    var c' := FinishS(c, e, f);
    var l0 := Loc(c.forks[e].child, UXSTACK);
    ForkFacts(c, e);
    var a' := AStep(a, AAlloc(c.forks[e].child, UXSTACK, f, true, false));
    forall l ensures l in a'.pages <==> Plain(c', l) { }
    forall l | l in a'.pages ensures PageRel(c', a', l) { assert l != l0 ==> PageRel(c, a, l); }
  }

  /** The child's page is mapped to the frame that holds the parent's page: the eager
      copy has just been made. */
  lemma SimClone(c: Lazy, c': Lazy, a: Eager, from: Loc, to: Loc)
    requires Frames(c) && Frames(c') && Rel(c, a) && c'.frames == c.frames
    requires Plain(c, from) && Plain(c', from) && from != to && Plain(c', to) && to.vpn == from.vpn
    requires forall l :: l != to ==> (Plain(c', l) <==> Plain(c, l))
    requires forall l :: Plain(c, l) && l != to ==> SameFor(c, c', l)
    requires c'.maps[to].frame == c.maps[from].frame && c'.maps[to].share == c.maps[from].share
    requires if c.maps[from].share then c'.maps[to].w == c.maps[from].w
             else (c'.maps[to].w || c'.maps[to].cow) == (c.maps[from].w || c.maps[from].cow)
    ensures Simulated(c, c', a, Some(ACopy(from.env, to.env, from.vpn)))
  {
    var a' := AStep(a, ACopy(from.env, to.env, from.vpn));
    assert PageRel(c, a, from);
    forall l ensures l in a'.pages <==> Plain(c', l) { }
    forall l | l in a'.pages ensures PageRel(c', a', l) {
      assert l != to ==> PageRel(c, a, l) && SameFor(c, c', l);
    }
  }

  lemma SimDupWhole(c: Lazy, a: Eager, e: int)
    requires CowInv(c) && Rel(c, a) && Runs(c, e) && e in c.forks && !c.forks[e].half
    requires Loc(e, c.forks[e].at) in c.maps && !MakesCow(c.maps[Loc(e, c.forks[e].at)])
    ensures Simulated(c, DupWholeS(c, e), a,
                      if c.forks[e].at == PFTEMP then None else Some(ACopy(e, c.forks[e].child, c.forks[e].at)))
  {
    hide Handling, Pending, Halves, Sharing;
    ForkFacts(c, e);
    var c' := DupWholeS(c, e);
    var from, to := Loc(e, c.forks[e].at), Loc(c.forks[e].child, c.forks[e].at);
    NotPending(c, from);
    if from.vpn == PFTEMP {
      RelStutter(c, c', a);
    } else {
      SimClone(c, c', a, from, to);
    }
  }

  lemma SimDupHalf(c: Lazy, a: Eager, e: int)
    requires CowInv(c) && Rel(c, a) && Runs(c, e) && e in c.forks && !c.forks[e].half
    requires Loc(e, c.forks[e].at) in c.maps && MakesCow(c.maps[Loc(e, c.forks[e].at)])
    ensures Simulated(c, DupHalfS(c, e), a,
                      if c.forks[e].at == PFTEMP || c.maps[Loc(e, c.forks[e].at)].w then None
                      else Some(ACopy(e, c.forks[e].child, c.forks[e].at)))
  {
    hide Handling, Pending, Halves, Sharing;
    ForkFacts(c, e);
    var c' := DupHalfS(c, e);
    var from, to := Loc(e, c.forks[e].at), Loc(c.forks[e].child, c.forks[e].at);
    NotPending(c, from);
    if from.vpn == PFTEMP || c.maps[from].w {
      RelStutter(c, c', a);
    } else {
      SimClone(c, c', a, from, to);
    }
  }

  lemma SimDupSelf(c: Lazy, a: Eager, e: int)
    requires CowInv(c) && Rel(c, a) && Runs(c, e) && e in c.forks && c.forks[e].half
    ensures Loc(e, c.forks[e].at) in c.maps
    ensures Simulated(c, DupSelfS(c, e), a,
                      if Loc(c.forks[e].child, c.forks[e].at) in c.pend
                      then Some(ACopy(e, c.forks[e].child, c.forks[e].at)) else None)
  {
    hide Handling, Pending, Halves, Sharing;
    ForkFacts(c, e);
    var c' := DupSelfS(c, e);
    var l, to := Loc(e, c.forks[e].at), Loc(c.forks[e].child, c.forks[e].at);
    NotPending(c, l);
    NotPending(c, to);
    PendingIsCow(c, to);
    if to in c.pend {
      assert HalfOk(c, e);
      SimClone(c, c', a, l, to);
    } else {
      RelStutter(c, c', a);
    }
  }

  lemma PendingIsCow(c: Lazy, l: Loc)
    requires Pending(c) && FlagsOk(c)
    ensures l in c.pend ==> l in c.maps && c.maps[l].cow && !c.maps[l].share && !c.maps[l].w
  {
  }

  // ---- the theorem ----

  lemma StepInv(c: Lazy, op: Op)
    requires CowInv(c) && Enabled(c, op)
    ensures CowInv(Step(c, op))
  {
    hide CowInv;
    Unfold(c);
    match op {
      case Start(e, ch) => StartInv(c, e, ch);
      case Dup(e) =>
        if Loc(e, c.forks[e].at) !in c.maps {
          SkipInv(c, e);
        } else if MakesCow(c.maps[Loc(e, c.forks[e].at)]) {
          DupHalfInv(c, e);
        } else {
          DupWholeInv(c, e);
        }
      case DupSelf(e) => DupSelfInv(c, e);
      case Finish(e, f) => FinishInv(c, e, f);
      case Store(e, v, k, x) => StoreInv(c, e, v, k, x);
      case Copy(e, v, f) => CopyInv(c, e, v, f);
      case Remap(e) => RemapInv(c, e);
      case Alloc(e, v, f, w, s) => AllocInv(c, e, v, f, w, s);
      case Drop(e, v) => DropInv(c, e, v);
      case Exit(e) => ExitInv(c, e);
    }
  }

  /** Each step of the lazy system keeps the invariant and is the eager step EagerOp
      names, or invisible. */
  lemma StepRefines(c: Lazy, a: Eager, op: Op)
    requires CowInv(c) && Rel(c, a) && Enabled(c, op)
    ensures CowInv(Step(c, op)) && Simulated(c, Step(c, op), a, EagerOp(c, op))
  {
    hide Simulated, CowInv, Rel;
    StepInv(c, op);
    Unfold(c);
    match op {
      case Start(e, ch) => SimStart(c, a, e, ch);
      case Dup(e) =>
        if Loc(e, c.forks[e].at) !in c.maps {
          SimSkip(c, a, e);
        } else if MakesCow(c.maps[Loc(e, c.forks[e].at)]) {
          SimDupHalf(c, a, e);
        } else {
          SimDupWhole(c, a, e);
          WholeBits(c, e);
        }
      case DupSelf(e) => SimDupSelf(c, a, e);
      case Finish(e, f) => SimFinish(c, a, e, f);
      case Store(e, v, k, x) => SimStore(c, a, e, v, k, x);
      case Copy(e, v, f) => SimCopy(c, a, e, v, f);
      case Remap(e) => SimRemap(c, a, e);
      case Alloc(e, v, f, w, s) => SimAlloc(c, a, e, v, f, w, s);
      case Drop(e, v) => SimDrop(c, a, e, v);
      case Exit(e) => SimExit(c, a, e);
    }
  }

  lemma Unfold(c: Lazy)
    requires CowInv(c)
    ensures Frames(c)
  {
  }

  lemma WholeBits(c: Lazy, e: int)
    requires e in c.forks && Loc(e, c.forks[e].at) in c.maps && !MakesCow(c.maps[Loc(e, c.forks[e].at)])
    ensures c.maps[Loc(e, c.forks[e].at)].share || !c.maps[Loc(e, c.forks[e].at)].w
  {
  }

  /** A run of the lazy system: every operation is enabled when its turn comes. */
  ghost predicate Runnable(c: Lazy, ops: seq<Op>)
    requires CowInv(c)
    decreases |ops|
  {
    ops == [] || (Enabled(c, ops[0]) && (StepInv(c, ops[0]); Runnable(Step(c, ops[0]), ops[1..])))
  }

  ghost function RunLazy(c: Lazy, ops: seq<Op>): Lazy
    requires CowInv(c) && Runnable(c, ops)
    decreases |ops|
  {
    if ops == [] then c else StepInv(c, ops[0]); RunLazy(Step(c, ops[0]), ops[1..])
  }

  /** The eager operations a lazy run stands for. */
  ghost function EagerOps(c: Lazy, ops: seq<Op>): seq<AOp>
    requires CowInv(c) && Runnable(c, ops)
    decreases |ops|
  {
    if ops == [] then []
    else
      StepInv(c, ops[0]);
      var rest := EagerOps(Step(c, ops[0]), ops[1..]);
      match EagerOp(c, ops[0])
      case None => rest
      case Some(x) => [x] + rest
  }

  ghost predicate ARunnable(a: Eager, xs: seq<AOp>)
    decreases |xs|
  {
    xs == [] || (AEnabled(a, xs[0]) && ARunnable(AStep(a, xs[0]), xs[1..]))
  }

  ghost function RunEager(a: Eager, xs: seq<AOp>): Eager
    requires ARunnable(a, xs)
    decreases |xs|
  {
    if xs == [] then a else RunEager(AStep(a, xs[0]), xs[1..])
  }

  /** Copy-on-write fork refines eager copying: for every run of forks, stores, faults,
      allocations and exits, the eager system can make the corresponding run and ends in
      a state that programs cannot tell from the lazy one. */
  lemma {:induction false} LazyRefinesEager(c: Lazy, a: Eager, ops: seq<Op>)
    requires CowInv(c) && Rel(c, a) && Runnable(c, ops)
    ensures CowInv(RunLazy(c, ops))
    ensures ARunnable(a, EagerOps(c, ops)) && Rel(RunLazy(c, ops), RunEager(a, EagerOps(c, ops)))
    decreases |ops|
  {
    hide CowInv, Rel, Enabled, Step, EagerOp, AStep, AEnabled;
    if ops == [] {
    } else {
      StepRefines(c, a, ops[0]);
      var c' := Step(c, ops[0]);
      match EagerOp(c, ops[0])
      case None => LazyRefinesEager(c', a, ops[1..]);
      case Some(x) =>
        LazyRefinesEager(c', AStep(a, x), ops[1..]);
        assert EagerOps(c, ops)[1..] == EagerOps(c', ops[1..]);
    }
  }

  /** No fork or fault is under way and no two mappings name one frame. */
  ghost predicate Fresh(c: Lazy) {
    && c.building == {} && c.forks == map[] && c.pend == {} && c.handling == map[]
    && Frames(c) && FlagsOk(c) && Domains(c)
    && forall l :: l in c.maps ==> Alone(c, l)
  }

  /** The eager system that programs of `c` see. */
  ghost function EagerOf(c: Lazy): Eager
    requires Frames(c)
  {
    Eager(map l | l in c.maps && Plain(c, l) ::
            var p := c.maps[l]; if p.share then Shared(p.frame, p.w) else Own(c.frames[p.frame], p.w || p.cow),
          map f | 0 <= f < |c.frames| :: c.frames[f])
  }

  /** Runs start somewhere: environments with pages of their own satisfy the invariant
      and look like the eager system. */
  lemma FreshStart(c: Lazy)
    requires Fresh(c)
    ensures CowInv(c) && Rel(c, EagerOf(c))
  {
    forall l, m | Plain(c, l) && Plain(c, m) && l != m ensures c.maps[l].frame != c.maps[m].frame {
      assert Alone(c, l);
    }
    forall l | Plain(c, l) ensures PageRel(c, EagerOf(c), l) {
    }
  }

  /** What related states agree on: which pages exist, what they contain, and that a page
      the eager system lets a program write is writable or will be copied on a write. */
  lemma ProgramsSeeTheSame(c: Lazy, a: Eager, l: Loc)
    requires CowInv(c) && Rel(c, a)
    ensures l in a.pages <==> Plain(c, l)
    ensures l in a.pages ==>
              && (a.pages[l].Shared? ==> a.pages[l].cell in a.cells)
              && ARead(a, l) == c.frames[c.maps[l].frame]
              && (a.pages[l].writable <==> c.maps[l].w || c.maps[l].cow)
  {
    assert l in a.pages ==> PageRel(c, a, l);
  }
}
