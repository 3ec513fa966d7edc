/** fork, duppage and pgfault (lab/lib/fork.c) as programs run them: system calls that
    change the page tables in place. The ghost field `eager` is the state of the eager
    system the programs believe they run on. */
module ForkLib {
  import opened Basics
  import opened Paging
  import opened CopyOnWrite
  import opened CowSteps
  import opened CowRefinement

  class UserMemory {
    var frames: seq<Page>
    var maps: map<Loc, Pte>
    var envs: set<int>
    ghost var building: set<int>
    ghost var forks: map<int, Forking>
    ghost var pend: set<Loc>
    ghost var handling: map<int, int>
    ghost var eager: Eager

    ghost function Snap(): Lazy
      reads this
    {
      Lazy(frames, maps, envs, building, forks, pend, handling)
    }

    ghost predicate Valid()
      reads this
    {
      CowInv(Snap()) && Rel(Snap(), eager)
    }

    /** Environments that have not forked yet, each with pages of its own. */
    constructor (frames: seq<Page>, maps: map<Loc, Pte>, envs: set<int>)
      requires Fresh(Lazy(frames, maps, envs, {}, map[], {}, map[]))
      ensures Valid() && Snap() == Lazy(frames, maps, envs, {}, map[], {}, map[])
      ensures eager == EagerOf(Snap())
    {
      hide CowInv, Rel, Fresh, EagerOf;
      FreshStart(Lazy(frames, maps, envs, {}, map[], {}, map[]));
      this.frames, this.maps, this.envs := frames, maps, envs;
      building, forks, pend, handling := {}, map[], {}, map[];
      eager := EagerOf(Lazy(frames, maps, envs, {}, map[], {}, map[]));
    }

    /** Map page `pn` of the forking environment `e` into its child at the same address;
        pages the child must not see change become copy-on-write on both sides. For
        programs the page has been copied. */
    method Duppage(e: int, child: int, pn: int)
      requires Valid() && Runs(Snap(), e) && e in forks && forks[e] == Forking(child, pn, false)
      requires pn < UXSTACK && Loc(e, pn) in maps
      modifies this`maps, this`forks, this`eager
      ensures Valid()
      ensures forks == old(forks)[e := Forking(child, pn + 1, false)]
      ensures pn == PFTEMP ==> eager == old(eager)
      ensures pn != PFTEMP ==>
                && Loc(e, pn) in old(eager).pages
                && eager == old(eager).(pages := old(eager).pages[Loc(child, pn) := old(eager).pages[Loc(e, pn)]])
      ensures forall f :: Unused(old(Snap()), f) ==> Unused(Snap(), f)
    {
      hide CowInv, Rel, Step, Enabled, EagerOp, AStep;
      ghost var c := Snap();
      ChildFacts(c, e);
      var p := maps[Loc(e, pn)];
      if p.share {
        DupWholeRefines(c, eager, e);
        maps := maps[Loc(child, pn) := p];
      } else if p.cow || p.w {
        DupCowRefines(c, eager, e);
        maps := maps[Loc(child, pn) := Pte(p.frame, false, true, false)];
        maps := maps[Loc(e, pn) := Pte(p.frame, false, true, false)];
      } else {
        DupWholeRefines(c, eager, e);
        maps := maps[Loc(child, pn) := p];
      }
      forks := forks[e := Forking(child, pn + 1, false)];
      eager := Cloned(eager, e, child, pn);
      assert Snap() == if MakesCow(p) then DupSelfS(DupHalfS(c, e), e) else DupWholeS(c, e);
    }

    /** The user page fault handler: give environment `e` a private writable copy of
        copy-on-write page `v`, in the page `f` the kernel hands out. Programs see
        nothing of it. */
    method Pgfault(e: int, v: int, f: int)
      requires Valid() && Enabled(Snap(), Copy(e, v, f))
      modifies this`frames, this`maps, this`handling
      ensures Valid() && handling == old(handling)
      ensures maps == old(maps)[Loc(e, PFTEMP) := Pte(f, true, false, false)][Loc(e, v) := Pte(f, true, false, false)]
    {
      hide CowInv, Rel;
      ghost var c := Snap();
      Unfold(c);
      StepRefines(c, eager, Copy(e, v, f));
      maps := maps[Loc(e, PFTEMP) := Pte(f, true, false, false)];      // sys_page_alloc
      frames := frames[f := frames[maps[Loc(e, v)].frame]];            // memmove
      handling := handling[e := v];
      ghost var c1 := Snap();
      assert c1 == Step(c, Copy(e, v, f));
      StepRefines(c1, eager, Remap(e));
      maps := maps[Loc(e, v) := Pte(maps[Loc(e, PFTEMP)].frame, true, false, false)];
      handling := handling - {e};
      assert handling == old(handling);
      assert Snap() == Step(c1, Remap(e));
    }

    /** A program stores a word; a copy-on-write page is copied first. `f` is the page the
        kernel would hand out. False means the store is not allowed. */
    method UserStore(e: int, v: int, k: int, x: int, f: int) returns (ok: bool)
      requires Valid() && Runs(Snap(), e) && UserPage(v) && Unused(Snap(), f)
      modifies this`frames, this`maps, this`handling, this`eager
      ensures Valid()
      ensures ok <==> Loc(e, v) in old(eager).pages && old(eager).pages[Loc(e, v)].writable
      ensures ok ==> AEnabled(old(eager), AStore(e, v, k, x)) && eager == AStep(old(eager), AStore(e, v, k, x))
      ensures ok ==> Loc(e, v) in maps && 0 <= maps[Loc(e, v)].frame < |frames|
      ensures ok && 0 <= k < |frames[maps[Loc(e, v)].frame]| ==> frames[maps[Loc(e, v)].frame][k] == x
      ensures !ok ==> eager == old(eager) && Snap() == old(Snap())
    {
      hide CowInv, Rel, AStep, AEnabled, EagerOp;
      Unfold(Snap());
      RunningFacts(Snap(), e, v);
      ProgramsSeeTheSame(Snap(), eager, Loc(e, v));
      if Loc(e, v) !in maps || !(maps[Loc(e, v)].w || maps[Loc(e, v)].cow) {
        return false;
      }
      if !maps[Loc(e, v)].w {
        Pgfault(e, v, f);
      }
      ghost var c := Snap();
      StoreIsStore(c, e, v, k, x);
      StepRefines(c, eager, Store(e, v, k, x));
      Unfold(c);
      var g := maps[Loc(e, v)].frame;
      frames := frames[g := Put(frames[g], k, x)];
      eager := AStep(eager, AStore(e, v, k, x));
      ok := true;
    }

    /** Fork environment `e`, uninterrupted. The child gets every page the parent had,
        with the same contents, PTE_SHARE pages in common, and a fresh exception stack;
        nothing changes for the parent or anyone else. */
    method Fork(e: int, child: int, f: int)
      requires Valid() && Runs(Snap(), e) && e !in forks && child !in envs && Unused(Snap(), f)
      modifies this
      ensures Valid() && forks == old(forks) && child in envs && child !in building
      ensures EagerFork(old(eager), eager, e, child)
      ensures forall v :: 0 <= v < UXSTACK && v != PFTEMP && Loc(e, v) in old(eager).pages ==>
                Loc(child, v) in eager.pages && eager.pages[Loc(child, v)] == old(eager).pages[Loc(e, v)]
    {
      hide CowInv, Rel, Copied, EagerFork, Step, Enabled, EagerOp, AStep;
      ghost var a0 := eager;
      NoPagesYet(Snap(), eager, child);
      StartRefines(Snap(), eager, e, child);
      envs := envs + {child};
      building, forks := building + {child}, forks[e := Forking(child, 0, false)];
      assert Snap() == StartS(old(Snap()), e, child);
      var pn := 0;
      while pn < UXSTACK
        invariant 0 <= pn <= UXSTACK && Valid() && Runs(Snap(), e) && Unused(Snap(), f)
        invariant forks == old(forks)[e := Forking(child, pn, false)] && envs == old(envs) + {child}
        invariant Copied(a0, eager, e, child, pn)
      {
        MappedIsPage(Snap(), eager, e, pn);
        CopiedStep(a0, eager, e, child, pn);
        if Loc(e, pn) in maps {
          Duppage(e, child, pn);
        } else {
          SkipPage(e, child, pn);
        }
        pn := pn + 1;
      }
      CopiedAll(a0, eager, e, child);
      MakeRunnable(e, child, f);
      assert forks == old(forks);
    }

    /** A page the parent does not have. */
    ghost method SkipPage(e: int, child: int, pn: int)
      requires Valid() && Runs(Snap(), e) && e in forks && forks[e] == Forking(child, pn, false)
      requires pn < UXSTACK && Loc(e, pn) !in maps
      modifies this`forks
      ensures Valid() && forks == old(forks)[e := Forking(child, pn + 1, false)]
    {
      hide CowInv, Rel, Step, Enabled, EagerOp, AStep;
      SkipRefines(Snap(), eager, e);
      forks := forks[e := Forking(child, pn + 1, false)];
    }

    /** The end of fork: an exception stack for the child, which may then run. */
    method MakeRunnable(e: int, child: int, f: int)
      requires Valid() && Runs(Snap(), e) && Unused(Snap(), f) && e in forks && forks[e] == Forking(child, UXSTACK, false)
      modifies this`frames, this`maps, this`building, this`forks, this`eager
      ensures Valid() && forks == old(forks) - {e} && building == old(building) - {child}
      ensures eager == old(eager).(pages := old(eager).pages[Loc(child, UXSTACK) := Own(Zero(), true)])
    {
      hide CowInv, Rel, Step, Enabled, EagerOp, AStep;
      ghost var c := Snap();
      FinishRefines(c, eager, e, f);
      frames := frames[f := Zero()];
      maps := maps[Loc(child, UXSTACK) := Pte(f, true, false, false)];
      building, forks := building - {child}, forks - {e};
      eager := eager.(pages := eager.pages[Loc(child, UXSTACK) := Own(Zero(), true)]);
      assert Snap() == FinishS(c, e, f);
    }
  }

  // ---- the steps of fork, with the eager steps spelled out ----

  /** The eager system after page `v` of `e` has been copied, or shared, into `child`. */
  ghost function Cloned(a: Eager, e: int, child: int, v: int): Eager {
    if v == PFTEMP || Loc(e, v) !in a.pages then a
    else a.(pages := a.pages[Loc(child, v) := a.pages[Loc(e, v)]])
  }

  lemma StartRefines(c: Lazy, a: Eager, e: int, child: int)
    requires CowInv(c) && Rel(c, a) && Runs(c, e) && e !in c.forks && child !in c.envs
    ensures CowInv(StartS(c, e, child)) && Rel(StartS(c, e, child), a)
  {
    hide CowInv, Rel;
    StepRefines(c, a, Start(e, child));
  }

  lemma SkipRefines(c: Lazy, a: Eager, e: int)
    requires CowInv(c) && Rel(c, a) && Runs(c, e) && e in c.forks && !c.forks[e].half && c.forks[e].at < UXSTACK
    requires Loc(e, c.forks[e].at) !in c.maps
    ensures CowInv(SkipS(c, e)) && Rel(SkipS(c, e), a)
  {
    hide CowInv, Rel;
    StepRefines(c, a, Dup(e));
  }

  lemma DupWholeRefines(c: Lazy, a: Eager, e: int)
    requires CowInv(c) && Rel(c, a) && Runs(c, e) && e in c.forks && !c.forks[e].half && c.forks[e].at < UXSTACK
    requires Loc(e, c.forks[e].at) in c.maps && !MakesCow(c.maps[Loc(e, c.forks[e].at)])
    ensures c.forks[e].at != PFTEMP ==> Loc(e, c.forks[e].at) in a.pages
    ensures CowInv(DupWholeS(c, e)) && Rel(DupWholeS(c, e), Cloned(a, e, c.forks[e].child, c.forks[e].at))
  {
    hide CowInv, Rel;
    StepRefines(c, a, Dup(e));
  }

  lemma DupCowRefines(c: Lazy, a: Eager, e: int)
    requires CowInv(c) && Rel(c, a) && Runs(c, e) && e in c.forks && !c.forks[e].half && c.forks[e].at < UXSTACK
    requires Loc(e, c.forks[e].at) in c.maps && MakesCow(c.maps[Loc(e, c.forks[e].at)])
    ensures c.forks[e].at != PFTEMP ==> Loc(e, c.forks[e].at) in a.pages
    ensures var c' := DupSelfS(DupHalfS(c, e), e);
            CowInv(c') && Rel(c', Cloned(a, e, c.forks[e].child, c.forks[e].at)) && c'.pend == c.pend
  {
    hide CowInv, Rel;
    ChildFacts(c, e);
    StepRefines(c, a, Dup(e));
    var c1, x := DupHalfS(c, e), EagerOp(c, Dup(e));
    StepRefines(c1, if x.Some? then AStep(a, x.value) else a, DupSelf(e));
  }

  lemma FinishRefines(c: Lazy, a: Eager, e: int, f: int)
    requires CowInv(c) && Rel(c, a) && Runs(c, e) && e in c.forks && !c.forks[e].half && c.forks[e].at == UXSTACK
    requires Unused(c, f)
    ensures CowInv(FinishS(c, e, f))
    ensures Rel(FinishS(c, e, f), a.(pages := a.pages[Loc(c.forks[e].child, UXSTACK) := Own(Zero(), true)]))
  {
    hide CowInv, Rel;
    StepRefines(c, a, Finish(e, f));
  }

  /** `a'` is `a` after an eager fork of `e`: the child has a copy of each of the parent's
      private pages, a view of each shared one and a fresh exception stack; all other
      environments, the parent included, have what they had. */
  ghost predicate EagerFork(a: Eager, a': Eager, e: int, child: int) {
    && (forall v :: 0 <= v < UXSTACK && v != PFTEMP ==>
          (Loc(child, v) in a'.pages <==> Loc(e, v) in a.pages)
          && (Loc(e, v) in a.pages ==> a'.pages[Loc(child, v)] == a.pages[Loc(e, v)]))
    && Loc(child, UXSTACK) in a'.pages && a'.pages[Loc(child, UXSTACK)] == Own(Zero(), true)
    && OthersKept(a, a', child)
  }

  ghost predicate OthersKept(a: Eager, a': Eager, child: int) {
    && (forall l: Loc :: l.env != child ==>
          (l in a'.pages <==> l in a.pages) && (l in a.pages ==> a'.pages[l] == a.pages[l]))
    && a'.cells == a.cells
  }

  /** Part way: the pages below `n` have been copied. */
  ghost predicate Copied(a: Eager, a': Eager, e: int, child: int, n: int) {
    && (forall v :: 0 <= v < n && v != PFTEMP ==>
          (Loc(child, v) in a'.pages <==> Loc(e, v) in a.pages)
          && (Loc(e, v) in a.pages ==> a'.pages[Loc(child, v)] == a.pages[Loc(e, v)]))
    && (forall v :: v < 0 || v >= n || v == PFTEMP ==> Loc(child, v) !in a'.pages)
    && OthersKept(a, a', child) && e != child
  }

  lemma CopiedStep(a: Eager, a1: Eager, e: int, child: int, n: int)
    requires Copied(a, a1, e, child, n) && 0 <= n
    ensures n == PFTEMP || Loc(e, n) !in a1.pages ==> Copied(a, a1, e, child, n + 1)
    ensures n != PFTEMP && Loc(e, n) in a1.pages ==>
              Copied(a, a1.(pages := a1.pages[Loc(child, n) := a1.pages[Loc(e, n)]]), e, child, n + 1)
  {
    assert Loc(e, n) in a1.pages <==> Loc(e, n) in a.pages;
  }

  lemma CopiedAll(a: Eager, a1: Eager, e: int, child: int)
    requires Copied(a, a1, e, child, UXSTACK)
    ensures EagerFork(a, a1.(pages := a1.pages[Loc(child, UXSTACK) := Own(Zero(), true)]), e, child)
    ensures forall v :: 0 <= v < UXSTACK && v != PFTEMP && Loc(e, v) in a.pages ==>
              Loc(child, v) in a1.pages && a1.pages[Loc(child, v)] == a.pages[Loc(e, v)]
  {
  }

  lemma RunningFacts(c: Lazy, e: int, v: int)
    requires CowInv(c) && Runs(c, e) && UserPage(v)
    ensures Loc(e, v) in c.maps <==> Plain(c, Loc(e, v))
  {
    NotPending(c, Loc(e, v));
  }

  lemma StoreIsStore(c: Lazy, e: int, v: int, k: int, x: int)
    requires Enabled(c, Store(e, v, k, x))
    ensures EagerOp(c, Store(e, v, k, x)) == Some(AStore(e, v, k, x))
  {
  }

  lemma NoPagesYet(c: Lazy, a: Eager, child: int)
    requires CowInv(c) && Rel(c, a) && child !in c.envs
    ensures forall e :: e in c.envs ==> Copied(a, a, e, child, 0)
  {
    assert forall v :: Loc(child, v) !in a.pages;
  }

  lemma MappedIsPage(c: Lazy, a: Eager, e: int, v: int)
    requires CowInv(c) && Rel(c, a) && Runs(c, e)
    ensures v != PFTEMP ==> (Loc(e, v) in a.pages <==> Loc(e, v) in c.maps)
    ensures Loc(e, PFTEMP) !in a.pages
    ensures e in c.forks ==> e != c.forks[e].child
  {
    NotPending(c, Loc(e, v));
    if e in c.forks { ForkFacts(c, e); }
  }

  lemma ChildFacts(c: Lazy, e: int)
    requires CowInv(c) && e in c.forks && !c.forks[e].half
    ensures c.forks[e].child != e
    ensures forall v :: Loc(c.forks[e].child, v) !in c.pend
    ensures Frames(c)
  {
    ForkFacts(c, e);
  }
}
