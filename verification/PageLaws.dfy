/** Laws of runs of page operations (lab/kern/pmap.c, env.c, syscall.c): environments that
    share nothing do not affect each other, and no page is ever lost. */
module PageLaws {
  import opened Basics
  import opened Paging
  import opened PagingSteps
  import opened PageMemory

  /** The operation is made by, or on, environment `e`. */
  predicate Involves(op: PageOp, e: nat) {
    match op
    case NewEnv(f) => f == e
    case FreeEnv(f) => f == e
    case AllocPage(f, _, _) => f == e
    case MapPage(f, _, g, _, _) => f == e || g == e
    case UnmapPage(f, _) => f == e
    case StoreWord(f, _, _, _) => f == e
    case KernelTable => false
  }

  /** No page that `e` maps is mapped by another environment. */
  ghost predicate Private(m: Mem, e: nat)
    requires Sized(m) && e < NENV
  {
    forall v, f, w :: 0 <= v < NUPAGES && 0 <= f < NENV && f != e && 0 <= w < NUPAGES
                      && MapAt(m, e, v).Some? && MapAt(m, f, w).Some? ==>
      MapAt(m, e, v).value.ppn != MapAt(m, f, w).value.ppn
  }

  /** `e` has the same mappings and finds the same contents behind them. */
  ghost predicate SameMemory(m: Mem, m': Mem, e: nat)
    requires Sized(m) && Sized(m') && e < NENV
  {
    forall v :: 0 <= v < NUPAGES ==> SamePage(m, m', e, v)
  }

  ghost predicate SamePage(m: Mem, m': Mem, e: nat, v: nat)
    requires Sized(m) && Sized(m') && e < NENV && v < NUPAGES
  {
    && MapAt(m', e, v) == MapAt(m, e, v)
    && (MapAt(m, e, v).Some? ==>
          var p := MapAt(m, e, v).value.ppn;
          p < |m.frames| && p < |m'.frames| && m'.frames[p] == m.frames[p])
  }

  /** A page in use by a user mapping is neither free nor a page table, before and after. */
  lemma UserPage(m: Mem, m': Mem, e: nat, v: nat)
    requires Inv(m) && Inv(m') && e < NENV && v < NUPAGES && MapAt(m, e, v).Some? && MapAt(m', e, v) == MapAt(m, e, v)
    ensures var p := MapAt(m, e, v).value.ppn;
            p < |m.frames| && p < |m'.frames| && p !in m.free && p !in m.roles && p !in m'.roles
  {
    NamedIsCounted(m, PteSite(e, v));
  }

  lemma NewPageIsolated(m: Mem, m': Mem, f: nat, w: nat, perm: Bits, e: nat)
    requires Quiet(m) && Quiet(m') && Sized(m) && Sized(m') && f < NENV && w < NUPAGES && e < NENV && f != e
    requires NewPage(m, m', f, w, perm) && Private(m, e)
    ensures Private(m', e) && SameMemory(m, m', e)
  {
    hide Inv, DataKept;
    forall v | 0 <= v < NUPAGES
      ensures SamePage(m, m', e, v) && (MapAt(m, e, v).Some? ==> MapAt(m, e, v).value.ppn != m.free[0])
    {
      assert MapAt(m', e, v) == MapAt(m, e, v);
      if MapAt(m, e, v).Some? {
        UserPage(m, m', e, v);
        KeptPage(DataWrite(m, m.free[0], Blank()), m', MapAt(m, e, v).value.ppn);
      }
    }
    StillPrivate(m, m', e, f, w);
  }

  lemma KeptPage(m: Mem, m': Mem, p: nat)
    requires DataKept(m, m') && p < |m.frames| && p !in m.roles && p !in m'.roles
    ensures p < |m'.frames| && m'.frames[p] == m.frames[p]
  {
  }

  /** Privacy is kept when the one changed mapping of another environment does not name a
      page of `e`. */
  lemma StillPrivate(m: Mem, m': Mem, e: nat, f: nat, w: nat)
    requires Sized(m) && Sized(m') && e < NENV && f < NENV && w < NUPAGES && f != e
    requires Private(m, e) && MapsBut(m, m', f, w)
    requires MapAt(m', f, w).Some? ==> forall v :: 0 <= v < NUPAGES && MapAt(m, e, v).Some? ==>
               MapAt(m, e, v).value.ppn != MapAt(m', f, w).value.ppn
    ensures Private(m', e)
  {
    forall v, g, x | 0 <= v < NUPAGES && 0 <= g < NENV && g != e && 0 <= x < NUPAGES
                     && MapAt(m', e, v).Some? && MapAt(m', g, x).Some?
      ensures MapAt(m', e, v).value.ppn != MapAt(m', g, x).value.ppn
    {
      assert MapAt(m', e, v) == MapAt(m, e, v);
      if g != f || x != w {
        assert MapAt(m', g, x) == MapAt(m, g, x);
      }
    }
  }

  lemma CopyIsolated(m: Mem, m': Mem, src: nat, sv: nat, dst: nat, dv: nat, perm: Bits, e: nat)
    requires Quiet(m) && Quiet(m') && Sized(m) && Sized(m') && src < NENV && dst < NENV && sv < NUPAGES && dv < NUPAGES
    requires e < NENV && src != e && dst != e
    requires CopiedMapping(m, m', src, sv, dst, dv, perm) && Private(m, e)
    ensures Private(m', e) && SameMemory(m, m', e)
  {
    hide Inv, DataKept, InsertCounts;
    KeptMemory(m, m', e, dst, dv);
    StillPrivate(m, m', e, dst, dv);
  }

  /** One other mapping changed and no data page was written. */
  lemma KeptMemory(m: Mem, m': Mem, e: nat, f: nat, w: nat)
    requires Inv(m) && Inv(m') && Sized(m) && Sized(m') && e < NENV && f < NENV && w < NUPAGES && f != e
    requires MapsBut(m, m', f, w) && DataKept(m, m')
    ensures SameMemory(m, m', e)
  {
    hide Inv, DataKept;
    forall v | 0 <= v < NUPAGES ensures SamePage(m, m', e, v) {
      assert MapAt(m', e, v) == MapAt(m, e, v);
      if MapAt(m, e, v).Some? {
        UserPage(m, m', e, v);
        KeptPage(m, m', MapAt(m, e, v).value.ppn);
      }
    }
  }

  lemma FreeIsolated(m: Mem, m': Mem, f: nat, e: nat)
    requires Quiet(m) && Quiet(m') && Sized(m) && Sized(m') && Live(m, f) && e < NENV && f != e && Private(m, e)
    requires m'.dirs == m.dirs[f := NONE] && OthersKept(m, m', f) && DataKept(m, m')
    ensures Private(m', e) && SameMemory(m, m', e)
  {
    hide Inv, DataKept;
    forall v | 0 <= v < NUPAGES ensures SamePage(m, m', e, v) {
      assert MapAt(m', e, v) == MapAt(m, e, v);
      if MapAt(m, e, v).Some? {
        UserPage(m, m', e, v);
        KeptPage(m, m', MapAt(m, e, v).value.ppn);
      }
    }
    forall w | 0 <= w < NUPAGES ensures MapAt(m', f, w) == None {
    }
    forall v, g, x | 0 <= v < NUPAGES && 0 <= g < NENV && g != e && 0 <= x < NUPAGES
                     && MapAt(m', e, v).Some? && MapAt(m', g, x).Some?
      ensures MapAt(m', e, v).value.ppn != MapAt(m', g, x).value.ppn
    {
      assert g != f && MapAt(m', g, x) == MapAt(m, g, x) && MapAt(m', e, v) == MapAt(m, e, v);
    }
  }

  /** Mappings are as before and one page was written that `e` does not map. */
  lemma WriteIsolated(m: Mem, m': Mem, p: nat, e: nat)
    requires Inv(m) && Inv(m') && Sized(m) && Sized(m') && e < NENV && Private(m, e) && SameMaps(m, m')
    requires p < |m.frames| && |m'.frames| == |m.frames|
    requires forall q :: 0 <= q < |m.frames| && q != p ==> m'.frames[q] == m.frames[q]
    requires forall v :: 0 <= v < NUPAGES && MapAt(m, e, v).Some? ==> MapAt(m, e, v).value.ppn != p
    ensures Private(m', e) && SameMemory(m, m', e)
  {
    hide Inv;
    forall v | 0 <= v < NUPAGES ensures SamePage(m, m', e, v) {
      assert MapAt(m', e, v) == MapAt(m, e, v);
      if MapAt(m, e, v).Some? {
        UserPage(m, m', e, v);
      }
    }
    forall v, g, x | 0 <= v < NUPAGES && 0 <= g < NENV && g != e && 0 <= x < NUPAGES
                     && MapAt(m', e, v).Some? && MapAt(m', g, x).Some?
      ensures MapAt(m', e, v).value.ppn != MapAt(m', g, x).value.ppn
    {
      assert MapAt(m', g, x) == MapAt(m, g, x) && MapAt(m', e, v) == MapAt(m, e, v);
    }
  }

  lemma HeadIsolated(m: Mem, m': Mem, e: nat)
    requires Inv(m) && Inv(m') && Sized(m) && Sized(m') && e < NENV && Private(m, e) && SameMaps(m, m')
    requires m.free != [] && 0 <= m.free[0] < |m.frames| && |m'.frames| == |m.frames|
    requires m'.frames == m.frames[m.free[0] := m'.frames[m.free[0]]]
    ensures Private(m', e) && SameMemory(m, m', e)
  {
    hide Inv;
    forall v | 0 <= v < NUPAGES && MapAt(m, e, v).Some? ensures MapAt(m, e, v).value.ppn != m.free[0] {
      UserPage(m, m, e, v);
    }
    WriteIsolated(m, m', m.free[0], e);
  }

  lemma StoreIsolated(m: Mem, m': Mem, f: nat, w: nat, k: nat, word: Entry, e: nat)
    requires Quiet(m) && Quiet(m') && Sized(m) && Sized(m') && f < NENV && w < NUPAGES && k < NPTENTRIES
    requires e < NENV && f != e && Private(m, e)
    requires CanWrite(m, f, w) && StoredWord(m, m', f, w, k, word)
    ensures Private(m', e) && SameMemory(m, m', e)
  {
    var p := PteAt(m, f, w).ppn;
    DataWriteStep(m, p, m.frames[p][k := word]);
    assert MapAt(m, f, w) == Some(PteAt(m, f, w));
    WriteIsolated(m, m', p, e);
  }

  /** An operation that does not involve `e` changes nothing for `e`, as long as `e` shares
      no page, and leaves it sharing none. */
  lemma StepIsolated(m: Mem, op: PageOp, m': Mem, kern: seq<Entry>, e: nat)
    requires Quiet(m) && Quiet(m') && Sized(m) && Sized(m') && Did(m, op, m', kern)
    requires e < NENV && !Involves(op, e) && Private(m, e)
    ensures Private(m', e) && SameMemory(m, m', e)
  {
    hide Inv, Private, SameMemory, NewPage, CopiedMapping, EnvFreed, DataKept, SameMaps;
    if m' == m {
      NothingDone(m, e);
    } else {
      match op {
        case NewEnv(f) => HeadIsolated(m, m', e);
        case FreeEnv(f) => FreeIsolated(m, m', f, e);
        case AllocPage(f, va, perm) =>
          if VaOk(va) && perm <= PTE_SYSCALL && Live(m, f) && PagesFor(m, f, va / PGSIZE) {
            NewPageIsolated(m, m', f, va / PGSIZE, perm, e);
          } else {
            BlankHead(m, m');
            HeadIsolated(m, m', e);
          }
        case MapPage(src, srcva, dst, dstva, perm) =>
          CopyIsolated(m, m', src, srcva / PGSIZE, dst, dstva / PGSIZE, perm, e);
        case UnmapPage(f, va) => DropIsolated(m, m', f, va / PGSIZE, e);
        case StoreWord(f, w, k, word) => StoreIsolated(m, m', f, w, k, word, e);
        case KernelTable => HeadIsolated(m, m', e);
      }
    }
  }

  lemma NothingDone(m: Mem, e: nat)
    requires Inv(m) && Sized(m) && e < NENV
    ensures SameMemory(m, m, e)
  {
    hide Inv;
    forall v | 0 <= v < NUPAGES ensures SamePage(m, m, e, v) {
      if MapAt(m, e, v).Some? {
        UserPage(m, m, e, v);
      }
    }
  }

  lemma BlankHead(m: Mem, m': Mem)
    requires Inv(m) && Untouched(m, m') && m' != m
    ensures Sized(m) && Sized(m') && SameMaps(m, m') && |m'.frames| == |m.frames|
    ensures m.free != [] && 0 <= m.free[0] < |m.frames| && m'.frames == m.frames[m.free[0] := m'.frames[m.free[0]]]
  {
    FreeIsUnused(m, m.free[0]);
    DataWriteStep(m, m.free[0], Blank());
  }

  lemma DropIsolated(m: Mem, m': Mem, f: nat, w: nat, e: nat)
    requires Quiet(m) && Quiet(m') && Sized(m) && Sized(m') && f < NENV && w < NUPAGES && e < NENV && f != e
    requires LostMapping(m, m', f, w) && Private(m, e)
    ensures Private(m', e) && SameMemory(m, m', e)
  {
    hide Inv, DataKept;
    KeptMemory(m, m', e, f, w);
    StillPrivate(m, m', e, f, w);
  }

  /** In every run: whatever the other environments and the kernel do, an environment that
      shares no page keeps every mapping and every word of its memory, and goes on sharing
      none, while no operation involves it. */
  lemma {:induction false} Isolation(ms: seq<Mem>, ops: seq<PageOp>, kern: seq<Entry>, e: nat, n: nat)
    requires PageRun(ms, ops, kern) && e < NENV && n <= |ops| && Sized(ms[0]) && Sized(ms[n]) && Private(ms[0], e)
    requires forall i :: 0 <= i < n ==> !Involves(ops[i], e)
    ensures Private(ms[n], e) && SameMemory(ms[0], ms[n], e)
  {
    hide Quiet, Sized, Did, Private, SameMemory;
    if n == 0 {
      NothingDone(ms[0], e) by { QuietInv(ms[0]); }
    } else {
      Isolation(ms, ops, kern, e, n - 1);
      StepIsolated(ms[n - 1], ops[n - 1], ms[n], kern, e);
      SameMemoryTrans(ms[0], ms[n - 1], ms[n], e);
    }
  }

  lemma QuietInv(m: Mem)
    requires Quiet(m)
    ensures Inv(m)
  {
  }

  lemma SameMemoryTrans(m0: Mem, m1: Mem, m2: Mem, e: nat)
    requires Sized(m0) && Sized(m1) && Sized(m2) && e < NENV && SameMemory(m0, m1, e) && SameMemory(m1, m2, e)
    ensures SameMemory(m0, m2, e)
  {
    forall v | 0 <= v < NUPAGES ensures SamePage(m0, m2, e, v) {
      assert SamePage(m0, m1, e, v) && SamePage(m1, m2, e, v);
    }
  }

  /** No page is ever lost: once all environments are gone, every page that the kernel did
      not keep for itself is on the free list again. */
  lemma NothingLeaks(ms: seq<Mem>, ops: seq<PageOp>, kern: seq<Entry>, p: int)
    requires PageRun(ms, ops, kern)
    requires var m := ms[|ops|]; (forall e :: 0 <= e < |m.dirs| ==> m.dirs[e] == NONE) && 0 <= p < |m.refs| && p !in m.reserved
    ensures p in ms[|ops|].free
  {
    var m := ms[|ops|];
    forall s | InRange(s) ensures NameAt(m, s) == NONE {
    }
    assert RefSites(m, p) == {};
  }

  // ---- a count at its limit ----

  /** The page table word that maps page `v` in the example: one page, frame 65, everywhere
      below the limit. */
  function FullWord(v: nat): Entry {
    if v < MAXREF then Entry(65, NEWPDE) else ZERO
  }

  function FullRole(f: nat): Role {
    if f == 0 then DirOf(0) else TableOf(0, f - 1)
  }

  /** One environment that maps frame 65 at 65535 pages, through 64 page tables. */
  ghost function FullPage(): Mem {
    var dir := seq(NPTENTRIES, i requires 0 <= i < NPTENTRIES => if i < 64 then Entry(1 + i, NEWPDE) else ZERO);
    Mem(seq(66, f => if f == 65 then MAXREF else 1),
        [],
        seq(66, f requires 0 <= f < 66 =>
              if f == 0 || f == 65 then dir
              else seq(NPTENTRIES, j requires 0 <= j < NPTENTRIES => FullWord((f - 1) * NPTENTRIES + j))),
        seq(NENV, e => if e == 0 then 0 else NONE), {}, {}, multiset{},
        map f: nat | f < 65 :: FullRole(f))
  }

  lemma FullWalk(e: nat, i: nat, v: nat)
    requires e < NENV && i < NUPDE && v < NUPAGES
    ensures Sized(FullPage())
    ensures PdeAt(FullPage(), e, i) == if e == 0 && i < 64 then Entry(1 + i, NEWPDE) else ZERO
    ensures PteAt(FullPage(), e, v) == if e == 0 then FullWord(v) else ZERO
  {
    var m := FullPage();
    if e == 0 && v / NPTENTRIES < 64 {
      var t := v / NPTENTRIES;
      assert m.frames[0][t] == Entry(1 + t, NEWPDE);
      assert m.frames[1 + t][v % NPTENTRIES] == FullWord(t * NPTENTRIES + v % NPTENTRIES);
    }
  }

  ghost function FirstSites(n: nat): set<Site> {
    set v: nat | v < n :: PteSite(0, v)
  }

  lemma {:induction false} CountSites(n: nat)
    ensures |FirstSites(n)| == n
  {
    if n == 0 {
    } else {
      CountSites(n - 1);
      assert FirstSites(n) == FirstSites(n - 1) + {PteSite(0, n - 1)};
    }
  }

  lemma FullCounts(p: nat)
    requires p < 66
    ensures Sized(FullPage()) && |RefSites(FullPage(), p)| == FullPage().refs[p]
  {
    hide FullPage;
    FullShape();
    var m := FullPage();
    forall s | InRange(s)
      ensures NameAt(m, s) == match s {
                case PteSite(e, v) => if e == 0 && v < MAXREF then 65 else NONE
                case PdeSite(e, i) => if e == 0 && i < 64 then 1 + i else NONE
                case DirSite(e) => if e == 0 then 0 else NONE
              }
    {
      match s {
        case PteSite(e, v) => FullWalk(e, 0, v);
        case PdeSite(e, i) => FullWalk(e, i, 0);
        case DirSite(e) =>
      }
    }
    if p == 65 {
      assert RefSites(m, p) == FirstSites(MAXREF);
      CountSites(MAXREF);
    } else if p == 0 {
      assert RefSites(m, p) == {DirSite(0)};
    } else {
      assert RefSites(m, p) == {PdeSite(0, p - 1)};
    }
  }

  lemma FullShape()
    ensures var m := FullPage();
            && Sized(m) && |m.frames| == 66 && |m.refs| == 66 && m.refs[65] == MAXREF
            && (forall f :: 0 <= f < 65 ==> m.refs[f] == 1)
            && m.free == [] && m.reserved == {} && m.held == {} && m.pins == multiset{}
            && m.dirs[0] == 0 && (forall e :: 1 <= e < NENV ==> m.dirs[e] == NONE)
            && (forall f :: f in m.roles <==> 0 <= f < 65)
            && (forall f :: 0 <= f < 65 ==> m.roles[f] == FullRole(f))
  {
  }

  lemma FullInv()
    ensures Inv(FullPage())
  {
    hide FullPage, RefSites;
    FullShape();
    var m := FullPage();
    forall e, i | 0 <= e < NENV && 0 <= i < NUPDE
      ensures PdeAt(m, e, i) == if e == 0 && i < 64 then Entry(1 + i, NEWPDE) else ZERO
    {
      FullWalk(e, i, 0);
    }
    forall e, v | 0 <= e < NENV && 0 <= v < NUPAGES ensures PteAt(m, e, v) == if e == 0 then FullWord(v) else ZERO {
      FullWalk(e, 0, v);
    }
    forall p | 0 <= p < |m.refs| ensures m.refs[p] == |RefSites(m, p)| {
      FullCounts(p);
    }
  }

  /** It does happen: with a page at 65535 references, page_insert of it at one more place
      leaves a count of 0. */
  lemma WrapExample(perm: Bits)
    ensures Quiet(FullPage()) && Insertable(FullPage(), 0, MAXREF, 65)
    ensures !Inv(Wrapped(Inserted(FullPage(), 0, MAXREF, 65, perm)))
  {
    hide Inv, FullPage, Inserted;
    FullInv();
    FullShape();
    FullWalk(0, MAXREF / NPTENTRIES, MAXREF);
    InsertExact(FullPage(), 0, MAXREF, 65, perm);
  }
}
