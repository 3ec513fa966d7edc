/** The kernel's page allocator and page tables (lab/kern/pmap.c), the address
    space part of environments (lab/kern/env.c) and the page system calls
    (lab/kern/syscall.c), updating the machine's state in place. */
module PageMemory {
  import opened Basics
  import opened FreeList
  import opened Paging
  import opened PagingSteps

  datatype Outcome = Ok | BadEnv | Inval | NoMem | Panic

  datatype PageOp =
    | NewEnv(e: nat) | FreeEnv(e: nat)
    | AllocPage(e: nat, va: nat, perm: Bits)
    | MapPage(src: nat, srcva: nat, dst: nat, dstva: nat, perm: Bits)
    | UnmapPage(e: nat, va: nat)
    | StoreWord(e: nat, vpn: nat, k: nat, word: Entry)
    | KernelTable

  const PDX_UVPT: nat := 957
  const IOPAGES: nat := 96                     // (EXTPHYSMEM - IOPHYSMEM) / PGSIZE
  const MPENTRY: nat := 7                      // MPENTRY_PADDR / PGSIZE

  /** The user part of an address space as one flat map from page number to entry. */
  ghost function FlatMap(m: Mem, e: nat): map<int, Entry>
    requires Sized(m) && e < NENV
  {
    map v: int | 0 <= v < NUPAGES && MapAt(m, e, v).Some? :: MapAt(m, e, v).value
  }

  /** The kernel writes no page but its own page tables and directories: every other
      page holds what it held. */
  ghost predicate DataKept(m: Mem, m': Mem) {
    && |m'.frames| == |m.frames|
    && forall f :: 0 <= f < |m.frames| && f !in m.roles && f !in m'.roles ==> m'.frames[f] == m.frames[f]
  }

  /** Pages that are not on the free list have a null pp_link. */
  ghost predicate NullElsewhere(link: seq<int>, free: seq<int>) {
    forall p :: 0 <= p < |link| && p !in free ==> link[p] == NONE
  }

  lemma NullAfterPop(link: seq<int>, free: seq<int>)
    requires NullElsewhere(link, free) && free != [] && 0 <= free[0] < |link|
    ensures NullElsewhere(link[free[0] := NONE], free[1..])
  {
    assert free == [free[0]] + free[1..];
  }

  lemma NullAfterPush(link: seq<int>, free: seq<int>, p: nat, l: int)
    requires NullElsewhere(link, free) && p < |link|
    ensures NullElsewhere(link[p := l], [p] + free)
  {
    assert ([p] + free)[0] == p && ([p] + free)[1..] == free;
  }

  class Pages {
    var ppRef: seq<nat>
    var ppLink: seq<int>
    var pageFreeList: int
    var frames: seq<seq<Entry>>
    var envPgdir: seq<int>
    const kernDir: seq<Entry>                  // the words of kern_pgdir

    ghost var free: seq<int>
    ghost var reserved: set<int>
    ghost var held: set<int>
    ghost var pins: multiset<int>
    ghost var roles: map<int, Role>

    ghost function Snap(): Mem
      reads this
    {
      Mem(ppRef, free, frames, envPgdir, reserved, held, pins, roles)
    }

    /** The linked free list is well formed, whatever the counts are. */
    ghost predicate ListOk()
      reads this
    {
      && |ppLink| == |ppRef|
      && Chain(ppLink, pageFreeList, free) && NullElsewhere(ppLink, free)
    }

    ghost predicate Valid()
      reads this
    {
      && ListOk() && Inv(Snap())
      && Counts16(Snap())
      && |kernDir| == NPTENTRIES
      && (forall i :: 0 <= i < NUPDE ==> !Present(kernDir[i]))
    }

    // ---- boot ----

    /** The machine after mem_init: `memory` is what physical memory happens to hold. */
    constructor (npages: nat, basemem: nat, numAlloc: nat, memory: seq<seq<Entry>>, kern: seq<Entry>)
      requires |memory| == npages && forall f :: 0 <= f < npages ==> |memory[f]| == NPTENTRIES
      requires |kern| == NPTENTRIES && forall i :: 0 <= i < NUPDE ==> !Present(kern[i])
      ensures Valid() && Quiet(Snap())
      ensures forall e :: 0 <= e < NENV ==> envPgdir[e] == NONE
      ensures forall p :: p in free <==> 0 < p < npages && !(basemem <= p < basemem + 96 + numAlloc) && p != 7
      ensures frames == memory && kernDir == kern
    {
      hide Chain, NullElsewhere, Inv;
      var refs, link, head;
      ghost var fs;
      refs, link, head, fs := PageInit(npages, basemem, numAlloc);
      ppRef, ppLink, pageFreeList, free := refs, link, head, fs;
      kernDir := kern;
      frames := memory;
      envPgdir := seq(NENV, _ => NONE);
      reserved := set p | 0 <= p < npages && BootUsed(p, basemem, numAlloc);
      held, pins, roles := {}, multiset{}, map[];
      new;
      ChainHead(ppLink, pageFreeList, free);
      BootInv(Snap());
    }

    /** boot_map_region takes a page for one of the kernel's own page tables; the page
        is no longer one that user mappings can name. */
    method BootTable() returns (pp: int)
      requires Valid() && Quiet(Snap())
      modifies this
      ensures Valid() && Quiet(Snap()) && Sized(old(Snap())) && Sized(Snap())
      ensures pp == NONE <==> old(free) == []
      ensures pp == NONE ==> Snap() == old(Snap())
      ensures pp != NONE ==> TookPage(old(Snap()), Snap()) && pp == old(free)[0] && ppRef[pp] == 1
    {
      hide Inv, Chain, SameMaps, SameView;
      ghost var m := Snap();
      SameMapsRefl(m);
      pp := PageAlloc(true);
      if pp != NONE {
        HeldFacts(m);
        ReserveStep(Take(m, true), pp);
        SameMapsTrans(m, Take(m, true), Reserve(Take(m, true), pp));
        ppRef := ppRef[pp := ppRef[pp] + 1];
        held, reserved := held - {pp}, reserved + {pp};
      }
    }

    // ---- page_alloc, page_free, page_decref ----

    method PageAlloc(zero: bool) returns (pp: int)
      requires Valid()
      modifies this
      ensures Valid()
      ensures pp == NONE <==> old(free) == []
      ensures pp == NONE ==> Snap() == old(Snap())
      ensures pp != NONE ==> pp == old(free)[0] && 0 <= pp < |frames| && Snap() == Take(old(Snap()), zero)
    {
      hide Inv, Chain, SameView;
      ChainHead(ppLink, pageFreeList, free);
      if pageFreeList == NONE {
        return NONE;
      }
      pp := pageFreeList;
      ChainPop(ppLink, pageFreeList, free, NONE);
      NullAfterPop(ppLink, free);
      TakeStep(Snap(), zero);
      pageFreeList := ppLink[pp];
      ppLink := ppLink[pp := NONE];
      free, held := free[1..], held + {pp};
      if zero {
        frames := frames[pp := Blank()];
      }
      assert frames == old(frames)[pp := Cleared(old(frames[pp]), zero)];
      assert Snap() == Take(old(Snap()), zero);
    }

    method PageFree(pp: nat)
      requires ListOk()
      requires pp < |ppRef| && ppRef[pp] == 0 && ppLink[pp] == NONE && pp !in free   // otherwise panic
      modifies this`ppLink, this`pageFreeList, this`free
      ensures ListOk() && Snap() == old(Snap()).(free := [pp] + old(free))
    {
      ChainPush(ppLink, pageFreeList, free, pp);
      NullAfterPush(ppLink, free, pp, pageFreeList);
      ppLink := ppLink[pp := pageFreeList];
      pageFreeList := pp;
      free := [pp] + free;
    }

    method PageDecref(pp: nat)
      requires ListOk() && pp < |ppRef| && pp !in free
      modifies this`ppRef, this`ppLink, this`pageFreeList, this`free
      ensures ListOk() && Snap() == Decref(old(Snap()), pp)
    {
      ppRef := ppRef[pp := if ppRef[pp] == 0 then MAXREF else ppRef[pp] - 1];
      if ppRef[pp] == 0 {
        PageFree(pp);
      }
    }

    // ---- the page table walk ----

    /** The page table word for page `v`: frame `t`, index `j`. */
    method PgdirWalk(e: nat, v: nat, create: bool) returns (found: bool, t: nat, j: nat)
      requires Valid() && Live(Snap(), e) && v < NUPAGES
      modifies this
      ensures Valid()
      ensures var m, i := old(Snap()), v / NPTENTRIES;
              if Present(PdeAt(m, e, i)) || !create || m.free == [] then
                Snap() == m && found == Present(PdeAt(m, e, i))
              else
                Snap() == AddTable(Take(m, true), e, i, m.free[0]) && found
      ensures found ==> Present(PdeAt(Snap(), e, v / NPTENTRIES))
                        && t == PdeAt(Snap(), e, v / NPTENTRIES).ppn < |frames| && j == v % NPTENTRIES
    {
      hide Inv, Chain, SameView, OnePdeView;
      var i := v / NPTENTRIES;
      TableInRange(Snap(), e, i);
      var d := envPgdir[e];
      var pde := frames[d][i];
      t, j := 0, v % NPTENTRIES;
      if !Present(pde) {
        if !create {
          return false, t, j;
        }
        var pg := PageAlloc(true);
        if pg == NONE {
          return false, t, j;
        }
        ghost var m := Snap();
        TakenFacts(old(Snap()), e, i);
        NewTableStep(m, e, i, pg);
        ppRef := ppRef[pg := ppRef[pg] + 1];
        frames := frames[d := frames[d][i := Entry(pg, NEWPDE)]];
        held, roles := held - {pg}, roles[pg := TableOf(e, i)];
        assert Snap() == AddTable(m, e, i, pg);
        TableInRange(Snap(), e, i);
      }
      t := frames[d][i].ppn;
      found := true;
    }

    /** The page mapped at page `v`, and where its entry is. */
    method PageLookup(e: nat, v: nat) returns (pp: int, t: nat, j: nat)
      requires Walkable(Snap(), e, v)
      ensures pp == match MapAt(Snap(), e, v) { case Some(x) => x.ppn case None => NONE }
      ensures pp != NONE ==> t == PdeAt(Snap(), e, v / NPTENTRIES).ppn < |frames| && j == v % NPTENTRIES
                             && frames[t][j] == PteAt(Snap(), e, v)
    {
      var pde := frames[envPgdir[e]][v / NPTENTRIES];
      pp, t, j := NONE, 0, v % NPTENTRIES;
      if Present(pde) {
        t := pde.ppn;
        if Present(frames[t][j]) {
          pp := frames[t][j].ppn;
        }
      }
    }

    /** Unmap page `v`, whatever the counts are. */
    method PageRemove(e: nat, v: nat)
      requires ListOk() && Walkable(Snap(), e, v)
      requires MapAt(Snap(), e, v).Some? ==> MapAt(Snap(), e, v).value.ppn < |ppRef| && MapAt(Snap(), e, v).value.ppn !in free
      modifies this`ppRef, this`ppLink, this`pageFreeList, this`frames, this`free
      ensures ListOk() && Snap() == Unmap(old(Snap()), e, v)
      ensures old(Valid()) ==> Valid()
    {
      hide Inv, Chain, NullElsewhere, MapsBut;
      if Valid() {
        UnmapStep(Snap(), e, v);
      }
      var pp, t, j := PageLookup(e, v);
      if pp == NONE {
        return;
      }
      PageDecref(pp);
      frames := frames[t := frames[t][j := ZERO]];
    }

    /** page_insert counts the new reference first and then removes what was mapped. */
    method CountAndClear(e: nat, pp: nat, v: nat, t: nat, j: nat)
      requires Valid() && Insertable(Snap(), e, v, pp)
      requires t == PdeAt(Snap(), e, v / NPTENTRIES).ppn && j == v % NPTENTRIES
      modifies this
      ensures ListOk() && Snap() == Wrapped(Unmap(Pin(old(Snap()), pp), e, v))
    {
      hide Inv, Chain, NullElsewhere, MapsBut, SameMaps, Unmap;
      ghost var m := Snap();
      TableInRange(m, e, v / NPTENTRIES);
      MappedOnce(m, e, v, pp);
      UnmapAbsent(Wrapped(Pin(m, pp)), e, v);
      UnmapWrapped(m, e, v, pp);
      ppRef := ppRef[pp := (ppRef[pp] + 1) % (MAXREF + 1)];
      held, pins := held - {pp}, pins + multiset{pp};
      assert Snap() == Wrapped(Pin(m, pp));
      if Present(frames[t][j]) {
        PageRemove(e, v);
      }
    }

    /** The rest of page_insert once its page table word, `t` and `j`, is known. The machine
        is valid afterwards exactly if the count did not wrap. */
    method InsertEntry(e: nat, pp: nat, v: nat, perm: Bits, t: nat, j: nat)
      requires Valid() && Insertable(Snap(), e, v, pp)
      requires t == PdeAt(Snap(), e, v / NPTENTRIES).ppn && j == v % NPTENTRIES
      modifies this
      ensures ListOk() && Snap() == Wrapped(Inserted(old(Snap()), e, v, pp, perm))
      ensures Valid() <==> old(Countable(Snap(), e, v, pp))
    {
      hide Inv, Chain, NullElsewhere, MapsBut, SameMaps, Inserted, Unmap, Countable;
      ghost var m := Snap();
      TableInRange(m, e, v / NPTENTRIES);
      InsertTail(m, e, v, pp, perm);
      InsertedStores(m, e, v, pp, perm, t, j);
      InsertExact(m, e, v, pp, perm);
      CountAndClear(e, pp, v, t, j);
      frames := frames[t := frames[t][j := Entry(pp, perm + {P})]];
      var d, i := envPgdir[e], v / NPTENTRIES;
      frames := frames[d := frames[d][i := Entry(frames[d][i].ppn, frames[d][i].flags + (perm + {P}))]];
      pins := m.pins;
      assert Snap() == Wrapped(Inserted(m, e, v, pp, perm));
    }

    /** Map page `pp` at page `v` of environment `e`. */
    method PageInsert(e: nat, pp: nat, v: nat, perm: Bits) returns (ok: bool)
      requires Valid() && Live(Snap(), e) && v < NUPAGES
      requires pp < |ppRef| && pp !in reserved && pp !in roles
      requires pp in held || ppRef[pp] > 0
      modifies this
      ensures ListOk() && Sized(Snap())
      ensures Valid() <==> !ok || old(Countable(Snap(), e, v, pp))
      ensures ok <==> old(Present(PdeAt(Snap(), e, v / NPTENTRIES)) || free != [])
      ensures !ok ==> Snap() == old(Snap())
      ensures ok ==> MapsBut(old(Snap()), Snap(), e, v) && MapAt(Snap(), e, v) == Some(Entry(pp, perm + {P}))
      ensures ok ==> InsertCounts(old(Snap()), Snap(), e, v, pp)
      ensures DataKept(old(Snap()), Snap()) && (ok ==> perm + {P} <= PdeAt(Snap(), e, v / NPTENTRIES).flags)
      ensures pp !in roles
      ensures held == (if ok then old(held) - {pp} else old(held))
      ensures pins == old(pins) && reserved == old(reserved) && envPgdir == old(envPgdir)
    {
      hide Inv, Chain, NullElsewhere, MapsBut, SameMaps, Inserted, InsertCounts, AddTable, Take, DataKept, Countable;
      ghost var m0 := Snap();
      TableInRange(m0, e, v / NPTENTRIES);
      if free != [] {
        TakenFacts(m0, e, v / NPTENTRIES);
      }
      DataKeptRefl(m0);
      var found, t, j := PgdirWalk(e, v, true);
      if !found {
        return false;
      }
      ghost var m1 := Snap();
      WalkFacts(m0, m1, e, v / NPTENTRIES, pp);
      SameCountable(m0, m1, e, v, pp);
      InsertEntry(e, pp, v, perm, t, j);
      InsertResult(m0, m1, Snap(), e, v, pp, perm);
      ok := true;
    }

    // ---- address spaces of environments ----

    /** Give environment `e` a directory that shares the kernel's upper part. */
    method EnvSetupVm(e: nat) returns (ok: bool)
      requires Valid() && e < NENV && envPgdir[e] == NONE
      modifies this
      ensures Valid()
      ensures ok <==> old(free) != []
      ensures !ok ==> Snap() == old(Snap())
      ensures Sized(old(Snap())) && Sized(Snap()) && (ok ==> GotDirectory(old(Snap()), Snap(), e, kernDir))
      ensures held == old(held) && pins == old(pins) && reserved == old(reserved)
    {
      hide Inv, Chain, SameMaps, SameView, OneDirView;
      ghost var m0 := Snap();
      InvSized(m0);
      var p := PageAlloc(true);
      if p == NONE {
        return false;
      }
      var dir := kernDir[PDX_UVPT := Entry(p, {P, U})];      // UVPT maps the directory itself
      SetupFacts(m0, e, dir);
      frames := frames[p := dir];
      ppRef := ppRef[p := ppRef[p] + 1];
      envPgdir := envPgdir[e := p];
      held, roles := held - {p}, roles[p := DirOf(e)];
      assert Snap() == AddDir(DataWrite(Take(m0, true), p, dir), e, p);
      ok := true;
    }

    /** Unmap every page under directory entry `pdeno` and free its page table. */
    method EnvFreeTable(e: nat, pdeno: nat, ghost m0: Mem)
      requires Valid() && Sized(m0) && Sized(Snap()) && Live(Snap(), e) && pdeno < NUPDE
      requires Present(PdeAt(Snap(), e, pdeno)) && PdeAt(Snap(), e, pdeno).ppn < |frames|
      requires Freeing(m0, Snap(), e, pdeno, pdeno * NPTENTRIES)
      modifies this`ppRef, this`ppLink, this`pageFreeList, this`frames, this`free, this`roles
      ensures Valid() && Sized(Snap()) && Freeing(m0, Snap(), e, pdeno + 1, (pdeno + 1) * NPTENTRIES)
    {
      hide Inv, Chain, Freeing, SameMaps, OnePdeView, Unmap, DropTable;
      var d := envPgdir[e];
      var pt := frames[d][pdeno].ppn;
      var pteno := 0;
      while pteno < NPTENTRIES
        invariant 0 <= pteno <= NPTENTRIES
        invariant Valid() && Sized(Snap()) && Freeing(m0, Snap(), e, pdeno, pdeno * NPTENTRIES + pteno)
        invariant Present(PdeAt(Snap(), e, pdeno)) && PdeAt(Snap(), e, pdeno).ppn == pt < |frames|
      {
        ghost var m1 := Snap();
        ghost var v := pdeno * NPTENTRIES + pteno;
        UnmapStep(m1, e, v);
        FreeingUnmap(m0, m1, e, pdeno, v);
        if Present(frames[pt][pteno]) {
          PageRemove(e, pdeno * NPTENTRIES + pteno);
        }
        assert Snap() == Unmap(m1, e, v) by { UnmapAbsent(m1, e, v); }
        pteno := pteno + 1;
      }
      ghost var m2 := Snap();
      FreeingTable(m0, m2, e, pdeno);
      frames := frames[d := frames[d][pdeno := ZERO]];
      roles := roles - {pt};
      PageDecref(pt);
      assert Snap() == DropTable(m2, e, pdeno) by { DropTableIs(m2, Snap(), e, pdeno); }
    }

    /** Take environment `e`'s address space apart. */
    method EnvFree(e: nat)
      requires Valid() && Live(Snap(), e) && pins == multiset{}
      modifies this
      ensures Valid()
      ensures envPgdir == old(envPgdir)[e := NONE]
      ensures held == old(held) && pins == old(pins) && reserved == old(reserved)
      ensures Sized(old(Snap())) && Sized(Snap()) && OthersKept(old(Snap()), Snap(), e)
      ensures EnvFreed(old(Snap()), Snap(), e) && DataKept(old(Snap()), Snap())
    {
      hide Inv, Chain, Freeing, DropDir, EnvFreed, DataKept;
      ghost var m0 := Snap();
      InvSized(m0);
      FreeingStart(m0, e);
      var pdeno := 0;
      while pdeno < NUPDE
        invariant 0 <= pdeno <= NUPDE
        invariant Valid() && Sized(Snap()) && Freeing(m0, Snap(), e, pdeno, pdeno * NPTENTRIES)
        invariant envPgdir == old(envPgdir)
        invariant held == old(held) && pins == old(pins) && reserved == old(reserved)
      {
        LiveFacts(m0, Snap(), e, pdeno);
        if Present(frames[envPgdir[e]][pdeno]) {
          EnvFreeTable(e, pdeno, m0);
        } else {
          FreeingSkip(m0, Snap(), e, pdeno);
        }
        pdeno := pdeno + 1;
      }
      ghost var m3 := Snap();
      FreeingDir(m0, m3, e);
      var d := envPgdir[e];
      envPgdir := envPgdir[e := NONE];
      roles := roles - {d};
      PageDecref(d);
      assert Snap() == DropDir(m3, e) by { DropDirIs(m3, Snap(), e); }
    }

    // ---- page system calls; `e` is what envid2env found ----

    method SysPageAlloc(e: Option<nat>, va: nat, perm: Bits) returns (r: Outcome)
      requires Valid() && Quiet(Snap()) && (e.Some? ==> Live(Snap(), e.value))
      modifies this
      ensures Valid() && Quiet(Snap()) && envPgdir == old(envPgdir)
      ensures r == Inval <==> va >= UTOP || va % PGSIZE != 0 || !(perm <= PTE_SYSCALL)
      ensures r == BadEnv <==> r != Inval && e == None
      ensures r == Ok <==> VaOk(va) && perm <= PTE_SYSCALL && e.Some? && PagesFor(old(Snap()), e.value, va / PGSIZE)
      ensures r != Ok ==> Untouched(old(Snap()), Snap())
      ensures r == Ok ==> NewPage(old(Snap()), Snap(), e.value, va / PGSIZE, perm)
      ensures r in {Ok, Inval, BadEnv, NoMem}
    {
      hide Inv, Chain, SameMaps, MapsBut, SameView, InsertCounts, DataKept;
      SameMapsRefl(Snap());
      if va >= UTOP || va % PGSIZE != 0 || !(perm <= PTE_SYSCALL) {
        return Inval;
      }
      if e == None {
        return BadEnv;
      }
      ghost var m0 := Snap();
      var pp := PageAlloc(true);
      if pp == NONE {
        return NoMem;
      }
      ghost var m1 := Snap();
      HeldFacts(m0);
      TakenFacts(m0, e.value, va / PGSIZE / NPTENTRIES);
      var ok := PageInsert(e.value, pp, va / PGSIZE, perm);
      if !ok {
        GiveBackFacts(m1, pp);
        PageFree(pp);
        held := held - {pp};
        SameMapsTrans(m0, m1, Snap());
        assert free == m0.free && held == m0.held;
        return NoMem;
      }
      InvSized(Snap());
      MapsButFromSame(m0, m1, Snap(), e.value, va / PGSIZE);
      FreshPageKept(m0, m1, Snap(), pp);
      r := Ok;
    }

    /** Afterwards the machine is valid exactly if the page's count did not wrap. */
    method SysPageMap(src: Option<nat>, srcva: nat, dst: Option<nat>, dstva: nat, perm: Bits) returns (r: Outcome)
      requires Valid() && Quiet(Snap())
      requires (src.Some? ==> Live(Snap(), src.value)) && (dst.Some? ==> Live(Snap(), dst.value))
      modifies this
      ensures ListOk() && Sized(Snap()) && envPgdir == old(envPgdir) && held == {} && pins == multiset{}
      ensures r != Ok ==> Snap() == old(Snap())
      ensures r == BadEnv <==> VaOk(srcva) && VaOk(dstva) && perm <= PTE_SYSCALL && (src == None || dst == None)
      ensures r == Ok <==>
                && VaOk(srcva) && VaOk(dstva) && perm <= PTE_SYSCALL && src.Some? && dst.Some?
                && Mappable(old(Snap()), src.value, srcva / PGSIZE, dst.value, dstva / PGSIZE, perm)
      ensures r == Ok ==> CopiedMapping(old(Snap()), Snap(), src.value, srcva / PGSIZE, dst.value, dstva / PGSIZE, perm)
      ensures r == Ok && W in perm ==> W in MapAt(old(Snap()), src.value, srcva / PGSIZE).value.flags
      ensures Valid() <==>
                (r == Ok ==> !Wraps(old(Snap()), src.value, srcva / PGSIZE, dst.value, dstva / PGSIZE))
      ensures r in {Ok, BadEnv, Panic}
    {
      hide Inv, Chain, NullElsewhere, SameMaps, MapsBut, InsertCounts, DataKept;
      InvSized(Snap());
      if srcva >= UTOP || srcva % PGSIZE != 0 || dstva >= UTOP || dstva % PGSIZE != 0 {
        return Panic;
      }
      if !(perm <= PTE_SYSCALL) {
        return Panic;
      }
      if src == None || dst == None {
        return BadEnv;
      }
      RemoveFacts(Snap(), src.value, srcva / PGSIZE);
      var pp, t, j := PageLookup(src.value, srcva / PGSIZE);
      if pp == NONE || (W in perm && W !in frames[t][j].flags) {
        return Panic;
      }
      MappedFacts(Snap(), src.value, srcva / PGSIZE);
      var ok := PageInsert(dst.value, pp, dstva / PGSIZE, perm);
      if !ok {
        return Panic;
      }
      r := Ok;
    }

    method SysPageUnmap(e: Option<nat>, va: nat) returns (r: Outcome)
      requires Valid() && Quiet(Snap()) && (e.Some? ==> Live(Snap(), e.value))
      modifies this
      ensures Valid() && Quiet(Snap()) && envPgdir == old(envPgdir)
      ensures r == if !VaOk(va) then Inval else if e == None then BadEnv else Ok
      ensures r != Ok ==> Snap() == old(Snap())
      ensures r == Ok ==> LostMapping(old(Snap()), Snap(), e.value, va / PGSIZE)
    {
      hide Inv, Chain, MapsBut, Unmap, DataKept;
      InvSized(Snap());
      DataKeptRefl(Snap());
      if va >= UTOP || va % PGSIZE != 0 {
        return Inval;
      }
      if e == None {
        return BadEnv;
      }
      UnmapStep(Snap(), e.value, va / PGSIZE);
      UnmapKeeps(Snap(), e.value, va / PGSIZE);
      UnmapKeepsData(Snap(), e.value, va / PGSIZE);
      RemoveFacts(Snap(), e.value, va / PGSIZE);
      PageRemove(e.value, va / PGSIZE);
      r := Ok;
    }

    /** A user program stores a word through a writable mapping. */
    method UserStore(e: nat, v: nat, k: nat, word: Entry) returns (ok: bool)
      requires Valid() && e < NENV && v < NUPAGES && k < NPTENTRIES
      modifies this`frames
      ensures Valid() && SameMaps(old(Snap()), Snap())
      ensures ok <==> CanWrite(old(Snap()), e, v)
      ensures if ok then StoredWord(old(Snap()), Snap(), e, v, k, word) else Snap() == old(Snap())
    {
      hide Inv, Chain, NullElsewhere, SameMaps, SameView;
      ghost var m := Snap();
      SameMapsRefl(m);
      if envPgdir[e] == NONE {
        return false;
      }
      var pde := frames[envPgdir[e]][v / NPTENTRIES];
      TableInRange(m, e, v / NPTENTRIES);
      if !Wide(pde) {
        return false;
      }
      var pte := frames[pde.ppn][v % NPTENTRIES];
      if !Wide(pte) {
        return false;
      }
      MappedFacts(m, e, v);
      DataWriteStep(m, pte.ppn, frames[pte.ppn][k := word]);
      frames := frames[pte.ppn := frames[pte.ppn][k := word]];
      ok := true;
    }

    // ---- runs ----

    /** A run of page and environment operations, each on whatever environments are live at
        that point; `ms` are its states. It goes on until a mapping would wrap a count. */
    method Run(ops: seq<PageOp>) returns (done: nat, ghost ms: seq<Mem>)
      requires Valid() && Quiet(Snap())
      modifies this
      ensures Valid() && done <= |ops| && PageRun(ms, ops[..done], kernDir)
      ensures ms[0] == old(Snap()) && ms[done] == Snap()
      ensures done < |ops| ==> WouldWrap(Snap(), ops[done])
    {
      hide Inv, Quiet, Chain, NullElsewhere, Did;
      InvSized(Snap());
      done, ms := 0, [Snap()];
      while done < |ops|
        invariant done <= |ops| && Valid() && PageRun(ms, ops[..done], kernDir)
        invariant ms[0] == old(Snap()) && ms[done] == Snap()
      {
        var stop := Perform(ops[done]);
        if stop {
          return;
        }
        PageRunMore(ms, ops, kernDir, done, Snap());
        done, ms := done + 1, ms + [Snap()];
      }
    }

    /** One operation of a run; not done when it would wrap a count. */
    method Perform(op: PageOp) returns (stop: bool)
      requires Valid() && Quiet(Snap())
      modifies this
      ensures Valid() && Quiet(Snap()) && Sized(old(Snap())) && Sized(Snap())
      ensures stop <==> WouldWrap(old(Snap()), op)
      ensures if stop then Snap() == old(Snap()) else Did(old(Snap()), op, Snap(), kernDir)
    {
      hide Inv, Chain, NullElsewhere, SameMaps, MapsBut, InsertCounts, EnvFreed, DataKept;
      InvSized(Snap());
      QuietFacts(Snap());
      stop := false;
      match op {
        case NewEnv(e) => if e < NENV && envPgdir[e] == NONE { var _ := EnvSetupVm(e); }
        case FreeEnv(e) => if e < NENV && envPgdir[e] != NONE { EnvFree(e); }
        case AllocPage(e, va, perm) => var e' := Resolve(e); var _ := SysPageAlloc(e', va, perm);
        case MapPage(e1, va1, e2, va2, perm) =>
          var e1' := Resolve(e1);
          var e2' := Resolve(e2);
          stop := AtLimit(e1', va1, e2', va2, perm);
          if !stop {
            var _ := SysPageMap(e1', va1, e2', va2, perm);
          }
        case UnmapPage(e, va) => var e' := Resolve(e); var _ := SysPageUnmap(e', va);
        case StoreWord(e, v, k, w) => if e < NENV && v < NUPAGES && k < NPTENTRIES { var _ := UserStore(e, v, k, w); }
        case KernelTable => var _ := BootTable();
      }
      InvSized(Snap());
    }

    /** Would sys_page_map count a reference that its page has no room for? */
    method AtLimit(src: Option<nat>, srcva: nat, dst: Option<nat>, dstva: nat, perm: Bits) returns (r: bool)
      requires Valid() && (src.Some? ==> Live(Snap(), src.value)) && (dst.Some? ==> Live(Snap(), dst.value))
      ensures r <==>
                && VaOk(srcva) && VaOk(dstva) && perm <= PTE_SYSCALL && src.Some? && dst.Some?
                && Sized(Snap()) && Mappable(Snap(), src.value, srcva / PGSIZE, dst.value, dstva / PGSIZE, perm)
                && Wraps(Snap(), src.value, srcva / PGSIZE, dst.value, dstva / PGSIZE)
    {
      hide Inv, Chain, NullElsewhere;
      InvSized(Snap());
      if !(VaOk(srcva) && VaOk(dstva) && perm <= PTE_SYSCALL && src.Some? && dst.Some?) {
        return false;
      }
      RemoveFacts(Snap(), src.value, srcva / PGSIZE);
      RemoveFacts(Snap(), dst.value, dstva / PGSIZE);
      var pp, t, j := PageLookup(src.value, srcva / PGSIZE);
      var qq, _, _ := PageLookup(dst.value, dstva / PGSIZE);
      if pp == NONE {
        return false;
      }
      MappedFacts(Snap(), src.value, srcva / PGSIZE);
      ChainHead(ppLink, pageFreeList, free);
      r := (W in perm ==> W in frames[t][j].flags) && ppRef[pp] == MAXREF && pp != qq
           && (Present(frames[envPgdir[dst.value]][dstva / PGSIZE / NPTENTRIES]) || pageFreeList != NONE);
    }

    method Resolve(e: nat) returns (r: Option<nat>)
      requires |envPgdir| == NENV
      ensures r == if Live(Snap(), e) then Some(e) else None
    {
      r := if e < NENV && envPgdir[e] != NONE then Some(e) else None;
    }
  }

  // ---- what the operations do ----

  /** Nothing changed, except that the page at the head of the free list may be cleared. */
  ghost predicate Untouched(m: Mem, m': Mem) {
    m' == m || (m.free != [] && 0 <= m.free[0] < |m.frames| && m' == DataWrite(m, m.free[0], Blank()))
  }

  /** A zeroed page from the free list is mapped at page `v` of `e`, and nothing else
      changes for any environment. */
  ghost predicate NewPage(m: Mem, m': Mem, e: nat, v: nat, perm: Bits)
    requires Sized(m) && Sized(m') && e < NENV && v < NUPAGES
  {
    && m'.dirs == m.dirs && MapsBut(m, m', e, v)
    && m.free != [] && 0 <= m.free[0] < |m.frames| && m.free[0] !in m'.roles
    && MapAt(m', e, v) == Some(Entry(m.free[0], perm + {P}))
    && |m'.frames| == |m.frames| && m'.frames[m.free[0]] == Blank() && DataKept(DataWrite(m, m.free[0], Blank()), m')
  }

  /** Page `dv` of `dst` maps what page `sv` of `src` did, and nothing else changes for any
      environment. */
  ghost predicate CopiedMapping(m: Mem, m': Mem, src: nat, sv: nat, dst: nat, dv: nat, perm: Bits)
    requires Sized(m) && Sized(m') && src < NENV && dst < NENV && sv < NUPAGES && dv < NUPAGES
  {
    && m'.dirs == m.dirs && MapsBut(m, m', dst, dv) && MapAt(m, src, sv).Some?
    && MapAt(m', dst, dv) == Some(Entry(MapAt(m, src, sv).value.ppn, perm + {P}))
    && InsertCounts(m, m', dst, dv, MapAt(m, src, sv).value.ppn) && DataKept(m, m')
  }

  ghost predicate LostMapping(m: Mem, m': Mem, e: nat, v: nat)
    requires Sized(m) && Sized(m') && e < NENV && v < NUPAGES
  {
    m'.dirs == m.dirs && MapsBut(m, m', e, v) && MapAt(m', e, v) == None && DataKept(m, m')
  }

  /** The page at `sv` of `src` has as many references as 16 bits can count, and the
      destination does not map it already. */
  ghost predicate Wraps(m: Mem, src: nat, sv: nat, dst: nat, dv: nat)
    requires Sized(m) && src < NENV && dst < NENV && sv < NUPAGES && dv < NUPAGES
  {
    MapAt(m, src, sv).Some? && MapAt(m, src, sv).value.ppn < |m.refs| && !Countable(m, dst, dv, MapAt(m, src, sv).value.ppn)
  }

  ghost predicate WouldWrap(m: Mem, op: PageOp) {
    && op.MapPage? && Sized(m) && Live(m, op.src) && Live(m, op.dst)
    && VaOk(op.srcva) && VaOk(op.dstva) && op.perm <= PTE_SYSCALL
    && Mappable(m, op.src, op.srcva / PGSIZE, op.dst, op.dstva / PGSIZE, op.perm)
    && Wraps(m, op.src, op.srcva / PGSIZE, op.dst, op.dstva / PGSIZE)
  }

  /** The effect of each operation, with the exact condition under which it has one. */
  ghost predicate Did(m: Mem, op: PageOp, m': Mem, kern: seq<Entry>)
    requires Sized(m) && Sized(m')
  {
    match op
    case NewEnv(e) =>
      if e < NENV && m.dirs[e] == NONE && m.free != []
      then GotDirectory(m, m', e, kern) else m' == m
    case FreeEnv(e) =>
      if Live(m, e)
      then m'.dirs == m.dirs[e := NONE] && OthersKept(m, m', e) && EnvFreed(m, m', e) && DataKept(m, m') else m' == m
    case AllocPage(e, va, perm) =>
      if VaOk(va) && perm <= PTE_SYSCALL && Live(m, e) && PagesFor(m, e, va / PGSIZE)
      then NewPage(m, m', e, va / PGSIZE, perm) else Untouched(m, m')
    case MapPage(src, srcva, dst, dstva, perm) =>
      if VaOk(srcva) && VaOk(dstva) && perm <= PTE_SYSCALL && Live(m, src) && Live(m, dst)
         && Mappable(m, src, srcva / PGSIZE, dst, dstva / PGSIZE, perm)
      then CopiedMapping(m, m', src, srcva / PGSIZE, dst, dstva / PGSIZE, perm) else m' == m
    case UnmapPage(e, va) =>
      if VaOk(va) && Live(m, e) then LostMapping(m, m', e, va / PGSIZE) else m' == m
    case StoreWord(e, v, k, word) =>
      if e < NENV && v < NUPAGES && k < NPTENTRIES && CanWrite(m, e, v) then StoredWord(m, m', e, v, k, word) else m' == m
    case KernelTable =>
      if m.free != [] then TookPage(m, m') else m' == m
  }

  ghost predicate GotDirectory(m: Mem, m': Mem, e: nat, kern: seq<Entry>)
    requires Sized(m) && Sized(m') && m.free != [] && e < NENV
  {
    var p := m.free[0];
    && m'.dirs == m.dirs[e := p] && SameMaps(m, m') && |kern| == NPTENTRIES
    && 0 <= p < |m.frames| && m'.frames == m.frames[p := kern[PDX_UVPT := Entry(p, {P, U})]]
  }

  ghost predicate OthersKept(m: Mem, m': Mem, e: nat)
    requires Sized(m) && Sized(m')
  {
    forall e', v :: 0 <= e' < NENV && 0 <= v < NUPAGES && e' != e ==> MapAt(m', e', v) == MapAt(m, e', v)
  }

  ghost predicate StoredWord(m: Mem, m': Mem, e: nat, v: nat, k: nat, word: Entry)
    requires Sized(m) && e < NENV && v < NUPAGES && k < NPTENTRIES
  {
    var p := PteAt(m, e, v).ppn;
    p < |m.frames| && p !in m.roles && m' == DataWrite(m, p, m.frames[p][k := word])
  }

  ghost predicate TookPage(m: Mem, m': Mem)
    requires Sized(m) && Sized(m') && m.free != []
  {
    && m'.dirs == m.dirs && SameMaps(m, m') && 0 <= m.free[0] < |m.frames|
    && m'.frames == m.frames[m.free[0] := Blank()] && m'.reserved == m.reserved + {m.free[0]}
  }

  // ---- runs ----

  /** `ms` are the states of a run of `ops`; between operations nothing is in hand, every
      count is exact and the free list is exact. */
  ghost predicate PageRun(ms: seq<Mem>, ops: seq<PageOp>, kern: seq<Entry>) {
    && |ms| == |ops| + 1
    && (forall i :: 0 <= i < |ms| ==> Quiet(ms[i]) && Sized(ms[i]))
    && forall i :: 0 <= i < |ops| ==> Did(ms[i], ops[i], ms[i + 1], kern)
  }

  lemma PageRunMore(ms: seq<Mem>, ops: seq<PageOp>, kern: seq<Entry>, n: nat, m': Mem)
    requires n < |ops| && PageRun(ms, ops[..n], kern) && Quiet(m') && Sized(m') && Did(ms[n], ops[n], m', kern)
    ensures PageRun(ms + [m'], ops[..n + 1], kern)
  {
    hide Quiet, Sized, Did;
  }

  lemma QuietFacts(m: Mem)
    requires Quiet(m)
    ensures m.held == {} && m.pins == multiset{}
  {
  }

  // ---- taking an address space apart ----

  /** The reference sites that belong to environment `e`. */
  ghost predicate SiteOf(s: Site, e: nat) {
    s.env == e
  }

  /** The references to `p` that environment `e` holds: its mappings of `p`, its use of
      `p` as a page table, its use of `p` as its directory. */
  ghost function EnvRefs(m: Mem, e: nat, p: int): set<Site>
    requires Sized(m)
  {
    set s | s in RefSites(m, p) && SiteOf(s, e)
  }

  /** Every count fell by what `e` held, exactly the pages nobody else refers to were
      freed, and these include all of `e`'s page tables and its directory. */
  ghost predicate EnvFreed(m: Mem, m': Mem, e: nat)
    requires Sized(m) && Sized(m') && e < NENV
  {
    && |m'.refs| == |m.refs|
    && (forall p :: 0 <= p < |m.refs| && p !in m.reserved ==> m'.refs[p] == m.refs[p] - |EnvRefs(m, e, p)|)
    && (forall p :: p in m'.free <==>
          p in m.free
          || (0 <= p < |m.refs| && p !in m.reserved && EnvRefs(m, e, p) != {} && EnvRefs(m, e, p) == RefSites(m, p)))
    && (forall i :: 0 <= i < NUPDE && Present(PdeAt(m, e, i)) ==> PdeAt(m, e, i).ppn in m'.free)
    && m.dirs[e] in m'.free
  }

  /** Part way through env_free: of environment `e` the directory entries below `i` and
      the pages below `n` are gone, the rest is as it was, and nothing else changed. */
  ghost predicate Freeing(m0: Mem, m: Mem, e: nat, i: nat, n: nat)
    requires Sized(m0) && Sized(m)
  {
    && m.dirs == m0.dirs && |m.refs| == |m0.refs|
    && (forall e', k :: 0 <= e' < NENV && 0 <= k < NUPDE && (e' != e || k >= i) ==> PdeAt(m, e', k) == PdeAt(m0, e', k))
    && (forall k :: 0 <= k < i && k < NUPDE && e < NENV ==> !Present(PdeAt(m, e, k)))
    && (forall e', v :: 0 <= e' < NENV && 0 <= v < NUPAGES && (e' != e || v >= n) ==> MapAt(m, e', v) == MapAt(m0, e', v))
    && (forall v :: 0 <= v < n && v < NUPAGES && e < NENV ==> MapAt(m, e, v) == None)
    && m.roles.Keys <= m0.roles.Keys && DataKept(m0, m)
  }

  lemma InvSized(m: Mem)
    requires Inv(m)
    ensures Sized(m)
  {
  }

  lemma FreeingStart(m: Mem, e: nat)
    requires Sized(m)
    ensures Freeing(m, m, e, 0, 0)
  {
  }

  lemma LiveFacts(m0: Mem, m: Mem, e: nat, i: nat)
    requires Sized(m0) && Live(m0, e) && Inv(m) && Sized(m) && m.dirs == m0.dirs && i < NUPDE
    ensures Live(m, e) && e < NENV && 0 <= m.dirs[e] < |m.frames| && PdeAt(m, e, i) == m.frames[m.dirs[e]][i]
    ensures Present(PdeAt(m, e, i)) ==> PdeAt(m, e, i).ppn < |m.frames|
  {
    TableInRange(m, e, i);
  }

  lemma FreeingUnmap(m0: Mem, m: Mem, e: nat, i: nat, v: nat)
    requires Sized(m0) && Inv(m) && e < NENV && v < NUPAGES && Freeing(m0, m, e, i, v)
    ensures Sized(m) && Sized(Unmap(m, e, v)) && Freeing(m0, Unmap(m, e, v), e, i, v + 1)
    ensures Unmap(m, e, v).held == m.held && Unmap(m, e, v).pins == m.pins && Unmap(m, e, v).reserved == m.reserved
    ensures |Unmap(m, e, v).frames| == |m.frames|
  {
    hide Inv;
    UnmapStep(m, e, v);
    InvSized(m);
    InvSized(Unmap(m, e, v));
    if Present(PteAt(m, e, v)) {
      TableIsRole(m, e, v / NPTENTRIES);
    }
  }

  lemma UnmapAbsent(m: Mem, e: nat, v: nat)
    requires Sized(m) && e < NENV && v < NUPAGES
    ensures !Present(PteAt(m, e, v)) ==> Unmap(m, e, v) == m
  {
  }

  lemma FreeingTable(m0: Mem, m: Mem, e: nat, i: nat)
    requires Sized(m0) && Inv(m) && Live(m, e) && i < NUPDE && Present(PdeAt(m, e, i))
    requires Freeing(m0, m, e, i, i * NPTENTRIES + NPTENTRIES)
    ensures Sized(m)
    ensures var t := PdeAt(m, e, i).ppn; t < |m.refs| && m.refs[t] > 0 && t !in m.free
    ensures var m' := DropTable(m, e, i);
            Inv(m') && Sized(m') && Freeing(m0, m', e, i + 1, (i + 1) * NPTENTRIES)
  {
    hide Inv;
    InvSized(m);
    DropTableStep(m, e, i);
    InvSized(DropTable(m, e, i));
    DirIsRole(m, e);
  }

  lemma DropTableIs(m: Mem, m': Mem, e: nat, i: nat)
    requires Sized(m) && Live(m, e) && i < NUPDE
    requires PdeAt(m, e, i).ppn < |m.refs| && m.refs[PdeAt(m, e, i).ppn] > 0
    requires m' == Decref(SetWord(m, m.dirs[e], i, ZERO).(roles := m.roles - {PdeAt(m, e, i).ppn}), PdeAt(m, e, i).ppn)
    ensures m' == DropTable(m, e, i)
  {
  }

  lemma FreeingSkip(m0: Mem, m: Mem, e: nat, i: nat)
    requires Sized(m0) && Sized(m) && e < NENV && i < NUPDE && !Present(PdeAt(m, e, i))
    requires Freeing(m0, m, e, i, i * NPTENTRIES)
    ensures Freeing(m0, m, e, i + 1, (i + 1) * NPTENTRIES)
  {
  }

  lemma FreeingDir(m0: Mem, m: Mem, e: nat)
    requires Inv(m0) && Inv(m) && Live(m0, e) && Sized(m0) && Sized(m)
    requires m0.pins == m.pins == multiset{} && m.held == m0.held && m.reserved == m0.reserved
    requires Freeing(m0, m, e, NUPDE, NUPAGES)
    ensures 0 <= m.dirs[e] < |m.refs| && m.refs[m.dirs[e]] > 0 && m.dirs[e] !in m.free
    ensures var m' := DropDir(m, e);
            && Inv(m') && Sized(m') && EnvFreed(m0, m', e) && DataKept(m0, m')
            && OthersKept(m0, m', e)
  {
    DropDirStep(m, e);
    var m' := DropDir(m, e);
    forall e', v | 0 <= e' < NENV && 0 <= v < NUPAGES && e' != e ensures MapAt(m', e', v) == MapAt(m0, e', v) {
      assert MapAt(m', e', v) == MapAt(m, e', v);
    }
    forall s | InRange(s) ensures NameAt(m', s) == if SiteOf(s, e) then NONE else NameAt(m0, s) {
      NamesAfter(m0, m, m', e, s);
    }
    FreedCounts(m0, m', e);
  }

  lemma NamesAfter(m0: Mem, m: Mem, m': Mem, e: nat, s: Site)
    requires Sized(m0) && Sized(m) && Sized(m') && Live(m0, e) && InRange(s)
    requires Freeing(m0, m, e, NUPDE, NUPAGES) && OneDirView(m, m', e, NONE) && SameMaps(m, m')
    ensures NameAt(m', s) == if SiteOf(s, e) then NONE else NameAt(m0, s)
  {
    match s {
      case PteSite(e', v) => assert MapAt(m', e', v) == MapAt(m, e', v);
                             assert e' != e ==> MapAt(m, e', v) == MapAt(m0, e', v);
      case PdeSite(e', i) =>
      case DirSite(e') =>
    }
  }

  lemma FreedCounts(m: Mem, m': Mem, e: nat)
    requires Inv(m) && Inv(m') && Live(m, e) && |m'.refs| == |m.refs|
    requires m.pins == m'.pins == multiset{} && m'.held == m.held && m'.reserved == m.reserved
    requires forall s :: InRange(s) ==> NameAt(m', s) == if SiteOf(s, e) then NONE else NameAt(m, s)
    ensures EnvFreed(m, m', e)
  {
    forall p | 0 <= p < |m.refs|
      ensures |RefSites(m', p)| == |RefSites(m, p)| - |EnvRefs(m, e, p)|
      ensures RefSites(m', p) == {} <==> EnvRefs(m, e, p) == RefSites(m, p)
    {
      assert RefSites(m, p) == RefSites(m', p) + EnvRefs(m, e, p);
      assert RefSites(m', p) !! EnvRefs(m, e, p);
    }
    forall i | 0 <= i < NUPDE && Present(PdeAt(m, e, i)) ensures PdeAt(m, e, i).ppn in m'.free {
      TableRefs(m, e, i);
    }
    DirRefs(m, e);
  }

  /** A page table is referred to by its one directory entry and by nothing else. */
  lemma TableRefs(m: Mem, e: nat, i: nat)
    requires Inv(m) && e < NENV && i < NUPDE && Present(PdeAt(m, e, i))
    ensures var t := PdeAt(m, e, i).ppn;
            t < |m.refs| && t !in m.reserved && RefSites(m, t) == {PdeSite(e, i)} == EnvRefs(m, e, t)
  {
    var t := PdeAt(m, e, i).ppn;
    NamedIsCounted(m, PdeSite(e, i));
    assert PdeSite(e, i) in AllSites();
    forall s | s in RefSites(m, t) ensures s == PdeSite(e, i) {
      assert t in m.roles && m.roles[t] == TableOf(e, i);
    }
  }

  /** A directory is referred to by the environment that owns it and by nothing else. */
  lemma DirRefs(m: Mem, e: nat)
    requires Inv(m) && Live(m, e)
    ensures var d := m.dirs[e];
            0 <= d < |m.refs| && d !in m.reserved && RefSites(m, d) == {DirSite(e)} == EnvRefs(m, e, d)
  {
    var d := m.dirs[e];
    NamedIsCounted(m, DirSite(e));
    assert DirSite(e) in AllSites();
    forall s | s in RefSites(m, d) ensures s == DirSite(e) {
      assert d in m.roles && m.roles[d] == DirOf(e);
    }
  }

  lemma DropDirIs(m: Mem, m': Mem, e: nat)
    requires e < |m.dirs| && 0 <= m.dirs[e] < |m.refs| && m.refs[m.dirs[e]] > 0
    requires m' == Decref(m.(dirs := m.dirs[e := NONE], roles := m.roles - {m.dirs[e]}), m.dirs[e])
    ensures m' == DropDir(m, e)
  {
  }

  // ---- boot ----

  /** Pages page_init leaves out: page 0, the I/O hole, the kernel image with its
      early allocations, and the application processors' entry code. */
  predicate BootUsed(p: int, basemem: nat, numAlloc: nat) {
    p == 0 || basemem <= p < basemem + IOPAGES + numAlloc || p == MPENTRY
  }

  /** page_init: every page that the firmware and the kernel image do not use is put on
      the free list with count 0. */
  method PageInit(npages: nat, basemem: nat, numAlloc: nat)
    returns (ppRef: seq<nat>, ppLink: seq<int>, pageFreeList: int, ghost free: seq<int>)
    ensures |ppRef| == |ppLink| == npages && Chain(ppLink, pageFreeList, free) && NullElsewhere(ppLink, free)
    ensures forall p :: p in free <==> 0 < p < npages && !(basemem <= p < basemem + 96 + numAlloc) && p != 7
    ensures forall p :: 0 <= p < npages ==> ppRef[p] == if p in free then 0 else 1
  {
    ppRef, ppLink := seq(npages, _ => 0), seq(npages, _ => NONE);
    pageFreeList, free := NONE, [];
    hide Chain, NullElsewhere;
    ChainIntro(ppLink, pageFreeList, free);
    var i := 0;
    while i < npages
      invariant 0 <= i <= npages && |ppRef| == |ppLink| == npages
      invariant Chain(ppLink, pageFreeList, free) && NullElsewhere(ppLink, free)
      invariant forall p :: p in free <==> 0 <= p < i && !BootUsed(p, basemem, numAlloc)
      invariant forall p :: 0 <= p < i ==> ppRef[p] == if BootUsed(p, basemem, numAlloc) then 1 else 0
    {
      if BootUsed(i, basemem, numAlloc) {
        ppRef := ppRef[i := 1];
      } else {
        ChainPush(ppLink, pageFreeList, free, i);
        NullAfterPush(ppLink, free, i, pageFreeList);
        ppRef := ppRef[i := 0];
        ppLink := ppLink[i := pageFreeList];
        pageFreeList := i;
        free := [i] + free;
      }
      i := i + 1;
    }
  }

  lemma BootInv(m: Mem)
    requires Sized(m) && NoDup(m.free) && m.held == {} && m.pins == multiset{} && m.roles == map[]
    requires forall e :: 0 <= e < NENV ==> m.dirs[e] == NONE
    requires forall p :: p in m.free <==> 0 <= p < |m.refs| && p !in m.reserved
    requires forall p :: 0 <= p < |m.refs| && p !in m.reserved ==> m.refs[p] == 0
    ensures Inv(m)
  {
    forall p | 0 <= p < |m.refs| ensures RefSites(m, p) == {} {
      forall s | InRange(s) ensures NameAt(m, s) == NONE {
      }
    }
  }

  ghost function Reserve(m: Mem, p: nat): Mem
    requires p < |m.refs|
  {
    m.(refs := m.refs[p := m.refs[p] + 1], held := m.held - {p}, reserved := m.reserved + {p})
  }

  lemma ReserveStep(m: Mem, p: nat)
    requires Inv(m) && p in m.held && m.pins == multiset{}
    ensures p < |m.refs|
    ensures Inv(Reserve(m, p)) && Sized(Reserve(m, p)) && SameMaps(m, Reserve(m, p))
  {
    var m' := Reserve(m, p);
    SameFramesSameView(m, m');
    SameViewCounts(m, m');
    forall f | f in m'.roles ensures RoleHolds(m', f, m'.roles[f]) {
      assert RoleHolds(m, f, m.roles[f]);
    }
  }

  /** The source page is mapped, writing is not granted where the source lacks it, and
      there is a page for the destination's page table if that is missing. */
  ghost predicate Mappable(m: Mem, src: nat, sv: nat, dst: nat, dv: nat, perm: Bits)
    requires Sized(m) && src < NENV && dst < NENV && sv < NUPAGES && dv < NUPAGES
  {
    && MapAt(m, src, sv).Some? && (W in perm ==> W in MapAt(m, src, sv).value.flags)
    && (Present(PdeAt(m, dst, dv / NPTENTRIES)) || m.free != [])
  }

  predicate VaOk(va: nat) {
    va < UTOP && va % PGSIZE == 0
  }

  /** The rights the hardware gives a user: those that both levels grant. */
  ghost predicate CanWrite(m: Mem, e: nat, v: nat)
    requires Sized(m) && e < NENV && v < NUPAGES
  {
    Wide(PdeAt(m, e, v / NPTENTRIES)) && Wide(PteAt(m, e, v))
  }

  /** Because directory entries are as permissive as can be, the flat entry alone
      decides what the hardware allows. */
  lemma FlatRights(m: Mem, e: nat, v: nat)
    requires Inv(m) && e < NENV && v < NUPAGES
    ensures CanWrite(m, e, v) <==> MapAt(m, e, v).Some? && Wide(MapAt(m, e, v).value)
  {
    if Present(PteAt(m, e, v)) {
      assert Present(PdeAt(m, e, v / NPTENTRIES));
    }
  }

  lemma MappedFacts(m: Mem, e: nat, v: nat)
    requires Inv(m) && e < NENV && v < NUPAGES && MapAt(m, e, v).Some?
    ensures var p := MapAt(m, e, v).value.ppn;
            p < |m.refs| && |m.refs| == |m.frames| && p !in m.reserved && p !in m.roles && m.refs[p] > 0
  {
    NamedIsCounted(m, PteSite(e, v));
  }

  lemma UnmapKeeps(m: Mem, e: nat, v: nat)
    requires Sized(m) && e < NENV && v < NUPAGES
    ensures Sized(Unmap(m, e, v))
    ensures Unmap(m, e, v).held == m.held && Unmap(m, e, v).pins == m.pins && Unmap(m, e, v).dirs == m.dirs
  {
  }

  lemma UnmapKeepsData(m: Mem, e: nat, v: nat)
    requires Inv(m) && e < NENV && v < NUPAGES
    ensures DataKept(m, Unmap(m, e, v))
  {
  }

  // ---- pages in hand ----

  lemma SameMapsRefl(m: Mem)
    requires Inv(m)
    ensures Sized(m) && SameMaps(m, m)
  {
  }

  lemma HeldFacts(m: Mem)
    requires Quiet(m) && m.free != []
    ensures 0 <= m.free[0] < |m.frames| && |m.frames| == |m.refs|
    ensures var m', p := Take(m, true), m.free[0];
            && Sized(m) && Sized(m') && SameMaps(m, m') && m'.held == {p}
            && p !in m.reserved && p !in m.roles && m.refs[p] == 0
  {
    TakeStep(m, true);
    assert m.free[0] in m.free;
  }

  /** There are pages for a new mapping at page `v`: one for the page itself and one for
      its page table if that is missing. */
  ghost predicate PagesFor(m: Mem, e: nat, v: nat)
    requires Sized(m) && e < NENV && v < NUPAGES
  {
    m.free != [] && (Present(PdeAt(m, e, v / NPTENTRIES)) || |m.free| > 1)
  }

  lemma FreshPageKept(m0: Mem, m1: Mem, m2: Mem, p: nat)
    requires p < |m0.frames| && p !in m1.roles && p !in m2.roles && DataKept(m1, m2)
    requires m1.roles == m0.roles && m1.frames == m0.frames[p := Blank()]
    ensures |m2.frames| == |m0.frames| && m2.frames[p] == Blank() && DataKept(DataWrite(m0, p, Blank()), m2)
  {
  }

  lemma GiveBackFacts(m: Mem, p: nat)
    requires Inv(m) && p in m.held
    ensures p < |m.refs| && m.refs[p] == 0 && p !in m.free && Sized(m)
    ensures var m' := m.(held := m.held - {p}, free := [p] + m.free);
            Inv(m') && Sized(m') && SameMaps(m, m')
  {
    GiveBackStep(m, p);
    SameFramesSameView(m, m.(held := m.held - {p}, free := [p] + m.free));
  }

  lemma SameMapsTrans(m0: Mem, m1: Mem, m2: Mem)
    requires Sized(m0) && Sized(m1) && Sized(m2) && SameMaps(m0, m1) && SameMaps(m1, m2)
    ensures SameMaps(m0, m2)
  {
  }

  lemma MapsButFromSame(m0: Mem, m1: Mem, m2: Mem, e: nat, v: nat)
    requires Sized(m0) && Sized(m1) && Sized(m2) && SameMaps(m0, m1) && MapsBut(m1, m2, e, v)
    ensures MapsBut(m0, m2, e, v)
  {
  }

  // ---- laws of the flat view ----

  /** A change of one mapping updates exactly one key of one flat map. */
  lemma FlatUpdate(m: Mem, m': Mem, e: nat, v: nat)
    requires Sized(m) && Sized(m') && e < NENV && v < NUPAGES && MapsBut(m, m', e, v)
    ensures FlatMap(m', e) == match MapAt(m', e, v) {
                                case Some(x) => FlatMap(m, e)[v := x]
                                case None => FlatMap(m, e) - {v}
                              }
    ensures forall e' :: 0 <= e' < NENV && e' != e ==> FlatMap(m', e') == FlatMap(m, e')
  {
    hide MapAt;
    forall w | 0 <= w < NUPAGES && w != v ensures MapAt(m', e, w) == MapAt(m, e, w) {
    }
    forall e' | 0 <= e' < NENV && e' != e ensures FlatMap(m', e') == FlatMap(m, e') {
      forall w | 0 <= w < NUPAGES ensures MapAt(m', e', w) == MapAt(m, e', w) {
      }
    }
  }

  /** Mapping a page again where it already is leaves every count as it was. */
  lemma ReinsertKeepsCounts(m: Mem, m': Mem, e: nat, v: nat, pp: nat)
    requires Sized(m) && e < NENV && v < NUPAGES && InsertCounts(m, m', e, v, pp)
    requires MapAt(m, e, v).Some? && MapAt(m, e, v).value.ppn == pp && Counts16(m)
    ensures m'.refs == m.refs
  {
    assert Present(PdeAt(m, e, v / NPTENTRIES));
  }

  lemma SetupFacts(m: Mem, e: nat, dir: seq<Entry>)
    requires Inv(m) && m.free != [] && e < NENV && m.dirs[e] == NONE && |dir| == NPTENTRIES
    requires forall i :: 0 <= i < NUPDE ==> !Present(dir[i])
    ensures 0 <= m.free[0] < |m.refs| && |m.refs| == |m.frames| && |m.dirs| == NENV && m.refs[m.free[0]] == 0
    ensures var m' := AddDir(DataWrite(Take(m, true), m.free[0], dir), e, m.free[0]);
            Inv(m') && Sized(m') && SameMaps(m, m') && m'.held == m.held
  {
    TakeStep(m, true);
    var m1, p := Take(m, true), m.free[0];
    DataWriteStep(m1, p, dir);
    var m2 := DataWrite(m1, p, dir);
    NewDirStep(m2, e, p);
    assert p in m.free;
    assert m.held + {p} - {p} == m.held;
  }

  lemma TableInRange(m: Mem, e: nat, i: nat)
    requires Inv(m) && Live(m, e) && i < NUPDE
    ensures Sized(m)
    ensures Present(PdeAt(m, e, i)) ==> PdeAt(m, e, i).ppn < |m.frames| && PdeAt(m, e, i).ppn != m.dirs[e]
  {
    if Present(PdeAt(m, e, i)) {
      var t := PdeAt(m, e, i).ppn;
      assert RoleHolds(m, t, m.roles[t]);
    }
  }

  lemma TakenFacts(m: Mem, e: nat, i: nat)
    requires Inv(m) && Live(m, e) && i < NUPDE && m.free != []
    ensures 0 <= m.free[0] < |m.refs| && m.refs[m.free[0]] == 0
    ensures var m' := Take(m, true);
            Sized(m') && PdeAt(m', e, i) == PdeAt(m, e, i) && m'.frames[m.free[0]] == Blank()
  {
    TakeStep(m, true);
  }

  /** Every count goes up by one where it is the inserted page and down by one where
      it is the page that was mapped there before, in 16-bit arithmetic; a page table taken
      from the free list gets the count 1. */
  ghost predicate InsertCounts(m: Mem, m': Mem, e: nat, v: nat, pp: nat)
    requires Sized(m) && e < NENV && v < NUPAGES
  {
    && |m'.refs| == |m.refs|
    && forall q :: 0 <= q < |m.refs| ==>
         m'.refs[q] ==
           if !Present(PdeAt(m, e, v / NPTENTRIES)) && m.free != [] && q == m.free[0] then 1
           else (m.refs[q] + (if q == pp then 1 else 0)
                 - (if MapAt(m, e, v).Some? && MapAt(m, e, v).value.ppn == q then 1 else 0)) % (MAXREF + 1)
  }

  /** The count of `pp` has room for one more reference, or page `v` already maps `pp`. */
  ghost predicate Countable(m: Mem, e: nat, v: nat, pp: nat)
    requires Sized(m) && e < NENV && v < NUPAGES && pp < |m.refs|
  {
    m.refs[pp] < MAXREF || (MapAt(m, e, v).Some? && MapAt(m, e, v).value.ppn == pp)
  }

  /** The counts as 16 bits hold them. */
  ghost function Wrapped(m: Mem): Mem {
    m.(refs := seq(|m.refs|, q requires 0 <= q < |m.refs| => m.refs[q] % (MAXREF + 1)))
  }

  /** Every walk of page `v` stays inside memory. */
  ghost predicate Walkable(m: Mem, e: nat, v: nat) {
    && Sized(m) && Live(m, e) && e < NENV && v < NUPAGES
    && (Present(PdeAt(m, e, v / NPTENTRIES)) ==> PdeAt(m, e, v / NPTENTRIES).ppn < |m.frames|)
  }

  /** In a valid machine, page `v` can be looked up and removed. */
  lemma RemoveFacts(m: Mem, e: nat, v: nat)
    requires Inv(m) && Live(m, e) && v < NUPAGES
    ensures Walkable(m, e, v)
    ensures MapAt(m, e, v).Some? ==> MapAt(m, e, v).value.ppn < |m.refs| && MapAt(m, e, v).value.ppn !in m.free
  {
    TableInRange(m, e, v / NPTENTRIES);
    if Present(PteAt(m, e, v)) {
      PdeOfPte(m, e, v);
    }
  }

  lemma SameCountable(m: Mem, m': Mem, e: nat, v: nat, pp: nat)
    requires Sized(m) && Sized(m') && e < NENV && v < NUPAGES && pp < |m.refs| && pp < |m'.refs|
    requires SameMaps(m, m') && m'.refs[pp] == m.refs[pp]
    ensures Countable(m', e, v, pp) == Countable(m, e, v, pp)
  {
  }

  /** What the place being overwritten maps is not on the free list, also once the new
      reference is counted. */
  lemma MappedOnce(m: Mem, e: nat, v: nat, pp: nat)
    requires Insertable(m, e, v, pp)
    ensures var m' := Wrapped(Pin(m, pp));
            && Walkable(m', e, v) && MapAt(m', e, v) == MapAt(m, e, v) && PteAt(m', e, v) == PteAt(m, e, v)
            && (MapAt(m, e, v).Some? ==> MapAt(m, e, v).value.ppn < |m.refs| && MapAt(m, e, v).value.ppn !in m.free)
  {
    RemoveFacts(m, e, v);
  }

  lemma UnmapWrapped(m: Mem, e: nat, v: nat, pp: nat)
    requires Insertable(m, e, v, pp) && Counts16(m)
    ensures Sized(Pin(m, pp)) && Sized(Wrapped(Pin(m, pp)))
    ensures Unmap(Wrapped(Pin(m, pp)), e, v) == Wrapped(Unmap(Pin(m, pp), e, v))
    ensures Wrapped(Pin(m, pp)).refs == m.refs[pp := (m.refs[pp] + 1) % (MAXREF + 1)]
  {
    hide Inv, Decref;
    TableInRange(m, e, v / NPTENTRIES);
    var m1 := Pin(m, pp);
    assert PteAt(m1, e, v) == PteAt(m, e, v) == PteAt(Wrapped(m1), e, v);
    if Present(PteAt(m, e, v)) {
      NamedIsCounted(m, PteSite(e, v));
      DecrefWrapped(m1, PteAt(m, e, v).ppn);
    }
  }

  /** All counts fit in 16 bits. */
  ghost predicate Counts16(m: Mem) {
    forall q :: 0 <= q < |m.refs| ==> m.refs[q] <= MAXREF
  }

  lemma DecrefWrapped(m: Mem, p: nat)
    requires p < |m.refs| && 0 < m.refs[p] <= MAXREF + 1
    ensures Decref(Wrapped(m), p) == Wrapped(Decref(m, p))
  {
    var a, b := Decref(Wrapped(m), p), Wrapped(Decref(m, p));
    assert a.refs[p] == b.refs[p];
    assert a.refs == b.refs;
  }

  /** page_insert keeps the invariant exactly when the 16-bit count does not lose track:
      it has room, or the same page is mapped there again. */
  lemma InsertExact(m: Mem, e: nat, v: nat, pp: nat, perm: Bits)
    requires Insertable(m, e, v, pp) && Counts16(m)
    ensures Sized(m) && Counts16(Wrapped(Inserted(m, e, v, pp, perm)))
    ensures Inv(Wrapped(Inserted(m, e, v, pp, perm))) <==> Countable(m, e, v, pp)
  {
    hide Inv, Inserted;
    TableInRange(m, e, v / NPTENTRIES);
    var m1 := Inserted(m, e, v, pp, perm);
    InsertedInv(m, e, v, pp, perm);
    InsertedMaps(m, e, v, pp, perm);
    InsertedRefs(m, e, v, pp, perm);
    if Countable(m, e, v, pp) {
      assert Counts16(m1);
      assert Wrapped(m1).refs == m1.refs;
    } else {
      WrapLoses(m1, pp);
    }
  }

  lemma InsertedInv(m: Mem, e: nat, v: nat, pp: nat, perm: Bits)
    requires Insertable(m, e, v, pp)
    ensures Inv(Inserted(m, e, v, pp, perm))
  {
    hide Inv;
    TableInRange(m, e, v / NPTENTRIES);
    InsertTail(m, e, v, pp, perm);
  }

  /** A count that wraps is wrong. */
  lemma WrapLoses(m: Mem, p: nat)
    requires Inv(m) && p < |m.refs| && p !in m.reserved && m.refs[p] > MAXREF
    ensures !Inv(Wrapped(m))
  {
    hide RolesOk, MapsOk, FreeOk, RefSites;
    var m' := Wrapped(m);
    SameFramesSameView(m, m');
    SameViewCounts(m, m');
    assert m.refs[p] == |RefSites(m, p)| + m.pins[p];
  }

  lemma WalkFacts(m: Mem, m': Mem, e: nat, i: nat, pp: nat)
    requires Inv(m) && Live(m, e) && i < NUPDE
    requires pp < |m.refs| && pp !in m.reserved && pp !in m.roles && (pp in m.held || m.refs[pp] > 0)
    requires if Present(PdeAt(m, e, i)) || m.free == [] then m' == m
             else 0 <= m.free[0] < |m.refs| && Sized(Take(m, true)) && m' == AddTable(Take(m, true), e, i, m.free[0])
    ensures Sized(m') && SameMaps(m, m') && m'.dirs == m.dirs
    ensures pp < |m'.refs| && m'.refs[pp] == m.refs[pp] && pp !in m'.roles
    ensures m'.held == m.held && m'.pins == m.pins && m'.reserved == m.reserved && DataKept(m, m')
    ensures !Present(PdeAt(m, e, i)) && m.free != [] ==>
              0 <= m.free[0] < |m.refs| && m.free[0] != pp && m'.refs == m.refs[m.free[0] := 1]
  {
    hide Inv, SameMaps, SameView, MapAt, PteAt, OnePdeView;
    SameMapsRefl(m);
    if m.free != [] && !Present(PdeAt(m, e, i)) {
      TakenFacts(m, e, i);
      TakeStep(m, true);
      var m1, t := Take(m, true), m.free[0];
      HeadIsOther(m, pp);
      NewTableStep(m1, e, i, t);
      InvSized(m');
      SameMapsTrans(m, m1, m');
      assert m'.held == m.held;
      DirIsRole(m, e);
    }
  }

  /** The page at the head of the free list is nobody's. */
  lemma HeadIsOther(m: Mem, pp: nat)
    requires Inv(m) && m.free != [] && pp < |m.refs| && (pp in m.held || m.refs[pp] > 0)
    ensures m.free[0] != pp && m.free[0] !in m.held && 0 <= m.free[0] < |m.refs|
  {
    assert m.free[0] in m.free;
  }

  lemma DirIsRole(m: Mem, e: nat)
    requires Inv(m) && Live(m, e)
    ensures m.dirs[e] in m.roles
  {
  }

  lemma DataKeptRefl(m: Mem)
    ensures DataKept(m, m)
  {
  }

  ghost predicate Insertable(m: Mem, e: nat, v: nat, pp: nat) {
    && Inv(m) && Live(m, e) && v < NUPAGES && Present(PdeAt(m, e, v / NPTENTRIES))
    && pp < |m.refs| && pp !in m.reserved && pp !in m.roles && (pp in m.held || m.refs[pp] > 0)
  }

  /** The tail of page_insert, once the page table is there. */
  ghost function Inserted(m: Mem, e: nat, v: nat, pp: nat, perm: Bits): Mem
    requires Insertable(m, e, v, pp)
  {
    InsertTail(m, e, v, pp, perm);
    AddFlags(MapIn(Unmap(Pin(m, pp), e, v), e, v, Entry(pp, perm + {P})), e, v / NPTENTRIES, perm + {P})
  }

  lemma InsertTail(m: Mem, e: nat, v: nat, pp: nat, perm: Bits)
    requires Insertable(m, e, v, pp)
    ensures Inv(Pin(m, pp)) && SameMaps(m, Pin(m, pp))
    ensures var m2 := Unmap(Pin(m, pp), e, v);
            Inv(m2) && PdeAt(m2, e, v / NPTENTRIES) == PdeAt(m, e, v / NPTENTRIES)
            && PdeAt(m, e, v / NPTENTRIES).ppn < |m.frames|
            && PdeAt(m, e, v / NPTENTRIES).ppn != m.dirs[e]
    ensures var m2, x := Unmap(Pin(m, pp), e, v), Entry(pp, perm + {P});
            var m3 := MapIn(m2, e, v, x);
            Inv(m3) && MapsBut(m, m3, e, v) && MapAt(m3, e, v) == Some(x)
            && PdeAt(m3, e, v / NPTENTRIES) == PdeAt(m, e, v / NPTENTRIES)
            && Inv(AddFlags(m3, e, v / NPTENTRIES, perm + {P}))
            && SameMaps(m3, AddFlags(m3, e, v / NPTENTRIES, perm + {P}))
  {
    hide Inv, MapsBut, SameMaps;
    var i, x := v / NPTENTRIES, Entry(pp, perm + {P});
    TableInRange(m, e, i);
    PinStep(m, pp);
    var m1 := Pin(m, pp);
    UnmapStep(m1, e, v);
    var m2 := Unmap(m1, e, v);
    MapStep(m2, e, v, x);
    var m3 := MapIn(m2, e, v, x);
    PdeFlagsStep(m3, e, i, perm + {P});
    assert MapsBut(m, m3, e, v) by { MapsChain(m, m1, m2, m3, e, v); }
  }

  lemma MapsChain(m0: Mem, m1: Mem, m2: Mem, m3: Mem, e: nat, v: nat)
    requires Sized(m0) && Sized(m1) && Sized(m2) && Sized(m3)
    requires SameMaps(m0, m1) && MapsBut(m1, m2, e, v) && MapsBut(m2, m3, e, v)
    ensures MapsBut(m0, m3, e, v)
  {
  }

  /** What page_insert's stores amount to, word by word. */
  lemma InsertedStores(m: Mem, e: nat, v: nat, pp: nat, perm: Bits, t: nat, j: nat)
    requires Insertable(m, e, v, pp) && t == PdeAt(m, e, v / NPTENTRIES).ppn && j == v % NPTENTRIES
    ensures var m2, d, i, x := Unmap(Pin(m, pp), e, v), m.dirs[e], v / NPTENTRIES, Entry(pp, perm + {P});
            && t < |m2.frames| && m2.dirs == m.dirs && Sized(m2)
            && m2.pins == m.pins + multiset{pp}
            && var pde := m2.frames[d][i];
            && Inserted(m, e, v, pp, perm) ==
               m2.(frames := m2.frames[t := m2.frames[t][j := x]]
                                      [d := m2.frames[d][i := Entry(pde.ppn, pde.flags + (perm + {P}))]],
                   pins := m.pins)
  {
    hide Inv, MapsBut, SameMaps;
    TableInRange(m, e, v / NPTENTRIES);
    InsertTail(m, e, v, pp, perm);
    assert m.pins + multiset{pp} - multiset{pp} == m.pins;
  }

  lemma InsertedRefs(m: Mem, e: nat, v: nat, pp: nat, perm: Bits)
    requires Insertable(m, e, v, pp)
    ensures Sized(m)
    ensures var m' := Inserted(m, e, v, pp, perm);
            && |m'.refs| == |m.refs|
            && forall q :: 0 <= q < |m.refs| ==>
                 m'.refs[q] == m.refs[q] as int + (if q == pp then 1 else 0)
                 - (if MapAt(m, e, v).Some? && MapAt(m, e, v).value.ppn == q then 1 else 0)
  {
    hide Inv, MapsBut, SameMaps;
    TableInRange(m, e, v / NPTENTRIES);
    InsertTail(m, e, v, pp, perm);
    UnmapStep(Pin(m, pp), e, v);
    assert PteAt(Pin(m, pp), e, v) == PteAt(m, e, v);
  }

  lemma InsertedKeeps(m: Mem, e: nat, v: nat, pp: nat, perm: Bits)
    requires Insertable(m, e, v, pp)
    ensures Sized(m)
    ensures var m' := Inserted(m, e, v, pp, perm);
            && m'.roles == m.roles && DataKept(m, m') && Sized(m')
            && perm + {P} <= PdeAt(m', e, v / NPTENTRIES).flags
  {
    hide Inv, MapsBut, SameMaps;
    TableInRange(m, e, v / NPTENTRIES);
    InsertTail(m, e, v, pp, perm);
    TableIsRole(m, e, v / NPTENTRIES);
    DirIsRole(m, e);
    InvSized(Inserted(m, e, v, pp, perm));
  }

  lemma TableIsRole(m: Mem, e: nat, i: nat)
    requires Inv(m) && e < NENV && i < NUPDE && Present(PdeAt(m, e, i))
    ensures PdeAt(m, e, i).ppn in m.roles
  {
  }

  lemma InsertResult(m0: Mem, m: Mem, m': Mem, e: nat, v: nat, pp: nat, perm: Bits)
    requires Inv(m0) && Live(m0, e) && v < NUPAGES && Insertable(m, e, v, pp)
    requires m' == Wrapped(Inserted(m, e, v, pp, perm))
    requires Sized(m0) && Sized(m) && SameMaps(m0, m) && DataKept(m0, m)
    requires if Present(PdeAt(m0, e, v / NPTENTRIES)) then m == m0
             else m0.free != [] && 0 <= m0.free[0] < |m0.refs| && m0.free[0] != pp
                  && m.refs == m0.refs[m0.free[0] := 1]
    ensures Sized(m')
    ensures MapsBut(m0, m', e, v) && MapAt(m', e, v) == Some(Entry(pp, perm + {P}))
    ensures InsertCounts(m0, m', e, v, pp)
    ensures DataKept(m0, m') && perm + {P} <= PdeAt(m', e, v / NPTENTRIES).flags && m'.roles == m.roles
    ensures m'.dirs == m.dirs && m'.held == m.held - {pp} && m'.pins == m.pins && m'.reserved == m.reserved
  {
    hide Inv, Inserted;
    var m1 := Inserted(m, e, v, pp, perm);
    InsertedKeeps(m, e, v, pp, perm);
    InsertedMaps(m, e, v, pp, perm);
    InsertedRefs(m, e, v, pp, perm);
    SameFramesSameView(m1, m');
    assert MapAt(m0, e, v) == MapAt(m, e, v);
    if !Present(PdeAt(m0, e, v / NPTENTRIES)) {
      assert MapAt(m0, e, v) == None;
    }
  }

  lemma InsertedMaps(m: Mem, e: nat, v: nat, pp: nat, perm: Bits)
    requires Insertable(m, e, v, pp)
    ensures Sized(m)
    ensures var m' := Inserted(m, e, v, pp, perm);
            && Sized(m') && MapsBut(m, m', e, v) && MapAt(m', e, v) == Some(Entry(pp, perm + {P}))
            && m'.dirs == m.dirs && m'.held == m.held - {pp} && m'.pins == m.pins && m'.reserved == m.reserved
  {
    hide Inv;
    TableInRange(m, e, v / NPTENTRIES);
    InsertTail(m, e, v, pp, perm);
    InsertedStores(m, e, v, pp, perm, PdeAt(m, e, v / NPTENTRIES).ppn, v % NPTENTRIES);
    InvSized(Inserted(m, e, v, pp, perm));
  }
}
