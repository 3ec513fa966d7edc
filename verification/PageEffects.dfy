/** What page operations do, said over mappings, rights and words alone (lab/kern/pmap.c,
    env.c, syscall.c): when each succeeds, where access to a page comes from, and what
    programs find in their pages. */
module PageEffects {
  import opened Basics
  import opened Paging
  import opened PagingSteps
  import opened PageMemory
  import opened PageLaws

  // ---- each operation ----

  /** With two free pages an allocation succeeds, and then the page is zero and mapped with
      the rights asked for; a bad address, bad rights or no environment change no mapping. */
  lemma AllocGives(m: Mem, e: nat, va: nat, perm: Bits, m': Mem, kern: seq<Entry>)
    requires Quiet(m) && Sized(m) && Sized(m') && Did(m, AllocPage(e, va, perm), m', kern)
    ensures e < NENV && m.dirs[e] != NONE && va < UTOP && va % PGSIZE == 0 && perm <= {0, 1, 2, 9, 10, 11} && |m.free| >= 2 ==>
              && MapAt(m', e, va / PGSIZE) == Some(Entry(m.free[0], perm + {P}))
              && forall k :: 0 <= k < NPTENTRIES ==> 0 <= m.free[0] < |m'.frames| && m'.frames[m.free[0]][k] == ZERO
    ensures e >= NENV || m.dirs[e] == NONE || va >= UTOP || va % PGSIZE != 0 || !(perm <= {0, 1, 2, 9, 10, 11}) ==>
              SameMaps(m, m')
  {
    hide Inv, DataKept;
    if m' != m && Untouched(m, m') {
      BlankHead(m, m');
    }
  }

  /** Mapping succeeds for a page the source has, with a page to spare for a table, unless it
      would give a right to write that the source lacks; then, and without a source page,
      nothing happens. */
  lemma MapGives(m: Mem, src: nat, srcva: nat, dst: nat, dstva: nat, perm: Bits, m': Mem, kern: seq<Entry>)
    requires Sized(m) && Sized(m') && Did(m, MapPage(src, srcva, dst, dstva, perm), m', kern)
    requires src < NENV && m.dirs[src] != NONE && dst < NENV && m.dirs[dst] != NONE && perm <= {0, 1, 2, 9, 10, 11}
    requires srcva < UTOP && srcva % PGSIZE == 0 && dstva < UTOP && dstva % PGSIZE == 0
    ensures var x := MapAt(m, src, srcva / PGSIZE);
            if x.None? || (W in perm && W !in x.value.flags) then m' == m
            else m.free != [] ==> MapAt(m', dst, dstva / PGSIZE) == Some(Entry(x.value.ppn, perm + {P}))
  {
    hide InsertCounts, DataKept, MapsBut;
  }

  /** A bad address, bad rights or a dead environment make sys_page_map, and a bad address or
      a dead environment sys_page_unmap, do nothing. */
  lemma BadArguments(m: Mem, op: PageOp, m': Mem, kern: seq<Entry>)
    requires Sized(m) && Sized(m') && Did(m, op, m', kern)
    ensures op.MapPage? && (op.srcva >= UTOP || op.srcva % PGSIZE != 0 || op.dstva >= UTOP || op.dstva % PGSIZE != 0) ==> m' == m
    ensures op.MapPage? && (op.src >= NENV || m.dirs[op.src] == NONE || op.dst >= NENV || m.dirs[op.dst] == NONE) ==> m' == m
    ensures op.MapPage? && !(op.perm <= {0, 1, 2, 9, 10, 11}) ==> m' == m
    ensures op.UnmapPage? && (op.va >= UTOP || op.va % PGSIZE != 0 || op.e >= NENV || m.dirs[op.e] == NONE) ==> m' == m
  {
    hide CopiedMapping, LostMapping, Mappable;
  }

  lemma UnmapTakes(m: Mem, e: nat, va: nat, m': Mem, kern: seq<Entry>)
    requires Sized(m) && Sized(m') && Did(m, UnmapPage(e, va), m', kern)
    requires e < NENV && m.dirs[e] != NONE && va < UTOP && va % PGSIZE == 0
    ensures MapAt(m', e, va / PGSIZE) == None
  {
  }

  /** A freed environment has nothing left, and nobody else lost anything. */
  lemma FreeTakesAll(m: Mem, e: nat, m': Mem, kern: seq<Entry>)
    requires Sized(m) && Sized(m') && Did(m, FreeEnv(e), m', kern) && e < NENV && m.dirs[e] != NONE
    ensures m'.dirs[e] == NONE && forall v :: 0 <= v < NUPAGES ==> MapAt(m', e, v) == None
    ensures forall f, v :: 0 <= f < NENV && 0 <= v < NUPAGES && f != e ==> MapAt(m', f, v) == MapAt(m, f, v)
  {
    hide EnvFreed, DataKept;
  }

  /** A new environment has no user page, shares the kernel's half of the address space, and
      finds its own page directory, read-only, at UVPT. */
  lemma NewEnvGives(m: Mem, e: nat, m': Mem, kern: seq<Entry>)
    requires Quiet(m) && Sized(m) && Sized(m') && Did(m, NewEnv(e), m', kern) && e < NENV && m.dirs[e] == NONE && m.free != []
    ensures m'.dirs[e] != NONE && forall v :: 0 <= v < NUPAGES ==> MapAt(m', e, v) == None
    ensures |kern| == NPTENTRIES
    ensures forall i :: NUPDE <= i < NPTENTRIES && i != 957 ==> m'.frames[m'.dirs[e]][i] == kern[i]
    ensures m'.frames[m'.dirs[e]][957] == Entry(m'.dirs[e], {P, U})
  {
    hide Inv;
    forall v | 0 <= v < NUPAGES ensures MapAt(m', e, v) == None {
      assert MapAt(m', e, v) == MapAt(m, e, v);
    }
  }

  /** A store lands, for everyone who maps the page, exactly if the user may write there. */
  lemma StoreLands(m: Mem, e: nat, v: nat, k: nat, word: Entry, m': Mem, kern: seq<Entry>)
    requires Quiet(m) && Sized(m) && Sized(m') && Did(m, StoreWord(e, v, k, word), m', kern)
    requires e < NENV && v < NUPAGES && k < NPTENTRIES
    ensures match MapAt(m, e, v)
            case Some(x) =>
              if {P, W, U} <= x.flags then x.ppn < |m'.frames| && m'.frames[x.ppn][k] == word else m' == m
            case None => m' == m
  {
    FlatRights(m, e, v);
    if CanWrite(m, e, v) {
      MappedFacts(m, e, v);
    }
  }

  /** A run ends early only at a mapping of a page that has 65535 references already. */
  lemma OnlyAtLimit(m: Mem, op: PageOp)
    requires Quiet(m) && WouldWrap(m, op)
    ensures op.MapPage? && Sized(m) && op.src < NENV && op.srcva / PGSIZE < NUPAGES && MapAt(m, op.src, op.srcva / PGSIZE).Some?
    ensures var p := MapAt(m, op.src, op.srcva / PGSIZE).value.ppn; p < |m.refs| && m.refs[p] >= 65535
  {
  }

  // ---- where access comes from ----

  /** A mapping after an operation was there before, or is the new page of an allocation, or
      is one that some environment had already, with no right to write that it lacked. */
  lemma StepMapping(m: Mem, op: PageOp, m': Mem, kern: seq<Entry>, e: nat, v: nat)
    requires Quiet(m) && Quiet(m') && Sized(m) && Sized(m') && Did(m, op, m', kern) && e < NENV && v < NUPAGES
    requires MapAt(m', e, v).Some?
    ensures var x := MapAt(m', e, v).value;
            || MapAt(m, e, v) == Some(x)
            || (op.AllocPage? && op.e == e && op.va / PGSIZE == v && m.free != [] && x == Entry(m.free[0], op.perm + {P}))
            || (op.MapPage? && op.src < NENV && op.srcva / PGSIZE < NUPAGES && MapAt(m, op.src, op.srcva / PGSIZE).Some?
                && MapAt(m, op.src, op.srcva / PGSIZE).value.ppn == x.ppn
                && (W in x.flags ==> W in MapAt(m, op.src, op.srcva / PGSIZE).value.flags))
  {
    hide Inv, DataKept, EnvFreed, InsertCounts, MapAt;
    match op {
      case FreeEnv(f) => if Live(m, f) && f == e { FreeTakesAll(m, f, m', kern); }
      case AllocPage(f, va, perm) => if m' != m && Untouched(m, m') { BlankHead(m, m'); }
      case StoreWord(f, w, k, word) => if m' != m { StoreKeepsMaps(m, m', f, w, k, word); }
      case _ =>
    }
  }

  lemma StoreKeepsMaps(m: Mem, m': Mem, f: nat, w: nat, k: nat, word: Entry)
    requires Quiet(m) && Sized(m) && Sized(m') && f < NENV && w < NUPAGES && k < NPTENTRIES && CanWrite(m, f, w)
    requires StoredWord(m, m', f, w, k, word)
    ensures SameMaps(m, m')
  {
    DataWriteStep(m, PteAt(m, f, w).ppn, m.frames[PteAt(m, f, w).ppn][k := word]);
  }

  /** Some environment can write page `p`. */
  ghost predicate Writable(m: Mem, p: nat)
    requires Sized(m)
  {
    exists e, v :: 0 <= e < NENV && 0 <= v < NUPAGES && MapAt(m, e, v).Some?
      && MapAt(m, e, v).value.ppn == p && W in MapAt(m, e, v).value.flags
  }

  /** The operation takes page `p` from the free list with the right to write it. */
  ghost predicate AllocsWritable(m: Mem, op: PageOp, p: nat) {
    op.AllocPage? && W in op.perm && m.free != [] && m.free[0] == p
  }

  lemma StepRights(m: Mem, op: PageOp, m': Mem, kern: seq<Entry>, p: nat)
    requires Quiet(m) && Quiet(m') && Sized(m) && Sized(m') && Did(m, op, m', kern) && Writable(m', p)
    ensures Writable(m, p) || AllocsWritable(m, op, p)
  {
    hide Inv, Did, MapAt;
    var e, v :| 0 <= e < NENV && 0 <= v < NUPAGES && MapAt(m', e, v).Some?
                && MapAt(m', e, v).value.ppn == p && W in MapAt(m', e, v).value.flags;
    StepMapping(m, op, m', kern, e, v);
  }

  /** In every run a page that can be written could be written at the start, or has been
      allocated with that right since. */
  lemma {:induction false} RightsAreGranted(ms: seq<Mem>, ops: seq<PageOp>, kern: seq<Entry>, n: nat, p: nat)
    requires PageRun(ms, ops, kern) && n <= |ops| && Sized(ms[0]) && Sized(ms[n]) && Writable(ms[n], p)
    ensures Writable(ms[0], p) || exists i :: 0 <= i < n && AllocsWritable(ms[i], ops[i], p)
  {
    hide Quiet, Sized, Did, Writable;
    if n == 0 {
    } else {
      StepRights(ms[n - 1], ops[n - 1], ms[n], kern, p);
      if Writable(ms[n - 1], p) {
        RightsAreGranted(ms, ops, kern, n - 1, p);
      }
    }
  }

  // ---- what programs find in their pages ----

  /** The operation stores at word `k` of page `p`, through whatever mapping. */
  ghost predicate Hits(m: Mem, op: PageOp, p: nat, k: nat)
    requires Sized(m)
  {
    && op.StoreWord? && op.k == k && op.e < NENV && op.vpn < NUPAGES && MapAt(m, op.e, op.vpn).Some?
    && MapAt(m, op.e, op.vpn).value.ppn == p && {P, W, U} <= MapAt(m, op.e, op.vpn).value.flags
  }

  /** The operation gives page `p` to an environment as a new one. */
  ghost predicate Renews(m: Mem, op: PageOp, p: nat) {
    op.AllocPage? && p in m.free
  }

  /** The word last stored at word `k` of page `p`; zero if none was since the page was
      allocated. */
  ghost function LastStored(ms: seq<Mem>, ops: seq<PageOp>, n: nat, p: nat, k: nat): Entry
    requires n < |ms| && n <= |ops| && Sized(ms[0]) && p < |ms[0].frames| && k < NPTENTRIES
    requires forall i :: 0 <= i < |ms| ==> Sized(ms[i])
  {
    if n == 0 then ms[0].frames[p][k]
    else if Hits(ms[n - 1], ops[n - 1], p, k) then ops[n - 1].word
    else if Renews(ms[n - 1], ops[n - 1], p) then ZERO
    else LastStored(ms, ops, n - 1, p, k)
  }

  lemma StepWords(m: Mem, op: PageOp, m': Mem, kern: seq<Entry>, e: nat, v: nat, k: nat)
    requires Quiet(m) && Quiet(m') && Sized(m) && Sized(m') && Did(m, op, m', kern) && e < NENV && v < NUPAGES
    requires MapAt(m', e, v).Some? && k < NPTENTRIES
    ensures |m'.frames| == |m.frames| && MapAt(m', e, v).value.ppn < |m.frames|
    ensures var p := MapAt(m', e, v).value.ppn;
            m'.frames[p][k] == if Hits(m, op, p, k) then op.word else if Renews(m, op, p) then ZERO else m.frames[p][k]
  {
    hide Inv, Did, MapAt;
    var p := MapAt(m', e, v).value.ppn;
    PageInUse(m', e, v);
    StepMapping(m, op, m', kern, e, v);
    if MapAt(m, e, v) == MapAt(m', e, v) {
      PageInUse(m, e, v);
    } else if op.MapPage? {
      PageInUse(m, op.src, op.srcva / PGSIZE);
    }
    if p in m.free {
      NewWords(m, op, m', kern, e, v);
    } else if op.StoreWord? {
      StoreWords(m, op, m', kern, p, k);
    } else {
      OldWords(m, op, m', kern, p);
    }
  }

  lemma PageInUse(m: Mem, e: nat, v: nat)
    requires Inv(m) && e < NENV && v < NUPAGES && MapAt(m, e, v).Some?
    ensures var p := MapAt(m, e, v).value.ppn; p < |m.frames| && p !in m.free && p !in m.roles
  {
    MappedFacts(m, e, v);
  }

  lemma NewWords(m: Mem, op: PageOp, m': Mem, kern: seq<Entry>, e: nat, v: nat)
    requires Sized(m) && Sized(m') && Did(m, op, m', kern) && e < NENV && v < NUPAGES
    requires op.AllocPage? && op.e == e && op.va / PGSIZE == v && m.free != [] && MapAt(m, e, v) != MapAt(m', e, v)
    requires Quiet(m)
    ensures 0 <= m.free[0] < |m.frames| == |m'.frames| && m'.frames[m.free[0]] == Blank()
  {
    hide Inv, DataKept;
    if m' != m && Untouched(m, m') {
      BlankHead(m, m');
    }
  }

  lemma StoreWords(m: Mem, op: PageOp, m': Mem, kern: seq<Entry>, p: nat, k: nat)
    requires Quiet(m) && Sized(m) && Sized(m') && Did(m, op, m', kern) && op.StoreWord? && p < |m.frames| && k < NPTENTRIES
    ensures |m'.frames| == |m.frames| && m'.frames[p][k] == if Hits(m, op, p, k) then op.word else m.frames[p][k]
  {
    if op.e < NENV && op.vpn < NUPAGES {
      FlatRights(m, op.e, op.vpn);
    }
  }

  lemma OldWords(m: Mem, op: PageOp, m': Mem, kern: seq<Entry>, p: nat)
    requires Quiet(m) && Sized(m) && Sized(m') && Did(m, op, m', kern) && !op.StoreWord?
    requires p < |m.frames| && p !in m.free && p !in m.roles && p !in m'.roles
    ensures |m'.frames| == |m.frames| && m'.frames[p] == m.frames[p]
  {
    hide Inv, EnvFreed, InsertCounts, MapsBut, OthersKept, SameMaps, MapAt;
    assert m.free != [] ==> m.free[0] in m.free;
  }

  /** In every run, and whoever shares it: a page a program maps holds at each word what was
      last stored there, or zero if nothing was since it was allocated. */
  lemma {:induction false} PagesHoldLastStore(ms: seq<Mem>, ops: seq<PageOp>, kern: seq<Entry>, n: nat, e: nat, v: nat, k: nat)
    requires PageRun(ms, ops, kern) && n <= |ops| && Sized(ms[n]) && e < NENV && v < NUPAGES && k < NPTENTRIES
    requires MapAt(ms[n], e, v).Some?
    ensures |ms[n].frames| == |ms[0].frames| && MapAt(ms[n], e, v).value.ppn < |ms[0].frames|
    ensures var p := MapAt(ms[n], e, v).value.ppn; ms[n].frames[p][k] == LastStored(ms, ops, n, p, k)
  {
    hide Inv, Did, MapAt, Hits;
    if n == 0 {
      PageInUse(ms[0], e, v);
    } else {
      var m, m', op := ms[n - 1], ms[n], ops[n - 1];
      assert Did(m, op, m', kern);
      StepWords(m, op, m', kern, e, v, k);
      StepMapping(m, op, m', kern, e, v);
      if MapAt(m, e, v) == MapAt(m', e, v) {
        PagesHoldLastStore(ms, ops, kern, n - 1, e, v, k);
      } else if op.MapPage? {
        PagesHoldLastStore(ms, ops, kern, n - 1, op.src, op.srcva / PGSIZE, k);
      } else {
        SameCount(ms, ops, kern, n);
        assert m.free[0] in m.free;
      }
    }
  }

  /** Physical memory does not grow or shrink. */
  lemma {:induction false} SameCount(ms: seq<Mem>, ops: seq<PageOp>, kern: seq<Entry>, n: nat)
    requires PageRun(ms, ops, kern) && n <= |ops|
    ensures |ms[n].frames| == |ms[0].frames|
  {
    hide Quiet, Sized, Did;
    if n == 0 {
    } else {
      SameCount(ms, ops, kern, n - 1);
      StepCount(ms[n - 1], ops[n - 1], ms[n], kern);
    }
  }

  lemma StepCount(m: Mem, op: PageOp, m': Mem, kern: seq<Entry>)
    requires Sized(m) && Sized(m') && Did(m, op, m', kern)
    ensures |m'.frames| == |m.frames|
  {
    hide EnvFreed, InsertCounts, MapsBut, OthersKept, SameMaps, MapAt;
  }
}
