/** Single changes to the paging snapshot, each shown to keep the invariant and to
    change the flat view at exactly one place (lab/kern/pmap.c, lab/kern/env.c). */
module PagingSteps {
  import opened Basics
  import opened FreeList
  import opened Paging

  /** `m'` has the same flat view as `m`: every walk of every environment ends in
      the same word. */
  ghost predicate SameView(m: Mem, m': Mem)
    requires Sized(m) && Sized(m')
  {
    && m'.dirs == m.dirs
    && (forall e, i :: 0 <= e < NENV && 0 <= i < NUPDE ==> PdeAt(m', e, i) == PdeAt(m, e, i))
    && (forall e, v :: 0 <= e < NENV && 0 <= v < NUPAGES ==> PteAt(m', e, v) == PteAt(m, e, v))
  }

  /** `m'` differs from `m` in the mapping of one virtual page, now the word `x`. */
  ghost predicate OnePteView(m: Mem, m': Mem, e0: nat, v0: nat, x: Entry)
    requires Sized(m) && Sized(m') && e0 < NENV && v0 < NUPAGES
  {
    && m'.dirs == m.dirs
    && (forall e, i :: 0 <= e < NENV && 0 <= i < NUPDE ==> PdeAt(m', e, i) == PdeAt(m, e, i))
    && (forall e, v :: 0 <= e < NENV && 0 <= v < NUPAGES && (e != e0 || v != v0) ==>
          PteAt(m', e, v) == PteAt(m, e, v))
    && PteAt(m', e0, v0) == x
  }

  /** `m'` differs from `m` in one directory entry, now the word `x`, and maps
      exactly the same user pages. */
  ghost predicate OnePdeView(m: Mem, m': Mem, e0: nat, i0: nat, x: Entry)
    requires Sized(m) && Sized(m') && e0 < NENV && i0 < NUPDE
  {
    && m'.dirs == m.dirs
    && (forall e, i :: 0 <= e < NENV && 0 <= i < NUPDE && (e != e0 || i != i0) ==>
          PdeAt(m', e, i) == PdeAt(m, e, i))
    && (forall e, v :: 0 <= e < NENV && 0 <= v < NUPAGES ==>
          Present(PteAt(m', e, v)) == Present(PteAt(m, e, v))
          && (Present(PteAt(m, e, v)) ==> PteAt(m', e, v) == PteAt(m, e, v)))
    && PdeAt(m', e0, i0) == x
  }

  /** A page of zero words. */
  function Blank(): (page: seq<Entry>)
    ensures |page| == NPTENTRIES && forall j :: 0 <= j < NPTENTRIES ==> page[j] == ZERO
  {
    seq(NPTENTRIES, _ => ZERO)
  }

  function Cleared(page: seq<Entry>, zero: bool): seq<Entry> {
    if zero then Blank() else page
  }

  function SetWord(m: Mem, f: nat, k: nat, x: Entry): Mem
    requires f < |m.frames| && k < |m.frames[f]|
  {
    m.(frames := m.frames[f := m.frames[f][k := x]])
  }

  /** Lowering a 16-bit count, and putting the page on the free list when it reaches 0. */
  function Decref(m: Mem, p: nat): Mem
    requires p < |m.refs|
  {
    m.(refs := m.refs[p := if m.refs[p] == 0 then MAXREF else m.refs[p] - 1],
       free := if m.refs[p] == 1 then [p] + m.free else m.free)
  }

  /** Lowering the count of `p` is right when one reference to `p` went away and no other. */
  lemma DecrefCounts(m: Mem, m': Mem, p: nat)
    requires Inv(m) && Sized(m') && p < |m.refs| && m.refs[p] > 0 && p !in m.reserved
    requires m'.refs == m.refs[p := m.refs[p] - 1] && m'.free == if m.refs[p] == 1 then [p] + m.free else m.free
    requires m'.reserved == m.reserved && m'.held == m.held && m'.pins == m.pins
    requires forall q :: 0 <= q < |m.refs| ==> |RefSites(m', q)| == |RefSites(m, q)| - if q == p then 1 else 0
    ensures CountsOk(m') && FreeOk(m')
  {
  }

  /** A page in hand gets its first reference. */
  lemma FirstRefCounts(m: Mem, m': Mem, p: nat)
    requires Inv(m) && Sized(m') && p in m.held && m'.refs == m.refs[p := m.refs[p] + 1] && m'.held == m.held - {p}
    requires m'.free == m.free && m'.reserved == m.reserved && m'.pins == m.pins
    requires forall q :: 0 <= q < |m.refs| ==> |RefSites(m', q)| == |RefSites(m, q)| + if q == p then 1 else 0
    ensures CountsOk(m') && FreeOk(m')
  {
  }

  // ---- views ----

  /** Writing a frame that is neither a directory nor a page table changes no walk. */
  lemma DataWriteView(m: Mem, f: nat, page: seq<Entry>)
    requires Sized(m) && RolesOk(m) && f < |m.frames| && f !in m.roles && |page| == NPTENTRIES
    ensures Sized(m.(frames := m.frames[f := page]))
    ensures SameView(m, m.(frames := m.frames[f := page]))
  {
    var m' := m.(frames := m.frames[f := page]);
    forall e, i | 0 <= e < NENV && 0 <= i < NUPDE ensures PdeAt(m', e, i) == PdeAt(m, e, i) {
    }
    forall e, v | 0 <= e < NENV && 0 <= v < NUPAGES ensures PteAt(m', e, v) == PteAt(m, e, v) {
      assert PdeAt(m', e, v / NPTENTRIES) == PdeAt(m, e, v / NPTENTRIES);
    }
  }

  /** Writing one page table word changes one user mapping. */
  lemma PteWriteView(m: Mem, e0: nat, v0: nat, x: Entry)
    requires Sized(m) && RolesOk(m) && e0 < NENV && v0 < NUPAGES
    requires Present(PdeAt(m, e0, v0 / NPTENTRIES))
    ensures PdeAt(m, e0, v0 / NPTENTRIES).ppn < |m.frames|
    ensures var m' := SetWord(m, PdeAt(m, e0, v0 / NPTENTRIES).ppn, v0 % NPTENTRIES, x);
            Sized(m') && OnePteView(m, m', e0, v0, x)
  {
    var i0 := v0 / NPTENTRIES;
    var t := PdeAt(m, e0, i0).ppn;
    assert RoleHolds(m, t, m.roles[t]);
    var m' := SetWord(m, t, v0 % NPTENTRIES, x);
    forall e, i | 0 <= e < NENV && 0 <= i < NUPDE ensures PdeAt(m', e, i) == PdeAt(m, e, i) {
    }
    forall e, v | 0 <= e < NENV && 0 <= v < NUPAGES && (e != e0 || v != v0)
      ensures PteAt(m', e, v) == PteAt(m, e, v)
    {
      var i := v / NPTENTRIES;
      assert PdeAt(m', e, i) == PdeAt(m, e, i);
      if Present(PdeAt(m, e, i)) && PdeAt(m, e, i).ppn == t {
        assert e == e0 && i == i0;
        assert v % NPTENTRIES != v0 % NPTENTRIES;
      }
    }
  }

  /** Page `j` under directory entry `i0` is mapped the same way once the entry is `x`. */
  ghost predicate KeepsMapping(m: Mem, e0: nat, i0: nat, j: nat, x: Entry)
    requires Sized(m) && e0 < NENV && i0 < NUPDE && j < NPTENTRIES
    requires Present(x) ==> x.ppn < |m.frames|
  {
    var before := PteAt(m, e0, i0 * NPTENTRIES + j);
    var after := if Present(x) then m.frames[x.ppn][j] else ZERO;
    Present(before) == Present(after) && (Present(before) ==> before == after)
  }

  /** Writing a directory entry so that the pages mapped under it stay as they are
      changes one directory entry. */
  lemma PdeWriteView(m: Mem, e0: nat, i0: nat, x: Entry)
    requires Sized(m) && RolesOk(m) && e0 < NENV && i0 < NUPDE && m.dirs[e0] != NONE
    requires Present(x) ==> x.ppn < |m.frames| && x.ppn != m.dirs[e0]
    requires forall j :: 0 <= j < NPTENTRIES ==> KeepsMapping(m, e0, i0, j, x)
    ensures var m' := SetWord(m, m.dirs[e0], i0, x);
            Sized(m') && OnePdeView(m, m', e0, i0, x)
  {
    var d := m.dirs[e0];
    var m' := SetWord(m, d, i0, x);
    forall e, i | 0 <= e < NENV && 0 <= i < NUPDE && (e != e0 || i != i0)
      ensures PdeAt(m', e, i) == PdeAt(m, e, i)
    {
    }
    forall e, v | 0 <= e < NENV && 0 <= v < NUPAGES
      ensures Present(PteAt(m', e, v)) == Present(PteAt(m, e, v))
      ensures Present(PteAt(m, e, v)) ==> PteAt(m', e, v) == PteAt(m, e, v)
    {
      var i, j := v / NPTENTRIES, v % NPTENTRIES;
      if e == e0 && i == i0 {
        assert i0 * NPTENTRIES + j == v;
        assert PdeAt(m', e, i) == x;
        assert PteAt(m', e, v) == if Present(x) then m.frames[x.ppn][j] else ZERO;
        assert KeepsMapping(m, e0, i0, j, x);
      } else {
        assert PdeAt(m', e, i) == PdeAt(m, e, i);
        assert Present(PdeAt(m, e, i)) ==> PdeAt(m, e, i).ppn != d;
      }
    }
  }

  // ---- steps ----

  /** page_alloc: the head of the free list goes to the caller, cleared on request. */
  ghost function Take(m: Mem, zero: bool): Mem
    requires m.free != [] && 0 <= m.free[0] < |m.frames|
  {
    var p := m.free[0];
    m.(free := m.free[1..], held := m.held + {p}, frames := m.frames[p := Cleared(m.frames[p], zero)])
  }

  lemma TakeStep(m: Mem, zero: bool)
    requires Inv(m) && m.free != []
    ensures 0 <= m.free[0] < |m.frames| && m.free[0] !in m.roles && m.refs[m.free[0]] == 0
    ensures Inv(Take(m, zero)) && SameView(m, Take(m, zero)) && SameMaps(m, Take(m, zero))
  {
    var p := m.free[0];
    FreeIsUnused(m, p);
    var page := Cleared(m.frames[p], zero);
    DataWriteView(m, p, page);
    var m1 := m.(frames := m.frames[p := page]);
    var m' := Take(m, zero);
    assert SameView(m, m') by { SameFramesSameView(m1, m'); }
    SameViewCounts(m, m');
    SameViewKeepsRoles(m, m');
    assert m.free == [p] + m'.free;
    forall q ensures q in m'.free <==> q in m.free && q != p {
    }
  }

  lemma FreeIsUnused(m: Mem, p: int)
    requires Inv(m) && p in m.free
    ensures 0 <= p < |m.frames| && p !in m.roles
    ensures forall e, v :: 0 <= e < NENV && 0 <= v < NUPAGES && Present(PteAt(m, e, v)) ==>
              PteAt(m, e, v).ppn != p
  {
    if p in m.roles {
      RoleIsCounted(m, p);
    }
    forall e, v | 0 <= e < NENV && 0 <= v < NUPAGES && Present(PteAt(m, e, v))
      ensures PteAt(m, e, v).ppn != p
    {
      NamedIsCounted(m, PteSite(e, v));
    }
  }

  lemma SameFramesSameView(m: Mem, m': Mem)
    requires Sized(m) && Sized(m') && m'.frames == m.frames && m'.dirs == m.dirs
    ensures SameView(m, m')
  {
  }

  lemma SameViewKeepsRoles(m: Mem, m': Mem)
    requires Inv(m) && Sized(m') && SameView(m, m')
    requires m'.roles == m.roles && m'.reserved == m.reserved && |m'.frames| == |m.frames|
    requires forall p :: p in m'.held && p !in m.held ==> p in m.free
    ensures RolesOk(m') && MapsOk(m')
  {
    forall f | f in m'.roles ensures RoleHolds(m', f, m'.roles[f]) {
      assert RoleHolds(m, f, m.roles[f]);
      if f in m.free { FreeIsUnused(m, f); }
    }
    forall e, v | 0 <= e < NENV && 0 <= v < NUPAGES && Present(PteAt(m', e, v))
      ensures PteAt(m', e, v).ppn !in m'.held
    {
      var q := PteAt(m, e, v).ppn;
      if q in m.free { FreeIsUnused(m, q); }
    }
  }

  lemma SameViewCounts(m: Mem, m': Mem)
    requires Sized(m) && Sized(m') && SameView(m, m')
    ensures forall p :: RefSites(m', p) == RefSites(m, p)
  {
    forall s | InRange(s) ensures NameAt(m', s) == NameAt(m, s) {
    }
    forall p ensures RefSites(m', p) == RefSites(m, p) {
      NoSiteChange(m, m', p);
    }
  }

  /** Storing into a frame that is no directory or page table, as the kernel does with
      a page in hand and a user with a mapped page, keeps everything. */
  ghost function DataWrite(m: Mem, f: nat, page: seq<Entry>): Mem
    requires f < |m.frames|
  {
    m.(frames := m.frames[f := page])
  }

  lemma DataWriteStep(m: Mem, f: nat, page: seq<Entry>)
    requires Inv(m) && f < |m.frames| && f !in m.roles && |page| == NPTENTRIES
    ensures Inv(DataWrite(m, f, page)) && SameView(m, DataWrite(m, f, page)) && SameMaps(m, DataWrite(m, f, page))
  {
    DataWriteView(m, f, page);
    SameViewCounts(m, DataWrite(m, f, page));
    SameViewKeepsRoles(m, DataWrite(m, f, page));
  }

  /** page_free of a page in hand. */
  lemma GiveBackStep(m: Mem, p: nat)
    requires Inv(m) && p in m.held
    ensures Inv(m.(held := m.held - {p}, free := [p] + m.free))
  {
    var m' := m.(held := m.held - {p}, free := [p] + m.free);
    assert SameView(m, m');
    SameViewCounts(m, m');
    SameViewKeepsRoles(m, m');
  }

  /** pp_ref++ ahead of writing the entry that holds the reference. */
  ghost function Pin(m: Mem, p: nat): Mem
    requires p < |m.refs|
  {
    m.(refs := m.refs[p := m.refs[p] + 1], held := m.held - {p}, pins := m.pins + multiset{p})
  }

  lemma PinStep(m: Mem, p: nat)
    requires Inv(m) && p < |m.refs| && p !in m.reserved && p !in m.roles
    requires p in m.held || m.refs[p] > 0
    ensures Inv(Pin(m, p)) && SameMaps(m, Pin(m, p))
  {
    var m' := Pin(m, p);
    assert SameView(m, m');
    SameViewCounts(m, m');
    SameViewKeepsRoles(m, m');
  }

  /** pp_ref has 16 bits: the increment keeps the invariant exactly when it does not wrap. */
  lemma PinExact(m: Mem, p: nat)
    requires Inv(m) && p < |m.refs| && p !in m.reserved && p !in m.roles && m.refs[p] <= MAXREF
    requires p in m.held || m.refs[p] > 0
    ensures Inv(Pin(m, p).(refs := m.refs[p := (m.refs[p] + 1) % (MAXREF + 1)])) <==> m.refs[p] < MAXREF
  {
    var m' := Pin(m, p).(refs := m.refs[p := (m.refs[p] + 1) % (MAXREF + 1)]);
    if m.refs[p] < MAXREF {
      PinStep(m, p);
      assert m' == Pin(m, p);
    } else {
      assert m'.refs[p] == 0 && m'.pins[p] > 0;
    }
  }

  /** The entry that holds a pinned reference is written over an empty one. */
  ghost function MapIn(m: Mem, e0: nat, v0: nat, x: Entry): Mem
    requires Sized(m) && e0 < NENV && v0 < NUPAGES && PdeAt(m, e0, v0 / NPTENTRIES).ppn < |m.frames|
  {
    SetWord(m, PdeAt(m, e0, v0 / NPTENTRIES).ppn, v0 % NPTENTRIES, x).(pins := m.pins - multiset{x.ppn})
  }

  lemma MapStep(m: Mem, e0: nat, v0: nat, x: Entry)
    requires Inv(m) && e0 < NENV && v0 < NUPAGES
    requires Present(PdeAt(m, e0, v0 / NPTENTRIES)) && !Present(PteAt(m, e0, v0))
    requires Present(x) && x.ppn in m.pins && x.ppn !in m.roles && x.ppn !in m.held
    ensures PdeAt(m, e0, v0 / NPTENTRIES).ppn < |m.frames|
    ensures var m' := MapIn(m, e0, v0, x);
            Inv(m') && MapsBut(m, m', e0, v0) && MapAt(m', e0, v0) == Some(x)
            && PdeAt(m', e0, v0 / NPTENTRIES) == PdeAt(m, e0, v0 / NPTENTRIES)
  {
    PteWriteView(m, e0, v0, x);
    var m1 := SetWord(m, PdeAt(m, e0, v0 / NPTENTRIES).ppn, v0 % NPTENTRIES, x);
    var m' := MapIn(m, e0, v0, x);
    assert OnePteView(m, m', e0, v0, x) by { ViewIgnoresPins(m, m1, m', e0, v0, x); }
    OnePteCounts(m, m', e0, v0);
    OnePteKeepsRoles(m, m', e0, v0, x);
  }

  lemma ViewIgnoresPins(m: Mem, m1: Mem, m': Mem, e0: nat, v0: nat, x: Entry)
    requires Sized(m) && Sized(m1) && Sized(m') && e0 < NENV && v0 < NUPAGES
    requires OnePteView(m, m1, e0, v0, x) && m'.frames == m1.frames && m'.dirs == m1.dirs
    ensures OnePteView(m, m', e0, v0, x)
  {
    forall e, i | 0 <= e < NENV && 0 <= i < NUPDE ensures PdeAt(m', e, i) == PdeAt(m1, e, i) {
    }
    forall e, v | 0 <= e < NENV && 0 <= v < NUPAGES ensures PteAt(m', e, v) == PteAt(m1, e, v) {
    }
  }

  lemma OnePteCounts(m: Mem, m': Mem, e0: nat, v0: nat)
    requires Sized(m) && Sized(m') && e0 < NENV && v0 < NUPAGES
    requires OnePteView(m, m', e0, v0, PteAt(m', e0, v0))
    ensures forall p :: |RefSites(m', p)| ==
              |RefSites(m, p)| - Hit(m, PteSite(e0, v0), p) + Hit(m', PteSite(e0, v0), p)
  {
    var s0 := PteSite(e0, v0);
    forall s | InRange(s) && s != s0 ensures NameAt(m', s) == NameAt(m, s) {
    }
    forall p ensures |RefSites(m', p)| == |RefSites(m, p)| - Hit(m, s0, p) + Hit(m', s0, p) {
      OneSiteChange(m, m', s0, p);
    }
  }

  lemma OnePteKeepsRoles(m: Mem, m': Mem, e0: nat, v0: nat, x: Entry)
    requires Inv(m) && Sized(m') && e0 < NENV && v0 < NUPAGES && OnePteView(m, m', e0, v0, x)
    requires m'.roles == m.roles && m'.reserved == m.reserved && m'.held == m.held
    requires |m'.frames| == |m.frames|
    requires Present(x) ==> 0 <= x.ppn < |m.frames| && x.ppn !in m.roles && x.ppn !in m.reserved && x.ppn !in m.held
    ensures RolesOk(m') && MapsOk(m')
  {
    forall f | f in m'.roles ensures RoleHolds(m', f, m'.roles[f]) {
      assert RoleHolds(m, f, m.roles[f]);
    }
  }

  /** page_remove of a present mapping: count down, free at 0, clear the word. */
  ghost function Unmap(m: Mem, e0: nat, v0: nat): Mem
    requires Sized(m) && e0 < NENV && v0 < NUPAGES
  {
    var x, t := PteAt(m, e0, v0), PdeAt(m, e0, v0 / NPTENTRIES).ppn;
    if Present(x) && x.ppn < |m.refs| && t < |m.frames|
    then SetWord(Decref(m, x.ppn), t, v0 % NPTENTRIES, ZERO)
    else m
  }

  lemma UnmapStep(m: Mem, e0: nat, v0: nat)
    requires Inv(m) && e0 < NENV && v0 < NUPAGES
    ensures Present(PteAt(m, e0, v0)) ==>
              PteAt(m, e0, v0).ppn < |m.refs| && m.refs[PteAt(m, e0, v0).ppn] > 0
              && PteAt(m, e0, v0).ppn !in m.free
              && Present(PdeAt(m, e0, v0 / NPTENTRIES)) && PdeAt(m, e0, v0 / NPTENTRIES).ppn < |m.frames|
    ensures var m' := Unmap(m, e0, v0);
            Inv(m') && MapsBut(m, m', e0, v0) && MapAt(m', e0, v0) == None && m'.dirs == m.dirs
            && (forall e, i :: 0 <= e < NENV && 0 <= i < NUPDE ==> PdeAt(m', e, i) == PdeAt(m, e, i))
  {
    hide RolesOk, MapsOk, CountsOk, FreeOk, RefSites;
    if Present(PteAt(m, e0, v0)) {
      var p := PteAt(m, e0, v0).ppn;
      NamedIsCounted(m, PteSite(e0, v0));
      PdeOfPte(m, e0, v0);
      PteWriteView(m, e0, v0, ZERO);
      var m1 := SetWord(m, PdeAt(m, e0, v0 / NPTENTRIES).ppn, v0 % NPTENTRIES, ZERO);
      var m' := Unmap(m, e0, v0);
      assert OnePteView(m, m', e0, v0, ZERO) by { ViewIgnoresPins(m, m1, m', e0, v0, ZERO); }
      OnePteCounts(m, m', e0, v0);
      OnePteKeepsRoles(m, m', e0, v0, ZERO);
      DecrefCounts(m, m', p);
    }
  }

  lemma PdeOfPte(m: Mem, e: nat, v: nat)
    requires Inv(m) && e < NENV && v < NUPAGES && Present(PteAt(m, e, v))
    ensures Present(PdeAt(m, e, v / NPTENTRIES)) && PteAt(m, e, v).ppn !in m.free
  {
    NamedIsCounted(m, PteSite(e, v));
  }

  lemma OnePdeCounts(m: Mem, m': Mem, e0: nat, i0: nat)
    requires Sized(m) && Sized(m') && e0 < NENV && i0 < NUPDE
    requires OnePdeView(m, m', e0, i0, PdeAt(m', e0, i0))
    ensures forall p :: |RefSites(m', p)| ==
              |RefSites(m, p)| - Hit(m, PdeSite(e0, i0), p) + Hit(m', PdeSite(e0, i0), p)
  {
    var s0 := PdeSite(e0, i0);
    forall s | InRange(s) && s != s0 ensures NameAt(m', s) == NameAt(m, s) {
    }
    forall p ensures |RefSites(m', p)| == |RefSites(m, p)| - Hit(m, s0, p) + Hit(m', s0, p) {
      OneSiteChange(m, m', s0, p);
    }
  }

  lemma PdeViewIgnoresRest(m: Mem, m1: Mem, m': Mem, e0: nat, i0: nat, x: Entry)
    requires Sized(m) && Sized(m1) && Sized(m') && e0 < NENV && i0 < NUPDE
    requires OnePdeView(m, m1, e0, i0, x) && m'.frames == m1.frames && m'.dirs == m1.dirs
    ensures OnePdeView(m, m', e0, i0, x)
  {
    SameFramesSameView(m1, m');
  }

  const NEWPDE: Bits := {0, 1, 2}   // PTE_P | PTE_W | PTE_U

  /** pgdir_walk installs the zeroed page `t` it has in hand as a page table. */
  ghost function AddTable(m: Mem, e0: nat, i0: nat, t: nat): Mem
    requires Sized(m) && e0 < NENV && i0 < NUPDE && m.dirs[e0] != NONE && t < |m.refs|
  {
    SetWord(m, m.dirs[e0], i0, Entry(t, NEWPDE))
    .(refs := m.refs[t := m.refs[t] + 1], held := m.held - {t}, roles := m.roles[t := TableOf(e0, i0)])
  }

  lemma NewTableStep(m: Mem, e0: nat, i0: nat, t: nat)
    requires Inv(m) && e0 < NENV && i0 < NUPDE && m.dirs[e0] != NONE && !Present(PdeAt(m, e0, i0))
    requires t in m.held && m.frames[t] == Blank()
    ensures Inv(AddTable(m, e0, i0, t))
    ensures OnePdeView(m, AddTable(m, e0, i0, t), e0, i0, Entry(t, NEWPDE))
    ensures SameMaps(m, AddTable(m, e0, i0, t))
  {
    hide RolesOk, MapsOk, CountsOk, FreeOk, RefSites;
    var x := Entry(t, NEWPDE);
    var d := m.dirs[e0];
    HeldIsPage(m, t);
    DirNotHeld(m, e0);
    forall j | 0 <= j < NPTENTRIES ensures KeepsMapping(m, e0, i0, j, x) {
      assert (i0 * NPTENTRIES + j) / NPTENTRIES == i0;
    }
    PdeWriteView(m, e0, i0, x);
    var m1 := SetWord(m, d, i0, x);
    var m' := AddTable(m, e0, i0, t);
    PdeViewIgnoresRest(m, m1, m', e0, i0, x);
    OnePdeCounts(m, m', e0, i0);
    FirstRefCounts(m, m', t);
    NewTableRoles(m, m', e0, i0, t);
  }

  lemma HeldIsPage(m: Mem, p: int)
    requires Inv(m) && p in m.held
    ensures 0 <= p < |m.refs| && p !in m.roles && p !in m.reserved
  {
  }

  lemma DirNotHeld(m: Mem, e: nat)
    requires Inv(m) && e < NENV && m.dirs[e] != NONE
    ensures m.dirs[e] !in m.held
  {
    assert RoleHolds(m, m.dirs[e], m.roles[m.dirs[e]]);
  }

  lemma NewTableRoles(m: Mem, m': Mem, e0: nat, i0: nat, t: nat)
    requires Inv(m) && Sized(m') && e0 < NENV && i0 < NUPDE && !Present(PdeAt(m, e0, i0))
    requires t in m.held && OnePdeView(m, m', e0, i0, Entry(t, NEWPDE))
    requires |m'.frames| == |m.frames| && m'.reserved == m.reserved && m'.held == m.held - {t}
    requires m'.roles == m.roles[t := TableOf(e0, i0)]
    ensures RolesOk(m') && MapsOk(m')
  {
    assert t !in m.roles;
    forall f | f in m'.roles ensures RoleHolds(m', f, m'.roles[f]) {
      if f != t { assert RoleHolds(m, f, m.roles[f]); }
    }
    forall e, v | 0 <= e < NENV && 0 <= v < NUPAGES && Present(PteAt(m', e, v))
      ensures PteAt(m', e, v).ppn != t
    {
      assert PteAt(m', e, v) == PteAt(m, e, v);
    }
  }

  /** page_insert adds permission bits to the directory entry above the page. */
  ghost function AddFlags(m: Mem, e0: nat, i0: nat, bits: Bits): Mem
    requires Sized(m) && e0 < NENV && i0 < NUPDE && m.dirs[e0] != NONE
  {
    SetWord(m, m.dirs[e0], i0, Entry(PdeAt(m, e0, i0).ppn, PdeAt(m, e0, i0).flags + bits))
  }

  lemma PdeFlagsStep(m: Mem, e0: nat, i0: nat, bits: Bits)
    requires Inv(m) && e0 < NENV && i0 < NUPDE && Present(PdeAt(m, e0, i0))
    ensures var m' := AddFlags(m, e0, i0, bits);
            Inv(m') && SameNames(m, m') && SameMaps(m, m')
  {
    var x := PdeAt(m, e0, i0);
    PdeFlagsView(m, e0, i0, Entry(x.ppn, x.flags + bits));
    var m' := AddFlags(m, e0, i0, bits);
    forall p ensures RefSites(m', p) == RefSites(m, p) { NoSiteChange(m, m', p); }
    forall f | f in m'.roles ensures RoleHolds(m', f, m'.roles[f]) {
      assert RoleHolds(m, f, m.roles[f]);
    }
  }

  ghost predicate SamePtes(m: Mem, m': Mem)
    requires Sized(m) && Sized(m')
  {
    forall e, v :: 0 <= e < NENV && 0 <= v < NUPAGES ==> PteAt(m', e, v) == PteAt(m, e, v)
  }

  ghost predicate SameNames(m: Mem, m': Mem)
    requires Sized(m) && Sized(m')
  {
    forall s :: InRange(s) ==> NameAt(m', s) == NameAt(m, s)
  }

  lemma PdeFlagsView(m: Mem, e0: nat, i0: nat, y: Entry)
    requires Inv(m) && e0 < NENV && i0 < NUPDE && Present(PdeAt(m, e0, i0))
    requires Present(y) && y.ppn == PdeAt(m, e0, i0).ppn
    ensures var m' := SetWord(m, m.dirs[e0], i0, y);
            Sized(m') && OnePdeView(m, m', e0, i0, y) && SameNames(m, m') && SamePtes(m, m')
  {
    var x, d := PdeAt(m, e0, i0), m.dirs[e0];
    assert RoleHolds(m, x.ppn, m.roles[x.ppn]) && RoleHolds(m, d, m.roles[d]);
    forall j | 0 <= j < NPTENTRIES ensures KeepsMapping(m, e0, i0, j, y) {
      assert (i0 * NPTENTRIES + j) / NPTENTRIES == i0;
    }
    PdeWriteView(m, e0, i0, y);
    var m' := SetWord(m, d, i0, y);
    forall e, v | 0 <= e < NENV && 0 <= v < NUPAGES ensures PteAt(m', e, v) == PteAt(m, e, v) {
      var i := v / NPTENTRIES;
      assert Present(PdeAt(m, e, i)) ==> PdeAt(m, e, i).ppn != d;
      assert e != e0 || i != i0 ==> PdeAt(m', e, i) == PdeAt(m, e, i);
    }
  }

  /** env_free drops a page table all of whose entries are gone. */
  ghost function DropTable(m: Mem, e0: nat, i0: nat): Mem
    requires Sized(m) && e0 < NENV && i0 < NUPDE && m.dirs[e0] != NONE
    requires PdeAt(m, e0, i0).ppn < |m.refs| && m.refs[PdeAt(m, e0, i0).ppn] > 0
  {
    var t := PdeAt(m, e0, i0).ppn;
    Decref(SetWord(m, m.dirs[e0], i0, ZERO), t).(roles := m.roles - {t})
  }

  lemma DropTableStep(m: Mem, e0: nat, i0: nat)
    requires Inv(m) && e0 < NENV && i0 < NUPDE && Present(PdeAt(m, e0, i0))
    requires forall v :: 0 <= v < NUPAGES && v / NPTENTRIES == i0 ==> MapAt(m, e0, v) == None
    ensures var t := PdeAt(m, e0, i0).ppn;
            t < |m.refs| && m.refs[t] > 0 && t !in m.free && 0 <= m.dirs[e0] < |m.frames|
    ensures var m' := DropTable(m, e0, i0);
            Inv(m') && OnePdeView(m, m', e0, i0, ZERO) && SameMaps(m, m')
  {
    hide RolesOk, MapsOk, CountsOk, FreeOk, RefSites;
    var t := PdeAt(m, e0, i0).ppn;
    var d := m.dirs[e0];
    NamedIsCounted(m, PdeSite(e0, i0));
    CountedNotFree(m, t);
    forall j | 0 <= j < NPTENTRIES ensures KeepsMapping(m, e0, i0, j, ZERO) {
      assert (i0 * NPTENTRIES + j) / NPTENTRIES == i0;
      assert MapAt(m, e0, i0 * NPTENTRIES + j) == None;
    }
    PdeWriteView(m, e0, i0, ZERO);
    var m1 := SetWord(m, d, i0, ZERO);
    var m' := DropTable(m, e0, i0);
    PdeViewIgnoresRest(m, m1, m', e0, i0, ZERO);
    OnePdeCounts(m, m', e0, i0);
    DecrefCounts(m, m', t);
    DropTableRoles(m, m', e0, i0);
  }

  lemma CountedNotFree(m: Mem, p: int)
    requires Inv(m) && 0 <= p < |m.refs| && m.refs[p] > 0
    ensures p !in m.free
  {
  }

  lemma DropTableRoles(m: Mem, m': Mem, e0: nat, i0: nat)
    requires Inv(m) && Sized(m') && e0 < NENV && i0 < NUPDE && Present(PdeAt(m, e0, i0))
    requires OnePdeView(m, m', e0, i0, ZERO) && m'.roles == m.roles - {PdeAt(m, e0, i0).ppn}
    requires |m'.frames| == |m.frames| && m'.reserved == m.reserved && m'.held == m.held
    ensures RolesOk(m') && MapsOk(m')
  {
    forall f | f in m'.roles ensures RoleHolds(m', f, m'.roles[f]) {
      assert RoleHolds(m, f, m.roles[f]);
    }
  }

  /** `m'` differs from `m` in which directory environment `e0` has; neither the
      old nor the new one maps a user page. */
  ghost predicate OneDirView(m: Mem, m': Mem, e0: nat, d: int)
    requires Sized(m) && Sized(m') && e0 < NENV
  {
    && m'.dirs == m.dirs[e0 := d]
    && (forall e, i :: 0 <= e < NENV && 0 <= i < NUPDE && e != e0 ==> PdeAt(m', e, i) == PdeAt(m, e, i))
    && (forall e, v :: 0 <= e < NENV && 0 <= v < NUPAGES && e != e0 ==> PteAt(m', e, v) == PteAt(m, e, v))
    && (forall i :: 0 <= i < NUPDE ==> !Present(PdeAt(m', e0, i)) && !Present(PdeAt(m, e0, i)))
  }

  lemma OneDirCounts(m: Mem, m': Mem, e0: nat, d: int)
    requires Sized(m) && Sized(m') && e0 < NENV && OneDirView(m, m', e0, d)
    ensures forall p :: |RefSites(m', p)| ==
              |RefSites(m, p)| - Hit(m, DirSite(e0), p) + Hit(m', DirSite(e0), p)
  {
    var s0 := DirSite(e0);
    forall s | InRange(s) && s != s0 ensures NameAt(m', s) == NameAt(m, s) {
    }
    forall p ensures |RefSites(m', p)| == |RefSites(m, p)| - Hit(m, s0, p) + Hit(m', s0, p) {
      OneSiteChange(m, m', s0, p);
    }
  }

  /** env_setup_vm: the page in hand becomes the directory of an environment that
      had none, with no user entry present. */
  ghost function AddDir(m: Mem, e0: nat, d: nat): Mem
    requires e0 < |m.dirs| && d < |m.refs|
  {
    m.(refs := m.refs[d := m.refs[d] + 1], held := m.held - {d},
       dirs := m.dirs[e0 := d], roles := m.roles[d := DirOf(e0)])
  }

  lemma NewDirStep(m: Mem, e0: nat, d: nat)
    requires Inv(m) && e0 < NENV && m.dirs[e0] == NONE && d in m.held
    requires forall i :: 0 <= i < NUPDE ==> !Present(m.frames[d][i])
    ensures Inv(AddDir(m, e0, d)) && OneDirView(m, AddDir(m, e0, d), e0, d) && SameMaps(m, AddDir(m, e0, d))
  {
    hide RolesOk, MapsOk, CountsOk, FreeOk, RefSites;
    HeldIsPage(m, d);
    var m' := AddDir(m, e0, d);
    forall e, i | 0 <= e < NENV && 0 <= i < NUPDE && e != e0 ensures PdeAt(m', e, i) == PdeAt(m, e, i) {
    }
    OneDirCounts(m, m', e0, d);
    FirstRefCounts(m, m', d);
    OneDirKeepsRoles(m, m', e0, d);
  }

  /** env_free drops an empty directory. */
  ghost function DropDir(m: Mem, e0: nat): Mem
    requires e0 < |m.dirs| && 0 <= m.dirs[e0] < |m.refs| && m.refs[m.dirs[e0]] > 0
  {
    var d := m.dirs[e0];
    Decref(m.(dirs := m.dirs[e0 := NONE]), d).(roles := m.roles - {d})
  }

  lemma DropDirStep(m: Mem, e0: nat)
    requires Inv(m) && e0 < NENV && m.dirs[e0] != NONE
    requires forall i :: 0 <= i < NUPDE ==> !Present(PdeAt(m, e0, i))
    ensures 0 <= m.dirs[e0] < |m.refs| && m.refs[m.dirs[e0]] > 0 && m.dirs[e0] !in m.free
    ensures Inv(DropDir(m, e0)) && OneDirView(m, DropDir(m, e0), e0, NONE) && SameMaps(m, DropDir(m, e0))
  {
    hide RolesOk, MapsOk, CountsOk, FreeOk, RefSites;
    var d := m.dirs[e0];
    NamedIsCounted(m, DirSite(e0));
    CountedNotFree(m, d);
    var m' := DropDir(m, e0);
    forall e, i | 0 <= e < NENV && 0 <= i < NUPDE && e != e0 ensures PdeAt(m', e, i) == PdeAt(m, e, i) {
    }
    OneDirCounts(m, m', e0, NONE);
    DecrefCounts(m, m', d);
    OneDirKeepsRoles(m, m', e0, NONE);
  }

  /** Environment `e0` has got or lost an empty directory; all roles but that one stand. */
  lemma OneDirKeepsRoles(m: Mem, m': Mem, e0: nat, d: int)
    requires Inv(m) && Sized(m') && e0 < NENV && OneDirView(m, m', e0, d)
    requires m'.roles == if d == NONE then m.roles - {m.dirs[e0]} else m.roles[d := DirOf(e0)]
    requires d == NONE || (0 <= d < |m.frames| && d in m.held && d !in m.reserved && m.dirs[e0] == NONE)
    requires |m'.frames| == |m.frames| && m'.reserved == m.reserved && m'.held == m.held - {d}
    ensures RolesOk(m') && MapsOk(m')
  {
    assert d != NONE ==> d !in m.roles;
    forall f | f in m'.roles ensures RoleHolds(m', f, m'.roles[f]) {
      if f != d { assert RoleHolds(m, f, m.roles[f]); }
    }
    forall e, v | 0 <= e < NENV && 0 <= v < NUPAGES && Present(PteAt(m', e, v))
      ensures e != e0 && PteAt(m', e, v) == PteAt(m, e, v)
    {
    }
  }
}
