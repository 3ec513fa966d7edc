/** Snapshots of the physical page array and the two-level page tables
    (lab/kern/pmap.c), the invariant that ties reference counts to page tables,
    and the lemmas about single changes to a snapshot. */
module Paging {
  import opened Basics
  import opened FreeList

  const NPTENTRIES: nat := 1024
  const NUPDE: nat := 955                      // PDX(UTOP): directory entries below UTOP
  const NUPAGES: nat := NUPDE * NPTENTRIES     // user virtual page numbers
  const NENV: nat := 1024
  const UTOP: nat := NUPAGES * PGSIZE
  const MAXREF: nat := 0xFFFF                  // pp_ref is a uint16_t

  /** A bit mask as the set of its bit positions: `|` is union, `&` is intersection. */
  type Bits = set<nat>

  const P: nat := 0                            // PTE_P
  const W: nat := 1                            // PTE_W
  const U: nat := 2                            // PTE_U
  const PTE_SYSCALL: Bits := {0, 1, 2, 9, 10, 11}

  /** A page table or page directory word: its frame number and its flag bits. */
  datatype Entry = Entry(ppn: nat, flags: Bits)

  const ZERO := Entry(0, {})

  predicate Present(x: Entry) {
    P in x.flags
  }

  /** The rights pgdir_walk gives a directory entry: present, writable, user. */
  predicate Wide(x: Entry) {
    P in x.flags && W in x.flags && U in x.flags
  }

  /** What a frame of physical memory is used for by the paging structures. */
  datatype Role = DirOf(env: nat) | TableOf(env: nat, pde: nat)

  /** A place that holds one counted reference to a page. */
  datatype Site = PteSite(env: nat, vpn: nat) | PdeSite(env: nat, pde: nat) | DirSite(env: nat)

  /** `refs` are the pp_ref fields, `free` the free list from its head, `frames`
      physical memory, `dirs` each environment's directory frame (or NONE).
      `reserved` are pages the allocator never hands out, `held` pages handed out
      but not yet mapped, `pins` references counted ahead of the word that will
      hold them, and `roles` says which frames are directories and page tables. */
  datatype Mem = Mem(
    refs: seq<nat>,
    free: seq<int>,
    frames: seq<seq<Entry>>,
    dirs: seq<int>,
    reserved: set<int>,
    held: set<int>,
    pins: multiset<int>,
    roles: map<int, Role>)

  // ---- the two-level walk, read as one flat function ----

  ghost predicate Sized(m: Mem) {
    && |m.frames| == |m.refs|
    && |m.dirs| == NENV
    && (forall f :: 0 <= f < |m.frames| ==> |m.frames[f]| == NPTENTRIES)
    && (forall e :: 0 <= e < NENV ==> NONE <= m.dirs[e] < |m.frames|)
  }

  ghost predicate Live(m: Mem, e: int) {
    0 <= e < |m.dirs| && m.dirs[e] != NONE
  }

  ghost function PdeAt(m: Mem, e: nat, i: nat): Entry
    requires Sized(m) && e < NENV && i < NUPDE
  {
    if m.dirs[e] == NONE then ZERO else m.frames[m.dirs[e]][i]
  }

  /** The user mapping of virtual page `v` in environment `e`; a word without
      PTE_P when there is none. */
  ghost function PteAt(m: Mem, e: nat, v: nat): Entry
    requires Sized(m) && e < NENV && v < NUPAGES
  {
    var pde := PdeAt(m, e, v / NPTENTRIES);
    if Present(pde) && pde.ppn < |m.frames| then m.frames[pde.ppn][v % NPTENTRIES] else ZERO
  }

  /** The flat view: what virtual page `v` of environment `e` is mapped to. */
  ghost function MapAt(m: Mem, e: nat, v: nat): Option<Entry>
    requires Sized(m) && e < NENV && v < NUPAGES
  {
    if Present(PteAt(m, e, v)) then Some(PteAt(m, e, v)) else None
  }

  /** All environments map all pages alike in `m` and `m'`. */
  ghost predicate SameMaps(m: Mem, m': Mem)
    requires Sized(m) && Sized(m')
  {
    forall e, v :: 0 <= e < NENV && 0 <= v < NUPAGES ==> MapAt(m', e, v) == MapAt(m, e, v)
  }

  /** The same, but for page `v0` of environment `e0`. */
  ghost predicate MapsBut(m: Mem, m': Mem, e0: nat, v0: nat)
    requires Sized(m) && Sized(m')
  {
    forall e, v :: 0 <= e < NENV && 0 <= v < NUPAGES && (e != e0 || v != v0) ==>
      MapAt(m', e, v) == MapAt(m, e, v)
  }

  ghost predicate InRange(s: Site) {
    match s
    case PteSite(e, v) => e < NENV && v < NUPAGES
    case PdeSite(e, i) => e < NENV && i < NUPDE
    case DirSite(e) => e < NENV
  }

  ghost function AllSites(): set<Site> {
    (set e: nat, v: nat | e < NENV && v < NUPAGES :: PteSite(e, v))
    + (set e: nat, i: nat | e < NENV && i < NUPDE :: PdeSite(e, i))
    + (set e: nat | e < NENV :: DirSite(e))
  }

  /** The page a site refers to, NONE when it refers to none. */
  ghost function NameAt(m: Mem, s: Site): int
    requires Sized(m) && InRange(s)
  {
    match s
    case PteSite(e, v) => if Present(PteAt(m, e, v)) then PteAt(m, e, v).ppn else NONE
    case PdeSite(e, i) => if Present(PdeAt(m, e, i)) then PdeAt(m, e, i).ppn else NONE
    case DirSite(e) => m.dirs[e]
  }

  /** All counted references to page `p`: the user PTEs that map it, the directory
      entries that use it as a page table, the environment it is the directory of. */
  ghost function RefSites(m: Mem, p: int): set<Site>
    requires Sized(m)
  {
    set s | s in AllSites() && InRange(s) && NameAt(m, s) == p
  }

  // ---- the invariant ----

  ghost predicate RolesOk(m: Mem)
    requires Sized(m)
  {
    && (forall e :: 0 <= e < NENV && m.dirs[e] != NONE ==>
          m.dirs[e] in m.roles && m.roles[m.dirs[e]] == DirOf(e))
    && (forall e, i :: 0 <= e < NENV && 0 <= i < NUPDE && Present(PdeAt(m, e, i)) ==>
          PdeAt(m, e, i).ppn in m.roles && m.roles[PdeAt(m, e, i).ppn] == TableOf(e, i)
          && Wide(PdeAt(m, e, i)))
    && (forall f :: f in m.roles ==> RoleHolds(m, f, m.roles[f]))
  }

  ghost predicate RoleHolds(m: Mem, f: int, r: Role)
    requires Sized(m)
  {
    && 0 <= f < |m.frames| && f !in m.reserved && f !in m.held
    && match r
       case DirOf(e) => e < NENV && m.dirs[e] == f
       case TableOf(e, i) => e < NENV && i < NUPDE && Present(PdeAt(m, e, i)) && PdeAt(m, e, i).ppn == f
  }

  /** User mappings name ordinary pages: never a page table, a directory or a
      reserved page. */
  ghost predicate MapsOk(m: Mem)
    requires Sized(m)
  {
    forall e, v :: 0 <= e < NENV && 0 <= v < NUPAGES && Present(PteAt(m, e, v)) ==>
      PteAt(m, e, v).ppn < |m.frames| && PteAt(m, e, v).ppn !in m.roles
      && PteAt(m, e, v).ppn !in m.reserved && PteAt(m, e, v).ppn !in m.held
  }

  ghost predicate CountsOk(m: Mem)
    requires Sized(m)
  {
    forall p :: 0 <= p < |m.refs| && p !in m.reserved ==> m.refs[p] == |RefSites(m, p)| + m.pins[p]
  }

  /** The free list holds each unreferenced page exactly once, except pages a
      caller of page_alloc has in hand. */
  ghost predicate FreeOk(m: Mem) {
    && NoDup(m.free)
    && (forall p :: p in m.free <==>
          0 <= p < |m.refs| && p !in m.reserved && p !in m.held && m.refs[p] == 0)
    && (forall p :: p in m.held ==> 0 <= p < |m.refs| && p !in m.reserved && m.refs[p] == 0)
    && (forall p :: p in m.pins ==> 0 <= p < |m.refs| && p !in m.reserved)
  }

  ghost predicate Inv(m: Mem) {
    Sized(m) && RolesOk(m) && MapsOk(m) && CountsOk(m) && FreeOk(m)
  }

  /** No kernel code is in the middle of a page operation. */
  ghost predicate Quiet(m: Mem) {
    Inv(m) && m.held == {} && m.pins == multiset{}
  }

  // ---- counting ----

  ghost function Hit(m: Mem, s: Site, p: int): nat
    requires Sized(m) && InRange(s)
  {
    if NameAt(m, s) == p then 1 else 0
  }

  /** Changing what one site names moves one reference and no other. */
  lemma OneSiteChange(m: Mem, m': Mem, s0: Site, p: int)
    requires Sized(m) && Sized(m') && InRange(s0)
    requires forall s :: InRange(s) && s != s0 ==> NameAt(m', s) == NameAt(m, s)
    ensures |RefSites(m', p)| == |RefSites(m, p)| - Hit(m, s0, p) + Hit(m', s0, p)
  {
    var a, b := RefSites(m, p) - {s0}, RefSites(m', p) - {s0};
    forall s ensures s in a <==> s in b {
      if InRange(s) && s != s0 {
        assert NameAt(m', s) == NameAt(m, s);
      }
    }
    assert a == b;
    assert s0 in AllSites();
    assert RefSites(m, p) == if Hit(m, s0, p) == 1 then a + {s0} else a;
    assert RefSites(m', p) == if Hit(m', s0, p) == 1 then b + {s0} else b;
  }

  lemma NoSiteChange(m: Mem, m': Mem, p: int)
    requires Sized(m) && Sized(m')
    requires forall s :: InRange(s) ==> NameAt(m', s) == NameAt(m, s)
    ensures RefSites(m', p) == RefSites(m, p)
  {
  }

  lemma NamedIsCounted(m: Mem, s: Site)
    requires Inv(m) && InRange(s) && NameAt(m, s) != NONE
    ensures 0 <= NameAt(m, s) < |m.refs| && NameAt(m, s) !in m.reserved
    ensures m.refs[NameAt(m, s)] >= 1
  {
    var p := NameAt(m, s);
    match s {
      case PteSite(e, v) =>
      case PdeSite(e, i) => assert p in m.roles && RoleHolds(m, p, m.roles[p]);
      case DirSite(e) => assert p in m.roles && RoleHolds(m, p, m.roles[p]);
    }
    assert s in AllSites();
    assert s in RefSites(m, p);
    assert RefSites(m, p) != {};
  }

  /** A page table or directory is never free, never held. */
  lemma RoleIsCounted(m: Mem, f: int)
    requires Inv(m) && f in m.roles
    ensures 0 <= f < |m.refs| && m.refs[f] >= 1
  {
    assert RoleHolds(m, f, m.roles[f]);
    match m.roles[f] {
      case DirOf(e) => NamedIsCounted(m, DirSite(e));
      case TableOf(e, i) => NamedIsCounted(m, PdeSite(e, i));
    }
  }
}
