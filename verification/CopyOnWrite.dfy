/** User-level copy-on-write fork (lab/lib/fork.c) and, beside it, the eager fork it
    stands for. A run interleaves, in any order, the system calls of forks in progress,
    stores, the two halves of page fault handling, page allocation and exits. */
module CopyOnWrite {
  import opened Basics
  import opened Paging

  const PFTEMP: int := 2047                    // page number of the fault handler's scratch address
  const UXSTACK: int := NUPAGES - 1            // page number of the exception stack

  type Page = seq<int>

  datatype Loc = Loc(env: int, vpn: int)

  /** A user mapping: frame and the bits PTE_W, PTE_COW, PTE_SHARE. */
  datatype Pte = Pte(frame: int, w: bool, cow: bool, share: bool)

  /** A fork under way: the child, the next page to duplicate, and whether that page has
      been mapped in the child but not yet remapped in the parent. */
  datatype Forking = Forking(child: int, at: int, half: bool)

  /** `envs` are the existing environments, `building` those not yet made runnable,
      `pend` pages mapped in a child while still writable in its parent, `handling` the
      page each environment inside the fault handler has copied but not yet remapped. */
  datatype Lazy = Lazy(
    frames: seq<Page>,
    maps: map<Loc, Pte>,
    envs: set<int>,
    building: set<int>,
    forks: map<int, Forking>,
    pend: set<Loc>,
    handling: map<int, int>)

  datatype Op =
    | Start(env: int, child: int)              // sys_exofork
    | Dup(env: int)                            // duppage: map into the child
    | DupSelf(env: int)                        // duppage: remap in the parent
    | Finish(env: int, frame: int)             // exception stack, then ENV_RUNNABLE
    | Store(env: int, vpn: int, k: int, x: int)
    | Copy(env: int, vpn: int, frame: int)     // pgfault: allocate and copy
    | Remap(env: int)                          // pgfault: move the copy into place
    | Alloc(env: int, vpn: int, frame: int, w: bool, share: bool)
    | Drop(env: int, vpn: int)
    | Exit(env: int)

  // ---- the lazy system ----

  ghost predicate Unused(c: Lazy, f: int) {
    0 <= f < |c.frames| && forall l :: l in c.maps ==> c.maps[l].frame != f
  }

  /** Environment `e` runs user code: it exists, is runnable and not in the handler. */
  ghost predicate Runs(c: Lazy, e: int) {
    e in c.envs && e !in c.building && e !in c.handling
  }

  ghost predicate UserPage(v: int) {
    0 <= v < NUPAGES && v != PFTEMP
  }

  ghost predicate Enabled(c: Lazy, op: Op) {
    match op
    case Start(e, ch) => Runs(c, e) && e !in c.forks && ch !in c.envs
    case Dup(e) => Runs(c, e) && e in c.forks && !c.forks[e].half && c.forks[e].at < UXSTACK
    case DupSelf(e) => Runs(c, e) && e in c.forks && c.forks[e].half
    case Finish(e, f) => Runs(c, e) && e in c.forks && !c.forks[e].half && c.forks[e].at == UXSTACK && Unused(c, f)
    case Store(e, v, _, _) =>
      Runs(c, e) && UserPage(v) && Loc(e, v) in c.maps && c.maps[Loc(e, v)].w
    case Copy(e, v, f) =>
      Runs(c, e) && UserPage(v) && Loc(e, v) in c.maps && c.maps[Loc(e, v)].cow && Unused(c, f)
    case Remap(e) => e in c.envs && e in c.handling
    case Alloc(e, v, f, _, _) => Runs(c, e) && e !in c.forks && UserPage(v) && Unused(c, f)
    case Drop(e, v) => Runs(c, e) && e !in c.forks && UserPage(v)
    case Exit(e) => e in c.envs && e !in c.building
  }

  function Zero(): Page {
    seq(NPTENTRIES, _ => 0)
  }

  function Put(p: Page, k: int, x: int): (r: Page)
    ensures |r| == |p| && forall i :: 0 <= i < |p| ==> r[i] == if i == k then x else p[i]
  {
    if 0 <= k < |p| then p[k := x] else p
  }

  ghost function StartS(c: Lazy, e: int, ch: int): Lazy {
    c.(envs := c.envs + {ch}, building := c.building + {ch}, forks := c.forks[e := Forking(ch, 0, false)])
  }

  /** duppage's test on the parent's entry: the page gets a copy-on-write mapping. */
  predicate MakesCow(p: Pte) {
    !p.share && (p.cow || p.w)
  }

  ghost function SkipS(c: Lazy, e: int): Lazy
    requires e in c.forks
  {
    c.(forks := c.forks[e := c.forks[e].(at := c.forks[e].at + 1)])
  }

  /** Map a shared or read-only page into the child as it is. */
  ghost function DupWholeS(c: Lazy, e: int): Lazy
    requires e in c.forks && Loc(e, c.forks[e].at) in c.maps
  {
    SkipS(c, e).(maps := c.maps[Loc(c.forks[e].child, c.forks[e].at) := c.maps[Loc(e, c.forks[e].at)]])
  }

  /** Map a writable or copy-on-write page into the child copy-on-write. */
  ghost function DupHalfS(c: Lazy, e: int): Lazy
    requires e in c.forks && Loc(e, c.forks[e].at) in c.maps
  {
    var f := c.forks[e];
    var p, to := c.maps[Loc(e, f.at)], Loc(f.child, f.at);
    c.(maps := c.maps[to := Pte(p.frame, false, true, false)],
       forks := c.forks[e := f.(half := true)],
       pend := if p.w && f.at != PFTEMP then c.pend + {to} else c.pend)
  }

  ghost function DupSelfS(c: Lazy, e: int): Lazy
    requires e in c.forks && Loc(e, c.forks[e].at) in c.maps
  {
    var f := c.forks[e];
    var l := Loc(e, f.at);
    c.(forks := c.forks[e := f.(at := f.at + 1, half := false)], pend := c.pend - {Loc(f.child, f.at)},
       maps := c.maps[l := Pte(c.maps[l].frame, false, true, false)])
  }

  ghost function FinishS(c: Lazy, e: int, f: int): Lazy
    requires e in c.forks && 0 <= f < |c.frames|
  {
    var ch := c.forks[e].child;
    c.(frames := c.frames[f := Zero()], maps := c.maps[Loc(ch, UXSTACK) := Pte(f, true, false, false)],
       building := c.building - {ch}, forks := c.forks - {e})
  }

  ghost function StoreS(c: Lazy, e: int, v: int, k: int, x: int): Lazy
    requires Frames(c) && Loc(e, v) in c.maps
  {
    var f := c.maps[Loc(e, v)].frame;
    c.(frames := c.frames[f := Put(c.frames[f], k, x)])
  }

  ghost function CopyS(c: Lazy, e: int, v: int, f: int): Lazy
    requires Frames(c) && Loc(e, v) in c.maps && 0 <= f < |c.frames|
  {
    c.(frames := c.frames[f := c.frames[c.maps[Loc(e, v)].frame]],
       maps := c.maps[Loc(e, PFTEMP) := Pte(f, true, false, false)],
       handling := c.handling[e := v])
  }

  ghost function RemapS(c: Lazy, e: int): Lazy
    requires e in c.handling && Loc(e, PFTEMP) in c.maps
  {
    c.(handling := c.handling - {e},
       maps := c.maps[Loc(e, c.handling[e]) := Pte(c.maps[Loc(e, PFTEMP)].frame, true, false, false)])
  }

  ghost function AllocS(c: Lazy, e: int, v: int, f: int, w: bool, s: bool): Lazy
    requires 0 <= f < |c.frames|
  {
    c.(frames := c.frames[f := Zero()], maps := c.maps[Loc(e, v) := Pte(f, w, false, s)])
  }

  ghost function DropS(c: Lazy, e: int, v: int): Lazy {
    c.(maps := c.maps - {Loc(e, v)})
  }

  ghost function ExitS(c: Lazy, e: int): Lazy {
    c.(maps := map l | l in c.maps && l.env != e :: c.maps[l],
       envs := c.envs - {e}, forks := c.forks - {e}, handling := c.handling - {e})
  }

  ghost function Step(c: Lazy, op: Op): Lazy
    requires CowInv(c) && Enabled(c, op)
  {
    match op
    case Start(e, ch) => StartS(c, e, ch)
    case Dup(e) =>
      if Loc(e, c.forks[e].at) !in c.maps then SkipS(c, e)
      else if MakesCow(c.maps[Loc(e, c.forks[e].at)]) then DupHalfS(c, e)
      else DupWholeS(c, e)
    case DupSelf(e) => HalfMapped(c, e); DupSelfS(c, e)
    case Finish(e, f) => FinishS(c, e, f)
    case Store(e, v, k, x) => StoreS(c, e, v, k, x)
    case Copy(e, v, f) => CopyS(c, e, v, f)
    case Remap(e) => ScratchMapped(c, e); RemapS(c, e)
    case Alloc(e, v, f, w, s) => AllocS(c, e, v, f, w, s)
    case Drop(e, v) => DropS(c, e, v)
    case Exit(e) => ExitS(c, e)
  }

  // ---- the eager system ----

  /** A page of its own, or a view of a page shared by PTE_SHARE. */
  datatype APage = Own(data: Page, writable: bool) | Shared(cell: int, writable: bool)

  datatype Eager = Eager(pages: map<Loc, APage>, cells: map<int, Page>)

  datatype AOp =
    | ACopy(env: int, child: int, vpn: int)    // copy one page, or share it, into the child
    | AStore(env: int, vpn: int, k: int, x: int)
    | AAlloc(env: int, vpn: int, cell: int, writable: bool, share: bool)
    | ADrop(env: int, vpn: int)
    | AExit(env: int)

  ghost predicate AEnabled(a: Eager, x: AOp) {
    match x
    case ACopy(e, _, v) => Loc(e, v) in a.pages
    case AStore(e, v, _, _) =>
      Loc(e, v) in a.pages && a.pages[Loc(e, v)].writable
      && (a.pages[Loc(e, v)].Shared? ==> a.pages[Loc(e, v)].cell in a.cells)
    case AAlloc(_, _, id, _, share) =>
      share ==> forall l :: l in a.pages && a.pages[l].Shared? ==> a.pages[l].cell != id
    case _ => true
  }

  ghost function AStep(a: Eager, x: AOp): Eager
    requires AEnabled(a, x)
  {
    match x
    case ACopy(e, ch, v) => a.(pages := a.pages[Loc(ch, v) := a.pages[Loc(e, v)]])
    case AStore(e, v, k, y) =>
      var l := Loc(e, v);
      (match a.pages[l]
       case Own(d, w) => a.(pages := a.pages[l := Own(Put(d, k, y), w)])
       case Shared(id, _) => a.(cells := a.cells[id := Put(a.cells[id], k, y)]))
    case AAlloc(e, v, id, w, share) =>
      if share then a.(pages := a.pages[Loc(e, v) := Shared(id, w)], cells := a.cells[id := Zero()])
      else a.(pages := a.pages[Loc(e, v) := Own(Zero(), w)])
    case ADrop(e, v) => a.(pages := a.pages - {Loc(e, v)})
    case AExit(e) => a.(pages := map l | l in a.pages && l.env != e :: a.pages[l])
  }

  /** The bytes a program reads. */
  ghost function ARead(a: Eager, l: Loc): Page
    requires l in a.pages && (a.pages[l].Shared? ==> a.pages[l].cell in a.cells)
  {
    match a.pages[l]
    case Own(d, _) => d
    case Shared(id, _) => a.cells[id]
  }

  /** The moment of the eager copy: at the first half of duppage, except for a page the
      parent can still write, where it is the second half. Faults are invisible. */
  ghost function EagerOp(c: Lazy, op: Op): Option<AOp>
    requires Enabled(c, op)
  {
    match op
    case Dup(e) =>
      var f := c.forks[e];
      if Loc(e, f.at) in c.maps && f.at != PFTEMP && (c.maps[Loc(e, f.at)].share || !c.maps[Loc(e, f.at)].w)
      then Some(ACopy(e, f.child, f.at)) else None
    case DupSelf(e) =>
      var f := c.forks[e];
      if Loc(f.child, f.at) in c.pend then Some(ACopy(e, f.child, f.at)) else None
    case Finish(e, f) => Some(AAlloc(c.forks[e].child, UXSTACK, f, true, false))
    case Store(e, v, k, x) => Some(AStore(e, v, k, x))
    case Alloc(e, v, f, w, s) => Some(AAlloc(e, v, f, w, s))
    case Drop(e, v) => Some(ADrop(e, v))
    case Exit(e) => Some(AExit(e))
    case _ => None
  }

  // ---- the invariant ----

  ghost predicate Frames(c: Lazy) {
    forall l :: l in c.maps ==> 0 <= c.maps[l].frame < |c.frames|
  }

  /** A mapping that programs can observe. */
  ghost predicate Plain(c: Lazy, l: Loc) {
    l in c.maps && l.vpn != PFTEMP && l !in c.pend
  }

  /** Two observable mappings share a frame only when both are PTE_SHARE or neither can
      be written. */
  ghost predicate Sharing(c: Lazy) {
    forall l, m :: Plain(c, l) && Plain(c, m) && l != m && c.maps[l].frame == c.maps[m].frame ==>
      c.maps[l].share == c.maps[m].share && (!c.maps[l].share ==> !c.maps[l].w && !c.maps[m].w)
  }

  ghost predicate FlagsOk(c: Lazy) {
    forall l :: l in c.maps ==> !(c.maps[l].share && c.maps[l].cow) && !(c.maps[l].w && c.maps[l].cow)
  }

  /** A pending page shares its frame with its parent's writable page and no other. */
  ghost predicate Pending(c: Lazy) {
    forall l :: l in c.pend ==>
      && l in c.maps && l.vpn != PFTEMP && c.maps[l].cow && l.env in c.building
      && OnlyParent(c, l)
  }

  ghost predicate OnlyParent(c: Lazy, l: Loc)
    requires l in c.maps
  {
    forall m :: m in c.maps && m.vpn != PFTEMP && m != l && c.maps[m].frame == c.maps[l].frame ==> ParentOf(c, l, m)
  }

  ghost predicate ParentOf(c: Lazy, l: Loc, m: Loc) {
    && m.env in c.forks && c.forks[m.env] == Forking(l.env, l.vpn, true) && m.vpn == l.vpn
    && m in c.maps && m !in c.pend && c.maps[m].w && !c.maps[m].share
  }

  /** Forks under way have children of their own; a child has only pages its parent has
      come to, and its only pending page is the one its parent is half way through. */
  ghost predicate Halves(c: Lazy) {
    && (forall e :: e in c.forks ==> ForkOk(c, e))
    && (forall d, e :: d in c.forks && e in c.forks && d != e ==> c.forks[d].child != c.forks[e].child)
  }

  ghost predicate ForkOk(c: Lazy, e: int)
    requires e in c.forks
  {
    var f := c.forks[e];
    && e !in c.building && f.child in c.building && 0 <= f.at <= UXSTACK
    && (f.half ==> f.at < UXSTACK && Loc(e, f.at) in c.maps)
    && (f.half && f.at != PFTEMP ==> HalfOk(c, e))
    && (forall l :: l in c.pend && l.env == f.child ==> f.half && l.vpn == f.at)
    && (forall l :: l in c.maps && l.env == f.child ==> l.vpn < f.at || (f.half && l.vpn == f.at))
  }

  /** Half way through a page: the parent still has it, writable exactly while the
      child's mapping is pending, in which case both name one frame. */
  ghost predicate HalfOk(c: Lazy, e: int)
    requires e in c.forks
  {
    var l, m := Loc(e, c.forks[e].at), Loc(c.forks[e].child, c.forks[e].at);
    && Plain(c, l) && !c.maps[l].share && (c.maps[l].w || c.maps[l].cow)
    && (m in c.pend ==> m in c.maps && c.maps[l].w && c.maps[m].frame == c.maps[l].frame)
  }

  /** In the fault handler: the scratch page is an exact copy that nobody else maps. */
  ghost predicate Handling(c: Lazy) {
    forall e :: e in c.handling ==> HandlerOk(c, e, Loc(e, c.handling[e]), Loc(e, PFTEMP))
  }

  ghost predicate HandlerOk(c: Lazy, e: int, l: Loc, t: Loc) {
    && e in c.envs && e !in c.building && UserPage(l.vpn)
    && Plain(c, l) && c.maps[l].cow && t in c.maps
    && 0 <= c.maps[t].frame < |c.frames| && 0 <= c.maps[l].frame < |c.frames|
    && c.frames[c.maps[t].frame] == c.frames[c.maps[l].frame]
    && Alone(c, t)
  }

  /** No other mapping names the frame that `t` names. */
  ghost predicate Alone(c: Lazy, t: Loc)
    requires t in c.maps
  {
    forall m :: m in c.maps && m != t ==> c.maps[m].frame != c.maps[t].frame
  }

  ghost predicate Domains(c: Lazy) {
    (forall l :: l in c.maps ==> l.env in c.envs) && c.building <= c.envs && c.forks.Keys <= c.envs
  }

  ghost predicate CowInv(c: Lazy) {
    Frames(c) && Sharing(c) && FlagsOk(c) && Pending(c) && Halves(c) && Handling(c) && Domains(c)
  }

  lemma HalfMapped(c: Lazy, e: int)
    requires CowInv(c) && e in c.forks && c.forks[e].half
    ensures Loc(e, c.forks[e].at) in c.maps
  {
    assert ForkOk(c, e);
  }

  lemma ScratchMapped(c: Lazy, e: int)
    requires CowInv(c) && e in c.handling
    ensures Loc(e, PFTEMP) in c.maps
  {
    assert HandlerOk(c, e, Loc(e, c.handling[e]), Loc(e, PFTEMP));
  }

  // ---- the simulation ----

  ghost predicate PageRel(c: Lazy, a: Eager, l: Loc)
    requires Frames(c)
  {
    && l in c.maps && l in a.pages
    && var p := c.maps[l];
    if p.share then a.pages[l] == Shared(p.frame, p.w) && p.frame in a.cells && a.cells[p.frame] == c.frames[p.frame]
    else a.pages[l] == Own(c.frames[p.frame], p.w || p.cow)
  }

  /** Programs of the lazy system see exactly the eager system: the same pages, with the
      same contents, and the same right to write. */
  ghost predicate Rel(c: Lazy, a: Eager)
    requires Frames(c)
  {
    && (forall l :: l in a.pages <==> Plain(c, l))
    && (forall l :: l in a.pages ==> PageRel(c, a, l))
  }
}
