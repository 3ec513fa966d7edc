/** The user-level heap (lab/lib/malloc.c): page runs with a reference count in the last
    word of the last page, and a cursor into the page being filled. */
module Malloc {
  import opened Basics

  const PBEGIN: int := 0x8000                  // mbegin / PGSIZE
  const PEND: int := 0x10000                   // mend / PGSIZE
  const MBEGIN: int := PBEGIN * PGSIZE
  const MEND: int := PEND * PGSIZE
  const MAXMALLOC: int := 1024 * 1024

  /** A live allocation: its bytes, and the page whose reference word counts it. */
  datatype Chunk = Chunk(addr: int, size: int, home: int)

  /** `mapped` are the heap pages in use, `cont` those marked PTE_CONTINUED, `refs` the
      reference words of the others; `live` are the allocations not yet freed. `lost` are
      pages whose cursor reference is never given back: the cursor came to rest on their
      first byte, where malloc takes it for a page not yet started. */
  datatype Heap = Heap(
    mptr: int, mapped: set<int>, cont: set<int>, refs: map<int, int>, live: map<int, Chunk>, lost: set<int>)

  /** ROUNDUP(n, 4) in 32-bit arithmetic. */
  function Round4(n: nat): nat {
    (n + 3) % 0x1_0000_0000 / 4 * 4
  }

  /** The rounded size holds the request exactly when rounding does not wrap. */
  lemma Round4Enough(n: nat)
    requires n < 0x1_0000_0000
    ensures Round4(n) >= n <==> n <= 0x1_0000_0000 - 4
  {
  }

  /** Without a wrap the rounded size is the next multiple of four. */
  lemma Round4Is(n: nat)
    requires n <= 0x1_0000_0000 - 4
    ensures n <= Round4(n) < n + 4 && Round4(n) % 4 == 0
  {
  }

  function PageOf(a: int): int {
    a / PGSIZE
  }

  // ---- the invariant ----

  /** The cursor is inside page `p`, holding a reference to it. */
  ghost predicate Open(h: Heap, p: int) {
    h.mptr % PGSIZE != 0 && PageOf(h.mptr) == p
  }

  ghost function LiveAt(h: Heap, p: int): set<int> {
    set i | i in h.live && h.live[i].home == p
  }

  ghost function Holders(h: Heap, p: int): nat {
    |LiveAt(h, p)| + (if Open(h, p) then 1 else 0) + (if p in h.lost then 1 else 0)
  }

  /** A chunk lies in mapped heap pages, its pages before the home page are marked
      continued, and it stays clear of the reference word. */
  ghost predicate ChunkOk(h: Heap, c: Chunk) {
    && PBEGIN <= PageOf(c.addr) <= c.home < PEND && c.size >= 0 && c.addr % 4 == 0 && c.size % 4 == 0
    && c.addr + c.size <= (c.home + 1) * PGSIZE - 4
    && c.home in h.mapped && c.home !in h.cont
    && (PageOf(c.addr) < c.home ==> c.addr % PGSIZE == 0)
    && forall p :: Body(c, p) ==> p in h.cont
  }

  /** The pages of a chunk before its home page. */
  predicate Body(c: Chunk, p: int) {
    PageOf(c.addr) <= p < c.home
  }

  predicate Disjoint(c: Chunk, d: Chunk) {
    c.addr + c.size <= d.addr || d.addr + d.size <= c.addr
  }

  /** The reference word counts exactly the live chunks of the page, the cursor if it is
      open there, and a lost reference; a page with none of these is not mapped. */
  ghost predicate RefOk(h: Heap, p: int) {
    p in h.refs && h.refs[p] == Holders(h, p) && h.refs[p] > 0
  }

  ghost predicate PagesOk(h: Heap) {
    && (forall p :: p in h.mapped ==> PBEGIN <= p < PEND)
    && h.cont <= h.mapped && h.lost <= h.mapped
    && (forall p :: p in h.mapped && p !in h.cont ==> RefOk(h, p))
    && h.cont !! h.lost
  }

  ghost predicate ChunksOk(h: Heap) {
    && (forall i :: i in h.live ==> ChunkOk(h, h.live[i]))
    && (forall i, j :: i in h.live && j in h.live && i != j ==> Disjoint(h.live[i], h.live[j]))
    && (forall i, j, p :: i in h.live && j in h.live && i != j && Body(h.live[i], p) ==>
          p < PageOf(h.live[j].addr) || p > h.live[j].home)
  }

  /** An open cursor is in an uncontinued page that is not lost, past every chunk of it. */
  ghost predicate CursorOk(h: Heap) {
    && (h.mptr == 0 || MBEGIN <= h.mptr <= MEND) && h.mptr % 4 == 0
    && (h.mptr % PGSIZE != 0 ==>
          var p := PageOf(h.mptr);
          && p in h.mapped && p !in h.cont && p !in h.lost && h.mptr <= (p + 1) * PGSIZE - 4
          && forall i :: i in h.live && h.live[i].home == p ==> h.live[i].addr + h.live[i].size <= h.mptr)
  }

  /** Every page marked continued is in the body of a live chunk. */
  ghost predicate ContOk(h: Heap) {
    forall p :: p in h.cont ==> InBody(h, p)
  }

  ghost predicate InBody(h: Heap, p: int) {
    exists i :: i in h.live && Body(h.live[i], p)
  }

  ghost predicate HeapInv(h: Heap) {
    PagesOk(h) && ChunksOk(h) && CursorOk(h) && ContOk(h)
  }

  // ---- free ----

  /** Pages `p` to `q - 1` are continued and `q` is not: the run free walks over. */
  ghost predicate RunTo(h: Heap, p: int, q: int) {
    p <= q && (forall k :: Between(p, q, k) ==> k in h.cont) && q in h.mapped && q !in h.cont
  }

  predicate Between(p: int, q: int, k: int) {
    p <= k < q
  }

  ghost function Pages(p: int, q: int): set<int> {
    set k | p <= k < q && Between(p, q, k)
  }

  /** free on the run from `p` to `q`. */
  ghost function FreeRun(h: Heap, p: int, q: int): Heap
    requires q in h.refs
  {
    var h1 := h.(mapped := h.mapped - Pages(p, q), cont := h.cont - Pages(p, q));
    if h.refs[q] == 1 then h1.(mapped := h1.mapped - {q}, refs := h.refs - {q})
    else h1.(refs := h.refs[q := h.refs[q] - 1])
  }

  lemma FreeChunk(h: Heap, i: int)
    requires HeapInv(h) && i in h.live
    ensures var c := h.live[i]; RunTo(h, PageOf(c.addr), c.home) && c.home in h.refs && h.refs[c.home] > 0
    ensures var c := h.live[i];
            HeapInv(FreeRun(h, PageOf(c.addr), c.home).(live := h.live - {i}))
  {
    hide HeapInv, PagesOk, ChunksOk, CursorOk, ContOk;
    FreeChunkFacts(h, i);
    var c := h.live[i];
    var h' := FreeRun(h, PageOf(c.addr), c.home).(live := h.live - {i});
    FreeChunkPages(h, h', i);
    FreeChunkChunks(h, h', i);
    FreeChunkCursor(h, h', i);
    FreeChunkCont(h, h', i);
    Fold(h');
  }

  lemma FreeChunkCont(h: Heap, h': Heap, i: int)
    requires ContOk(h) && i in h.live && h.live[i].home in h.refs
    requires h' == FreeRun(h, PageOf(h.live[i].addr), h.live[i].home).(live := h.live - {i})
    ensures ContOk(h')
  {
    forall p | p in h'.cont ensures InBody(h', p) {
      assert InBody(h, p) && !Between(PageOf(h.live[i].addr), h.live[i].home, p);
      var j :| j in h.live && Body(h.live[j], p);
      assert j in h'.live && h'.live[j] == h.live[j];
    }
  }

  lemma Fold(h: Heap)
    requires PagesOk(h) && ChunksOk(h) && CursorOk(h) && ContOk(h)
    ensures HeapInv(h)
  {
  }

  lemma FreeChunkFacts(h: Heap, i: int)
    requires HeapInv(h) && i in h.live
    ensures PagesOk(h) && ChunksOk(h) && CursorOk(h) && ContOk(h)
    ensures var c := h.live[i]; RunTo(h, PageOf(c.addr), c.home) && c.home in h.refs && h.refs[c.home] > 0 && ChunkOk(h, c)
  {
    assert ChunkOk(h, h.live[i]);
    assert RefOk(h, h.live[i].home);
  }

  lemma FreeChunkPages(h: Heap, h': Heap, i: int)
    requires PagesOk(h) && i in h.live && h.live[i].home in h.refs && RunTo(h, PageOf(h.live[i].addr), h.live[i].home)
    requires h' == FreeRun(h, PageOf(h.live[i].addr), h.live[i].home).(live := h.live - {i})
    ensures PagesOk(h')
  {
    var q := h.live[i].home;
    assert h'.cont <= h'.mapped;
    assert RefOk(h, q) && i in LiveAt(h, q) && |LiveAt(h, q)| > 0;
    assert h.refs[q] == 1 ==> q !in h.lost;
    assert forall k :: k in Pages(PageOf(h.live[i].addr), q) ==> k in h.cont;
    assert h'.lost <= h'.mapped;
    forall p | p in h'.mapped && p !in h'.cont ensures RefOk(h', p) {
      assert RefOk(h, p);
      assert LiveAt(h', p) == LiveAt(h, p) - {i};
      assert p == q ==> i in LiveAt(h, p);
    }
  }

  lemma FreeChunkChunks(h: Heap, h': Heap, i: int)
    requires PagesOk(h) && ChunksOk(h) && i in h.live && h.live[i].home in h.refs
    requires h' == FreeRun(h, PageOf(h.live[i].addr), h.live[i].home).(live := h.live - {i})
    ensures ChunksOk(h')
  {
    var c := h.live[i];
    forall j | j in h'.live ensures ChunkOk(h', h'.live[j]) {
      var d := h.live[j];
      assert ChunkOk(h, d) && ChunkOk(h, c);
      if d.home == c.home {
        assert RefOk(h, c.home);
        assert {i, j} <= LiveAt(h, c.home);
        TwoMembers(LiveAt(h, c.home), i, j);
      }
      forall p | Body(d, p) ensures p in h'.cont {
        assert p in h.cont;
        assert p < PageOf(c.addr) || p > c.home;
      }
      assert !Body(c, d.home);
    }
  }

  lemma TwoMembers(s: set<int>, i: int, j: int)
    requires i in s && j in s && i != j
    ensures |s| >= 2
  {
    assert {i, j} <= s;
    assert |s - {i}| == |s| - 1 && j in s - {i};
    assert |s - {i} - {j}| == |s| - 2;
  }

  lemma FreeChunkCursor(h: Heap, h': Heap, i: int)
    requires PagesOk(h) && ChunksOk(h) && CursorOk(h) && i in h.live && h.live[i].home in h.refs
    requires h' == FreeRun(h, PageOf(h.live[i].addr), h.live[i].home).(live := h.live - {i})
    ensures CursorOk(h')
  {
    var c := h.live[i];
    assert ChunkOk(h, c);
    if h.mptr % PGSIZE != 0 {
      var p := PageOf(h.mptr);
      assert RefOk(h, p);
      if p == c.home { assert i in LiveAt(h, p); }
      assert !Body(c, p);
    }
  }

  /** Giving up the open cursor's page. */
  lemma DropCursor(h: Heap)
    requires HeapInv(h) && h.mptr % PGSIZE != 0
    ensures var p := PageOf(h.mptr); RunTo(h, p, p) && p in h.refs && h.refs[p] > 0 && PBEGIN <= p < PEND
    ensures var p := PageOf(h.mptr);
            HeapInv(FreeRun(h, p, p).(mptr := (p + 1) * PGSIZE))
  {
    hide HeapInv, PagesOk, ChunksOk, CursorOk, ContOk;
    ExtendFacts(h);
    CursorFacts(h);
    DropPages(h);
    DropChunks(h);
    DropCursorOk(h);
    assert Pages(PageOf(h.mptr), PageOf(h.mptr)) == {};
    SameCont(h, Dropped(h));
    Fold(Dropped(h));
  }

  /** More chunks keep the continued pages accounted for. */
  lemma SameCont(h: Heap, h': Heap)
    requires ContOk(h) && h'.cont == h.cont && forall i :: i in h.live ==> i in h'.live && h'.live[i] == h.live[i]
    ensures ContOk(h')
  {
    forall p | p in h'.cont ensures InBody(h', p) {
      assert InBody(h, p);
      var j :| j in h.live && Body(h.live[j], p);
      assert Body(h'.live[j], p);
    }
  }

  ghost function Dropped(h: Heap): Heap
    requires PageOf(h.mptr) in h.refs
  {
    FreeRun(h, PageOf(h.mptr), PageOf(h.mptr)).(mptr := (PageOf(h.mptr) + 1) * PGSIZE)
  }

  lemma CursorFacts(h: Heap)
    requires PagesOk(h) && CursorOk(h) && h.mptr % PGSIZE != 0
    ensures var p := PageOf(h.mptr); RunTo(h, p, p) && p in h.refs && h.refs[p] > 0 && PBEGIN <= p < PEND
  {
    assert RefOk(h, PageOf(h.mptr));
  }

  lemma DropPages(h: Heap)
    requires PagesOk(h) && h.mptr % PGSIZE != 0 && RefOk(h, PageOf(h.mptr)) && PageOf(h.mptr) !in h.cont
    ensures PagesOk(Dropped(h))
  {
    var h', p := Dropped(h), PageOf(h.mptr);
    assert Pages(p, p) == {};
    forall q | q in h'.mapped && q !in h'.cont ensures RefOk(h', q) {
      assert RefOk(h, q);
      assert LiveAt(h', q) == LiveAt(h, q);
    }
  }

  lemma DropChunks(h: Heap)
    requires ChunksOk(h) && h.mptr % PGSIZE != 0 && RefOk(h, PageOf(h.mptr))
    ensures ChunksOk(Dropped(h))
  {
    var h', p := Dropped(h), PageOf(h.mptr);
    assert Pages(p, p) == {};
    forall j | j in h'.live ensures ChunkOk(h', h'.live[j]) {
      assert ChunkOk(h, h.live[j]);
      assert h.live[j].home == p ==> j in LiveAt(h, p);
    }
  }

  lemma DropCursorOk(h: Heap)
    requires h.mptr % PGSIZE != 0 && PageOf(h.mptr) in h.refs && PBEGIN <= PageOf(h.mptr) < PEND
    ensures CursorOk(Dropped(h))
  {
    PageStart(PageOf(h.mptr) + 1);
  }

  lemma PageStart(p: int)
    ensures p * PGSIZE % PGSIZE == 0 && p * PGSIZE % 4 == 0 && PageOf(p * PGSIZE) == p
  {
    assert p * PGSIZE == 4 * (1024 * p);
  }

  // ---- malloc ----

  /** A chunk of `n` bytes fits between the cursor and the reference word. */
  predicate FitsHere(mptr: int, n: int) {
    mptr % PGSIZE != 0 && PageOf(mptr) == PageOf(mptr + n - 1 + 4)
  }

  ghost function Extend(h: Heap, n: int, i: int): Heap
    requires PageOf(h.mptr) in h.refs
  {
    var p := PageOf(h.mptr);
    h.(refs := h.refs[p := h.refs[p] + 1], mptr := h.mptr + n, live := h.live[i := Chunk(h.mptr, n, p)])
  }

  /** Carving a chunk off the page the cursor is in. */
  lemma ExtendStep(h: Heap, n: int, i: int)
    requires HeapInv(h) && 0 <= n && n % 4 == 0 && FitsHere(h.mptr, n) && i !in h.live
    ensures PageOf(h.mptr) in h.refs && HeapInv(Extend(h, n, i))
  {
    hide HeapInv, PagesOk, ChunksOk, CursorOk, ContOk;
    ExtendFacts(h);
    ExtendPages(h, n, i);
    ExtendChunks(h, n, i);
    ExtendCursor(h, n, i);
    SameCont(h, Extend(h, n, i));
    Fold(Extend(h, n, i));
  }

  lemma ExtendFacts(h: Heap)
    requires HeapInv(h) && h.mptr % PGSIZE != 0
    ensures PagesOk(h) && ChunksOk(h) && CursorOk(h) && ContOk(h) && RefOk(h, PageOf(h.mptr)) && h.mptr % 4 == 0
  {
  }

  lemma ExtendPages(h: Heap, n: int, i: int)
    requires PagesOk(h) && h.mptr % 4 == 0 && 0 <= n && n % 4 == 0 && FitsHere(h.mptr, n) && i !in h.live
    requires RefOk(h, PageOf(h.mptr))
    ensures PagesOk(Extend(h, n, i))
  {
    hide PageOf, FitsHere, RefOk;
    var h' := Extend(h, n, i) by { RefWord(h); }
    forall p | p in h'.mapped && p !in h'.cont ensures RefOk(h', p) {
      ExtendRef(h, n, i, p);
    }
  }

  lemma RefWord(h: Heap)
    requires RefOk(h, PageOf(h.mptr))
    ensures PageOf(h.mptr) in h.refs
  {
  }

  lemma ExtendRef(h: Heap, n: int, i: int, p: int)
    requires h.mptr % 4 == 0 && 0 <= n && n % 4 == 0 && FitsHere(h.mptr, n) && i !in h.live
    requires RefOk(h, p) && PageOf(h.mptr) in h.refs
    ensures RefOk(Extend(h, n, i), p)
  {
    hide PageOf, FitsHere;
    var h', p0 := Extend(h, n, i), PageOf(h.mptr);
    SameOpen(h, n, i);
    assert LiveAt(h', p) == if p == p0 then LiveAt(h, p) + {i} else LiveAt(h, p);
  }

  lemma SameOpen(h: Heap, n: int, i: int)
    requires h.mptr % 4 == 0 && 0 <= n && n % 4 == 0 && FitsHere(h.mptr, n) && PageOf(h.mptr) in h.refs
    ensures forall p :: Open(Extend(h, n, i), p) == Open(h, p)
  {
    hide PageOf;
    SamePage(h.mptr, n);
  }

  lemma SamePage(mptr: int, n: int)
    requires 0 <= n && n % 4 == 0 && mptr % 4 == 0 && FitsHere(mptr, n)
    ensures PageOf(mptr + n) == PageOf(mptr) && mptr + n <= (PageOf(mptr) + 1) * PGSIZE - 4 && (mptr + n) % PGSIZE != 0
    ensures mptr % PGSIZE != 0 && (mptr + n) % 4 == 0 && (mptr < MEND ==> mptr + n < MEND)
  {
    hide PageOf;
    var p := PageOf(mptr);
    Surround(mptr);
    Surround(mptr + n - 1 + 4);
    var x := SumOf4(mptr, n);
    assert 4 * x < 4 * (1024 * (p + 1));
    Within(mptr + n, p);
  }

  lemma SumOf4(a: int, b: int) returns (x: int)
    requires a % 4 == 0 && b % 4 == 0
    ensures a + b == 4 * x && (a + b) % 4 == 0
  {
    x := a / 4 + b / 4;
  }

  lemma Surround(a: int)
    ensures PageOf(a) * PGSIZE <= a < (PageOf(a) + 1) * PGSIZE && (a % PGSIZE != 0 ==> PageOf(a) * PGSIZE < a)
  {
  }

  lemma Within(a: int, p: int)
    requires p * PGSIZE < a < (p + 1) * PGSIZE
    ensures PageOf(a) == p && a % PGSIZE != 0
  {
  }

  lemma ExtendChunks(h: Heap, n: int, i: int)
    requires PagesOk(h) && ChunksOk(h) && CursorOk(h) && 0 <= n && n % 4 == 0 && FitsHere(h.mptr, n) && i !in h.live
             && PageOf(h.mptr) in h.refs
    ensures ChunksOk(Extend(h, n, i))
  {
    var h', p0 := Extend(h, n, i), PageOf(h.mptr);
    SamePage(h.mptr, n);
    forall j | j in h'.live ensures ChunkOk(h', h'.live[j]) {
      assert j != i ==> ChunkOk(h, h.live[j]);
    }
    forall j | j in h.live ensures Disjoint(h.live[j], h'.live[i]) {
      var d := h.live[j];
      assert ChunkOk(h, d);
      if d.home != p0 {
        assert !Body(d, p0);
        assert d.home < p0 || p0 < PageOf(d.addr);
      }
    }
    forall j, p | j in h.live && Body(h.live[j], p) ensures p != p0 {
      assert ChunkOk(h, h.live[j]);
    }
  }

  lemma ExtendCursor(h: Heap, n: int, i: int)
    requires CursorOk(h) && 0 <= n && n % 4 == 0 && FitsHere(h.mptr, n) && i !in h.live && PageOf(h.mptr) in h.refs
    ensures CursorOk(Extend(h, n, i))
  {
    hide FitsHere, PageOf;
    SamePage(h.mptr, n);
    var p := PageOf(h.mptr);
    forall j | j in h.live && h.live[j].home == p ensures h.live[j].addr + h.live[j].size <= h.mptr + n { }
  }

  /** Pages needed for `n` bytes. */
  function NPages(n: int): int {
    (n + PGSIZE - 1) / PGSIZE
  }

  /** `k` pages from `p` on are inside the heap and not mapped. */
  ghost predicate RunFree(mapped: set<int>, p: int, k: int) {
    p + k <= PEND && forall q :: Between(p, p + k, q) ==> q !in mapped
  }

  /** No page in [lo, hi) starts such a run. */
  ghost predicate NoRun(mapped: set<int>, lo: int, hi: int, k: int) {
    forall p :: lo <= p < hi ==> !RunFree(mapped, p, k)
  }

  /** No page from `from` on starts such a run before page `p` does, going round once. */
  ghost predicate NextRun(mapped: set<int>, from: int, p: int, k: int) {
    if p >= from then NoRun(mapped, from, p, k) else NoRun(mapped, from, PEND, k) && NoRun(mapped, PBEGIN, p, k)
  }

  /** A chunk in pages of its own, with its reference word in the last of them. */
  ghost function NewRun(h: Heap, n: int, i: int): Heap {
    var p, k := PageOf(h.mptr), NPages(n + 4);
    h.(mapped := h.mapped + Pages(p, p + k), cont := h.cont + Pages(p, p + k - 1),
       refs := h.refs[p + k - 1 := 2], mptr := h.mptr + n, live := h.live[i := Chunk(h.mptr, n, p + k - 1)],
       lost := if (h.mptr + n) % PGSIZE == 0 then h.lost + {p + k - 1} else h.lost)
  }

  /** Where the end of a run of `n + 4` bytes from a page boundary falls. */
  lemma RunShape(mptr: int, n: int)
    requires mptr % PGSIZE == 0 && 0 <= n && n % 4 == 0
    ensures var p, k := PageOf(mptr), NPages(n + 4);
            && k >= 1 && mptr == p * PGSIZE && mptr + n <= (p + k) * PGSIZE - 4 && (p + k - 1) * PGSIZE <= mptr + n
            && (mptr + n) % 4 == 0 && mptr % 4 == 0 && PageOf(mptr + n) == p + k - 1
  {
    hide PageOf, NPages;
    var p, k := PageOf(mptr), NPages(n + 4);
    Aligned(mptr, n);
    PagesCover(n + 4);
    MultipleOf4(k - 1, n);
    InPage(mptr + n, p + k - 1);
  }

  lemma Aligned(a: int, n: int)
    requires a % PGSIZE == 0 && n % 4 == 0
    ensures a == PageOf(a) * PGSIZE && a % 4 == 0 && (a + n) % 4 == 0
  {
    PageStart(PageOf(a));
    assert a == 4 * (1024 * PageOf(a));
    var _ := SumOf4(a, n);
  }

  lemma PagesCover(n: int)
    requires n > 0
    ensures NPages(n) >= 1 && (NPages(n) - 1) * PGSIZE < n <= NPages(n) * PGSIZE
  {
  }

  lemma InPage(a: int, q: int)
    requires q * PGSIZE <= a < (q + 1) * PGSIZE
    ensures PageOf(a) == q
  {
  }

  lemma MultipleOf4(j: int, n: int)
    requires j * PGSIZE < n + 4 && n % 4 == 0
    ensures j * PGSIZE <= n
  {
    var x, y := 1024 * j, n / 4;
    assert j * PGSIZE == 4 * x && n == 4 * y;
  }

  lemma NewRunStep(h: Heap, n: int, i: int)
    requires HeapInv(h) && h.mptr % PGSIZE == 0 && PBEGIN <= PageOf(h.mptr) && 0 <= n && n % 4 == 0 && i !in h.live
    requires RunFree(h.mapped, PageOf(h.mptr), NPages(n + 4))
    ensures HeapInv(NewRun(h, n, i))
  {
    hide HeapInv, PagesOk, ChunksOk, CursorOk, ContOk;
    Unfold(h);
    RunShape(h.mptr, n);
    NewPages(h, n, i);
    NewChunks(h, n, i);
    NewCursor(h, n, i);
    NewCont(h, n, i);
    Fold(NewRun(h, n, i));
  }

  lemma NewCont(h: Heap, n: int, i: int)
    requires ContOk(h) && i !in h.live
    ensures ContOk(NewRun(h, n, i))
  {
    var h' := NewRun(h, n, i);
    forall p | p in h'.cont ensures InBody(h', p) {
      if p in h.cont {
        assert InBody(h, p);
        var j :| j in h.live && Body(h.live[j], p);
        assert j in h'.live && Body(h'.live[j], p);
      } else {
        assert Body(h'.live[i], p);
      }
    }
  }

  lemma Unfold(h: Heap)
    requires HeapInv(h)
    ensures PagesOk(h) && ChunksOk(h) && CursorOk(h) && ContOk(h)
  {
  }

  lemma NewPages(h: Heap, n: int, i: int)
    requires PagesOk(h) && ChunksOk(h) && h.mptr % PGSIZE == 0 && PBEGIN <= PageOf(h.mptr) && 0 <= n && n % 4 == 0 && i !in h.live
    requires RunFree(h.mapped, PageOf(h.mptr), NPages(n + 4))
    ensures PagesOk(NewRun(h, n, i))
  {
    var h', p, k := NewRun(h, n, i), PageOf(h.mptr), NPages(n + 4);
    RunShape(h.mptr, n);
    assert Between(p, p + k, p + k - 1);
    forall q | q in h'.mapped && q !in h'.cont ensures RefOk(h', q) {
      if q == p + k - 1 {
        forall j ensures j !in LiveAt(h, q) { assert j in h.live ==> ChunkOk(h, h.live[j]); }
        assert LiveAt(h, q) == {};
        assert LiveAt(h', q) == {i};
      } else {
        assert Between(p, p + k, q) ==> Between(p, p + k - 1, q);
        assert RefOk(h, q);
        assert LiveAt(h', q) == LiveAt(h, q);
      }
    }
  }

  lemma NewChunks(h: Heap, n: int, i: int)
    requires PagesOk(h) && ChunksOk(h) && h.mptr % PGSIZE == 0 && PBEGIN <= PageOf(h.mptr) && 0 <= n && n % 4 == 0 && i !in h.live
    requires RunFree(h.mapped, PageOf(h.mptr), NPages(n + 4))
    ensures ChunksOk(NewRun(h, n, i))
  {
    var h', p, k := NewRun(h, n, i), PageOf(h.mptr), NPages(n + 4);
    var c := h'.live[i];
    RunShape(h.mptr, n);
    assert Between(p, p + k, p + k - 1);
    forall q | Body(c, q) ensures q in h'.cont { assert Between(p, p + k - 1, q); }
    forall j | j in h.live
      ensures ChunkOk(h', h.live[j]) && (h.live[j].home < p || p + k <= PageOf(h.live[j].addr)) && Disjoint(h.live[j], c)
    {
      var d := h.live[j];
      assert ChunkOk(h, d);
      ApartPages(h, d, p, k);
    }
    forall a, b, q | a in h'.live && b in h'.live && a != b && Body(h'.live[a], q)
      ensures q < PageOf(h'.live[b].addr) || q > h'.live[b].home
    {
    }
  }

  /** A chunk's pages and a run of unmapped pages do not overlap. */
  lemma ApartPages(h: Heap, d: Chunk, p: int, k: int)
    requires h.cont <= h.mapped && ChunkOk(h, d) && RunFree(h.mapped, p, k) && k >= 1
    ensures d.home < p || p + k <= PageOf(d.addr)
  {
    var s := PageOf(d.addr);
    var q := if s >= p then s else p;
    assert Between(p, p + k, q) ==> q !in h.mapped;
    assert s <= q <= d.home ==> q == d.home || Body(d, q);
  }

  lemma NewCursor(h: Heap, n: int, i: int)
    requires PagesOk(h) && ChunksOk(h) && h.mptr % PGSIZE == 0 && PBEGIN <= PageOf(h.mptr) && 0 <= n && n % 4 == 0 && i !in h.live
    requires RunFree(h.mapped, PageOf(h.mptr), NPages(n + 4))
    ensures CursorOk(NewRun(h, n, i))
  {
    var h', p, k := NewRun(h, n, i), PageOf(h.mptr), NPages(n + 4);
    RunShape(h.mptr, n);
    assert Between(p, p + k, p + k - 1);
    forall j | j in h.live ensures h.live[j].home != p + k - 1 { assert ChunkOk(h, h.live[j]); }
  }

  // ---- leaks ----

  /** The reference word of page `p` counts more than the chunks in it and the cursor. */
  ghost predicate Leaked(h: Heap, p: int) {
    && p in h.mapped && p !in h.cont && p in h.refs
    && h.refs[p] > |LiveAt(h, p)| + if Open(h, p) then 1 else 0
  }

  lemma LeakedIsLost(h: Heap, p: int)
    requires HeapInv(h)
    ensures Leaked(h, p) <==> p in h.lost
  {
    if p in h.mapped && p !in h.cont {
      assert RefOk(h, p);
    }
  }

  /** A fresh run leaks its last page exactly when the rounded size is a whole number of
      pages, zero included: then the cursor stops on that page's first byte, where malloc
      takes it for a page not yet started. */
  lemma LostExactly(h: Heap, n: int, i: int)
    requires HeapInv(h) && h.mptr % PGSIZE == 0 && PBEGIN <= PageOf(h.mptr) && 0 <= n && n % 4 == 0 && i !in h.live
    requires RunFree(h.mapped, PageOf(h.mptr), NPages(n + 4))
    ensures Leaked(NewRun(h, n, i), PageOf(h.mptr) + NPages(n + 4) - 1) <==> n % PGSIZE == 0
  {
    hide HeapInv, Leaked, NewRun, PageOf, NPages, RunFree;
    NewRunStep(h, n, i);
    var q := PageOf(h.mptr) + NPages(n + 4) - 1;
    LeakedIsLost(NewRun(h, n, i), q);
    FreshPage(h, n, q);
    NewRunLost(h, n, i);
  }

  lemma NewRunLost(h: Heap, n: int, i: int)
    requires h.mptr % PGSIZE == 0 && 0 <= n
    ensures NewRun(h, n, i).lost == h.lost + if n % PGSIZE == 0 then {PageOf(h.mptr) + NPages(n + 4) - 1} else {}
  {
    hide PageOf, NPages;
    WholePages(h.mptr, n);
  }

  lemma FoundRun(mapped: set<int>, mptr: int, k: int)
    requires mptr % PGSIZE == 0 && MBEGIN <= mptr < MEND && RunFree(mapped, PageOf(mptr), k)
    ensures PBEGIN <= PageOf(mptr) && !NoRun(mapped, PBEGIN, PEND, k)
  {
  }

  lemma WholePages(a: int, n: int)
    requires a % PGSIZE == 0
    ensures (a + n) % PGSIZE == n % PGSIZE
  {
  }

  lemma FreshPage(h: Heap, n: int, q: int)
    requires HeapInv(h) && h.mptr % PGSIZE == 0 && 0 <= n && n % 4 == 0
    requires RunFree(h.mapped, PageOf(h.mptr), NPages(n + 4)) && q == PageOf(h.mptr) + NPages(n + 4) - 1
    ensures q !in h.mapped && q !in h.lost
  {
    RunShape(h.mptr, n);
    assert Between(PageOf(h.mptr), PageOf(h.mptr) + NPages(n + 4), q);
  }

  /** Once nothing is live, the pages still mapped are exactly the leaked ones and the one
      the cursor is in. */
  lemma AllFreed(h: Heap, p: int)
    requires HeapInv(h) && h.live == map[]
    ensures p in h.mapped <==> Leaked(h, p) || Open(h, p)
  {
    LeakedIsLost(h, p);
    assert LiveAt(h, p) == {};
    assert p in h.cont ==> InBody(h, p);
    assert p in h.mapped && p !in h.cont ==> RefOk(h, p);
  }

  // ---- the code ----

  /** The search for pages would start at the end of the heap itself. Its wrap test
      compares for equality after stepping on by a page, so it is missed and the search
      runs off the top. */
  predicate RunsOff(mptr: int, n: int) {
    if mptr % PGSIZE == 0 then mptr == MEND else !FitsHere(mptr, n) && PageOf(mptr) + 1 == PEND
  }

  /** The pages still mapped once the cursor has let go of the page it is in. */
  ghost function Vacated(h: Heap): set<int> {
    var p := PageOf(h.mptr);
    if h.mptr % PGSIZE != 0 && p in h.refs && h.refs[p] == 1 then h.mapped - {p} else h.mapped
  }

  /** malloc has no room: too big a request, or it does not fit here and there is no run of
      pages, or no memory, for it. */
  ghost predicate Refused(h: Heap, n0: nat, budget: nat) {
    var n := Round4(n0);
    n >= MAXMALLOC
    || (!FitsHere(h.mptr, n) && (budget < NPages(n + 4) || NoRun(Vacated(h), PBEGIN, PEND, NPages(n + 4))))
  }

  ghost predicate GoesAstray(h: Heap, n0: nat) {
    Round4(n0) < MAXMALLOC && RunsOff(h.mptr, Round4(n0))
  }

  /** It can happen: the last page of the heap is the only one in use, full up to its
      reference word, and two words are asked for. */
  lemma AstrayExample(h: Heap)
    requires h == Heap(MEND - 4, {PEND - 1}, {}, map[PEND - 1 := 1], map[], {})
    ensures HeapInv(h) && GoesAstray(h, 8)
  {
    assert PageOf(h.mptr) == PEND - 1;
    assert LiveAt(h, PEND - 1) == {};
  }

  /** The chunk took fresh pages whose last one is leaked. */
  predicate Wasteful(mptr: int, n: nat) {
    !FitsHere(mptr, n) && n % PGSIZE == 0
  }

  /** Name `i` stands for a new chunk of the rounded size, unless the request was refused;
      no other chunk changes, and a page is leaked exactly if the request was wasteful. */
  ghost predicate Allocated(h: Heap, i: int, n0: nat, budget: nat, h': Heap) {
    if Refused(h, n0, budget) then h'.live == h.live && h'.lost == h.lost
    else
      && i in h'.live && h'.live == h.live[i := h'.live[i]] && MBEGIN <= h'.live[i].addr < MEND
      && h'.live[i].size == Round4(n0)
      && (FitsHere(h.mptr, Round4(n0)) ==> h'.live[i].addr == h.mptr && h'.mapped == h.mapped)
      && h'.live[i].home !in h.lost
      && h'.lost == h.lost + if Wasteful(h.mptr, Round4(n0)) then {h'.live[i].home} else {}
  }

  class Arena {
    var mptr: int
    var mapped: set<int>
    var cont: set<int>
    var refs: map<int, int>
    ghost var live: map<int, Chunk>
    ghost var lost: set<int>

    ghost function Snap(): Heap
      reads this
    {
      Heap(mptr, mapped, cont, refs, live, lost)
    }

    ghost predicate Valid()
      reads this
    {
      HeapInv(Snap())
    }

    constructor ()
      ensures Valid() && live == map[] && mapped == {} && lost == {} && mptr == 0
    {
      mptr, mapped, cont, refs, live, lost := 0, {}, {}, map[], map[], {};
    }

    /** Are the pages of [v, v + n) all inside the heap and unmapped? */
    method IsFree(v: int, n: int) returns (r: bool)
      requires v % PGSIZE == 0 && n > 0
      ensures r == RunFree(mapped, PageOf(v), NPages(n))
    {
      var va := v;
      ghost var k := 0;
      while va < v + n
        invariant va == v + k * PGSIZE && 0 <= k <= NPages(n) && (k < NPages(n) <==> va < v + n)
        invariant forall q :: Between(PageOf(v), PageOf(v) + k, q) ==> q !in mapped
        invariant k > 0 ==> PageOf(v) + k <= PEND
      {
        assert PageOf(va) == PageOf(v) + k;
        if va >= MEND || PageOf(va) in mapped {
          assert Between(PageOf(v), PageOf(v) + NPages(n), PageOf(va));
          return false;
        }
        va := va + PGSIZE;
        k := k + 1;
      }
      r := true;
    }

    /** The body of free: unmap the continued pages from `v` on, then drop one reference
        to the page after them. */
    method Release(v: int, ghost q: int)
      requires RunTo(Snap(), PageOf(v), q) && q in refs && refs[q] > 0
      requires forall p :: p in mapped ==> PBEGIN <= p < PEND
      requires cont <= mapped
      modifies this`mapped, this`cont, this`refs
      ensures Snap() == FreeRun(old(Snap()), PageOf(v), q)
    {
      var c := PageOf(v);
      ghost var p := c;
      while c in cont
        invariant p <= c <= q && mapped == old(mapped) - Pages(p, c) && cont == old(cont) - Pages(p, c) && refs == old(refs)
        decreases q - c
      {
        assert Pages(p, c + 1) == Pages(p, c) + {c};
        mapped := mapped - {c};
        cont := cont - {c};
        c := c + 1;
      }
      assert c == q by { if c < q { assert Between(p, q, c); } }
      refs := refs[c := refs[c] - 1];
      if refs[c] == 0 {
        mapped := mapped - {c};
        refs := refs - {c};
      }
    }

    /** Free the live chunk `i`; freeing the null pointer does nothing. */
    method Free(v: int, ghost i: int)
      requires Valid() && (v != 0 ==> i in live && live[i].addr == v)
      modifies this
      ensures Valid() && live == (if v == 0 then old(live) else old(live) - {i}) && mptr == old(mptr) && lost == old(lost)
    {
      hide HeapInv;
      if v == 0 {
        return;
      }
      FreeChunk(Snap(), i);
      PageBounds(Snap());
      Release(v, live[i].home);
      live := live - {i};
    }

    /** Find `n + 4` bytes worth of unmapped pages, the next from the cursor on, going round
        the heap at most twice; on failure no page of the heap starts such a run. */
    method Search(n: int) returns (found: bool)
      requires Valid() && n >= 0 && mptr % PGSIZE == 0 && MBEGIN <= mptr < MEND
      modifies this`mptr
      ensures Valid() && mptr % PGSIZE == 0 && MBEGIN <= mptr < MEND
      ensures found ==>
                RunFree(mapped, PageOf(mptr), NPages(n + 4)) && NextRun(mapped, PageOf(old(mptr)), PageOf(mptr), NPages(n + 4))
      ensures !found ==> NoRun(mapped, PBEGIN, PEND, NPages(n + 4)) && mptr == MBEGIN
    {
      hide HeapInv;
      var nwrap := 0;
      while true
        invariant 0 <= nwrap < 2 && mptr % PGSIZE == 0 && MBEGIN <= mptr < MEND && Valid()
        invariant nwrap == 0 ==> NoRun(mapped, PageOf(old(mptr)), PageOf(mptr), NPages(n + 4)) && mptr >= old(mptr)
        invariant nwrap == 1 ==>
                    NoRun(mapped, PageOf(old(mptr)), PEND, NPages(n + 4)) && NoRun(mapped, PBEGIN, PageOf(mptr), NPages(n + 4))
        decreases 2 - nwrap, MEND - mptr
      {
        var free := IsFree(mptr, n + 4);
        if free {
          return true;
        }
        ghost var h := Snap();
        MoveCursor(h, mptr + PGSIZE);
        MoveCursor(h, MBEGIN);
        assert PageOf(mptr + PGSIZE) == PageOf(mptr) + 1;
        mptr := mptr + PGSIZE;
        if mptr == MEND {
          mptr := MBEGIN;
          nwrap := nwrap + 1;
          if nwrap == 2 {
            return false;
          }
        }
      }
    }

    /** Map the pages of a new run, marking all but the last as continued; `budget` is how
        many pages the kernel still has. On failure everything is unmapped again. */
    method MapRun(n: int, budget: nat) returns (ok: bool)
      requires n >= 0 && mptr % PGSIZE == 0 && RunFree(mapped, PageOf(mptr), NPages(n + 4)) && cont <= mapped
      modifies this`mapped, this`cont
      ensures ok <==> budget >= NPages(n + 4)
      ensures var p, k := PageOf(mptr), NPages(n + 4);
              if ok then mapped == old(mapped) + Pages(p, p + k) && cont == old(cont) + Pages(p, p + k - 1)
              else mapped == old(mapped) && cont == old(cont)
    {
      var p, k := PageOf(mptr), NPages(n + 4);
      var i := 0;
      while i < k
        invariant 0 <= i <= k && i <= budget
        invariant mapped == old(mapped) + Pages(p, p + i)
        invariant cont == old(cont) + Pages(p, if i < k then p + i else p + k - 1)
      {
        if i == budget {
          mapped := mapped - (set q | q in mapped && p <= q <= p + i);
          cont := cont - (set q | q in cont && p <= q <= p + i);
          Unmapped(old(mapped), old(cont), p, k, i);
          return false;
        }
        assert Pages(p, p + i + 1) == Pages(p, p + i) + {p + i} by {
          assert Between(p, p + i + 1, p + i);
        }
        mapped := mapped + {p + i};
        if i + 1 < k {
          cont := cont + {p + i};
        }
        i := i + 1;
      }
      ok := true;
    }

    /** The chunk fits in the page the cursor is in. */
    method Carve(n: int, ghost i: int) returns (v: int)
      requires Valid() && 0 <= n && n % 4 == 0 && FitsHere(mptr, n) && i !in live
      modifies this
      ensures Valid() && v == old(mptr) && live == old(live)[i := Chunk(v, n, PageOf(v))] && lost == old(lost)
      ensures PageOf(v) !in lost && mapped == old(mapped)
    {
      hide HeapInv;
      ExtendStep(Snap(), n, i);
      OpenNotLost(Snap());
      var p := PageOf(mptr);
      v := mptr;
      refs := refs[p := refs[p] + 1];
      live := live[i := Chunk(mptr, n, p)];
      mptr := mptr + n;
    }

    /** Stop working on the page the cursor is in and move on to the next. */
    method LeavePage()
      requires Valid() && mptr % PGSIZE != 0
      modifies this`mptr, this`mapped, this`cont, this`refs
      ensures Valid() && MBEGIN <= mptr == (PageOf(old(mptr)) + 1) * PGSIZE <= MEND && mapped == Vacated(old(Snap()))
    {
      hide HeapInv;
      DropCursor(Snap());
      PageBounds(Snap());
      var p := PageOf(mptr);
      assert Pages(p, p) == {};
      Release(mptr, p);
      mptr := (p + 1) * PGSIZE;
    }

    /** Allocate fresh pages for the chunk. */
    method NewChunk(n: int, budget: nat, ghost i: int) returns (v: int)
      requires Valid() && 0 <= n && n % 4 == 0 && mptr % PGSIZE == 0 && MBEGIN <= mptr < MEND && i !in live
      modifies this
      ensures Valid() && (v == 0 ==> live == old(live) && lost == old(lost))
      ensures v == 0 <==> NoRun(old(mapped), PBEGIN, PEND, NPages(n + 4)) || budget < NPages(n + 4)
      ensures v != 0 ==>
                var q := PageOf(v) + NPages(n + 4) - 1;
                && MBEGIN <= v < MEND && live == old(live)[i := Chunk(v, n, q)]
                && NextRun(old(mapped), PageOf(old(mptr)), PageOf(v), NPages(n + 4))
                && q !in old(lost) && lost == old(lost) + if n % PGSIZE == 0 then {q} else {}
    {
      hide HeapInv, NPages, PageOf, RunFree, NoRun, NextRun, Pages;
      var found := Search(n);
      if !found {
        return 0;
      }
      ghost var h := Snap();
      PageBounds(h);
      FoundRun(mapped, mptr, NPages(n + 4));
      var ok := MapRun(n, budget);
      if !ok {
        return 0;
      }
      NewRunStep(h, n, i);
      FreshPage(h, n, PageOf(mptr) + NPages(n + 4) - 1);
      WholePages(mptr, n);
      var p, k := PageOf(mptr), NPages(n + 4);
      refs := refs[p + k - 1 := 2];
      v := mptr;
      live := live[i := Chunk(mptr, n, p + k - 1)];
      lost := if (mptr + n) % PGSIZE == 0 then lost + {p + k - 1} else lost;
      mptr := mptr + n;
      assert Snap() == NewRun(h, n, i);
    }

    /** Allocate `n0` bytes under the name `i`; 0 when there is no room. `astray` when the
        search for room runs off the top of the heap. */
    method Malloc(n0: nat, budget: nat, ghost i: int) returns (v: int, astray: bool)
      requires Valid() && n0 < 0x1_0000_0000 && i !in live
      modifies this
      ensures Valid()
      ensures astray <==> old(GoesAstray(Snap(), n0))
      ensures astray ==> v == 0 && mptr == MEND
      ensures astray ==> live == old(live) && lost == old(lost)
      ensures !astray ==> Allocated(old(Snap()), i, n0, budget, Snap()) && (v == 0 <==> Refused(old(Snap()), n0, budget))
      ensures v != 0 ==> i in live && live[i].addr == v
    {
      hide HeapInv, NoRun;
      CursorBounds(Snap());
      astray := false;
      if mptr == 0 {
        MoveCursor(Snap(), MBEGIN);
        mptr := MBEGIN;
      }
      var n := Round4(n0);
      if n >= MAXMALLOC {
        return 0, false;
      }
      if mptr % PGSIZE != 0 {
        if PageOf(mptr) == PageOf(mptr + n - 1 + 4) {
          v := Carve(n, i);
          return;
        }
        PageStart(PageOf(mptr) + 1);
        LeavePage();
      }
      if mptr == MEND {
        return 0, true;
      }
      v := NewChunk(n, budget, i);
    }

    /** A run of malloc and free; `hs` are its states. A chunk's name is the position of its
        request in `ops`; freeing a name that is not live is not done. The run goes on until
        a search runs off the top of the heap. */
    method Run(ops: seq<HeapOp>) returns (done: nat, ghost hs: seq<Heap>)
      requires Valid() && live == map[]
      modifies this
      ensures Valid() && done <= |ops| && HeapRun(hs, ops[..done]) && hs[0] == old(Snap())
      ensures if done == |ops| then hs[done] == Snap()
              else ops[done].Alloc? && ops[done].n < 0x1_0000_0000 && GoesAstray(hs[done], ops[done].n)
    {
      hide HeapInv, Allocated, GoesAstray;
      var given: map<int, int> := map[];       // addresses of live chunks, by name
      done, hs := 0, [Snap()];
      while done < |ops|
        invariant done <= |ops| && Valid() && HeapRun(hs, ops[..done]) && hs[0] == old(Snap()) && hs[done] == Snap()
        invariant given.Keys == live.Keys && (forall i :: i in live ==> 0 <= i < done && live[i].addr == given[i])
      {
        ghost var h := Snap();
        match ops[done] {
          case Alloc(n, budget) =>
            if n < 0x1_0000_0000 {
              var v, astray := Malloc(n, budget, done);
              if astray {
                return;
              }
              if v != 0 {
                given := given[done := v];
              }
              AllocatedNames(h, done, n, budget, Snap());
            }
          case Release(i) =>
            if i in given {
              AddressBounds(Snap(), i);
              Free(given[i], i);
              given := given - {i};
            }
        }
        HeapRunMore(hs, ops, done, Snap());
        done, hs := done + 1, hs + [Snap()];
      }
    }
  }

  // ---- runs ----

  /** What operation number `k` of a run does. */
  ghost predicate HeapDid(h: Heap, k: nat, op: HeapOp, h': Heap) {
    match op
    case Alloc(n, budget) => if n < 0x1_0000_0000 then Allocated(h, k, n, budget, h') else h' == h
    case Release(i) => if i in h.live then h'.live == h.live - {i} && h'.lost == h.lost && h'.mptr == h.mptr else h' == h
  }

  ghost predicate HeapRun(hs: seq<Heap>, ops: seq<HeapOp>) {
    && |hs| == |ops| + 1 && hs[0].live == map[]
    && (forall k :: 0 <= k < |hs| ==> HeapInv(hs[k]))
    && forall k :: 0 <= k < |ops| ==> HeapDid(hs[k], k, ops[k], hs[k + 1])
  }

  lemma HeapRunMore(hs: seq<Heap>, ops: seq<HeapOp>, n: nat, h': Heap)
    requires n < |ops| && HeapRun(hs, ops[..n]) && HeapInv(h') && HeapDid(hs[n], n, ops[n], h')
    ensures HeapRun(hs + [h'], ops[..n + 1])
  {
    hide HeapInv, HeapDid;
  }

  lemma AllocatedNames(h: Heap, i: int, n: nat, budget: nat, h': Heap)
    requires Allocated(h, i, n, budget, h')
    ensures h'.live.Keys == h.live.Keys + if Refused(h, n, budget) then {} else {i}
    ensures forall j :: j in h.live && j != i ==> h'.live[j] == h.live[j]
  {
    hide Refused;
  }

  lemma OpenNotLost(h: Heap)
    requires HeapInv(h) && h.mptr % PGSIZE != 0
    ensures PageOf(h.mptr) !in h.lost
  {
  }

  datatype HeapOp = Alloc(n: nat, budget: nat) | Release(name: int)

  lemma PageBounds(h: Heap)
    requires HeapInv(h)
    ensures h.cont <= h.mapped && forall p :: p in h.mapped ==> PBEGIN <= p < PEND
  {
  }

  lemma AddressBounds(h: Heap, i: int)
    requires HeapInv(h) && i in h.live
    ensures MBEGIN <= h.live[i].addr < MEND
  {
    assert ChunkOk(h, h.live[i]);
  }

  lemma CursorBounds(h: Heap)
    requires HeapInv(h)
    ensures h.mptr == 0 || MBEGIN <= h.mptr <= MEND
  {
  }

  /** A cursor at a page boundary holds no reference, so it may be moved. */
  lemma MoveCursor(h: Heap, a: int)
    requires HeapInv(h) && h.mptr % PGSIZE == 0
    ensures a % PGSIZE == 0 && MBEGIN <= a < MEND ==> HeapInv(h.(mptr := a))
  {
    hide HeapInv, PagesOk, ChunksOk, CursorOk, ContOk;
    var h' := h.(mptr := a);
    if a % PGSIZE == 0 && MBEGIN <= a < MEND {
      Unfold(h);
      MovePages(h, a);
      MoveChunks(h, a);
      MoveOk(h, a);
      SameCont(h, h');
      Fold(h');
    }
  }

  lemma MovePages(h: Heap, a: int)
    requires PagesOk(h) && h.mptr % PGSIZE == 0 && a % PGSIZE == 0
    ensures PagesOk(h.(mptr := a))
  {
    var h' := h.(mptr := a);
    forall p | p in h'.mapped && p !in h'.cont ensures RefOk(h', p) {
      assert RefOk(h, p);
      assert LiveAt(h', p) == LiveAt(h, p);
    }
  }

  lemma MoveChunks(h: Heap, a: int)
    requires ChunksOk(h)
    ensures ChunksOk(h.(mptr := a))
  {
    hide Disjoint;
    var h' := h.(mptr := a);
    forall i | i in h'.live ensures ChunkOk(h', h'.live[i]) {
      assert ChunkOk(h, h.live[i]);
    }
  }

  lemma MoveOk(h: Heap, a: int)
    requires a % PGSIZE == 0 && MBEGIN <= a < MEND
    ensures CursorOk(h.(mptr := a))
  {
    Aligned(a, 0);
  }

  lemma Unmapped(mapped: set<int>, cont: set<int>, p: int, k: int, i: int)
    requires 0 <= i < k && RunFree(mapped, p, k) && cont <= mapped
    ensures var m, c := mapped + Pages(p, p + i), cont + Pages(p, p + i);
            && m - (set q | q in m && p <= q <= p + i) == mapped
            && c - (set q | q in c && p <= q <= p + i) == cont
  {
    forall q | p <= q <= p + i ensures q !in mapped { assert Between(p, p + k, q); }
  }
}
