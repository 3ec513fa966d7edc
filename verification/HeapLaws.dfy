/** Laws of runs of malloc and free (lab/lib/malloc.c): which chunks are live, that they stay
    where they are, and what leaks. */
module HeapLaws {
  import opened Basics
  import opened Malloc

  /** The request was granted. */
  ghost predicate Granted(h: Heap, op: HeapOp) {
    op.Alloc? && op.n < 0x1_0000_0000 && !Refused(h, op.n, op.budget)
  }

  lemma StepLive(h: Heap, k: nat, op: HeapOp, h': Heap, i: int)
    requires HeapDid(h, k, op, h')
    ensures i in h'.live <==> (i == k && Granted(h, op)) || (i in h.live && op != Release(i))
    ensures i in h.live && i in h'.live && i != k ==> h'.live[i] == h.live[i]
  {
    hide Refused;
  }

  /** In every run: chunk `i` is live exactly if request `i` was granted and `i` has not been
      freed since. */
  lemma {:induction false} LiveExactly(hs: seq<Heap>, ops: seq<HeapOp>, n: nat, i: int)
    requires HeapRun(hs, ops) && n <= |ops|
    ensures i in hs[n].live <==>
              0 <= i < n && Granted(hs[i], ops[i]) && forall k :: i < k < n ==> ops[k] != Release(i)
  {
    hide HeapInv, HeapDid, Granted;
    if n == 0 {
    } else {
      LiveExactly(hs, ops, n - 1, i);
      StepLive(hs[n - 1], n - 1, ops[n - 1], hs[n], i);
    }
  }

  /** While it is live it stays where it is and keeps its size, apart from every other live
      chunk. */
  lemma {:induction false} ChunksStay(hs: seq<Heap>, ops: seq<HeapOp>, n: nat, i: nat)
    requires HeapRun(hs, ops) && i < n <= |ops| && i in hs[n].live
    ensures i in hs[i + 1].live && hs[n].live[i] == hs[i + 1].live[i]
    ensures ops[i].Alloc? && hs[n].live[i].size == Round4(ops[i].n)
    ensures forall j :: j in hs[n].live && j != i ==> Disjoint(hs[n].live[i], hs[n].live[j])
    decreases n
  {
    hide Refused;
    if n == i + 1 {
      StepLive(hs[i], i, ops[i], hs[n], i);
      LiveExactly(hs, ops, i, i);
    } else {
      StepLive(hs[n - 1], n - 1, ops[n - 1], hs[n], i);
      ChunksStay(hs, ops, n - 1, i);
    }
  }

  /** The request leaks a page. */
  ghost predicate Wastes(h: Heap, op: HeapOp) {
    Granted(h, op) && Wasteful(h.mptr, Round4(op.n))
  }

  ghost function Wasted(hs: seq<Heap>, ops: seq<HeapOp>, n: nat): nat
    requires n <= |ops| && |hs| == |ops| + 1
  {
    if n == 0 then 0 else Wasted(hs, ops, n - 1) + if Wastes(hs[n - 1], ops[n - 1]) then 1 else 0
  }

  lemma StepLost(h: Heap, k: nat, op: HeapOp, h': Heap)
    requires HeapDid(h, k, op, h')
    ensures h.lost <= h'.lost && |h'.lost| == |h.lost| + if Wastes(h, op) then 1 else 0
  {
    hide Refused, Wasteful;
  }

  lemma {:induction false} LostGrows(hs: seq<Heap>, ops: seq<HeapOp>, m: nat, n: nat)
    requires HeapRun(hs, ops) && m <= n <= |ops|
    ensures hs[m].lost <= hs[n].lost && |hs[n].lost| - |hs[m].lost| == Wasted(hs, ops, n) - Wasted(hs, ops, m)
    decreases n
  {
    hide HeapInv, HeapDid, Wastes;
    if m == n {
    } else {
      LostGrows(hs, ops, m, n - 1);
      StepLost(hs[n - 1], n - 1, ops[n - 1], hs[n]);
    }
  }

  /** In every run: a leaked page stays mapped, and leaked, for good, whatever is freed; and
      each request that leaks, and nothing else, adds one page to the leaked ones. */
  lemma LeaksAreForGood(hs: seq<Heap>, ops: seq<HeapOp>, m: nat, n: nat, p: int)
    requires HeapRun(hs, ops) && m <= n <= |ops| && Leaked(hs[m], p)
    ensures Leaked(hs[n], p) && p in hs[n].mapped
  {
    hide HeapInv, HeapDid;
    LostGrows(hs, ops, m, n);
    LeakedIsLost(hs[m], p);
    LeakedIsLost(hs[n], p);
  }

  /** In every run that has freed all its chunks: the pages still mapped are as many as the
      requests that leaked, and the one the cursor is in. */
  lemma LeftOver(hs: seq<Heap>, ops: seq<HeapOp>)
    requires HeapRun(hs, ops) && hs[0].lost == {} && hs[|ops|].live == map[]
    ensures var h := hs[|ops|];
            |h.mapped| == Wasted(hs, ops, |ops|) + if h.mptr % PGSIZE != 0 then 1 else 0
  {
    hide HeapInv, HeapDid, Wastes;
    var h := hs[|ops|];
    LostGrows(hs, ops, 0, |ops|);
    var open := if h.mptr % PGSIZE != 0 then {PageOf(h.mptr)} else {};
    forall p ensures p in h.mapped <==> p in h.lost + open {
      AllFreed(h, p);
      LeakedIsLost(h, p);
    }
    assert h.mapped == h.lost + open;
    if h.mptr % PGSIZE != 0 {
      OpenNotLost(h);
    }
  }

  // ---- when malloc grants a request, said outright ----

  /** A request below the limit that fits between the cursor and the end of its page, less the
      reference word, is granted at the cursor and takes no new page. */
  lemma OpenPageFirst(h: Heap, k: nat, n: nat, budget: nat, h': Heap)
    requires HeapDid(h, k, Alloc(n, budget), h') && n <= 1024 * 1024 - 4
    requires h.mptr % 4096 != 0 && h.mptr % 4096 + n + 7 <= 4096
    ensures k in h'.live && h'.live[k].addr == h.mptr && n <= h'.live[k].size < n + 4 && h'.mapped == h.mapped
  {
    hide Round4, Wasteful, NoRun;
    Round4Is(n);
    SamePage(h.mptr, Round4(n));
  }

  lemma SamePage(a: int, n: int)
    requires a % PGSIZE != 0 && 0 <= n && a % PGSIZE + n + 4 <= PGSIZE
    ensures FitsHere(a, n)
  {
  }

  /** A request below the limit is granted if enough pages in a row, with room for the
      reference word, are free and can be had. */
  lemma FreePagesSuffice(h: Heap, k: nat, n: nat, budget: nat, h': Heap, p: int, m: int)
    requires HeapDid(h, k, Alloc(n, budget), h') && n <= 1024 * 1024 - 4 && n + 7 <= m * 4096 && m <= budget
    requires PBEGIN <= p && p + m <= PEND && forall q :: p <= q < p + m ==> q !in h.mapped
    ensures k in h'.live && n <= h'.live[k].size < n + 4
  {
    hide Round4, Wasteful, NPages, FitsHere;
    Round4Is(n);
    var r := Round4(n);
    PagesAtMost(r + 4, m);
    assert RunFree(Vacated(h), p, NPages(r + 4));
  }

  lemma PagesAtMost(n: int, m: int)
    requires 0 < n <= m * PGSIZE
    ensures 0 < NPages(n) <= m
  {
  }

  /** A request at or beyond the limit is refused, and changes no chunk. */
  lemma TooBig(h: Heap, k: nat, n: nat, budget: nat, h': Heap)
    requires HeapDid(h, k, Alloc(n, budget), h') && 1024 * 1024 <= n <= 0x1_0000_0000 - 4
    ensures h'.live == h.live
  {
    Round4Is(n);
  }

  /** A search runs off the heap only from its end, or from its last page. */
  lemma AstrayOnlyAtTop(h: Heap, n: nat)
    requires GoesAstray(h, n)
    ensures h.mptr == MEND || (MEND - 4096 < h.mptr < MEND && h.mptr % 4096 + Round4(n) + 4 > 4096)
  {
    hide Round4;
    if h.mptr % PGSIZE != 0 && h.mptr % PGSIZE + Round4(n) + 4 <= PGSIZE {
      SamePage(h.mptr, Round4(n));
    }
  }
}
