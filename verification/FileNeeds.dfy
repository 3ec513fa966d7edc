/** How many disk blocks an access to a range of a file has to allocate (lab/fs/fs.c), and
    how allocating them one by one counts down to none. */
module FileNeeds {
  import opened Basics
  import opened DiskBlocks
  import opened FileMap

  const MAXFILESIZE: nat := MAXFILEBLOCKS * BLKSIZE

  /** Of `n` bytes from `offset` on, how many lie where a file can have blocks. */
  function Reachable(offset: nat, n: nat): (r: nat)
    ensures r <= n && (r > 0 ==> offset + r <= MAXFILESIZE)
    ensures r < n ==> offset + r >= MAXFILESIZE
  {
    if offset + n <= MAXFILESIZE then n else Max(0, MAXFILESIZE - offset)
  }

  /** How many blocks the block map of a file of this size can have. */
  function MapBlocks(size: nat): (r: nat)
    ensures r <= MAXFILEBLOCKS
  {
    Min(BlocksFor(size), MAXFILEBLOCKS)
  }

  ghost function FreeCount(s: Fs): nat
    requires Sized(s)
  {
    |FreeSet(s.bitmap, s.nblocks)|
  }

  /** How many blocks a lookup of file block `bno` has to allocate. */
  ghost function Missing(s: Fs, f: nat, bno: nat): nat
    requires Sized(s) && f < |s.files| && bno < MAXFILEBLOCKS
  {
    if Ptr(s, f, bno) != 0 then 0 else if bno >= NDIRECT && s.files[f].indirect == 0 then 2 else 1
  }

  /** The file blocks in [lo, hi) that have no disk block. */
  ghost function Holes(s: Fs, f: nat, lo: nat, hi: nat): set<int>
    requires Sized(s) && f < |s.files| && hi <= MAXFILEBLOCKS
  {
    set c | lo <= c < hi && Ptr(s, f, c) == 0
  }

  /** How many disk blocks file blocks [lo, hi) lack: one for each hole, and one for the
      indirect block if it is missing and some of them need it. */
  ghost function Lacks(s: Fs, f: nat, lo: nat, hi: nat): nat
    requires Sized(s) && f < |s.files| && hi <= MAXFILEBLOCKS
  {
    |Holes(s, f, lo, hi)| + if lo < hi && NDIRECT < hi && s.files[f].indirect == 0 then 1 else 0
  }

  /** How many disk blocks `n` bytes from `offset` on lack, where a file can have blocks. */
  ghost function Needs(s: Fs, f: nat, offset: nat, n: nat): nat
    requires Sized(s) && f < |s.files|
  {
    if n == 0 then 0 else Lacks(s, f, offset / BLKSIZE, MapBlocks(offset + n))
  }

  /** File block `bno` of `f` has a disk block now, the file's other pointers are as they
      were, and the bitmap paid for what was missing. */
  ghost predicate Filled(s: Fs, s': Fs, f: nat, bno: nat)
    requires Sized(s) && Sized(s') && f < |s.files| && bno < MAXFILEBLOCKS
  {
    && f < |s'.files| && Ptr(s', f, bno) != 0
    && (forall c :: 0 <= c < MAXFILEBLOCKS && c != bno ==> Ptr(s', f, c) == Ptr(s, f, c))
    && (bno < NDIRECT ==> s'.files[f].indirect == s.files[f].indirect)
    && FreeCount(s') + Missing(s, f, bno) == FreeCount(s)
  }

  lemma LacksStep(s: Fs, s': Fs, f: nat, bno: nat, hi: nat)
    requires Sized(s) && Sized(s') && f < |s.files| && bno < hi <= MAXFILEBLOCKS && Filled(s, s', f, bno)
    ensures Lacks(s', f, bno + 1, hi) + Missing(s, f, bno) == Lacks(s, f, bno, hi)
  {
    hide FreeCount, Word;
    assert Holes(s, f, bno, hi) - {bno} == Holes(s', f, bno + 1, hi);
    assert bno in Holes(s, f, bno, hi) <==> Ptr(s, f, bno) == 0;
  }

  lemma LacksOne(s: Fs, f: nat, bno: nat, hi: nat)
    requires Sized(s) && f < |s.files| && bno < hi <= MAXFILEBLOCKS
    ensures Missing(s, f, bno) <= Lacks(s, f, bno, hi)
    ensures hi == bno + 1 ==> Missing(s, f, bno) == Lacks(s, f, bno, hi)
  {
    hide Word;
    var holes := Holes(s, f, bno, hi);
    if Ptr(s, f, bno) == 0 {
      assert holes == {bno} + (holes - {bno});
    }
    if hi == bno + 1 {
      assert holes == if Ptr(s, f, bno) == 0 then {bno} else {};
    }
  }

  lemma BlockOf(pos: nat, n: nat, bn: nat)
    requires 0 < bn <= n && bn == Min(BLKSIZE - pos % BLKSIZE, n)
    ensures pos / BLKSIZE < BlocksFor(pos + n)
    ensures bn == n ==> BlocksFor(pos + n) == pos / BLKSIZE + 1
    ensures bn < n ==> (pos + bn) / BLKSIZE == pos / BLKSIZE + 1
  {
  }

  /** One turn of the loops of file_read and file_write takes from the need what it
      allocates. */
  lemma NeedsStep(s: Fs, s': Fs, f: nat, pos: nat, n: nat, bn: nat)
    requires Sized(s) && Sized(s') && f < |s.files| && pos / BLKSIZE < MAXFILEBLOCKS && Filled(s, s', f, pos / BLKSIZE)
    requires 0 < bn <= n && bn == Min(BLKSIZE - pos % BLKSIZE, n)
    ensures Needs(s', f, pos + bn, n - bn) + Missing(s, f, pos / BLKSIZE) == Needs(s, f, pos, n)
  {
    hide Filled, Lacks, Missing, BlocksFor;
    BlockOf(pos, n, bn);
    var bno, hi := pos / BLKSIZE, MapBlocks(pos + n);
    if bn == n {
      LacksOne(s, f, bno, hi);
    } else {
      LacksStep(s, s', f, bno, hi);
    }
  }

  lemma NeedsOne(s: Fs, f: nat, pos: nat, n: nat)
    requires Sized(s) && f < |s.files| && 0 < n
    ensures pos / BLKSIZE < MAXFILEBLOCKS ==> Missing(s, f, pos / BLKSIZE) <= Needs(s, f, pos, n)
    ensures pos / BLKSIZE >= MAXFILEBLOCKS ==> Needs(s, f, pos, n) == 0
  {
    hide Missing, Ptr;
    BlockOf(pos, n, Min(BLKSIZE - pos % BLKSIZE, n));
    if pos / BLKSIZE < MAXFILEBLOCKS {
      LacksOne(s, f, pos / BLKSIZE, MapBlocks(pos + n));
    } else {
      assert Holes(s, f, pos / BLKSIZE, MapBlocks(pos + n)) == {};
    }
  }

  /** The need depends on the file's pointers alone. */
  lemma NeedsSame(s: Fs, s': Fs, f: nat, offset: nat, n: nat)
    requires Sized(s) && Sized(s') && f < |s.files| && f < |s'.files| && s'.files[f].indirect == s.files[f].indirect
    requires forall c :: 0 <= c < MAXFILEBLOCKS ==> Ptr(s', f, c) == Ptr(s, f, c)
    ensures Needs(s', f, offset, n) == Needs(s, f, offset, n)
  {
    hide Ptr;
    assert Holes(s', f, offset / BLKSIZE, MapBlocks(offset + n)) == Holes(s, f, offset / BLKSIZE, MapBlocks(offset + n));
  }
}
