/** Block maps of files: which disk block holds which block of which file
    (lab/fs/fs.c), the invariant of the block pointers, and single changes to them. */
module FileMap {
  import opened Basics
  import opened DiskBlocks

  /** The block map part of a struct File. */
  datatype File = File(size: int, direct: seq<nat>, indirect: nat)

  /** A place that can hold a block pointer. */
  datatype Site = Direct(f: nat, i: nat) | Indirect(f: nat) | Slot(f: nat, k: nat)

  /** `blocks` are the contents as the file server sees them, `owner` says for each
      block in use by a file which pointer names it, `reserved` are blocks 0, 1 and the
      bitmap. */
  datatype Fs = Fs(
    nblocks: nat, bitmap: Bitmap, blocks: seq<Block>, files: seq<File>,
    owner: map<int, Site>, reserved: set<int>)

  const MAXFILEBLOCKS: nat := NDIRECT + NINDIRECT

  ghost predicate Sized(s: Fs) {
    && s.nblocks <= MAXBLOCKS && |s.blocks| == s.nblocks && Covers(s.bitmap, s.nblocks)
    && forall f :: 0 <= f < |s.files| ==> |s.files[f].direct| == NDIRECT
  }

  ghost predicate InRange(s: Fs, x: Site) {
    match x
    case Direct(f, i) => f < |s.files| && i < NDIRECT
    case Indirect(f) => f < |s.files|
    case Slot(f, k) => f < |s.files| && k < NINDIRECT
  }

  /** The block a pointer names; 0 when it names none. */
  ghost function NameAt(s: Fs, x: Site): nat
    requires Sized(s) && InRange(s, x)
  {
    match x
    case Direct(f, i) => s.files[f].direct[i]
    case Indirect(f) => s.files[f].indirect
    case Slot(f, k) =>
      if 0 < s.files[f].indirect < s.nblocks then Word(s.blocks[s.files[f].indirect], k) else 0
  }

  ghost predicate Free(s: Fs, b: int)
    requires Sized(s)
  {
    0 <= b < s.nblocks && Bit(s.bitmap, b)
  }

  ghost predicate Named(s: Fs, x: Site)
    requires Sized(s)
  {
    InRange(s, x) && NameAt(s, x) != 0
  }

  /** Every block pointer names a block of its own: in range, in use, not reserved. */
  ghost predicate Owned(s: Fs)
    requires Sized(s)
  {
    && (forall x :: Named(s, x) ==> NameAt(s, x) in s.owner && s.owner[NameAt(s, x)] == x)
    && (forall b :: b in s.owner ==>
          0 < b < s.nblocks && !Free(s, b) && b !in s.reserved && Named(s, s.owner[b]) && NameAt(s, s.owner[b]) == b)
  }

  ghost predicate ReservedOk(s: Fs)
    requires Sized(s)
  {
    0 in s.reserved && forall b :: b in s.reserved ==> !Free(s, b)
  }

  ghost predicate FsInv(s: Fs) {
    Sized(s) && Owned(s) && ReservedOk(s)
  }

  /** Free blocks and blocks in use by files together. */
  ghost function Total(s: Fs): nat
    requires Sized(s)
  {
    |FreeSet(s.bitmap, s.nblocks)| + |s.owner|
  }

  /** Pairwise distinct, in range, in use, never reserved: the invariant read off the
      pointers themselves. */
  lemma PointersDistinct(s: Fs, x: Site, y: Site)
    requires FsInv(s) && Named(s, x) && Named(s, y)
    ensures 0 < NameAt(s, x) < s.nblocks && !Free(s, NameAt(s, x)) && NameAt(s, x) !in s.reserved
    ensures x != y ==> NameAt(s, x) != NameAt(s, y)
  {
    assert NameAt(s, x) in s.owner && NameAt(s, y) in s.owner;
  }

  // ---- pointers of a file by block number ----

  function SiteOf(f: nat, bno: nat): Site {
    if bno < NDIRECT then Direct(f, bno) else Slot(f, bno - NDIRECT)
  }

  /** The disk block of file block `bno`, 0 when it has none. */
  ghost function Ptr(s: Fs, f: nat, bno: nat): nat
    requires Sized(s) && f < |s.files| && bno < MAXFILEBLOCKS
  {
    NameAt(s, SiteOf(f, bno))
  }

  /** No pointer of file `f` lies beyond its rounded-up size. */
  ghost predicate Fits(s: Fs, f: nat)
    requires Sized(s) && f < |s.files|
  {
    && 0 <= s.files[f].size
    && (forall bno :: BlocksFor(s.files[f].size) <= bno < MAXFILEBLOCKS ==> Ptr(s, f, bno) == 0)
    && (BlocksFor(s.files[f].size) <= NDIRECT ==> s.files[f].indirect == 0)
  }

  /** The byte at position `p` of file `f`, if a block is allocated there. */
  ghost function ByteAt(s: Fs, f: nat, p: nat): Option<byte>
    requires Sized(s) && f < |s.files|
  {
    if p / BLKSIZE < MAXFILEBLOCKS && 0 < Ptr(s, f, p / BLKSIZE) < s.nblocks
    then Some(s.blocks[Ptr(s, f, p / BLKSIZE)][p % BLKSIZE]) else None
  }

  // ---- storing a pointer ----

  ghost function SetName(s: Fs, x: Site, b: nat): Fs
    requires Sized(s) && InRange(s, x) && b < MAXBLOCKS
    requires x.Slot? ==> 0 < s.files[x.f].indirect < s.nblocks
  {
    match x
    case Direct(f, i) => s.(files := s.files[f := s.files[f].(direct := s.files[f].direct[i := b])])
    case Indirect(f) => s.(files := s.files[f := s.files[f].(indirect := b)])
    case Slot(f, k) =>
      var ib := s.files[f].indirect;
      s.(blocks := s.blocks[ib := PutWord(s.blocks[ib], k, b)])
  }

  /** Storing a pointer that is not an indirect one changes that pointer alone. */
  lemma SetNameChangesOne(s: Fs, x: Site, b: nat)
    requires FsInv(s) && InRange(s, x) && !x.Indirect? && b < MAXBLOCKS
    requires x.Slot? ==> 0 < s.files[x.f].indirect < s.nblocks
    ensures var s' := SetName(s, x, b);
            Sized(s') && forall y :: InRange(s, y) ==> InRange(s', y) && NameAt(s', y) == if y == x then b else NameAt(s, y)
  {
    var s' := SetName(s, x, b);
    forall y | InRange(s, y) ensures NameAt(s', y) == if y == x then b else NameAt(s, y) {
      if x.Slot? && y.Slot? {
        WordRoundTrip(s.blocks[s.files[x.f].indirect], x.k, b, y.k);
        if y.f != x.f && s.files[y.f].indirect != 0 {
          PointersDistinct(s, Indirect(x.f), Indirect(y.f));
        }
      }
    }
  }
}
