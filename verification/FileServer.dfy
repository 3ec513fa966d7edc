/** The file operations of the file server (lab/fs/fs.c) on a set of distinct files:
    bitmap, block maps, chunked reads and writes, truncation. */
module FileServer {
  import opened Basics
  import opened DiskBlocks
  import opened FileMap
  import opened FileNeeds
  import opened FileSteps

  datatype FsResult = Done | NotFound | Invalid | Panicked

  const NOBLOCK: int := -1

  datatype FileOp =
    | Lookup(f: nat, bno: nat)
    | Read(f: nat, count: nat, offset: nat)
    | Write(f: nat, buf: seq<byte>, offset: nat)
    | Resize(f: nat, size: nat)

  predicate SizesOk(files: seq<File>) {
    forall f :: 0 <= f < |files| ==> 0 <= files[f].size
  }

  ghost predicate AllFit(s: Fs)
    requires Sized(s)
  {
    forall f :: 0 <= f < |s.files| ==> Fits(s, f)
  }

  // ---- what operations promise ----

  ghost predicate DiskFull(s: Fs) {
    Sized(s) && FreeSet(s.bitmap, s.nblocks) == {}
  }

  /** A block lookup: file block `bno` of `f` now has a disk block, allocated if it had
      none; no other pointer, no allocated byte and no other file changed. */
  ghost predicate GotBlock(s: Fs, s': Fs, f: nat, bno: nat)
    requires Sized(s) && Sized(s') && f < |s.files| && bno < MAXFILEBLOCKS
  {
    && SameOutline(s, s', f)
    && (forall g, c :: 0 <= g < |s.files| && 0 <= c < MAXFILEBLOCKS && (g != f || c != bno) ==> Ptr(s', g, c) == Ptr(s, g, c))
    && Filled(s, s', f, bno) && (Ptr(s, f, bno) != 0 ==> s' == s)
    && BytesBut(s, s', f, bno)
  }

  /** Nothing but file `f`'s own map and the bitmap can have changed. */
  ghost predicate SameOutline(s: Fs, s': Fs, f: nat) {
    && s'.nblocks == s.nblocks && s'.reserved == s.reserved && |s'.files| == |s.files|
    && forall g :: 0 <= g < |s.files| ==> s'.files[g].size == s.files[g].size && (g != f ==> s'.files[g] == s.files[g])
  }

  /** Allocated bytes of `f` outside [lo, hi), and all bytes of other files, are kept. */
  ghost predicate KeptOutside(s: Fs, s': Fs, f: nat, lo: int, hi: int)
    requires Sized(s) && Sized(s') && f < |s.files|
  {
    && |s'.files| == |s.files|
    && (forall g, p :: 0 <= g < |s.files| && 0 <= p && g != f ==> ByteAt(s', g, p) == ByteAt(s, g, p))
    && (forall p :: 0 <= p && !(lo <= p < hi) && ByteAt(s, f, p).Some? ==> ByteAt(s', f, p) == ByteAt(s, f, p))
  }

  /** How many of `count` bytes from `offset` on a file of this size has. */
  function ReadLen(size: int, count: nat, offset: nat): (r: nat)
    ensures r <= count && (r > 0 ==> offset + r <= size)
    ensures r < count ==> offset + r >= size
  {
    if offset >= size then 0 else Min(count, size - offset)
  }

  /** The bytes of `f` from `lo` on are `data`. */
  ghost predicate Holds(s: Fs, f: nat, lo: int, data: seq<byte>)
    requires Sized(s) && f < |s.files| && 0 <= lo
  {
    forall i :: 0 <= i < |data| ==> ByteAt(s, f, lo + i) == Some(data[i])
  }

  class Server {
    const nblocks: nat
    var bitmap: Bitmap
    var blocks: seq<Block>
    var files: seq<File>
    ghost var owner: map<int, Site>
    ghost const reserved: set<int>

    ghost function Snap(): Fs
      reads this
    {
      Fs(nblocks, bitmap, blocks, files, owner, reserved)
    }

    ghost predicate Valid()
      reads this
    {
      FsInv(Snap())
    }

    /** A file system as it is formatted: the boot block, the super block and the bitmap in
        use, and `n` files without blocks. */
    constructor (nblocks: nat, bitmap: Bitmap, blocks: seq<Block>, n: nat, ghost reserved: set<int>)
      requires nblocks <= MAXBLOCKS && |blocks| == nblocks && Covers(bitmap, nblocks) && 0 in reserved
      requires forall b :: b in reserved && 0 <= b < nblocks ==> !Bit(bitmap, b)
      ensures Valid() && AllFit(Snap()) && Total(Snap()) == |FreeSet(bitmap, nblocks)|
      ensures this.bitmap == bitmap && this.blocks == blocks && |files| == n
    {
      this.nblocks, this.bitmap, this.blocks, this.reserved := nblocks, bitmap, blocks, reserved;
      files := seq(n, _ => File(0, seq(NDIRECT, _ => 0), 0));
      owner := map[];
      new;
      hide Word;
      forall x | InRange(Snap(), x) ensures NameAt(Snap(), x) == 0 {
      }
    }

    // ---- the bitmap ----

    method BlockIsFree(b: nat) returns (r: bool)
      requires Sized(Snap())
      ensures r == Free(Snap(), b)
    {
      r := b < nblocks && bitmap[b / 32][b % 32];
    }

    method FreeBlock(b: nat)
      requires Sized(Snap()) && 0 < b < nblocks
      modifies this`bitmap
      ensures bitmap == SetBit(old(bitmap), b, true)
    {
      bitmap := bitmap[b / 32 := bitmap[b / 32][b % 32 := true]];
    }

    /** The lowest free block, now in use; NOBLOCK when the disk is full. */
    method AllocBlock() returns (b: int)
      requires Sized(Snap())
      modifies this`bitmap
      ensures b == NOBLOCK <==> FreeSet(old(bitmap), nblocks) == {}
      ensures b == NOBLOCK ==> bitmap == old(bitmap)
      ensures b != NOBLOCK ==>
                && b >= 0 && old(Free(Snap(), b)) && bitmap == SetBit(old(bitmap), b, false)
                && forall c :: 0 <= c < b ==> !old(Free(Snap(), c))
    {
      FreeIsMember(Snap());
      var i := 0;
      while i < nblocks
        invariant 0 <= i <= nblocks && bitmap == old(bitmap)
        invariant forall c :: 0 <= c < i ==> !Free(Snap(), c)
      {
        var r := BlockIsFree(i);
        if r {
          assert i in FreeSet(bitmap, nblocks);
          bitmap := bitmap[i / 32 := bitmap[i / 32][i % 32 := false]];
          return i;
        }
        i := i + 1;
      }
      assert forall c :: c in FreeSet(bitmap, nblocks) ==> Free(Snap(), c);
      b := NOBLOCK;
    }

    // ---- block maps ----

    /** Where the pointer of file block `bno` is, with an indirect block if one is needed
        and `alloc` asks for it. A full disk makes the server panic. */
    method FileBlockWalk(f: nat, bno: nat, alloc: bool) returns (r: FsResult, x: Site)
      requires Valid() && f < |files|
      modifies this`bitmap, this`blocks, this`files, this`owner
      ensures r == Done ==> bno < MAXFILEBLOCKS && x == SiteOf(f, bno) && Valid() && f < |files|
                            && (x.Slot? ==> 0 < files[f].indirect < nblocks)
      ensures r == Invalid <==> bno >= MAXFILEBLOCKS
      ensures r == NotFound <==> NDIRECT <= bno < MAXFILEBLOCKS && old(files[f].indirect) == 0 && !alloc
      ensures r == Panicked <==> NDIRECT <= bno < MAXFILEBLOCKS && old(files[f].indirect) == 0 && alloc
                                 && FreeSet(old(bitmap), nblocks) == {}
      ensures r == Panicked ==> Snap() == old(Snap())
      ensures !(NDIRECT <= bno < MAXFILEBLOCKS && old(files[f].indirect) == 0 && alloc) ==> Snap() == old(Snap())
      ensures r == Done && NDIRECT <= bno < MAXFILEBLOCKS && old(files[f].indirect) == 0 ==>
                exists b :: 0 <= b < nblocks && Free(old(Snap()), b) && Snap() == GiveIndirect(old(Snap()), f, b)
    {
      hide FsInv, Word, PutWord, Bit, SetBit;
      IndirectInRange(Snap(), f);
      x := Indirect(f);
      if bno < NDIRECT {
        return Done, Direct(f, bno);
      }
      if bno >= MAXFILEBLOCKS {
        return Invalid, x;
      }
      if files[f].indirect == 0 {
        if !alloc {
          return NotFound, x;
        }
        ghost var s := Snap();
        var b := AllocBlock();
        if b == NOBLOCK {
          return Panicked, x;
        }
        GiveIndirectStep(s, f, b);
        FreeNotOwned(s, b);
        blocks := blocks[b := Zeroes()];
        files := files[f := files[f].(indirect := b)];
        owner := owner[b := Indirect(f)];
        assert Snap() == GiveIndirect(s, f, b);
      }
      r, x := Done, Slot(f, bno - NDIRECT);
    }

    /** The disk block of file block `bno`, allocating whatever is missing. */
    method FileGetBlock(f: nat, bno: nat) returns (r: FsResult, b: nat)
      requires Valid() && f < |files|
      modifies this`bitmap, this`blocks, this`files, this`owner
      ensures r != Panicked ==> Valid()
      ensures r == Invalid <==> bno >= MAXFILEBLOCKS
      ensures r == Invalid ==> Snap() == old(Snap())
      ensures r == Panicked <==> bno < MAXFILEBLOCKS && FreeCount(old(Snap())) < Missing(old(Snap()), f, bno)
      ensures r == Panicked ==> DiskFull(Snap())
      ensures r in {Done, Invalid, Panicked}
      ensures r == Done ==>
                && |files| == old(|files|)
                && GotBlock(old(Snap()), Snap(), f, bno) && b == Ptr(Snap(), f, bno) && 0 < b < nblocks
                && Total(Snap()) == Total(old(Snap()))
    {
      hide FsInv, Word, PutWord, Bit, SetBit, GiveIndirect, GotBlock, BytesBut, NamesBut, DataKept, Total, Filled;
      b := 0;
      ghost var s0 := Snap();
      IndirectInRange(s0, f);
      var x;
      r, x := FileBlockWalk(f, bno, true);
      if r != Done {
        return;
      }
      ghost var s1 := Snap();
      WalkedFacts(s0, s1, f, bno);
      WalkedFree(s0, s1, f, bno);
      IndirectInRange(s1, f);
      if x.Direct? {
        b := files[f].direct[x.i];
      } else {
        b := Word(blocks[files[f].indirect], x.k);
      }
      assert b == Ptr(s1, f, bno);
      if b == 0 {
        var nb := AllocBlock();
        if nb == NOBLOCK {
          return Panicked, 0;
        }
        GotNew(s0, s1, f, bno, nb);
        FreeNotOwned(s1, nb);
        b := nb;
        if x.Direct? {
          files := files[f := files[f].(direct := files[f].direct[x.i := b])];
        } else {
          var ib := files[f].indirect;
          blocks := blocks[ib := PutWord(blocks[ib], x.k, b)];
        }
        owner := owner[b := x];
        assert Snap() == Give(s1, x, b);
      } else {
        GotOld(s0, s1, f, bno);
      }
    }

    // ---- reading and writing ----

    /** Up to `count` bytes of `f` from `offset`, cut off at the end of the file. */
    method FileRead(f: nat, count: nat, offset: nat) returns (r: FsResult, buf: seq<byte>)
      requires Valid() && f < |files|
      modifies this`bitmap, this`blocks, this`files, this`owner
      ensures Sized(old(Snap())) && r != NotFound
      ensures var n := ReadLen(old(files[f].size), count, offset);
              && (r == Panicked <==> FreeCount(old(Snap())) < Needs(old(Snap()), f, offset, n))
              && (r == Done <==> r != Panicked && Reachable(offset, n) == n)
              && (r != Panicked ==>
                    && Valid() && Sized(Snap()) && OnlyRead(old(Snap()), Snap(), f, offset, n)
                    && |buf| == Reachable(offset, n) && Holds(Snap(), f, offset, buf))
      ensures r == Panicked ==> DiskFull(Snap())
      ensures offset >= old(files[f].size) ==> r == Done && buf == []
      ensures r == Done && offset < old(files[f].size) ==>
                |buf| == count || (|buf| < count && offset + |buf| == old(files[f].size))
    {
      hide FsInv, GotBlock, KeptOutside, Holds, Total, SameOutline, Fits, FreeCount, Needs, Missing;
      ghost var s0 := Snap();
      IndirectInRange(s0, f);
      NoNeeds(s0, f, offset);
      KeptRefl(s0, f, 0, 0);
      buf := [];
      HoldsNothing(s0, f, offset);
      if offset >= files[f].size {
        return Done, buf;
      }
      var n := Min(count, files[f].size - offset);
      var pos := offset;
      while pos < offset + n
        invariant offset <= pos <= offset + n && |buf| == pos - offset && (pos == offset || pos <= MAXFILESIZE)
        invariant Valid() && Sized(Snap()) && |files| == |s0.files|
        invariant SameOutline(s0, Snap(), f) && Total(Snap()) == Total(s0)
        invariant KeptOutside(s0, Snap(), f, 0, 0) && Holds(Snap(), f, offset, buf)
        invariant Fits(s0, f) ==> Fits(Snap(), f)
        invariant FreeCount(Snap()) + Needs(s0, f, offset, n) == FreeCount(s0) + Needs(Snap(), f, pos, offset + n - pos)
      {
        ghost var s1 := Snap();
        NeedsOne(s1, f, pos, offset + n - pos);
        var b;
        r, b := FileGetBlock(f, pos / BLKSIZE);
        if r != Done {
          return;
        }
        InvSized(Snap());
        var bn := Min(BLKSIZE - pos % BLKSIZE, offset + n - pos);
        var chunk := blocks[b][pos % BLKSIZE..pos % BLKSIZE + bn];
        ReadChunk(s0, s1, Snap(), f, pos, offset, buf, chunk);
        OutlineTrans(s0, s1, Snap(), Snap(), f, pos / BLKSIZE);
        GotFilled(s1, Snap(), f, pos / BLKSIZE);
        NeedsStep(s1, Snap(), f, pos, offset + n - pos, bn);
        buf := buf + chunk;
        pos := pos + bn;
      }
      NoNeeds(Snap(), f, pos);
      r := Done;
    }

    // ---- truncation ----

    /** Take file block `bno` away from `f`, if it has one. */
    method FileFreeBlock(f: nat, bno: nat)
      requires Valid() && f < |files|
      modifies this`bitmap, this`blocks, this`files, this`owner
      ensures Valid() && |files| == old(|files|)
      ensures Named(old(Snap()), SiteOf(f, bno)) ==>
                NameAt(old(Snap()), SiteOf(f, bno)) < nblocks
                && (bno >= NDIRECT ==> 0 < old(files[f].indirect) < nblocks) && Snap() == Release(old(Snap()), SiteOf(f, bno))
      ensures !Named(old(Snap()), SiteOf(f, bno)) ==> Snap() == old(Snap())
    {
      hide FsInv, Word, PutWord, Bit, SetBit;
      IndirectInRange(Snap(), f);
      ghost var s := Snap();
      var r, x := FileBlockWalk(f, bno, false);
      if r != Done {
        return;
      }
      var b;
      if x.Direct? {
        b := files[f].direct[x.i];
      } else {
        b := Word(blocks[files[f].indirect], x.k);
      }
      assert b == NameAt(s, x);
      if b != 0 {
        ReleaseStep(s, x);
        FreeBlock(b);
        if x.Direct? {
          files := files[f := files[f].(direct := files[f].direct[x.i := 0])];
        } else {
          var ib := files[f].indirect;
          blocks := blocks[ib := PutWord(blocks[ib], x.k, 0)];
        }
        owner := owner - {b};
        assert Snap() == Release(s, x);
      }
    }

    /** Free the blocks of `f` that a file of size `newsize` does not need. */
    method FileTruncateBlocks(f: nat, newsize: nat)
      requires Valid() && f < |files| && newsize <= files[f].size
      modifies this`bitmap, this`blocks, this`files, this`owner
      ensures Valid() && |files| == old(|files|)
      ensures Truncated(old(Snap()), Snap(), f, MapBlocks(newsize), MapBlocks(old(files[f].size)))
      ensures Total(Snap()) == Total(old(Snap())) <==>
                (MapBlocks(newsize) <= NDIRECT && old(files[f].indirect) != 0 ==>
                   NoStray(old(Snap()), f, MapBlocks(old(files[f].size))))
      ensures Total(Snap()) <= Total(old(Snap()))
    {
      hide FsInv, Cutting, Truncated, NoStray, Total, Release, DropIndirect;
      ghost var s0 := Snap();
      IndirectInRange(s0, f);
      var oldBlocks, newBlocks := BlocksFor(files[f].size), BlocksFor(newsize);
      ghost var lo := MapBlocks(newsize);
      CutStart(s0, f, lo);
      var bno := newBlocks;
      while bno < oldBlocks
        invariant newBlocks <= bno <= oldBlocks && Valid() && Sized(Snap()) && |files| == |s0.files|
        invariant Cutting(s0, Snap(), f, lo, Min(bno, MAXFILEBLOCKS))
      {
        if bno < MAXFILEBLOCKS {
          CutStep(s0, Snap(), f, lo, bno);
        }
        FileFreeBlock(f, bno);
        InvSized(Snap());
        bno := bno + 1;
      }
      ghost var s1 := Snap();
      CutEnd(s0, s1, f, lo, MapBlocks(s0.files[f].size));
      if newBlocks <= NDIRECT && files[f].indirect != 0 {
        var ib := files[f].indirect;
        FreeBlock(ib);
        files := files[f := files[f].(indirect := 0)];
        owner := owner - {ib} - SlotBlocks(s1, f);
        assert Snap() == DropIndirect(s1, f) by { DropIs(s1, Snap(), f); }
      }
    }

    /** Set the size of `f`, giving back what a smaller file does not need. */
    method FileSetSize(f: nat, newsize: nat)
      requires Valid() && f < |files|
      modifies this`bitmap, this`blocks, this`files, this`owner
      ensures Valid() && Sized(Snap()) && Resized(old(Snap()), Snap(), f, newsize)
    {
      hide FsInv, Truncated, Fits, Total, NoStray, WillFit;
      ghost var s0 := Snap();
      IndirectInRange(s0, f);
      if files[f].size > newsize {
        FileTruncateBlocks(f, newsize);
      }
      ghost var s1 := Snap();
      InvSized(s1);
      ResizeFacts(s0, s1, f, newsize);
      files := files[f := files[f].(size := newsize)];
      assert s1.files == files[f := files[f].(size := s0.files[f].size)];
    }

    /** Store a piece of data that lies within one block. */
    method StoreChunk(f: nat, pos: nat, piece: seq<byte>) returns (r: FsResult)
      requires Valid() && f < |files| && pos % BLKSIZE + |piece| <= BLKSIZE
      modifies this`bitmap, this`blocks, this`files, this`owner
      ensures r in {Done, Invalid, Panicked}
      ensures Sized(old(Snap())) && (r == Invalid <==> pos / BLKSIZE >= MAXFILEBLOCKS)
      ensures r == Invalid ==> Snap() == old(Snap())
      ensures r == Panicked <==>
                pos / BLKSIZE < MAXFILEBLOCKS && FreeCount(old(Snap())) < Missing(old(Snap()), f, pos / BLKSIZE)
      ensures r == Panicked ==> DiskFull(Snap())
      ensures r != Panicked ==> Valid()
      ensures r == Done ==>
                && Sized(Snap()) && Filled(old(Snap()), Snap(), f, pos / BLKSIZE)
                && SameOutline(old(Snap()), Snap(), f) && Total(Snap()) == Total(old(Snap())) && |files| == old(|files|)
                && Holds(Snap(), f, pos, piece) && KeptOutside(old(Snap()), Snap(), f, pos, pos + |piece|)
                && (pos / BLKSIZE < BlocksFor(old(files[f].size)) && Fits(old(Snap()), f) ==> Fits(Snap(), f))
    {
      hide FsInv, GotBlock, KeptOutside, Holds, Total, SameOutline, Fits, BytesBut, DiskFull, Filled, FreeCount, Missing;
      ghost var s1 := Snap();
      InvSized(s1);
      KeptRefl(s1, f, 0, 0);
      var b;
      r, b := FileGetBlock(f, pos / BLKSIZE);
      if r != Done {
        return;
      }
      ghost var s2 := Snap();
      InvSized(s2);
      var o := pos % BLKSIZE;
      var data := blocks[b][..o] + piece + blocks[b][o + |piece|..];
      WriteBlockStep(s2, f, pos / BLKSIZE, data);
      InvSized(WriteBlock(s2, b, data));
      blocks := blocks[b := data];
      assert Snap() == WriteBlock(s2, b, data);
      PieceStored(s1, s2, Snap(), f, pos, piece, data);
      OutlineTrans(s1, s1, s2, Snap(), f, pos / BLKSIZE);
      FilledOn(s1, s2, Snap(), f, pos / BLKSIZE);
    }

    /** Store `buf` at `offset`, extending the file if it ends before. */
    method FileWrite(f: nat, buf: seq<byte>, offset: nat) returns (r: FsResult)
      requires Valid() && f < |files|
      modifies this`bitmap, this`blocks, this`files, this`owner
      ensures Sized(old(Snap())) && r != NotFound
      ensures r == Panicked <==> FreeCount(old(Snap())) < Needs(old(Snap()), f, offset, |buf|)
      ensures r == Done <==> r != Panicked && Reachable(offset, |buf|) == |buf|
      ensures r == Panicked ==> DiskFull(Snap())
      ensures r != Panicked ==> Valid() && Sized(Snap()) && Wrote(old(Snap()), Snap(), f, buf, offset)
    {
      hide FsInv, KeptOutside, Holds, Total, SameOutline, Fits, Truncated, DiskFull, NoStray, Conserves, WillFit;
      hide FreeCount, Needs, Missing, Filled;
      ghost var s0 := Snap();
      IndirectInRange(s0, f);
      if offset + |buf| > files[f].size {
        FileSetSize(f, offset + |buf|);
      }
      ghost var sz := Snap();
      InvSized(sz);
      SizeOnly(s0, sz, f, offset, offset + |buf|);
      SizeNeeds(s0, sz, f, offset, |buf|);
      FitsWillFit(s0, f, offset + |buf|);
      var pos := offset;
      assert buf[..0] == [];
      while pos < offset + |buf|
        invariant offset <= pos <= offset + |buf| && (pos == offset || pos <= MAXFILESIZE)
        invariant Valid() && Sized(Snap()) && |files| == |s0.files|
        invariant SameOutline(sz, Snap(), f) && Total(Snap()) == Total(s0)
        invariant KeptOutside(s0, Snap(), f, offset, offset + |buf|) && Holds(Snap(), f, offset, buf[..pos - offset])
        invariant Fits(sz, f) ==> Fits(Snap(), f)
        invariant FreeCount(Snap()) + Needs(s0, f, offset, |buf|) ==
                  FreeCount(s0) + Needs(Snap(), f, pos, offset + |buf| - pos)
      {
        ghost var s1 := Snap();
        var done := pos - offset;
        var bn := Min(BLKSIZE - pos % BLKSIZE, offset + |buf| - pos);
        OutlineSizes(sz, s1, f);
        NeedsOne(s1, f, pos, offset + |buf| - pos);
        r := StoreChunk(f, pos, buf[done..done + bn]);
        if r != Done {
          return;
        }
        InvSized(Snap());
        OutlineChain(sz, s1, Snap(), f);
        WriteOn(s0, s1, Snap(), f, offset, buf, done, bn);
        FilledFree(s1, Snap(), f, pos / BLKSIZE);
        NeedsStep(s1, Snap(), f, pos, offset + |buf| - pos, bn);
        pos := pos + bn;
      }
      assert buf[..|buf|] == buf;
      NoNeeds(Snap(), f, pos);
      OutlineSizes(sz, Snap(), f);
      r := Done;
    }

    // ---- runs ----

    /** A run of block lookups, reads, writes and resizes over any files; `ss` are its
        states. It goes on until an operation lacks more blocks than are free, which makes
        the server panic. */
    method Run(ops: seq<FileOp>) returns (done: nat, ghost ss: seq<Fs>)
      requires Valid() && SizesOk(files)
      modifies this`bitmap, this`blocks, this`files, this`owner
      ensures done <= |ops| && FsRun(ss, ops[..done]) && ss[0] == old(Snap())
      ensures if done == |ops| then Valid() && ss[done] == Snap() else TooFull(ss[done], ops[done]) && DiskFull(Snap())
    {
      hide FsInv, FsDid, DiskFull, TooFull;
      InvSized(Snap());
      done, ss := 0, [Snap()];
      while done < |ops|
        invariant done <= |ops| && Valid() && FsRun(ss, ops[..done]) && ss[0] == old(Snap()) && ss[done] == Snap()
      {
        var panicked := Perform(ops[done]);
        if panicked {
          return;
        }
        FsRunMore(ss, ops, done, Snap());
        done, ss := done + 1, ss + [Snap()];
      }
    }

    /** One operation of a run. */
    method Perform(op: FileOp) returns (panicked: bool)
      requires Valid() && SizesOk(files)
      modifies this`bitmap, this`blocks, this`files, this`owner
      ensures Sized(old(Snap())) && (panicked <==> TooFull(old(Snap()), op))
      ensures if panicked then DiskFull(Snap())
              else Valid() && SizesOk(files) && Sized(Snap()) && FsDid(old(Snap()), op, Snap())
    {
      hide FsInv, GotBlock, KeptOutside, Holds, Total, SameOutline, Fits, Truncated, BytesBut, DiskFull, NoStray, Conserves;
      hide FreeCount, Needs, Missing, WillFit;
      ghost var s := Snap();
      InvSized(s);
      panicked := false;
      var f := op.f;
      if f < |files| {
        match op {
          case Lookup(_, bno) =>
            var r, _ := FileGetBlock(f, bno);
            panicked := r == Panicked;
            if r == Done { InvSized(Snap()); LookupSizes(s, Snap(), f, bno); }
          case Read(_, count, offset) =>
            var r, _ := FileRead(f, count, offset);
            panicked := r == Panicked;
            if !panicked { OutlineSizes(s, Snap(), f); }
          case Write(_, buf, offset) =>
            var r := FileWrite(f, buf, offset);
            panicked := r == Panicked;
          case Resize(_, size) =>
            FileSetSize(f, size);
            ResizeOthers(s, Snap(), f, size);
        }
      }
    }

    /** Blocks can be lost, on every disk with two free blocks and in every file: give the
        file one byte, look up a block beyond it, and empty it. */
    method Leak(f: nat)
      requires Valid() && f < |files| && |FreeSet(bitmap, nblocks)| >= 2
      modifies this`bitmap, this`blocks, this`files, this`owner
      ensures Valid() && Total(Snap()) < Total(old(Snap()))
    {
      hide FsInv, GotBlock, Total, Fits, Truncated, NoStray;
      ghost var s0 := Snap();
      InvSized(s0);
      FileSetSize(f, 1);
      ghost var s1 := Snap();
      FreeGrows(s0, s1, f, 1);
      var r, _ := FileGetBlock(f, NDIRECT);
      ghost var s2 := Snap();
      InvSized(s2);
      FileSetSize(f, 0);
      StrayLoses(s1, s2, Snap(), f);
    }
  }

  /** From formatting to the loss: of the two blocks of this disk that files can use, fewer
      than two are left, free or in use. */
  method LeakExample() returns (server: Server)
    ensures fresh(server) && server.Valid() && Total(server.Snap()) < 2
  {
    var zero: Block := Zeroes();
    var bitmap := [seq(32, b => b == 3 || b == 4)];
    server := new Server(5, bitmap, [zero, zero, zero, zero, zero], 1, {0, 1, 2});
    assert FreeSet(bitmap, 5) == {3, 4};
    server.Leak(0);
  }

  // ---- what a run's operations do ----

  /** The operation lacks more blocks than are free. */
  ghost predicate TooFull(s: Fs, op: FileOp)
    requires Sized(s)
  {
    && op.f < |s.files|
    && match op
       case Lookup(f, bno) => bno < MAXFILEBLOCKS && FreeCount(s) < Missing(s, f, bno)
       case Read(f, count, offset) => FreeCount(s) < Needs(s, f, offset, ReadLen(s.files[f].size, count, offset))
       case Write(f, buf, offset) => FreeCount(s) < Needs(s, f, offset, |buf|)
       case Resize(_, _) => false
  }

  /** Reading `n` bytes changes no size and no allocated byte; it allocates what they lack. */
  ghost predicate OnlyRead(s: Fs, s': Fs, f: nat, offset: nat, n: nat)
    requires Sized(s) && Sized(s') && f < |s.files|
  {
    && FreeCount(s') + Needs(s, f, offset, n) == FreeCount(s)
    && SameOutline(s, s', f) && KeptOutside(s, s', f, 0, 0) && Total(s') == Total(s)
    && |s'.files| == |s.files| && (Fits(s, f) ==> Fits(s', f))
  }

  /** The bytes are stored as far as a file can have blocks, the size covers them all, and
      every other allocated byte of every file is kept. */
  ghost predicate Wrote(s: Fs, s': Fs, f: nat, buf: seq<byte>, offset: nat)
    requires Sized(s) && Sized(s') && f < |s.files|
  {
    && |s'.files| == |s.files| && s'.files[f].size == Max(s.files[f].size, offset + |buf|)
    && (forall g :: 0 <= g < |s.files| && g != f ==> s'.files[g] == s.files[g])
    && FreeCount(s') + Needs(s, f, offset, |buf|) == FreeCount(s)
    && Holds(s', f, offset, buf[..Reachable(offset, |buf|)]) && KeptOutside(s, s', f, offset, offset + |buf|)
    && Total(s') == Total(s) && (Fits(s, f) ==> Fits(s', f))
  }

  /** Setting this size loses no block. */
  ghost predicate Conserves(s: Fs, f: nat, size: nat)
    requires Sized(s) && f < |s.files|
  {
    size < s.files[f].size && MapBlocks(size) <= NDIRECT && s.files[f].indirect != 0 ==>
      NoStray(s, f, MapBlocks(s.files[f].size))
  }

  /** With this size the file will have no block beyond it: growing must cover all its
      blocks, and shrinking clears the map from the new size up to the old one, and all of
      the indirect block if it frees that. */
  ghost predicate WillFit(s: Fs, f: nat, size: nat)
    requires Sized(s) && f < |s.files|
  {
    if size >= s.files[f].size then
      && (forall c :: BlocksFor(size) <= c < MAXFILEBLOCKS ==> Ptr(s, f, c) == 0)
      && (BlocksFor(size) <= NDIRECT ==> s.files[f].indirect == 0)
    else
      forall c :: MapBlocks(s.files[f].size) <= c < MAXFILEBLOCKS && !(MapBlocks(size) <= NDIRECT <= c) ==> Ptr(s, f, c) == 0
  }

  /** Growing changes the size alone. Shrinking truncates, and conserves blocks exactly when
      a freed indirect block names none beyond the old size. */
  ghost predicate Resized(s: Fs, s': Fs, f: nat, size: nat)
    requires Sized(s) && Sized(s') && f < |s.files|
  {
    && |s'.files| == |s.files| && s'.files[f].size == size
    && (size >= s.files[f].size ==> s' == s.(files := s.files[f := s.files[f].(size := size)]))
    && (size < s.files[f].size ==>
          var s1 := s'.(files := s'.files[f := s'.files[f].(size := s.files[f].size)]);
          Sized(s1) && Truncated(s, s1, f, MapBlocks(size), MapBlocks(s.files[f].size)))
    && (Total(s') == Total(s) <==> Conserves(s, f, size)) && Total(s') <= Total(s)
    && (Fits(s', f) <==> WillFit(s, f, size))
  }

  ghost predicate FsDid(s: Fs, op: FileOp, s': Fs)
    requires Sized(s) && Sized(s') && SizesOk(s.files)
  {
    if op.f >= |s.files| then s' == s
    else
      !TooFull(s, op) &&
      match op
      case Lookup(f, bno) => if bno < MAXFILEBLOCKS then GotBlock(s, s', f, bno) && Total(s') == Total(s) else s' == s
      case Read(f, count, offset) => OnlyRead(s, s', f, offset, ReadLen(s.files[f].size, count, offset))
      case Write(f, buf, offset) => Wrote(s, s', f, buf, offset)
      case Resize(f, size) => Resized(s, s', f, size)
  }

  /** `ss` are the states of a run of `ops`, each with its pointers in order. */
  ghost predicate FsRun(ss: seq<Fs>, ops: seq<FileOp>) {
    && |ss| == |ops| + 1
    && (forall i :: 0 <= i < |ss| ==> FsInv(ss[i]) && Sized(ss[i]) && SizesOk(ss[i].files))
    && forall i :: 0 <= i < |ops| ==> FsDid(ss[i], ops[i], ss[i + 1])
  }

  lemma FsRunMore(ss: seq<Fs>, ops: seq<FileOp>, n: nat, s': Fs)
    requires n < |ops| && FsRun(ss, ops[..n]) && FsInv(s') && Sized(s') && SizesOk(s'.files) && FsDid(ss[n], ops[n], s')
    ensures FsRun(ss + [s'], ops[..n + 1])
  {
    hide FsInv, Sized, FsDid;
  }

  lemma LookupSizes(s: Fs, s': Fs, f: nat, bno: nat)
    requires Sized(s) && Sized(s') && f < |s.files| && bno < MAXFILEBLOCKS && GotBlock(s, s', f, bno)
    ensures |s'.files| == |s.files| && forall g :: 0 <= g < |s.files| ==> s'.files[g].size == s.files[g].size
  {
  }

  lemma ResizeOthers(s: Fs, s': Fs, f: nat, size: nat)
    requires Sized(s) && Sized(s') && f < |s.files| && Resized(s, s', f, size)
    ensures forall g :: 0 <= g < |s.files| && g != f ==> s'.files[g] == s.files[g]
  {
  }

  lemma FreeGrows(s: Fs, s': Fs, f: nat, size: nat)
    requires Sized(s) && Sized(s') && f < |s.files| && Resized(s, s', f, size)
    ensures |FreeSet(s'.bitmap, s'.nblocks)| >= |FreeSet(s.bitmap, s.nblocks)| && s'.nblocks == s.nblocks
  {
    var a, b := FreeSet(s.bitmap, s.nblocks), FreeSet(s'.bitmap, s'.nblocks);
    assert a <= b;
    Subset(a, b);
  }

  lemma Subset(a: set<int>, b: set<int>)
    requires a <= b
    ensures |a| <= |b|
  {
    assert b == a + (b - a);
  }

  /** A block looked up beyond the size of a file is lost when the file is emptied. */
  lemma StrayLoses(s1: Fs, s2: Fs, s3: Fs, f: nat)
    requires Sized(s1) && Sized(s2) && Sized(s3) && f < |s1.files| && s1.files[f].size == 1
    requires GotBlock(s1, s2, f, NDIRECT) && Total(s2) == Total(s1) && Resized(s2, s3, f, 0)
    ensures Total(s3) < Total(s1)
  {
    hide Total, Truncated, BytesBut;
    assert SameOutline(s1, s2, f) && Ptr(s2, f, NDIRECT) != 0;
    assert !NoStray(s2, f, MapBlocks(1));
    assert s2.files[f].indirect != 0;
  }

  /** Reading back: after `buf` was written at `offset`, a read at `lo` gives the written
      bytes where the ranges overlap, and the earlier allocated bytes elsewhere. */
  lemma ReadBack(s0: Fs, s1: Fs, s2: Fs, f: nat, buf: seq<byte>, offset: nat, data: seq<byte>, lo: nat, i: nat)
    requires Sized(s0) && Sized(s1) && Sized(s2) && f < |s0.files| && |s1.files| == |s2.files| == |s0.files|
    requires Holds(s1, f, offset, buf) && KeptOutside(s0, s1, f, offset, offset + |buf|)
    requires KeptOutside(s1, s2, f, 0, 0) && Holds(s2, f, lo, data) && i < |data|
    ensures offset <= lo + i < offset + |buf| ==> data[i] == buf[lo + i - offset]
    ensures !(offset <= lo + i < offset + |buf|) && ByteAt(s0, f, lo + i).Some? ==> Some(data[i]) == ByteAt(s0, f, lo + i)
  {
    var p := lo + i;
    assert ByteAt(s2, f, p) == Some(data[i]);
    if offset <= p < offset + |buf| {
      assert ByteAt(s1, f, offset + (p - offset)) == Some(buf[p - offset]);
    }
  }

  /** A file whose record and bytes are the same still has no block beyond its size. */
  lemma OtherFits(s: Fs, s': Fs, g: nat)
    requires FsInv(s) && FsInv(s') && g < |s.files| && g < |s'.files| && s'.files[g] == s.files[g]
    requires forall p :: 0 <= p ==> ByteAt(s', g, p) == ByteAt(s, g, p)
    ensures Fits(s, g) ==> Fits(s', g)
  {
    if Fits(s, g) {
      forall c | BlocksFor(s.files[g].size) <= c < MAXFILEBLOCKS ensures Ptr(s', g, c) == 0 {
        assert ByteAt(s', g, c * BLKSIZE) == ByteAt(s, g, c * BLKSIZE);
        assert Ptr(s, g, c) == 0;
        if Ptr(s', g, c) != 0 { assert Named(s', SiteOf(g, c)); }
      }
    }
  }

  lemma KeptFits(s: Fs, s': Fs, f: nat, lo: int, hi: int)
    requires FsInv(s) && FsInv(s') && Sized(s) && Sized(s') && f < |s.files| && |s'.files| == |s.files|
    requires KeptOutside(s, s', f, lo, hi) && forall g :: 0 <= g < |s.files| && g != f ==> s'.files[g] == s.files[g]
    requires Fits(s, f) ==> Fits(s', f)
    ensures AllFit(s) ==> AllFit(s')
  {
    hide FsInv, Fits;
    forall g | 0 <= g < |s.files| && g != f ensures Fits(s, g) ==> Fits(s', g) {
      OtherFits(s, s', g);
    }
  }

  /** A lookup keeps every file within its size exactly when it asks for a block inside. */
  lemma LookupFits(s: Fs, s': Fs, f: nat, bno: nat)
    requires FsInv(s) && FsInv(s') && Sized(s) && Sized(s') && f < |s.files| && bno < MAXFILEBLOCKS && GotBlock(s, s', f, bno)
    ensures |s'.files| == |s.files| && forall g :: 0 <= g < |s.files| ==> s'.files[g].size == s.files[g].size
    ensures AllFit(s) ==> (AllFit(s') <==> bno < BlocksFor(s.files[f].size))
  {
    hide FsInv, Fits;
    KeptRefl(s, f, 0, 0);
    GotKeeps(s, s', f, bno);
    OutlineTrans(s, s, s', s', f, bno);
    if bno < BlocksFor(s.files[f].size) && AllFit(s) {
      KeptFits(s, s', f, 0, 0);
    }
    assert bno >= BlocksFor(s.files[f].size) ==> !Fits(s', f) by { BeyondSize(s', f, bno); }
  }

  lemma BeyondSize(s: Fs, f: nat, bno: nat)
    requires Sized(s) && f < |s.files| && bno < MAXFILEBLOCKS && Ptr(s, f, bno) != 0
    ensures Fits(s, f) ==> bno < BlocksFor(s.files[f].size)
  {
  }

  lemma ResizeFits(s: Fs, s': Fs, f: nat, size: nat)
    requires FsInv(s) && FsInv(s') && Sized(s) && Sized(s') && f < |s.files| && Resized(s, s', f, size)
    ensures AllFit(s) ==> AllFit(s')
  {
    hide FsInv, Fits, WillFit;
    FitsWillFit(s, f, size);
    forall g | 0 <= g < |s.files| && g != f ensures s'.files[g] == s.files[g] && (Fits(s, g) ==> Fits(s', g)) {
      forall p | 0 <= p ensures ByteAt(s', g, p) == ByteAt(s, g, p) {
        ResizeBytes(s, s', f, size, g, p);
      }
      OtherFits(s, s', g);
    }
  }

  /** Resizing keeps every byte but those in blocks beyond the new size. */
  lemma ResizeBytes(s: Fs, s': Fs, f: nat, size: nat, g: nat, p: nat)
    requires FsInv(s) && FsInv(s') && Sized(s) && Sized(s') && f < |s.files| && g < |s.files| && Resized(s, s', f, size)
    requires g != f || p / BLKSIZE < MapBlocks(size)
    ensures g < |s'.files| && ByteAt(s', g, p) == ByteAt(s, g, p)
  {
    hide FsInv, NoStray, Fits, Total;
    var s1 := s'.(files := s'.files[f := s'.files[f].(size := s.files[f].size)]);
    SizeIsNotAPointer(s', s1);
    if p / BLKSIZE < MAXFILEBLOCKS {
      assert InRange(s', SiteOf(g, p / BLKSIZE)) && InRange(s, SiteOf(g, p / BLKSIZE));
    }
  }

  // ---- truncation ----

  /** The blocks of `f` with file block numbers in [lo, hi). */
  ghost function BlocksIn(s: Fs, f: nat, lo: int, hi: int): set<int>
    requires Sized(s) && f < |s.files| && 0 <= lo && hi <= MAXFILEBLOCKS
  {
    set c | lo <= c < hi && Ptr(s, f, c) != 0 :: Ptr(s, f, c)
  }

  /** Part way through truncation: the pointers of `f` in [lo, n) are cleared and their
      blocks free; everything else is as it was. */
  ghost predicate Cutting(s0: Fs, s: Fs, f: nat, lo: int, n: int)
    requires Sized(s0) && Sized(s) && f < |s0.files| && 0 <= lo && n <= MAXFILEBLOCKS
  {
    && SameOutline(s0, s, f) && s.files[f].indirect == s0.files[f].indirect && Total(s) == Total(s0)
    && (forall g, c :: 0 <= g < |s0.files| && 0 <= c < MAXFILEBLOCKS ==>
          Ptr(s, g, c) == if g == f && lo <= c < n then 0 else Ptr(s0, g, c))
    && FreeSet(s.bitmap, s.nblocks) == FreeSet(s0.bitmap, s0.nblocks) + BlocksIn(s0, f, lo, n)
    && (forall g, p :: 0 <= g < |s0.files| && 0 <= p && !(g == f && lo <= p / BLKSIZE < n) ==>
          ByteAt(s, g, p) == ByteAt(s0, g, p))
  }

  /** Truncation of `f` from `hi` to `lo` blocks freed exactly the blocks in between, and
      the indirect block when at most NDIRECT blocks remain; bytes below, and all other
      files, are as they were. */
  ghost predicate Truncated(s0: Fs, s: Fs, f: nat, lo: int, hi: int)
    requires Sized(s0) && Sized(s) && f < |s0.files| && 0 <= lo && hi <= MAXFILEBLOCKS
  {
    var drop := lo <= NDIRECT && s0.files[f].indirect != 0;
    && SameOutline(s0, s, f)
    && s.files[f].indirect == (if drop then 0 else s0.files[f].indirect)
    && (forall g, c :: 0 <= g < |s0.files| && 0 <= c < MAXFILEBLOCKS ==>
          Ptr(s, g, c) == if g == f && (lo <= c < hi || (drop && c >= NDIRECT)) then 0 else Ptr(s0, g, c))
    && FreeSet(s.bitmap, s.nblocks) ==
         FreeSet(s0.bitmap, s0.nblocks) + BlocksIn(s0, f, lo, hi) + (if drop then {s0.files[f].indirect} else {})
    && (forall g, p :: 0 <= g < |s0.files| && 0 <= p && (g != f || p / BLKSIZE < lo) ==> ByteAt(s, g, p) == ByteAt(s0, g, p))
  }

  lemma CutStart(s: Fs, f: nat, lo: int)
    requires Sized(s) && f < |s.files| && 0 <= lo <= MAXFILEBLOCKS
    ensures Cutting(s, s, f, lo, lo)
  {
    assert BlocksIn(s, f, lo, lo) == {};
  }

  lemma CutStep(s0: Fs, s: Fs, f: nat, lo: int, n: int)
    requires Sized(s0) && FsInv(s) && f < |s0.files| && 0 <= lo <= n < MAXFILEBLOCKS && Cutting(s0, s, f, lo, n)
    ensures Sized(s)
    ensures Named(s, SiteOf(f, n)) ==>
              NameAt(s, SiteOf(f, n)) < s.nblocks && (n >= NDIRECT ==> 0 < s.files[f].indirect < s.nblocks)
              && Sized(Release(s, SiteOf(f, n))) && Cutting(s0, Release(s, SiteOf(f, n)), f, lo, n + 1)
    ensures !Named(s, SiteOf(f, n)) ==> Cutting(s0, s, f, lo, n + 1)
  {
    hide FsInv, Cutting, Word, Bit, SetBit, Total, Release;
    InvSized(s);
    CutOutline(s0, s, f, lo, n);
    var x := SiteOf(f, n);
    if Named(s, x) {
      ReleaseStep(s, x);
      var s' := Release(s, x);
      InvSized(s');
      BytesFromNames(s, s', x, 0, f, n);
      ReleaseOutline(s, x);
      CutOne(s0, s, s', f, lo, n);
    } else {
      CutNone(s0, s, f, lo, n);
    }
  }

  lemma CutOutline(s0: Fs, s: Fs, f: nat, lo: int, n: int)
    requires Sized(s0) && Sized(s) && f < |s0.files| && 0 <= lo <= n < MAXFILEBLOCKS && Cutting(s0, s, f, lo, n)
    ensures f < |s.files| && Ptr(s, f, n) == Ptr(s0, f, n)
  {
  }

  lemma ReleaseOutline(s: Fs, x: Site)
    requires Sized(s) && InRange(s, x) && !x.Indirect? && NameAt(s, x) < s.nblocks
    requires x.Slot? ==> 0 < s.files[x.f].indirect < s.nblocks
    ensures SameOutline(s, Release(s, x), x.f) && Release(s, x).files[x.f].indirect == s.files[x.f].indirect
  {
  }

  lemma CutOne(s0: Fs, s: Fs, s': Fs, f: nat, lo: int, n: int)
    requires Sized(s0) && Sized(s) && Sized(s') && f < |s0.files| && 0 <= lo <= n < MAXFILEBLOCKS && Cutting(s0, s, f, lo, n)
    requires f < |s.files| && Ptr(s, f, n) == Ptr(s0, f, n) != 0
    requires NamesBut(s, s', SiteOf(f, n), 0) && BytesBut(s, s', f, n) && Total(s') == Total(s)
    requires SameOutline(s, s', f) && s'.files[f].indirect == s.files[f].indirect
    requires FreeSet(s'.bitmap, s.nblocks) == FreeSet(s.bitmap, s.nblocks) + {Ptr(s, f, n)}
    ensures Cutting(s0, s', f, lo, n + 1)
  {
    hide Total, FreeSet, Word, ByteAt, BlocksIn;
    BlocksInGrows(s0, f, lo, n);
    forall g, c | 0 <= g < |s0.files| && 0 <= c < MAXFILEBLOCKS
      ensures Ptr(s', g, c) == if g == f && lo <= c < n + 1 then 0 else Ptr(s0, g, c)
    {
      assert InRange(s, SiteOf(g, c));
      assert Ptr(s', g, c) == if SiteOf(g, c) == SiteOf(f, n) then 0 else Ptr(s, g, c);
    }
    forall g, p | 0 <= g < |s0.files| && 0 <= p && !(g == f && lo <= p / BLKSIZE < n + 1)
      ensures ByteAt(s', g, p) == ByteAt(s0, g, p)
    {
      assert ByteAt(s', g, p) == ByteAt(s, g, p);
    }
  }

  lemma CutNone(s0: Fs, s: Fs, f: nat, lo: int, n: int)
    requires Sized(s0) && Sized(s) && f < |s0.files| && 0 <= lo <= n < MAXFILEBLOCKS && Cutting(s0, s, f, lo, n)
    requires Ptr(s0, f, n) == 0
    ensures Cutting(s0, s, f, lo, n + 1)
  {
    hide Total, FreeSet, Word;
    BlocksInGrows(s0, f, lo, n);
  }

  lemma BlocksInGrows(s: Fs, f: nat, lo: int, n: int)
    requires Sized(s) && f < |s.files| && 0 <= lo <= n < MAXFILEBLOCKS
    ensures BlocksIn(s, f, lo, n + 1) == BlocksIn(s, f, lo, n) + if Ptr(s, f, n) != 0 then {Ptr(s, f, n)} else {}
  {
  }

  /** The indirect block of `f` holds no pointer from file block `hi` on. */
  ghost predicate NoStray(s: Fs, f: nat, hi: int)
    requires Sized(s) && f < |s.files|
  {
    forall c :: NDIRECT <= c < MAXFILEBLOCKS && hi <= c ==> Ptr(s, f, c) == 0
  }

  lemma FitsNoStray(s: Fs, f: nat)
    requires Sized(s) && f < |s.files|
    ensures Fits(s, f) ==> NoStray(s, f, MapBlocks(s.files[f].size))
  {
  }

  lemma CutEnd(s0: Fs, s: Fs, f: nat, lo: int, hi: int)
    requires FsInv(s0) && FsInv(s) && f < |s0.files| && 0 <= lo <= hi <= MAXFILEBLOCKS && Sized(s0) && Sized(s)
    requires Cutting(s0, s, f, lo, hi)
    ensures f < |s.files| && s.files[f].indirect == s0.files[f].indirect
    ensures !(lo <= NDIRECT && s.files[f].indirect != 0) ==> Truncated(s0, s, f, lo, hi) && Total(s) == Total(s0)
    ensures lo <= NDIRECT && s.files[f].indirect != 0 ==>
              && s.files[f].indirect < s.nblocks
              && var s' := DropIndirect(s, f);
              && FsInv(s') && Sized(s') && Truncated(s0, s', f, lo, hi) && (Total(s') == Total(s0) <==> NoStray(s0, f, hi))
              && Total(s') <= Total(s0)
  {
    hide FsInv, Word, Bit, SetBit, Total, DropIndirect, Cutting, Truncated, NoStray;
    CutSame(s0, s, f, lo, hi);
    if lo <= NDIRECT && s.files[f].indirect != 0 {
      DropIndirectExact(s, f);
      var s' := DropIndirect(s, f);
      InvSized(s');
      DropView(s0, s, s', f, lo, hi);
      NoSlotsLeft(s0, s, f, lo, hi);
    }
  }

  lemma CutSame(s0: Fs, s: Fs, f: nat, lo: int, hi: int)
    requires Sized(s0) && Sized(s) && f < |s0.files| && 0 <= lo <= hi <= MAXFILEBLOCKS && Cutting(s0, s, f, lo, hi)
    ensures f < |s.files| && s.files[f].indirect == s0.files[f].indirect && Total(s) == Total(s0)
    ensures !(lo <= NDIRECT && s.files[f].indirect != 0) ==> Truncated(s0, s, f, lo, hi)
  {
    hide Total, FreeSet, Word;
  }

  lemma NoSlotsLeft(s0: Fs, s: Fs, f: nat, lo: int, hi: int)
    requires Sized(s0) && Sized(s) && f < |s0.files| && 0 <= lo <= hi <= MAXFILEBLOCKS && Cutting(s0, s, f, lo, hi)
    requires lo <= NDIRECT && f < |s.files|
    ensures (forall k :: 0 <= k < NINDIRECT ==> NameAt(s, Slot(f, k)) == 0) <==> NoStray(s0, f, hi)
  {
    hide Total, FreeSet, Word;
    forall k | 0 <= k < NINDIRECT ensures NameAt(s, Slot(f, k)) == if NDIRECT + k < hi then 0 else Ptr(s0, f, NDIRECT + k) {
      assert Ptr(s, f, NDIRECT + k) == NameAt(s, Slot(f, k));
    }
    if c :| NDIRECT <= c < MAXFILEBLOCKS && hi <= c && Ptr(s0, f, c) != 0 {
      assert NameAt(s, Slot(f, c - NDIRECT)) != 0;
    }
  }

  lemma DropView(s0: Fs, s: Fs, s': Fs, f: nat, lo: int, hi: int)
    requires FsInv(s) && Sized(s0) && Sized(s') && f < |s0.files| && 0 <= lo <= hi <= MAXFILEBLOCKS && Cutting(s0, s, f, lo, hi)
    requires 0 < s.files[f].indirect < s.nblocks && s' == DropIndirect(s, f) && lo <= NDIRECT
    requires FreeSet(s'.bitmap, s.nblocks) == FreeSet(s.bitmap, s.nblocks) + {s.files[f].indirect}
    ensures Truncated(s0, s', f, lo, hi)
  {
    forall g, c | 0 <= g < |s0.files| && 0 <= c < MAXFILEBLOCKS
      ensures Ptr(s', g, c) == if g == f && c >= NDIRECT then 0 else Ptr(s, g, c)
    {
    }
    forall g, p | 0 <= g < |s0.files| && 0 <= p && (g != f || p / BLKSIZE < lo) ensures ByteAt(s', g, p) == ByteAt(s0, g, p) {
      assert ByteAt(s, g, p) == ByteAt(s0, g, p);
      if p / BLKSIZE < MAXFILEBLOCKS {
        assert Ptr(s', g, p / BLKSIZE) == Ptr(s, g, p / BLKSIZE);
      }
    }
  }

  lemma DropIs(s: Fs, s': Fs, f: nat)
    requires Sized(s) && f < |s.files| && s.files[f].indirect < s.nblocks
    requires s' == s.(files := s.files[f := s.files[f].(indirect := 0)], bitmap := SetBit(s.bitmap, s.files[f].indirect, true),
                      owner := s.owner - {s.files[f].indirect} - SlotBlocks(s, f))
    ensures s' == DropIndirect(s, f)
  {
  }

  lemma ResizeFacts(s0: Fs, s1: Fs, f: nat, newsize: nat)
    requires FsInv(s0) && FsInv(s1) && Sized(s0) && f < |s0.files| && |s1.files| == |s0.files|
    requires if s0.files[f].size > newsize
             then Sized(s1) && Truncated(s0, s1, f, MapBlocks(newsize), MapBlocks(s0.files[f].size))
                  && (Total(s1) == Total(s0) <==> Conserves(s0, f, newsize)) && Total(s1) <= Total(s0)
             else s1 == s0
    ensures s1.files[f].size == s0.files[f].size
    ensures var s2 := s1.(files := s1.files[f := s1.files[f].(size := newsize)]);
            FsInv(s2) && Sized(s2) && Resized(s0, s2, f, newsize)
  {
    hide NoStray, FsInv;
    InvSized(s1);
    var s2 := s1.(files := s1.files[f := s1.files[f].(size := newsize)]);
    SizeIsNotAPointer(s1, s2);
    InvSized(s2);
    assert s1.files == s2.files[f := s2.files[f].(size := s0.files[f].size)];
    ResizedFits(s0, s1, s2, f, newsize);
  }

  lemma ResizedFits(s0: Fs, s1: Fs, s2: Fs, f: nat, newsize: nat)
    requires Sized(s0) && Sized(s1) && Sized(s2) && f < |s0.files| && |s1.files| == |s2.files| == |s0.files|
    requires if s0.files[f].size > newsize
             then Truncated(s0, s1, f, MapBlocks(newsize), MapBlocks(s0.files[f].size))
             else s1 == s0
    requires s2 == s1.(files := s1.files[f := s1.files[f].(size := newsize)])
    ensures Fits(s2, f) <==> WillFit(s0, f, newsize)
  {
    hide FreeSet, ByteAt, Word;
    forall c | 0 <= c < MAXFILEBLOCKS ensures Ptr(s2, f, c) == Ptr(s1, f, c) {
    }
  }

  lemma FitsWillFit(s: Fs, f: nat, size: nat)
    requires Sized(s) && f < |s.files|
    ensures Fits(s, f) ==> WillFit(s, f, size)
  {
    hide Ptr;
  }

  lemma SizeIsNotAPointer(s: Fs, s': Fs)
    requires FsInv(s) && Sized(s') && |s'.files| == |s.files| && s'.blocks == s.blocks && s'.bitmap == s.bitmap
    requires s'.owner == s.owner && s'.reserved == s.reserved && s'.nblocks == s.nblocks
    requires forall g :: 0 <= g < |s.files| ==>
               s'.files[g].direct == s.files[g].direct && s'.files[g].indirect == s.files[g].indirect
    ensures FsInv(s')
    ensures forall y :: InRange(s, y) ==> InRange(s', y) && NameAt(s', y) == NameAt(s, y)
  {
    forall y ensures Named(s', y) == Named(s, y) {
      assert InRange(s', y) == InRange(s, y);
    }
  }

  lemma InvSized(s: Fs)
    requires FsInv(s)
    ensures Sized(s)
  {
  }

  lemma NoNeeds(s: Fs, f: nat, offset: nat)
    requires Sized(s) && f < |s.files|
    ensures Needs(s, f, offset, 0) == 0
  {
  }

  lemma GotFilled(s: Fs, s': Fs, f: nat, bno: nat)
    requires Sized(s) && Sized(s') && f < |s.files| && bno < MAXFILEBLOCKS && GotBlock(s, s', f, bno)
    ensures Filled(s, s', f, bno)
  {
  }

  lemma FilledFree(s: Fs, s': Fs, f: nat, bno: nat)
    requires Sized(s) && Sized(s') && f < |s.files| && bno < MAXFILEBLOCKS && Filled(s, s', f, bno)
    ensures FreeCount(s') + Missing(s, f, bno) == FreeCount(s)
  {
  }

  /** Writing to a block that a lookup gave changes no pointer. */
  lemma FilledOn(s1: Fs, s2: Fs, s3: Fs, f: nat, bno: nat)
    requires Sized(s1) && Sized(s2) && Sized(s3) && f < |s1.files| && bno < MAXFILEBLOCKS && GotBlock(s1, s2, f, bno)
    requires s3.files == s2.files && s3.nblocks == s2.nblocks && s3.bitmap == s2.bitmap
    requires forall y :: InRange(s2, y) ==> InRange(s3, y) && NameAt(s3, y) == NameAt(s2, y)
    ensures Filled(s1, s3, f, bno)
  {
    forall c | 0 <= c < MAXFILEBLOCKS ensures f < |s2.files| && Ptr(s3, f, c) == Ptr(s2, f, c) {
      assert InRange(s2, SiteOf(f, c));
    }
  }

  lemma SizeNeeds(s: Fs, s': Fs, f: nat, offset: nat, n: nat)
    requires FsInv(s) && Sized(s) && Sized(s') && f < |s.files| && |s'.files| == |s.files|
    requires s' == s || s' == s.(files := s.files[f := s.files[f].(size := s'.files[f].size)])
    ensures Needs(s', f, offset, n) == Needs(s, f, offset, n) && FreeCount(s') == FreeCount(s)
  {
    SizeIsNotAPointer(s, s');
    forall c | 0 <= c < MAXFILEBLOCKS ensures Ptr(s', f, c) == Ptr(s, f, c) {
      assert InRange(s, SiteOf(f, c));
    }
    NeedsSame(s, s', f, offset, n);
  }

  lemma KeptRefl(s: Fs, f: nat, lo: int, hi: int)
    requires Sized(s) && f < |s.files|
    ensures KeptOutside(s, s, f, lo, hi) && SameOutline(s, s, f)
  {
  }

  lemma HoldsNothing(s: Fs, f: nat, lo: int)
    requires Sized(s) && f < |s.files| && 0 <= lo
    ensures Holds(s, f, lo, [])
  {
  }

  /** One turn of the read loop. */
  lemma ReadChunk(s0: Fs, s1: Fs, s2: Fs, f: nat, pos: nat, offset: nat, buf: seq<byte>, chunk: seq<byte>)
    requires Sized(s0) && Sized(s1) && Sized(s2) && f < |s0.files| && f < |s1.files| && pos / BLKSIZE < MAXFILEBLOCKS
    requires GotBlock(s1, s2, f, pos / BLKSIZE) && SameOutline(s0, s1, f) && KeptOutside(s0, s1, f, 0, 0)
    requires Holds(s1, f, offset, buf) && pos == offset + |buf| && 0 < Ptr(s2, f, pos / BLKSIZE) < s2.nblocks
    requires pos % BLKSIZE + |chunk| <= BLKSIZE
    requires chunk == s2.blocks[Ptr(s2, f, pos / BLKSIZE)][pos % BLKSIZE..pos % BLKSIZE + |chunk|]
    ensures SameOutline(s0, s2, f) && KeptOutside(s0, s2, f, 0, 0) && Holds(s2, f, offset, buf + chunk)
  {
    GotKeeps(s1, s2, f, pos / BLKSIZE);
    forall i | 0 <= i < |buf + chunk| ensures ByteAt(s2, f, offset + i) == Some((buf + chunk)[i]) {
      if i < |buf| {
        assert ByteAt(s1, f, offset + i) == Some(buf[i]);
      } else {
        var j := i - |buf|;
        assert (offset + i) / BLKSIZE == pos / BLKSIZE && (offset + i) % BLKSIZE == pos % BLKSIZE + j;
      }
    }
  }

  /** Changing a size changes no byte. */
  lemma SizeOnly(s: Fs, s': Fs, f: nat, lo: nat, hi: int)
    requires FsInv(s) && Sized(s) && Sized(s') && f < |s.files| && |s'.files| == |s.files|
    requires s' == s || s' == s.(files := s.files[f := s.files[f].(size := s'.files[f].size)])
    ensures KeptOutside(s, s', f, lo, hi) && Holds(s', f, lo, []) && SameOutline(s', s', f) && Total(s') == Total(s)
  {
    SizeIsNotAPointer(s, s');
    forall g, p | 0 <= g < |s.files| && 0 <= p ensures ByteAt(s', g, p) == ByteAt(s, g, p) {
      if p / BLKSIZE < MAXFILEBLOCKS { assert InRange(s, SiteOf(g, p / BLKSIZE)); }
    }
  }

  lemma OutlineTrans(sz: Fs, s1: Fs, s2: Fs, s3: Fs, f: nat, bno: nat)
    requires Sized(sz) && Sized(s1) && Sized(s2) && Sized(s3) && f < |s1.files| && f < |sz.files| && bno < MAXFILEBLOCKS
    requires SameOutline(sz, s1, f) && GotBlock(s1, s2, f, bno) && s3.files == s2.files && s3.nblocks == s2.nblocks
             && s3.reserved == s2.reserved
    requires forall y :: InRange(s2, y) ==> InRange(s3, y) && NameAt(s3, y) == NameAt(s2, y)
    ensures SameOutline(sz, s3, f) && f < |s3.files|
    ensures bno < BlocksFor(sz.files[f].size) && Fits(s1, f) ==> Fits(s3, f)
  {
    if bno < BlocksFor(sz.files[f].size) && Fits(s1, f) {
      forall c | BlocksFor(s3.files[f].size) <= c < MAXFILEBLOCKS ensures Ptr(s3, f, c) == 0 {
        assert InRange(s2, SiteOf(f, c));
        assert Ptr(s2, f, c) == Ptr(s1, f, c) == 0;
      }
    }
  }

  lemma OutlineSizes(s: Fs, s': Fs, f: nat)
    requires SameOutline(s, s', f) && f < |s.files|
    ensures |s'.files| == |s.files| && s'.files[f].size == s.files[f].size
    ensures forall g :: 0 <= g < |s.files| && g != f ==> s'.files[g] == s.files[g]
  {
  }

  /** Writing one block over with `piece` in it stores the piece and keeps the rest. */
  lemma PieceStored(s1: Fs, s2: Fs, s3: Fs, f: nat, pos: nat, piece: seq<byte>, data: Block)
    requires Sized(s1) && Sized(s2) && Sized(s3) && f < |s1.files| && |s1.files| == |s2.files| == |s3.files|
    requires pos / BLKSIZE < MAXFILEBLOCKS && pos % BLKSIZE + |piece| <= BLKSIZE
    requires GotBlock(s1, s2, f, pos / BLKSIZE) && 0 < Ptr(s2, f, pos / BLKSIZE) < s2.nblocks
    requires var blk, o := s2.blocks[Ptr(s2, f, pos / BLKSIZE)], pos % BLKSIZE;
             data == blk[..o] + piece + blk[o + |piece|..]
    requires BytesBut(s2, s3, f, pos / BLKSIZE)
    requires forall p :: 0 <= p && p / BLKSIZE == pos / BLKSIZE ==> ByteAt(s3, f, p) == Some(data[p % BLKSIZE])
    ensures KeptOutside(s1, s3, f, pos, pos + |piece|) && Holds(s3, f, pos, piece)
  {
    GotKeeps(s1, s2, f, pos / BLKSIZE);
    var bno, o, bn := pos / BLKSIZE, pos % BLKSIZE, |piece|;
    forall p | 0 <= p && !(pos <= p < pos + bn) && ByteAt(s1, f, p).Some? ensures ByteAt(s3, f, p) == ByteAt(s1, f, p) {
      assert ByteAt(s2, f, p) == ByteAt(s1, f, p);
      if p / BLKSIZE == bno {
        assert p % BLKSIZE < o || p % BLKSIZE >= o + bn;
      }
    }
    forall i | 0 <= i < bn ensures ByteAt(s3, f, pos + i) == Some(piece[i]) {
      assert (pos + i) / BLKSIZE == bno && (pos + i) % BLKSIZE == o + i;
    }
    forall g, p | 0 <= g < |s1.files| && 0 <= p && g != f ensures ByteAt(s3, g, p) == ByteAt(s1, g, p) {
      assert ByteAt(s3, g, p) == ByteAt(s2, g, p) == ByteAt(s1, g, p);
    }
  }

  /** One turn of the write loop. */
  lemma WriteOn(s0: Fs, s1: Fs, s2: Fs, f: nat, offset: nat, buf: seq<byte>, done: nat, bn: nat)
    requires Sized(s0) && Sized(s1) && Sized(s2) && f < |s0.files| && |s0.files| == |s1.files| == |s2.files|
    requires done + bn <= |buf| && Holds(s2, f, offset + done, buf[done..done + bn])
    requires KeptOutside(s0, s1, f, offset, offset + |buf|) && Holds(s1, f, offset, buf[..done])
    requires KeptOutside(s1, s2, f, offset + done, offset + done + bn)
    ensures KeptOutside(s0, s2, f, offset, offset + |buf|) && Holds(s2, f, offset, buf[..done + bn])
  {
    forall i | 0 <= i < done + bn ensures ByteAt(s2, f, offset + i) == Some(buf[i]) {
      if i < done {
        assert ByteAt(s1, f, offset + i) == Some(buf[..done][i]);
      } else {
        assert ByteAt(s2, f, offset + done + (i - done)) == Some(buf[done..done + bn][i - done]);
      }
    }
    forall p | 0 <= p && !(offset <= p < offset + |buf|) && ByteAt(s0, f, p).Some? ensures ByteAt(s2, f, p) == ByteAt(s0, f, p) {
      assert ByteAt(s1, f, p) == ByteAt(s0, f, p);
    }
  }

  lemma OutlineChain(s0: Fs, s1: Fs, s2: Fs, f: nat)
    requires SameOutline(s0, s1, f) && SameOutline(s1, s2, f)
    ensures SameOutline(s0, s2, f)
  {
  }

  /** A lookup keeps every allocated byte. */
  lemma GotKeeps(s: Fs, s': Fs, f: nat, bno: nat)
    requires Sized(s) && Sized(s') && f < |s.files| && bno < MAXFILEBLOCKS && GotBlock(s, s', f, bno)
    ensures KeptOutside(s, s', f, 0, 0)
  {
    forall p | 0 <= p && ByteAt(s, f, p).Some? ensures ByteAt(s', f, p) == ByteAt(s, f, p) {
    }
  }

  lemma IndirectInRange(s: Fs, f: nat)
    requires FsInv(s) && f < |s.files|
    ensures Sized(s)
    ensures s.files[f].indirect != 0 ==> s.files[f].indirect < s.nblocks
  {
    if s.files[f].indirect != 0 { IndirectOwned(s, f); }
  }

  /** After the walk: perhaps a new, empty indirect block and nothing else. */
  ghost predicate Walked(s0: Fs, s1: Fs, f: nat, bno: nat) {
    s1 == s0 || (bno >= NDIRECT && f < |s0.files| && s0.files[f].indirect == 0
                 && exists b :: 0 <= b < s0.nblocks && Sized(s0) && Free(s0, b) && s1 == GiveIndirect(s0, f, b))
  }

  lemma WalkedFacts(s0: Fs, s1: Fs, f: nat, bno: nat)
    requires FsInv(s0) && f < |s0.files| && bno < MAXFILEBLOCKS && Walked(s0, s1, f, bno)
    ensures FsInv(s1) && Sized(s0) && Sized(s1) && SameOutline(s0, s1, f) && Total(s1) == Total(s0)
    ensures forall g, c :: 0 <= g < |s0.files| && 0 <= c < MAXFILEBLOCKS ==> Ptr(s1, g, c) == Ptr(s0, g, c)
    ensures forall g, p :: 0 <= g < |s0.files| && 0 <= p ==> ByteAt(s1, g, p) == ByteAt(s0, g, p)
    ensures bno < NDIRECT || Ptr(s0, f, bno) != 0 ==> s1 == s0
  {
    if s1 != s0 {
      var b :| 0 <= b < s0.nblocks && Free(s0, b) && s1 == GiveIndirect(s0, f, b);
      GiveIndirectStep(s0, f, b);
      forall g, c | 0 <= g < |s0.files| && 0 <= c < MAXFILEBLOCKS ensures Ptr(s1, g, c) == Ptr(s0, g, c) {
        assert InRange(s0, SiteOf(g, c));
      }
      forall g, p | 0 <= g < |s0.files| && 0 <= p ensures ByteAt(s1, g, p) == ByteAt(s0, g, p) {
        if p / BLKSIZE < MAXFILEBLOCKS && Ptr(s0, g, p / BLKSIZE) != 0 {
          assert Named(s0, SiteOf(g, p / BLKSIZE));
        }
      }
    }
  }

  /** The walk takes a free block only for a missing indirect block. */
  lemma WalkedFree(s0: Fs, s1: Fs, f: nat, bno: nat)
    requires FsInv(s0) && Sized(s1) && f < |s0.files| && bno < MAXFILEBLOCKS && Walked(s0, s1, f, bno)
    requires bno >= NDIRECT && s0.files[f].indirect == 0 ==> s1 != s0
    ensures |FreeSet(s1.bitmap, s0.nblocks)| ==
            |FreeSet(s0.bitmap, s0.nblocks)| - if bno >= NDIRECT && s0.files[f].indirect == 0 then 1 else 0
  {
    if s1 != s0 {
      var b :| 0 <= b < s0.nblocks && Free(s0, b) && s1 == GiveIndirect(s0, f, b);
      FreeIsMember(s0);
      SetBitChangesOne(s0.bitmap, s0.nblocks, b, false);
    }
  }

  lemma GotOld(s0: Fs, s1: Fs, f: nat, bno: nat)
    requires FsInv(s0) && f < |s0.files| && bno < MAXFILEBLOCKS && s1 == s0 && Ptr(s0, f, bno) != 0
    ensures GotBlock(s0, s1, f, bno) && Ptr(s0, f, bno) < s0.nblocks
  {
    assert Named(s0, SiteOf(f, bno));
  }

  lemma GotNew(s0: Fs, s1: Fs, f: nat, bno: nat, b: nat)
    requires FsInv(s0) && f < |s0.files| && bno < MAXFILEBLOCKS && Walked(s0, s1, f, bno) && Sized(s1)
    requires Ptr(s1, f, bno) == 0 && Free(s1, b) && f < |s1.files| && (bno >= NDIRECT ==> 0 < s1.files[f].indirect < s1.nblocks)
    ensures var s2 := Give(s1, SiteOf(f, bno), b);
            FsInv(s2) && Sized(s2) && GotBlock(s0, s2, f, bno) && Ptr(s2, f, bno) == b && Total(s2) == Total(s0)
  {
    WalkedFacts(s0, s1, f, bno);
    var x := SiteOf(f, bno);
    GiveStep(s1, x, b);
    FreeNotOwned(s1, b);
    var s2 := Give(s1, x, b);
    BytesFromNames(s1, s2, x, b, f, bno);
    forall g, c | 0 <= g < |s0.files| && 0 <= c < MAXFILEBLOCKS && (g != f || c != bno) ensures Ptr(s2, g, c) == Ptr(s0, g, c) {
      assert InRange(s1, SiteOf(g, c)) && SiteOf(g, c) != x;
    }
  }
}
