/** Laws of runs of file operations (lab/fs/fs.c): what was written is what is read, and
    when blocks are conserved. */
module FileLaws {
  import opened Basics
  import opened DiskBlocks
  import opened FileMap
  import opened FileNeeds
  import opened FileSteps
  import opened FileServer

  // ---- sizes ----

  function Sizes(files: seq<File>): seq<int> {
    seq(|files|, f requires 0 <= f < |files| => files[f].size)
  }

  /** The sizes an operation leaves. */
  function SizesAfter(sizes: seq<int>, op: FileOp): seq<int> {
    if op.f >= |sizes| then sizes
    else
      match op
      case Write(f, buf, offset) => sizes[f := Max(sizes[f], offset + |buf|)]
      case Resize(f, size) => sizes[f := size]
      case _ => sizes
  }

  /** A lookup asks for a block that the file's size covers. */
  predicate Inside(sizes: seq<int>, op: FileOp) {
    op.Lookup? && op.f < |sizes| && op.bno < MAXFILEBLOCKS ==> op.bno < BlocksFor(sizes[op.f])
  }

  /** All lookups of a run are inside, given the sizes at its start. */
  predicate StaysInside(sizes: seq<int>, ops: seq<FileOp>)
    decreases |ops|
  {
    ops != [] ==> Inside(sizes, ops[0]) && StaysInside(SizesAfter(sizes, ops[0]), ops[1..])
  }

  lemma StepSizes(s: Fs, op: FileOp, s': Fs)
    requires Sized(s) && Sized(s') && SizesOk(s.files) && FsDid(s, op, s')
    ensures |s'.files| == |s.files| && Sizes(s'.files) == SizesAfter(Sizes(s.files), op)
  {
    hide Truncated, KeptOutside, Holds, Total, Fits, BytesBut, Conserves, TooFull, WillFit, FreeCount, Needs, Filled;
    if op.f < |s.files| && op.Resize? {
      ResizeOthers(s, s', op.f, op.size);
    }
  }

  lemma RunTail(ss: seq<Fs>, ops: seq<FileOp>)
    requires FsRun(ss, ops) && ops != []
    ensures FsRun(ss[1..], ops[1..])
  {
    hide FsInv, Sized, FsDid;
    forall i | 0 <= i < |ops[1..]| ensures FsDid(ss[1..][i], ops[1..][i], ss[1..][i + 1]) {
      assert FsDid(ss[i + 1], ops[i + 1], ss[i + 2]);
    }
  }

  // ---- conservation ----

  /** One operation that stays inside keeps every file within its size, and all blocks. */
  lemma StepFits(s: Fs, op: FileOp, s': Fs)
    requires FsInv(s) && FsInv(s') && Sized(s) && Sized(s') && SizesOk(s.files) && FsDid(s, op, s')
    requires AllFit(s) && Inside(Sizes(s.files), op)
    ensures AllFit(s') && Total(s') == Total(s)
  {
    hide FsInv, GotBlock, KeptOutside, Holds, Total, SameOutline, Fits, Truncated, NoStray, TooFull, FreeCount, Needs;
    var f := op.f;
    if f < |s.files| {
      match op {
        case Lookup(_, bno) => if bno < MAXFILEBLOCKS { LookupFits(s, s', f, bno); }
        case Read(_, _, _) => OutlineSizes(s, s', f); KeptFits(s, s', f, 0, 0);
        case Write(_, buf, offset) => KeptFits(s, s', f, offset, offset + |buf|);
        case Resize(_, size) => FitsNoStray(s, f); ResizeFits(s, s', f, size);
      }
    }
  }

  /** In every run whose lookups stay inside, which the sizes and the operations alone decide,
      no file ever has a block beyond its size and no block is lost. */
  lemma {:induction false} InsideConserves(ss: seq<Fs>, ops: seq<FileOp>)
    requires FsRun(ss, ops) && AllFit(ss[0]) && StaysInside(Sizes(ss[0].files), ops)
    ensures AllFit(ss[|ops|]) && Total(ss[|ops|]) == Total(ss[0])
    decreases |ops|
  {
    hide FsInv, Sized, FsDid, AllFit, Total;
    if ops == [] {
    } else {
      StepFits(ss[0], ops[0], ss[1]);
      StepSizes(ss[0], ops[0], ss[1]);
      RunTail(ss, ops);
      InsideConserves(ss[1..], ops[1..]);
    }
  }

  /** Resizing is the one operation that can lose blocks. */
  ghost predicate Keeps(s: Fs, op: FileOp)
    requires Sized(s)
  {
    op.Resize? && op.f < |s.files| ==> Conserves(s, op.f, op.size)
  }

  lemma StepTotal(s: Fs, op: FileOp, s': Fs)
    requires Sized(s) && Sized(s') && SizesOk(s.files) && FsDid(s, op, s')
    ensures Total(s') <= Total(s) && (Total(s') == Total(s) <==> Keeps(s, op))
  {
    hide GotBlock, KeptOutside, Holds, Total, SameOutline, Fits, Truncated, Conserves, TooFull, WillFit, FreeCount, Needs;
  }

  /** In every run: blocks are conserved if and only if no resize frees an indirect block
      that names blocks beyond its file's size. */
  lemma {:induction false} ConservedExactly(ss: seq<Fs>, ops: seq<FileOp>)
    requires FsRun(ss, ops)
    ensures Total(ss[|ops|]) <= Total(ss[0])
    ensures Total(ss[|ops|]) == Total(ss[0]) <==> forall i :: 0 <= i < |ops| ==> Keeps(ss[i], ops[i])
    decreases |ops|
  {
    hide FsInv, Sized, FsDid, Total, Keeps;
    if ops == [] {
    } else {
      StepTotal(ss[0], ops[0], ss[1]);
      RunTail(ss, ops);
      ConservedExactly(ss[1..], ops[1..]);
      forall i | 0 <= i < |ops[1..]| ensures Keeps(ss[1..][i], ops[1..][i]) == Keeps(ss[i + 1], ops[i + 1]) {
      }
      if forall i :: 0 <= i < |ops[1..]| ==> Keeps(ss[1..][i], ops[1..][i]) {
        forall i | 0 <= i < |ops| && Keeps(ss[0], ops[0]) ensures Keeps(ss[i], ops[i]) {
          if i > 0 { assert Keeps(ss[1..][i - 1], ops[1..][i - 1]); }
        }
      }
    }
  }

  // ---- contents ----

  /** The byte last written at position `p` of file `f`, unless a later resize cut off its
      block. */
  function LastWritten(ops: seq<FileOp>, f: nat, p: nat): Option<byte> {
    if ops == [] then None
    else
      var n := |ops| - 1;
      var before := LastWritten(ops[..n], f, p);
      match ops[n]
      case Write(g, buf, offset) =>
        if g == f && offset <= p < offset + |buf| then Some(buf[p - offset]) else before
      case Resize(g, size) => if g == f && p / BLKSIZE * BLKSIZE >= size then None else before
      case _ => before
  }

  /** Truncation cuts off the blocks that begin at or beyond the new size. */
  lemma BlockCut(p: nat, size: nat)
    requires p < MAXFILESIZE
    ensures p / BLKSIZE < MapBlocks(size) <==> p / BLKSIZE * BLKSIZE < size
  {
    assert p / BLKSIZE < MAXFILEBLOCKS;
  }

  /** An operation keeps an allocated byte unless it writes there or cuts its block off. */
  lemma StepByte(s: Fs, op: FileOp, s': Fs, f: nat, p: nat)
    requires FsInv(s) && FsInv(s') && Sized(s) && Sized(s') && SizesOk(s.files) && FsDid(s, op, s')
    requires f < |s.files| && p < MAXFILESIZE
    ensures f < |s'.files|
    ensures op.Write? && op.f == f && op.offset <= p < op.offset + |op.buf| ==> ByteAt(s', f, p) == Some(op.buf[p - op.offset])
    ensures !(op.Write? && op.f == f && op.offset <= p < op.offset + |op.buf|)
            && !(op.Resize? && op.f == f && p / BLKSIZE * BLKSIZE >= op.size) && ByteAt(s, f, p).Some? ==>
              ByteAt(s', f, p) == ByteAt(s, f, p)
  {
    hide FsInv, GotBlock, Total, Fits, Truncated, NoStray, ByteAt, TooFull, WillFit, FreeCount, Needs;
    StepSizes(s, op, s');
    var g := op.f;
    if g < |s.files| {
      match op {
        case Lookup(_, bno) => if bno < MAXFILEBLOCKS { GotKeeps(s, s', g, bno); }
        case Read(_, _, _) =>
        case Write(_, buf, offset) =>
          if g == f && offset <= p < offset + |buf| {
            var data := buf[..Reachable(offset, |buf|)];
            assert ByteAt(s', f, offset + (p - offset)) == Some(data[p - offset]);
          }
        case Resize(_, size) =>
          if g != f || p / BLKSIZE * BLKSIZE < size {
            BlockCut(p, size);
            ResizeBytes(s, s', g, size, f, p);
          }
      }
    }
  }

  /** In every run, over any files and in any order: where a byte was written and its block
      not cut off since, the file holds the byte last written. */
  lemma {:induction false} FilesHoldWhatWasWritten(ss: seq<Fs>, ops: seq<FileOp>, f: nat, p: nat, n: nat)
    requires FsRun(ss, ops) && n <= |ops| && f < |ss[0].files| && p < MAXFILESIZE
    ensures Sized(ss[n]) && |ss[n].files| == |ss[0].files|
    ensures LastWritten(ops[..n], f, p).Some? ==> ByteAt(ss[n], f, p) == LastWritten(ops[..n], f, p)
  {
    hide FsInv, Sized, FsDid, ByteAt;
    if n == 0 {
    } else {
      FilesHoldWhatWasWritten(ss, ops, f, p, n - 1);
      StepSizes(ss[n - 1], ops[n - 1], ss[n]);
      StepByte(ss[n - 1], ops[n - 1], ss[n], f, p);
      assert ops[..n][..n - 1] == ops[..n - 1];
    }
  }

  /** So a read after any run gives, for every position asked for that the file has, the byte
      last written there. `data` is what file_read returns when it leaves state `s'`. */
  lemma ReadAfterRun(ss: seq<Fs>, ops: seq<FileOp>, f: nat, s': Fs, lo: nat, count: nat, data: seq<byte>, p: nat)
    requires FsRun(ss, ops) && f < |ss[0].files| && Sized(s') && |s'.files| == |ss[0].files| == |ss[|ops|].files|
    requires var n := ReadLen(ss[|ops|].files[f].size, count, lo);
             OnlyRead(ss[|ops|], s', f, lo, n) && |data| == Reachable(lo, n) && Holds(s', f, lo, data)
    ensures lo <= p < lo + count && p < ss[|ops|].files[f].size && p < MAXFILESIZE <==> lo <= p < lo + |data|
    ensures lo <= p < lo + |data| && LastWritten(ops, f, p).Some? ==> Some(data[p - lo]) == LastWritten(ops, f, p)
  {
    hide FsInv, Sized, FsDid, ByteAt, LastWritten, FreeCount, Needs, ReadLen, Reachable;
    var n := ReadLen(ss[|ops|].files[f].size, count, lo);
    if lo <= p < lo + |data| {
      assert ops[..|ops|] == ops;
      FilesHoldWhatWasWritten(ss, ops, f, p, |ops|);
      assert ByteAt(s', f, lo + (p - lo)) == Some(data[p - lo]);
    }
  }

  // ---- what each operation leaves, said outright ----

  /** A write leaves a file that reaches to the end of what was written, and at least as far
      as it did. */
  lemma WriteSize(s: Fs, f: nat, buf: seq<byte>, offset: nat, s': Fs)
    requires Sized(s) && Sized(s') && SizesOk(s.files) && f < |s.files| && FsDid(s, Write(f, buf, offset), s')
    ensures |s'.files| == |s.files|
    ensures s'.files[f].size >= offset + |buf| && s'.files[f].size >= s.files[f].size
    ensures s'.files[f].size == offset + |buf| || s'.files[f].size == s.files[f].size
    ensures forall g :: 0 <= g < |s.files| && g != f ==> s'.files[g].size == s.files[g].size
  {
    hide KeptOutside, Holds, Total, Fits, TooFull, FreeCount, Needs;
  }

  lemma ResizeSize(s: Fs, f: nat, size: nat, s': Fs)
    requires Sized(s) && Sized(s') && SizesOk(s.files) && f < |s.files| && FsDid(s, Resize(f, size), s')
    ensures |s'.files| == |s.files| && s'.files[f].size == size
    ensures forall g :: 0 <= g < |s.files| && g != f ==> s'.files[g].size == s.files[g].size
  {
    hide Truncated, Total, Fits, TooFull, WillFit, Conserves;
    ResizeOthers(s, s', f, size);
  }

  /** A lookup leaves a block where it was asked for one. */
  lemma LookupGives(s: Fs, f: nat, bno: nat, s': Fs, p: nat)
    requires FsInv(s') && Sized(s) && Sized(s') && SizesOk(s.files) && f < |s.files| && FsDid(s, Lookup(f, bno), s')
    requires p / BLKSIZE == bno < MAXFILEBLOCKS
    ensures |s'.files| == |s.files| && ByteAt(s', f, p).Some?
  {
    assert Named(s', SiteOf(f, bno));
  }
}
