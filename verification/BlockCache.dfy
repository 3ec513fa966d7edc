/** The write-back block cache of the file server (lab/fs/bc.c) over a disk, and the
    operations that make its contents durable (lab/fs/fs.c). */
module BlockCache {
  import opened Basics
  import opened DiskBlocks

  datatype CacheOp =
    | Touch(b: nat)                            // any access that may fault the block in
    | Write(b: nat, data: Block)
    | Flush(b: nat)
    | Evict(b: nat)                            // unmap a clean page

  ghost function PlainStep(d: seq<Block>, op: CacheOp): (r: seq<Block>)
    ensures |r| == |d|
  {
    match op
    case Write(b, data) => if 0 < b < |d| then d[b := data] else d
    case _ => d
  }

  ghost function FlushStep(d: seq<Block>, seen: seq<Block>, op: CacheOp): (r: seq<Block>)
    requires |seen| == |d|
    ensures |r| == |d|
  {
    match op
    case Flush(b) => if b < |d| then d[b := seen[b]] else d
    case _ => d
  }

  /** The disk as it would be with no cache: only writes change it. */
  ghost function PlainDisk(disk: seq<Block>, ops: seq<CacheOp>): (r: seq<Block>)
    ensures |r| == |disk|
    decreases |ops|
  {
    if ops == [] then disk else PlainStep(PlainDisk(disk, ops[..|ops| - 1]), ops[|ops| - 1])
  }

  /** What survives a crash: the disk itself, which only flushes change, each to what the
      server saw (`seen` at the start) at that moment. */
  ghost function Durable(disk: seq<Block>, seen: seq<Block>, ops: seq<CacheOp>): (r: seq<Block>)
    requires |seen| == |disk|
    ensures |r| == |disk|
    decreases |ops|
  {
    if ops == [] then disk
    else
      var before := ops[..|ops| - 1];
      FlushStep(Durable(disk, seen, before), PlainDisk(seen, before), ops[|ops| - 1])
  }

  /** A block survives as its last flush found it. */
  lemma {:induction false} LastFlushSurvives(disk: seq<Block>, seen: seq<Block>, ops: seq<CacheOp>, i: nat, b: nat)
    requires |seen| == |disk| && i < |ops| && b < |disk| && ops[i] == Flush(b)
    requires forall j :: i < j < |ops| ==> ops[j] != Flush(b)
    ensures Durable(disk, seen, ops)[b] == PlainDisk(seen, ops[..i])[b]
    decreases |ops|
  {
    var n := |ops| - 1;
    if i == n {
    } else {
      LastFlushSurvives(disk, seen, ops[..n], i, b);
      assert ops[..n][..i] == ops[..i];
    }
  }

  /** A block never flushed survives as it was. */
  lemma {:induction false} UnflushedSurvives(disk: seq<Block>, seen: seq<Block>, ops: seq<CacheOp>, b: nat)
    requires |seen| == |disk| && b < |disk| && forall j :: 0 <= j < |ops| ==> ops[j] != Flush(b)
    ensures Durable(disk, seen, ops)[b] == disk[b]
    decreases |ops|
  {
    if ops == [] {
    } else {
      UnflushedSurvives(disk, seen, ops[..|ops| - 1], b);
    }
  }

  /** The server sees in a block what it last wrote there. */
  lemma {:induction false} LastWriteSeen(disk: seq<Block>, ops: seq<CacheOp>, i: nat, b: nat, data: Block)
    requires i < |ops| && 0 < b < |disk| && ops[i] == Write(b, data)
    requires forall j :: i < j < |ops| ==> !(ops[j].Write? && ops[j].b == b)
    ensures PlainDisk(disk, ops)[b] == data
    decreases |ops|
  {
    if i < |ops| - 1 {
      LastWriteSeen(disk, ops[..|ops| - 1], i, b, data);
    }
  }

  /** A write that was flushed before the next write to its block survives a crash, until the
      block is flushed again. */
  lemma FlushedWriteSurvives(disk: seq<Block>, seen: seq<Block>, ops: seq<CacheOp>, i: nat, j: nat, b: nat, data: Block)
    requires |seen| == |disk| && i < j < |ops| && 0 < b < |disk| && ops[i] == Write(b, data) && ops[j] == Flush(b)
    requires forall k :: i < k < j ==> !(ops[k].Write? && ops[k].b == b)
    requires forall k :: j < k < |ops| ==> ops[k] != Flush(b)
    ensures Durable(disk, seen, ops)[b] == data
  {
    LastFlushSurvives(disk, seen, ops, j, b);
    LastWriteSeen(seen, ops[..j], i, b, data);
  }

  // ---- the on-disk struct File ----

  const SIZEWORD: nat := 32                    // f_size after the 128 bytes of f_name
  const DIRECTWORD: nat := 34
  const INDIRECTWORD: nat := 44

  /** Where a struct File lies: a block and the word in it where the struct begins. */
  datatype FileLoc = FileLoc(block: nat, word: nat)

  predicate LocOk(loc: FileLoc, nblocks: nat) {
    0 < loc.block < nblocks && loc.word + INDIRECTWORD < NINDIRECT
  }

  function SizeOnDisk(d: seq<Block>, loc: FileLoc): nat
    requires LocOk(loc, |d|)
  {
    Word(d[loc.block], loc.word + SIZEWORD)
  }

  function IndirectOnDisk(d: seq<Block>, loc: FileLoc): nat
    requires LocOk(loc, |d|)
  {
    Word(d[loc.block], loc.word + INDIRECTWORD)
  }

  /** The block pointer of file block `i`, read from blocks `d`; 0 when there is none. */
  function PtrOnDisk(d: seq<Block>, loc: FileLoc, i: nat): nat
    requires LocOk(loc, |d|)
  {
    if i < NDIRECT then Word(d[loc.block], loc.word + DIRECTWORD + i)
    else if i < NDIRECT + NINDIRECT && 0 < IndirectOnDisk(d, loc) < |d| then Word(d[IndirectOnDisk(d, loc)], i - NDIRECT)
    else 0
  }

  /** The byte at position `p` of the file, found from its struct by way of the ten direct
      pointers and the indirect block; None where there is no block. */
  ghost function ByteOnDisk(d: seq<Block>, loc: FileLoc, p: nat): Option<byte>
    requires LocOk(loc, |d|)
  {
    var i, rec := p / 4096, d[loc.block];
    var ind := Word(rec, loc.word + 44);
    if i < 10 then
      var b := Word(rec, loc.word + 34 + i);
      if 0 < b < |d| then Some(d[b][p % 4096]) else None
    else if i < 10 + 1024 && 0 < ind < |d| then
      var b := Word(d[ind], i - 10);
      if 0 < b < |d| then Some(d[b][p % 4096]) else None
    else None
  }

  /** The bytes of a file are those of the blocks its pointers name. */
  lemma ByteByPointer(d: seq<Block>, loc: FileLoc, p: nat)
    requires LocOk(loc, |d|)
    ensures var b := PtrOnDisk(d, loc, p / BLKSIZE);
            ByteOnDisk(d, loc, p) == if 0 < b < |d| then Some(d[b][p % BLKSIZE]) else None
  {
    hide Word;
  }

  /** A pointer is null, or its block is on disk as the server sees it. */
  ghost predicate Flushed(disk: seq<Block>, v: seq<Block>, p: nat)
    requires |disk| == |v|
  {
    p < |v| && (p != 0 ==> disk[p] == v[p])
  }

  lemma FlushedBytes(disk: seq<Block>, v: seq<Block>, loc: FileLoc)
    requires |disk| == |v| && LocOk(loc, |v|)
    requires forall i :: 0 <= i < BlocksFor(SizeOnDisk(v, loc)) ==>
               PtrOnDisk(disk, loc, i) == PtrOnDisk(v, loc, i) && Flushed(disk, v, PtrOnDisk(v, loc, i))
    ensures forall p :: 0 <= p < SizeOnDisk(v, loc) ==> ByteOnDisk(disk, loc, p) == ByteOnDisk(v, loc, p)
  {
    hide Word, PtrOnDisk, ByteOnDisk;
    forall p | 0 <= p < SizeOnDisk(v, loc) ensures ByteOnDisk(disk, loc, p) == ByteOnDisk(v, loc, p) {
      InBlocks(p, SizeOnDisk(v, loc));
      ByteByPointer(disk, loc, p);
      ByteByPointer(v, loc, p);
    }
  }

  lemma InBlocks(p: nat, size: nat)
    requires p < size
    ensures 0 <= p / BLKSIZE < BlocksFor(size)
  {
  }

  /** Some pointer file_flush follows names no block of the disk. */
  ghost predicate BadPointers(d: seq<Block>, loc: FileLoc)
    requires LocOk(loc, |d|)
  {
    || IndirectOnDisk(d, loc) >= |d|
    || exists i :: 0 <= i < BlocksFor(SizeOnDisk(d, loc)) && PtrOnDisk(d, loc, i) >= |d|
  }

  class Cache {
    var disk: seq<Block>
    var page: map<int, Block>                  // mapped blocks
    var dirty: set<int>                        // mapped blocks with PTE_D set

    ghost predicate Valid()
      reads this
    {
      && dirty <= page.Keys
      && (forall b :: b in page ==> 0 <= b < |disk|)
      && (forall b :: b in page && b !in dirty ==> page[b] == disk[b])
    }

    /** The contents the file server sees. */
    ghost function Visible(): (v: seq<Block>)
      requires Valid()
      reads this
      ensures |v| == |disk| && forall b :: 0 <= b < |v| ==> v[b] == if b in page then page[b] else disk[b]
    {
      seq(|disk|, b requires 0 <= b < |disk| reads this => if b in page then page[b] else disk[b])
    }

    constructor (d: seq<Block>)
      ensures Valid() && Visible() == d && disk == d && page == map[]
    {
      disk, page, dirty := d, map[], {};
    }

    /** bc_pgfault: read an unmapped block in; the new page is clean. */
    method Fault(b: nat)
      requires Valid() && b < |disk| && b !in page
      modifies this`page
      ensures Valid() && Visible() == old(Visible()) && page == old(page)[b := disk[b]]
    {
      page := page[b := disk[b]];
    }

    method Load(b: nat) returns (data: Block)
      requires Valid() && b < |disk|
      modifies this`page
      ensures Valid() && Visible() == old(Visible()) && data == Visible()[b] && b in page
    {
      if b !in page {
        Fault(b);
      }
      data := page[b];
    }

    method Store(b: nat, data: Block)
      requires Valid() && b < |disk|
      modifies this`page, this`dirty
      ensures Valid() && Visible() == old(Visible())[b := data] && b in dirty
    {
      if b !in page {
        Fault(b);
      }
      page := page[b := data];
      dirty := dirty + {b};
    }

    /** flush_block: write a dirty block back and clear its dirty bit. */
    method FlushBlock(b: nat)
      requires Valid() && b < |disk|
      modifies this`disk, this`dirty
      ensures Valid() && Visible() == old(Visible())
      ensures |disk| == old(|disk|) && disk == old(disk)[b := Visible()[b]] && dirty == old(dirty) - {b}
    {
      if b !in page || b !in dirty {
        return;
      }
      disk := disk[b := page[b]];
      dirty := dirty - {b};
    }

    method EvictClean(b: nat)
      requires Valid() && b in page && b !in dirty
      modifies this`page
      ensures Valid() && Visible() == old(Visible()) && b !in page
    {
      page := page - {b};
    }

    /** fs_sync: afterwards the disk is what the server sees, from block 1 up. */
    method FsSync()
      requires Valid()
      modifies this`disk, this`dirty
      ensures Valid() && Visible() == old(Visible()) && |disk| == old(|disk|)
      ensures forall b :: 0 <= b < |disk| ==> disk[b] == if b == 0 then old(disk)[0] else Visible()[b]
    {
      var i := 1;
      while i < |disk|
        invariant 1 <= i && Valid() && Visible() == old(Visible()) && |disk| == old(|disk|)
        invariant forall b :: 0 <= b < i && b < |disk| ==> disk[b] == if b == 0 then old(disk)[0] else Visible()[b]
      {
        FlushBlock(i);
        i := i + 1;
      }
    }

    /** The pointer of file block `i`, as file_block_walk finds it; not known when the indirect
        block lies outside the disk, where diskaddr panics. */
    method PointerOf(loc: FileLoc, i: nat) returns (known: bool, p: nat)
      requires Valid() && LocOk(loc, |disk|)
      modifies this`page
      ensures Valid() && Visible() == old(Visible())
      ensures known <==> !(NDIRECT <= i < NDIRECT + NINDIRECT && IndirectOnDisk(Visible(), loc) >= |disk|)
      ensures known ==> p == PtrOnDisk(Visible(), loc, i)
    {
      hide Word;
      var rec := Load(loc.block);
      if i < NDIRECT {
        return true, Word(rec, loc.word + DIRECTWORD + i);
      }
      var ind := Word(rec, loc.word + INDIRECTWORD);
      if i >= NDIRECT + NINDIRECT || ind == 0 {
        return true, 0;
      }
      if ind >= |disk| {
        return false, 0;
      }
      var table := Load(ind);
      return true, Word(table, i - NDIRECT);
    }

    /** file_flush of the file whose struct lies at `loc`: afterwards its size, its block
        map and all its allocated blocks can be read from the disk alone. */
    method FileFlush(loc: FileLoc) returns (ok: bool)
      requires Valid() && LocOk(loc, |disk|)
      modifies this`disk, this`dirty, this`page
      ensures Valid() && Visible() == old(Visible()) && |disk| == old(|disk|)
      ensures !ok <==> BadPointers(Visible(), loc)      // diskaddr panics
      ensures ok ==> SizeOnDisk(disk, loc) == SizeOnDisk(Visible(), loc)
      ensures ok ==> IndirectOnDisk(disk, loc) == IndirectOnDisk(Visible(), loc)
      ensures ok ==> forall i :: 0 <= i < BlocksFor(SizeOnDisk(Visible(), loc)) ==>
                PtrOnDisk(disk, loc, i) == PtrOnDisk(Visible(), loc, i)
                && Flushed(disk, Visible(), PtrOnDisk(Visible(), loc, i))
      ensures ok ==> forall p :: 0 <= p < Word(Visible()[loc.block], loc.word + 32) ==>
                ByteOnDisk(disk, loc, p) == ByteOnDisk(Visible(), loc, p)
    {
      hide Word, ByteOnDisk, BlocksFor;
      ghost var v := Visible();
      var i := 0;
      var rec := Load(loc.block);
      while i < BlocksFor(Word(rec, loc.word + SIZEWORD))
        invariant 0 <= i && Valid() && Visible() == v && |disk| == |v| && rec == v[loc.block]
        invariant forall j :: 0 <= j < i ==> Flushed(disk, v, PtrOnDisk(v, loc, j))
        invariant i > NDIRECT ==> Word(rec, loc.word + INDIRECTWORD) < |v|
      {
        var known, p := PointerOf(loc, i);
        if !known || p >= |disk| {
          return false;
        }
        if p != 0 {
          FlushBlock(p);
        }
        i := i + 1;
      }
      FlushBlock(loc.block);
      var ind := Word(rec, loc.word + INDIRECTWORD);
      if ind >= |disk| {
        return false;
      }
      if ind != 0 {
        FlushBlock(ind);
      }
      ok := true;
      FlushedBytes(disk, v, loc);
    }

    /** One operation of a run. */
    method Perform(op: CacheOp)
      requires Valid()
      modifies this
      ensures Valid() && Visible() == PlainStep(old(Visible()), op)
      ensures disk == FlushStep(old(disk), old(Visible()), op)
    {
      match op {
        case Touch(b) => if b < |disk| { var _ := Load(b); }
        case Write(b, data) => if 0 < b < |disk| { Store(b, data); }
        case Flush(b) => if b < |disk| { FlushBlock(b); }
        case Evict(b) => if b in page && b !in dirty { EvictClean(b); }
      }
    }

    /** Any run of accesses, writes, flushes and clean evictions leaves the server seeing
        what a plain disk would hold, and the disk holding what was flushed. */
    method Run(ops: seq<CacheOp>)
      requires Valid()
      modifies this
      ensures Valid() && Visible() == PlainDisk(old(Visible()), ops)
      ensures disk == Durable(old(disk), old(Visible()), ops)
    {
      hide Valid, PlainStep, FlushStep;
      ghost var d, v := disk, Visible();
      var i := 0;
      assert ops[..0] == [];
      while i < |ops|
        invariant 0 <= i <= |ops| && Valid() && Visible() == PlainDisk(v, ops[..i]) && disk == Durable(d, v, ops[..i])
      {
        assert ops[..i + 1][..i] == ops[..i] && ops[..i + 1][i] == ops[i];
        Perform(ops[i]);
        i := i + 1;
      }
      assert ops[..|ops|] == ops;
    }
  }
}
