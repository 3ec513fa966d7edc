/** Disk blocks as byte arrays and as arrays of 32-bit little-endian words, and the free
    block bitmap (lab/fs/fs.c). */
module DiskBlocks {
  import opened Basics

  const BLKSIZE: nat := 4096
  const NDIRECT: nat := 10
  const NINDIRECT: nat := 1024
  const MAXBLOCKS: nat := 786432               // DISKSIZE / BLKSIZE

  type Block = b: seq<byte> | |b| == BLKSIZE witness Zeroes()

  function Zeroes(): (b: seq<byte>)
    ensures |b| == BLKSIZE && forall i :: 0 <= i < BLKSIZE ==> b[i] == 0
  {
    seq(BLKSIZE, _ => 0)
  }

  /** Word `k` of a block, as an indirect block holds pointers. */
  function Word(b: Block, k: nat): nat
    requires k < NINDIRECT
  {
    (b[4 * k] as int) + 0x100 * (b[4 * k + 1] as int) + 0x1_0000 * (b[4 * k + 2] as int) + 0x100_0000 * (b[4 * k + 3] as int)
  }

  function PutWord(b: Block, k: nat, w: nat): Block
    requires k < NINDIRECT && w < 0x1_0000_0000
  {
    b[4 * k := w % 0x100][4 * k + 1 := w / 0x100 % 0x100][4 * k + 2 := w / 0x1_0000 % 0x100][4 * k + 3 := w / 0x100_0000]
  }

  /** Storing a word and loading it again gives it back, and no other word changes. */
  lemma WordRoundTrip(b: Block, k: nat, w: nat, j: nat)
    requires k < NINDIRECT && j < NINDIRECT && w < 0x1_0000_0000
    ensures Word(PutWord(b, k, w), j) == if j == k then w else Word(b, j)
  {
    var c := PutWord(b, k, w);
    if j == k {
      Bytes(w);
      assert c[4 * k] == w % 0x100 && c[4 * k + 1] == w / 0x100 % 0x100;
      assert c[4 * k + 2] == w / 0x1_0000 % 0x100 && c[4 * k + 3] == w / 0x100_0000;
    }
  }

  lemma Bytes(w: nat)
    requires w < 0x1_0000_0000
    ensures w == w % 0x100 + 0x100 * (w / 0x100 % 0x100) + 0x1_0000 * (w / 0x1_0000 % 0x100) + 0x100_0000 * (w / 0x100_0000)
  {
    var a := w / 0x100;
    var c := a / 0x100;
    assert w / 0x1_0000 == c && w / 0x100_0000 == c / 0x100;
  }

  lemma WordOfZeroes(j: nat)
    requires j < NINDIRECT
    ensures Word(Zeroes(), j) == 0
  {
  }

  /** How many blocks `size` bytes take. */
  function BlocksFor(size: int): int {
    (size + BLKSIZE - 1) / BLKSIZE
  }

  /** The least number of blocks that hold `size` bytes. */
  lemma BlocksForIs(size: nat)
    ensures BlocksFor(size) >= 0 && size <= BlocksFor(size) * BLKSIZE && BlocksFor(size) * BLKSIZE < size + BLKSIZE
  {
  }

  // ---- the bitmap: bit 1 means free ----

  type Bitmap = seq<seq<bool>>                 // words of 32 bits

  ghost predicate Covers(m: Bitmap, nblocks: nat) {
    nblocks <= 32 * |m| && forall i :: 0 <= i < |m| ==> |m[i]| == 32
  }

  predicate Bit(m: Bitmap, b: nat)
    requires b / 32 < |m| && |m[b / 32]| == 32
  {
    m[b / 32][b % 32]
  }

  function SetBit(m: Bitmap, b: nat, v: bool): Bitmap
    requires b / 32 < |m| && |m[b / 32]| == 32
  {
    m[b / 32 := m[b / 32][b % 32 := v]]
  }

  ghost function FreeSet(m: Bitmap, nblocks: nat): set<int>
    requires Covers(m, nblocks)
  {
    set b | 0 <= b < nblocks && Bit(m, b)
  }

  /** Setting one bit changes the state of one block. */
  lemma SetBitChangesOne(m: Bitmap, nblocks: nat, b: nat, v: bool)
    requires Covers(m, nblocks) && b < nblocks
    ensures Covers(SetBit(m, b, v), nblocks)
    ensures FreeSet(SetBit(m, b, v), nblocks) == if v then FreeSet(m, nblocks) + {b} else FreeSet(m, nblocks) - {b}
  {
    var m' := SetBit(m, b, v);
    forall c | 0 <= c < nblocks ensures Bit(m', c) == if c == b then v else Bit(m, c) {
      if c != b {
        assert c / 32 != b / 32 || c % 32 != b % 32;
      }
    }
  }
}
