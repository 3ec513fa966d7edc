/** Giving a block to a file, taking it back, and writing its bytes: what each does to
    the pointers, to the number of blocks and to the bytes of every file. */
module FileSteps {
  import opened Basics
  import opened DiskBlocks
  import opened FileMap

  /** `s'` names the same blocks as `s` everywhere but at `x`, where it names `b`. */
  ghost predicate NamesBut(s: Fs, s': Fs, x: Site, b: nat)
    requires Sized(s) && Sized(s')
  {
    && |s'.files| == |s.files| && s'.nblocks == s.nblocks && s'.reserved == s.reserved
    && forall y :: InRange(s, y) ==> NameAt(s', y) == if y == x then b else NameAt(s, y)
  }

  /** The contents of blocks that hold file data are unchanged. */
  ghost predicate DataKept(s: Fs, s': Fs)
    requires Sized(s) && Sized(s')
  {
    s'.nblocks == s.nblocks
    && forall b :: b in s.owner && !s.owner[b].Indirect? && 0 <= b < s.nblocks ==> s'.blocks[b] == s.blocks[b]
  }

  /** Every file keeps its allocated bytes, but for positions of file block `bno` of `f`. */
  ghost predicate BytesBut(s: Fs, s': Fs, f: nat, bno: nat)
    requires Sized(s) && Sized(s')
  {
    && |s'.files| == |s.files|
    && forall g, p :: 0 <= g < |s.files| && 0 <= p && (g != f || p / BLKSIZE != bno) ==> ByteAt(s', g, p) == ByteAt(s, g, p)
  }

  lemma BytesFromNames(s: Fs, s': Fs, x: Site, b: nat, f: nat, bno: nat)
    requires FsInv(s) && Sized(s') && NamesBut(s, s', x, b) && DataKept(s, s')
    requires x.Indirect? || x == SiteOf(f, bno)
    ensures BytesBut(s, s', f, bno)
  {
    forall g, p | 0 <= g < |s.files| && 0 <= p && (g != f || p / BLKSIZE != bno) ensures ByteAt(s', g, p) == ByteAt(s, g, p) {
      if p / BLKSIZE < MAXFILEBLOCKS {
        var y := SiteOf(g, p / BLKSIZE);
        assert InRange(s, y) && y != x;
        assert NameAt(s', y) == NameAt(s, y);
        if NameAt(s, y) != 0 { assert Named(s, y); }
      }
    }
  }

  // ---- giving a block ----

  ghost function Give(s: Fs, x: Site, b: nat): Fs
    requires Sized(s) && InRange(s, x) && b < s.nblocks
    requires x.Slot? ==> 0 < s.files[x.f].indirect < s.nblocks
  {
    SetName(s, x, b).(bitmap := SetBit(s.bitmap, b, false), owner := s.owner[b := x])
  }

  lemma GiveStep(s: Fs, x: Site, b: nat)
    requires FsInv(s) && InRange(s, x) && !x.Indirect? && Free(s, b) && NameAt(s, x) == 0
    requires x.Slot? ==> 0 < s.files[x.f].indirect < s.nblocks
    ensures var s' := Give(s, x, b);
            FsInv(s') && Total(s') == Total(s) && NamesBut(s, s', x, b) && DataKept(s, s')
            && (forall c :: 0 <= c < s.nblocks && (x.Slot? ==> c != s.files[x.f].indirect) ==> s'.blocks[c] == s.blocks[c])
  {
    hide Owned, ReservedOk, Word, PutWord, Bit, SetBit;
    FreeNotOwned(s, b);
    var s' := Give(s, x, b);
    SetNameChangesOne(s, x, b);
    SetBitChangesOne(s.bitmap, s.nblocks, b, false);
    assert NamesBut(s, s', x, b) by { SameWords(SetName(s, x, b), s'); }
    GiveOwned(s, s', x, b);
    if x.Slot? { IndirectOwned(s, x.f); }
    assert s'.owner.Keys == s.owner.Keys + {b};
  }

  lemma FreeNotOwned(s: Fs, b: nat)
    requires FsInv(s) && Free(s, b)
    ensures 0 < b < s.nblocks && b !in s.owner && b in FreeSet(s.bitmap, s.nblocks)
  {
  }

  lemma IndirectOwned(s: Fs, f: nat)
    requires FsInv(s) && f < |s.files| && s.files[f].indirect != 0
    ensures s.files[f].indirect in s.owner && s.owner[s.files[f].indirect] == Indirect(f) && s.files[f].indirect < s.nblocks
  {
    assert Named(s, Indirect(f));
  }

  lemma SameWords(s: Fs, s': Fs)
    requires Sized(s) && Sized(s') && s'.files == s.files && s'.blocks == s.blocks && s'.nblocks == s.nblocks
    ensures forall y :: InRange(s, y) ==> InRange(s', y) && NameAt(s', y) == NameAt(s, y)
  {
  }

  lemma GiveOwned(s: Fs, s': Fs, x: Site, b: nat)
    requires FsInv(s) && Sized(s') && NamesBut(s, s', x, b) && InRange(s, x) && 0 < b < s.nblocks && Free(s, b)
             && NameAt(s, x) == 0
    requires b !in s.owner && s'.owner == s.owner[b := x]
    requires FreeSet(s'.bitmap, s.nblocks) == FreeSet(s.bitmap, s.nblocks) - {b}
    ensures Owned(s') && ReservedOk(s')
  {
    FreeIsMember(s);
    FreeIsMember(s');
    forall y | Named(s', y) ensures NameAt(s', y) in s'.owner && s'.owner[NameAt(s', y)] == y {
      assert InRange(s, y);
      assert y != x ==> Named(s, y);
    }
    forall c | c in s'.owner
      ensures 0 < c < s.nblocks && !Free(s', c) && c !in s.reserved && Named(s', s'.owner[c]) && NameAt(s', s'.owner[c]) == c
    {
      if c != b { assert Named(s, s.owner[c]); }
    }
  }

  lemma FreeIsMember(s: Fs)
    requires Sized(s)
    ensures forall b :: Free(s, b) <==> b in FreeSet(s.bitmap, s.nblocks)
  {
  }

  /** A fresh, cleared indirect block. */
  ghost function GiveIndirect(s: Fs, f: nat, b: nat): Fs
    requires Sized(s) && f < |s.files| && b < s.nblocks
  {
    Give(s, Indirect(f), b).(blocks := s.blocks[b := Zeroes()])
  }

  lemma GiveIndirectStep(s: Fs, f: nat, b: nat)
    requires FsInv(s) && f < |s.files| && Free(s, b) && s.files[f].indirect == 0
    ensures var s' := GiveIndirect(s, f, b);
            FsInv(s') && Total(s') == Total(s) && NamesBut(s, s', Indirect(f), b) && DataKept(s, s')
            && forall c :: 0 <= c < s.nblocks && c != b ==> s'.blocks[c] == s.blocks[c]
  {
    hide Owned, ReservedOk, Word, PutWord, Bit, SetBit;
    FreeNotOwned(s, b);
    var s' := GiveIndirect(s, f, b);
    SetBitChangesOne(s.bitmap, s.nblocks, b, false);
    forall y | InRange(s, y) ensures NameAt(s', y) == if y == Indirect(f) then b else NameAt(s, y) {
      IndirectNames(s, s', f, b, y);
    }
    GiveOwned(s, s', Indirect(f), b);
    assert s'.owner.Keys == s.owner.Keys + {b};
  }

  lemma IndirectNames(s: Fs, s': Fs, f: nat, b: nat, y: Site)
    requires FsInv(s) && f < |s.files| && 0 < b < s.nblocks && b !in s.owner && s.files[f].indirect == 0
    requires s' == GiveIndirect(s, f, b) && Sized(s') && InRange(s, y)
    ensures NameAt(s', y) == if y == Indirect(f) then b else NameAt(s, y)
  {
    match y {
      case Direct(g, i) =>
      case Indirect(g) =>
      case Slot(g, k) =>
        if g == f {
          WordOfZeroes(k);
        } else if s.files[g].indirect != 0 {
          assert Named(s, Indirect(g));
        }
    }
  }

  // ---- taking a block back ----

  ghost function Release(s: Fs, x: Site): Fs
    requires Sized(s) && InRange(s, x) && NameAt(s, x) < s.nblocks
    requires x.Slot? ==> 0 < s.files[x.f].indirect < s.nblocks
  {
    var b := NameAt(s, x);
    SetName(s, x, 0).(bitmap := SetBit(s.bitmap, b, true), owner := s.owner - {b})
  }

  lemma ReleaseStep(s: Fs, x: Site)
    requires FsInv(s) && Named(s, x) && !x.Indirect?
    ensures NameAt(s, x) < s.nblocks && (x.Slot? ==> 0 < s.files[x.f].indirect < s.nblocks)
    ensures var s' := Release(s, x);
            FsInv(s') && Total(s') == Total(s) && NamesBut(s, s', x, 0) && DataKept(s, s')
            && FreeSet(s'.bitmap, s.nblocks) == FreeSet(s.bitmap, s.nblocks) + {NameAt(s, x)}
  {
    var b := NameAt(s, x);
    assert b in s.owner;
    if x.Slot? { assert Named(s, Indirect(x.f)); }
    var s' := Release(s, x);
    SetNameChangesOne(s, x, 0);
    SetBitChangesOne(s.bitmap, s.nblocks, b, true);
    assert NamesBut(s, s', x, 0) by { SameWords(SetName(s, x, 0), s'); }
    ReleaseOwned(s, s', x, b);
    assert s.owner.Keys == s'.owner.Keys + {b};
  }

  lemma ReleaseOwned(s: Fs, s': Fs, x: Site, b: nat)
    requires FsInv(s) && Sized(s') && NamesBut(s, s', x, 0) && Named(s, x) && b == NameAt(s, x)
    requires s'.owner == s.owner - {b} && FreeSet(s'.bitmap, s.nblocks) == FreeSet(s.bitmap, s.nblocks) + {b}
    ensures Owned(s') && ReservedOk(s')
  {
    FreeIsMember(s);
    FreeIsMember(s');
    forall y | Named(s', y) ensures NameAt(s', y) in s'.owner && s'.owner[NameAt(s', y)] == y {
      assert InRange(s, y) && y != x && Named(s, y);
    }
    forall c | c in s'.owner
      ensures 0 < c < s.nblocks && !Free(s', c) && c !in s.reserved && Named(s', s'.owner[c]) && NameAt(s', s'.owner[c]) == c
    {
      assert Named(s, s.owner[c]) && s.owner[c] != x;
    }
  }

  /** Blocks that only the indirect block of `f` names. */
  ghost function SlotBlocks(s: Fs, f: nat): set<int> {
    set b | b in s.owner && s.owner[b].Slot? && s.owner[b].f == f
  }

  ghost function DropIndirect(s: Fs, f: nat): Fs
    requires Sized(s) && f < |s.files| && s.files[f].indirect < s.nblocks
  {
    var b := s.files[f].indirect;
    SetName(s, Indirect(f), 0).(bitmap := SetBit(s.bitmap, b, true), owner := s.owner - {b} - SlotBlocks(s, f))
  }

  /** Freeing the indirect block keeps the pointer invariant in any case; it keeps the
      number of free and referenced blocks exactly when the block holds no pointer. */
  lemma DropIndirectExact(s: Fs, f: nat)
    requires FsInv(s) && f < |s.files| && s.files[f].indirect != 0
    ensures s.files[f].indirect < s.nblocks
    ensures var s' := DropIndirect(s, f);
            FsInv(s') && Total(s') == Total(s) - |SlotBlocks(s, f)| && DataKept(s, s')
            && (Total(s') == Total(s) <==> forall k :: 0 <= k < NINDIRECT ==> NameAt(s, Slot(f, k)) == 0)
            && FreeSet(s'.bitmap, s.nblocks) == FreeSet(s.bitmap, s.nblocks) + {s.files[f].indirect}
  {
    var b := s.files[f].indirect;
    assert Named(s, Indirect(f)) && b in s.owner;
    var s' := DropIndirect(s, f);
    SetBitChangesOne(s.bitmap, s.nblocks, b, true);
    DropOwned(s, s', f);
    assert s.owner.Keys == s'.owner.Keys + {b} + SlotBlocks(s, f);
    assert s'.owner.Keys !! {b} && (s'.owner.Keys + {b}) !! SlotBlocks(s, f);
    if forall k :: 0 <= k < NINDIRECT ==> NameAt(s, Slot(f, k)) == 0 {
      forall c ensures c !in SlotBlocks(s, f) { assert c in s.owner ==> Named(s, s.owner[c]); }
      assert SlotBlocks(s, f) == {};
    } else {
      var k :| 0 <= k < NINDIRECT && NameAt(s, Slot(f, k)) != 0;
      assert Named(s, Slot(f, k));
      assert NameAt(s, Slot(f, k)) in SlotBlocks(s, f);
    }
  }

  lemma DropOwned(s: Fs, s': Fs, f: nat)
    requires FsInv(s) && f < |s.files| && 0 < s.files[f].indirect < s.nblocks && s' == DropIndirect(s, f)
    requires Sized(s') && FreeSet(s'.bitmap, s.nblocks) == FreeSet(s.bitmap, s.nblocks) + {s.files[f].indirect}
    ensures Owned(s') && ReservedOk(s')
  {
    FreeIsMember(s);
    FreeIsMember(s');
    assert Named(s, Indirect(f));
    forall y | InRange(s, y)
      ensures NameAt(s', y) == if y == Indirect(f) || (y.Slot? && y.f == f) then 0 else NameAt(s, y)
    {
    }
    forall y | Named(s', y) ensures NameAt(s', y) in s'.owner && s'.owner[NameAt(s', y)] == y {
      assert InRange(s, y) && Named(s, y);
    }
    forall c | c in s'.owner
      ensures 0 < c < s.nblocks && !Free(s', c) && c !in s.reserved && Named(s', s'.owner[c]) && NameAt(s', s'.owner[c]) == c
    {
      assert Named(s, s.owner[c]);
    }
  }

  // ---- writing data ----

  ghost function WriteBlock(s: Fs, b: nat, data: Block): Fs
    requires b < |s.blocks|
  {
    s.(blocks := s.blocks[b := data])
  }

  /** Writing a data block changes the bytes of one block of one file and no pointer. */
  lemma WriteBlockStep(s: Fs, f: nat, bno: nat, data: Block)
    requires FsInv(s) && f < |s.files| && bno < MAXFILEBLOCKS && Ptr(s, f, bno) != 0
    ensures Ptr(s, f, bno) < s.nblocks
    ensures var s' := WriteBlock(s, Ptr(s, f, bno), data);
            FsInv(s') && Total(s') == Total(s) && BytesBut(s, s', f, bno)
            && (forall y :: InRange(s, y) ==> InRange(s', y) && NameAt(s', y) == NameAt(s, y))
            && forall p :: 0 <= p && p / BLKSIZE == bno ==> ByteAt(s', f, p) == Some(data[p % BLKSIZE])
  {
    var b := Ptr(s, f, bno);
    assert Named(s, SiteOf(f, bno)) && b in s.owner;
    var s' := WriteBlock(s, b, data);
    forall y | InRange(s, y) ensures NameAt(s', y) == NameAt(s, y) {
      if y.Slot? && s.files[y.f].indirect != 0 { PointersDistinct(s, SiteOf(f, bno), Indirect(y.f)); }
    }
    SameNamesOwned(s, s');
    forall g, p | 0 <= g < |s.files| && 0 <= p && (g != f || p / BLKSIZE != bno) ensures ByteAt(s', g, p) == ByteAt(s, g, p) {
      if p / BLKSIZE < MAXFILEBLOCKS {
        var y := SiteOf(g, p / BLKSIZE);
        assert InRange(s, y) && y != SiteOf(f, bno);
        if NameAt(s, y) != 0 { PointersDistinct(s, SiteOf(f, bno), y); }
      }
    }
  }

  lemma SameNamesOwned(s: Fs, s': Fs)
    requires FsInv(s) && Sized(s') && s'.files == s.files && s'.bitmap == s.bitmap && s'.owner == s.owner
    requires s'.reserved == s.reserved && s'.nblocks == s.nblocks
    requires forall y :: InRange(s, y) ==> NameAt(s', y) == NameAt(s, y)
    ensures FsInv(s')
  {
    forall y ensures Named(s', y) == Named(s, y) {
      assert InRange(s', y) == InRange(s, y);
    }
  }
}
