/** Block allocation, block maps and file reads and writes of kernel/fs.c, and the chunked
    filewrite of kernel/file.c, run in place on the logged block contents. */
module FileSys {
  import opened Blocks
  import opened Common
  import opened Counting
  import opened FsModel
  import opened FsWrite

  /** The bit of block b + bi, seen as bit bi of the bitmap block of b. */
  lemma BitAt(sb: Super, mem: Disk, b: nat, bi: nat)
    requires b % BPB == 0 && bi < BPB
    ensures Bit(sb, mem, b + bi) == BitOf(At(mem, BBlock(sb, b))[bi / 8], bi % 8)
  {
    assert (b + bi) / BPB == b / BPB && (b + bi) % BPB == bi;
  }

  /** The step from f to g gave slot addrs[k] of inode i a block, if it had none. */
  ghost predicate PointerMapped(sb: Super, f: Fs, g: Fs, i: nat, k: nat)
    requires Shape(f) && i < |f.inodes| && k <= NDIRECT
  {
    && Inv(sb, g, {}) && Grows(f, g)
    && g.inodes[i].addrs[k] != 0
    && (forall s: Slot | IsSlot(f, s) && s != Slot(i, k) :: Addr(g, s) == Addr(f, s))
    && (if f.inodes[i].addrs[k] != 0 then g == f
        else At(g.mem, g.inodes[i].addrs[k]) == ZERO_BLOCK
             && g.inodes == f.inodes[i := f.inodes[i].(addrs := f.inodes[i].addrs[k := g.inodes[i].addrs[k]])])
  }

  ghost function PointerSet(sb: Super, f: Fs, g: Fs, i: nat, k: nat): (r: set<nat>)
    requires Shape(f) && Shape(g) && i < |f.inodes| == |g.inodes| && k <= NDIRECT
  {
    var a := g.inodes[i].addrs[k];
    if f.inodes[i].addrs[k] != 0 then {} else {a, BBlock(sb, a)}
  }

  /** The step from f to g gave entry j of the indirect block of inode i a block, if it had none. */
  ghost predicate EntryMapped(sb: Super, f: Fs, g: Fs, i: nat, j: nat)
    requires Shape(f) && i < |f.inodes| && j < NINDIRECT
  {
    var s0 := Slot(i, NDIRECT + 1 + j);
    && Inv(sb, g, {}) && Grows(f, g)
    && Addr(g, s0) != 0 && g.inodes == f.inodes
    && (forall s: Slot | IsSlot(f, s) && s != s0 :: Addr(g, s) == Addr(f, s))
    && (if Addr(f, s0) != 0 then g == f else At(g.mem, Addr(g, s0)) == ZERO_BLOCK)
  }

  ghost function EntrySet(sb: Super, f: Fs, g: Fs, i: nat, j: nat): (r: set<nat>)
    requires Shape(f) && Shape(g) && i < |f.inodes| == |g.inodes| && j < NINDIRECT
  {
    var a := Addr(g, Slot(i, NDIRECT + 1 + j));
    if Addr(f, Slot(i, NDIRECT + 1 + j)) != 0 then {} else {a, BBlock(sb, a), g.inodes[i].addrs[NDIRECT]}
  }

  lemma DirectMapped(sb: Super, f: Fs, g: Fs, i: nat, bn: nat)
    requires Shape(f) && i < |f.inodes| && bn < NDIRECT && PointerMapped(sb, f, g, i, bn)
    ensures BlockMapped(sb, f, g, i, bn) && Addr(g, SlotOf(i, bn)) == g.inodes[i].addrs[bn]
    ensures PointerSet(sb, f, g, i, bn) == BlockSet(sb, f, g, i, bn)
  {
    hide Bit, Word, OwnersOk, BitsOk, Grows, At, BBlock;
  }

  lemma IndirectMapped(sb: Super, f: Fs, h: Fs, g: Fs, i: nat, bn: nat)
    requires Shape(f) && i < |f.inodes| && NDIRECT <= bn < MAXFILE
    requires PointerMapped(sb, f, h, i, NDIRECT) && EntryMapped(sb, h, g, i, bn - NDIRECT)
    ensures BlockMapped(sb, f, g, i, bn)
    ensures PointerSet(sb, f, h, i, NDIRECT) + EntrySet(sb, h, g, i, bn - NDIRECT) == BlockSet(sb, f, g, i, bn)
  {
    hide Bit, Word, OwnersOk, BitsOk, Grows, At;
    GrowsTransitive(f, h, g);
    GrowsSizes(f, h);
    var s0 := SlotOf(i, bn);
    assert IsSlot(f, s0) && s0 != Slot(i, NDIRECT) && Addr(h, s0) == Addr(f, s0);
    forall s: Slot | IsSlot(f, s) && s != s0 && s != Slot(i, NDIRECT) ensures Addr(g, s) == Addr(f, s) {
      assert Addr(g, s) == Addr(h, s);
    }
  }

  lemma GrowsSizes(f: Fs, g: Fs)
    requires Shape(f) && Shape(g) && Grows(f, g)
    ensures |f.inodes| == |g.inodes|
  {
  }

  lemma GrowsReflexive(f: Fs)
    requires Shape(f)
    ensures Grows(f, f)
  {
  }

  lemma EntryAddr(f: Fs, i: nat, j: nat)
    requires Shape(f) && i < |f.inodes| && j < NINDIRECT && f.inodes[i].addrs[NDIRECT] != 0
    ensures Addr(f, Slot(i, NDIRECT + 1 + j)) == Word(At(f.mem, f.inodes[i].addrs[NDIRECT]), j)
  {
  }

  /** A panic of bmap: nothing was allocated, or only the indirect block. */
  ghost predicate HalfMapped(sb: Super, f: Fs, g: Fs, i: nat, l0: set<nat>, l1: set<nat>)
    requires Shape(f) && i < |f.inodes|
  {
    || (g == f && l1 == l0)
    || (PointerMapped(sb, f, g, i, NDIRECT) && |g.inodes| == |f.inodes| && l1 == l0 + PointerSet(sb, f, g, i, NDIRECT))
  }

  lemma AllocLogs(sb: Super, f: Fs, l: set<nat>, b: nat)
    requires Inv(sb, f, {}) && b < sb.size && !Bit(sb, f.mem, b)
    ensures Logs(sb.bmapstart, sb.size, f.mem, PutBit(sb, f.mem, b, true)[b := ZERO_BLOCK], l, l + {BBlock(sb, b), b})
  {
    hide Bit, BitBlock, BBlock, OwnersOk;
    BBlockIsMeta(sb, b);
  }

  lemma FreeLogs(sb: Super, m: Disk, l: set<nat>, b: nat)
    requires ValidSuper(sb) && b < sb.size
    ensures Logs(sb.bmapstart, sb.size, m, PutBit(sb, m, b, false), l, l + {BBlock(sb, b)})
  {
    hide BitBlock, BBlock;
    BBlockIsMeta(sb, b);
  }

  lemma EntryLogs(sb: Super, f: Fs, i: nat, m0: Disk, m1: Disk, l0: set<nat>, l1: set<nat>, blk: Block)
    requires Inv(sb, f, {}) && i < |f.inodes| && f.inodes[i].addrs[NDIRECT] != 0
    requires Logs(sb.bmapstart, sb.size, m0, m1, l0, l1)
    ensures var ind := f.inodes[i].addrs[NDIRECT];
            Logs(sb.bmapstart, sb.size, m0, m1[ind := blk], l0, l1 + {ind})
  {
    hide Bit, Addr, Logs, OwnersOk, BitsOk;
    var ind := f.inodes[i].addrs[NDIRECT];
    IndirectIsData(sb, f, i);
    LogsBlock(sb.bmapstart, sb.size, m1, l1, ind, blk);
    LogsBoth(sb.bmapstart, sb.size, m0, m1, m1[ind := blk], l0, l1, l1 + {ind});
  }

  /** The iupdate at the end adds one inode block. */
  lemma UpdateLogs(sb: Super, m0: Disk, m1: Disk, m2: Disk, l: set<nat>, l1: set<nat>, b: nat)
    requires Logs(sb.bmapstart, sb.size, m0, m1, l, l1) && sb.inodestart <= b < sb.bmapstart < sb.size
    requires forall c: nat | c != b :: At(m2, c) == At(m1, c)
    ensures Logs(sb.inodestart, sb.size, m0, m2, l, l1 + {b})
  {
    hide At;
  }

  lemma PointerOwned(sb: Super, f: Fs, i: nat, k: nat)
    requires Shape(f) && OwnersOk(sb, f) && i < |f.inodes| && k <= NDIRECT && f.inodes[i].addrs[k] != 0
    ensures f.inodes[i].addrs[k] in f.owner && f.inodes[i].addrs[k] < sb.size
  {
    PointerAddr(f, i, k);
  }

  // ------------------------------------------------------------------ what itrunc logs

  /** The bitmap blocks with the bits of the given blocks. */
  ghost function BitBlocks(sb: Super, blocks: set<nat>): (r: set<nat>) {
    set b | b in blocks :: BBlock(sb, b)
  }

  lemma NoBitBlocks(sb: Super, k: set<nat>)
    ensures BitBlocks(sb, k - k) == {}
  {
  }

  lemma MoreBitBlocks(sb: Super, k0: set<nat>, k: set<nat>, a: nat)
    requires k <= k0 && a in k
    ensures BitBlocks(sb, k0 - (k - {a})) == BitBlocks(sb, k0 - k) + {BBlock(sb, a)}
  {
    hide BBlock;
  }

  lemma BothBitBlocks(sb: Super, k0: set<nat>, k1: set<nat>, k2: set<nat>)
    requires k2 <= k1 <= k0
    ensures BitBlocks(sb, k0 - k2) == BitBlocks(sb, k0 - k1) + BitBlocks(sb, k1 - k2)
  {
    hide BBlock;
  }

  lemma NoEntriesLeft(blk: Block)
    ensures EntriesFrom(blk, 0) - EntriesFrom(blk, NINDIRECT) == EntriesFrom(blk, 0)
  {
  }

  lemma SubtreeBitBlocks(sb: Super, f: Fs, i: nat)
    requires Shape(f) && OwnersOk(sb, f) && i < |f.inodes| && f.inodes[i].addrs[NDIRECT] != 0
    ensures var ind, k := f.inodes[i].addrs[NDIRECT], f.owner.Keys;
            BitBlocks(sb, k - (f.owner - Subtree(f, i)).Keys) == BitBlocks(sb, EntriesFrom(At(f.mem, ind), 0)) + {BBlock(sb, ind)}
  {
    hide BBlock, EntriesFrom, Addr, Word, At;
    EntryOwners(sb, f, i);
    assert f.owner.Keys - (f.owner - Subtree(f, i)).Keys == Subtree(f, i);
  }

  ghost function OwnedBy(f: Fs, i: nat): (r: set<nat>) {
    set a | a in f.owner && f.owner[a].inum == i
  }

  /** What truncating file i logs. */
  ghost function TruncSet(sb: Super, f: Fs, i: nat): (r: set<nat>) {
    BitBlocks(sb, OwnedBy(f, i)) + {IBlock(sb, i)}
  }

  lemma OwnedByFile(f: Fs, h: Fs, i: nat)
    requires forall a :: a in h.owner <==> a in f.owner && f.owner[a].inum != i
    ensures f.owner.Keys - h.owner.Keys == OwnedBy(f, i)
  {
  }

  /** From f to g, inode i may have lost blocks; all other files are untouched. */
  ghost predicate Spares(f: Fs, g: Fs, i: nat)
    requires Shape(f) && Shape(g)
  {
    && |g.inodes| == |f.inodes|
    && (forall j | 0 <= j < |f.inodes| && j != i :: g.inodes[j] == f.inodes[j])
    && (i < |f.inodes| ==> g.inodes[i].size == f.inodes[i].size)
    && (forall s: Slot | IsSlot(f, s) && s.inum != i :: SparesStep(f, g, s))
    && (forall a | a in g.owner :: a in f.owner && g.owner[a] == f.owner[a])
    && (forall a | a in f.owner && f.owner[a].inum != i :: a in g.owner)
  }

  ghost predicate SparesStep(f: Fs, g: Fs, s: Slot)
    requires Shape(f) && Shape(g) && IsSlot(f, s) && IsSlot(g, s)
  {
    Addr(g, s) == Addr(f, s) && (Addr(f, s) != 0 ==> At(g.mem, Addr(f, s)) == At(f.mem, Addr(f, s)))
  }

  lemma SparesReflexive(f: Fs, i: nat)
    requires Shape(f)
    ensures Spares(f, f, i)
  {
  }

  lemma SparesInodes(f: Fs, g: Fs, i: nat)
    requires Shape(f) && Shape(g) && Spares(f, g, i)
    ensures |g.inodes| == |f.inodes| && forall j | 0 <= j < |f.inodes| && j != i :: g.inodes[j] == f.inodes[j]
  {
  }

  lemma SparesTransitive(f: Fs, g: Fs, h: Fs, i: nat)
    requires Shape(f) && Shape(g) && Shape(h) && Spares(f, g, i) && Spares(g, h, i)
    ensures Spares(f, h, i)
  {
  }

  ghost function FreePointer(sb: Super, f: Fs, i: nat, k: nat): (g: Fs)
    requires Shape(f) && i < |f.inodes| && k < NDIRECT
    ensures Shape(g)
  {
    var a := f.inodes[i].addrs[k];
    SetAddr(f, i, k, 0).(mem := PutBit(sb, f.mem, a, false), owner := f.owner - {a})
  }

  lemma FreePointerKeeps(sb: Super, f: Fs, i: nat, k: nat)
    requires Inv(sb, f, {}) && i < |f.inodes| && k < NDIRECT && f.inodes[i].addrs[k] != 0
    ensures var g := FreePointer(sb, f, i, k);
            && Bit(sb, f.mem, f.inodes[i].addrs[k])
            && Inv(sb, g, {}) && Spares(f, g, i)
  {
    hide Bit, Word, Addr, PutBit, At;
    var a, g := f.inodes[i].addrs[k], FreePointer(sb, f, i, k);
    var h := SetAddr(f, i, k, 0).(owner := f.owner - {a});
    DetachPointer(sb, f, {}, i, k);
    assert {} + {a} == {a} && {a} - {a} == {};
    FreeKeeps(sb, h, {a}, a);
    OwnedFrame(sb, h, PutBit(sb, f.mem, a, false));
    PointerAddr(f, i, k);
    PointerAddr(f, i, NDIRECT);
    forall s: Slot | IsSlot(f, s) && s.inum != i ensures SparesStep(f, g, s) {
      assert Addr(g, s) == Addr(h, s) == Addr(f, s);
      if Addr(f, s) != 0 {
        assert Addr(f, s) in h.owner;
      }
    }
  }

  ghost predicate NoRepeats(blk: Block) {
    forall j, k | 0 <= j < k < NINDIRECT && Word(blk, j) != 0 :: Word(blk, j) != Word(blk, k)
  }

  lemma EntriesStep(blk: Block, j: nat, ind: nat)
    requires j < NINDIRECT && NoRepeats(blk) && ind !in EntriesFrom(blk, 0)
    ensures Word(blk, j) == 0 ==> EntriesFrom(blk, j + 1) == EntriesFrom(blk, j)
    ensures Word(blk, j) != 0 ==>
              && Word(blk, j) in EntriesFrom(blk, j) + {ind}
              && Word(blk, j) in EntriesFrom(blk, j) && EntriesFrom(blk, j) - {Word(blk, j)} == EntriesFrom(blk, j + 1)
              && EntriesFrom(blk, j) + {ind} - {Word(blk, j)} == EntriesFrom(blk, j + 1) + {ind}
  {
    hide Word, EntriesFrom;
    EntriesUnfold(blk, j);
    if Word(blk, j) != 0 {
      assert Word(blk, j) in EntriesFrom(blk, 0);
      assert Word(blk, j) !in EntriesFrom(blk, j + 1);
    }
  }

  lemma EntriesUnfold(blk: Block, j: nat)
    requires j < NINDIRECT
    ensures EntriesFrom(blk, j) == EntriesFrom(blk, j + 1) + if Word(blk, j) == 0 then {} else {Word(blk, j)}
  {
  }

  lemma EntriesEnd(blk: Block, ind: nat)
    ensures EntriesFrom(blk, NINDIRECT) + {ind} == {ind}
  {
  }

  lemma SameOwnedReflexive(g: Fs)
    ensures SameOwned(g, g.mem)
  {
  }

  lemma SameOwnedStep(g: Fs, m: Disk, mem: Disk)
    requires SameOwned(g, m) && SameOwned(g.(mem := m), mem)
    ensures SameOwned(g, mem)
  {
  }

  lemma EntriesDistinct(sb: Super, f: Fs, i: nat)
    requires Shape(f) && OwnersOk(sb, f) && i < |f.inodes| && f.inodes[i].addrs[NDIRECT] != 0
    ensures var ind := f.inodes[i].addrs[NDIRECT];
            && NoRepeats(At(f.mem, ind)) && ind !in EntriesFrom(At(f.mem, ind), 0)
            && Subtree(f, i) == EntriesFrom(At(f.mem, ind), 0) + {ind}
  {
    hide Word, EntriesFrom, Addr;
    EntryOwners(sb, f, i);
  }

  lemma DetachedSpares(sb: Super, f: Fs, i: nat, mem: Disk)
    requires Shape(f) && OwnersOk(sb, f) && i < |f.inodes| && f.inodes[i].addrs[NDIRECT] != 0
    requires OwnersOk(sb, Detached(f, i)) && SameOwned(Detached(f, i), mem)
    ensures Spares(f, Detached(f, i).(mem := mem), i)
  {
    hide Word, EntriesFrom, Addr, At, Subtree;
    var h := Detached(f, i);
    var g := h.(mem := mem);
    DetachedAddrs(sb, f, i);
    EntryOwners(sb, f, i);
    OwnedFrame(sb, h, mem);
    forall s: Slot | IsSlot(f, s) && s.inum != i ensures SparesStep(f, g, s) {
      assert Addr(g, s) == Addr(h, s) == Addr(f, s);
      if Addr(f, s) != 0 {
        assert Addr(h, s) in h.owner;
      }
    }
  }

  ghost function Resized(f: Fs, i: nat, size: Uint): (g: Fs)
    requires i < |f.inodes|
  {
    f.(inodes := f.inodes[i := f.inodes[i].(size := size)])
  }

  lemma ResizedKeeps(sb: Super, f: Fs, transit: set<nat>, i: nat, size: Uint)
    requires Inv(sb, f, transit) && i < |f.inodes|
    ensures Inv(sb, Resized(f, i, size), transit)
    ensures forall s: Slot | IsSlot(f, s) :: Addr(Resized(f, i, size), s) == Addr(f, s)
  {
    hide Word, Bit;
    var g := Resized(f, i, size);
    forall s: Slot | IsSlot(f, s) ensures Addr(g, s) == Addr(f, s) {
    }
    forall s: Slot | IsSlot(g, s) && Addr(g, s) != 0 ensures Addr(g, s) in g.owner && g.owner[Addr(g, s)] == s {
      assert Addr(g, s) == Addr(f, s);
    }
  }

  /** Files other than i keep their blocks and bytes when i loses blocks or changes its size. */
  lemma SparesKeepsFiles(sb: Super, f: Fs, g: Fs, i: nat, size: nat)
    requires Shape(f) && FilesOk(f) && Shape(g) && Spares(f, g, i) && i < |f.inodes|
    ensures forall j, bn: nat | 0 <= j < |g.inodes| && j != i && bn < MAXFILE && bn * BSIZE < g.inodes[j].size ::
              Addr(g, SlotOf(j, bn)) != 0
    ensures forall j | 0 <= j < |f.inodes| && j != i :: Contents(g, j) == Contents(f, j)
  {
  }

  lemma Truncated(sb: Super, f: Fs, h: Fs, i: nat)
    requires Inv(sb, f, {}) && FilesOk(f) && Inv(sb, h, {}) && Spares(f, h, i) && i < |f.inodes|
    requires forall k | 0 <= k <= NDIRECT :: h.inodes[i].addrs[k] == 0
    ensures var g := Resized(h, i, 0);
            && Inv(sb, g, {}) && FilesOk(g)
            && (forall j | 0 <= j < |f.inodes| && j != i :: g.inodes[j] == f.inodes[j] && Contents(g, j) == Contents(f, j))
            && (forall a :: a in g.owner <==> a in f.owner && f.owner[a].inum != i)
  {
    hide Word, Bit, At, BitsOk, Contents, FileByte, Addr;
    var g := Resized(h, i, 0);
    ResizedKeeps(sb, h, {}, i, 0);
    SparesKeepsFiles(sb, f, h, i, 0);
    forall a | a in h.owner ensures h.owner[a].inum != i {
      assert Addr(h, h.owner[a]) == a;
      EmptyHoldsNothing(h, i);
    }
    forall j | 0 <= j < |f.inodes| && j != i ensures Contents(g, j) == Contents(h, j) {
      ResizedContents(h, i, j);
    }
  }

  lemma EmptyHoldsNothing(h: Fs, i: nat)
    requires Shape(h) && i < |h.inodes| && forall k | 0 <= k <= NDIRECT :: h.inodes[i].addrs[k] == 0
    ensures forall s: Slot | IsSlot(h, s) && s.inum == i :: Addr(h, s) == 0
  {
  }

  /** Another file keeps its contents when inode i becomes empty. */
  lemma ResizedContents(h: Fs, i: nat, j: nat)
    requires i < |h.inodes| && Shape(h) && Shape(Resized(h, i, 0)) && j != i
    requires j < |h.inodes| && h.inodes[j].size <= MAXFILE * BSIZE
    ensures Contents(Resized(h, i, 0), j) == Contents(h, j)
  {
  }

  function Min(a: int, b: int): (r: int) {
    if a < b then a else b
  }

  /** What a read of n bytes at offset off delivers: the bytes up to the end of the file, or
      nothing when off is past the end or off + n does not fit 32 bits. */
  ghost function ReadSlice(file: seq<Byte>, off: Uint, n: Uint): (r: seq<Byte>) {
    if off > |file| || off + n >= UINT_LIMIT then []
    else file[off..Min(off + n, |file|)]
  }

  /** Byte k of a read is byte off + k of the file, and only the end of the file cuts it short. */
  lemma ReadBytes(file: seq<Byte>, off: Uint, n: Uint)
    requires off <= |file| && off + n < UINT_LIMIT
    ensures var r := ReadSlice(file, off, n);
            && |r| == (if n <= |file| - off then n else |file| - off)
            && forall k | 0 <= k < |r| :: r[k] == file[off + k]
  {
  }

  /** Two reads in a row are one read of the summed length. */
  lemma ReadsJoin(file: seq<Byte>, off: Uint, a: Uint, b: Uint)
    requires off <= |file| < UINT_LIMIT && off + a + b < UINT_LIMIT
    ensures var first := ReadSlice(file, off, a);
            off + |first| < UINT_LIMIT && first + ReadSlice(file, off + |first|, b) == ReadSlice(file, off, a + b)
  {
  }

  /** A read at the place of a write delivers what was written. */
  lemma ReadAfterWrite(f: Fs, g: Fs, i: nat, off: Uint, data: seq<Byte>, n: Uint)
    requires Wrote(f, g, i, off, data) && |data| <= n && off + n < UINT_LIMIT
    ensures data <= ReadSlice(Contents(g, i), off, n)
  {
    hide Contents, Splice, KeepsAddrs;
    SpliceAt(Contents(f, i), off, data);
    ReadBytes(Contents(g, i), off, n);
    forall k | 0 <= k < |data| ensures ReadSlice(Contents(g, i), off, n)[k] == data[k] {
      assert Contents(g, i)[off + k] == data[off + k - off];
    }
  }

  /** A read elsewhere delivers what it did before, as far as the file went. */
  lemma ReadBesideWrite(f: Fs, g: Fs, i: nat, off: Uint, data: seq<Byte>, at: Uint, n: Uint)
    requires Wrote(f, g, i, off, data) && (at + n <= off || off + |data| <= at) && at + n < UINT_LIMIT
    ensures at + n <= f.inodes[i].size ==> ReadSlice(Contents(g, i), at, n) == ReadSlice(Contents(f, i), at, n)
  {
    hide Contents, Splice, KeepsAddrs;
    SpliceAt(Contents(f, i), off, data);
  }

  lemma BlockThere(sb: Super, f: Fs, i: nat, off: nat)
    requires Shape(f) && FilesOk(f) && i < |f.inodes| && off < f.inodes[i].size
    ensures off / BSIZE < MAXFILE && Addr(f, SlotOf(i, off / BSIZE)) != 0
  {
  }

  /** One block's share of a read. */
  lemma ReadChunk(f: Fs, i: nat, off: nat, m: nat)
    requires Shape(f) && i < |f.inodes| && off + m <= f.inodes[i].size <= MAXFILE * BSIZE && off % BSIZE + m <= BSIZE
    requires off < MAXFILE * BSIZE
    ensures At(f.mem, Addr(f, SlotOf(i, off / BSIZE)))[off % BSIZE..off % BSIZE + m] == Contents(f, i)[off..off + m]
  {
    hide Addr, At, Contents;
    var blk, file, base := At(f.mem, Addr(f, SlotOf(i, off / BSIZE))), Contents(f, i), off / BSIZE * BSIZE;
    forall k | off % BSIZE <= k < off % BSIZE + m
      ensures blk[k] == file[base + k]
    {
      assert (base + k) / BSIZE == off / BSIZE && (base + k) % BSIZE == k;
      assert file[base + k] == FileByte(f, i, base + k);
    }
  }

  /** A block that is there needs no indirect block either, and nothing is logged for it. */
  lemma AlreadyMapped(sb: Super, f: Fs, i: nat, bn: nat)
    requires Shape(f) && i < |f.inodes| && bn < MAXFILE
    ensures Addr(f, SlotOf(i, bn)) != 0 ==>
              f.inodes[i].addrs[if bn < NDIRECT then bn else NDIRECT] != 0 && BlockSet(sb, f, f, i, bn) == {}
  {
  }

  /** What the loop of writei leaves behind: tot bytes stored, and only blocks of the write logged,
      all of them when every byte was stored. */
  ghost predicate WroteBlocks(sb: Super, f0: Fs, f: Fs, i: nat, off: nat, src: seq<Byte>, tot: nat, l0: set<nat>, l: set<nat>) {
    && Inv(sb, f0, {}) && FilesOk(f0) && Inv(sb, f, {}) && i < |f0.inodes| == |f.inodes| && tot <= |src|
    && Stored(f0, f, i, off, src, tot)
    && off / BSIZE + Touched(off, |src|) <= MAXFILE
    && l <= l0 + WriteSet(sb, f0, f, i, off / BSIZE, Touched(off, |src|))
    && (tot == |src| ==> l == l0 + WriteSet(sb, f0, f, i, off / BSIZE, Touched(off, |src|)))
  }

  datatype Turn = Copied | Failed | NoBlock

  /** The loop of writei is at tot, and what it logged since l0 is l. */
  ghost predicate Writes(sb: Super, f0: Fs, f: Fs, i: nat, off: nat, src: seq<Byte>, tot: nat, l0: set<nat>, l: set<nat>) {
    Writing(sb, f0, f, i, off, src, tot) && l == l0 + LogSet(sb, f0, f, i, off, tot)
  }

  lemma WritesNothing(sb: Super, f: Fs, i: nat, off: nat, src: seq<Byte>, l: set<nat>)
    requires Inv(sb, f, {}) && FilesOk(f) && i < |f.inodes| && off <= f.inodes[i].size && off + |src| <= MAXFILE * BSIZE
    ensures Writes(sb, f, f, i, off, src, 0, l, l)
  {
    hide Inv, FilesOk;
    WritingStarts(sb, f, i, off, src);
  }

  lemma WritingDone(sb: Super, f0: Fs, f: Fs, i: nat, off: nat, src: seq<Byte>, l0: set<nat>, l: set<nat>)
    requires Writes(sb, f0, f, i, off, src, |src|, l0, l)
    ensures WroteBlocks(sb, f0, f, i, off, src, |src|, l0, l)
  {
  }

  /** A panic of bmap while tot of the bytes are stored: the write has still logged no more than
      its bound. */
  lemma PanicCost(sb: Super, f0: Fs, f: Fs, h: Fs, i: nat, off: nat, src: seq<Byte>, tot: nat, l0: set<nat>, l: set<nat>, l1: set<nat>)
    requires Writing(sb, f0, f, i, off, src, tot) && AtBlock(off, tot) && tot < |src|
    requires l == l0 + LogSet(sb, f0, f, i, off, tot) && HalfMapped(sb, f, h, i, l, l1)
    ensures |l1 - l0| <= LogCost(off, |src|)
  {
    hide Bit, Addr, At, OwnersOk, BitsOk, FilesOk, Grows, Stored, WriteSet, DataSet, BlockSet, BBlock, Touched;
    var bn0, t := off / BSIZE, Touched(off, tot);
    NextBlock(off, tot, 1);
    TouchedGrows(off, tot + 1, |src|);
    HalfAddrs(sb, f, h, i, l, l1);
    WriteSetFrame(sb, f0, f, h, i, bn0, t);
    WriteSetCovered(sb, f0, h, i, bn0, t);
    DataSetBound(sb, f0, h, i, bn0, t);
    var ind, data := h.inodes[i].addrs[NDIRECT], DataSet(sb, f0, h, i, bn0, t);
    AddTwo(data, ind, BBlock(sb, ind));
    SubsetSize(l1 - l0, data + {ind, BBlock(sb, ind)});
  }

  lemma HalfAddrs(sb: Super, f: Fs, h: Fs, i: nat, l: set<nat>, l1: set<nat>)
    requires Shape(f) && i < |f.inodes| && HalfMapped(sb, f, h, i, l, l1)
    ensures Shape(h) && |h.inodes| == |f.inodes|
    ensures forall bn: nat | bn < MAXFILE :: Addr(h, SlotOf(i, bn)) == Addr(f, SlotOf(i, bn))
    ensures f.inodes[i].addrs[NDIRECT] != 0 ==> h.inodes[i].addrs[NDIRECT] == f.inodes[i].addrs[NDIRECT]
    ensures l1 <= l + {h.inodes[i].addrs[NDIRECT], BBlock(sb, h.inodes[i].addrs[NDIRECT])}
  {
    hide Bit, Addr, At, OwnersOk, BitsOk, Grows, BBlock;
    forall bn: nat | bn < MAXFILE ensures Addr(h, SlotOf(i, bn)) == Addr(f, SlotOf(i, bn)) {
      assert IsSlot(f, SlotOf(i, bn));
    }
  }

  /** The store of the data adds the block that bmap found. */
  lemma DataLogs(sb: Super, h: Fs, i: nat, bn: nat, m0: Disk, l0: set<nat>, l1: set<nat>, blk: Block)
    requires Inv(sb, h, {}) && i < |h.inodes| && bn < MAXFILE && Addr(h, SlotOf(i, bn)) != 0
    requires Logs(sb.bmapstart, sb.size, m0, h.mem, l0, l1)
    ensures var a := Addr(h, SlotOf(i, bn)); Logs(sb.bmapstart, sb.size, m0, h.mem[a := blk], l0, l1 + {a})
  {
    hide Bit, Addr, Logs, BitsOk;
    var a := Addr(h, SlotOf(i, bn));
    assert IsSlot(h, SlotOf(i, bn)) && a in h.owner;
    LogsBlock(sb.bmapstart, sb.size, h.mem, l1, a, blk);
    LogsBoth(sb.bmapstart, sb.size, m0, h.mem, h.mem[a := blk], l0, l1, l1 + {a});
  }

  datatype WriteResult = Panic | Ret(n: int)

  /** writei returns -1 before touching anything. */
  predicate Refused(size: nat, off: Uint, n: nat) {
    off > size || off + n >= UINT_LIMIT || off + n > MAXFILE * BSIZE
  }

  /** The test for wrap-around adds nothing: what is refused starts past the end or ends past the
      largest file. */
  lemma RefusedIff(size: nat, off: Uint, n: nat)
    ensures Refused(size, off, n) <==> off > size || off + n > MAXFILE * BSIZE
  {
  }

  /** Of n bytes to be written at off, of which `avail` can be had, the first k end at a block boundary
      and the part for the next block cannot be had. */
  ghost predicate StopsShort(off: nat, n: nat, avail: nat, k: nat) {
    && k < n && k <= avail && AtBlock(off, k)
    && avail < k + Min(n - k, BSIZE - (off + k) % BSIZE)
  }

  /** filewrite stores k of the n bytes: all chunks before the one with byte k whole, and of that one
      nothing if it is refused, otherwise what writei stores of it. */
  ghost predicate EndsShort(size: nat, off: Uint, n: nat, avail: nat, k: nat) {
    var c := k / CHUNK * CHUNK;
    && k < n && c <= avail
    && (|| (k == c && if c == 0 then Refused(size, off, Min(n, CHUNK)) else off + c + Min(n - c, CHUNK) > MAXFILE * BSIZE)
        || StopsShort(off + c, Min(n - c, CHUNK), avail - c, k - c))
  }

  /** From f to g, exactly the bytes data were stored at off in file i. */
  ghost predicate Wrote(f: Fs, g: Fs, i: nat, off: nat, data: seq<Byte>) {
    && Shape(f) && FilesOk(f) && Shape(g) && FilesOk(g) && i < |f.inodes| == |g.inodes| && off <= f.inodes[i].size
    && KeepsAddrs(f, g)
    && Contents(g, i) == Splice(Contents(f, i), off, data)
    && forall j | 0 <= j < |f.inodes| && j != i :: g.inodes[j] == f.inodes[j] && Contents(g, j) == Contents(f, j)
  }

  lemma LogsWider(sb: Super, m0: Disk, m1: Disk, l0: set<nat>, l1: set<nat>)
    requires sb.inodestart < sb.bmapstart && Logs(sb.bmapstart, sb.size, m0, m1, l0, l1)
    ensures Logs(sb.inodestart, sb.size, m0, m1, l0, l1)
  {
  }

  /** The iupdate from g to h moves nothing, so the write up to h is that up to g. */
  lemma WroteIs(f: Fs, g: Fs, h: Fs, i: nat, off: nat, data: seq<Byte>)
    requires Shape(f) && FilesOk(f) && Shape(g) && FilesOk(g) && i < |f.inodes| == |g.inodes| && off <= f.inodes[i].size
    requires KeepsAddrs(f, g) && Contents(g, i) == Splice(Contents(f, i), off, data)
    requires forall j | 0 <= j < |f.inodes| && j != i :: g.inodes[j] == f.inodes[j] && Contents(g, j) == Contents(f, j)
    requires Shape(h) && FilesOk(h) && h.inodes == g.inodes
    requires forall s: Slot | IsSlot(g, s) :: Addr(h, s) == Addr(g, s)
    requires forall j | 0 <= j < |g.inodes| :: Contents(h, j) == Contents(g, j)
    ensures Wrote(f, h, i, off, data)
  {
    hide Addr, Contents, Splice;
  }

  lemma WroteNothing(f: Fs, i: nat, off: nat)
    requires Shape(f) && FilesOk(f) && i < |f.inodes| && off <= f.inodes[i].size
    ensures Wrote(f, f, i, off, [])
  {
  }

  const CHUNK: nat := 3 * BSIZE // the most that filewrite hands to writei at once

  /** The chunks sent to writei when k of n bytes get stored. */
  ghost function ChunkCount(n: nat, k: nat): (c: nat) {
    if k == n then (n + CHUNK - 1) / CHUNK else k / CHUNK + 1
  }

  /** One transaction of filewrite: the blocks it logged and the state it left. */
  datatype Chunk = Chunk(logged: set<nat>, after: Fs)

  /** From f, the transaction logged no more blocks than an operation may, and changed no other. */
  ghost predicate OneTxn(sb: Super, f: Fs, t: Chunk) {
    |t.logged| <= MAXOPBLOCKS && Logs(sb.inodestart, sb.size, f.mem, t.after.mem, {}, t.logged)
  }

  /** The state after the first m transactions. */
  ghost function After(f0: Fs, txns: seq<Chunk>, m: nat): (f: Fs)
    requires m <= |txns|
  {
    if m == 0 then f0 else txns[m - 1].after
  }

  ghost predicate Chained(sb: Super, f0: Fs, txns: seq<Chunk>) {
    forall j | 0 <= j < |txns| :: OneTxn(sb, After(f0, txns, j), txns[j])
  }

  /** The transaction left a file system in order, with data stored at off since f0. */
  ghost predicate ChunkWrote(sb: Super, f0: Fs, t: Chunk, i: nat, off: nat, data: seq<Byte>) {
    FsOk(sb, t.after) && WroteOr(f0, t.after, i, off, data)
  }

  /** data was stored at off, or off is past the end and nothing was. */
  ghost predicate WroteOr(f0: Fs, f: Fs, i: nat, off: nat, data: seq<Byte>) {
    i < |f0.inodes| && if off <= f0.inodes[i].size then Wrote(f0, f, i, off, data) else f == f0 && data == []
  }

  /** Where chunk j ends when k bytes get stored. */
  ghost function ChunkEnd(j: nat, k: nat): (e: nat)
    ensures e <= k
  {
    if (j + 1) * CHUNK < k then (j + 1) * CHUNK else k
  }

  /** Each of the first c chunks stored its part of the first k bytes of src. */
  ghost predicate ChunksWrote(sb: Super, f0: Fs, txns: seq<Chunk>, c: nat, i: nat, off: nat, src: seq<Byte>, k: nat) {
    && c <= |txns| && k <= |src|
    && forall j | 0 <= j < c ::
         && ChunkWrote(sb, f0, txns[j], i, off, src[..ChunkEnd(j, k)])
         && (j * CHUNK < k ==> IBlock(sb, i) in txns[j].logged)
  }

  /** All chunks so far stored all their bytes: done bytes of src. */
  ghost predicate Sent(sb: Super, f0: Fs, txns: seq<Chunk>, i: nat, off: nat, src: seq<Byte>, done: nat) {
    && done == (if |txns| * CHUNK < |src| then |txns| * CHUNK else |src|)
    && (txns != [] ==> (|txns| - 1) * CHUNK < |src|)
    && Chained(sb, f0, txns)
    && WroteOr(f0, After(f0, txns, |txns|), i, off, src[..done])
    && ChunksWrote(sb, f0, txns, |txns|, i, off, src, done)
  }

  lemma WroteSize(f: Fs, g: Fs, i: nat, off: nat, data: seq<Byte>)
    requires Wrote(f, g, i, off, data)
    ensures g.inodes[i].size == FsWrite.Max(f.inodes[i].size, off + |data|)
  {
  }

  /** Two consecutive writes are one. */
  lemma WroteMore(f: Fs, g: Fs, h: Fs, i: nat, off: nat, src: seq<Byte>, done: nat, m: nat)
    requires done + m <= |src| && Wrote(f, g, i, off, src[..done]) && Wrote(g, h, i, off + done, src[done..][..m])
    ensures Wrote(f, h, i, off, src[..done + m])
  {
    hide Contents;
    var file := Contents(f, i);
    assert src[..done + m] == src[..done] + src[done..][..m];
    SpliceTwice(file, off, src[..done], src[done..][..m]);
  }

  lemma SpliceTwice(file: seq<Byte>, off: nat, a: seq<Byte>, b: seq<Byte>)
    requires off <= |file|
    ensures off + |a| <= |Splice(file, off, a)|
    ensures Splice(Splice(file, off, a), off + |a|, b) == Splice(file, off, a + b)
  {
  }

  lemma NothingWritten(sb: Super, f0: Fs, i: nat, off: nat, src: seq<Byte>)
    requires FsOk(sb, f0) && i < |f0.inodes|
    ensures Sent(sb, f0, [], i, off, src, 0) && After(f0, [], 0) == f0
  {
    hide Wrote;
    if off <= f0.inodes[i].size {
      WroteNothing(f0, i, off);
    }
    assert src[..0] == [];
  }

  /** The size of the file between two chunks. */
  lemma WroteOrSize(f0: Fs, f: Fs, i: nat, off: nat, data: seq<Byte>)
    requires WroteOr(f0, f, i, off, data)
    ensures |f.inodes| == |f0.inodes|
    ensures f.inodes[i].size == if off <= f0.inodes[i].size then FsWrite.Max(f0.inodes[i].size, off + |data|) else f0.inodes[i].size
  {
    if off <= f0.inodes[i].size {
      WroteSize(f0, f, i, off, data);
    }
  }

  lemma ChainedMore(sb: Super, f0: Fs, txns: seq<Chunk>, t: Chunk)
    requires Chained(sb, f0, txns) && OneTxn(sb, After(f0, txns, |txns|), t)
    ensures Chained(sb, f0, txns + [t]) && After(f0, txns + [t], |txns| + 1) == t.after
  {
    hide OneTxn;
    forall j | 0 <= j <= |txns| ensures OneTxn(sb, After(f0, txns + [t], j), (txns + [t])[j]) {
      assert After(f0, txns + [t], j) == After(f0, txns, j);
    }
  }

  lemma ChunksKept(sb: Super, f0: Fs, txns: seq<Chunk>, t: Chunk, i: nat, off: nat, src: seq<Byte>, k: nat)
    requires ChunksWrote(sb, f0, txns, |txns|, i, off, src, k)
    ensures ChunksWrote(sb, f0, txns + [t], |txns|, i, off, src, k)
  {
  }

  lemma CountChunks(n: nat, c: nat, k: nat)
    requires k <= n
    requires k == n ==> (c > 0 ==> (c - 1) * CHUNK < n) && n <= c * CHUNK
    requires k < n ==> c > 0 && (c - 1) * CHUNK <= k < c * CHUNK
    ensures c == ChunkCount(n, k)
  {
  }

  /** The chunk from done on stored m bytes, or was refused (-1); k bytes are stored now. */
  ghost predicate ChunkDid(sb: Super, f: Fs, t: Chunk, i: nat, off: nat, src: seq<Byte>, done: nat, n1: nat, m: int, k: nat) {
    && FsOk(sb, t.after) && k == (if m > 0 then done + m else done) && done + n1 <= |src|
    && if m == -1 then t.after == f
       else 0 <= m <= n1 && IBlock(sb, i) in t.logged && Wrote(f, t.after, i, off + done, src[done..done + n1][..m])
  }

  lemma ChunkAdds(sb: Super, f0: Fs, txns: seq<Chunk>, t: Chunk, i: nat, off: nat, src: seq<Byte>, done: nat, n1: nat, m: int, k: nat)
    requires Sent(sb, f0, txns, i, off, src, done) && done < |src| && OneTxn(sb, After(f0, txns, |txns|), t)
    requires n1 == if |src| - done > CHUNK then CHUNK else |src| - done
    requires ChunkDid(sb, After(f0, txns, |txns|), t, i, off, src, done, n1, m, k)
    ensures k <= |src| && WroteOr(f0, t.after, i, off, src[..k])
    ensures ChunksWrote(sb, f0, txns + [t], |txns| + 1, i, off, src, k)
    ensures Chained(sb, f0, txns + [t]) && After(f0, txns + [t], |txns| + 1) == t.after
    ensures if m == n1 then Sent(sb, f0, txns + [t], i, off, src, k) else |txns| + 1 == ChunkCount(|src|, k)
  {
    hide Wrote, FsOk, Chained, OneTxn, ChunkCount;
    var f, all := After(f0, txns, |txns|), txns + [t];
    ChainedMore(sb, f0, txns, t);
    WroteOrMore(f0, f, t.after, i, off, src, done, n1, m, k);
    forall j | 0 <= j < |all|
      ensures ChunkWrote(sb, f0, all[j], i, off, src[..ChunkEnd(j, k)]) && (j * CHUNK < k ==> IBlock(sb, i) in all[j].logged)
    {
      ChunkEnds(|txns|, j, n1, k);
    }
    if m != n1 {
      CountChunks(|src|, |txns| + 1, k);
    }
  }

  /** Every block that changed since f0 was logged by one of the transactions. */
  lemma {:induction false} ChangesAreLogged(sb: Super, f0: Fs, txns: seq<Chunk>, m: nat, b: nat)
    requires Chained(sb, f0, txns) && m <= |txns| && At(After(f0, txns, m).mem, b) != At(f0.mem, b)
    ensures exists j | 0 <= j < m :: b in txns[j].logged
  {
    hide At, OneTxn;
    if At(After(f0, txns, m - 1).mem, b) != At(f0.mem, b) {
      ChangesAreLogged(sb, f0, txns, m - 1, b);
    } else {
      ChangeIsLogged(sb, After(f0, txns, m - 1), txns[m - 1], b);
    }
  }

  lemma ChangeIsLogged(sb: Super, f: Fs, t: Chunk, b: nat)
    requires OneTxn(sb, f, t) && At(t.after.mem, b) != At(f.mem, b)
    ensures b in t.logged
  {
    hide At;
  }

  /** The chunk after c others stored m of its bytes only, or was refused (-1). */
  lemma ChunkStops(size0: nat, size: nat, off: Uint, n: nat, avail: nat, c: nat, m: int, k: nat)
    requires var done := c * CHUNK;
             && done < n && (done > 0 ==> off <= size0 && done <= avail) && off + done < UINT_LIMIT
             && size == (if off <= size0 then FsWrite.Max(size0, off + done) else size0)
             && k == (if m > 0 then done + m else done)
             && if m == -1 then Refused(size, off + done, Min(n - done, CHUNK))
                else 0 <= m && StopsShort(off + done, Min(n - done, CHUNK), if avail > done then avail - done else 0, m)
    ensures EndsShort(size0, off, n, avail, k)
  {
    hide StopsShort, Refused;
    var done := c * CHUNK;
    if m != -1 {
      StopsInside(off + done, Min(n - done, CHUNK), if avail > done then avail - done else 0, m);
    }
    InChunk(c, k);
    if m == -1 {
      RefusedIff(size, off + done, Min(n - done, CHUNK));
    } else {
      assert k - done == m;
      assert (if avail > done then avail - done else 0) == avail - done;
    }
  }

  lemma InChunk(c: nat, k: nat)
    requires c * CHUNK <= k < c * CHUNK + CHUNK
    ensures k / CHUNK * CHUNK == c * CHUNK
  {
    assert k / CHUNK == c;
  }

  lemma StopsInside(off: nat, n: nat, avail: nat, k: nat)
    requires StopsShort(off, n, avail, k)
    ensures k < n
  {
  }

  /** What the loop of filewrite knows between two chunks. */
  lemma SentSays(sb: Super, f0: Fs, txns: seq<Chunk>, i: nat, off: nat, src: seq<Byte>, done: nat)
    requires Sent(sb, f0, txns, i, off, src, done)
    ensures done <= |src| && Chained(sb, f0, txns) && WroteOr(f0, After(f0, txns, |txns|), i, off, src[..done])
    ensures ChunksWrote(sb, f0, txns, |txns|, i, off, src, done)
    ensures if done == |src| then |txns| == ChunkCount(|src|, done)
            else done == |txns| * CHUNK && |txns| + 1 == ChunkCount(|src|, done)
  {
    hide Chained, ChunksWrote, WroteOr, ChunkCount;
    CountChunks(|src|, if done == |src| then |txns| else |txns| + 1, done);
  }

  lemma ChunkEnds(c: nat, j: nat, n1: nat, k: nat)
    requires j <= c && c * CHUNK <= k <= c * CHUNK + n1 && n1 <= CHUNK
    ensures ChunkEnd(j, k) == if j < c then ChunkEnd(j, c * CHUNK) else k
    ensures j < c ==> j * CHUNK < c * CHUNK
  {
  }

  lemma WroteOrMore(f0: Fs, f: Fs, g: Fs, i: nat, off: nat, src: seq<Byte>, done: nat, n1: nat, m: int, k: nat)
    requires done + n1 <= |src| && WroteOr(f0, f, i, off, src[..done])
    requires m == -1 ==> g == f
    requires m != -1 ==> 0 <= m <= n1 && Wrote(f, g, i, off + done, src[done..done + n1][..m])
    requires k == if m > 0 then done + m else done
    ensures WroteOr(f0, g, i, off, src[..k])
  {
    hide Contents, Splice, KeepsAddrs;
    if m != -1 {
      assert src[done..][..m] == src[done..done + n1][..m];
      if off <= f0.inodes[i].size {
        WroteMore(f0, f, g, i, off, src, done, m);
      }
    }
  }

  const EMPTY_INODE: Inode := Inode(0, [0, 0, 0, 0, 0, 0, 0, 0, 0, 0, 0, 0, 0])

  /** The bitmap that mkfs writes: the bits of the first n blocks are set. */
  function Marked(sb: Super, n: nat): (mem: Disk) {
    if n == 0 then map[] else PutBit(sb, Marked(sb, n - 1), n - 1, true)
  }

  lemma {:induction false} MarkedBits(sb: Super, n: nat, c: nat)
    ensures Bit(sb, Marked(sb, n), c) <==> c < n
  {
    hide Bit, PutBit;
    if n == 0 {
      NoBits(sb, c);
    } else {
      MarkedBits(sb, n - 1, c);
      BitPutBit(sb, Marked(sb, n - 1), n - 1, true, c);
    }
  }

  lemma NoBits(sb: Super, c: nat)
    ensures !Bit(sb, map[], c)
  {
  }

  lemma {:induction false} MarkedIsBitmap(sb: Super, n: nat, b: nat)
    requires b < sb.bmapstart
    ensures b !in Marked(sb, n)
  {
    hide BitBlock;
    if n > 0 {
      MarkedIsBitmap(sb, n - 1, b);
    }
  }

  lemma ZeroInode(k: nat)
    requires k < IPB
    ensures InodeAt(ZERO_BLOCK, k) == EMPTY_INODE
  {
    hide Word;
    forall m: nat | m < WORDS_PER_BLOCK ensures Word(ZERO_BLOCK, m) == 0 {
      ZeroWord(m);
    }
  }

  /** A disk with the metadata blocks marked and zero inode blocks is a file system of empty files. */
  lemma FreshImage(sb: Super, f: Fs)
    requires ValidSuper(sb) && f.mem == Marked(sb, sb.datastart) && f.owner == map[] && InodesFit(sb, |f.inodes|)
    requires forall i | 0 <= i < |f.inodes| :: f.inodes[i] == EMPTY_INODE
    ensures FsOk(sb, f)
  {
    hide Bit, Marked, Word, InodeAt, IBlock;
    forall b: nat | b < sb.size ensures Bit(sb, f.mem, b) <==> b < sb.datastart {
      MarkedBits(sb, sb.datastart, b);
    }
    forall i | 0 <= i < |f.inodes| ensures DiskInode(sb, f.mem, i) == f.inodes[i] {
      InodeBlockIsMeta(sb, |f.inodes|, i);
      MarkedIsBitmap(sb, sb.datastart, IBlock(sb, i));
      ZeroInode(i % IPB);
    }
  }

  // ------------------------------------------------------------------ the state between operations

  /** The inode blocks have room for n inodes. */
  ghost predicate InodesFit(sb: Super, n: nat) {
    sb.inodestart <= sb.bmapstart && n <= IPB * (sb.bmapstart - sb.inodestart)
  }

  lemma InodeBlockIsMeta(sb: Super, n: nat, i: nat)
    requires ValidSuper(sb) && InodesFit(sb, n) && i < n
    ensures sb.inodestart <= IBlock(sb, i) < sb.bmapstart < sb.size
  {
  }

  /** Blocks, bitmap and files are in order, and the inodes on disk are those in memory. */
  ghost predicate FsOk(sb: Super, f: Fs) {
    && Inv(sb, f, {}) && FilesOk(f)
    && InodesFit(sb, |f.inodes|) && forall i | 0 <= i < |f.inodes| :: DiskInode(sb, f.mem, i) == f.inodes[i]
  }

  lemma InodesUntouched(sb: Super, n: nat, m0: Disk, m1: Disk, l0: set<nat>, l1: set<nat>)
    requires ValidSuper(sb) && InodesFit(sb, n) && Logs(sb.bmapstart, sb.size, m0, m1, l0, l1)
    ensures forall i | 0 <= i < n :: DiskInode(sb, m1, i) == DiskInode(sb, m0, i)
  {
    hide InodeAt, IBlock;
    forall i | 0 <= i < n ensures DiskInode(sb, m1, i) == DiskInode(sb, m0, i) {
      InodeBlockIsMeta(sb, n, i);
    }
  }

  /** f with the inode i in memory copied to its block. */
  ghost function Updated(sb: Super, f: Fs, i: nat): (g: Fs)
    requires Shape(f) && i < |f.inodes|
  {
    var b := IBlock(sb, i);
    f.(mem := f.mem[b := PutInode(At(f.mem, b), i % IPB, f.inodes[i])])
  }

  /** Only inode i differed from the disk: iupdate makes them agree, and no file notices. */
  lemma UpdatedKeeps(sb: Super, f: Fs, i: nat)
    requires Inv(sb, f, {}) && FilesOk(f) && i < |f.inodes| && InodesFit(sb, |f.inodes|)
    requires forall j | 0 <= j < |f.inodes| && j != i :: DiskInode(sb, f.mem, j) == f.inodes[j]
    ensures var g := Updated(sb, f, i);
            && FsOk(sb, g)
            && (forall s: Slot | IsSlot(f, s) :: Addr(g, s) == Addr(f, s))
            && (forall j | 0 <= j < |f.inodes| :: Contents(g, j) == Contents(f, j))
  {
    hide Bit, Word, At, Addr, DiskInode, PutInode, Contents, IBlock;
    var g, b := Updated(sb, f, i), IBlock(sb, i);
    InodeBlockIsMeta(sb, |f.inodes|, i);
    OtherBlocks(f.mem, b, PutInode(At(f.mem, b), i % IPB, f.inodes[i]));
    forall j | 0 <= j < |f.inodes| ensures DiskInode(sb, g.mem, j) == f.inodes[j] {
      DiskInodePut(sb, f.mem, i, f.inodes[i], j);
    }
    forall a | a in f.owner ensures At(g.mem, a) == At(f.mem, a) {
    }
    OwnedFrame(sb, f, g.mem);
    MetaBits(sb, f.mem, g.mem, b);
    GrowsByMeta(sb, f, g);
    GrowsKeepsFiles(f, g);
  }

  lemma MetaBits(sb: Super, m: Disk, m': Disk, b: nat)
    requires b < sb.bmapstart && forall c: nat | c != b :: At(m', c) == At(m, c)
    ensures forall c: nat :: Bit(sb, m', c) == Bit(sb, m, c)
  {
    hide BitOf;
  }

  lemma GrowsByMeta(sb: Super, f: Fs, g: Fs)
    requires Shape(f) && OwnersOk(sb, f) && Shape(g) && g.inodes == f.inodes && SameOwned(f, g.mem)
    requires forall s: Slot | IsSlot(f, s) :: Addr(g, s) == Addr(f, s)
    ensures Grows(f, g)
  {
    hide Addr, At;
  }

  /** What a disk says, with n inodes and the given owners. */
  ghost function OnDisk(sb: Super, disk: Disk, n: nat, owner: map<nat, Slot>): (f: Fs)
    ensures Shape(f)
  {
    Fs(disk, seq(n, i requires 0 <= i => DiskInode(sb, disk, i)), owner)
  }

  class FileSystem {
    const sb: Super
    var mem: Disk              // the newest logged contents of every block
    var inodes: seq<Inode>     // the inodes in memory

    ghost var owner: map<nat, Slot>
    ghost var logged: set<nat> // blocks passed to log_write since the last begin_op

    /** An image with n empty inodes and the bits of the metadata blocks set. */
    constructor (sb: Super, n: nat)
      requires ValidSuper(sb) && InodesFit(sb, n)
      ensures Valid() && this.sb == sb && logged == {} && owner == map[]
      ensures |inodes| == n && forall i | 0 <= i < n :: inodes[i] == EMPTY_INODE
    {
      this.sb, mem, inodes := sb, Marked(sb, sb.datastart), seq(n, _ => EMPTY_INODE);
      owner, logged := map[], {};
      new;
      FreshImage(sb, S());
    }

    /** The file system that a disk holds: the inodes are read from their blocks. */
    constructor Mount(sb: Super, disk: Disk, n: nat, ghost owner: map<nat, Slot>)
      requires InodesFit(sb, n) && Inv(sb, OnDisk(sb, disk, n, owner), {}) && FilesOk(OnDisk(sb, disk, n, owner))
      ensures Valid() && this.sb == sb && logged == {} && S() == OnDisk(sb, disk, n, owner)
    {
      this.sb, mem, inodes := sb, disk, seq(n, i requires 0 <= i => DiskInode(sb, disk, i));
      this.owner, logged := owner, {};
    }

    ghost function S(): (f: Fs)
      reads this`mem, this`inodes, this`owner
    {
      Fs(mem, inodes, owner)
    }

    /** The state between any two operations. */
    ghost predicate Valid()
      reads this
    {
      FsOk(sb, S())
    }

    method LogWrite(b: nat, blk: Block)
      modifies this`mem, this`logged
      ensures mem == old(mem)[b := blk] && logged == old(logged) + {b}
    {
      mem := mem[b := blk];
      logged := logged + {b};
    }

    /** Allocate a zeroed block: the lowest one not marked. None is the panic. */
    method Balloc() returns (r: Option<nat>)
      requires Inv(sb, S(), {})
      modifies this`mem, this`logged
      ensures r.None? <==> (forall c: nat | c < sb.size :: Bit(sb, old(mem), c))
      ensures r.None? ==> mem == old(mem) && logged == old(logged)
      ensures r.Some? ==>
                && r.value < sb.size && !Bit(sb, old(mem), r.value)
                && (forall c: nat | c < r.value :: Bit(sb, old(mem), c))
                && mem == PutBit(sb, old(mem), r.value, true)[r.value := ZERO_BLOCK]
                && logged == old(logged) + {BBlock(sb, r.value), r.value}
    {
      hide Bit, BitOf, Inv, PutBit, BitBlock;
      var b := 0;
      while b < sb.size
        invariant b % BPB == 0
        invariant mem == old(mem) && logged == old(logged)
        invariant forall c: nat | c < b && c < sb.size :: Bit(sb, mem, c)
        decreases sb.size - b
      {
        var bp := At(mem, BBlock(sb, b));
        var bi := 0;
        while bi < BPB && b + bi < sb.size
          invariant 0 <= bi <= BPB
          invariant mem == old(mem) && logged == old(logged)
          invariant forall c: nat | c < b + bi && c < sb.size :: Bit(sb, mem, c)
        {
          BitAt(sb, mem, b, bi);
          if !BitOf(bp[bi / 8], bi % 8) {
            Take(b, bi);
            return Some(b + bi);
          }
          bi := bi + 1;
        }
        b := b + BPB;
      }
      return None;
    }

    /** Mark block b + bi in the bitmap block of b, and zero it. */
    method Take(b: nat, bi: nat)
      requires b % BPB == 0 && bi < BPB
      modifies this`mem, this`logged
      ensures mem == PutBit(sb, old(mem), b + bi, true)[b + bi := ZERO_BLOCK]
      ensures logged == old(logged) + {BBlock(sb, b + bi), b + bi}
    {
      hide WithBit;
      var bp := At(mem, BBlock(sb, b));
      assert (b + bi) / BPB == b / BPB && (b + bi) % BPB == bi;
      LogWrite(BBlock(sb, b), bp[bi / 8 := WithBit(bp[bi / 8], bi % 8, true)]);
      LogWrite(b + bi, ZERO_BLOCK);
    }

    /** Free a block; false is the panic for freeing a free block. */
    method Bfree(b: nat) returns (ok: bool)
      modifies this`mem, this`logged
      ensures ok == Bit(sb, old(mem), b)
      ensures !ok ==> mem == old(mem) && logged == old(logged)
      ensures ok ==> mem == PutBit(sb, old(mem), b, false) && logged == old(logged) + {BBlock(sb, b)}
    {
      hide WithBit, BitOf;
      var bp, bi := At(mem, BBlock(sb, b)), b % BPB;
      if !BitOf(bp[bi / 8], bi % 8) {
        return false;
      }
      LogWrite(BBlock(sb, b), bp[bi / 8 := WithBit(bp[bi / 8], bi % 8, false)]);
      return true;
    }

    /** The address in addrs[k], allocating a block for it if there is none. */
    method MapPointer(i: nat, k: nat) returns (r: Option<Uint>)
      requires Inv(sb, S(), {}) && i < |inodes| && k <= NDIRECT
      modifies this`mem, this`inodes, this`owner, this`logged
      ensures r.Some? ==> PointerMapped(sb, old(S()), S(), i, k) && r.value == inodes[i].addrs[k]
      ensures r.Some? ==> logged == old(logged) + PointerSet(sb, old(S()), S(), i, k)
      ensures old(inodes[i].addrs[k]) != 0 ==> r.Some?
      ensures r.None? ==> S() == old(S()) && logged == old(logged) && forall c: nat | c < sb.size :: Bit(sb, mem, c)
      ensures Logs(sb.bmapstart, sb.size, old(mem), mem, old(logged), logged)
    {
      hide Bit, Word, Addr, At, PutBit, Grows, OwnersOk, BitsOk, Logs;
      LogsNothing(sb.bmapstart, sb.size, mem, logged);
      var addr := inodes[i].addrs[k];
      if addr == 0 {
        var b := Balloc();
        if b.None? {
          return None;
        }
        AllocPointerKeeps(sb, old(S()), i, k, b.value);
        AllocLogs(sb, old(S()), old(logged), b.value);
        addr := b.value;
        inodes := inodes[i := inodes[i].(addrs := inodes[i].addrs[k := addr])];
        owner := owner[addr := Slot(i, k)];
        assert S() == AllocPointer(sb, old(S()), i, k, addr);
      } else {
        GrowsReflexive(S());
      }
      return Some(addr);
    }

    /** The address in entry j of the indirect block, allocating a block for it if there is none. */
    method MapEntry(i: nat, j: nat) returns (r: Option<Uint>)
      requires Inv(sb, S(), {}) && i < |inodes| && j < NINDIRECT && inodes[i].addrs[NDIRECT] != 0
      modifies this`mem, this`owner, this`logged
      ensures r.Some? ==> EntryMapped(sb, old(S()), S(), i, j) && r.value == Addr(S(), Slot(i, NDIRECT + 1 + j))
      ensures r.Some? ==> logged == old(logged) + EntrySet(sb, old(S()), S(), i, j)
      ensures Addr(old(S()), Slot(i, NDIRECT + 1 + j)) != 0 ==> r.Some?
      ensures r.None? ==> S() == old(S()) && logged == old(logged) && forall c: nat | c < sb.size :: Bit(sb, mem, c)
      ensures Logs(sb.bmapstart, sb.size, old(mem), mem, old(logged), logged)
    {
      hide Bit, Word, PutWord, Addr, At, PutBit, Grows, OwnersOk, BitsOk, Logs;
      LogsNothing(sb.bmapstart, sb.size, mem, logged);
      var ind := inodes[i].addrs[NDIRECT];
      var addr := Word(At(mem, ind), j);
      EntryAddr(S(), i, j);
      if addr == 0 {
        var b := Balloc();
        if b.None? {
          return None;
        }
        AllocEntryKeeps(sb, old(S()), i, j, b.value);
        AllocLogs(sb, old(S()), old(logged), b.value);
        addr := b.value;
        ghost var m, l := mem, logged;
        EntryLogs(sb, old(S()), i, old(mem), m, old(logged), l, PutWord(At(mem, ind), j, addr));
        LogWrite(ind, PutWord(At(mem, ind), j, addr));
        owner := owner[addr := Slot(i, NDIRECT + 1 + j)];
        assert S() == AllocEntry(sb, old(S()), i, j, addr);
      } else {
        GrowsReflexive(S());
      }
      return Some(addr);
    }

    /** The address of block bn of file i, allocating what is missing; None is a panic. */
    method Bmap(i: nat, bn: nat) returns (r: Option<Uint>)
      requires Inv(sb, S(), {}) && i < |inodes|
      modifies this`mem, this`inodes, this`owner, this`logged
      ensures r.Some? ==>
                && bn < MAXFILE
                && BlockMapped(sb, old(S()), S(), i, bn)
                && r.value == Addr(S(), SlotOf(i, bn))
                && logged == old(logged) + BlockSet(sb, old(S()), S(), i, bn)
      ensures bn < MAXFILE && Addr(old(S()), SlotOf(i, bn)) != 0 ==> r.Some? && S() == old(S()) && logged == old(logged)
      ensures r.None? ==> bn >= MAXFILE || forall c: nat | c < sb.size :: Bit(sb, mem, c)
      ensures r.None? ==> HalfMapped(sb, old(S()), S(), i, old(logged), logged)
      ensures Logs(sb.bmapstart, sb.size, old(mem), mem, old(logged), logged)
    {
      hide Bit, Word, Addr, At, Grows, OwnersOk, BitsOk, Logs;
      ghost var f, l := S(), logged;
      LogsNothing(sb.bmapstart, sb.size, mem, logged);
      if bn < MAXFILE {
        AlreadyMapped(sb, f, i, bn);
      }
      if bn < NDIRECT {
        r := MapPointer(i, bn);
        if r.Some? {
          DirectMapped(sb, f, S(), i, bn);
        }
        return;
      }
      var j := bn - NDIRECT;
      if j < NINDIRECT {
        r := MapPointer(i, NDIRECT);
        if r.None? {
          return;
        }
        ghost var h, l1 := S(), logged;
        r := MapEntry(i, j);
        LogsBoth(sb.bmapstart, sb.size, f.mem, h.mem, mem, l, l1, logged);
        if r.Some? {
          IndirectMapped(sb, f, h, S(), i, bn);
        }
        return;
      }
      return None;
    }

    /** Copy the inode in memory to its block. */
    method Iupdate(i: nat)
      requires Shape(S()) && i < |inodes|
      modifies this`mem, this`logged
      ensures S() == Updated(sb, old(S()), i)
      ensures logged == old(logged) + {IBlock(sb, i)}
    {
      var b := IBlock(sb, i);
      LogWrite(b, PutInode(At(mem, b), i % IPB, inodes[i]));
    }

    /** Free one direct block. */
    method ClearDirect(i: nat, k: nat)
      requires Inv(sb, S(), {}) && i < |inodes| && k < NDIRECT && inodes[i].addrs[k] != 0
      modifies this`mem, this`inodes, this`owner, this`logged
      ensures Inv(sb, S(), {}) && Spares(old(S()), S(), i)
      ensures inodes == old(inodes)[i := old(inodes[i]).(addrs := old(inodes[i].addrs)[k := 0])]
      ensures old(inodes[i].addrs[k]) in old(owner) && owner == old(owner) - {old(inodes[i].addrs[k])}
      ensures logged == old(logged) + {BBlock(sb, old(inodes[i].addrs[k]))}
      ensures Logs(sb.bmapstart, sb.size, old(mem), mem, old(logged), logged)
    {
      hide Bit, Word, Addr, PutBit, OwnersOk, BitsOk, Spares, SparesStep, Logs;
      ghost var f := S();
      var a := inodes[i].addrs[k];
      PointerOwned(sb, f, i, k);
      FreePointerKeeps(sb, f, i, k);
      FreeLogs(sb, f.mem, logged, a);
      var ok := Bfree(a);
      assert ok;
      inodes := inodes[i := inodes[i].(addrs := inodes[i].addrs[k := 0])];
      owner := owner - {a};
      assert S() == FreePointer(sb, f, i, k);
    }

    /** Free the direct blocks of file i. The panic of bfree is never reached. */
    method TruncDirect(i: nat)
      requires Inv(sb, S(), {}) && i < |inodes|
      modifies this`mem, this`inodes, this`owner, this`logged
      ensures Inv(sb, S(), {}) && |inodes| == old(|inodes|) && Spares(old(S()), S(), i)
      ensures forall k | 0 <= k < NDIRECT :: inodes[i].addrs[k] == 0
      ensures inodes[i].addrs[NDIRECT] == old(inodes[i].addrs[NDIRECT])
      ensures Logs(sb.bmapstart, sb.size, old(mem), mem, old(logged), logged)
      ensures logged == old(logged) + BitBlocks(sb, old(owner).Keys - owner.Keys) && owner.Keys <= old(owner).Keys
    {
      hide Bit, Word, Addr, PutBit, OwnersOk, BitsOk, Spares, SparesStep, Logs, BitBlocks;
      var k := 0;
      SparesReflexive(S(), i);
      LogsNothing(sb.bmapstart, sb.size, mem, logged);
      NoBitBlocks(sb, owner.Keys);
      while k < NDIRECT
        invariant 0 <= k <= NDIRECT
        invariant Inv(sb, S(), {}) && |inodes| == old(|inodes|) && Spares(old(S()), S(), i)
        invariant forall m | 0 <= m < k :: inodes[i].addrs[m] == 0
        invariant inodes[i].addrs[NDIRECT] == old(inodes[i].addrs[NDIRECT])
        invariant Logs(sb.bmapstart, sb.size, old(mem), mem, old(logged), logged)
        invariant logged == old(logged) + BitBlocks(sb, old(owner).Keys - owner.Keys) && owner.Keys <= old(owner).Keys
      {
        if inodes[i].addrs[k] != 0 {
          ghost var f, l := S(), logged;
          ClearDirect(i, k);
          SparesTransitive(old(S()), f, S(), i);
          LogsBoth(sb.bmapstart, sb.size, old(mem), f.mem, mem, old(logged), l, logged);
          MoreBitBlocks(sb, old(owner).Keys, f.owner.Keys, f.inodes[i].addrs[k]);
        }
        k := k + 1;
      }
    }

    /** Free the entries of the indirect block of file i; the pointer to it is still there. */
    method TruncEntries(i: nat, ghost g: Fs)
      requires Shape(S()) && i < |inodes| && g.mem == mem
      requires Inv(sb, g, EntriesFrom(At(mem, inodes[i].addrs[NDIRECT]), 0) + {inodes[i].addrs[NDIRECT]})
      requires NoRepeats(At(mem, inodes[i].addrs[NDIRECT])) && inodes[i].addrs[NDIRECT] !in EntriesFrom(At(mem, inodes[i].addrs[NDIRECT]), 0)
      modifies this`mem, this`logged
      ensures Inv(sb, g.(mem := mem), {inodes[i].addrs[NDIRECT]}) && SameOwned(g, mem)
      ensures Logs(sb.bmapstart, sb.size, old(mem), mem, old(logged), logged)
      ensures logged == old(logged) + BitBlocks(sb, EntriesFrom(old(At(mem, inodes[i].addrs[NDIRECT])), 0))
    {
      hide Bit, Word, Addr, PutBit, EntriesFrom, At, OwnersOk, BitsOk, NoRepeats, SameOwned, Logs, BitBlocks;
      var ind := inodes[i].addrs[NDIRECT];
      var a := At(mem, ind);
      SameOwnedReflexive(g);
      LogsNothing(sb.bmapstart, sb.size, mem, logged);
      NoBitBlocks(sb, EntriesFrom(a, 0));
      var j := 0;
      while j < NINDIRECT
        invariant 0 <= j <= NINDIRECT
        invariant Inv(sb, g.(mem := mem), EntriesFrom(a, j) + {ind}) && SameOwned(g, mem)
        invariant Logs(sb.bmapstart, sb.size, old(mem), mem, old(logged), logged)
        invariant logged == old(logged) + BitBlocks(sb, EntriesFrom(a, 0) - EntriesFrom(a, j)) && EntriesFrom(a, j) <= EntriesFrom(a, 0)
      {
        EntriesStep(a, j, ind);
        if Word(a, j) != 0 {
          ghost var m, l := mem, logged;
          FreeTransit(Word(a, j), g, EntriesFrom(a, j) + {ind});
          SameOwnedStep(g, m, mem);
          LogsBoth(sb.bmapstart, sb.size, old(mem), m, mem, old(logged), l, logged);
          MoreBitBlocks(sb, EntriesFrom(a, 0), EntriesFrom(a, j), Word(a, j));
        }
        j := j + 1;
      }
      EntriesEnd(a, ind);
      NoEntriesLeft(a);
    }

    /** Free a block in transit. */
    method FreeTransit(b: nat, ghost g: Fs, ghost transit: set<nat>)
      requires Inv(sb, g.(mem := mem), transit) && b in transit
      modifies this`mem, this`logged
      ensures Inv(sb, g.(mem := mem), transit - {b}) && SameOwned(g.(mem := old(mem)), mem)
      ensures logged == old(logged) + {BBlock(sb, b)}
      ensures Logs(sb.bmapstart, sb.size, old(mem), mem, old(logged), logged)
    {
      hide Bit, Word, Addr, PutBit, At, OwnersOk, SameOwned, Logs;
      FreeKeeps(sb, g.(mem := mem), transit, b);
      FreeLogs(sb, mem, logged, b);
      var ok := Bfree(b);
      assert ok;
    }

    /** Free the indirect block of file i and everything it points to. */
    method TruncIndirect(i: nat)
      requires Inv(sb, S(), {}) && i < |inodes|
      modifies this`mem, this`inodes, this`owner, this`logged
      ensures Inv(sb, S(), {}) && |inodes| == old(|inodes|) && Spares(old(S()), S(), i)
      ensures inodes[i] == old(inodes[i]).(addrs := old(inodes[i].addrs)[NDIRECT := 0])
      ensures Logs(sb.bmapstart, sb.size, old(mem), mem, old(logged), logged)
      ensures logged == old(logged) + BitBlocks(sb, old(owner).Keys - owner.Keys) && owner.Keys <= old(owner).Keys
    {
      hide Bit, Word, Addr, PutBit, EntriesFrom, At, OwnersOk, BitsOk, NoRepeats, Spares, SameOwned, Logs, BitBlocks, Subtree;
      ghost var f, l := S(), logged;
      var ind := inodes[i].addrs[NDIRECT];
      if ind == 0 {
        SparesReflexive(f, i);
        LogsNothing(sb.bmapstart, sb.size, mem, logged);
        NoBitBlocks(sb, owner.Keys);
        assert inodes[i].addrs[NDIRECT := 0] == inodes[i].addrs;
        return;
      }
      ghost var g := Detached(f, i);
      DetachIndirect(sb, f, {}, i);
      assert {} + Subtree(f, i) == Subtree(f, i);
      EntriesDistinct(sb, f, i);
      TruncEntries(i, g);
      ghost var m, l1 := mem, logged;
      FreeTransit(ind, g, {ind});
      SameOwnedStep(g, m, mem);
      LogsBoth(sb.bmapstart, sb.size, f.mem, m, mem, l, l1, logged);
      SubtreeBitBlocks(sb, f, i);
      inodes := inodes[i := inodes[i].(addrs := inodes[i].addrs[NDIRECT := 0])];
      owner := g.owner;
      assert {ind} - {ind} == {};
      assert S() == g.(mem := mem);
      DetachedSpares(sb, f, i, mem);
    }

    /** Discard the contents of file i: every block it owned is freed, once, and no other. */
    method Itrunc(i: nat)
      requires Valid() && i < |inodes|
      modifies this
      ensures Valid() && |inodes| == old(|inodes|)
      ensures inodes[i].size == 0 && forall k | 0 <= k <= NDIRECT :: inodes[i].addrs[k] == 0
      ensures forall a :: a in owner <==> a in old(owner) && old(owner)[a].inum != i
      ensures forall j | 0 <= j < |inodes| && j != i :: inodes[j] == old(inodes[j]) && Contents(S(), j) == old(Contents(S(), j))
      ensures logged == old(logged) + TruncSet(sb, old(S()), i)
      ensures Logs(sb.inodestart, sb.size, old(mem), mem, old(logged), logged)
    {
      hide Bit, Word, Addr, PutBit, EntriesFrom, At, OwnersOk, BitsOk, Spares, FilesOk, Contents, Logs, BitBlocks, DiskInode;
      ghost var f, l := S(), logged;
      TruncDirect(i);
      ghost var g, l1 := S(), logged;
      TruncIndirect(i);
      SparesTransitive(f, g, S(), i);
      LogsBoth(sb.bmapstart, sb.size, f.mem, g.mem, mem, l, l1, logged);
      ghost var h, l2 := S(), logged;
      BothBitBlocks(sb, f.owner.Keys, g.owner.Keys, h.owner.Keys);
      inodes := inodes[i := inodes[i].(size := 0)];
      Truncated(sb, f, h, i);
      assert S() == Resized(h, i, 0);
      SparesInodes(f, h, i);
      FinishUpdate(i, f, l);
      OwnedByFile(f, h, i);
    }

    /** The iupdate that ends an operation on file i that began at f, with l logged so far. */
    method FinishUpdate(i: nat, ghost f: Fs, ghost l: set<nat>)
      requires FsOk(sb, f) && Inv(sb, S(), {}) && FilesOk(S()) && i < |inodes| == |f.inodes|
      requires forall j | 0 <= j < |inodes| && j != i :: inodes[j] == f.inodes[j]
      requires Logs(sb.bmapstart, sb.size, f.mem, mem, l, logged)
      modifies this`mem, this`logged
      ensures Valid() && logged == old(logged) + {IBlock(sb, i)}
      ensures forall s: Slot | IsSlot(old(S()), s) :: Addr(S(), s) == Addr(old(S()), s)
      ensures forall j | 0 <= j < |inodes| :: Contents(S(), j) == old(Contents(S(), j))
      ensures Logs(sb.inodestart, sb.size, f.mem, mem, l, logged)
    {
      hide Bit, Word, Addr, At, OwnersOk, BitsOk, FilesOk, Contents, Logs, DiskInode, PutInode, IBlock;
      ghost var g, l1 := S(), logged;
      InodeBlockIsMeta(sb, |inodes|, i);
      InodesUntouched(sb, |inodes|, f.mem, mem, l, logged);
      UpdatedKeeps(sb, g, i);
      Iupdate(i);
      OtherBlocks(g.mem, IBlock(sb, i), PutInode(At(g.mem, IBlock(sb, i)), i % IPB, inodes[i]));
      UpdateLogs(sb, f.mem, g.mem, mem, l, l1, IBlock(sb, i));
    }

    /** Read n bytes of file i from offset off into a destination that accepts `room` bytes. The
        result is what was copied; None is the -1 for a failed copy. Nothing is allocated. */
    method Readi(i: nat, off: Uint, n: Uint, room: nat) returns (r: Option<seq<Byte>>)
      requires Valid() && i < |inodes|
      modifies this`mem, this`inodes, this`owner, this`logged
      ensures S() == old(S()) && logged == old(logged)
      ensures r.None? <==> |ReadSlice(old(Contents(S(), i)), off, n)| > room
      ensures r.Some? ==> r.value == ReadSlice(old(Contents(S(), i)), off, n)
      ensures off <= inodes[i].size && off + n < UINT_LIMIT ==>
                var len := if n <= inodes[i].size - off then n else inodes[i].size - off;
                && (r.Some? <==> len <= room)
                && (r.Some? ==> |r.value| == len && forall k | 0 <= k < len :: r.value[k] == Contents(S(), i)[off + k])
      ensures off > inodes[i].size || off + n >= UINT_LIMIT ==> r == Some([])
    {
      hide Bit, Word, Addr, At, Grows, OwnersOk, BitsOk, BlockSet, FileByte, Contents, DiskInode;
      ghost var f := S();
      ghost var file := Contents(f, i);
      var size := inodes[i].size;
      if off > size || (off + n) % UINT_LIMIT < off {
        return Some([]);
      }
      var len := if off + n > size then size - off else n;
      var out: seq<Byte> := [];
      var o := off;
      while |out| < len
        invariant 0 <= |out| <= len && o == off + |out|
        invariant S() == f && logged == old(logged)
        invariant out == file[off..o] && |out| <= room
        decreases len - |out|
      {
        var m := Min(len - |out|, BSIZE - o % BSIZE);
        if |out| + m > room { // copyout fails
          return None;
        }
        var part := ReadPart(i, o, m);
        assert file[off..o] + file[o..o + m] == file[off..o + m];
        out := out + part;
        o := o + m;
      }
      return Some(out);
    }

    /** Bytes o up to o + m of file i, which lie in one block. */
    method ReadPart(i: nat, o: nat, m: nat) returns (part: seq<Byte>)
      requires Valid() && i < |inodes| && o + m <= inodes[i].size && 0 < m <= BSIZE - o % BSIZE
      modifies this`mem, this`inodes, this`owner, this`logged
      ensures S() == old(S()) && logged == old(logged) && part == Contents(S(), i)[o..o + m]
    {
      hide Bit, Word, Addr, At, Grows, OwnersOk, BitsOk, BlockSet, FileByte;
      ghost var f := S();
      BlockThere(sb, f, i, o);
      var a := Bmap(i, o / BSIZE);
      assert a.Some?;
      var blk := At(mem, a.value);
      ReadChunk(f, i, o, m);
      part := blk[o % BSIZE..o % BSIZE + m];
    }

    /** Store a part of the data in the block a that bmap gave for offset o; the write began at
        contents m0, with l0 logged. */
    method StorePart(i: nat, o: nat, a: Uint, part: seq<Byte>, ghost m0: Disk, ghost l0: set<nat>)
      requires Inv(sb, S(), {}) && i < |inodes| && o < MAXFILE * BSIZE && o % BSIZE + |part| <= BSIZE
      requires a != 0 && a == Addr(S(), SlotOf(i, o / BSIZE)) && Logs(sb.bmapstart, sb.size, m0, mem, l0, logged)
      modifies this`mem, this`logged
      ensures S() == StoreChunk(old(S()), i, o, part) && logged == old(logged) + {a}
      ensures Logs(sb.bmapstart, sb.size, m0, mem, l0, logged)
    {
      hide Bit, Addr, At, OwnersOk, BitsOk, Logs, SpliceBlock;
      DataLogs(sb, S(), i, o / BSIZE, m0, l0, logged, SpliceBlock(At(mem, a), o % BSIZE, part));
      LogWrite(a, SpliceBlock(At(mem, a), o % BSIZE, part));
    }

    /** One turn of the loop of writei: a copied part, a failed copy, or the panic of bmap. The
        write began at f0, with l0 logged. */
    method WriteTurn(i: nat, off: nat, src: seq<Byte>, avail: nat, tot: nat, ghost f0: Fs, ghost l0: set<nat>)
      returns (turn: Turn, m: nat)
      requires Writes(sb, f0, S(), i, off, src, tot, l0, logged) && tot < |src| && AtBlock(off, tot)
      requires Logs(sb.bmapstart, sb.size, f0.mem, mem, l0, logged)
      modifies this`mem, this`inodes, this`owner, this`logged
      ensures Logs(sb.bmapstart, sb.size, f0.mem, mem, l0, logged)
      ensures turn == NoBlock ==> (forall c: nat | c < sb.size :: Bit(sb, mem, c)) && |logged - l0| <= LogCost(off, |src|)
      ensures turn == Failed ==>
                && avail < |src| && WroteBlocks(sb, f0, S(), i, off, src, tot, l0, logged)
                && (tot <= avail ==> StopsShort(off, |src|, avail, tot))
      ensures turn == Copied ==>
                && 0 < m && tot + m <= |src| && tot + m <= avail && (tot + m < |src| ==> AtBlock(off, tot + m))
                && Writes(sb, f0, S(), i, off, src, tot + m, l0, logged)
    {
      hide Bit, Word, Addr, At, OwnersOk, BitsOk, FilesOk, Grows, Stored, Progress, BlockSet, WriteSet, Touched, BlockMapped, Logs, LogCost, HalfMapped, SpliceBlock;
      ghost var f, l := S(), logged;
      var o := off + tot;
      assert o / BSIZE < MAXFILE;
      var a := Bmap(i, o / BSIZE);
      LogsBoth(sb.bmapstart, sb.size, f0.mem, f.mem, mem, l0, l, logged);
      if a.None? {
        PanicCost(sb, f0, f, S(), i, off, src, tot, l0, l, logged);
        return NoBlock, 0;
      }
      ghost var h := S();
      MappedAddrs(sb, f, h, i, o / BSIZE);
      m := Min(|src| - tot, BSIZE - o % BSIZE);
      if tot + m > avail { // copyin fails
        WritingFails(sb, f0, f, h, i, off, src, tot, o / BSIZE);
        return Failed, m;
      }
      StorePart(i, o, a.value, src[tot..tot + m], f0.mem, l0);
      WritingStep(sb, f0, f, h, S(), i, off, src, tot, m, o / BSIZE);
      return Copied, m;
    }

    /** The loop of writei: copy block by block until done or a copy from the source, which can
        deliver `avail` bytes, fails. False is the panic of bmap. */
    method WriteBlocks(i: nat, off: nat, src: seq<Byte>, avail: nat) returns (ok: bool, tot: nat)
      requires Valid() && i < |inodes| && off <= inodes[i].size && off + |src| <= MAXFILE * BSIZE
      modifies this`mem, this`inodes, this`owner, this`logged
      ensures ok ==>
                && tot <= |src| && (tot == |src| <==> |src| <= avail) && (tot < |src| ==> StopsShort(off, |src|, avail, tot))
                && WroteBlocks(sb, old(S()), S(), i, off, src, tot, old(logged), logged)
      ensures !ok ==> (forall c: nat | c < sb.size :: Bit(sb, mem, c)) && |logged - old(logged)| <= LogCost(off, |src|)
      ensures Logs(sb.bmapstart, sb.size, old(mem), mem, old(logged), logged)
    {
      hide Bit, Writes, WroteBlocks, Logs, LogCost, OwnersOk, BitsOk, FilesOk, DiskInode;
      ghost var f0, l0 := S(), logged;
      WritesNothing(sb, f0, i, off, src, l0);
      LogsNothing(sb.bmapstart, sb.size, mem, logged);
      tot := 0;
      while tot < |src|
        invariant tot <= |src| && tot <= avail
        invariant Writes(sb, f0, S(), i, off, src, tot, l0, logged)
        invariant tot < |src| ==> AtBlock(off, tot)
        invariant Logs(sb.bmapstart, sb.size, f0.mem, mem, l0, logged)
      {
        var turn, m := WriteTurn(i, off, src, avail, tot, f0, l0);
        if turn == NoBlock {
          return false, tot;
        }
        if turn == Failed {
          return true, tot;
        }
        tot := tot + m;
      }
      WritingDone(sb, f0, S(), i, off, src, l0, logged);
      return true, tot;
    }

    /** Write src to file i at offset off; the source can deliver `avail` bytes. The file then reads
        as before with the stored bytes spliced in, and every other file is untouched. */
    method Writei(i: nat, off: Uint, src: seq<Byte>, avail: nat) returns (r: WriteResult)
      requires Valid() && i < |inodes| && |src| < UINT_LIMIT
      modifies this
      ensures r.Panic? ==> forall c: nat | c < sb.size :: Bit(sb, mem, c)
      ensures r == Ret(-1) <==> Refused(old(inodes[i].size), off, |src|)
      ensures r == Ret(-1) ==> S() == old(S()) && logged == old(logged)
      ensures r.Ret? && r.n != -1 ==>
                && Valid()
                && 0 <= r.n <= |src| && (r.n == |src| <==> |src| <= avail) && (r.n < |src| ==> StopsShort(off, |src|, avail, r.n))
                && Wrote(old(S()), S(), i, off, src[..r.n])
                && IBlock(sb, i) in logged
      ensures |logged - old(logged)| <= LogCost(off, |src|)
      ensures Logs(sb.inodestart, sb.size, old(mem), mem, old(logged), logged)
    {
      hide Bit, Word, Addr, At, OwnersOk, BitsOk, FilesOk, Grows, Stored, WriteSet, Touched, Contents, Splice, LogCost, Logs, DiskInode, KeepsAddrs, Wrote;
      var size, n := inodes[i].size, |src|;
      LogsNothing(sb.inodestart, sb.size, mem, logged);
      assert logged - logged == {};
      if off > size || (off + n) % UINT_LIMIT < off {
        return Ret(-1);
      }
      if off + n > MAXFILE * BSIZE {
        return Ret(-1);
      }
      ghost var f0, l0 := S(), logged;
      var ok, tot := WriteBlocks(i, off, src, avail);
      if !ok {
        LogsWider(sb, f0.mem, mem, l0, logged);
        return Panic;
      }
      ghost var f := S();
      StoredSize(f0, f, i, off, src, tot);
      if off + tot > size {
        inodes := inodes[i := inodes[i].(size := off + tot)];
      }
      assert S() == Resized(f, i, FsWrite.Max(size, off + tot));
      ResizedKeeps(sb, f, {}, i, FsWrite.Max(size, off + tot));
      StoredContents(sb, f0, f, i, off, src, tot, S());
      WriteCost(sb, f0, f, i, off, n, IBlock(sb, i));
      ghost var ws := WriteSet(sb, f0, f, i, off / BSIZE, Touched(off, n)) + {IBlock(sb, i)};
      ghost var g := S();
      FinishUpdate(i, f0, l0);
      WroteIs(f0, g, S(), i, off, src[..tot]);
      SubsetSize(logged - old(logged), ws);
      return Ret(tot);
    }

    /** One chunk of filewrite, between begin_op and end_op. */
    method WriteChunk(i: nat, off: Uint, data: seq<Byte>, avail: nat) returns (r: WriteResult, ghost t: Chunk)
      requires Valid() && i < |inodes| && |data| <= CHUNK
      modifies this
      ensures t == Chunk(logged, S()) && OneTxn(sb, old(S()), t)
      ensures r.Panic? ==> forall c: nat | c < sb.size :: Bit(sb, mem, c)
      ensures r == Ret(-1) <==> Refused(old(inodes[i].size), off, |data|)
      ensures r == Ret(-1) ==> S() == old(S())
      ensures r.Ret? && r.n != -1 ==>
                && Valid()
                && 0 <= r.n <= |data| && (r.n == |data| <==> |data| <= avail) && (r.n < |data| ==> StopsShort(off, |data|, avail, r.n))
                && Wrote(old(S()), S(), i, off, data[..r.n])
                && IBlock(sb, i) in t.logged
    {
      hide Bit, LogCost, Wrote, Logs, FsOk;
      logged := {};
      ChunkFits(off, |data|);
      r := Writei(i, off, data, avail);
      assert logged - {} == logged;
      t := Chunk(logged, S());
    }

    /** filewrite on an inode: chunks of at most three blocks, each a transaction of its own. txns
        holds for each chunk sent to writei, a panicking one included, the blocks it logged and the
        state it left; k bytes are stored, and newoff is the new file offset. */
    method Filewrite(i: nat, off: Uint, src: seq<Byte>, avail: nat)
      returns (r: WriteResult, newoff: Uint, ghost txns: seq<Chunk>, ghost k: nat)
      requires Valid() && i < |inodes| && |src| < UINT_LIMIT
      modifies this
      ensures Chained(sb, old(S()), txns) && S() == After(old(S()), txns, |txns|)
      ensures k <= |src| && newoff == off + k && |txns| == ChunkCount(|src|, k)
      ensures r.Panic? ==> k < |src| && |txns| > 0 && k == (|txns| - 1) * CHUNK && forall c: nat | c < sb.size :: Bit(sb, mem, c)
      ensures ChunksWrote(sb, old(S()), txns, if r.Panic? then |txns| - 1 else |txns|, i, off, src, k)
      ensures r.Ret? ==>
                && Valid()
                && r.n == (if k == |src| then |src| else -1)
                && WroteOr(old(S()), S(), i, off, src[..k])
                && (k == |src| <==> |src| == 0 || (!Refused(old(inodes[i].size), off, |src|) && |src| <= avail))
                && (k < |src| ==> EndsShort(old(inodes[i].size), off, |src|, avail, k))
    {
      hide Bit, Wrote, Logs, FsOk, OneTxn, Chained, ChunksWrote, ChunkWrote, WroteOr, ChunkCount, Sent, After, StopsShort, EndsShort;
      var max := (MAXOPBLOCKS - 1 - 1 - 2) / 2 * BSIZE;
      var n, done := |src|, 0;
      ghost var f0, size0 := S(), inodes[i].size;
      txns, k, newoff := [], 0, off;
      NothingWritten(sb, f0, i, off, src);
      while done < n
        invariant 0 <= done <= n && k == done && newoff == off + done
        invariant Valid() && S() == After(f0, txns, |txns|) && Sent(sb, f0, txns, i, off, src, done)
        invariant done > 0 ==> !Refused(size0, off, done) && done <= avail
      {
        var n1 := if n - done > max then max else n - done;
        SentSays(sb, f0, txns, i, off, src, done);
        WroteOrSize(f0, S(), i, off, src[..done]);
        ghost var before, size1, t := txns, inodes[i].size, Chunk({}, S());
        r, t := WriteChunk(i, newoff, src[done..done + n1], if avail > done then avail - done else 0);
        txns := txns + [t];
        if r.Panic? {
          ChainedMore(sb, f0, before, t);
          ChunksKept(sb, f0, before, t, i, off, src, k);
          return;
        }
        if r.n > 0 {
          newoff := newoff + r.n;
          k := k + r.n;
        }
        ChunkAdds(sb, f0, before, t, i, off, src, done, n1, r.n, k);
        if r.n != n1 {
          ChunkStops(size0, size1, off, n, avail, |before|, r.n, k);
          break;
        }
        done := done + r.n;
      }
      if done == n {
        SentSays(sb, f0, txns, i, off, src, done);
      }
      r := Ret(if done == n then n else -1);
    }
  }
}
