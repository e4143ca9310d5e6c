/** What a write to a file does to its bytes, and which blocks it logs, as values. */
module FsWrite {
  import opened Blocks
  import opened Counting
  import opened FsModel

  // ------------------------------------------------------------------ bytes

  function SpliceBlock(blk: Block, o: nat, data: seq<Byte>): (r: Block)
    requires o + |data| <= BSIZE
  {
    blk[..o] + data + blk[o + |data|..]
  }

  /** File f with data stored at offset off, within one block. */
  ghost function StoreChunk(f: Fs, i: nat, off: nat, data: seq<Byte>): (g: Fs)
    requires Shape(f) && i < |f.inodes| && off < MAXFILE * BSIZE && off % BSIZE + |data| <= BSIZE
    ensures Shape(g) && g.inodes == f.inodes && g.owner == f.owner
  {
    var a := Addr(f, SlotOf(i, off / BSIZE));
    f.(mem := f.mem[a := SpliceBlock(At(f.mem, a), off % BSIZE, data)])
  }

  ghost predicate Allocated(f: Fs, i: nat, off: nat)
    requires Shape(f) && i < |f.inodes|
  {
    off < MAXFILE * BSIZE && Addr(f, SlotOf(i, off / BSIZE)) != 0
  }

  lemma StoreKeeps(sb: Super, f: Fs, i: nat, off: nat, data: seq<Byte>)
    requires Inv(sb, f, {}) && i < |f.inodes| && Allocated(f, i, off) && off % BSIZE + |data| <= BSIZE
    ensures var g := StoreChunk(f, i, off, data);
            && Inv(sb, g, {})
            && (forall s: Slot | IsSlot(f, s) :: Addr(g, s) == Addr(f, s))
  {
    hide Addr, Bit;
    var a := Addr(f, SlotOf(i, off / BSIZE));
    WriteKeeps(sb, f, {}, SlotOf(i, off / BSIZE), SpliceBlock(At(f.mem, a), off % BSIZE, data));
  }

  lemma StoreBytes(sb: Super, f: Fs, i: nat, off: nat, data: seq<Byte>, j: nat, p: nat)
    requires Inv(sb, f, {}) && i < |f.inodes| && Allocated(f, i, off) && off % BSIZE + |data| <= BSIZE
    requires j < |f.inodes| && Allocated(f, j, p)
    ensures FileByte(StoreChunk(f, i, off, data), j, p)
         == if j == i && off <= p < off + |data| then data[p - off] else FileByte(f, j, p)
  {
    hide Addr, Bit;
    StoreKeeps(sb, f, i, off, data);
    var s, t := SlotOf(i, off / BSIZE), SlotOf(j, p / BSIZE);
    assert off <= p < off + |data| ==> p / BSIZE == off / BSIZE;
    if s == t {
      assert off / BSIZE == p / BSIZE;
      assert off == off / BSIZE * BSIZE + off % BSIZE && p == p / BSIZE * BSIZE + p % BSIZE;
    } else {
      assert IsSlot(f, s) && IsSlot(f, t) && Addr(f, s) != Addr(f, t);
    }
  }

  /** No block that f has in use moves. */
  ghost predicate KeepsAddrs(f: Fs, g: Fs)
    requires Shape(f) && Shape(g)
  {
    forall s: Slot | IsSlot(f, s) && Addr(f, s) != 0 :: IsSlot(g, s) && Addr(g, s) == Addr(f, s)
  }

  /** f0 went to f by storing the first tot bytes of src at off in file i. */
  ghost predicate Stored(f0: Fs, f: Fs, i: nat, off: nat, src: seq<Byte>, tot: nat)
    requires Shape(f0) && Shape(f) && FilesOk(f0) && i < |f0.inodes| && tot <= |src|
  {
    && |f.inodes| == |f0.inodes| && KeepsAddrs(f0, f)
    && (forall j | 0 <= j < |f0.inodes| :: f.inodes[j].size == f0.inodes[j].size)
    && (forall j | 0 <= j < |f0.inodes| && j != i :: f.inodes[j] == f0.inodes[j])
    && (forall j, p: nat | 0 <= j < |f0.inodes| && p < f0.inodes[j].size && !(j == i && off <= p < off + tot) ::
          Allocated(f, j, p) && FileByte(f, j, p) == FileByte(f0, j, p))
    && (forall p: nat | off <= p < off + tot :: Allocated(f, i, p) && FileByte(f, i, p) == src[p - off])
  }

  lemma StoredGrows(f0: Fs, f: Fs, g: Fs, i: nat, off: nat, src: seq<Byte>, tot: nat)
    requires Shape(f0) && Shape(f) && Shape(g) && FilesOk(f0) && i < |f0.inodes| && tot <= |src|
    requires Stored(f0, f, i, off, src, tot) && Grows(f, g)
    requires forall j | 0 <= j < |f.inodes| && j != i :: g.inodes[j] == f.inodes[j]
    ensures Stored(f0, g, i, off, src, tot)
  {
    hide Addr, At;
    forall j, p: nat | 0 <= j < |f.inodes| && Allocated(f, j, p)
      ensures Allocated(g, j, p) && FileByte(g, j, p) == FileByte(f, j, p)
    {
      assert IsSlot(f, SlotOf(j, p / BSIZE)) && Addr(f, SlotOf(j, p / BSIZE)) != 0;
    }
  }

  lemma StoredMore(sb: Super, f0: Fs, f: Fs, i: nat, off: nat, src: seq<Byte>, tot: nat, m: nat)
    requires Shape(f0) && FilesOk(f0) && Inv(sb, f, {}) && i < |f0.inodes| && tot + m <= |src|
    requires Stored(f0, f, i, off, src, tot)
    requires Allocated(f, i, off + tot) && (off + tot) % BSIZE + m <= BSIZE
    ensures Stored(f0, StoreChunk(f, i, off + tot, src[tot..tot + m]), i, off, src, tot + m)
  {
    hide Addr, FileByte, Bit;
    var o, data := off + tot, src[tot..tot + m];
    var g := StoreChunk(f, i, o, data);
    StoreKeeps(sb, f, i, o, data);
    forall j, p: nat | 0 <= j < |f.inodes| && Allocated(f, j, p)
      ensures Allocated(g, j, p)
      ensures FileByte(g, j, p) == if j == i && o <= p < o + m then data[p - o] else FileByte(f, j, p)
    {
      assert IsSlot(f, SlotOf(j, p / BSIZE));
      StoreBytes(sb, f, i, o, data, j, p);
    }
    forall p: nat | off <= p < off + tot + m
      ensures Allocated(g, i, p) && FileByte(g, i, p) == src[p - off]
    {
      if p >= o {
        assert p / BSIZE == o / BSIZE;
      }
      assert Allocated(f, i, p);
    }
  }

  /** old with data stored at off; off is at most the length. */
  ghost function Splice(old_: seq<Byte>, off: nat, data: seq<Byte>): (r: seq<Byte>)
    requires off <= |old_|
  {
    old_[..off] + data + if off + |data| < |old_| then old_[off + |data|..] else []
  }

  ghost function Max(a: nat, b: nat): (r: nat) {
    if a < b then b else a
  }

  /** After the size is updated, the file reads as the old bytes with the new ones spliced in. */
  lemma StoredContents(sb: Super, f0: Fs, f: Fs, i: nat, off: nat, src: seq<Byte>, tot: nat, g: Fs)
    requires Shape(f0) && FilesOk(f0) && Inv(sb, f, {}) && i < |f0.inodes| && tot <= |src|
    requires Stored(f0, f, i, off, src, tot) && off <= f0.inodes[i].size && off + tot <= MAXFILE * BSIZE
    requires Inv(sb, g, {}) && g == f.(inodes := f.inodes[i := f.inodes[i].(size := Max(f0.inodes[i].size, off + tot))])
    requires forall s: Slot | IsSlot(f, s) :: Addr(g, s) == Addr(f, s)
    ensures FilesOk(g) && KeepsAddrs(f0, g)
    ensures Contents(g, i) == Splice(Contents(f0, i), off, src[..tot])
    ensures forall j | 0 <= j < |f0.inodes| && j != i :: Contents(g, j) == Contents(f0, j)
  {
    hide Addr, At, Bit, FileByte, OwnersOk, BitsOk, Stored, Contents, Splice;
    StoredSize(f0, f, i, off, src, tot);
    forall j, p: nat | 0 <= j < |g.inodes| && p < g.inodes[j].size
      ensures Allocated(g, j, p)
      ensures FileByte(g, j, p) == if j == i && off <= p < off + tot then src[p - off] else FileByte(f0, j, p)
    {
      StoredByte(f0, f, i, off, src, tot, g, j, p);
    }
    forall j, bn: nat | 0 <= j < |g.inodes| && bn < MAXFILE && bn * BSIZE < g.inodes[j].size
      ensures Addr(g, SlotOf(j, bn)) != 0
    {
      assert Allocated(g, j, bn * BSIZE) && bn * BSIZE / BSIZE == bn;
    }
    assert FilesOk(g);
    SpliceAt(Contents(f0, i), off, src[..tot]);
    var r := Splice(Contents(f0, i), off, src[..tot]);
    forall p | 0 <= p < |r| ensures Contents(g, i)[p] == r[p] {
      assert FileByte(g, i, p) == if off <= p < off + tot then src[p - off] else FileByte(f0, i, p);
    }
    forall j | 0 <= j < |f0.inodes| && j != i ensures Contents(g, j) == Contents(f0, j) {
      assert |Contents(g, j)| == |Contents(f0, j)|;
    }
  }

  lemma SpliceAt(old_: seq<Byte>, off: nat, data: seq<Byte>)
    requires off <= |old_|
    ensures |Splice(old_, off, data)| == Max(|old_|, off + |data|)
    ensures forall p | 0 <= p < |Splice(old_, off, data)| ::
              Splice(old_, off, data)[p] == if off <= p < off + |data| then data[p - off] else old_[p]
  {
  }

  lemma StoredSize(f0: Fs, f: Fs, i: nat, off: nat, src: seq<Byte>, tot: nat)
    requires Shape(f0) && FilesOk(f0) && Shape(f) && i < |f0.inodes| && tot <= |src| && Stored(f0, f, i, off, src, tot)
    ensures |f.inodes| == |f0.inodes| && KeepsAddrs(f0, f)
    ensures forall j | 0 <= j < |f0.inodes| :: f.inodes[j].size == f0.inodes[j].size
    ensures forall j | 0 <= j < |f0.inodes| && j != i :: f.inodes[j] == f0.inodes[j]
  {
  }

  /** One byte of a file after the size of file i is updated. */
  lemma StoredByte(f0: Fs, f: Fs, i: nat, off: nat, src: seq<Byte>, tot: nat, g: Fs, j: nat, p: nat)
    requires Shape(f0) && FilesOk(f0) && Shape(f) && Shape(g) && i < |f0.inodes| && tot <= |src|
    requires Stored(f0, f, i, off, src, tot) && off <= f0.inodes[i].size
    requires g.mem == f.mem && |g.inodes| == |f.inodes|
    requires forall s: Slot | IsSlot(f, s) :: Addr(g, s) == Addr(f, s)
    requires j < |f0.inodes| && p < if j == i then Max(f0.inodes[i].size, off + tot) else f0.inodes[j].size
    ensures Allocated(g, j, p) && (!(j == i && off <= p < off + tot) ==> p < f0.inodes[j].size <= MAXFILE * BSIZE)
    ensures FileByte(g, j, p) == if j == i && off <= p < off + tot then src[p - off] else FileByte(f0, j, p)
  {
    hide Addr, At;
    assert Allocated(f, j, p);
    assert IsSlot(f, SlotOf(j, p / BSIZE));
  }

  // ------------------------------------------------------------------ logged blocks

  /** Going from contents m0 to m1 and from l0 to l1, only blocks from lo up to hi were logged, and
      no other block changed. */
  ghost predicate Logs(lo: nat, hi: nat, m0: Disk, m1: Disk, l0: set<nat>, l1: set<nat>) {
    && l0 <= l1
    && (forall b | b in l1 && b !in l0 :: lo <= b < hi)
    && (forall b: nat | b !in l1 || b < lo :: At(m1, b) == At(m0, b))
  }

  lemma LogsNothing(lo: nat, hi: nat, m: Disk, l: set<nat>)
    ensures Logs(lo, hi, m, m, l, l)
  {
  }

  lemma LogsBlock(lo: nat, hi: nat, m: Disk, l: set<nat>, b: nat, blk: Block)
    requires lo <= b < hi
    ensures Logs(lo, hi, m, m[b := blk], l, l + {b})
  {
  }

  lemma LogsBoth(lo: nat, hi: nat, m0: Disk, m1: Disk, m2: Disk, l0: set<nat>, l1: set<nat>, l2: set<nat>)
    requires Logs(lo, hi, m0, m1, l0, l1) && Logs(lo, hi, m1, m2, l1, l2)
    ensures Logs(lo, hi, m0, m2, l0, l2)
  {
  }

  /** What bmap of block bn logs, going from f to g. */
  ghost function BlockSet(sb: Super, f: Fs, g: Fs, i: nat, bn: nat): (r: set<nat>)
    requires Shape(f) && Shape(g) && i < |f.inodes| == |g.inodes| && bn < MAXFILE
  {
    var a, ind := Addr(g, SlotOf(i, bn)), g.inodes[i].addrs[NDIRECT];
    (if Addr(f, SlotOf(i, bn)) != 0 then {}
     else {a, BBlock(sb, a)} + if bn < NDIRECT then {} else {ind})
    + (if bn < NDIRECT || f.inodes[i].addrs[NDIRECT] != 0 then {} else {ind, BBlock(sb, ind)})
  }

  /** The step from f to g gave block bn of file i a block, if it had none. */
  ghost predicate BlockMapped(sb: Super, f: Fs, g: Fs, i: nat, bn: nat)
    requires Shape(f) && i < |f.inodes| && bn < MAXFILE
  {
    var s0 := SlotOf(i, bn);
    && Inv(sb, g, {}) && Grows(f, g)
    && Addr(g, s0) != 0
    && (forall s: Slot | IsSlot(f, s) && s != s0 && s != Slot(i, NDIRECT) :: Addr(g, s) == Addr(f, s))
    && (bn < NDIRECT ==> Addr(g, Slot(i, NDIRECT)) == Addr(f, Slot(i, NDIRECT)))
    && (if Addr(f, s0) != 0 then g == f else At(g.mem, Addr(g, s0)) == ZERO_BLOCK)
    && (forall j | 0 <= j < |f.inodes| && j != i :: g.inodes[j] == f.inodes[j])
  }

  /** The file blocks that n bytes at off fall in. */
  ghost function Touched(off: nat, n: nat): (t: nat) {
    if n == 0 then 0 else (off + n - 1) / BSIZE - off / BSIZE + 1
  }

  /** What writing t blocks from bn0 logs, besides the inode, going from f to g. */
  ghost function WriteSet(sb: Super, f: Fs, g: Fs, i: nat, bn0: nat, t: nat): (r: set<nat>)
    requires Shape(f) && Shape(g) && i < |f.inodes| == |g.inodes| && bn0 + t <= MAXFILE
  {
    if t == 0 then {}
    else
      var bn := bn0 + t - 1;
      WriteSet(sb, f, g, i, bn0, t - 1) + BlockSet(sb, f, g, i, bn) + {Addr(g, SlotOf(i, bn))}
  }

  /** From f0 to f, only blocks bn0 .. bn0+t-1 of file i, and its indirect block, were added. */
  ghost predicate Progress(f0: Fs, f: Fs, i: nat, bn0: nat, t: nat)
    requires Shape(f0) && Shape(f) && i < |f0.inodes| == |f.inodes| && bn0 + t <= MAXFILE
  {
    && (forall bn | bn0 <= bn < bn0 + t :: Addr(f, SlotOf(i, bn)) != 0)
    && (forall bn: nat | bn0 + t <= bn < MAXFILE :: Addr(f, SlotOf(i, bn)) == Addr(f0, SlotOf(i, bn)))
    && (f0.inodes[i].addrs[NDIRECT] != 0 ==> f.inodes[i].addrs[NDIRECT] == f0.inodes[i].addrs[NDIRECT])
    && (f0.inodes[i].addrs[NDIRECT] == 0 && f.inodes[i].addrs[NDIRECT] != 0 ==> t > 0 && bn0 + t - 1 >= NDIRECT)
  }

  /** The addresses of file i that one bmap leaves alone. */
  lemma MappedAddrs(sb: Super, f: Fs, g: Fs, i: nat, bn: nat)
    requires Shape(f) && i < |f.inodes| && bn < MAXFILE && BlockMapped(sb, f, g, i, bn)
    ensures Inv(sb, g, {}) && |g.inodes| == |f.inodes| && Addr(g, SlotOf(i, bn)) != 0
    ensures forall k: nat | k < MAXFILE && k != bn :: Addr(g, SlotOf(i, k)) == Addr(f, SlotOf(i, k))
    ensures f.inodes[i].addrs[NDIRECT] != 0 || bn < NDIRECT ==> g.inodes[i].addrs[NDIRECT] == f.inodes[i].addrs[NDIRECT]
  {
    hide Addr, Bit, At, OwnersOk, BitsOk;
    PointerAddr(f, i, NDIRECT);
    PointerAddr(g, i, NDIRECT);
    forall k: nat | k < MAXFILE && k != bn ensures Addr(g, SlotOf(i, k)) == Addr(f, SlotOf(i, k)) {
      assert IsSlot(f, SlotOf(i, k));
    }
  }

  lemma ProgressStep(sb: Super, f0: Fs, f: Fs, g: Fs, i: nat, bn0: nat, t: nat)
    requires Shape(f0) && Shape(f) && i < |f0.inodes| == |f.inodes| && bn0 + t < MAXFILE
    requires Progress(f0, f, i, bn0, t) && BlockMapped(sb, f, g, i, bn0 + t)
    ensures |g.inodes| == |f.inodes| && Progress(f0, g, i, bn0, t + 1)
  {
    hide Addr, Bit, At, OwnersOk, BitsOk, Grows;
    MappedAddrs(sb, f, g, i, bn0 + t);
  }

  lemma WriteSetStep(sb: Super, f0: Fs, f: Fs, g: Fs, i: nat, bn0: nat, t: nat)
    requires Shape(f0) && Shape(f) && i < |f0.inodes| == |f.inodes| && bn0 + t < MAXFILE
    requires Progress(f0, f, i, bn0, t) && BlockMapped(sb, f, g, i, bn0 + t)
    ensures |g.inodes| == |f.inodes|
    ensures WriteSet(sb, f0, g, i, bn0, t + 1)
         == WriteSet(sb, f0, f, i, bn0, t) + BlockSet(sb, f, g, i, bn0 + t) + {Addr(g, SlotOf(i, bn0 + t))}
  {
    hide Addr, Bit, At, OwnersOk, BitsOk, BlockMapped, WriteSet;
    MappedAddrs(sb, f, g, i, bn0 + t);
    WriteSetFrame(sb, f0, f, g, i, bn0, t);
    WriteSetUnfold(sb, f0, g, i, bn0, t + 1);
    if t == 0 {
      WriteSetNone(sb, f0, f, i, bn0);
    } else if f0.inodes[i].addrs[NDIRECT] == 0 && bn0 + t - 1 >= NDIRECT {
      IndirectLogged(sb, f0, g, i, bn0, t);
    }
  }

  lemma WriteSetNone(sb: Super, f: Fs, g: Fs, i: nat, bn0: nat)
    requires Shape(f) && Shape(g) && i < |f.inodes| == |g.inodes| && bn0 <= MAXFILE
    ensures WriteSet(sb, f, g, i, bn0, 0) == {}
  {
  }

  /** Later steps do not change what the earlier blocks logged. */
  lemma {:induction false} WriteSetFrame(sb: Super, f0: Fs, f: Fs, g: Fs, i: nat, bn0: nat, t: nat)
    requires Shape(f0) && Shape(f) && Shape(g) && i < |f0.inodes| == |f.inodes| == |g.inodes| && bn0 + t <= MAXFILE
    requires forall bn | bn0 <= bn < bn0 + t :: Addr(g, SlotOf(i, bn)) == Addr(f, SlotOf(i, bn)) != 0
    requires f.inodes[i].addrs[NDIRECT] != 0 ==> g.inodes[i].addrs[NDIRECT] == f.inodes[i].addrs[NDIRECT]
    ensures WriteSet(sb, f0, g, i, bn0, t) == WriteSet(sb, f0, f, i, bn0, t)
  {
    hide Addr, BlockSet;
    if t > 0 {
      WriteSetFrame(sb, f0, f, g, i, bn0, t - 1);
      BlockSetFrame(sb, f0, f, g, i, bn0 + t - 1);
    }
  }

  lemma BlockSetFrame(sb: Super, f0: Fs, f: Fs, g: Fs, i: nat, bn: nat)
    requires Shape(f0) && Shape(f) && Shape(g) && i < |f0.inodes| == |f.inodes| == |g.inodes| && bn < MAXFILE
    requires Addr(g, SlotOf(i, bn)) == Addr(f, SlotOf(i, bn)) != 0
    requires f.inodes[i].addrs[NDIRECT] != 0 ==> g.inodes[i].addrs[NDIRECT] == f.inodes[i].addrs[NDIRECT]
    ensures BlockSet(sb, f0, g, i, bn) == BlockSet(sb, f0, f, i, bn)
  {
  }

  lemma IndirectLogged(sb: Super, f: Fs, g: Fs, i: nat, bn0: nat, t: nat)
    requires Shape(f) && Shape(g) && i < |f.inodes| == |g.inodes| && bn0 + t <= MAXFILE
    requires f.inodes[i].addrs[NDIRECT] == 0 && t > 0 && bn0 + t - 1 >= NDIRECT
    ensures var ind := g.inodes[i].addrs[NDIRECT]; {ind, BBlock(sb, ind)} <= WriteSet(sb, f, g, i, bn0, t)
  {
  }

  // ------------------------------------------------------------------ how many blocks a write logs

  ghost function DataSet(sb: Super, f: Fs, g: Fs, i: nat, bn0: nat, t: nat): (r: set<nat>)
    requires Shape(f) && Shape(g) && i < |f.inodes| == |g.inodes| && bn0 + t <= MAXFILE
  {
    if t == 0 then {}
    else
      var s := SlotOf(i, bn0 + t - 1);
      DataSet(sb, f, g, i, bn0, t - 1) + {Addr(g, s)} + if Addr(f, s) == 0 then {BBlock(sb, Addr(g, s))} else {}
  }

  ghost function FirstThere(f: Fs, i: nat, bn0: nat, t: nat): (e: nat)
    requires Shape(f) && i < |f.inodes| && bn0 + t <= MAXFILE
    ensures e <= 1
  {
    if t > 0 && Addr(f, SlotOf(i, bn0)) != 0 then 1 else 0
  }

  lemma {:induction false} DataSetBound(sb: Super, f: Fs, g: Fs, i: nat, bn0: nat, t: nat)
    requires Shape(f) && Shape(g) && i < |f.inodes| == |g.inodes| && bn0 + t <= MAXFILE
    ensures |DataSet(sb, f, g, i, bn0, t)| <= 2 * t - FirstThere(f, i, bn0, t)
  {
    hide Addr, BBlock, DataSet;
    if t == 0 {
      DataSetNone(sb, f, g, i, bn0);
    } else {
      DataSetBound(sb, f, g, i, bn0, t - 1);
      var s := SlotOf(i, bn0 + t - 1);
      AddTwo(DataSet(sb, f, g, i, bn0, t - 1), Addr(g, s), BBlock(sb, Addr(g, s)));
      DataSetUnfold(sb, f, g, i, bn0, t);
    }
  }

  lemma DataSetNone(sb: Super, f: Fs, g: Fs, i: nat, bn0: nat)
    requires Shape(f) && Shape(g) && i < |f.inodes| == |g.inodes| && bn0 <= MAXFILE
    ensures DataSet(sb, f, g, i, bn0, 0) == {}
  {
  }

  lemma DataSetUnfold(sb: Super, f: Fs, g: Fs, i: nat, bn0: nat, t: nat)
    requires Shape(f) && Shape(g) && i < |f.inodes| == |g.inodes| && 0 < t && bn0 + t <= MAXFILE
    ensures var s, before := SlotOf(i, bn0 + t - 1), DataSet(sb, f, g, i, bn0, t - 1);
            && (t == 1 ==> before == {})
            && DataSet(sb, f, g, i, bn0, t)
               == if Addr(f, s) == 0 then before + {Addr(g, s), BBlock(sb, Addr(g, s))} else before + {Addr(g, s)}
  {
  }

  lemma {:induction false} WriteSetCovered(sb: Super, f: Fs, g: Fs, i: nat, bn0: nat, t: nat)
    requires Shape(f) && Shape(g) && i < |f.inodes| == |g.inodes| && bn0 + t <= MAXFILE
    ensures var ind := g.inodes[i].addrs[NDIRECT];
            WriteSet(sb, f, g, i, bn0, t) <= DataSet(sb, f, g, i, bn0, t) + {ind, BBlock(sb, ind)}
  {
    hide Addr, BBlock;
    if t > 0 {
      WriteSetCovered(sb, f, g, i, bn0, t - 1);
    }
  }

  /** Bound on the blocks logged by a write of n bytes at off, inode block included. */
  ghost function LogCost(off: nat, n: nat): (c: nat) {
    2 * Touched(off, n) + 3 - if n > 0 && off % BSIZE != 0 then 1 else 0
  }

  lemma TouchedInRange(off: nat, n: nat)
    requires off + n <= MAXFILE * BSIZE
    ensures off / BSIZE + Touched(off, n) <= MAXFILE
  {
  }

  /** An unaligned write starts in a block that is there, because off is at most the size. */
  lemma UnalignedStart(f: Fs, i: nat, off: nat, n: nat)
    requires Shape(f) && FilesOk(f) && i < |f.inodes| && off <= f.inodes[i].size && off + n <= MAXFILE * BSIZE
    requires n > 0 && off % BSIZE != 0
    ensures off / BSIZE + Touched(off, n) <= MAXFILE && FirstThere(f, i, off / BSIZE, Touched(off, n)) == 1
  {
  }

  lemma WriteCost(sb: Super, f: Fs, g: Fs, i: nat, off: nat, n: nat, x: nat)
    requires Shape(f) && FilesOk(f) && Shape(g) && i < |f.inodes| == |g.inodes|
    requires off <= f.inodes[i].size && off + n <= MAXFILE * BSIZE
    ensures off / BSIZE + Touched(off, n) <= MAXFILE
    ensures |WriteSet(sb, f, g, i, off / BSIZE, Touched(off, n)) + {x}| <= LogCost(off, n)
  {
    hide Addr, DataSet, WriteSet, BBlock, FilesOk, Touched, FirstThere;
    TouchedInRange(off, n);
    var bn0, t, ind := off / BSIZE, Touched(off, n), g.inodes[i].addrs[NDIRECT];
    DataSetBound(sb, f, g, i, bn0, t);
    WriteSetCovered(sb, f, g, i, bn0, t);
    var data, ws := DataSet(sb, f, g, i, bn0, t), WriteSet(sb, f, g, i, bn0, t);
    if n > 0 && off % BSIZE != 0 {
      UnalignedStart(f, i, off, n);
    }
    AddTwo(data, ind, BBlock(sb, ind));
    SubsetSize(ws, data + {ind, BBlock(sb, ind)});
    AddTwo(ws, x, x);
  }

  lemma AddTwo(s: set<nat>, x: nat, y: nat)
    ensures |s + {x}| <= |s| + 1 && |s + {x, y}| <= |s| + 2
  {
  }

  /** A chunk of filewrite, three blocks at most, stays within MAXOPBLOCKS. */
  lemma ChunkFits(off: nat, n: nat)
    requires n <= 3 * BSIZE
    ensures LogCost(off, n) <= 10
  {
  }

  lemma WriteSetUnfold(sb: Super, f: Fs, g: Fs, i: nat, bn0: nat, t: nat)
    requires Shape(f) && Shape(g) && i < |f.inodes| == |g.inodes| && 0 < t && bn0 + t <= MAXFILE
    ensures WriteSet(sb, f, g, i, bn0, t)
         == (if t == 1 then {} else WriteSet(sb, f, g, i, bn0, t - 1))
            + BlockSet(sb, f, g, i, bn0 + t - 1) + {Addr(g, SlotOf(i, bn0 + t - 1))}
  {
  }

  // ------------------------------------------------------------------ the loop of writei

  /** The first tot of the bytes src are stored at off in file i; f0 was before, f is now. */
  ghost predicate Writing(sb: Super, f0: Fs, f: Fs, i: nat, off: nat, src: seq<Byte>, tot: nat) {
    && Inv(sb, f0, {}) && FilesOk(f0) && Inv(sb, f, {}) && i < |f0.inodes| == |f.inodes|
    && tot <= |src| && off <= f0.inodes[i].size && off + |src| <= MAXFILE * BSIZE
    && off / BSIZE + Touched(off, tot) <= MAXFILE
    && Stored(f0, f, i, off, src, tot)
    && Progress(f0, f, i, off / BSIZE, Touched(off, tot))
  }

  ghost predicate AtBlock(off: nat, tot: nat) {
    tot == 0 || (off + tot) % BSIZE == 0
  }

  ghost function LogSet(sb: Super, f0: Fs, f: Fs, i: nat, off: nat, tot: nat): (r: set<nat>)
    requires Shape(f0) && Shape(f) && i < |f0.inodes| == |f.inodes| && off / BSIZE + Touched(off, tot) <= MAXFILE
  {
    WriteSet(sb, f0, f, i, off / BSIZE, Touched(off, tot))
  }

  lemma WritingStarts(sb: Super, f: Fs, i: nat, off: nat, src: seq<Byte>)
    requires Inv(sb, f, {}) && FilesOk(f) && i < |f.inodes| && off <= f.inodes[i].size && off + |src| <= MAXFILE * BSIZE
    ensures Writing(sb, f, f, i, off, src, 0) && LogSet(sb, f, f, i, off, 0) == {}
  {
  }

  lemma NextBlock(off: nat, tot: nat, m: nat)
    requires AtBlock(off, tot) && 0 < m && (off + tot) % BSIZE + m <= BSIZE
    ensures (off + tot) / BSIZE == off / BSIZE + Touched(off, tot)
    ensures Touched(off, tot + m) == Touched(off, tot) + 1
  {
  }

  /** g is h with the m bytes from tot of src stored at offset o of file i. */
  ghost predicate Chunk(h: Fs, g: Fs, i: nat, o: nat, src: seq<Byte>, tot: nat, m: nat) {
    && o % BSIZE + m <= BSIZE && o < MAXFILE * BSIZE && tot + m <= |src|
    && Shape(h) && i < |h.inodes|
    && g == StoreChunk(h, i, o, src[tot..tot + m])
  }

  lemma StoredStep(sb: Super, f0: Fs, f: Fs, h: Fs, g: Fs, i: nat, off: nat, src: seq<Byte>, tot: nat, m: nat, bn: nat)
    requires bn == (off + tot) / BSIZE && bn < MAXFILE
    requires Chunk(h, g, i, off + tot, src, tot, m)
    requires Shape(f0) && FilesOk(f0) && Shape(f) && i < |f0.inodes| == |f.inodes|
    requires Stored(f0, f, i, off, src, tot)
    requires BlockMapped(sb, f, h, i, bn)
    ensures Inv(sb, g, {}) && Stored(f0, g, i, off, src, tot + m)
    ensures g.inodes == h.inodes && forall s: Slot | IsSlot(h, s) :: Addr(g, s) == Addr(h, s)
  {
    hide Addr, Bit, At, OwnersOk, BitsOk, FilesOk, Grows, Stored, FileByte;
    MappedAddrs(sb, f, h, i, bn);
    StoredGrows(f0, f, h, i, off, src, tot);
    StoredMore(sb, f0, h, i, off, src, tot, m);
    StoreKeeps(sb, h, i, off + tot, src[tot..tot + m]);
  }

  /** One round of the loop: bmap took f to h, and then m bytes were stored. */
  lemma WritingStep(sb: Super, f0: Fs, f: Fs, h: Fs, g: Fs, i: nat, off: nat, src: seq<Byte>, tot: nat, m: nat, bn: nat)
    requires bn == (off + tot) / BSIZE && bn < MAXFILE && 0 < m
    requires Chunk(h, g, i, off + tot, src, tot, m)
    requires Writing(sb, f0, f, i, off, src, tot) && AtBlock(off, tot)
    requires BlockMapped(sb, f, h, i, bn) && |h.inodes| == |f.inodes|
    ensures Writing(sb, f0, g, i, off, src, tot + m)
    ensures LogSet(sb, f0, g, i, off, tot + m)
         == LogSet(sb, f0, f, i, off, tot) + BlockSet(sb, f, h, i, bn) + {Addr(h, SlotOf(i, bn))}
  {
    hide Addr, Bit, At, OwnersOk, BitsOk, FilesOk, Stored, FileByte, WriteSet, BlockSet, Touched, Progress, BlockMapped;
    NextBlock(off, tot, m);
    var t, bn0 := Touched(off, tot), off / BSIZE;
    StoredStep(sb, f0, f, h, g, i, off, src, tot, m, bn);
    ProgressStep(sb, f0, f, h, i, bn0, t);
    WriteSetStep(sb, f0, f, h, i, bn0, t);
    SameAddrs(sb, f0, h, g, i, bn0, t + 1);
  }

  /** Progress and the logged blocks depend on the addresses only. */
  lemma SameAddrs(sb: Super, f0: Fs, h: Fs, g: Fs, i: nat, bn0: nat, t: nat)
    requires Shape(f0) && Shape(h) && Shape(g) && i < |f0.inodes| == |h.inodes| && bn0 + t <= MAXFILE
    requires g.inodes == h.inodes && forall s: Slot | IsSlot(h, s) :: Addr(g, s) == Addr(h, s)
    requires Progress(f0, h, i, bn0, t)
    ensures Progress(f0, g, i, bn0, t) && WriteSet(sb, f0, g, i, bn0, t) == WriteSet(sb, f0, h, i, bn0, t)
  {
    hide Addr, WriteSet;
    forall bn: nat | bn < MAXFILE ensures Addr(g, SlotOf(i, bn)) == Addr(h, SlotOf(i, bn)) {
      assert IsSlot(h, SlotOf(i, bn));
    }
    WriteSetFrame(sb, f0, h, g, i, bn0, t);
  }

  /** The copy failed right after bmap took f to h: nothing more is stored, and what bmap logged
      is within the blocks of the whole write. */
  lemma WritingFails(sb: Super, f0: Fs, f: Fs, h: Fs, i: nat, off: nat, src: seq<Byte>, tot: nat, bn: nat)
    requires bn == (off + tot) / BSIZE && bn < MAXFILE
    requires Writing(sb, f0, f, i, off, src, tot) && AtBlock(off, tot) && tot < |src|
    requires BlockMapped(sb, f, h, i, bn)
    ensures Shape(h) && |h.inodes| == |f0.inodes| && Inv(sb, h, {}) && Stored(f0, h, i, off, src, tot)
    ensures off / BSIZE + Touched(off, |src|) <= MAXFILE
    ensures LogSet(sb, f0, f, i, off, tot) + BlockSet(sb, f, h, i, bn)
         <= WriteSet(sb, f0, h, i, off / BSIZE, Touched(off, |src|))
  {
    hide Addr, Bit, At, OwnersOk, BitsOk, FilesOk, Grows, Stored, FileByte, WriteSet, BlockSet, Touched, Progress;
    NextBlock(off, tot, 1);
    TouchedInRange(off, |src|);
    TouchedGrows(off, tot + 1, |src|);
    StoredGrows(f0, f, h, i, off, src, tot);
    WriteSetStep(sb, f0, f, h, i, off / BSIZE, Touched(off, tot));
    WriteSetGrows(sb, f0, h, i, off / BSIZE, Touched(off, tot) + 1, Touched(off, |src|));
  }

  lemma TouchedGrows(off: nat, a: nat, b: nat)
    requires a <= b
    ensures Touched(off, a) <= Touched(off, b)
  {
  }

  lemma {:induction false} WriteSetGrows(sb: Super, f: Fs, g: Fs, i: nat, bn0: nat, t: nat, u: nat)
    requires Shape(f) && Shape(g) && i < |f.inodes| == |g.inodes| && t <= u && bn0 + u <= MAXFILE
    ensures WriteSet(sb, f, g, i, bn0, t) <= WriteSet(sb, f, g, i, bn0, u)
  {
    hide Addr, BlockSet;
    if t < u {
      WriteSetGrows(sb, f, g, i, bn0, t, u - 1);
    }
  }
}