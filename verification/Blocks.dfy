/** Disk blocks: BSIZE bytes, with the little-endian 32-bit words that the kernel reads out of
    them by casting `b->data` (the log header, indirect blocks), and the disk as a map. */
module Blocks {
  const BSIZE := 1024
  const WORDS_PER_BLOCK := 256
  const UINT_LIMIT := 0x1_0000_0000

  type Byte = x: int | 0 <= x < 256
  type Block = b: seq<Byte> | |b| == BSIZE witness Zeros(1024)
  type Uint = x: int | 0 <= x < UINT_LIMIT

  function Zeros(n: nat): (r: seq<Byte>)
    ensures |r| == n && forall i | 0 <= i < n :: r[i] == 0
  {
    if n == 0 then [] else Zeros(n - 1) + [0]
  }

  const ZERO_BLOCK: Block := Zeros(BSIZE)

  /** The k-th 32-bit word of a block. */
  function Word(b: Block, k: nat): (w: Uint)
    requires k < WORDS_PER_BLOCK
  {
    var b0: int, b1: int, b2: int, b3: int := b[4 * k], b[4 * k + 1], b[4 * k + 2], b[4 * k + 3];
    b0 + 0x100 * b1 + 0x1_0000 * b2 + 0x100_0000 * b3
  }

  /** Store w as the k-th word of a block. */
  function PutWord(b: Block, k: nat, w: Uint): (r: Block)
    requires k < WORDS_PER_BLOCK
  {
    b[4 * k := w % 0x100]
     [4 * k + 1 := w / 0x100 % 0x100]
     [4 * k + 2 := w / 0x1_0000 % 0x100]
     [4 * k + 3 := w / 0x100_0000]
  }

  /** Storing a word is read back, and disturbs no other word. */
  lemma WordPutWord(b: Block, k: nat, w: Uint, j: nat)
    requires k < WORDS_PER_BLOCK && j < WORDS_PER_BLOCK
    ensures Word(PutWord(b, k, w), j) == if j == k then w else Word(b, j)
  {
    SplitWord(w);
    if j < k {
      assert 4 * j + 3 < 4 * k;
    } else if j > k {
      assert 4 * k + 3 < 4 * j;
    }
  }

  /** The number that little-endian bytes stand for. */
  function Little(bs: seq<Byte>): (n: nat) {
    if bs == [] then 0
    else
      var first: int := bs[0];
      first + 0x100 * Little(bs[1..])
  }

  lemma WordIsLittle(b: Block, k: nat)
    requires k < WORDS_PER_BLOCK
    ensures Word(b, k) == Little(b[4 * k..4 * k + 4])
  {
    var s := b[4 * k..4 * k + 4];
    var t := s[1..];
    var u := t[1..];
    var v := u[1..];
    var s0: int, t0: int, u0: int, v0: int := s[0], t[0], u[0], v[0];
    assert Little(v) == v0 + 0x100 * Little(v[1..]) && v[1..] == [];
    assert Little(u) == u0 + 0x100 * Little(v);
    assert Little(t) == t0 + 0x100 * Little(u);
    assert Little(s) == s0 + 0x100 * Little(t);
  }

  lemma SplitWord(w: Uint)
    ensures w == w % 0x100 + 0x100 * (w / 0x100 % 0x100) + 0x1_0000 * (w / 0x1_0000 % 0x100)
                 + 0x100_0000 * (w / 0x100_0000)
  {
    assert w / 0x100 / 0x100 == w / 0x1_0000;
    assert w / 0x1_0000 / 0x100 == w / 0x100_0000;
  }

  /** Disk contents; a block never written reads as zeros. */
  type Disk = map<nat, Block>

  function At(d: Disk, b: nat): (r: Block) {
    if b in d then d[b] else ZERO_BLOCK
  }

  /** One block write to the disk, atomic with respect to crashes. */
  datatype Write = Write(blockno: nat, data: Block)

  function ApplyWrites(d: Disk, ws: seq<Write>): (r: Disk) {
    if ws == [] then d
    else
      var w := ws[|ws| - 1];
      ApplyWrites(d, ws[..|ws| - 1])[w.blockno := w.data]
  }
}
