/** The logging layer of kernel/log.c over the buffer cache: log_write, commit and recovery as
    the kernel runs them, against the write sequences of LogCrash and a plain block memory. */
module Log {
  import opened Blocks
  import opened Common
  import opened Bio
  import opened LogCrash
  import opened Counting
  import LogBudget

  const DEV: nat := 1

  /** Block bs[k] sits in the valid buffer ss[k], which holds exactly one pin; no other pins. */
  ghost predicate Pinned(dev: seq<nat>, blockno: seq<nat>, valid: seq<bool>, pins: seq<nat>, bs: seq<Uint>, ss: seq<nat>)
    requires |dev| == |blockno| == |valid| == |pins| == NBUF
  {
    && |ss| == |bs|
    && (forall k | 0 <= k < |bs| :: Holds(dev, blockno, ss[k], DEV, bs[k]) && valid[ss[k]] && pins[ss[k]] == 1)
    && (forall i | 0 <= i < NBUF && i !in ss :: pins[i] == 0)
  }

  lemma PinOneMore(dev: seq<nat>, blockno: seq<nat>, valid: seq<bool>, pins: seq<nat>, bs: seq<Uint>, ss: seq<nat>, i: nat, b: Uint)
    requires |dev| == |blockno| == |valid| == |pins| == NBUF && Pinned(dev, blockno, valid, pins, bs, ss)
    requires Holds(dev, blockno, i, DEV, b) && valid[i] && b !in bs
    ensures pins[i] == 0 && Pinned(dev, blockno, valid, pins[i := 1], bs + [b], ss + [i])
  {
  }

  lemma UnpinFirst(dev: seq<nat>, blockno: seq<nat>, valid: seq<bool>, pins: seq<nat>, bs: seq<Uint>, ss: seq<nat>)
    requires |dev| == |blockno| == |valid| == |pins| == NBUF && Pinned(dev, blockno, valid, pins, bs, ss) && bs != []
    requires forall j, k | 0 <= j < k < |bs| :: bs[j] != bs[k]
    ensures Holds(dev, blockno, ss[0], DEV, bs[0]) && Pinned(dev, blockno, valid, pins[ss[0] := 0], bs[1..], ss[1..])
  {
  }

  lemma LogOneMore(l: Layout, bs: seq<Uint>, b: Uint)
    requires ValidBlocks(l, bs) && b !in bs && !InLog(l, b) && |bs| < LOGSIZE && |bs| < l.size - 1
    ensures ValidBlocks(l, bs + [b])
  {
  }

  /** Writing the log never touches a home block. */
  lemma LogSparesHome(l: Layout, d: Disk, data: seq<Block>, k: nat)
    requires k <= |data| < l.size
    ensures forall b: nat | !InLog(l, b) :: At(ApplyWrites(d, LogWrites(l, data)[..k]), b) == At(d, b)
  {
    ApplyLogPrefix(l, d, data, k);
  }

  lemma ApplyNone(d: Disk)
    ensures ApplyWrites(d, []) == d
  {
  }

  lemma OneMore(d: Disk, ws: seq<Write>, k: nat)
    requires k < |ws|
    ensures ws[..k + 1] == ws[..k] + [ws[k]]
    ensures ApplyWrites(d, ws[..k + 1]) == ApplyWrites(d, ws[..k])[ws[k].blockno := ws[k].data]
  {
  }

  /** Installing never touches the log area. */
  lemma InstallSparesLog(l: Layout, d: Disk, bs: seq<Uint>, data: seq<Block>, k: nat)
    requires ValidBlocks(l, bs) && |bs| == |data| && k <= |bs|
    ensures forall b: nat | InLog(l, b) :: At(ApplyWrites(d, InstallWrites(bs, data)[..k]), b) == At(d, b)
  {
    ApplyInstallPrefix(d, bs, data, k);
    assert forall b | b in bs[..k] :: b in bs;
  }

  /** The disk d, written so far with ws, went to d' and ws' by the commit of blocks bs. */
  ghost predicate Committed(l: Layout, bs: seq<Uint>, mem: Disk, d: Disk, ws: seq<Write>, d': Disk, ws': seq<Write>)
    requires |bs| <= LOGSIZE
  {
    var plan := CommitWrites(l, At(d, l.start), Txn(bs, Newest(mem, bs)));
    ws' == ws + plan && d' == ApplyWrites(d, plan)
  }

  /** The disk after a whole commit, step by step as the kernel writes it. */
  lemma CommitComposes(l: Layout, d: Disk, t: Txn)
    requires l.size > 0 && ValidTxn(l, t)
    ensures var lw, iw, h := LogWrites(l, t.data), InstallWrites(t.blocks, t.data), PutHeader(At(d, l.start), t.blocks);
            var d1 := ApplyWrites(d, lw);
            var d2 := ApplyWrites(d1[l.start := h], iw);
            && At(d1, l.start) == At(d, l.start)
            && At(d2, l.start) == h
            && CommitWrites(l, At(d, l.start), t) == lw + ([Write(l.start, h)] + iw) + [Write(l.start, Cleared(h))]
            && ApplyWrites(d, CommitWrites(l, At(d, l.start), t)) == d2[l.start := Cleared(h)]
  {
    hide Word, PutWord, PutHeader, PutEntries, ApplyWrites, Cleared;
    var lw, iw, h := LogWrites(l, t.data), InstallWrites(t.blocks, t.data), PutHeader(At(d, l.start), t.blocks);
    var n, ws := |t.data|, CommitWrites(l, At(d, l.start), t);
    ApplyLogPrefix(l, d, t.data, n);
    assert lw[..n] == lw && iw[..n] == iw;
    var d1 := ApplyWrites(d, lw);
    InstallSparesLog(l, d1[l.start := h], t.blocks, t.data, n);
    ApplyAppend(d, lw, [Write(l.start, h)]);
    ApplyAppend(d, lw + [Write(l.start, h)], iw);
    ApplyAppend(d, lw + [Write(l.start, h)] + iw, [Write(l.start, Cleared(h))]);
    ApplyOne(d1, Write(l.start, h));
    ApplyOne(ApplyWrites(d1[l.start := h], iw), Write(l.start, Cleared(h)));
  }

  /** Copying the newest contents to the log and then home changes no home block in memory. */
  lemma CommitKeepsMemory(l: Layout, mem: Disk, t: Txn, h: Block, g: Block)
    requires l.size > 0 && ValidTxn(l, t) && t.data == Newest(mem, t.blocks)
    ensures var m1 := ApplyWrites(mem, LogWrites(l, t.data));
            var m2 := ApplyWrites(m1[l.start := h], InstallWrites(t.blocks, t.data))[l.start := g];
            && (forall k | 0 <= k < |t.data| :: At(m1, l.start + 1 + k) == t.data[k])
            && SameHome(l, m2, mem)
  {
    assert LogWrites(l, t.data)[..|t.data|] == LogWrites(l, t.data);
    ApplyLogPrefix(l, mem, t.data, |t.data|);
    var m1 := ApplyWrites(mem, LogWrites(l, t.data))[l.start := h];
    ApplyInstall(m1, t.blocks, t.data);
    forall b: nat | b in t.blocks ensures At(ApplyWrites(m1, InstallWrites(t.blocks, t.data)), b) == At(mem, b) {
      var k :| 0 <= k < |t.blocks| && t.blocks[k] == b;
    }
  }

  lemma LogDataAgrees(l: Layout, m: Disk, d: Disk, n: nat)
    requires forall b: nat :: At(d, b) == At(m, b)
    ensures LogData(l, m, n) == LogData(l, d, n)
  {
  }

  lemma RecoveryComposes(l: Layout, d: Disk)
    requires l.size > 0 && HeaderOk(l, d)
    ensures var bs, h := Entries(At(d, l.start)), At(d, l.start);
            var iw := InstallWrites(bs, LogData(l, d, |bs|));
            && At(ApplyWrites(d, iw), l.start) == h
            && Recovered(l, d) == ApplyWrites(d, iw)[l.start := Cleared(h)]
  {
    hide Word, PutWord;
    var bs, h := Entries(At(d, l.start)), At(d, l.start);
    var iw := InstallWrites(bs, LogData(l, d, |bs|));
    InstallSparesLog(l, d, bs, LogData(l, d, |bs|), |bs|);
    assert iw[..|bs|] == iw;
    ApplyAppend(d, iw, [Write(l.start, Cleared(h))]);
    ApplyOne(ApplyWrites(d, iw), Write(l.start, Cleared(h)));
  }

  ghost function Unpinned(refcnt: seq<nat>, pins: seq<nat>): (r: seq<int>)
    ensures |r| == NBUF
  {
    seq<int>(NBUF, i requires 0 <= i < NBUF => if |refcnt| == |pins| == NBUF then refcnt[i] as int - pins[i] as int else 0)
  }

  lemma UnpinnedPin(refcnt: seq<nat>, pins: seq<nat>, i: nat)
    requires |refcnt| == |pins| == NBUF && i < NBUF
    ensures pins[i] == 0 ==> Unpinned(refcnt[i := refcnt[i] + 1], pins[i := 1]) == Unpinned(refcnt, pins)
  {
  }

  lemma SameBefore(a: seq<int>, b: seq<int>, i: nat)
    requires |a| == |b| && i < |a| && a[i := a[i] + 1] == b[i := b[i] + 1]
    ensures a == b
  {
    forall k | 0 <= k < |a| ensures a[k] == b[k] {
      assert a[i := a[i] + 1][k] == b[i := b[i] + 1][k];
    }
  }

  /** Taking buffers i and j, copying one to the other, and giving them back, with the pin of j. */
  lemma UnpinnedInstall(r0: seq<nat>, p0: seq<nat>, r2: seq<nat>, p2: seq<nat>, i: nat, j: nat, unpin: bool)
    requires |r0| == |p0| == |r2| == |p2| == NBUF && i < NBUF && j < NBUF && i != j && r0[i] == 0 && r0[j] + 1 >= if unpin then 2 else 1
    requires r2 == r0[i := 1][j := r0[j] + 1][i := 0][j := r0[j] + 1 - if unpin then 2 else 1]
    requires if unpin then p0[j] == 1 && p2 == p0[j := 0] else p2 == p0
    ensures Unpinned(r2, p2) == Unpinned(r0, p0)
  {
  }

  /** One more reference to buffer i, pins aside. */
  lemma UnpinnedMore(refcnt: seq<nat>, more: seq<nat>, pins: seq<nat>, i: nat)
    requires |refcnt| == |more| == |pins| == NBUF && i < NBUF && more == refcnt[i := refcnt[i] + 1]
    ensures Unpinned(more, pins) == Unpinned(refcnt, pins)[i := Unpinned(refcnt, pins)[i] + 1]
  {
  }

  class FsLog {
    const bc: BCache
    const l: Layout
    var n: nat                // lh.n
    var block: seq<Uint>      // lh.block
    var outstanding: nat
    var committing: bool

    ghost var mem: Disk       // the newest logged contents of every block
    ghost var dirty: set<nat> // blocks whose holder has changed the buffer and not yet logged it
    ghost var slots: seq<nat> // slots[k] is the buffer pinned for block[k]
    ghost var ops: map<nat, nat> // the operations outstanding, and how many new blocks each may still log

    /** A log over a cache that holds nothing yet; recovery follows. */
    constructor (bc: BCache, l: Layout)
      requires bc.Valid() && forall i | 0 <= i < NBUF :: !bc.valid[i] && bc.pins[i] == 0
      ensures this.bc == bc && this.l == l
      ensures n == 0 && |block| == LOGSIZE && outstanding == 0 && !committing
      ensures mem == bc.disk && slots == [] && dirty == {} && ops == map[] && (l.size > 0 ==> Coherent([], []))
    {
      this.bc := bc;
      this.l := l;
      n, outstanding, committing := 0, 0, false;
      block := seq<Uint>(LOGSIZE, _ => 0);
      mem, slots, dirty, ops := bc.disk, [], {}, map[];
    }

    /** Every valid buffer that nobody is changing has the newest contents of its block. */
    ghost predicate CacheFresh()
      requires bc.Shape()
      reads this`mem, this`dirty, bc
    {
      forall i | 0 <= i < NBUF && bc.dev[i] == DEV && bc.valid[i] && bc.blockno[i] !in dirty ::
        bc.data[i] == At(mem, bc.blockno[i])
    }

    /** The disk has the newest contents of all blocks but bs. */
    ghost predicate DiskFresh(bs: seq<Uint>)
      reads this`mem, bc
    {
      forall b: nat | b !in bs :: At(bc.disk, b) == At(mem, b)
    }

    /** Cache, disk and memory agree, when the blocks bs are newer in the cache than on disk. */
    ghost predicate Coherent(bs: seq<Uint>, ss: seq<nat>)
      reads this`mem, this`dirty, bc
    {
      bc.Valid() && ValidBlocks(l, bs) && |ss| == |bs| && CacheFresh() && DiskFresh(bs)
      && Pinned(bc.dev, bc.blockno, bc.valid, bc.pins, bs, ss)
    }

    /** Nobody holds a buffer of the log area. */
    ghost predicate LogIdle()
      requires bc.Valid()
      reads bc
    {
      forall i | 0 <= i < NBUF && bc.dev[i] == DEV && InLog(l, bc.blockno[i]) :: bc.refcnt[i] == 0
    }

    ghost predicate HeaderEmpty()
      reads bc
    {
      SaneCount(At(bc.disk, l.start)) && Entries(At(bc.disk, l.start)) == []
    }

    /** The state between any two calls. */
    ghost predicate Valid()
      reads this, bc
    {
      && l.size > 0 && |block| == LOGSIZE && n <= LOGSIZE
      && Coherent(block[..n], slots) && LogIdle() && HeaderEmpty() && |ops| == outstanding
    }

    /** The state as the account of log space sees it. */
    ghost function Account(): (s: LogBudget.Book)
      requires n <= |block|
      reads this`n, this`block, this`ops, this`committing
    {
      LogBudget.Book(block[..n], ops, committing)
    }

    /** Operations have kept to their budgets since the log was empty. */
    ghost predicate WithinBudget()
      requires n <= |block|
      reads this`n, this`block, this`ops, this`committing
    {
      LogBudget.Reachable(l.size, Account())
    }

    /** The references to each buffer besides its pin: those of callers that hold it now. */
    ghost function Held(): (r: seq<int>)
      reads bc
    {
      Unpinned(bc.refcnt, bc.pins)
    }

    /** Some buffer is unreferenced, so bget does not run out. */
    ghost predicate SpareBuffer()
      requires bc.Valid()
      reads bc
    {
      exists i | 0 <= i < NBUF :: bc.refcnt[i] == 0
    }

    /** bread of a block of the device: the buffer holds the newest contents. */
    method Get(b: nat, ghost bs: seq<Uint>, ghost ss: seq<nat>) returns (r: Option<nat>)
      requires Coherent(bs, ss)
      modifies bc
      ensures Coherent(bs, ss)
      ensures bc.disk == old(bc.disk) && bc.writes == old(bc.writes) && bc.pins == old(bc.pins)
      ensures r.None? <==> (forall i | 0 <= i < NBUF :: old(bc.refcnt[i]) > 0 && !Holds(old(bc.dev), old(bc.blockno), i, DEV, b))
      ensures r.None? ==> unchanged(bc)
      ensures r.Some? ==>
                && Holds(bc.dev, bc.blockno, r.value, DEV, b) && bc.valid[r.value]
                && (b !in dirty ==> bc.data[r.value] == At(mem, b))
                && bc.refcnt == old(bc.refcnt)[r.value := old(bc.refcnt)[r.value] + 1]
                && (forall i | 0 <= i < NBUF && i != r.value ::
                      bc.dev[i] == old(bc.dev[i]) && bc.blockno[i] == old(bc.blockno[i]) && bc.valid[i] == old(bc.valid[i]))
                && (Holds(old(bc.dev), old(bc.blockno), r.value, DEV, b) || old(bc.refcnt[r.value]) == 0)
    {
      r := bc.Bread(DEV, b);
    }

    /** The holder of buffer i replaces its contents and writes them to disk. */
    method PutThrough(i: nat, blk: Block, ghost bs: seq<Uint>, ghost ss: seq<nat>)
      requires Coherent(bs, ss) && i < NBUF && bc.refcnt[i] > 0 && bc.dev[i] == DEV && bc.valid[i] && bc.blockno[i] !in dirty
      modifies this`mem, bc`data, bc`disk, bc`writes
      ensures Coherent(bs, ss)
      ensures mem == old(mem)[bc.blockno[i] := blk]
      ensures bc.disk == old(bc.disk)[bc.blockno[i] := blk]
      ensures bc.writes == old(bc.writes) + [Write(bc.blockno[i], blk)]
    {
      bc.SetData(i, blk);
      bc.Bwrite(i);
      mem := mem[bc.blockno[i] := blk];
    }

    method Release(i: nat, ghost bs: seq<Uint>, ghost ss: seq<nat>)
      requires Coherent(bs, ss) && i < NBUF && bc.refcnt[i] > bc.pins[i]
      modifies bc`refcnt, bc`next, bc`prev, bc`order, bc`releases
      ensures Coherent(bs, ss)
      ensures bc.refcnt == old(bc.refcnt)[i := old(bc.refcnt)[i] - 1]
    {
      bc.Brelse(i);
    }

    /** Write the in-memory header over the header block. */
    method WriteHead(ghost bs: seq<Uint>, ghost ss: seq<nat>)
      requires Coherent(bs, ss) && LogIdle() && SpareBuffer()
      requires |block| == LOGSIZE && n <= LOGSIZE && l.size > 0 && l.start !in dirty
      modifies this`mem, bc
      ensures Coherent(bs, ss) && LogIdle()
      ensures bc.refcnt == old(bc.refcnt) && bc.pins == old(bc.pins)
      ensures var h := PutHeader(At(old(bc.disk), l.start), block[..n]);
              && mem == old(mem)[l.start := h]
              && bc.disk == old(bc.disk)[l.start := h]
              && bc.writes == old(bc.writes) + [Write(l.start, h)]
    {
      hide Word, PutWord, BCache.ListOk;
      var buf := Get(l.start, bs, ss);
      assert buf.Some?;
      var b := buf.value;
      assert l.start !in bs;
      var h := PutWord(bc.data[b], 0, n);
      var i := 0;
      while i < n
        invariant 0 <= i <= n
        invariant h == PutEntries(PutWord(At(old(bc.disk), l.start), 0, n), block[..i])
      {
        h := PutWord(h, i + 1, block[i]);
        assert block[..i + 1][..i] == block[..i];
        i := i + 1;
      }
      PutThrough(b, h, bs, ss);
      Release(b, bs, ss);
    }

    /** The holder of buffer i changes its contents in memory. */
    method Modify(i: nat, blk: Block, ghost bs: seq<Uint>, ghost ss: seq<nat>)
      requires Coherent(bs, ss) && i < NBUF && bc.refcnt[i] > bc.pins[i] && bc.dev[i] == DEV && bc.valid[i]
      modifies this`dirty, bc`data
      ensures Coherent(bs, ss)
      ensures bc.data == old(bc.data)[i := blk] && dirty == old(dirty) + {bc.blockno[i]}
    {
      bc.SetData(i, blk);
      dirty := dirty + {bc.blockno[i]};
    }

    /** Operation op records that buffer i has new contents; false is the panic. */
    method LogWrite(i: nat, ghost op: nat) returns (ok: bool)
      requires Valid() && i < NBUF && bc.refcnt[i] > bc.pins[i]
      requires bc.dev[i] == DEV && bc.valid[i] && !InLog(l, bc.blockno[i]) && bc.blockno[i] < UINT_LIMIT
      modifies this, bc`refcnt, bc`pins
      ensures ok <==> old(n) < LOGSIZE && old(n) < l.size - 1 && old(outstanding) >= 1
      ensures !ok ==> unchanged(this) && unchanged(bc)
      ensures outstanding == old(outstanding) && committing == old(committing)
      ensures ok ==>
                && Valid()
                && mem == old(mem)[bc.blockno[i] := bc.data[i]]
                && dirty == old(dirty) - {bc.blockno[i]}
                && block[..n] == Logged(old(block[..n]), bc.blockno[i])
                && bc.refcnt == (if n == old(n) then old(bc.refcnt) else old(bc.refcnt)[i := old(bc.refcnt)[i] + 1])
                && bc.pins == (if n == old(n) then old(bc.pins) else old(bc.pins)[i := 1])
                && bc.refcnt[i] > bc.pins[i] && (n != old(n) ==> old(bc.pins[i]) == 0)
                && ops == Charged(old(block[..n]), old(ops), op, bc.blockno[i])
      ensures ok && Affords(old(Account()), op, bc.blockno[i]) ==>
                LogBudget.Next(l.size, old(Account()), LogBudget.Log(op, bc.blockno[i]), Account())
    {
      hide Word, Entries, SaneCount, BCache.ListOk, Unique, Pinned, ValidBlocks, CacheFresh, DiskFresh, Charged, Affords, LogBudget.Next, At;
      if n >= LOGSIZE || n >= l.size - 1 || outstanding < 1 {
        return false;
      }
      Record(i);
      ops := Charged(old(block[..n]), ops, op, bc.blockno[i]);
      ChargedStep(l.size, old(Account()), Account(), op, bc.blockno[i]);
      return true;
    }

    /** Block bc.blockno[i] goes on the list, unless it is there. */
    method Record(i: nat)
      requires Valid() && n < LOGSIZE && n < l.size - 1 && i < NBUF && bc.refcnt[i] > bc.pins[i]
      requires bc.dev[i] == DEV && bc.valid[i] && !InLog(l, bc.blockno[i]) && bc.blockno[i] < UINT_LIMIT
      modifies this`n, this`block, this`slots, this`mem, this`dirty, bc`refcnt, bc`pins
      ensures Valid()
      ensures mem == old(mem)[bc.blockno[i] := bc.data[i]]
      ensures dirty == old(dirty) - {bc.blockno[i]}
      ensures block[..n] == Logged(old(block[..n]), bc.blockno[i])
      ensures bc.refcnt == (if n == old(n) then old(bc.refcnt) else old(bc.refcnt)[i := old(bc.refcnt)[i] + 1])
      ensures bc.pins == (if n == old(n) then old(bc.pins) else old(bc.pins)[i := 1])
      ensures bc.refcnt[i] > bc.pins[i] && (n != old(n) ==> old(bc.pins[i]) == 0)
    {
      hide Word, Entries, SaneCount, BCache.ListOk, Unique, Pinned, ValidBlocks, CacheFresh, DiskFresh;
      var k := IndexOf(bc.blockno[i]);
      if k == n {
        Append(i);
      } else { // listed already: the new contents ride along
        block := block[k := bc.blockno[i]];
        assert block == old(block) && block[..n][k] == bc.blockno[i];
      }
      NoteLogged(i);
    }

    /** The position of b among the logged blocks, or n. */
    method IndexOf(b: Uint) returns (k: nat)
      requires |block| == LOGSIZE && n <= LOGSIZE
      ensures k <= n && (if k < n then block[k] == b else b !in block[..n])
    {
      k := 0;
      while k < n
        invariant 0 <= k <= n
        invariant forall m | 0 <= m < k :: block[m] != b
      {
        if block[k] == b {
          return;
        }
        k := k + 1;
      }
    }

    method Append(i: nat)
      requires |block| == LOGSIZE && n < LOGSIZE && n < l.size - 1 && Coherent(block[..n], slots)
      requires i < NBUF && bc.dev[i] == DEV && bc.valid[i] && !InLog(l, bc.blockno[i]) && bc.blockno[i] < UINT_LIMIT
      requires bc.blockno[i] !in block[..n]
      modifies this`n, this`block, this`slots, bc`refcnt, bc`pins
      ensures |block| == LOGSIZE && n == old(n) + 1 && Coherent(block[..n], slots)
      ensures block[..n] == old(block[..n]) + [bc.blockno[i]]
      ensures bc.refcnt == old(bc.refcnt)[i := old(bc.refcnt)[i] + 1]
      ensures bc.pins == old(bc.pins)[i := 1]
      ensures old(bc.pins[i]) == 0
    {
      hide At, BCache.ListOk;
      ghost var logged := block[..n];
      PinOneMore(bc.dev, bc.blockno, bc.valid, bc.pins, logged, slots, i, bc.blockno[i]);
      LogOneMore(l, logged, bc.blockno[i]);
      bc.Bpin(i);
      slots := slots + [i];
      block, n := block[n := bc.blockno[i]], n + 1;
      assert block[..n] == logged + [bc.blockno[i]];
    }

    /** The contents of buffer i, whose block is logged, become the newest. */
    ghost method NoteLogged(i: nat)
      requires |block| == LOGSIZE && n <= LOGSIZE && Coherent(block[..n], slots)
      requires i < NBUF && bc.dev[i] == DEV && bc.valid[i] && bc.blockno[i] in block[..n]
      modifies this`mem, this`dirty
      ensures Coherent(block[..n], slots)
      ensures mem == old(mem)[bc.blockno[i] := bc.data[i]]
      ensures dirty == old(dirty) - {bc.blockno[i]}
    {
      hide BCache.ListOk;
      mem := mem[bc.blockno[i] := bc.data[i]];
      dirty := dirty - {bc.blockno[i]};
    }

    /** The usual way for operation op to change a block: bread, modify, log_write, brelse. */
    method Update(b: Uint, blk: Block, ghost op: nat) returns (ok: bool)
      requires Valid() && !InLog(l, b) && b !in dirty && n < LOGSIZE && n < l.size - 1 && outstanding >= 1
      modifies this, bc
      ensures ok <==> old(exists i | 0 <= i < NBUF :: bc.refcnt[i] == 0 || Holds(bc.dev, bc.blockno, i, DEV, b))
      ensures bc.disk == old(bc.disk) && bc.writes == old(bc.writes)
      ensures ok ==>
                && Valid()
                && mem == old(mem)[b := blk] && dirty == old(dirty)
                && block[..n] == Logged(old(block[..n]), b)
                && outstanding == old(outstanding) && committing == old(committing)
                && ops == Charged(old(block[..n]), old(ops), op, b)
                && (old(WithinBudget()) && Affords(old(Account()), op, b) ==> WithinBudget())
      ensures Held() == old(Held())
    {
      hide Word, Entries, SaneCount, BCache.ListOk, Unique, Pinned, ValidBlocks, CacheFresh, DiskFresh, Unpinned, Logged, At, Charged, Affords, WithinBudget;
      var r := Get(b, block[..n], slots);
      if r.None? {
        return false;
      }
      UnpinnedMore(old(bc.refcnt), bc.refcnt, bc.pins, r.value);
      ok := ModifyAndLog(r.value, blk, op);
      ghost var before := bc.refcnt;
      Release(r.value, block[..n], slots);
      UnpinnedMore(bc.refcnt, before, bc.pins, r.value);
      SameBefore(Held(), old(Held()), r.value);
    }

    method ModifyAndLog(i: nat, blk: Block, ghost op: nat) returns (ok: bool)
      requires Valid() && n < LOGSIZE && n < l.size - 1 && outstanding >= 1 && i < NBUF && bc.refcnt[i] > bc.pins[i] && bc.blockno[i] !in dirty
      requires bc.dev[i] == DEV && bc.valid[i] && !InLog(l, bc.blockno[i]) && bc.blockno[i] < UINT_LIMIT
      modifies this, bc`refcnt, bc`pins, bc`data
      ensures ok && Valid() && bc.refcnt[i] > bc.pins[i]
      ensures mem == old(mem)[bc.blockno[i] := blk] && dirty == old(dirty)
      ensures block[..n] == Logged(old(block[..n]), bc.blockno[i])
      ensures outstanding == old(outstanding) && committing == old(committing)
      ensures ops == Charged(old(block[..n]), old(ops), op, bc.blockno[i])
      ensures old(WithinBudget()) && Affords(old(Account()), op, bc.blockno[i]) ==> WithinBudget()
      ensures Held() == old(Held())
    {
      hide Word, Entries, SaneCount, BCache.ListOk, Unique, Pinned, ValidBlocks, CacheFresh, DiskFresh, Unpinned, Logged, At, Charged, Affords, LogBudget.Reachable, LogBudget.Next;
      Modify(i, blk, block[..n], slots);
      ok := LogWrite(i, op);
      if old(WithinBudget()) && Affords(old(Account()), op, bc.blockno[i]) {
        LogBudget.Extend(l.size, old(Account()), LogBudget.Log(op, bc.blockno[i]), Account());
      }
      UnpinnedPin(old(bc.refcnt), old(bc.pins), i);
    }

    /** bread, look, brelse: the newest logged contents, and nothing changes. */
    method Read(b: Uint) returns (r: Option<Block>)
      requires Valid() && b !in dirty && !InLog(l, b)
      modifies bc
      ensures Valid()
      ensures r.Some? <==> old(exists i | 0 <= i < NBUF :: bc.refcnt[i] == 0 || Holds(bc.dev, bc.blockno, i, DEV, b))
      ensures r.Some? ==> r.value == At(mem, b)
      ensures bc.disk == old(bc.disk) && bc.writes == old(bc.writes)
      ensures bc.refcnt == old(bc.refcnt) && bc.pins == old(bc.pins)
    {
      var i := Get(b, block[..n], slots);
      if i.None? {
        return None;
      }
      r := Some(bc.data[i.value]);
      Release(i.value, block[..n], slots);
    }

    /** Hold the buffers of two blocks at once: a, which is idle, and b, cached or with room.
        None is the panic for running out of buffers. */
    method GetTwo(a: nat, b: nat, ghost bs: seq<Uint>, ghost ss: seq<nat>) returns (r: Option<(nat, nat)>)
      requires Coherent(bs, ss) && LogIdle() && dirty == {} && InLog(l, a) && !InLog(l, b)
      requires b in bs || forall k | 0 <= k < NBUF :: bc.refcnt[k] == 0
      modifies bc
      ensures Coherent(bs, ss)
      ensures bc.disk == old(bc.disk) && bc.writes == old(bc.writes) && bc.pins == old(bc.pins)
      ensures r.Some? <==> old(SpareBuffer())
      ensures r.None? ==> unchanged(bc)
      ensures r.Some? ==>
                var (i, j) := r.value;
                && Holds(bc.dev, bc.blockno, i, DEV, a) && bc.valid[i] && bc.data[i] == At(mem, a)
                && Holds(bc.dev, bc.blockno, j, DEV, b) && bc.valid[j] && bc.data[j] == At(mem, b)
                && bc.refcnt == old(bc.refcnt)[i := 1][j := old(bc.refcnt)[j] + 1] && old(bc.refcnt)[i] == 0
                && forall k | 0 <= k < NBUF && k != i && bc.dev[k] == DEV && InLog(l, bc.blockno[k]) :: bc.refcnt[k] == 0
    {
      hide Word, BCache.ListOk, At, DiskFresh, ValidBlocks;
      var to := Get(a, bs, ss);
      if to.None? {
        return None;
      }
      var i := to.value;
      assert old(bc.refcnt)[i] == 0;
      if b in bs {
        ghost var t :| 0 <= t < |bs| && bs[t] == b;
        assert Holds(bc.dev, bc.blockno, ss[t], DEV, bs[t]);
      } else {
        assert bc.refcnt[if i == 0 then 1 else 0] == 0;
      }
      hide Pinned, CacheFresh;
      var from := Get(b, bs, ss);
      assert from.Some?;
      r := Some((i, from.value));
    }

    method DropTwo(i: nat, j: nat, ghost bs: seq<Uint>, ghost ss: seq<nat>)
      requires Coherent(bs, ss) && i < NBUF && j < NBUF && i != j
      requires bc.refcnt[i] > bc.pins[i] && bc.refcnt[j] > bc.pins[j]
      modifies bc`refcnt, bc`next, bc`prev, bc`order, bc`releases
      ensures Coherent(bs, ss)
      ensures bc.refcnt == old(bc.refcnt)[i := old(bc.refcnt)[i] - 1][j := old(bc.refcnt)[j] - 1]
    {
      Release(i, bs, ss);
      Release(j, bs, ss);
    }

    /** bunpin of the buffer of the first block, which the disk now has too. */
    method Unpin(i: nat, ghost bs: seq<Uint>, ghost ss: seq<nat>)
      requires Coherent(bs, ss) && bs != [] && i < NBUF && bc.dev[i] == DEV && bc.blockno[i] == bs[0]
      requires At(bc.disk, bs[0]) == At(mem, bs[0])
      modifies bc`refcnt, bc`pins
      ensures Coherent(bs[1..], ss[1..])
      ensures old(bc.pins)[i] == 1
      ensures bc.refcnt == old(bc.refcnt)[i := old(bc.refcnt)[i] - 1] && bc.pins == old(bc.pins)[i := 0]
    {
      hide Word, BCache.ListOk, At;
      UnpinFirst(bc.dev, bc.blockno, bc.valid, bc.pins, bs, ss);
      assert forall b | b in bs :: b == bs[0] || b in bs[1..];
      bc.Bunpin(i);
    }

    /** Copy one held buffer over another, write that to disk, and release both. */
    method CopyAndRelease(src: nat, dst: nat, unpin: bool, ghost bs: seq<Uint>, ghost ss: seq<nat>)
      requires Coherent(bs, ss) && src < NBUF && dst < NBUF && src != dst && dirty == {}
      requires bc.refcnt[src] > bc.pins[src] && bc.refcnt[dst] > bc.pins[dst] && bc.dev[dst] == DEV && bc.valid[dst]
      requires unpin ==> bs != [] && bc.blockno[dst] == bs[0]
      modifies this`mem, bc`data, bc`disk, bc`writes, bc`refcnt, bc`pins, bc`next, bc`prev, bc`order, bc`releases
      ensures |ss| == |bs|
      ensures if unpin then Coherent(bs[1..], ss[1..]) else Coherent(bs, ss)
      ensures bc.refcnt == old(bc.refcnt)[src := old(bc.refcnt)[src] - 1]
                                        [dst := old(bc.refcnt)[dst] - if unpin then 2 else 1]
      ensures !unpin ==> bc.pins == old(bc.pins)
      ensures unpin ==> old(bc.pins)[dst] == 1 && bc.pins == old(bc.pins)[dst := 0]
      ensures var w := Write(bc.blockno[dst], old(bc.data[src]));
              && mem == old(mem)[w.blockno := w.data]
              && bc.disk == old(bc.disk)[w.blockno := w.data]
              && bc.writes == old(bc.writes) + [w]
    {
      hide Word, BCache.ListOk, Pinned, CacheFresh, DiskFresh, Unique, ValidBlocks;
      PutThrough(dst, bc.data[src], bs, ss);
      ReleaseTwo(src, dst, unpin, bs, ss);
    }

    method ReleaseTwo(src: nat, dst: nat, unpin: bool, ghost bs: seq<Uint>, ghost ss: seq<nat>)
      requires Coherent(bs, ss) && src < NBUF && dst < NBUF && src != dst
      requires bc.refcnt[src] > bc.pins[src] && bc.refcnt[dst] > bc.pins[dst]
      requires unpin ==> bs != [] && bc.dev[dst] == DEV && bc.blockno[dst] == bs[0] && At(bc.disk, bs[0]) == At(mem, bs[0])
      modifies bc`refcnt, bc`pins, bc`next, bc`prev, bc`order, bc`releases
      ensures |ss| == |bs|
      ensures if unpin then Coherent(bs[1..], ss[1..]) else Coherent(bs, ss)
      ensures old(bc.refcnt)[dst] >= if unpin then 2 else 1
      ensures bc.refcnt == old(bc.refcnt)[src := old(bc.refcnt)[src] - 1]
                                        [dst := old(bc.refcnt)[dst] - if unpin then 2 else 1]
      ensures !unpin ==> bc.pins == old(bc.pins)
      ensures unpin ==> old(bc.pins)[dst] == 1 && bc.pins == old(bc.pins)[dst := 0]
    {
      hide Word, BCache.ListOk, Pinned, CacheFresh, DiskFresh, Unique, ValidBlocks, At;
      if unpin {
        Unpin(dst, bs, ss);
        DropTwo(src, dst, bs[1..], ss[1..]);
      } else {
        DropTwo(src, dst, bs, ss);
      }
    }

    /** One round of write_log: copy the cached block to its place in the log. */
    method WriteLogBlock(tail: nat) returns (ok: bool)
      requires |block| == LOGSIZE && tail < n <= LOGSIZE && n < l.size && dirty == {} && !InLog(l, block[tail])
      requires Coherent(block[..n], slots) && LogIdle()
      modifies this`mem, bc
      ensures Coherent(block[..n], slots) && LogIdle()
      ensures bc.refcnt == old(bc.refcnt) && bc.pins == old(bc.pins)
      ensures ok <==> SpareBuffer()
      ensures !ok ==> mem == old(mem) && unchanged(bc)
      ensures ok ==>
                var w := Write(l.start + 1 + tail, At(old(mem), block[tail]));
                && mem == old(mem)[w.blockno := w.data]
                && bc.disk == old(bc.disk)[w.blockno := w.data]
                && bc.writes == old(bc.writes) + [w]
    {
      hide Word, BCache.ListOk, At, Pinned, CacheFresh, DiskFresh, Unique, ValidBlocks;
      ghost var bs := block[..n];
      assert bs[tail] == block[tail];
      var r := GetTwo(l.start + 1 + tail, block[tail], bs, slots);
      if r.None? {
        return false;
      }
      var (to, from) := r.value;
      CopyAndRelease(from, to, false, bs, slots);
      assert bc.refcnt[to] == 0;
      return true;
    }

    method WriteLog() returns (ok: bool)
      requires |block| == LOGSIZE && n <= LOGSIZE && dirty == {}
      requires Coherent(block[..n], slots) && LogIdle()
      modifies this`mem, bc
      ensures Coherent(block[..n], slots) && LogIdle()
      ensures bc.refcnt == old(bc.refcnt) && bc.pins == old(bc.pins)
      ensures ok <==> n == 0 || old(SpareBuffer())
      ensures ok && n > 0 ==> SpareBuffer()
      ensures !ok ==> mem == old(mem) && unchanged(bc)
      ensures ok ==>
                var ws := LogWrites(l, Newest(old(mem), block[..n]));
                && mem == ApplyWrites(old(mem), ws)
                && bc.disk == ApplyWrites(old(bc.disk), ws)
                && bc.writes == old(bc.writes) + ws
    {
      hide Word, BCache.ListOk, Unique, Pinned, CacheFresh, DiskFresh, ApplyWrites, At;
      ghost var bs := block[..n];
      ghost var ws := LogWrites(l, Newest(mem, bs));
      ApplyNone(mem);
      ApplyNone(bc.disk);
      assert ws[..0] == [];
      var tail := 0;
      while tail < n
        invariant 0 <= tail <= n
        invariant Coherent(bs, slots) && LogIdle()
        invariant bc.refcnt == old(bc.refcnt) && bc.pins == old(bc.pins)
        invariant mem == ApplyWrites(old(mem), ws[..tail])
        invariant bc.disk == ApplyWrites(old(bc.disk), ws[..tail])
        invariant bc.writes == old(bc.writes) + ws[..tail]
        invariant tail == 0 ==> mem == old(mem) && unchanged(bc)
        invariant tail > 0 ==> SpareBuffer()
      {
        LogSparesHome(l, old(mem), Newest(old(mem), bs), tail);
        OneMore(old(mem), ws, tail);
        OneMore(old(bc.disk), ws, tail);
        assert !InLog(l, bs[tail]);
        ok := WriteLogBlock(tail);
        if !ok {
          return false;
        }
        tail := tail + 1;
      }
      assert ws[..n] == ws;
      return true;
    }

    /** One round of install_trans: copy a log block to its home; commit also drops its pin. */
    method InstallBlock(tail: nat, recovering: bool, ghost bs: seq<Uint>, ghost ss: seq<nat>)
      requires |block| == LOGSIZE && tail < n <= LOGSIZE && n < l.size && dirty == {} && !InLog(l, block[tail])
      requires Coherent(bs, ss) && LogIdle() && SpareBuffer()
      requires if recovering then bs == [] && forall i | 0 <= i < NBUF :: bc.refcnt[i] == 0
               else |bs| > 0 && bs[0] == block[tail]
      modifies this`mem, bc
      ensures if recovering then Coherent(bs, ss) else |ss| > 0 && Coherent(bs[1..], ss[1..])
      ensures LogIdle() && SpareBuffer()
      ensures recovering ==> bc.refcnt == old(bc.refcnt)
      ensures Held() == old(Held())
      ensures var w := Write(block[tail], At(old(mem), l.start + 1 + tail));
              && mem == old(mem)[w.blockno := w.data]
              && bc.disk == old(bc.disk)[w.blockno := w.data]
              && bc.writes == old(bc.writes) + [w]
    {
      hide Word, BCache.ListOk, Pinned, CacheFresh, DiskFresh, Unique, ValidBlocks, Unpinned, At;
      var r := GetTwo(l.start + 1 + tail, block[tail], bs, ss);
      assert r.Some?;
      var (lbuf, dbuf) := r.value;
      CopyAndRelease(lbuf, dbuf, !recovering, bs, ss);
      UnpinnedInstall(old(bc.refcnt), old(bc.pins), bc.refcnt, bc.pins, lbuf, dbuf, !recovering);
      assert bc.refcnt[lbuf] == 0;
    }

    /** The state inside install_trans, with the blocks bs still to be copied home. */
    ghost predicate Installing(recovering: bool, bs: seq<Uint>)
      reads this`mem, this`dirty, this`slots, bc
    {
      && dirty == {}
      && (if recovering then slots == [] && Coherent([], []) && forall i | 0 <= i < NBUF :: bc.refcnt[i] == 0
          else |slots| == |bs| && Coherent(bs, slots))
      && LogIdle() && SpareBuffer()
    }

    method InstallNext(tail: nat, recovering: bool, ghost bs: seq<Uint>)
      requires |block| == LOGSIZE && tail < n <= LOGSIZE && n < l.size && bs != [] && bs[0] == block[tail] && !InLog(l, bs[0])
      requires Installing(recovering, bs)
      modifies this`mem, this`slots, bc
      ensures Installing(recovering, bs[1..]) && Held() == old(Held())
      ensures var w := Write(bs[0], At(old(mem), l.start + 1 + tail));
              && mem == old(mem)[w.blockno := w.data]
              && bc.disk == old(bc.disk)[w.blockno := w.data]
              && bc.writes == old(bc.writes) + [w]
    {
      hide Word, BCache.ListOk, Unique, CacheFresh, DiskFresh, Pinned, ApplyWrites, At;
      InstallBlock(tail, recovering, if recovering then [] else bs, slots);
      if !recovering {
        slots := slots[1..];
      }
    }

    method InstallTrans(recovering: bool)
      requires |block| == LOGSIZE && n <= LOGSIZE && ValidBlocks(l, block[..n])
      requires Installing(recovering, block[..n])
      modifies this`mem, this`slots, bc
      ensures Installing(recovering, []) && Held() == old(Held())
      ensures var ws := InstallWrites(block[..n], LogData(l, old(mem), n));
              && mem == ApplyWrites(old(mem), ws)
              && bc.disk == ApplyWrites(old(bc.disk), ws)
              && bc.writes == old(bc.writes) + ws
    {
      hide Word, Coherent, LogIdle, SpareBuffer, ApplyWrites, At, Installing, Held;
      ghost var bs := block[..n];
      ghost var ws := InstallWrites(bs, LogData(l, mem, n));
      ApplyNone(mem);
      ApplyNone(bc.disk);
      assert ws[..0] == [] && bs[0..] == bs;
      var tail := 0;
      while tail < n
        invariant 0 <= tail <= n
        invariant Installing(recovering, bs[tail..]) && Held() == old(Held())
        invariant mem == ApplyWrites(old(mem), ws[..tail])
        invariant bc.disk == ApplyWrites(old(bc.disk), ws[..tail])
        invariant bc.writes == old(bc.writes) + ws[..tail]
      {
        InstallSparesLog(l, old(mem), bs, LogData(l, old(mem), n), tail);
        OneMore(old(mem), ws, tail);
        OneMore(old(bc.disk), ws, tail);
        assert !InLog(l, bs[tail]) && bs[tail..][1..] == bs[tail + 1..];
        InstallNext(tail, recovering, bs[tail..]);
        tail := tail + 1;
      }
      assert ws[..n] == ws && bs[n..] == [];
    }

    /** commit(): the disk writes are exactly those of LogCrash.CommitWrites for the logged blocks
        with their newest contents, and afterwards the disk has everything the cache has.
        False is the panic for running out of buffers; it comes before any write. */
    method Commit() returns (ok: bool)
      requires Valid() && dirty == {}
      modifies this`n, this`mem, this`slots, bc
      ensures ok <==> old(n) == 0 || old(SpareBuffer())
      ensures !ok ==> unchanged(this) && unchanged(bc)
      ensures ok ==> Valid() && n == 0
      ensures ok && old(n) == 0 ==> mem == old(mem) && unchanged(bc)
      ensures ok && old(n) > 0 ==> Committed(l, old(block[..n]), old(mem), old(bc.disk), old(bc.writes), bc.disk, bc.writes)
      ensures SameHome(l, mem, old(mem)) && Held() == old(Held())
    {
      hide Word, At, ApplyWrites, CacheFresh, DiskFresh, Pinned, BCache.ListOk, Unique, PutHeader, PutEntries, CommitWrites, Entries, LogIdle, SpareBuffer, Committed;
      if n == 0 {
        return true;
      }
      ghost var d0, m0, w0, bs := bc.disk, mem, bc.writes, block[..n];
      ok := WriteLog();
      if ok {
        AfterLog(d0, m0, w0, bs);
      }
    }

    /** The rest of commit(), once the log blocks are on the disk that was d0. */
    method AfterLog(ghost d0: Disk, ghost m0: Disk, ghost w0: seq<Write>, ghost bs: seq<Uint>)
      requires |block| == LOGSIZE && 0 < n <= LOGSIZE && dirty == {} && l.size > 0 && |ops| == outstanding
      requires bs == block[..n] && Coherent(bs, slots) && LogIdle() && SpareBuffer() && ValidBlocks(l, bs)
      requires var lw := LogWrites(l, Newest(m0, bs));
               mem == ApplyWrites(m0, lw) && bc.disk == ApplyWrites(d0, lw) && bc.writes == w0 + lw
      modifies this`n, this`mem, this`slots, bc
      ensures n == 0 && Valid() && SameHome(l, mem, m0) && Held() == old(Held())
      ensures Committed(l, bs, m0, d0, w0, bc.disk, bc.writes)
    {
      hide Word, At, ApplyWrites, Coherent, PutHeader, PutEntries, Entries, LogIdle, SpareBuffer, Installing, Held;
      ghost var t := Txn(bs, Newest(m0, bs));
      ghost var h := PutHeader(At(d0, l.start), bs);
      CommitComposes(l, d0, t);
      CommitKeepsMemory(l, m0, t, h, Cleared(h));
      HeadAndInstall(t.data);
      ClearHead();
    }

    /** The header write, from which on the transaction is durable, and the copies home. */
    method HeadAndInstall(ghost data: seq<Block>)
      requires |block| == LOGSIZE && n <= LOGSIZE && dirty == {} && |data| == n
      requires Coherent(block[..n], slots) && LogIdle() && SpareBuffer()
      requires forall k | 0 <= k < n :: At(mem, l.start + 1 + k) == data[k]
      modifies this`mem, this`slots, bc
      ensures Installing(false, []) && Held() == old(Held())
      ensures var h, iw := PutHeader(At(old(bc.disk), l.start), block[..n]), InstallWrites(block[..n], data);
              && mem == ApplyWrites(old(mem)[l.start := h], iw)
              && bc.disk == ApplyWrites(old(bc.disk)[l.start := h], iw)
              && bc.writes == old(bc.writes) + [Write(l.start, h)] + iw
    {
      hide Word, ApplyWrites, PutHeader, PutEntries, CacheFresh, DiskFresh, Pinned, Unique, BCache.ListOk;
      ghost var bs := block[..n];
      WriteHead(bs, slots);
      assert SpareBuffer();
      forall k | 0 <= k < n ensures LogData(l, mem, n)[k] == data[k] {
        assert At(mem, l.start + 1 + k) == At(old(mem), l.start + 1 + k);
      }
      assert LogData(l, mem, n) == data;
      InstallTrans(false);
    }

    /** Write a header that lists nothing. */
    method ClearHead()
      requires |block| == LOGSIZE && l.size > 0 && |ops| == outstanding && Installing(false, [])
      modifies this`n, this`mem, bc
      ensures n == 0 && Valid() && Held() == old(Held())
      ensures var h := Cleared(At(old(bc.disk), l.start));
              && mem == old(mem)[l.start := h]
              && bc.disk == old(bc.disk)[l.start := h]
              && bc.writes == old(bc.writes) + [Write(l.start, h)]
    {
      hide Word, PutWord, Entries, CacheFresh, DiskFresh, Pinned, Unique, BCache.ListOk;
      n := 0;
      assert block[..n] == [] && slots == [];
      ClearedIsEmpty(At(bc.disk, l.start));
      WriteHead([], []);
    }

    /** read_head: take count and entries from the header block on disk. */
    method ReadHead()
      requires Coherent([], []) && LogIdle() && SpareBuffer() && dirty == {} && l.size > 0
      requires |block| == LOGSIZE && SaneCount(At(bc.disk, l.start))
      modifies this`n, this`block, bc
      ensures Coherent([], []) && LogIdle() && bc.refcnt == old(bc.refcnt) && Held() == old(Held())
      ensures bc.disk == old(bc.disk) && bc.writes == old(bc.writes)
      ensures |block| == LOGSIZE && n <= LOGSIZE && block[..n] == Entries(At(bc.disk, l.start))
    {
      hide Word, Entries, BCache.ListOk, Unique, CacheFresh, Unpinned, ValidBlocks, Pinned;
      var buf := Get(l.start, [], []);
      assert buf.Some?;
      var b := buf.value;
      var h := bc.data[b];
      assert h == At(bc.disk, l.start);
      Release(b, [], []);
      assert bc.refcnt == old(bc.refcnt);
      LoadEntries(h);
    }

    method LoadEntries(h: Block)
      requires |block| == LOGSIZE && SaneCount(h)
      modifies this`n, this`block
      ensures |block| == LOGSIZE && n <= LOGSIZE && block[..n] == Entries(h)
    {
      n := Word(h, 0);
      var i := 0;
      while i < n
        modifies this`block
        invariant 0 <= i <= n <= LOGSIZE && n == Word(h, 0) && |block| == LOGSIZE
        invariant forall k | 0 <= k < i :: block[k] == Word(h, k + 1)
      {
        block := block[i := Word(h, i + 1)];
        i := i + 1;
      }
    }

    /** recover_from_log() on a machine that just booted: the disk writes are exactly those of
        LogCrash.RecoveryWrites. */
    method RecoverFromLog()
      requires Coherent([], []) && slots == [] && dirty == {} && l.size > 0 && |block| == LOGSIZE && |ops| == outstanding
      requires HeaderOk(l, bc.disk) && forall i | 0 <= i < NBUF :: bc.refcnt[i] == 0
      modifies this`n, this`block, this`mem, this`slots, bc
      ensures Valid() && n == 0 && Held() == old(Held())
      ensures bc.writes == old(bc.writes) + RecoveryWrites(l, old(bc.disk))
      ensures bc.disk == Recovered(l, old(bc.disk))
    {
      hide Word, PutWord, PutHeader, PutEntries, CacheFresh, Pinned, Unique, BCache.ListOk, ApplyWrites;
      ghost var d0 := bc.disk;
      assert bc.refcnt[0] == 0;
      ReadHead();
      assert bc.refcnt[0] == 0;
      LogDataAgrees(l, mem, d0, n);
      RecoveryComposes(l, d0);
      InstallTrans(true);
      ClearAfterRecovery();
    }

    method ClearAfterRecovery()
      requires |block| == LOGSIZE && l.size > 0 && |ops| == outstanding && Installing(true, [])
      modifies this`n, this`mem, bc
      ensures n == 0 && Valid() && Held() == old(Held())
      ensures var h := Cleared(At(old(bc.disk), l.start));
              bc.disk == old(bc.disk)[l.start := h] && bc.writes == old(bc.writes) + [Write(l.start, h)]
    {
      hide Word, PutWord, Entries, CacheFresh, DiskFresh, Pinned, Unique, BCache.ListOk;
      assert Installing(false, []);
      ClearHead();
    }

    /** One pass of the wait loop of begin_op() by operation op; false means it sleeps. */
    method BeginOp(ghost op: nat) returns (admitted: bool)
      requires Valid() && op !in ops
      modifies this`outstanding, this`ops
      ensures Valid()
      ensures admitted <==> !committing && n + MAXOPBLOCKS * (old(outstanding) + 1) <= LOGSIZE
      ensures admitted ==> outstanding == old(outstanding) + 1 && n + MAXOPBLOCKS * outstanding <= LOGSIZE
      ensures admitted ==> LogBudget.Next(l.size, old(Account()), LogBudget.Begin(op), Account())
      ensures !admitted ==> unchanged(this)
      ensures old(WithinBudget()) ==> WithinBudget()
    {
      hide CacheFresh, DiskFresh, Pinned, BCache.ListOk, Unique, Entries, SaneCount, ValidBlocks, LogIdle, LogBudget.Reachable;
      if committing {
        return false;
      } else if n + (outstanding + 1) * MAXOPBLOCKS > LOGSIZE {
        return false;
      }
      outstanding := outstanding + 1;
      ops := ops[op := MAXOPBLOCKS];
      if old(WithinBudget()) {
        LogBudget.Extend(l.size, old(Account()), LogBudget.Begin(op), Account());
      }
      return true;
    }

    /** end_op() by operation op: the last one to leave commits everything. None is a panic. */
    method EndOp(ghost op: nat) returns (ok: bool)
      requires Valid() && op in ops && !committing
      requires outstanding == 1 ==> dirty == {}
      modifies this, bc
      ensures outstanding == old(outstanding) - 1 && ops == old(ops) - {op}
      ensures ok <==> old(outstanding) > 1 || old(n) == 0 || old(SpareBuffer())
      ensures ok ==> Valid() && !committing && SameHome(l, mem, old(mem))
      ensures ok && outstanding > 0 ==> n == old(n) && block == old(block) && unchanged(bc)
      ensures ok && outstanding == 0 ==> n == 0
      ensures ok && outstanding == 0 && old(n) > 0 ==>
                Committed(l, old(block[..n]), old(mem), old(bc.disk), old(bc.writes), bc.disk, bc.writes)
      ensures !ok || old(n) == 0 ==> unchanged(bc)
      ensures ok ==> LogBudget.Ended(l.size, old(Account()), op, Account()) && (old(WithinBudget()) ==> WithinBudget())
      ensures dirty == old(dirty) && Held() == old(Held())
    {
      hide CacheFresh, DiskFresh, Pinned, BCache.ListOk, Unique, Entries, SaneCount, ValidBlocks, Committed, Unpinned, LogIdle, LogBudget.Reachable, LogBudget.Next;
      var last := Leave(op);
      ok := true;
      if last {
        ok := CommitAll();
      }
    }

    /** end_op() under the lock: does this operation have to commit? */
    method Leave(ghost op: nat) returns (last: bool)
      requires Valid() && op in ops && !committing
      modifies this`outstanding, this`ops, this`committing
      ensures Valid() && outstanding == old(outstanding) - 1 && ops == old(ops) - {op}
      ensures committing == last == (outstanding == 0)
      ensures LogBudget.Next(l.size, old(Account()), LogBudget.End(op), Account())
      ensures old(WithinBudget()) ==> WithinBudget()
    {
      hide CacheFresh, DiskFresh, Pinned, BCache.ListOk, Unique, Entries, SaneCount, ValidBlocks, LogIdle, LogBudget.Reachable;
      OneLess(ops, op);
      outstanding := outstanding - 1;
      ops := ops - {op};
      last := outstanding == 0;
      if last {
        committing := true;
      }
      if old(WithinBudget()) {
        LogBudget.Extend(l.size, old(Account()), LogBudget.End(op), Account());
      }
    }

    /** The rest of end_op(), by the last operation: until it is done, begin_op() admits nobody. */
    method CommitAll() returns (ok: bool)
      requires Valid() && committing && outstanding == 0 && dirty == {}
      modifies this`n, this`mem, this`slots, this`committing, bc
      ensures ok <==> old(n) == 0 || old(SpareBuffer())
      ensures ok ==> Valid() && n == 0 && !committing && LogBudget.Next(l.size, old(Account()), LogBudget.CommitDone, Account())
      ensures ok && old(WithinBudget()) ==> WithinBudget()
      ensures ok && old(n) > 0 ==>
                Committed(l, old(block[..n]), old(mem), old(bc.disk), old(bc.writes), bc.disk, bc.writes)
      ensures !ok || old(n) == 0 ==> unchanged(bc)
      ensures SameHome(l, mem, old(mem)) && Held() == old(Held())
    {
      hide CacheFresh, DiskFresh, Pinned, BCache.ListOk, Unique, Entries, SaneCount, ValidBlocks, Committed, Unpinned, LogIdle, LogBudget.Reachable;
      ok := Commit();
      if ok {
        committing := false;
        if old(WithinBudget()) {
          LogBudget.Extend(l.size, old(Account()), LogBudget.CommitDone, Account());
        }
      }
    }
  }

  /** The budgets after operation op logged block b: a block that is not listed yet costs one. */
  ghost function Charged(bs: seq<nat>, ops: map<nat, nat>, op: nat, b: nat): (r: map<nat, nat>)
    ensures r.Keys == ops.Keys && |r| == |ops|
  {
    if b in bs || op !in ops || ops[op] == 0 then ops
    else
      assert ops[op := ops[op] - 1].Keys == ops.Keys;
      ops[op := ops[op] - 1]
  }

  /** Operation op is under way, and has budget left if block b is not listed. */
  ghost predicate Affords(s: LogBudget.Book, op: nat, b: nat) {
    op in s.ops && (b in s.blocks || s.ops[op] > 0)
  }

  lemma ChargedStep(size: nat, s: LogBudget.Book, t: LogBudget.Book, op: nat, b: Uint)
    requires !LogBudget.TooBig(s, size)
    requires t.blocks == (if b in s.blocks then s.blocks else s.blocks + [b]) && t.committing == s.committing
    requires t.ops == Charged(s.blocks, s.ops, op, b)
    ensures Affords(s, op, b) ==> LogBudget.Next(size, s, LogBudget.Log(op, b), t)
  {
  }

  lemma OneLess(ops: map<nat, nat>, op: nat)
    requires op in ops
    ensures |ops - {op}| == |ops| - 1 && (ops.Keys == {op} <==> |ops| == 1)
  {
    assert (ops - {op}).Keys == ops.Keys - {op};
    if |ops| == 1 {
      assert |ops.Keys - {op}| == 0;
      assert ops.Keys == {op} + (ops.Keys - {op});
    }
  }

  /** The newest contents of the listed blocks. */
  ghost function Newest(mem: Disk, bs: seq<Uint>): (r: seq<Block>)
    ensures |r| == |bs|
  {
    seq<Block>(|bs|, k requires 0 <= k < |bs| => At(mem, bs[k]))
  }

  /** The logged blocks after logging b: unchanged if b was there already, else b at the end. */
  ghost function Logged(bs: seq<Uint>, b: Uint): (r: seq<Uint>) {
    if b in bs then bs else bs + [b]
  }

  /** With no references but the pins, a spare buffer exists exactly when fewer than NBUF blocks
      are logged; NBUF equals LOGSIZE, so a full log leaves commit() without a buffer. */
  lemma SpareBufferIff(dev: seq<nat>, blockno: seq<nat>, valid: seq<bool>, pins: seq<nat>, bs: seq<Uint>, ss: seq<nat>)
    requires |dev| == |blockno| == |valid| == |pins| == NBUF && Pinned(dev, blockno, valid, pins, bs, ss)
    requires forall j, k | 0 <= j < k < |bs| :: bs[j] != bs[k]
    ensures (exists i | 0 <= i < NBUF :: pins[i] == 0) <==> |bs| < NBUF
  {
    forall j, k | 0 <= j < k < |ss| ensures ss[j] != ss[k] {
      assert Holds(dev, blockno, ss[j], DEV, bs[j]) && Holds(dev, blockno, ss[k], DEV, bs[k]);
    }
    forall k | 0 <= k < |ss| ensures ss[k] < NBUF {
      assert Holds(dev, blockno, ss[k], DEV, bs[k]);
    }
    MissingIff(ss, NBUF);
    assert forall i | 0 <= i < NBUF :: pins[i] == 0 <==> i !in ss;
  }

  /** No caller holds a buffer. */
  const NOBODY: seq<int> := seq(NBUF, _ => 0)

  /** A full log has every buffer pinned; when callers hold none, that is the only way to run out. */
  lemma SpareWhenNotFull(fl: FsLog)
    requires fl.Valid()
    ensures fl.n == LOGSIZE ==> !fl.SpareBuffer()
    ensures fl.Held() == NOBODY ==> (fl.SpareBuffer() <==> fl.n < LOGSIZE)
  {
    hide At, BCache.ListOk, Entries, SaneCount, Unique, Unpinned;
    var bc := fl.bc;
    SpareBufferIff(bc.dev, bc.blockno, bc.valid, bc.pins, fl.block[..fl.n], fl.slots);
    if fl.Held() == NOBODY {
      OnlyPins(bc.refcnt, bc.pins);
    }
  }

  lemma OnlyPins(refcnt: seq<nat>, pins: seq<nat>)
    requires |refcnt| == |pins| == NBUF && Unpinned(refcnt, pins) == NOBODY
    ensures refcnt == pins
  {
    forall i | 0 <= i < NBUF ensures refcnt[i] == pins[i] {
      assert Unpinned(refcnt, pins)[i] == 0;
    }
  }

  /** Operations that keep to their budgets never meet the panic of log_write, if the log area has
      LOGSIZE + 1 blocks: the reservation holds of the log itself. */
  lemma BudgetIsRoom(fl: FsLog, op: nat)
    requires fl.Valid() && fl.WithinBudget()
    ensures fl.n + LogBudget.Total(fl.ops) <= LOGSIZE
    ensures op in fl.ops && fl.ops[op] > 0 && fl.l.size > LOGSIZE ==> fl.n < LOGSIZE && fl.n < fl.l.size - 1 && fl.outstanding >= 1
  {
    hide FsLog.Coherent, FsLog.LogIdle, FsLog.HeaderEmpty, LogBudget.Reachable;
    LogBudget.SpaceReserved(fl.l.size, fl.Account());
    if op in fl.ops {
      LogBudget.TotalSplit(fl.ops, op);
    }
  }

  /** Three operations that log LOGSIZE blocks, each MAXOPBLOCKS of them, the most that begin_op
      admits: on a log area with room for them, the commit of the last one finds no buffer and panics. */
  method FullLogPanics(l: Layout, disk: Disk) returns (ok: bool)
    requires l.size > LOGSIZE && l.start + l.size + LOGSIZE <= UINT_LIMIT && HeaderOk(l, disk)
    ensures !ok
  {
    hide FsLog.Coherent, FsLog.LogIdle, FsLog.HeaderEmpty, Unpinned, FsLog.WithinBudget;
    var fl := Booted(l, disk);
    ThreeBegin(fl);
    var k := 0;
    while k < LOGSIZE
      invariant 0 <= k <= LOGSIZE && Filling(fl, k) && fl.l == l && fresh(fl) && fresh(fl.bc)
    {
      LogNext(fl, k);
      k := k + 1;
    }
    ok := ThreeEnd(fl);
  }

  /** Three operations have logged the first k blocks after the log area, within their budgets. */
  ghost predicate Filling(fl: FsLog, k: nat)
    reads fl, fl.bc
  {
    && fl.Valid() && k <= LOGSIZE && fl.n == k && fl.dirty == {} && fl.Held() == NOBODY
    && fl.outstanding == 3 && !fl.committing && fl.ops == LogBudget.Filled(k).ops && fl.WithinBudget()
    && forall j | 0 <= j < k :: fl.block[j] == fl.l.start + fl.l.size + j
  }

  method LogNext(fl: FsLog, k: nat)
    requires k < LOGSIZE && Filling(fl, k) && fl.l.size > LOGSIZE && fl.l.start + fl.l.size + LOGSIZE <= UINT_LIMIT
    modifies fl, fl.bc
    ensures Filling(fl, k + 1)
  {
    hide FsLog.Coherent, FsLog.LogIdle, FsLog.HeaderEmpty, Unpinned, FsLog.WithinBudget, LogBudget.Next, Charged, LogBudget.Filled;
    SpareWhenNotFull(fl);
    FilledNext(fl.block[..fl.n], k, fl.l.start + fl.l.size + k);
    ghost var was := fl.block[..fl.n];
    var ok := fl.Update(fl.l.start + fl.l.size + k, ZERO_BLOCK, k / MAXOPBLOCKS);
    forall j | 0 <= j <= k ensures fl.block[j] == fl.l.start + fl.l.size + j {
      assert fl.block[j] == fl.block[..fl.n][j] == (was + [fl.l.start + fl.l.size + k])[j];
    }
  }

  method ThreeEnd(fl: FsLog) returns (ok: bool)
    requires Filling(fl, LOGSIZE)
    modifies fl, fl.bc
    ensures !ok
  {
    hide FsLog.Coherent, FsLog.LogIdle, FsLog.HeaderEmpty, Unpinned, FsLog.WithinBudget, LogBudget.Next, LogBudget.Ended, LogBudget.Filled;
    FilledOps(LOGSIZE);
    SpareWhenNotFull(fl);
    ok := fl.EndOp(0);
    SpareWhenNotFull(fl);
    ok := fl.EndOp(1);
    SpareWhenNotFull(fl);
    ok := fl.EndOp(2);
  }

  method ThreeBegin(fl: FsLog)
    requires fl.Valid() && fl.n == 0 && fl.outstanding == 0 && !fl.committing && fl.ops == map[] && fl.WithinBudget()
    modifies fl`outstanding, fl`ops
    ensures fl.Valid() && fl.outstanding == 3 && fl.ops == LogBudget.Filled(0).ops && fl.WithinBudget() && fl.Held() == old(fl.Held())
  {
    hide FsLog.Coherent, FsLog.LogIdle, FsLog.HeaderEmpty, FsLog.WithinBudget;
    var a := fl.BeginOp(0);
    assert fl.ops == map[0 := MAXOPBLOCKS];
    a := fl.BeginOp(1);
    assert fl.ops == map[0 := MAXOPBLOCKS, 1 := MAXOPBLOCKS];
    a := fl.BeginOp(2);
  }

  lemma FilledOps(k: nat)
    requires k <= LOGSIZE
    ensures LogBudget.Filled(k).ops.Keys == {0, 1, 2}
  {
  }

  lemma FilledNext(bs: seq<Uint>, k: nat, b: Uint)
    requires k < LOGSIZE && b !in bs
    ensures var ops, op := LogBudget.Filled(k).ops, k / MAXOPBLOCKS;
            op in ops && ops[op] > 0 && Charged(bs, ops, op, b) == LogBudget.Filled(k + 1).ops
  {
  }

  method Booted(l: Layout, disk: Disk) returns (fl: FsLog)
    requires l.size > 0 && HeaderOk(l, disk)
    ensures fl.Valid() && fl.l == l && fl.n == 0 && fl.dirty == {} && fl.Held() == NOBODY
    ensures fl.outstanding == 0 && !fl.committing && fl.ops == map[] && fl.WithinBudget() && fresh(fl) && fresh(fl.bc)
  {
    hide BCache.ListOk, Unique, HeaderOk, RecoveryWrites, Recovered, LogBudget.Reachable;
    var bc := new BCache(disk);
    fl := new FsLog(bc, l);
    fl.RecoverFromLog();
    LogBudget.StartReachable(l.size);
    assert fl.Account() == LogBudget.START;
  }
}
