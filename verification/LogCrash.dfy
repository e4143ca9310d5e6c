/** The crash behaviour of the redo log of kernel/log.c: what the disk holds after any prefix of
    the block writes of a commit or of a recovery, and over every run with crashes anywhere. */
module LogCrash {
  import opened Blocks
  import opened Common

  /** The log occupies blocks start .. start+size-1: the header block, then the logged blocks. */
  datatype Layout = Layout(start: nat, size: nat)

  predicate InLog(l: Layout, b: nat) {
    l.start <= b < l.start + l.size
  }

  // ------------------------------------------------------------------ the header block

  function PutEntries(h: Block, bs: seq<Uint>): (r: Block)
    requires |bs| <= LOGSIZE
  {
    if bs == [] then h
    else PutWord(PutEntries(h, bs[..|bs| - 1]), |bs|, bs[|bs| - 1])
  }

  /** The header block after write_head stored n and the first n entries over block h. */
  function PutHeader(h: Block, bs: seq<Uint>): (r: Block)
    requires |bs| <= LOGSIZE
  {
    PutEntries(PutWord(h, 0, |bs|), bs)
  }

  function Cleared(h: Block): (r: Block) {
    PutWord(h, 0, 0)
  }

  predicate SaneCount(h: Block) {
    Word(h, 0) <= LOGSIZE
  }

  /** The block numbers a header block lists. */
  function Entries(h: Block): (bs: seq<Uint>)
    requires SaneCount(h)
    ensures |bs| == Word(h, 0)
    ensures forall i | 0 <= i < |bs| :: bs[i] == Word(h, i + 1)
  {
    seq(Word(h, 0), i requires 0 <= i < LOGSIZE => Word(h, i + 1))
  }

  lemma {:induction false} PutEntriesWords(h: Block, bs: seq<Uint>)
    requires |bs| <= LOGSIZE
    ensures Word(PutEntries(h, bs), 0) == Word(h, 0)
    ensures forall i | 0 <= i < |bs| :: Word(PutEntries(h, bs), i + 1) == bs[i]
  {
    hide Word, PutWord;
    if bs != [] {
      var n := |bs| - 1;
      PutEntriesWords(h, bs[..n]);
      WordPutWord(PutEntries(h, bs[..n]), n + 1, bs[n], 0);
      forall i | 0 <= i <= n ensures Word(PutEntries(h, bs), i + 1) == bs[i] {
        WordPutWord(PutEntries(h, bs[..n]), n + 1, bs[n], i + 1);
      }
    }
  }

  /** Reading back a header block gives what write_head stored, whatever was there before. */
  lemma HeaderRoundTrip(h: Block, bs: seq<Uint>)
    requires |bs| <= LOGSIZE
    ensures SaneCount(PutHeader(h, bs)) && Entries(PutHeader(h, bs)) == bs
  {
    PutEntriesWords(PutWord(h, 0, |bs|), bs);
    WordPutWord(h, 0, |bs|, 0);
  }

  lemma ClearedIsEmpty(h: Block)
    ensures SaneCount(Cleared(h)) && Entries(Cleared(h)) == []
  {
  }

  // ------------------------------------------------------------------ the writes

  /** The new contents of distinct home blocks that one commit makes durable. */
  datatype Txn = Txn(blocks: seq<Uint>, data: seq<Block>)

  ghost predicate ValidBlocks(l: Layout, bs: seq<Uint>) {
    && |bs| <= LOGSIZE && |bs| < l.size
    && (forall i | 0 <= i < |bs| :: !InLog(l, bs[i]))
    && (forall i, j | 0 <= i < j < |bs| :: bs[i] != bs[j])
  }

  ghost predicate ValidTxn(l: Layout, t: Txn) {
    |t.blocks| == |t.data| > 0 && ValidBlocks(l, t.blocks)
  }

  /** write_log: block i of the transaction goes to log block start+1+i. */
  function LogWrites(l: Layout, data: seq<Block>): (ws: seq<Write>)
    ensures |ws| == |data|
  {
    seq(|data|, i requires 0 <= i < |data| => Write(l.start + 1 + i, data[i]))
  }

  /** install_trans: log block i goes to its home. */
  function InstallWrites(bs: seq<Uint>, data: seq<Block>): (ws: seq<Write>)
    requires |bs| == |data|
    ensures |ws| == |data|
  {
    seq(|data|, i requires 0 <= i < |data| => Write(bs[i], data[i]))
  }

  /** All disk writes of commit(), in order, starting from header block h. */
  function CommitWrites(l: Layout, h: Block, t: Txn): (ws: seq<Write>)
    requires |t.blocks| == |t.data| <= LOGSIZE
    ensures |ws| == 2 * |t.data| + 2
  {
    LogWrites(l, t.data) + [Write(l.start, PutHeader(h, t.blocks))]
    + InstallWrites(t.blocks, t.data) + [Write(l.start, Cleared(PutHeader(h, t.blocks)))]
  }

  function LogData(l: Layout, d: Disk, n: nat): (r: seq<Block>)
    ensures |r| == n
  {
    seq<Block>(n, i requires 0 <= i => At(d, l.start + 1 + i))
  }

  ghost predicate HeaderOk(l: Layout, d: Disk) {
    SaneCount(At(d, l.start)) && ValidBlocks(l, Entries(At(d, l.start)))
  }

  /** All disk writes of recover_from_log(), in order. */
  function RecoveryWrites(l: Layout, d: Disk): (ws: seq<Write>)
    requires SaneCount(At(d, l.start))
    ensures |ws| == Word(At(d, l.start), 0) + 1
  {
    var h := At(d, l.start);
    InstallWrites(Entries(h), LogData(l, d, |Entries(h)|)) + [Write(l.start, Cleared(h))]
  }

  function Recovered(l: Layout, d: Disk): (r: Disk)
    requires SaneCount(At(d, l.start))
  {
    ApplyWrites(d, RecoveryWrites(l, d))
  }

  function ApplyTxn(d: Disk, t: Txn): (r: Disk)
    requires |t.blocks| == |t.data|
  {
    ApplyWrites(d, InstallWrites(t.blocks, t.data))
  }

  // ------------------------------------------------------------------ effect of a prefix

  lemma {:induction false} ApplyAppend(d: Disk, a: seq<Write>, b: seq<Write>)
    ensures ApplyWrites(d, a + b) == ApplyWrites(ApplyWrites(d, a), b)
  {
    if b == [] {
      assert a + b == a;
    } else {
      var n := |b| - 1;
      assert (a + b)[..|a + b| - 1] == a + b[..n];
      ApplyAppend(d, a, b[..n]);
    }
  }

  lemma ApplyNext(d: Disk, ws: seq<Write>, k: nat)
    requires k < |ws|
    ensures ApplyWrites(d, ws[..k + 1]) == ApplyWrites(d, ws[..k])[ws[k].blockno := ws[k].data]
  {
    assert ws[..k + 1][..k] == ws[..k];
  }

  lemma ApplyEmptyPrefix(d: Disk, ws: seq<Write>)
    ensures ApplyWrites(d, ws[..0]) == d
  {
  }

  lemma {:induction false} ApplyLogPrefix(l: Layout, d: Disk, data: seq<Block>, k: nat)
    requires k <= |data|
    ensures var d' := ApplyWrites(d, LogWrites(l, data)[..k]);
            && (forall i | 0 <= i < k :: At(d', l.start + 1 + i) == data[i])
            && (forall b: nat | !(l.start < b <= l.start + k) :: At(d', b) == At(d, b))
  {
    hide ApplyWrites;
    if k == 0 {
      ApplyEmptyPrefix(d, LogWrites(l, data));
    } else {
      ApplyLogPrefix(l, d, data, k - 1);
      ApplyNext(d, LogWrites(l, data), k - 1);
    }
  }

  lemma {:induction false} ApplyInstallPrefix(d: Disk, bs: seq<Uint>, data: seq<Block>, k: nat)
    requires |bs| == |data| && k <= |data|
    requires forall i, j | 0 <= i < j < |bs| :: bs[i] != bs[j]
    ensures var d' := ApplyWrites(d, InstallWrites(bs, data)[..k]);
            && (forall i | 0 <= i < k :: At(d', bs[i]) == data[i])
            && (forall b: nat | b !in bs[..k] :: At(d', b) == At(d, b))
  {
    hide ApplyWrites;
    if k == 0 {
      ApplyEmptyPrefix(d, InstallWrites(bs, data));
    } else {
      ApplyInstallPrefix(d, bs, data, k - 1);
      ApplyNext(d, InstallWrites(bs, data), k - 1);
      forall b: nat | b !in bs[..k]
        ensures At(ApplyWrites(d, InstallWrites(bs, data)[..k]), b) == At(d, b)
      {
        assert b != bs[k - 1] by { assert bs[k - 1] == bs[..k][k - 1]; }
        assert b !in bs[..k - 1];
      }
    }
  }

  lemma ApplyInstall(d: Disk, bs: seq<Uint>, data: seq<Block>)
    requires |bs| == |data|
    requires forall i, j | 0 <= i < j < |bs| :: bs[i] != bs[j]
    ensures var d' := ApplyWrites(d, InstallWrites(bs, data));
            && (forall i | 0 <= i < |bs| :: At(d', bs[i]) == data[i])
            && (forall b: nat | b !in bs :: At(d', b) == At(d, b))
  {
    ApplyInstallPrefix(d, bs, data, |bs|);
    assert InstallWrites(bs, data)[..|bs|] == InstallWrites(bs, data) && bs[..|bs|] == bs;
  }

  ghost predicate SameHome(l: Layout, d: Disk, e: Disk) {
    forall b: nat | !InLog(l, b) :: At(d, b) == At(e, b)
  }

  lemma ApplyOne(d: Disk, w: Write)
    ensures ApplyWrites(d, [w]) == d[w.blockno := w.data]
  {
  }

  /** What recovery makes of a disk, block by block. */
  lemma RecoveredHome(l: Layout, d: Disk)
    requires l.size > 0 && HeaderOk(l, d)
    ensures var bs, r := Entries(At(d, l.start)), Recovered(l, d);
            && (forall i | 0 <= i < |bs| :: At(r, bs[i]) == At(d, l.start + 1 + i))
            && (forall b: nat | b !in bs && !InLog(l, b) :: At(r, b) == At(d, b))
  {
    hide Word, PutWord, ApplyWrites, Cleared, LogWrites;
    var h := At(d, l.start);
    var bs := Entries(h);
    var ws := InstallWrites(bs, LogData(l, d, |bs|));
    ApplyInstall(d, bs, LogData(l, d, |bs|));
    ApplyAppend(d, ws, [Write(l.start, Cleared(h))]);
    ApplyOne(ApplyWrites(d, ws), Write(l.start, Cleared(h)));
  }

  /** A crash after any k writes of a commit: recovery gives all of the transaction if the header
      was written, and none of it otherwise. */
  lemma CommitPrefix(l: Layout, d: Disk, t: Txn, k: nat)
    requires l.size > 0 && SaneCount(At(d, l.start)) && Entries(At(d, l.start)) == [] && ValidTxn(l, t)
    requires k <= 2 * |t.data| + 2
    ensures var d' := ApplyWrites(d, CommitWrites(l, At(d, l.start), t)[..k]);
            && HeaderOk(l, d')
            && SameHome(l, Recovered(l, d'), if k <= |t.data| then d else ApplyTxn(d, t))
            && (k <= |t.data| ==> SameHome(l, d', d))
            && (k == 2 * |t.data| + 2 ==> Entries(At(d', l.start)) == [])
  {
    hide ApplyWrites, LogWrites, InstallWrites, CommitWrites, Recovered, Word, PutWord, PutHeader, Cleared;
    var n := |t.data|;
    if k <= n {
      CommitBeforeHeader(l, d, t, k);
    } else if k <= 2 * n + 1 {
      CommitAfterHeader(l, d, t, k);
    } else {
      CommitCleared(l, d, t);
    }
  }

  lemma CommitBeforeHeader(l: Layout, d: Disk, t: Txn, k: nat)
    requires l.size > 0 && SaneCount(At(d, l.start)) && Entries(At(d, l.start)) == [] && ValidTxn(l, t)
    requires k <= |t.data|
    ensures var d' := ApplyWrites(d, CommitWrites(l, At(d, l.start), t)[..k]);
            At(d', l.start) == At(d, l.start) && HeaderOk(l, d') && SameHome(l, Recovered(l, d'), d) && SameHome(l, d', d)
  {
    var ws := CommitWrites(l, At(d, l.start), t);
    assert ws[..k] == LogWrites(l, t.data)[..k];
    ApplyLogPrefix(l, d, t.data, k);
    RecoveredHome(l, ApplyWrites(d, ws[..k]));
  }

  lemma HeaderWritten(l: Layout, d: Disk, t: Txn)
    requires l.size > 0 && ValidTxn(l, t)
    ensures var d' := ApplyWrites(d, LogWrites(l, t.data) + [Write(l.start, PutHeader(At(d, l.start), t.blocks))]);
            && At(d', l.start) == PutHeader(At(d, l.start), t.blocks)
            && (forall i | 0 <= i < |t.data| :: At(d', l.start + 1 + i) == t.data[i])
            && SameHome(l, d', d)
  {
    var n, lw, hw := |t.data|, LogWrites(l, t.data), Write(l.start, PutHeader(At(d, l.start), t.blocks));
    assert lw[..n] == lw && (lw + [hw])[..n] == lw;
    ApplyLogPrefix(l, d, t.data, n);
  }

  /** The disk once the header and k-n-1 home blocks are written. */
  lemma CommitInstalling(l: Layout, d: Disk, t: Txn, k: nat)
    requires l.size > 0 && ValidTxn(l, t)
    requires |t.data| < k <= 2 * |t.data| + 1
    ensures var d' := ApplyWrites(d, CommitWrites(l, At(d, l.start), t)[..k]);
            && At(d', l.start) == PutHeader(At(d, l.start), t.blocks)
            && (forall i | 0 <= i < |t.data| :: At(d', l.start + 1 + i) == t.data[i])
            && (forall i | 0 <= i < k - |t.data| - 1 :: At(d', t.blocks[i]) == t.data[i])
            && (forall b: nat | !InLog(l, b) && b !in t.blocks :: At(d', b) == At(d, b))
  {
    hide ApplyWrites, Word, PutWord, PutHeader;
    var h, m := At(d, l.start), k - |t.data| - 1;
    var pre, iw := LogWrites(l, t.data) + [Write(l.start, PutHeader(h, t.blocks))], InstallWrites(t.blocks, t.data);
    var d2 := ApplyWrites(d, pre);
    assert CommitWrites(l, h, t)[..k] == pre + iw[..m];
    HeaderWritten(l, d, t);
    ApplyAppend(d, pre, iw[..m]);
    ApplyInstallPrefix(d2, t.blocks, t.data, m);
    assert forall b | b in t.blocks[..m] :: b in t.blocks;
    assert forall b | InLog(l, b) :: b !in t.blocks;
  }

  lemma CommitAfterHeader(l: Layout, d: Disk, t: Txn, k: nat)
    requires l.size > 0 && ValidTxn(l, t)
    requires |t.data| < k <= 2 * |t.data| + 1
    ensures var d' := ApplyWrites(d, CommitWrites(l, At(d, l.start), t)[..k]);
            && HeaderOk(l, d') && Entries(At(d', l.start)) == t.blocks
            && SameHome(l, Recovered(l, d'), ApplyTxn(d, t))
            && (k == 2 * |t.data| + 1 ==> SameHome(l, d', ApplyTxn(d, t)))
  {
    CommitInstalling(l, d, t, k);
    HeaderRoundTrip(At(d, l.start), t.blocks);
    var d' := ApplyWrites(d, CommitWrites(l, At(d, l.start), t)[..k]);
    RecoveredHome(l, d');
    ApplyInstall(d, t.blocks, t.data);
    forall b: nat | !InLog(l, b)
      ensures At(Recovered(l, d'), b) == At(ApplyTxn(d, t), b)
      ensures k == 2 * |t.data| + 1 ==> At(d', b) == At(ApplyTxn(d, t), b)
    {
      if b in t.blocks {
        var i :| 0 <= i < |t.blocks| && t.blocks[i] == b;
      }
    }
  }

  lemma EmptyHeaderRecovers(l: Layout, d: Disk)
    requires l.size > 0 && SaneCount(At(d, l.start)) && Entries(At(d, l.start)) == []
    ensures HeaderOk(l, d) && SameHome(l, Recovered(l, d), d)
  {
    RecoveredHome(l, d);
  }

  lemma CommitCleared(l: Layout, d: Disk, t: Txn)
    requires l.size > 0 && ValidTxn(l, t)
    ensures var d' := ApplyWrites(d, CommitWrites(l, At(d, l.start), t)[..2 * |t.data| + 2]);
            HeaderOk(l, d') && Entries(At(d', l.start)) == [] && SameHome(l, Recovered(l, d'), ApplyTxn(d, t))
  {
    hide Word, PutWord, PutEntries, LogWrites, InstallWrites, Recovered;
    var n, h := |t.data|, At(d, l.start);
    var ws := CommitWrites(l, h, t);
    var d1, d' := ApplyWrites(d, ws[..2 * n + 1]), ApplyWrites(d, ws[..2 * n + 2]);
    CommitAfterHeader(l, d, t, 2 * n + 1);
    assert d' == d1[l.start := Cleared(PutHeader(h, t.blocks))] by {
      assert ws[..2 * n + 2][..2 * n + 1] == ws[..2 * n + 1];
    }
    ClearedIsEmpty(PutHeader(h, t.blocks));
    EmptyHeaderRecovers(l, d');
  }

  lemma RecoveryInterrupted(l: Layout, d: Disk, k: nat)
    requires l.size > 0 && HeaderOk(l, d) && k < |RecoveryWrites(l, d)|
    ensures var d' := ApplyWrites(d, RecoveryWrites(l, d)[..k]);
            HeaderOk(l, d') && SameHome(l, Recovered(l, d'), Recovered(l, d))
  {
    hide Word, PutWord, PutEntries, ApplyWrites, InstallWrites, Recovered, Cleared;
    var bs := Entries(At(d, l.start));
    var data := LogData(l, d, |bs|);
    assert RecoveryWrites(l, d)[..k] == InstallWrites(bs, data)[..k];
    ApplyInstallPrefix(d, bs, data, k);
    var d' := ApplyWrites(d, RecoveryWrites(l, d)[..k]);
    forall b: nat | InLog(l, b) || b !in bs
      ensures At(d', b) == At(d, b)
    {
      assert b !in bs[..k];
    }
    RecoveredHome(l, d);
    RecoveredHome(l, d');
  }

  lemma RecoveryCompleted(l: Layout, d: Disk)
    requires l.size > 0 && HeaderOk(l, d)
    ensures HeaderOk(l, Recovered(l, d)) && Entries(At(Recovered(l, d), l.start)) == []
    ensures SameHome(l, Recovered(l, Recovered(l, d)), Recovered(l, d))
  {
    var h := At(d, l.start);
    var iw, clear := InstallWrites(Entries(h), LogData(l, d, |Entries(h)|)), Write(l.start, Cleared(h));
    assert (iw + [clear])[..|iw|] == iw;
    ClearedIsEmpty(h);
    EmptyHeaderRecovers(l, Recovered(l, d));
  }

  /** A crash after any k writes of a recovery: another recovery still ends at the same place. */
  lemma RecoveryPrefix(l: Layout, d: Disk, k: nat)
    requires l.size > 0 && HeaderOk(l, d) && k <= |RecoveryWrites(l, d)|
    ensures var d' := ApplyWrites(d, RecoveryWrites(l, d)[..k]);
            && HeaderOk(l, d')
            && SameHome(l, Recovered(l, d'), Recovered(l, d))
            && (k == |RecoveryWrites(l, d)| ==> Entries(At(d', l.start)) == [])
  {
    if k < |RecoveryWrites(l, d)| {
      RecoveryInterrupted(l, d, k);
    } else {
      assert RecoveryWrites(l, d)[..k] == RecoveryWrites(l, d);
      RecoveryCompleted(l, d);
    }
  }

  // ------------------------------------------------------------------ runs

  /** What the machine is doing: the disk has seen the first `done` writes of the commit (or
      recovery) that began on disk `from`. */
  datatype Mode =
    | Running
    | Committing(id: nat, from: Disk, done: nat)
    | Down
    | Recovering(from: Disk, done: nat)

  /** The disk and the history: transactions whose commit began, those whose header write
      happened (in order), and those whose commit() returned. */
  datatype State = State(disk: Disk, mode: Mode, started: seq<Txn>, durable: seq<nat>, finished: set<nat>)

  datatype Step = Begin(txn: Txn) | WriteNext | Crash | Reboot

  ghost predicate Init(l: Layout, d: Disk, s: State) {
    && SaneCount(At(d, l.start)) && Entries(At(d, l.start)) == []
    && s == State(d, Running, [], [], {})
  }

  ghost function Plan(l: Layout, s: State): (ws: seq<Write>)
    requires s.mode.Committing? ==> s.mode.id < |s.started| && ValidTxn(l, s.started[s.mode.id])
    requires s.mode.Recovering? ==> SaneCount(At(s.mode.from, l.start))
  {
    match s.mode
    case Committing(id, from, _) => CommitWrites(l, At(from, l.start), s.started[id])
    case Recovering(from, _) => RecoveryWrites(l, from)
    case _ => []
  }

  /** One step; a crash can come between any two block writes, also while recovering. */
  ghost predicate Next(l: Layout, s: State, step: Step, s': State) {
    match step
    case Begin(txn) =>
      && s.mode.Running? && ValidTxn(l, txn)
      && s' == s.(mode := Committing(|s.started|, s.disk, 0), started := s.started + [txn])
    case WriteNext =>
      && (s.mode.Committing? ==> s.mode.id < |s.started| && ValidTxn(l, s.started[s.mode.id]))
      && (s.mode.Recovering? ==> SaneCount(At(s.mode.from, l.start)))
      && (s.mode.Committing? || s.mode.Recovering?)
      && var plan, done := Plan(l, s), s.mode.done;
      && done < |plan|
      && var last := done + 1 == |plan|;
      s' == s.(disk := s.disk[plan[done].blockno := plan[done].data],
               mode := if last then Running else s.mode.(done := done + 1),
               durable := if s.mode.Committing? && done == |s.started[s.mode.id].data| then s.durable + [s.mode.id] else s.durable,
               finished := if s.mode.Committing? && last then s.finished + {s.mode.id} else s.finished)
    case Crash => s' == s.(mode := Down)
    case Reboot =>
      s.mode.Down? && s' == s.(mode := Recovering(s.disk, 0))
  }

  ghost predicate Run(l: Layout, states: seq<State>, steps: seq<Step>) {
    && |states| == |steps| + 1
    && forall k | 0 <= k < |steps| :: Next(l, states[k], steps[k], states[k + 1])
  }

  /** The initial disk with the listed transactions applied whole, in order. */
  ghost function Replay(d: Disk, started: seq<Txn>, ids: seq<nat>): (r: Disk)
    requires forall k | 0 <= k < |ids| :: ids[k] < |started|
    requires forall t | t in started :: |t.blocks| == |t.data|
  {
    if ids == [] then d
    else ApplyTxn(Replay(d, started, ids[..|ids| - 1]), started[ids[|ids| - 1]])
  }

  ghost predicate Bookkeeping(l: Layout, s: State) {
    && (forall t | t in s.started :: ValidTxn(l, t))
    && (forall k | 0 <= k < |s.durable| :: s.durable[k] < |s.started|)
    && (forall j, k | 0 <= j < k < |s.durable| :: s.durable[j] < s.durable[k])
    && (forall id | id in s.finished :: id in s.durable)
  }

  /** The home blocks that recovery would produce are the replay of the durable transactions. */
  ghost predicate Consistent(l: Layout, d: Disk, s: State) {
    && Bookkeeping(l, s)
    && HeaderOk(l, s.disk)
    && SameHome(l, Recovered(l, s.disk), Replay(d, s.started, s.durable))
  }

  /** Where the disk stands within the commit or recovery in progress. */
  ghost predicate InPlan(l: Layout, s: State)
    requires Bookkeeping(l, s) && HeaderOk(l, s.disk)
  {
    match s.mode
    case Running => Entries(At(s.disk, l.start)) == []
    case Down => true
    case Committing(id, from, done) =>
      && id == |s.started| - 1 && done < |Plan(l, s)|
      && SaneCount(At(from, l.start)) && Entries(At(from, l.start)) == []
      && s.disk == ApplyWrites(from, Plan(l, s)[..done])
      && (id in s.durable <==> done > |s.started[id].data|)
    case Recovering(from, done) =>
      && HeaderOk(l, from) && done < |Plan(l, s)|
      && s.disk == ApplyWrites(from, Plan(l, s)[..done])
  }

  ghost predicate Invariant(l: Layout, d: Disk, s: State) {
    Consistent(l, d, s) && InPlan(l, s)
  }

  lemma InitEstablishes(l: Layout, d: Disk, s: State)
    requires l.size > 0 && Init(l, d, s)
    ensures Invariant(l, d, s)
  {
    EmptyHeaderRecovers(l, d);
  }

  lemma {:induction false} ReplayExtends(d: Disk, started: seq<Txn>, more: seq<Txn>, ids: seq<nat>)
    requires forall k | 0 <= k < |ids| :: ids[k] < |started|
    requires forall t | t in started + more :: |t.blocks| == |t.data|
    requires forall t | t in started :: |t.blocks| == |t.data|
    ensures Replay(d, started + more, ids) == Replay(d, started, ids)
  {
    if ids != [] {
      ReplayExtends(d, started, more, ids[..|ids| - 1]);
    }
  }

  lemma ApplyTxnSameHome(l: Layout, d: Disk, e: Disk, t: Txn)
    requires ValidTxn(l, t) && SameHome(l, d, e)
    ensures SameHome(l, ApplyTxn(d, t), ApplyTxn(e, t))
  {
    ApplyInstall(d, t.blocks, t.data);
    ApplyInstall(e, t.blocks, t.data);
  }

  lemma BeginKeeps(l: Layout, d: Disk, s: State, txn: Txn, s': State)
    requires l.size > 0 && Invariant(l, d, s) && Next(l, s, Begin(txn), s')
    ensures Invariant(l, d, s')
  {
    assert forall t | t in s'.started :: t in s.started || t == txn;
    ReplayExtends(d, s.started, [txn], s.durable);
    assert Plan(l, s')[..0] == [];
  }

  lemma HeaderWriteKeeps(l: Layout, d: Disk, s: State, s': State)
    requires l.size > 0 && Invariant(l, d, s) && s.mode.Committing? && Next(l, s, WriteNext, s')
    requires s.mode.done == |s.started[s.mode.id].data|
    ensures Bookkeeping(l, s')
    ensures SameHome(l, ApplyTxn(s.mode.from, s.started[s.mode.id]), Replay(d, s'.started, s'.durable))
  {
    hide Word, PutWord, PutHeader, ApplyWrites, CommitWrites, RecoveryWrites, Recovered;
    var from, t := s.mode.from, s.started[s.mode.id];
    CommitPrefix(l, from, t, s.mode.done);
    assert s'.durable[..|s'.durable| - 1] == s.durable;
    assert SameHome(l, from, Replay(d, s.started, s.durable));
    ApplyTxnSameHome(l, from, Replay(d, s.started, s.durable), t);
  }

  lemma CommitWriteConsistent(l: Layout, d: Disk, s: State, s': State)
    requires l.size > 0 && Invariant(l, d, s) && s.mode.Committing? && Next(l, s, WriteNext, s')
    requires s'.disk == ApplyWrites(s.mode.from, Plan(l, s)[..s.mode.done + 1])
    ensures Consistent(l, d, s')
  {
    hide Word, PutWord, PutHeader, Entries, ApplyWrites;
    var from, done, t := s.mode.from, s.mode.done, s.started[s.mode.id];
    CommitPrefix(l, from, t, done + 1);
    if done == |t.data| {
      HeaderWriteKeeps(l, d, s, s');
    } else {
      CommitPrefix(l, from, t, done);
      assert SameHome(l, Recovered(l, s'.disk), Recovered(l, s.disk));
    }
  }

  lemma DurableStep(l: Layout, s: State, s': State)
    requires Bookkeeping(l, s) && s.mode.Committing? && s.mode.id < |s.started| && Next(l, s, WriteNext, s')
    requires s.mode.id in s.durable <==> s.mode.done > |s.started[s.mode.id].data|
    ensures s.mode.id in s'.durable <==> s.mode.done + 1 > |s.started[s.mode.id].data|
  {
  }

  lemma CommitWriteKeeps(l: Layout, d: Disk, s: State, s': State)
    requires l.size > 0 && Invariant(l, d, s) && s.mode.Committing? && Next(l, s, WriteNext, s')
    ensures Invariant(l, d, s')
  {
    hide Word, PutWord, PutHeader, Entries, ApplyWrites, At, CommitWrites, RecoveryWrites, Recovered, SameHome, Replay;
    var from, done, t := s.mode.from, s.mode.done, s.started[s.mode.id];
    ApplyNext(from, Plan(l, s), done);
    CommitWriteConsistent(l, d, s, s');
    DurableStep(l, s, s');
    if done + 1 == |Plan(l, s)| {
      CommitPrefix(l, from, t, done + 1);
    }
  }

  lemma RecoveryWriteKeeps(l: Layout, d: Disk, s: State, s': State)
    requires l.size > 0 && Invariant(l, d, s) && s.mode.Recovering? && Next(l, s, WriteNext, s')
    ensures Invariant(l, d, s')
  {
    hide Word, PutWord, PutHeader, Entries, ApplyWrites, At;
    var from, done := s.mode.from, s.mode.done;
    ApplyNext(from, Plan(l, s), done);
    assert s'.disk == ApplyWrites(from, Plan(l, s)[..done + 1]);
    RecoveryPrefix(l, from, done);
    RecoveryPrefix(l, from, done + 1);
    if done + 1 == |Plan(l, s)| {
      assert Plan(l, s)[..done + 1] == Plan(l, s);
    }
  }

  lemma StepKeeps(l: Layout, d: Disk, s: State, step: Step, s': State)
    requires l.size > 0 && Invariant(l, d, s) && Next(l, s, step, s')
    ensures Invariant(l, d, s')
  {
    match step
    case Begin(txn) => BeginKeeps(l, d, s, txn, s');
    case WriteNext => if s.mode.Committing? { CommitWriteKeeps(l, d, s, s'); } else { RecoveryWriteKeeps(l, d, s, s'); }
    case Crash =>
    case Reboot => assert Plan(l, s')[..0] == [];
  }

  lemma {:induction false} RunKeeps(l: Layout, d: Disk, states: seq<State>, steps: seq<Step>, k: nat)
    requires l.size > 0 && Run(l, states, steps) && Init(l, d, states[0]) && k < |states|
    ensures Invariant(l, d, states[k])
  {
    hide Invariant, Next, Init;
    if k == 0 {
      InitEstablishes(l, d, states[0]);
    } else {
      RunKeeps(l, d, states, steps, k - 1);
      StepKeeps(l, d, states[k - 1], steps[k - 1], states[k]);
    }
  }

  /** Atomicity and durability over every run: whenever the machine is up and no commit or recovery
      is in progress, the home blocks are the initial ones with a chosen list of transactions
      applied whole, in commit order, and every transaction whose commit returned is on the list.
      The choice is the list of header writes that reached the disk. */
  lemma CrashSafety(l: Layout, d: Disk, states: seq<State>, steps: seq<Step>, k: nat)
    requires l.size > 0 && Run(l, states, steps) && Init(l, d, states[0]) && k < |states|
    ensures Bookkeeping(l, states[k])
    ensures states[k].mode.Running? ==>
              SameHome(l, states[k].disk, Replay(d, states[k].started, states[k].durable))
  {
    RunKeeps(l, d, states, steps, k);
    if states[k].mode.Running? {
      EmptyHeaderRecovers(l, states[k].disk);
    }
  }

  /** Until the header is written, a commit changes no home block on disk. */
  lemma NothingBeforeHeader(l: Layout, d: Disk, states: seq<State>, steps: seq<Step>, k: nat)
    requires l.size > 0 && Run(l, states, steps) && Init(l, d, states[0]) && k < |states|
    requires states[k].mode.Committing? && states[k].mode.id !in states[k].durable
    ensures SameHome(l, states[k].disk, states[k].mode.from)
  {
    RunKeeps(l, d, states, steps, k);
    var s := states[k];
    CommitPrefix(l, s.mode.from, s.started[s.mode.id], s.mode.done);
  }

  /** A durable transaction stays durable, through any later crashes. */
  lemma {:induction false} DurableForever(l: Layout, states: seq<State>, steps: seq<Step>, j: nat, k: nat)
    requires Run(l, states, steps) && j <= k < |states|
    ensures states[j].durable <= states[k].durable
    ensures states[j].started <= states[k].started
    decreases k
  {
    if j < k {
      DurableForever(l, states, steps, j, k - 1);
      assert Next(l, states[k - 1], steps[k - 1], states[k]);
    }
  }

  // ------------------------------------------------------------------ commits and recoveries end

  /** The next write of a commit or recovery can always be done. */
  lemma WritesOn(l: Layout, d: Disk, s: State) returns (s': State)
    requires Invariant(l, d, s) && (s.mode.Committing? || s.mode.Recovering?)
    ensures Next(l, s, WriteNext, s') && s'.started == s.started
    ensures s'.mode.Running? || (s'.mode == s.mode.(done := s.mode.done + 1) && s'.mode.done < |Plan(l, s)| == |Plan(l, s')|)
    ensures s.mode.Recovering? ==> s'.durable == s.durable
    ensures s.mode.Committing? && s'.mode.Running? ==> s.mode.id in s'.finished && s.mode.id in s.durable
    ensures s.mode.Committing? ==> s'.durable == s.durable || (s.mode.id !in s.durable && s'.durable == s.durable + [s.mode.id])
  {
    hide SameHome, Replay, Recovered, CommitWrites, RecoveryWrites, ApplyWrites, ValidTxn;
    var plan, done := Plan(l, s), s.mode.done;
    var last := done + 1 == |plan|;
    s' := s.(disk := s.disk[plan[done].blockno := plan[done].data],
             mode := if last then Running else s.mode.(done := done + 1),
             durable := if s.mode.Committing? && done == |s.started[s.mode.id].data| then s.durable + [s.mode.id] else s.durable,
             finished := if s.mode.Committing? && last then s.finished + {s.mode.id} else s.finished);
  }

  /** Left alone, a commit or a recovery comes to its end; the commit has returned and is durable. */
  lemma {:induction false} Finishes(l: Layout, d: Disk, s: State) returns (states: seq<State>, steps: seq<Step>)
    requires l.size > 0 && Invariant(l, d, s) && (s.mode.Committing? || s.mode.Recovering?)
    ensures Run(l, states, steps) && states[0] == s && forall k | 0 <= k < |steps| :: steps[k] == WriteNext
    ensures var e := states[|steps|];
            && e.mode.Running? && e.started == s.started && Invariant(l, d, e)
            && (if s.mode.Recovering? then e.durable == s.durable
                else && s.mode.id in e.finished
                     && e.durable == if s.mode.id in s.durable then s.durable else s.durable + [s.mode.id])
    decreases |Plan(l, s)| - s.mode.done
  {
    hide Consistent, InPlan, Next;
    var s' := WritesOn(l, d, s);
    StepKeeps(l, d, s, WriteNext, s');
    if s'.mode.Running? {
      states, steps := [s, s'], [WriteNext];
    } else {
      var more, rest := Finishes(l, d, s');
      states, steps := [s] + more, [WriteNext] + rest;
      PrependStep(l, s, WriteNext, more, rest);
    }
  }

  lemma PrependStep(l: Layout, s: State, step: Step, states: seq<State>, steps: seq<Step>)
    requires Run(l, states, steps) && Next(l, s, step, states[0])
    ensures Run(l, [s] + states, [step] + steps)
  {
    hide Next;
    forall k | 0 <= k <= |steps| ensures Next(l, ([s] + states)[k], ([step] + steps)[k], ([s] + states)[k + 1]) {
      if k > 0 {
        assert Next(l, states[k - 1], steps[k - 1], states[k - 1 + 1]);
      }
    }
  }

  /** Whatever state a run is in, also in the middle of a commit or a recovery: after a crash and a
      reboot the machine comes up again, and exactly the transactions durable at the crash are there. */
  lemma ComesUpAgain(l: Layout, d: Disk, states: seq<State>, steps: seq<Step>, k: nat) returns (after: seq<State>, more: seq<Step>)
    requires l.size > 0 && Run(l, states, steps) && Init(l, d, states[0]) && k < |states|
    ensures Run(l, after, more) && after[0] == states[k]
    ensures |more| > 2 && more[..2] == [Crash, Reboot] && forall i | 2 <= i < |more| :: more[i] == WriteNext
    ensures var s, e := states[k], after[|more|];
            && e.mode.Running? && e.started == s.started && e.durable == s.durable && Bookkeeping(l, s)
            && SameHome(l, e.disk, Replay(d, s.started, s.durable))
  {
    hide SameHome, Replay, Recovered, HeaderOk, InPlan;
    RunKeeps(l, d, states, steps, k);
    var s := states[k];
    var down := s.(mode := Down);
    StepKeeps(l, d, s, Crash, down);
    var up := down.(mode := Recovering(s.disk, 0));
    StepKeeps(l, d, down, Reboot, up);
    after, more := Finishes(l, d, up);
    UpIsReplay(l, d, after[|more|]);
    PrependStep(l, down, Reboot, after, more);
    PrependStep(l, s, Crash, [down] + after, [Reboot] + more);
    after, more := [s] + ([down] + after), [Crash] + ([Reboot] + more);
  }

  lemma UpIsReplay(l: Layout, d: Disk, s: State)
    requires l.size > 0 && Invariant(l, d, s) && s.mode.Running?
    ensures SameHome(l, s.disk, Replay(d, s.started, s.durable))
  {
    EmptyHeaderRecovers(l, s.disk);
  }

  /** A commit that no crash interrupts returns, and the home blocks are those before it with the whole
      transaction applied. */
  lemma CommitTakesEffect(l: Layout, d: Disk, states: seq<State>, steps: seq<Step>, k: nat, t: Txn) returns (after: seq<State>, more: seq<Step>)
    requires l.size > 0 && Run(l, states, steps) && Init(l, d, states[0]) && k < |states|
    requires states[k].mode.Running? && ValidTxn(l, t)
    ensures Run(l, after, more) && after[0] == states[k]
    ensures |more| > 0 && more[0] == Begin(t) && forall i | 1 <= i < |more| :: more[i] == WriteNext
    ensures var s, e := states[k], after[|more|];
            && e.mode.Running? && e.started == s.started + [t] && |s.started| in e.finished
            && e.durable == s.durable + [|s.started|]
            && SameHome(l, e.disk, ApplyTxn(s.disk, t))
  {
    hide SameHome, Replay, Recovered, HeaderOk, InPlan, ValidTxn, ApplyTxn;
    RunKeeps(l, d, states, steps, k);
    var s := states[k];
    var s' := s.(mode := Committing(|s.started|, s.disk, 0), started := s.started + [t]);
    StepKeeps(l, d, s, Begin(t), s');
    after, more := Finishes(l, d, s');
    UpIsReplay(l, d, s);
    UpIsReplay(l, d, after[|more|]);
    ReplayOneMore(l, d, s, t, after[|more|]);
    PrependStep(l, s, Begin(t), after, more);
    after, more := [s] + after, [Begin(t)] + more;
  }

  lemma ReplayOneMore(l: Layout, d: Disk, s: State, t: Txn, e: State)
    requires Bookkeeping(l, s) && Bookkeeping(l, e) && ValidTxn(l, t)
    requires e.started == s.started + [t] && e.durable == s.durable + [|s.started|]
    requires SameHome(l, s.disk, Replay(d, s.started, s.durable)) && SameHome(l, e.disk, Replay(d, e.started, e.durable))
    ensures SameHome(l, e.disk, ApplyTxn(s.disk, t))
  {
    ReplayExtends(d, s.started, [t], s.durable);
    assert e.durable[..|e.durable| - 1] == s.durable;
    ApplyTxnSameHome(l, s.disk, Replay(d, s.started, s.durable), t);
  }
}
