/**
 The on-disk side of the redo log: which single-block writes a commit and a
 recovery issue, in order, and what is left on the disk when the machine stops
 between any two of them. A block is one sector, so one block write is atomic.
 */
module RedoLog {
  import opened LittleEndian

  const BSIZE: nat := 512
  const LOGSIZE: nat := 30

  type Block = b: seq<byte> | |b| == BSIZE witness seq(BSIZE, _ => 0)

  datatype Write = Write(blockno: nat, data: Block)

  /** Where the log lives: a header block and then size - 1 log blocks. */
  datatype Area = Area(start: nat, size: nat) {
    predicate Holds(b: nat) { start <= b < start + size }
  }

  /** What one transaction changes: home block numbers and their new contents. */
  datatype Tx = Tx(blocks: seq<uint32>, data: seq<Block>)

  ghost predicate Distinct<T>(s: seq<T>) {
    forall i, j :: 0 <= i < j < |s| ==> s[i] != s[j]
  }

  predicate WellFormed(d: seq<Block>, area: Area) {
    1 <= area.size && area.start + area.size <= |d|
  }

  /** The transactions the logging layer may hand to commit. */
  ghost predicate Loggable(d: seq<Block>, area: Area, tx: Tx) {
    && |tx.blocks| == |tx.data| <= LOGSIZE
    && |tx.blocks| + 1 <= area.size
    && Distinct(tx.blocks)
    && forall i :: 0 <= i < |tx.blocks| ==> tx.blocks[i] < |d| && !area.Holds(tx.blocks[i])
  }

  // ---- The header block -----------------------------------------------------

  /** The block numbers recorded in a header block whose count is at most LOGSIZE. */
  function HeaderBlocks(b: Block): (r: seq<uint32>)
    ensures |r| <= LOGSIZE
  {
    if Word(b, 0) <= LOGSIZE then seq(Word(b, 0), i requires 0 <= i < Word(b, 0) <= LOGSIZE => Word(b, 1 + i)) else []
  }

  function PutEntries(b: Block, blocks: seq<uint32>): Block
    requires |blocks| <= LOGSIZE
  {
    if blocks == [] then b
    else PutWord(PutEntries(b, blocks[..|blocks| - 1]), |blocks|, blocks[|blocks| - 1])
  }

  /** The header block write_head produces from the previous contents of that block. */
  function PutHeader(b: Block, blocks: seq<uint32>): Block
    requires |blocks| <= LOGSIZE
  {
    PutEntries(PutWord(b, 0, |blocks|), blocks)
  }

  lemma {:induction false} EntriesWord(b: Block, blocks: seq<uint32>, j: nat)
    requires |blocks| <= LOGSIZE && j <= LOGSIZE
    ensures Word(PutEntries(b, blocks), j) == if 1 <= j <= |blocks| then blocks[j - 1] else Word(b, j)
  {
    if blocks != [] {
      var init := blocks[..|blocks| - 1];
      EntriesWord(b, init, j);
      WordOfPut(PutEntries(b, init), |blocks|, blocks[|blocks| - 1], j);
    }
  }

  lemma {:induction false} HeaderWord(b: Block, blocks: seq<uint32>, j: nat)
    requires j <= |blocks| <= LOGSIZE
    ensures Word(PutHeader(b, blocks), j) == if j == 0 then |blocks| else blocks[j - 1]
  {
    EntriesWord(PutWord(b, 0, |blocks|), blocks, j);
    WordOfPut(b, 0, |blocks|, 0);
  }

  lemma {:induction false} HeaderFromWords(h: Block, blocks: seq<uint32>)
    requires |blocks| <= LOGSIZE
    requires forall j: nat :: j <= |blocks| ==> Word(h, j) == if j == 0 then |blocks| else blocks[j - 1]
    ensures HeaderBlocks(h) == blocks
  {
    assert Word(h, 0) == |blocks|;
  }

  /** A header written over any old header reads back as exactly the list written. */
  lemma {:induction false} HeaderRoundTrip(b: Block, blocks: seq<uint32>)
    requires |blocks| <= LOGSIZE
    ensures HeaderIs(PutHeader(b, blocks), blocks)
  {
    forall j: nat | j <= |blocks|
      ensures Word(PutHeader(b, blocks), j) == if j == 0 then |blocks| else blocks[j - 1]
    {
      HeaderWord(b, blocks, j);
    }
    HeaderFromWords(PutHeader(b, blocks), blocks);
    assert Word(PutHeader(b, blocks), 0) == |blocks|;
  }

  /** h is a header that lists exactly these blocks. */
  predicate HeaderIs(h: Block, blocks: seq<uint32>) { Word(h, 0) == |blocks| && HeaderBlocks(h) == blocks }

  /** The words and the bytes of a block. */
  lemma {:induction false} WordIsBytes(h: Block, i: nat)
    requires i < 128
    ensures Word(h, i) == Le32(h, 4 * i)
  {
  }

  /** Byte by byte: the count comes first, then the block numbers, four bytes each. */
  lemma {:induction false} HeaderBytes(h: Block, blocks: seq<uint32>)
    requires |blocks| <= LOGSIZE
    ensures HeaderIs(h, blocks) <==>
              Le32(h, 0) == |blocks| && forall i: nat :: i < |blocks| ==> Le32(h, 4 + 4 * i) == blocks[i]
  {
    WordIsBytes(h, 0);
    forall i: nat | i < |blocks|
      ensures Word(h, 1 + i) == Le32(h, 4 + 4 * i)
    {
      WordIsBytes(h, 1 + i);
    }
    hide Word, Le32;
    if HeaderIs(h, blocks) {
      ListedWords(h, blocks);
    } else if Le32(h, 0) == |blocks| && forall i: nat :: i < |blocks| ==> Le32(h, 4 + 4 * i) == blocks[i] {
      HeaderFromWords(h, blocks);
    }
  }

  lemma {:induction false} ListedWords(h: Block, blocks: seq<uint32>)
    requires |blocks| <= LOGSIZE && HeaderIs(h, blocks)
    ensures forall i: nat :: i < |blocks| ==> Word(h, 1 + i) == blocks[i]
  {
    hide Word;
    forall i: nat | i < |blocks|
      ensures Word(h, 1 + i) == blocks[i]
    {
      assert HeaderBlocks(h)[i] == Word(h, 1 + i);
    }
  }

  /** write_head changes no byte behind the list. */
  lemma {:induction false} HeaderFrame(b: Block, blocks: seq<uint32>)
    requires |blocks| <= LOGSIZE
    ensures SameOutside(b, PutHeader(b, blocks), 0, 4 + 4 * |blocks|)
  {
    EntriesFrame(PutWord(b, 0, |blocks|), blocks);
  }

  lemma {:induction false} EntriesFrame(b: Block, blocks: seq<uint32>)
    requires |blocks| <= LOGSIZE
    ensures SameOutside(b, PutEntries(b, blocks), 4, 4 + 4 * |blocks|)
  {
    if blocks != [] {
      EntriesFrame(b, blocks[..|blocks| - 1]);
    }
  }

  // ---- Applying writes ------------------------------------------------------

  function Put(d: seq<Block>, w: Write): (r: seq<Block>)
    ensures |r| == |d|
  {
    if w.blockno < |d| then d[w.blockno := w.data] else d
  }

  function Apply(d: seq<Block>, ws: seq<Write>): (r: seq<Block>)
    ensures |r| == |d|
  {
    if ws == [] then d else Put(Apply(d, ws[..|ws| - 1]), ws[|ws| - 1])
  }

  lemma {:induction false} ApplyAppend(d: seq<Block>, a: seq<Write>, b: seq<Write>)
    ensures Apply(d, a + b) == Apply(Apply(d, a), b)
  {
    if b == [] {
      assert a + b == a;
    } else {
      var init := b[..|b| - 1];
      ApplyAppend(d, a, init);
      assert (a + b)[..|a + b| - 1] == a + init;
    }
  }

  lemma {:induction false} ApplyFrame(d: seq<Block>, ws: seq<Write>, b: nat)
    requires b < |d| && forall i :: 0 <= i < |ws| ==> ws[i].blockno != b
    ensures Apply(d, ws)[b] == d[b]
  {
    if ws != [] {
      ApplyFrame(d, ws[..|ws| - 1], b);
    }
  }

  lemma {:induction false} ApplyHit(d: seq<Block>, ws: seq<Write>, i: nat)
    requires i < |ws| && ws[i].blockno < |d|
    requires forall j :: i < j < |ws| ==> ws[j].blockno != ws[i].blockno
    ensures Apply(d, ws)[ws[i].blockno] == ws[i].data
  {
    if i < |ws| - 1 {
      ApplyHit(d, ws[..|ws| - 1], i);
    }
  }

  /** The disk when the machine stops after the first k of these writes, or after all of them. */
  function Stopped(d: seq<Block>, ws: seq<Write>, k: nat): (r: seq<Block>)
    ensures |r| == |d|
  {
    Apply(d, if k < |ws| then ws[..k] else ws)
  }

  // ---- The writes of commit and of recovery ---------------------------------

  function LogCopies(area: Area, data: seq<Block>): (r: seq<Write>)
    ensures |r| == |data|
  {
    seq(|data|, i requires 0 <= i < |data| => Write(area.start + 1 + i, data[i]))
  }

  function Installs(blocks: seq<uint32>, data: seq<Block>): (r: seq<Write>)
    requires |blocks| == |data|
    ensures |r| == |data|
  {
    seq(|data|, i requires 0 <= i < |data| => Write(blocks[i], data[i]))
  }

  /** Up to and including the header write. */
  function CommitFront(h: Block, area: Area, tx: Tx): (r: seq<Write>)
    requires |tx.blocks| == |tx.data| <= LOGSIZE
    ensures |r| == |tx.blocks| + 1
  {
    LogCopies(area, tx.data) + [Write(area.start, PutHeader(h, tx.blocks))]
  }

  /** The installs and the erasure of header h. */
  function InstallWrites(h: Block, area: Area, tx: Tx): (r: seq<Write>)
    requires |tx.blocks| == |tx.data|
    ensures |r| == |tx.blocks| + 1
  {
    Installs(tx.blocks, tx.data) + [Write(area.start, PutHeader(h, []))]
  }

  /** commit: copy to the log, write the header, install, erase the header. */
  function CommitWrites(d: seq<Block>, area: Area, tx: Tx): seq<Write>
    requires WellFormed(d, area) && Loggable(d, area, tx)
  {
    if tx.blocks == [] then []
    else
      var h := d[area.start];
      CommitFront(h, area, tx) + InstallWrites(PutHeader(h, tx.blocks), area, tx)
  }

  function LogData(d: seq<Block>, area: Area, n: nat): (r: seq<Block>)
    requires area.start + 1 + n <= |d|
    ensures |r| == n
  {
    seq(n, i requires 0 <= i < n => d[area.start + 1 + i])
  }

  predicate Recoverable(d: seq<Block>, area: Area) {
    WellFormed(d, area) && |HeaderBlocks(d[area.start])| + 1 <= area.size
  }

  /** The header is one that read_head and install_trans can work with. */
  ghost predicate Bootable(d: seq<Block>, area: Area) {
    && Recoverable(d, area) && Word(d[area.start], 0) <= LOGSIZE
    && forall i :: 0 <= i < |HeaderBlocks(d[area.start])| ==>
         HeaderBlocks(d[area.start])[i] < |d| && !area.Holds(HeaderBlocks(d[area.start])[i])
  }

  /** recover_from_log: install what the header lists, then erase the header. */
  function RecoverWrites(d: seq<Block>, area: Area): seq<Write>
    requires Recoverable(d, area)
  {
    var blocks := HeaderBlocks(d[area.start]);
    InstallWrites(d[area.start], area, Tx(blocks, LogData(d, area, |blocks|)))
  }

  // ---- What a crash can leave ------------------------------------------------

  function ApplyTx(d: seq<Block>, tx: Tx): (r: seq<Block>)
    requires |tx.blocks| == |tx.data|
    ensures |r| == |d|
  {
    Apply(d, Installs(tx.blocks, tx.data))
  }

  /** Block by block: each listed block takes its new contents, every other block is untouched. */
  lemma {:induction false} TransactionEffect(d: seq<Block>, area: Area, tx: Tx, b: nat)
    requires Loggable(d, area, tx) && b < |d|
    ensures forall i :: 0 <= i < |tx.blocks| && tx.blocks[i] == b ==> ApplyTx(d, tx)[b] == tx.data[i]
    ensures (forall i :: 0 <= i < |tx.blocks| ==> tx.blocks[i] != b) ==> ApplyTx(d, tx)[b] == d[b]
  {
    var ws := Installs(tx.blocks, tx.data);
    if i :| 0 <= i < |tx.blocks| && tx.blocks[i] == b {
      assert ws[i] == Write(b, tx.data[i]);
      ApplyHit(d, ws, i);
    } else {
      ApplyFrame(d, ws, b);
    }
  }

  /** No transaction is pending and every block outside the log is as in t. */
  ghost predicate Settled(d: seq<Block>, area: Area, t: seq<Block>) {
    && |d| == |t| && WellFormed(d, area)
    && HeaderIs(d[area.start], [])
    && forall b: nat :: b < |d| && !area.Holds(b) ==> d[b] == t[b]
  }

  /** tx is committed: it is in the log, and only its home blocks may still differ from t. */
  ghost predicate Pending(d: seq<Block>, area: Area, t: seq<Block>, tx: Tx) {
    && |d| == |t| && WellFormed(d, area) && Loggable(t, area, tx)
    && HeaderIs(d[area.start], tx.blocks)
    && LogData(d, area, |tx.data|) == tx.data
    && forall b: nat :: b < |d| && !area.Holds(b) && b !in tx.blocks ==> d[b] == t[b]
  }

  /** Installing any leading part of a committed transaction keeps it committed. */
  lemma {:induction false} PartialInstall(d: seq<Block>, area: Area, t: seq<Block>, tx: Tx, k: nat)
    requires Pending(d, area, t, tx) && k <= |tx.data|
    ensures Pending(Apply(d, Installs(tx.blocks, tx.data)[..k]), area, t, tx)
    ensures Apply(d, Installs(tx.blocks, tx.data)[..k])[area.start] == d[area.start]
  {
    var ws := Installs(tx.blocks, tx.data)[..k];
    var d' := Apply(d, ws);
    forall b: nat | b < |d| && (area.Holds(b) || b !in tx.blocks)
      ensures d'[b] == d[b]
    {
      ApplyFrame(d, ws, b);
    }
  }

  /** Installing all of it makes every block outside the log new. */
  lemma {:induction false} FullInstall(d: seq<Block>, area: Area, t: seq<Block>, tx: Tx, b: nat)
    requires Pending(d, area, t, tx)
    requires b < |d| && !area.Holds(b)
    ensures Apply(d, Installs(tx.blocks, tx.data))[b] == ApplyTx(t, tx)[b]
  {
    var ws := Installs(tx.blocks, tx.data);
    if i :| 0 <= i < |tx.blocks| && tx.blocks[i] == b {
      assert ws[i].blockno == b;
      ApplyHit(d, ws, i);
      ApplyHit(t, ws, i);
    } else {
      ApplyFrame(d, ws, b);
      ApplyFrame(t, ws, b);
    }
  }

  lemma {:induction false} InstallThenErase(d: seq<Block>, area: Area, t: seq<Block>, tx: Tx)
    requires Pending(d, area, t, tx)
    ensures Settled(Apply(d, InstallWrites(d[area.start], area, tx)), area, ApplyTx(t, tx))
  {
    var ws := Installs(tx.blocks, tx.data);
    var d1 := Apply(d, ws);
    var erase := Write(area.start, PutHeader(d[area.start], []));
    assert ws[..|ws|] == ws;
    PartialInstall(d, area, t, tx, |ws|);
    assert (ws + [erase])[..|ws|] == ws;
    HeaderRoundTrip(d[area.start], []);
    forall b: nat | b < |d| && !area.Holds(b)
      ensures d1[b] == ApplyTx(t, tx)[b]
    {
      FullInstall(d, area, t, tx, b);
    }
  }

  /** Stopping anywhere between the header write and its erasure. */
  lemma {:induction false} CrashInInstall(d: seq<Block>, area: Area, t: seq<Block>, tx: Tx, k: nat)
    requires Pending(d, area, t, tx) && k <= |tx.blocks| + 1
    ensures var ws := InstallWrites(d[area.start], area, tx);
            var d' := Apply(d, ws[..k]);
            if k == |ws| then Settled(d', area, ApplyTx(t, tx)) else Pending(d', area, t, tx)
  {
    var installs := Installs(tx.blocks, tx.data);
    var ws := InstallWrites(d[area.start], area, tx);
    if k < |ws| {
      assert ws[..k] == installs[..k];
      PartialInstall(d, area, t, tx, k);
    } else {
      assert ws[..k] == ws;
      InstallThenErase(d, area, t, tx);
    }
  }

  // ---- Crash during commit ----------------------------------------------------

  /** Copying into the log is invisible. */
  lemma {:induction false} CrashInCopies(d: seq<Block>, area: Area, t: seq<Block>, tx: Tx, k: nat)
    requires Settled(d, area, t) && Loggable(d, area, tx) && k <= |tx.data|
    ensures Settled(Apply(d, LogCopies(area, tx.data)[..k]), area, t)
    ensures Apply(d, LogCopies(area, tx.data)[..k])[area.start] == d[area.start]
  {
    var ws := LogCopies(area, tx.data)[..k];
    forall b: nat | b < |d| && (b == area.start || !area.Holds(b))
      ensures Apply(d, ws)[b] == d[b]
    {
      ApplyFrame(d, ws, b);
    }
  }

  lemma {:induction false} CopiesLand(d: seq<Block>, area: Area, tx: Tx)
    requires WellFormed(d, area) && Loggable(d, area, tx)
    ensures LogData(Apply(d, LogCopies(area, tx.data)), area, |tx.data|) == tx.data
  {
    var ws := LogCopies(area, tx.data);
    forall i | 0 <= i < |ws|
      ensures Apply(d, ws)[area.start + 1 + i] == tx.data[i]
    {
      assert ws[i].blockno == area.start + 1 + i;
      ApplyHit(d, ws, i);
    }
  }

  /** The header write is the commit point. */
  lemma {:induction false} HeaderCommits(d: seq<Block>, area: Area, t: seq<Block>, tx: Tx)
    requires Settled(d, area, t) && Loggable(d, area, tx)
    ensures var d' := Apply(d, CommitFront(d[area.start], area, tx));
            && Pending(d', area, t, tx)
            && d'[area.start] == PutHeader(d[area.start], tx.blocks)
  {
    var ws := LogCopies(area, tx.data);
    var header := PutHeader(d[area.start], tx.blocks);
    var d1 := Apply(d, ws);
    assert ws[..|ws|] == ws;
    CrashInCopies(d, area, t, tx, |ws|);
    CopiesLand(d, area, tx);
    var front := CommitFront(d[area.start], area, tx);
    assert front[..|ws|] == ws;
    var d2 := Apply(d, front);
    assert d2 == d1[area.start := header];
    HeaderRoundTrip(d[area.start], tx.blocks);
    assert LogData(d2, area, |tx.data|) == LogData(d1, area, |tx.data|);
  }

  lemma {:induction false} CommitPrefix(d: seq<Block>, area: Area, tx: Tx, k: nat)
    requires WellFormed(d, area) && Loggable(d, area, tx) && tx.blocks != []
    requires k <= |CommitWrites(d, area, tx)|
    ensures var ws, n := CommitWrites(d, area, tx), |tx.blocks|;
            var h := d[area.start];
            if k <= n then ws[..k] == LogCopies(area, tx.data)[..k]
            else Apply(d, ws[..k]) == Apply(Apply(d, CommitFront(h, area, tx)),
                                            InstallWrites(PutHeader(h, tx.blocks), area, tx)[..k - n - 1])
  {
    var ws, n := CommitWrites(d, area, tx), |tx.blocks|;
    var front := CommitFront(d[area.start], area, tx);
    if n < k {
      var back := InstallWrites(PutHeader(d[area.start], tx.blocks), area, tx);
      assert ws[..k] == front + back[..k - n - 1];
      ApplyAppend(d, front, back[..k - n - 1]);
    }
  }

  /** Every prefix of commit's writes: old before the header write, committed after it, done at the end. */
  lemma {:induction false} CrashInCommit(d: seq<Block>, area: Area, t: seq<Block>, tx: Tx, k: nat)
    requires Settled(d, area, t) && Loggable(d, area, tx)
    requires k <= |CommitWrites(d, area, tx)|
    ensures var d' := Apply(d, CommitWrites(d, area, tx)[..k]);
            if k == |CommitWrites(d, area, tx)| then Settled(d', area, ApplyTx(t, tx))
            else if k <= |tx.blocks| then Settled(d', area, t)
            else Pending(d', area, t, tx)
  {
    var ws := CommitWrites(d, area, tx);
    var n := |tx.blocks|;
    if tx.blocks == [] {
      assert ws[..k] == [] && Installs(tx.blocks, tx.data) == [];
    } else if k <= n {
      CommitPrefix(d, area, tx, k);
      CrashInCopies(d, area, t, tx, k);
    } else {
      CommitPrefix(d, area, tx, k);
      HeaderCommits(d, area, t, tx);
      CrashInInstall(Apply(d, CommitFront(d[area.start], area, tx)), area, t, tx, k - n - 1);
    }
  }

  // ---- Crash during recovery --------------------------------------------------

  lemma {:induction false} CrashInRecovery(d: seq<Block>, area: Area, t: seq<Block>, tx: Tx, k: nat)
    requires Pending(d, area, t, tx)
    requires k <= |RecoverWrites(d, area)|
    ensures var d' := Apply(d, RecoverWrites(d, area)[..k]);
            if k == |RecoverWrites(d, area)| then Settled(d', area, ApplyTx(t, tx)) else Pending(d', area, t, tx)
  {
    CrashInInstall(d, area, t, tx, k);
  }

  lemma {:induction false} RecoveryOfSettled(d: seq<Block>, area: Area, t: seq<Block>, k: nat)
    requires Settled(d, area, t)
    requires k <= |RecoverWrites(d, area)|
    ensures Settled(Apply(d, RecoverWrites(d, area)[..k]), area, t)
  {
    var ws := RecoverWrites(d, area);
    HeaderRoundTrip(d[area.start], []);
    if k > 0 {
      assert ws[..k] == ws;
      assert ws[..|ws| - 1] == [];
    }
  }

  /** One boot: recovery that stops after k block writes, or completes when k is at least their number. */
  function Reboot(d: seq<Block>, area: Area, k: nat): (r: seq<Block>)
    ensures |r| == |d|
  {
    if !Recoverable(d, area) then d
    else
      Stopped(d, RecoverWrites(d, area), k)
  }

  /** Any number of boots, each cut short after its own number of block writes. */
  function Reboots(d: seq<Block>, area: Area, ks: seq<nat>): (r: seq<Block>)
    ensures |r| == |d|
    decreases |ks|
  {
    if ks == [] then d else Reboots(Reboot(d, area, ks[0]), area, ks[1..])
  }

  /** After those boots recovery finds a good header, and if it runs to its end leaves t outside the log and an empty
      header. */
  ghost predicate RecoversTo(d: seq<Block>, area: Area, ks: seq<nat>, t: seq<Block>) {
    var d' := Reboots(d, area, ks);
    Bootable(d', area) && Settled(Apply(d', RecoverWrites(d', area)), area, t)
  }

  lemma {:induction false} RebootsFromPending(d: seq<Block>, area: Area, t: seq<Block>, tx: Tx, ks: seq<nat>)
    requires Pending(d, area, t, tx)
    ensures var d' := Reboots(d, area, ks);
            Pending(d', area, t, tx) || Settled(d', area, ApplyTx(t, tx))
    decreases |ks|
  {
    if ks != [] {
      var ws := RecoverWrites(d, area);
      var k := if ks[0] < |ws| then ks[0] else |ws|;
      assert ws[..|ws|] == ws;
      CrashInRecovery(d, area, t, tx, k);
      if k < |ws| {
        RebootsFromPending(Reboot(d, area, ks[0]), area, t, tx, ks[1..]);
      } else {
        RebootsFromSettled(Reboot(d, area, ks[0]), area, ApplyTx(t, tx), ks[1..]);
      }
    }
  }

  lemma {:induction false} RebootsFromSettled(d: seq<Block>, area: Area, t: seq<Block>, ks: seq<nat>)
    requires Settled(d, area, t)
    ensures Settled(Reboots(d, area, ks), area, t)
    decreases |ks|
  {
    if ks != [] {
      var ws := RecoverWrites(d, area);
      assert ws[..|ws|] == ws;
      RecoveryOfSettled(d, area, t, if ks[0] < |ws| then ks[0] else |ws|);
      RebootsFromSettled(Reboot(d, area, ks[0]), area, t, ks[1..]);
    }
  }

  lemma {:induction false} SettledRecovers(d: seq<Block>, area: Area, t: seq<Block>, ks: seq<nat>)
    requires Settled(d, area, t)
    ensures RecoversTo(d, area, ks, t)
  {
    RebootsFromSettled(d, area, t, ks);
    var d' := Reboots(d, area, ks);
    var ws := RecoverWrites(d', area);
    assert ws[..|ws|] == ws;
    RecoveryOfSettled(d', area, t, |ws|);
  }

  lemma {:induction false} PendingRecovers(d: seq<Block>, area: Area, t: seq<Block>, tx: Tx, ks: seq<nat>)
    requires Pending(d, area, t, tx)
    ensures RecoversTo(d, area, ks, ApplyTx(t, tx))
  {
    RebootsFromPending(d, area, t, tx, ks);
    var d' := Reboots(d, area, ks);
    var ws := RecoverWrites(d', area);
    assert ws[..|ws|] == ws;
    if Pending(d', area, t, tx) {
      CrashInRecovery(d', area, t, tx, |ws|);
    } else {
      RecoveryOfSettled(d', area, ApplyTx(t, tx), |ws|);
    }
  }

  /** All old before the header write, the (n + 1)-th of a commit of n blocks; all new from then on. */
  function Outcome(t: seq<Block>, tx: Tx, k: nat): seq<Block>
    requires |tx.blocks| == |tx.data|
  {
    if k <= |tx.blocks| then t else ApplyTx(t, tx)
  }

  /**
   Crash atomicity of one commit: stop after any k of its block writes, boot any
   number of times with recovery itself cut short, then let one recovery run to
   its end. The blocks outside the log are then all old if the header write had not
   happened and all new if it had, and the header is empty.
   */
  lemma {:induction false} CrashAtomicity(d: seq<Block>, area: Area, t: seq<Block>, tx: Tx, k: nat, ks: seq<nat>)
    requires Settled(d, area, t) && Loggable(d, area, tx)
    ensures RecoversTo(Stopped(d, CommitWrites(d, area, tx), k), area, ks, Outcome(t, tx, k))
  {
    var ws := CommitWrites(d, area, tx);
    var d1 := Stopped(d, ws, k);
    assert ws[..|ws|] == ws;
    CrashInCommit(d, area, t, tx, if k < |ws| then k else |ws|);
    if tx.blocks == [] {
      assert ApplyTx(t, tx) == t by { assert Installs(tx.blocks, tx.data) == []; }
    }
    if k <= |tx.blocks| {
      SettledRecovers(d1, area, t, ks);
    } else if k < |ws| {
      PendingRecovers(d1, area, t, tx, ks);
    } else {
      SettledRecovers(d1, area, ApplyTx(t, tx), ks);
    }
  }

  // ---- Whole histories of transactions -----------------------------------------

  ghost predicate AllLoggable(d: seq<Block>, area: Area, txs: seq<Tx>) {
    forall i :: 0 <= i < |txs| ==> Loggable(d, area, txs[i])
  }

  /** The block writes of a run of commits, one after the other. */
  function History(d: seq<Block>, area: Area, txs: seq<Tx>): seq<Write>
    requires WellFormed(d, area) && AllLoggable(d, area, txs)
    decreases |txs|
  {
    if txs == [] then []
    else
      var ws := CommitWrites(d, area, txs[0]);
      ws + History(Apply(d, ws), area, txs[1..])
  }

  function ApplyAll(d: seq<Block>, txs: seq<Tx>): (r: seq<Block>)
    requires forall i :: 0 <= i < |txs| ==> |txs[i].blocks| == |txs[i].data|
    ensures |r| == |d|
    decreases |txs|
  {
    if txs == [] then d else ApplyAll(ApplyTx(d, txs[0]), txs[1..])
  }

  /** How many transactions of the run have their header write among the first k writes. */
  function Landed(d: seq<Block>, area: Area, txs: seq<Tx>, k: nat): (m: nat)
    requires WellFormed(d, area) && AllLoggable(d, area, txs)
    ensures m <= |txs|
    decreases |txs|
  {
    if txs == [] then 0
    else
      var ws := CommitWrites(d, area, txs[0]);
      if k >= |ws| then 1 + Landed(Apply(d, ws), area, txs[1..], k - |ws|)
      else if k > |txs[0].blocks| then 1
      else 0
  }

  lemma {:induction false} FirstOfRun(t: seq<Block>, txs: seq<Tx>)
    requires txs != [] && forall i :: 0 <= i < |txs| ==> |txs[i].blocks| == |txs[i].data|
    ensures ApplyAll(t, txs[..0]) == t && ApplyAll(t, txs[..1]) == ApplyTx(t, txs[0])
  {
    hide ApplyTx;
    assert txs[..1][1..] == [];
  }

  /** The first k of the writes ws and then rest, for k up to |ws| and past it. */
  lemma {:induction false} StoppedEarly(d: seq<Block>, ws: seq<Write>, rest: seq<Write>, k: nat)
    requires k < |ws|
    ensures Stopped(d, ws + rest, k) == Stopped(d, ws, k)
  {
    hide Apply;
    assert (ws + rest)[..k] == ws[..k];
  }

  lemma {:induction false} StoppedLate(d: seq<Block>, ws: seq<Write>, rest: seq<Write>, k: nat)
    requires |ws| <= k
    ensures Stopped(d, ws + rest, k) == Stopped(Apply(d, ws), rest, k - |ws|)
  {
    hide Apply;
    var k' := k - |ws|;
    var cut := if k' < |rest| then rest[..k'] else rest;
    assert (if k < |ws + rest| then (ws + rest)[..k] else ws + rest) == ws + cut;
    ApplyAppend(d, ws, cut);
  }

  /** What a crash after k writes of a run of commits, the reboots ks and a last recovery leave. */
  ghost predicate HistorySurvives(d: seq<Block>, area: Area, t: seq<Block>, txs: seq<Tx>, k: nat, ks: seq<nat>)
    requires WellFormed(d, area) && AllLoggable(d, area, txs)
  {
    RecoversTo(Stopped(d, History(d, area, txs), k), area, ks, ApplyAll(t, txs[..Landed(d, area, txs, k)]))
  }

  lemma {:induction false} NoHistory(d: seq<Block>, area: Area, t: seq<Block>, txs: seq<Tx>, k: nat, ks: seq<nat>)
    requires Settled(d, area, t) && txs == []
    ensures HistorySurvives(d, area, t, txs, k, ks)
  {
    SettledRecovers(d, area, t, ks);
  }

  lemma {:induction false} CrashInFirst(d: seq<Block>, area: Area, t: seq<Block>, txs: seq<Tx>, k: nat, ks: seq<nat>)
    requires Settled(d, area, t) && AllLoggable(d, area, txs) && txs != []
    requires k < |CommitWrites(d, area, txs[0])|
    ensures HistorySurvives(d, area, t, txs, k, ks)
  {
    var ws := CommitWrites(d, area, txs[0]);
    hide Settled, RecoversTo, Stopped, Apply, ApplyTx, ApplyAll, CommitWrites;
    StoppedEarly(d, ws, History(Apply(d, ws), area, txs[1..]), k);
    CrashAtomicity(d, area, t, txs[0], k, ks);
    FirstOfRun(t, txs);
  }

  /** Past the first commit, a run behaves as the rest of it from where that commit ended. */
  lemma {:induction false} HistoryTail(d: seq<Block>, area: Area, t: seq<Block>, txs: seq<Tx>, k: nat)
    requires Settled(d, area, t) && AllLoggable(d, area, txs) && txs != []
    requires |CommitWrites(d, area, txs[0])| <= k
    ensures var ws := CommitWrites(d, area, txs[0]);
            var d1 := Apply(d, ws);
            && Settled(d1, area, ApplyTx(t, txs[0]))
            && Stopped(d, History(d, area, txs), k) == Stopped(d1, History(d1, area, txs[1..]), k - |ws|)
  {
    var ws := CommitWrites(d, area, txs[0]);
    CommitSettles(d, area, t, txs[0]);
    hide Settled, Stopped, Apply, ApplyTx, CommitWrites;
    StoppedLate(d, ws, History(Apply(d, ws), area, txs[1..]), k);
  }

  lemma {:induction false} CommitSettles(d: seq<Block>, area: Area, t: seq<Block>, tx: Tx)
    requires Settled(d, area, t) && Loggable(d, area, tx)
    ensures Settled(Apply(d, CommitWrites(d, area, tx)), area, ApplyTx(t, tx))
  {
    var ws := CommitWrites(d, area, tx);
    CrashInCommit(d, area, t, tx, |ws|);
    hide Settled, Apply, ApplyTx, CommitWrites;
    assert ws[..|ws|] == ws;
  }

  lemma {:induction false} RestOfRun(t: seq<Block>, txs: seq<Tx>, m: nat)
    requires txs != [] && forall i :: 0 <= i < |txs| ==> |txs[i].blocks| == |txs[i].data|
    requires m < |txs|
    ensures ApplyAll(t, txs[..1 + m]) == ApplyAll(ApplyTx(t, txs[0]), txs[1..][..m])
  {
    hide ApplyTx;
    assert txs[..1 + m][1..] == txs[1..][..m];
  }

  lemma {:induction false} FirstLoggable(d: seq<Block>, area: Area, txs: seq<Tx>)
    requires AllLoggable(d, area, txs) && txs != []
    ensures Loggable(d, area, txs[0]) && |txs[0].blocks| == |txs[0].data|
  {
  }

  /** Loggable depends on the disk only through its size. */
  lemma {:induction false} LaterLoggable(d: seq<Block>, d1: seq<Block>, area: Area, txs: seq<Tx>)
    requires |d1| == |d| && AllLoggable(d, area, txs) && txs != []
    ensures AllLoggable(d1, area, txs[1..])
  {
    forall i | 0 <= i < |txs[1..]|
      ensures Loggable(d1, area, txs[1..][i])
    {
      assert Loggable(d, area, txs[i + 1]);
    }
  }

  /** The transactions a crash after k writes of a run keeps: the first, and what the rest of the run keeps. */
  lemma {:induction false} LandedTail(d: seq<Block>, area: Area, t: seq<Block>, txs: seq<Tx>, k: nat)
    requires WellFormed(d, area) && AllLoggable(d, area, txs) && txs != []
    requires |CommitWrites(d, area, txs[0])| <= k
    ensures var ws := CommitWrites(d, area, txs[0]);
            var d1 := Apply(d, ws);
            && AllLoggable(d1, area, txs[1..])
            && ApplyAll(t, txs[..Landed(d, area, txs, k)])
               == ApplyAll(ApplyTx(t, txs[0]), txs[1..][..Landed(d1, area, txs[1..], k - |ws|)])
  {
    var ws := CommitWrites(d, area, txs[0]);
    var d1 := Apply(d, ws);
    LaterLoggable(d, d1, area, txs);
    hide Apply, ApplyTx, ApplyAll, CommitWrites, Loggable;
    RestOfRun(t, txs, Landed(d1, area, txs[1..], k - |ws|));
  }

  lemma {:induction false} RestSurvives(d: seq<Block>, area: Area, t: seq<Block>, txs: seq<Tx>, k: nat,
                                        ks: seq<nat>, d1: seq<Block>)
    requires Settled(d, area, t) && AllLoggable(d, area, txs) && txs != []
    requires |CommitWrites(d, area, txs[0])| <= k
    requires d1 == Apply(d, CommitWrites(d, area, txs[0])) && AllLoggable(d1, area, txs[1..])
    requires HistorySurvives(d1, area, ApplyTx(t, txs[0]), txs[1..], k - |CommitWrites(d, area, txs[0])|, ks)
    ensures HistorySurvives(d, area, t, txs, k, ks)
  {
    HistoryTail(d, area, t, txs, k);
    LandedTail(d, area, t, txs, k);
    hide Settled, RecoversTo, Stopped, Apply, ApplyTx, ApplyAll, CommitWrites, Loggable, AllLoggable, History, Landed;
  }

  /**
   A crash anywhere in a run of commits, any number of interrupted recoveries and one
   completed recovery leave exactly the first transactions of the run, those whose
   header write had happened, each of them whole.
   */
  lemma {:induction false} CrashInHistory(d: seq<Block>, area: Area, t: seq<Block>, txs: seq<Tx>, k: nat,
                                          ks: seq<nat>)
    requires Settled(d, area, t) && AllLoggable(d, area, txs)
    ensures HistorySurvives(d, area, t, txs, k, ks)
    decreases |txs|
  {
    hide HistorySurvives, HeaderIs, Apply, ApplyTx, CommitWrites, Loggable, AllLoggable, History, Landed;
    if txs == [] {
      NoHistory(d, area, t, txs, k, ks);
    } else {
      FirstLoggable(d, area, txs);
      var ws := CommitWrites(d, area, txs[0]);
      if k < |ws| {
        CrashInFirst(d, area, t, txs, k, ks);
      } else {
        var d1 := Apply(d, ws);
        LaterLoggable(d, d1, area, txs);
        HistoryTail(d, area, t, txs, k);
        CrashInHistory(d1, area, ApplyTx(t, txs[0]), txs[1..], k - |ws|, ks);
        RestSurvives(d, area, t, txs, k, ks, d1);
      }
    }
  }
}
