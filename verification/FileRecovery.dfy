/**
 One operation of filewrite across a crash: the blocks that writei hands to log_write make a
 transaction that carries the whole change, so that a file read from the recovered disk, inode
 and all, is the old one or the new one.
 */
module FileRecovery {
  import opened LittleEndian
  import opened RedoLog
  import opened LogLayer
  import opened FileSystem
  import GroupCommit

  // ---- Files as a disk holds them ---------------------------------------------------------

  /** Byte p of the file of inode ip. */
  function ByteOn(disk: seq<Block>, ip: Inode, p: nat): byte {
    var a := Slot(disk, ip, p / BSIZE);
    if a < |disk| then disk[a][p % BSIZE] else 0
  }

  /** File i, from nothing but the blocks of the disk. */
  function FileOn(sb: Super, disk: seq<Block>, i: nat): (c: seq<byte>) {
    var ip := DiskInode(sb, disk, i);
    seq(ip.size, p requires 0 <= p < ip.size => ByteOn(disk, ip, p))
  }

  /** A store between operations, as FileSystem.Steady says. */
  ghost predicate SteadyOn(sb: Super, store: seq<Block>, inodes: seq<Inode>, owner: map<nat, Owner>) {
    && Owned(sb, Tables(store, inodes, 0, 0), owner) && InodesFit(sb, |inodes|) && OnDisk(sb, store, inodes)
    && forall i: nat :: i < |inodes| ==>
         inodes[i].size <= MAXBYTES && Dense(Tables(store, inodes, 0, 0), i, inodes[i].size)
  }

  /** The file in memory is the file on that store. */
  lemma {:induction false} FileIsOnStore(sb: Super, store: seq<Block>, inodes: seq<Inode>, owner: map<nat, Owner>,
                                         i: nat)
    requires SteadyOn(sb, store, inodes, owner) && i < |inodes|
    ensures FileOn(sb, store, i) == Contents(Tables(store, inodes, 0, 0), i, inodes[i].size)
  {
    assert DiskInode(sb, store, i) == inodes[i];
    var t := Tables(store, inodes, 0, 0);
    hide SteadyOn, Slot, DiskInode;
    forall p: nat | p < inodes[i].size
      ensures ByteOn(store, inodes[i], p) == ByteAt(t, i, p)
    {
      assert t.At(i, p / BSIZE) == Slot(store, inodes[i], p / BSIZE);
    }
  }

  /** The size of file i in the bytes of its inode. */
  function RawSize(sb: Super, disk: seq<Block>, i: nat): nat
    requires sb.inodestart + i / 8 < |disk|
  {
    Le32(disk[sb.inodestart + i / 8], i % 8 * 64 + 8)
  }

  /** The block with its bytes from 512 * bn on: number bn of the inode, or bn - 12 of the table it names last. */
  function RawAddr(sb: Super, disk: seq<Block>, i: nat, bn: nat): nat
    requires sb.inodestart + i / 8 < |disk| && bn < 140
  {
    var b := disk[sb.inodestart + i / 8];
    if bn < 12 then Le32(b, i % 8 * 64 + 12 + 4 * bn)
    else
      var table := Le32(b, i % 8 * 64 + 60);
      if table < |disk| then Le32(disk[table], 4 * (bn - 12)) else 0
  }

  lemma {:induction false} RawAddrIsSlot(sb: Super, disk: seq<Block>, i: nat, ip: Inode, bn: nat)
    requires sb.inodestart + i / 8 < |disk| && InodeIn(disk[sb.inodestart + i / 8], i, ip.size, ip.addrs) && bn < 140
    requires bn >= 12 ==> 0 < ip.addrs[12] < |disk|
    ensures RawAddr(sb, disk, i, bn) == Slot(disk, ip, bn)
  {
    if bn >= 12 {
      SlotBytes(disk, ip, bn - 12, 0);
      assert i % 8 * 64 + 60 == i % 8 * 64 + 12 + 4 * 12;
    }
    hide Le32;
  }

  /** A file is found in the bytes of the disk by the layout that mkfs and the kernel share. */
  lemma {:induction false} FileBytes(sb: Super, store: seq<Block>, inodes: seq<Inode>, owner: map<nat, Owner>, i: nat)
    requires SteadyOn(sb, store, inodes, owner) && i < |inodes|
    ensures sb.inodestart + i / 8 < |store| && |FileOn(sb, store, i)| == RawSize(sb, store, i) <= MAXBYTES
    ensures forall p: nat :: p < RawSize(sb, store, i) ==>
              && 0 < RawAddr(sb, store, i, p / 512) < |store|
              && FileOn(sb, store, i)[p] == store[RawAddr(sb, store, i, p / 512)][p % 512]
  {
    InodeOf(sb, store, inodes, owner, i);
    hide SteadyOn, DiskInode, InodeIn, RawAddr, FileOn, Le32;
    SizeOnDisk(sb, store, i, inodes[i]);
    forall p: nat | p < RawSize(sb, store, i)
      ensures 0 < RawAddr(sb, store, i, p / 512) < |store|
      ensures FileOn(sb, store, i)[p] == store[RawAddr(sb, store, i, p / 512)][p % 512]
    {
      ByteOnDisk(sb, store, inodes, owner, i, p);
    }
  }

  lemma {:induction false} SizeOnDisk(sb: Super, store: seq<Block>, i: nat, ip: Inode)
    requires sb.inodestart + i / 8 < |store| && DiskInode(sb, store, i) == ip
    requires InodeIn(store[sb.inodestart + i / 8], i, ip.size, ip.addrs)
    ensures |FileOn(sb, store, i)| == RawSize(sb, store, i) == ip.size
  {
    hide DiskInode, InodeIn;
    InodeSize(store[sb.inodestart + i / 8], i, ip);
  }

  lemma {:induction false} ByteOnDisk(sb: Super, store: seq<Block>, inodes: seq<Inode>, owner: map<nat, Owner>, i: nat,
                                      p: nat)
    requires SteadyOn(sb, store, inodes, owner) && i < |inodes| && p < inodes[i].size <= MAXBYTES
    requires sb.inodestart + i / 8 < |store| && DiskInode(sb, store, i) == inodes[i]
    requires InodeIn(store[sb.inodestart + i / 8], i, inodes[i].size, inodes[i].addrs)
    ensures |FileOn(sb, store, i)| == inodes[i].size && 0 < RawAddr(sb, store, i, p / 512) < |store|
    ensures FileOn(sb, store, i)[p] == store[RawAddr(sb, store, i, p / 512)][p % 512]
  {
    hide SteadyOn, DiskInode, InodeIn;
    PlaceOf(sb, store, inodes, owner, i, p / 512);
    RawAddrIsSlot(sb, store, i, inodes[i], p / 512);
    hide Slot, RawAddr;
  }

  lemma {:induction false} InodeSize(b: Block, i: nat, ip: Inode)
    requires InodeIn(b, i, ip.size, ip.addrs)
    ensures Le32(b, i % 8 * 64 + 8) == ip.size
  {
  }

  lemma {:induction false} InodeOf(sb: Super, store: seq<Block>, inodes: seq<Inode>, owner: map<nat, Owner>, i: nat)
    requires SteadyOn(sb, store, inodes, owner) && i < |inodes|
    ensures sb.inodestart + i / 8 < |store| && DiskInode(sb, store, i) == inodes[i] && inodes[i].size <= MAXBYTES
    ensures InodeIn(store[sb.inodestart + i / 8], i, inodes[i].size, inodes[i].addrs)
  {
    assert DiskInode(sb, store, i) == inodes[i] && IBlock(sb, i) < sb.bmapstart && Layout(sb, |store|);
    hide SteadyOn, DecodeInode, InodeIn;
    LayoutOrder(sb, |store|);
    InodeBytes(store[IBlock(sb, i)], i);
  }

  /** Every place below the size has a block, and from the thirteenth on there is a table. */
  lemma {:induction false} PlaceOf(sb: Super, store: seq<Block>, inodes: seq<Inode>, owner: map<nat, Owner>, i: nat,
                                   bn: nat)
    requires SteadyOn(sb, store, inodes, owner) && i < |inodes| && bn * BSIZE < inodes[i].size
    ensures bn < MAXFILE && |inodes[i].addrs| == 13 && 0 < Slot(store, inodes[i], bn) < |store|
    ensures bn >= 12 ==> 0 < inodes[i].addrs[12] < |store|
  {
    var t := Tables(store, inodes, 0, 0);
    assert Dense(t, i, inodes[i].size) && inodes[i].size <= MAXBYTES && Owned(sb, t, owner);
    assert t.At(i, bn) == Slot(store, inodes[i], bn);
    hide SteadyOn, Owned, Slot, Tables.At;
    TableFacts(sb, t, owner, i);
    DenseMapped(t, i, inodes[i].size, bn);
    PlaceFacts(sb, t, owner, i, bn);
  }

  /** The two disks agree from the inode blocks on. */
  ghost predicate SameFrom(sb: Super, disk: seq<Block>, disk': seq<Block>) {
    |disk'| == |disk| && forall x: nat :: sb.inodestart <= x < |disk| ==> disk'[x] == disk[x]
  }

  /** What lies before the inodes, the log among it, holds no part of any file. */
  lemma {:induction false} FileElsewhere(sb: Super, store: seq<Block>, inodes: seq<Inode>, owner: map<nat, Owner>,
                                         disk: seq<Block>, i: nat)
    requires SteadyOn(sb, store, inodes, owner) && i < |inodes| && SameFrom(sb, store, disk)
    ensures FileOn(sb, disk, i) == FileOn(sb, store, i)
  {
    var t, ip := Tables(store, inodes, 0, 0), inodes[i];
    assert DiskInode(sb, store, i) == ip;
    TableFacts(sb, t, owner, i);
    LayoutOrder(sb, |store|);
    assert IBlock(sb, i) < sb.bmapstart;
    assert DiskInode(sb, disk, i) == ip;
    forall p: nat | p < ip.size
      ensures ByteOn(disk, ip, p) == ByteOn(store, ip, p)
    {
      hide Owned, DiskInode;
      DenseByte(t, i, ip.size, p);
      PlaceFacts(sb, t, owner, i, p / BSIZE);
      SlotElsewhere(sb, store, disk, ip, p / BSIZE);
    }
    hide SteadyOn, ByteOn, DiskInode, Owned;
  }

  lemma {:induction false} SlotElsewhere(sb: Super, store: seq<Block>, disk: seq<Block>, ip: Inode, bn: nat)
    requires SameFrom(sb, store, disk) && |ip.addrs| == NDIRECT + 1
    requires ip.addrs[NDIRECT] == 0 || sb.inodestart <= ip.addrs[NDIRECT] < |store|
    ensures Slot(disk, ip, bn) == Slot(store, ip, bn)
  {
  }

  // ---- The transaction of one operation ----------------------------------------------------------

  ghost predicate Below(l: seq<nat>, n: int) { forall k :: 0 <= k < |l| ==> l[k] < n }

  /** The list log_write builds for these calls. */
  ghost function ListOf(l: seq<nat>): (r: seq<uint32>)
    requires Below(l, U32)
  {
    if l == [] then [] else Absorb(ListOf(l[..|l| - 1]), l[|l| - 1])
  }

  lemma {:induction false} ListOfFacts(l: seq<nat>, n: int)
    requires Below(l, n) && n <= U32
    ensures Distinct(ListOf(l))
    ensures forall k :: 0 <= k < |ListOf(l)| ==> ListOf(l)[k] in l && ListOf(l)[k] < n
    ensures forall k :: 0 <= k < |l| ==> l[k] in ListOf(l)
  {
    if l != [] {
      var init, last := l[..|l| - 1], l[|l| - 1];
      ListOfFacts(init, n);
      assert l == init + [last];
      assert last in Absorb(ListOf(init), last);
      forall k | 0 <= k < |l|
        ensures l[k] in ListOf(l)
      {
        assert k < |init| ==> init[k] in ListOf(init);
      }
    }
  }

  lemma {:induction false} DistinctFits(xs: seq<uint32>, s: set<nat>)
    requires Distinct(xs) && forall i :: 0 <= i < |xs| ==> xs[i] in s
    ensures |xs| <= |s|
  {
    if xs != [] {
      var last := |xs| - 1;
      DistinctFits(xs[..last], s - {xs[last]});
    }
  }

  lemma {:induction false} ListIsShort(l: seq<nat>)
    requires Below(l, U32)
    ensures |ListOf(l)| <= |Blocks(l)|
  {
    ListOfFacts(l, U32);
    DistinctFits(ListOf(l), Blocks(l));
  }

  /** What commit writes for the operation: the listed blocks as they are at its end. */
  ghost function OpTx(store: seq<Block>, logged: seq<nat>): (tx: Tx)
    requires |store| < U32 && Below(logged, |store|)
    ensures |tx.blocks| == |tx.data| && tx.blocks == ListOf(logged)
  {
    ListOfFacts(logged, |store|);
    Tx(ListOf(logged), ContentsOf(store, ListOf(logged)))
  }

  /** The log lies before the inodes and takes one operation. */
  predicate LogBefore(sb: Super, area: Area) {
    area.start + area.size <= sb.inodestart && GroupCommit.MAXOPBLOCKS < area.size
  }

  /** The transaction carries the whole change. */
  lemma {:induction false} OpTxIsChange(sb: Super, base: seq<Block>, store: seq<Block>, logged: seq<nat>, area: Area)
    requires AllLogged(sb, base, store, logged) && Below(logged, |store|) && |store| < U32 && LogBefore(sb, area)
    requires |Blocks(logged)| <= GroupCommit.MAXOPBLOCKS
    ensures Loggable(base, area, OpTx(store, logged)) && ApplyTx(base, OpTx(store, logged)) == store
  {
    var tx := OpTx(store, logged);
    ListOfFacts(logged, |store|);
    ListIsShort(logged);
    hide Blocks, ListOf;
    forall k | 0 <= k < |tx.blocks|
      ensures tx.blocks[k] < |base| && !area.Holds(tx.blocks[k])
    {
      assert tx.blocks[k] in logged;
    }
    assert Loggable(base, area, tx);
    forall b: nat | b < |base|
      ensures ApplyTx(base, tx)[b] == store[b]
    {
      hide ApplyTx;
      TransactionEffect(base, area, tx, b);
      if i :| 0 <= i < |tx.blocks| && tx.blocks[i] == b {
        assert tx.data[i] == store[b];
      } else {
        assert b !in logged;
      }
    }
  }

  /** The disk after those boots and one recovery that runs to its end. */
  function Recovered(d: seq<Block>, area: Area, ks: seq<nat>): seq<Block> {
    var d' := Reboots(d, area, ks);
    if Recoverable(d', area) then Apply(d', RecoverWrites(d', area)) else d'
  }

  /** The disk when the commit of tx is stopped after k writes and recovered after the boots ks. */
  function AfterCrash(d: seq<Block>, area: Area, tx: Tx, k: nat, ks: seq<nat>): seq<Block>
    requires WellFormed(d, area) && Loggable(d, area, tx)
  {
    Recovered(Stopped(d, CommitWrites(d, area, tx), k), area, ks)
  }

  /** The commit of one operation stopped anywhere: from the inode blocks on, the old store or the new one. */
  lemma {:induction false} OpSurvives(sb: Super, d: seq<Block>, area: Area, base: seq<Block>, store: seq<Block>,
                                      logged: seq<nat>, k: nat, ks: seq<nat>)
    requires Settled(d, area, base) && AllLogged(sb, base, store, logged) && Below(logged, |store|)
    requires |store| < U32 && LogBefore(sb, area)
    requires |Blocks(logged)| <= GroupCommit.MAXOPBLOCKS
    ensures Loggable(d, area, OpTx(store, logged))
    ensures var tx := OpTx(store, logged);
            SameFrom(sb, if k <= |tx.blocks| then base else store, AfterCrash(d, area, tx, k, ks))
  {
    var tx := OpTx(store, logged);
    OpTxIsChange(sb, base, store, logged, area);
    assert Loggable(d, area, tx) && |d| == |base|;
    CrashAtomicity(d, area, base, tx, k, ks);
    hide Loggable, AllLogged, Blocks, Apply, ApplyTx, Stopped, CommitWrites, RecoverWrites, Reboots;
    RecoveredSettles(Stopped(d, CommitWrites(d, area, tx), k), area, ks, Outcome(base, tx, k));
    hide HeaderIs, Recovered;
  }

  lemma {:induction false} RecoveredSettles(d: seq<Block>, area: Area, ks: seq<nat>, t: seq<Block>)
    requires RecoversTo(d, area, ks, t)
    ensures Settled(Recovered(d, area, ks), area, t)
  {
    hide Settled, Apply, RecoverWrites, Reboots;
  }

  /**
   d is the disk when the operation begins, was and now are the files before and after it. Stop the machine after
   any number k of the block writes of its commit, boot any number of times with recovery cut short, then let one
   recovery run to its end: every file read from that disk is as before if the header had not been written, and
   as after the operation if it had.
   */
  ghost predicate FilesSurvive(sb: Super, d: seq<Block>, area: Area, store: seq<Block>, logged: seq<nat>,
                               was: seq<seq<byte>>, now: seq<seq<byte>>) {
    && WellFormed(d, area) && |store| < U32 && Below(logged, |store|) && |was| == |now|
    && var tx := OpTx(store, logged);
    && Loggable(d, area, tx)
    && forall k: nat, ks: seq<nat>, j: nat :: j < |now| ==>
         FileOn(sb, AfterCrash(d, area, tx, k, ks), j) == if k <= |tx.blocks| then was[j] else now[j]
  }

  /** When the commit has run to its end the disk is settled with the new store. */
  ghost predicate CommitDone(d: seq<Block>, area: Area, store: seq<Block>, logged: seq<nat>) {
    && WellFormed(d, area) && |store| < U32 && Below(logged, |store|) && Loggable(d, area, OpTx(store, logged))
    && Settled(Apply(d, CommitWrites(d, area, OpTx(store, logged))), area, store)
  }

  lemma {:induction false} OpSettles(sb: Super, d: seq<Block>, area: Area, base: seq<Block>, store: seq<Block>,
                                     logged: seq<nat>)
    requires Settled(d, area, base) && AllLogged(sb, base, store, logged) && |store| < U32 && LogBefore(sb, area)
    requires |Blocks(logged)| <= GroupCommit.MAXOPBLOCKS
    ensures CommitDone(d, area, store, logged)
  {
    LoggedInStore(sb, base, store, logged);
    OpTxIsChange(sb, base, store, logged, area);
    var tx := OpTx(store, logged);
    assert Loggable(d, area, tx) && |d| == |base|;
    hide Loggable, AllLogged, Blocks, Apply, ApplyTx, CommitWrites, OpTx, LogBefore, HeaderIs;
    CommitSettles(d, area, base, tx);
  }

  /** One crash and one file. */
  lemma {:induction false} OldOrNewFile(sb: Super, d: seq<Block>, area: Area,
                                        store0: seq<Block>, inodes0: seq<Inode>, owner0: map<nat, Owner>,
                                        store: seq<Block>, inodes: seq<Inode>, owner: map<nat, Owner>,
                                        logged: seq<nat>, k: nat, ks: seq<nat>, j: nat)
    requires SteadyOn(sb, store0, inodes0, owner0) && SteadyOn(sb, store, inodes, owner) && j < |inodes0| == |inodes|
    requires Settled(d, area, store0) && AllLogged(sb, store0, store, logged) && |store| < U32 && LogBefore(sb, area)
    requires |Blocks(logged)| <= GroupCommit.MAXOPBLOCKS && Below(logged, |store|)
    ensures WellFormed(d, area) && Loggable(d, area, OpTx(store, logged))
    ensures var tx := OpTx(store, logged);
            FileOn(sb, AfterCrash(d, area, tx, k, ks), j)
            == if k <= |tx.blocks| then FileOn(sb, store0, j) else FileOn(sb, store, j)
  {
    assert WellFormed(d, area);
    hide SteadyOn, Settled, AllLogged, FileOn, OpTx, Blocks, Loggable, AfterCrash, SameFrom, LogBefore, WellFormed,
         Below;
    OpSurvives(sb, d, area, store0, store, logged, k, ks);
    var tx := OpTx(store, logged);
    if k <= |tx.blocks| {
      FileElsewhere(sb, store0, inodes0, owner0, AfterCrash(d, area, tx, k, ks), j);
    } else {
      FileElsewhere(sb, store, inodes, owner, AfterCrash(d, area, tx, k, ks), j);
    }
  }

  lemma {:induction false} OldOrNew(sb: Super, d: seq<Block>, area: Area,
                                    store0: seq<Block>, inodes0: seq<Inode>, owner0: map<nat, Owner>,
                                    store: seq<Block>, inodes: seq<Inode>, owner: map<nat, Owner>,
                                    logged: seq<nat>, was: seq<seq<byte>>, now: seq<seq<byte>>)
    requires SteadyOn(sb, store0, inodes0, owner0) && SteadyOn(sb, store, inodes, owner) && |inodes0| == |inodes|
    requires Settled(d, area, store0) && AllLogged(sb, store0, store, logged) && |store| < U32 && LogBefore(sb, area)
    requires |Blocks(logged)| <= GroupCommit.MAXOPBLOCKS && |was| == |now| == |inodes|
    requires forall j :: 0 <= j < |inodes| ==> was[j] == FileOn(sb, store0, j) && now[j] == FileOn(sb, store, j)
    ensures FilesSurvive(sb, d, area, store, logged, was, now)
  {
    assert WellFormed(d, area);
    hide SteadyOn, Settled, AllLogged, FileOn, OpTx, Blocks, Loggable, AfterCrash, LogBefore, WellFormed;
    LoggedInStore(sb, store0, store, logged);
    OpSurvives(sb, d, area, store0, store, logged, 0, []);
    hide Below;
    forall k: nat, ks: seq<nat>, j: nat | j < |now|
      ensures FileOn(sb, AfterCrash(d, area, OpTx(store, logged), k, ks), j)
              == if k <= |OpTx(store, logged).blocks| then was[j] else now[j]
    {
      OldOrNewFile(sb, d, area, store0, inodes0, owner0, store, inodes, owner, logged, k, ks, j);
    }
  }

  /** The blocks a file of that size has and those that are free. */
  function Spare(sb: Super, store: seq<Block>, size: nat): nat { Free(sb, store) + Used(size) }

  /** Fewer than a file that reaches up to end needs. */
  predicate Short(sb: Super, store: seq<Block>, size: nat, end: nat) {
    Spare(sb, store, size) < Used(Max(size, end))
  }

  /** One chunk of filewrite as an operation of its own: a crash leaves every file as it was or as it becomes. */
  method FilewriteChunk(fs: FileSystem, i: nat, src: seq<byte>, off: uint32, area: Area, ghost d: seq<Block>)
    returns (r: WriteResult)
    requires fs.Steady() && i < |fs.inodes| && |src| <= CHUNK
    requires LogBefore(fs.sb, area) && Settled(d, area, fs.store)
    modifies fs
    ensures r == Refused <==> off > |old(fs.File(i))| || off + |src| > MAXBYTES
    ensures r == OutOfBlocks <==> r != Refused && Short(fs.sb, old(fs.store), |old(fs.File(i))|, off + |src|)
    ensures r.Wrote? ==>
              && fs.Steady() && |fs.inodes| == |old(fs.inodes)|
              && fs.Files() == old(fs.Files())[i := Splice(old(fs.File(i)), off, src)]
              && Spare(fs.sb, fs.store, |fs.File(i)|) == old(Spare(fs.sb, fs.store, |fs.File(i)|))
              && FilesSurvive(fs.sb, d, area, fs.store, fs.logged, old(fs.Files()), fs.Files())
              && CommitDone(d, area, fs.store, fs.logged)
    ensures r == Refused ==> fs.Steady() && fs.Files() == old(fs.Files()) && fs.store == old(fs.store)
  {
    hide FileSystem.Valid, FileSystem.Steady, SteadyOn, Settled, AllLogged, Contents, Splice, FileOn, Blocks,
         FilesSurvive, LogBefore, CommitDone;
    ghost var store0, inodes0, owner0, was := fs.store, fs.inodes, fs.owner, fs.Files();
    SteadyIsOn(fs);
    fs.BeginOp();
    assert fs.Files() == was;
    r := fs.Writei(i, src, off);
    if r.Wrote? {
      SteadyIsOn(fs);
      assert fs.logged[0..] == fs.logged;
      OpSettles(fs.sb, d, area, store0, fs.store, fs.logged);
      OldOrNew(fs.sb, d, area, store0, inodes0, owner0, fs.store, fs.inodes, fs.owner, fs.logged, was, fs.Files());
      assert fs.Files() == was[i := Splice(was[i], off, src)];
    }
  }

  lemma {:induction false} LoggedInStore(sb: Super, base: seq<Block>, store: seq<Block>, logged: seq<nat>)
    requires AllLogged(sb, base, store, logged)
    ensures Below(logged, |store|)
  {
    forall k | 0 <= k < |logged|
      ensures logged[k] < |store|
    {
      assert logged[k] in logged;
    }
  }

  /** A file system between operations, as values. */
  lemma {:induction false} SteadyIsOn(fs: FileSystem)
    requires fs.Steady()
    ensures fs.Valid() && SteadyOn(fs.sb, fs.store, fs.inodes, fs.owner) && |fs.store| < U32
    ensures AllLogged(fs.sb, fs.base, fs.store, fs.logged)
    ensures forall j: nat :: j < |fs.inodes| ==> FileOn(fs.sb, fs.store, j) == fs.File(j)
  {
    hide Dense, FileOn;
    assert Layout(fs.sb, |fs.store|);
    forall j: nat | j < |fs.inodes|
      ensures FileOn(fs.sb, fs.store, j) == fs.File(j)
    {
      FileIsOnStore(fs.sb, fs.store, fs.inodes, fs.owner, j);
    }
  }

  // ---- The whole of filewrite ------------------------------------------------------------------

  datatype Filewritten = AllOf(n: nat) | Failed | NoBlocks

  /** One commit of a filewrite: the disk before it, and how many bytes were written before and after it. */
  datatype Commit = Commit(d: seq<Block>, tx: Tx, from: nat, to: nat)

  /** Stopped anywhere, this commit leaves file i with the first so many bytes written, a whole number of chunks or
      all. */
  ghost predicate WholeChunks(sb: Super, area: Area, i: nat, c: Commit, file: seq<byte>, off: nat, src: seq<byte>) {
    && WellFormed(c.d, area) && Loggable(c.d, area, c.tx)
    && off <= |file| && c.from % CHUNK == 0 && c.from < c.to <= |src| && (c.to == |src| || c.to == c.from + CHUNK)
    && forall k: nat, ks: seq<nat> ::
         FileOn(sb, AfterCrash(c.d, area, c.tx, k, ks), i)
         == Splice(file, off, src[..if k <= |c.tx.blocks| then c.from else c.to])
  }

  lemma {:induction false} ChunkIsWhole(sb: Super, d: seq<Block>, area: Area, store: seq<Block>, logged: seq<nat>,
                                        was: seq<seq<byte>>, now: seq<seq<byte>>, i: nat,
                                        file: seq<byte>, off: nat, src: seq<byte>, from: nat, to: nat)
    requires FilesSurvive(sb, d, area, store, logged, was, now) && i < |was|
    requires off <= |file| && from % CHUNK == 0 && from < to <= |src| && (to == |src| || to == from + CHUNK)
    requires was[i] == Splice(file, off, src[..from]) && now[i] == Splice(file, off, src[..to])
    ensures |store| < U32 && Below(logged, |store|)
    ensures WholeChunks(sb, area, i, Commit(d, OpTx(store, logged), from, to), file, off, src)
  {
    hide FileOn, AfterCrash, Splice, OpTx, Loggable;
  }

  /** The files after the first done bytes. */
  ghost predicate WrittenSoFar(now: seq<seq<byte>>, was: seq<seq<byte>>, i: nat, off: nat, src: seq<byte>, done: nat) {
    && i < |was| && done <= |src|
    && (if done == 0 then now == was else off <= |was[i]| && now == was[i := Splice(was[i], off, src[..done])])
  }

  lemma {:induction false} WriteOneMore(was: seq<seq<byte>>, before: seq<seq<byte>>, after: seq<seq<byte>>, i: nat,
                                        off: nat, src: seq<byte>, done: nat, n: nat)
    requires WrittenSoFar(before, was, i, off, src, done) && 0 < n && done + n <= |src| && i < |before|
    requires off + done <= |before[i]| && after == before[i := Splice(before[i], off + done, src[done..done + n])]
    ensures off <= |was[i]| && WrittenSoFar(after, was, i, off, src, done + n)
    ensures |before| == |after| == |was| && before[i] == Splice(was[i], off, src[..done])
    ensures after[i] == Splice(was[i], off, src[..done + n])
  {
    if done == 0 {
      assert src[0..n] == src[..n];
      SpliceEnds(was[i], off, src);
    } else {
      SpliceNext(was[i], off, src, done, n);
    }
    hide Splice;
  }

  /** The write begins within the file and ends within the largest one. */
  ghost predicate Fitting(was: seq<seq<byte>>, i: nat, off: nat, src: seq<byte>) {
    i < |was| && off <= |was[i]| && off + |src| <= MAXBYTES
  }

  /** Where the next chunk begins, if the file has become that long. */
  lemma {:induction false} WritesFit(was: seq<seq<byte>>, now: seq<seq<byte>>, i: nat, off: nat, src: seq<byte>,
                                     done: nat)
    requires WrittenSoFar(now, was, i, off, src, done)
    ensures i < |was| == |now| && (off + done <= |now[i]| <==> off <= |was[i]|)
  {
  }

  /** The blocks of the disk when the first done bytes are in a file that had size0: none is lost. */
  ghost predicate Balanced(sb: Super, store0: seq<Block>, size0: nat, store: seq<Block>, size: nat, off: nat,
                           done: nat) {
    && size == (if done == 0 then size0 else Max(size0, off + done))
    && Spare(sb, store, size) == Spare(sb, store0, size0)
  }

  lemma {:induction false} BalanceMore(sb: Super, store0: seq<Block>, size0: nat, store: seq<Block>, size: nat,
                                       store': seq<Block>, size': nat, off: nat, done: nat, n: nat)
    requires Balanced(sb, store0, size0, store, size, off, done) && 0 < n
    requires size' == Max(size, off + done + n) && Spare(sb, store', size') == Spare(sb, store, size)
    ensures Balanced(sb, store0, size0, store', size', off, done + n)
  {
    hide Free, Used;
  }

  /** Short of blocks for a part, and so for the whole. */
  lemma {:induction false} ShortAlso(sb: Super, store0: seq<Block>, size0: nat, store: seq<Block>, size: nat, off: nat,
                                     done: nat, end: nat, end': nat)
    requires Balanced(sb, store0, size0, store, size, off, done) && off + done <= end <= end'
    requires Short(sb, store, size, end)
    ensures Short(sb, store0, size0, end')
  {
    UsedGrows(Max(size, end), Max(size0, end'));
    hide Free, Used;
  }

  lemma {:induction false} NotShort(sb: Super, store0: seq<Block>, size0: nat, store: seq<Block>, size: nat, off: nat,
                                    done: nat)
    requires Balanced(sb, store0, size0, store, size, off, done) && 0 < done
    ensures !Short(sb, store0, size0, off + done)
  {
    hide Free, Used;
  }

  /** One turn of the loop of filewrite. */
  method FilewriteTurn(fs: FileSystem, i: nat, src: seq<byte>, off0: uint32, done: nat, area: Area,
                       ghost d: seq<Block>, ghost was: seq<seq<byte>>)
    returns (w: WriteResult, n1: nat, ghost d': seq<Block>, ghost c: Commit)
    requires fs.Steady() && LogBefore(fs.sb, area) && Settled(d, area, fs.store)
    requires i < |fs.inodes| && done < |src| && done % CHUNK == 0 && off0 + done < U32
    requires WrittenSoFar(fs.Files(), was, i, off0, src, done)
    modifies fs
    ensures 0 < n1 <= CHUNK && done + n1 <= |src| && (done + n1 == |src| || n1 == CHUNK)
    ensures w != OutOfBlocks ==> fs.Steady() && |fs.inodes| == |old(fs.inodes)| && Settled(d', area, fs.store)
    ensures w == Refused ==> WrittenSoFar(fs.Files(), was, i, off0, src, done) && !Fitting(was, i, off0, src)
    ensures w == OutOfBlocks ==> Short(fs.sb, old(fs.store), |old(fs.File(i))|, off0 + done + n1)
    ensures w.Wrote? ==>
              && |fs.File(i)| == Max(|old(fs.File(i))|, off0 + done + n1)
              && Spare(fs.sb, fs.store, |fs.File(i)|) == old(Spare(fs.sb, fs.store, |fs.File(i)|))
              && i < |was| && off0 <= |was[i]|
              && off0 + done + n1 <= MAXBYTES && WrittenSoFar(fs.Files(), was, i, off0, src, done + n1)
              && c.from == done && c.to == done + n1
              && WholeChunks(fs.sb, area, i, c, was[i], off0, src)
  {
    hide FileSystem.Steady, FileSystem.File, Settled, Splice, FilesSurvive, LogBefore, WholeChunks, OpTx,
         CommitWrites, Apply, Loggable, WrittenSoFar;
    n1 := if |src| - done > CHUNK then CHUNK else |src| - done;
    ghost var before := fs.Files();
    d', c := d, Commit(d, Tx([], []), 0, 0);
    WritesFit(was, before, i, off0, src, done);
    w := FilewriteChunk(fs, i, src[done..done + n1], off0 + done, area, d);
    if w.Wrote? {
      WriteOneMore(was, before, fs.Files(), i, off0, src, done, n1);
      ChunkIsWhole(fs.sb, d, area, fs.store, fs.logged, before, fs.Files(), i, was[i], off0, src, done, done + n1);
      c := Commit(d, OpTx(fs.store, fs.logged), done, done + n1);
      d' := Apply(d, CommitWrites(d, area, OpTx(fs.store, fs.logged)));
    }
  }

  /** The commits follow each other from the first byte to the first done bytes. */
  ghost predicate Chained(commits: seq<Commit>, done: nat) {
    && (if commits == [] then done == 0 else commits[0].from == 0 && commits[|commits| - 1].to == done)
    && forall k :: 0 < k < |commits| ==> commits[k - 1].to == commits[k].from
  }

  lemma {:induction false} NoCommits()
    ensures Chained([], 0)
  {
  }

  lemma {:induction false} ChainMore(commits: seq<Commit>, c: Commit, done: nat)
    requires Chained(commits, done) && c.from == done
    ensures Chained(commits + [c], c.to)
  {
  }

  /**
   filewrite on an inode: one operation per chunk. All bytes are written, or it fails with a leading part of them
   written, in whole chunks; a crash at any point of any of its commits leaves such a part too.
   */
  method Filewrite(fs: FileSystem, i: nat, src: seq<byte>, off0: uint32, area: Area, ghost d0: seq<Block>)
    returns (r: Filewritten, done: nat, ghost commits: seq<Commit>)
    requires fs.Steady() && i < |fs.inodes| && LogBefore(fs.sb, area) && Settled(d0, area, fs.store)
    modifies fs
    ensures done <= |src| && (r.AllOf? <==> done == |src|) && (r.AllOf? ==> r.n == |src|)
    ensures r != NoBlocks ==>
              && fs.Steady() && (done < |src| ==> done % CHUNK == 0)
              && WrittenSoFar(fs.Files(), old(fs.Files()), i, off0, src, done)
    ensures var fits := Fitting(old(fs.Files()), i, off0, src);
            var short := Short(fs.sb, old(fs.store), |old(fs.File(i))|, off0 + |src|);
            (r.AllOf? <==> src == [] || (fits && !short)) && (r == Failed ==> !fits) && (r == NoBlocks ==> short)
    ensures forall c :: 0 <= c < |commits| ==> WholeChunks(fs.sb, area, i, commits[c], old(fs.File(i)), off0, src)
    ensures Chained(commits, done)
  {
    hide FileSystem.Steady, FileSystem.File, Settled, LogBefore, WholeChunks, WrittenSoFar, Chained, Short, Spare,
         Max;
    assert Balanced(fs.sb, fs.store, |fs.File(i)|, fs.store, |fs.File(i)|, off0, 0);
    hide Balanced;
    NoCommits();
    ghost var was, d, store0 := fs.Files(), d0, fs.store;
    NothingWritten(was, i, off0, src);
    done, commits, r := 0, [], AllOf(|src|);
    while done < |src| && r.AllOf?
      invariant done <= |src| && (r.AllOf? ==> r.n == |src|) && (r.AllOf? || done < |src|)
      invariant (done < |src| ==> done % CHUNK == 0) && off0 + done < U32 && |was| > i
      invariant done > 0 ==> off0 <= |was[i]| && off0 + done <= MAXBYTES
      invariant r == Failed ==> !Fitting(was, i, off0, src)
      invariant r == NoBlocks ==> Short(fs.sb, store0, |was[i]|, off0 + |src|)
      invariant r.AllOf? ==>
                  i < |fs.inodes| && Balanced(fs.sb, store0, |was[i]|, fs.store, |fs.File(i)|, off0, done)
      invariant r != NoBlocks ==> fs.Steady() && Settled(d, area, fs.store) && i < |fs.inodes|
      invariant r != NoBlocks ==> WrittenSoFar(fs.Files(), was, i, off0, src, done)
      invariant forall c :: 0 <= c < |commits| ==> WholeChunks(fs.sb, area, i, commits[c], was[i], off0, src)
      invariant Chained(commits, done)
      decreases |src| - done, r.AllOf?
    {
      var w, n1;
      ghost var c, store, size := Commit(d, Tx([], []), 0, 0), fs.store, |fs.File(i)|;
      w, n1, d, c := FilewriteTurn(fs, i, src, off0, done, area, d, was);
      if w.Wrote? {
        ChainMore(commits, c, done);
        BalanceMore(fs.sb, store0, |was[i]|, store, size, fs.store, |fs.File(i)|, off0, done, n1);
        commits := commits + [c];
        done := done + n1;
      } else {
        if w == OutOfBlocks {
          ShortAlso(fs.sb, store0, |was[i]|, store, size, off0, done, off0 + done + n1, off0 + |src|);
        }
        r := if w == Refused then Failed else NoBlocks;
      }
    }
    if r.AllOf? && done > 0 {
      NotShort(fs.sb, store0, |was[i]|, fs.store, |fs.File(i)|, off0, done);
    }
  }

  lemma {:induction false} NothingWritten(was: seq<seq<byte>>, i: nat, off: nat, src: seq<byte>)
    requires i < |was|
    ensures WrittenSoFar(was, was, i, off, src, 0)
  {
  }
}
