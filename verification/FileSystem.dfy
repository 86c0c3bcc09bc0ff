/**
 Block allocation and file contents of fs.c. The store is the block contents that bread
 returns and log_write publishes inside one transaction; bitmap and indirect blocks are
 the bytes the source reads and writes.
 */
module FileSystem {
  import opened LittleEndian
  import opened RedoLog
  import GroupCommit

  const NDIRECT: nat := 12
  const NINDIRECT: nat := 128
  const MAXFILE: nat := NDIRECT + NINDIRECT
  const MAXBYTES: nat := 71680   // MAXFILE * BSIZE
  const BPB: nat := BSIZE * 8

  /** The superblock fields used here; nmeta is size minus nblocks, the first data block. */
  datatype Super = Super(size: nat, inodestart: nat, bmapstart: nat, nmeta: nat)

  datatype Inode = Inode(size: nat, addrs: seq<uint32>)

  /** What an allocated block is for. */
  datatype Owner = Meta | Data(inum: nat, bn: nat) | Indirect(inum: nat)

  // ---- Bits of a byte ------------------------------------------------------------------

  /** x & (1 << k) is not zero. */
  predicate Bit(x: nat, k: nat) {
    if k == 0 then x % 2 == 1 else Bit(x / 2, k - 1)
  }

  /** x with bit k set or cleared: x | (1 << k) or x & ~(1 << k). */
  function WithBit(x: nat, k: nat, on: bool): nat {
    if k == 0 then x - x % 2 + (if on then 1 else 0) else 2 * WithBit(x / 2, k - 1, on) + x % 2
  }

  lemma {:induction false} BitOfWith(x: nat, k: nat, on: bool, j: nat)
    ensures Bit(WithBit(x, k, on), j) <==> if j == k then on else Bit(x, j)
  {
    if k > 0 && j > 0 {
      BitOfWith(x / 2, k - 1, on, j - 1);
    }
  }

  /** A bit below w does not widen a number of w bits. */
  lemma {:induction false} WithBitFits(x: nat, k: nat, on: bool, w: nat)
    requires x < Power2(w) && k < w
    ensures WithBit(x, k, on) < Power2(w)
  {
    var half := Power2(w - 1);
    assert Power2(w) == 2 * half;
    if k > 0 {
      assert x / 2 < half;
      WithBitFits(x / 2, k - 1, on, w - 1);
    }
  }

  function PutBit(x: byte, k: nat, on: bool): byte
    requires k < 8
  {
    assert Power2(8) == 256 by {
      assert Power2(2) == 4 && Power2(4) == 16 && Power2(6) == 64;
    }
    WithBitFits(x, k, on, 8);
    WithBit(x, k, on)
  }

  // ---- Inodes on disk ---------------------------------------------------------------------

  const IPB: nat := 8   // inodes per block

  function IBlock(sb: Super, i: nat): nat { sb.inodestart + i / IPB }

  /** Word k of inode i in its block: 0 and 1 hold type and links, 2 the size, 3 to 15 the addresses. */
  function InodeWord(i: nat, k: nat): (w: nat)
    requires k < 16
    ensures w < 128
  {
    i % IPB * 16 + k
  }

  /** Inode i as the bytes of its block give it. */
  function DecodeInode(b: Block, i: nat): Inode {
    Inode(Word(b, InodeWord(i, 2)), seq(NDIRECT + 1, k requires 0 <= k < NDIRECT + 1 => Word(b, InodeWord(i, 3 + k))))
  }

  function DiskInode(sb: Super, store: seq<Block>, i: nat): Inode {
    if IBlock(sb, i) < |store| then DecodeInode(store[IBlock(sb, i)], i) else Inode(0, [])
  }

  /** The block with addresses stored for inode i, as memmove does. */
  function PutAddrs(b: Block, i: nat, addrs: seq<uint32>): Block
    requires |addrs| <= NDIRECT + 1
  {
    if addrs == [] then b
    else PutWord(PutAddrs(b, i, addrs[..|addrs| - 1]), InodeWord(i, 2 + |addrs|), addrs[|addrs| - 1])
  }

  /** The block with size and addresses of ip stored for inode i. */
  function PutInode(b: Block, i: nat, ip: Inode): Block
    requires ip.size < U32 && |ip.addrs| == NDIRECT + 1
  {
    PutAddrs(PutWord(b, InodeWord(i, 2), ip.size), i, ip.addrs)
  }

  lemma {:induction false} InodeWordsApart(i: nat, k: nat, j: nat, m: nat)
    requires k < 16 && m < 16 && InodeWord(i, k) == InodeWord(j, m)
    ensures i % IPB == j % IPB && k == m
  {
  }

  lemma {:induction false} AddrsWord(b: Block, i: nat, addrs: seq<uint32>, j: nat, m: nat)
    requires |addrs| <= NDIRECT + 1 && m < 16
    ensures Word(PutAddrs(b, i, addrs), InodeWord(j, m))
            == if i % IPB == j % IPB && 3 <= m < 3 + |addrs| then addrs[m - 3] else Word(b, InodeWord(j, m))
  {
    if addrs != [] {
      var init := addrs[..|addrs| - 1];
      AddrsWord(b, i, init, j, m);
      WordOfPut(PutAddrs(b, i, init), InodeWord(i, 2 + |addrs|), addrs[|addrs| - 1], InodeWord(j, m));
      hide PutWord, Word, PutAddrs, InodeWord;
      if InodeWord(i, 2 + |addrs|) == InodeWord(j, m) {
        InodeWordsApart(i, 2 + |addrs|, j, m);
      } else {
        SameWord(i, j, 2 + |addrs|, m);
      }
    }
  }

  lemma {:induction false} SameWord(i: nat, j: nat, k: nat, m: nat)
    requires k < 16 && m < 16 && InodeWord(i, k) != InodeWord(j, m)
    ensures !(i % IPB == j % IPB && k == m)
  {
  }

  lemma {:induction false} InodeWords(b: Block, i: nat, ip: Inode, j: nat, m: nat)
    requires ip.size < U32 && |ip.addrs| == NDIRECT + 1 && 2 <= m < 16
    ensures Word(PutInode(b, i, ip), InodeWord(j, m))
            == if i % IPB != j % IPB then Word(b, InodeWord(j, m)) else if m == 2 then ip.size else ip.addrs[m - 3]
  {
    AddrsWord(PutWord(b, InodeWord(i, 2), ip.size), i, ip.addrs, j, m);
    WordOfPut(b, InodeWord(i, 2), ip.size, InodeWord(j, m));
    hide PutWord, Word, PutAddrs, InodeWord;
    if m == 2 && InodeWord(i, 2) != InodeWord(j, m) {
      SameWord(i, j, 2, m);
    } else if InodeWord(i, 2) == InodeWord(j, m) {
      InodeWordsApart(i, 2, j, m);
    }
  }

  lemma {:induction false} DecodeFrom(b: Block, j: nat, ip: Inode)
    requires |ip.addrs| == NDIRECT + 1 && Word(b, InodeWord(j, 2)) == ip.size
    requires forall k :: 0 <= k < NDIRECT + 1 ==> Word(b, InodeWord(j, 3 + k)) == ip.addrs[k]
    ensures DecodeInode(b, j) == ip
  {
    hide Word, InodeWord;
    assert DecodeInode(b, j).addrs == ip.addrs;
  }

  lemma {:induction false} DecodeSame(b: Block, b': Block, j: nat)
    requires forall m :: 2 <= m < 16 ==> Word(b', InodeWord(j, m)) == Word(b, InodeWord(j, m))
    ensures DecodeInode(b', j) == DecodeInode(b, j)
  {
    hide Word, InodeWord;
    assert DecodeInode(b', j).addrs == DecodeInode(b, j).addrs;
  }

  /** iupdate stores the inode, and none of the others in its block changes. */
  lemma {:induction false} InodeRoundTrip(b: Block, i: nat, ip: Inode, j: nat)
    requires ip.size < U32 && |ip.addrs| == NDIRECT + 1
    ensures DecodeInode(PutInode(b, i, ip), j) == if i % IPB == j % IPB then ip else DecodeInode(b, j)
  {
    hide PutInode, Word, InodeWord, DecodeInode;
    var b' := PutInode(b, i, ip);
    forall m | 2 <= m < 16
      ensures Word(b', InodeWord(j, m))
              == if i % IPB != j % IPB then Word(b, InodeWord(j, m)) else if m == 2 then ip.size else ip.addrs[m - 3]
    {
      InodeWords(b, i, ip, j, m);
    }
    if i % IPB == j % IPB {
      DecodeFrom(b', j, ip);
    } else {
      DecodeSame(b, b', j);
    }
  }

  /** Size and addresses in the bytes of its place, the (i mod 8)-th 64 bytes of the block, behind type and links. */
  ghost predicate InodeIn(b: Block, i: nat, size: nat, addrs: seq<uint32>) {
    && Le32(b, i % 8 * 64 + 8) == size && |addrs| == 13
    && forall k: nat :: k < 13 ==> Le32(b, i % 8 * 64 + 12 + 4 * k) == addrs[k]
  }

  lemma {:induction false} InodeWordBytes(b: Block, i: nat, k: nat)
    requires k < 16
    ensures Word(b, InodeWord(i, k)) == Le32(b, i % 8 * 64 + 4 * k)
  {
  }

  /** An inode is read from those bytes. */
  lemma {:induction false} InodeBytes(b: Block, i: nat)
    ensures InodeIn(b, i, DecodeInode(b, i).size, DecodeInode(b, i).addrs)
  {
    InodeWordBytes(b, i, 2);
    forall k: nat | k < 13
      ensures Le32(b, i % 8 * 64 + 12 + 4 * k) == DecodeInode(b, i).addrs[k]
    {
      InodeWordBytes(b, i, 3 + k);
    }
  }

  /** Of all bytes on disk only those of inode i differ, and they hold ip. */
  ghost predicate InodeWritten(sb: Super, store: seq<Block>, store': seq<Block>, i: nat, ip: Inode) {
    && |store'| == |store| && sb.inodestart + i / 8 < |store|
    && (forall x: nat :: x < |store| && x != sb.inodestart + i / 8 ==> store'[x] == store[x])
    && InodeIn(store'[sb.inodestart + i / 8], i, ip.size, ip.addrs)
    && SameOutside(store[sb.inodestart + i / 8], store'[sb.inodestart + i / 8], i % 8 * 64 + 8, i % 8 * 64 + 64)
  }

  lemma {:induction false} AddrsFrame(b: Block, i: nat, addrs: seq<uint32>)
    requires |addrs| <= NDIRECT + 1
    ensures SameOutside(b, PutAddrs(b, i, addrs), i % 8 * 64 + 12, i % 8 * 64 + 12 + 4 * |addrs|)
  {
    if addrs != [] {
      AddrsFrame(b, i, addrs[..|addrs| - 1]);
      assert 4 * InodeWord(i, 2 + |addrs|) == i % 8 * 64 + 8 + 4 * |addrs|;
    }
  }

  /** iupdate stores it in those bytes and touches no other. */
  lemma {:induction false} InodeStored(b: Block, i: nat, ip: Inode)
    requires ip.size < U32 && |ip.addrs| == NDIRECT + 1
    ensures InodeIn(PutInode(b, i, ip), i, ip.size, ip.addrs)
    ensures SameOutside(b, PutInode(b, i, ip), i % 8 * 64 + 8, i % 8 * 64 + 64)
  {
    InodeRoundTrip(b, i, ip, i);
    InodeBytes(PutInode(b, i, ip), i);
    AddrsFrame(PutWord(b, InodeWord(i, 2), ip.size), i, ip.addrs);
    assert 4 * InodeWord(i, 2) == i % 8 * 64 + 8;
  }

  // ---- The free map ---------------------------------------------------------------------

  ghost predicate Layout(sb: Super, n: nat) {
    && 1 <= sb.nmeta <= sb.size <= n && n < U32 && sb.inodestart <= sb.bmapstart
    && forall b: nat :: b < sb.size ==> sb.bmapstart + b / BPB < sb.nmeta
  }

  function BBlock(sb: Super, b: nat): nat { sb.bmapstart + b / BPB }

  predicate MarkedIn(data: Block, b: nat) {
    Bit(data[b % BPB / 8], b % BPB % 8)
  }

  function PutMark(data: Block, b: nat, on: bool): Block {
    data[b % BPB / 8 := PutBit(data[b % BPB / 8], b % BPB % 8, on)]
  }

  /** Block b is marked in use. */
  predicate Marked(sb: Super, store: seq<Block>, b: nat) {
    BBlock(sb, b) < |store| && MarkedIn(store[BBlock(sb, b)], b)
  }

  lemma {:induction false} MarkOfPut(data: Block, b: nat, on: bool, x: nat)
    requires x / BPB == b / BPB
    ensures MarkedIn(PutMark(data, b, on), x) <==> if x == b then on else MarkedIn(data, x)
  {
    var i, k, j, m := b % BPB / 8, b % BPB % 8, x % BPB / 8, x % BPB % 8;
    BitOfWith(data[i], k, on, m);
    assert x == b <==> i == j && k == m;
  }

  lemma {:induction false} PowerPositive(k: nat)
    ensures Power2(k) > 0
  {
    if k > 0 {
      PowerPositive(k - 1);
    }
  }

  lemma {:induction false} TimesGrows(m: nat, a: int, b: int)
    ensures a <= b ==> m * a <= m * b
  {
  }

  lemma {:induction false} HalfFirst(x: nat, m: nat)
    requires m > 0
    ensures x / 2 / m == x / (2 * m)
  {
    var q, r := x / 2 / m, x / 2 % m;
    var n, q' := 2 * m, x / (2 * m);
    assert x / 2 == m * q + r;
    assert n * q == 2 * (m * q);
    assert x == n * q + (2 * r + x % 2) && x == n * q' + x % n;
    TimesGrows(n, q + 1, q');
    TimesGrows(n, q' + 1, q);
    assert n * (q + 1) == n * q + n && n * (q' + 1) == n * q' + n;
  }

  /** Bit k is the digit of weight 2 to the k. */
  lemma {:induction false} BitIsDigit(x: nat, k: nat)
    ensures Power2(k) > 0 && (Bit(x, k) <==> x / Power2(k) % 2 == 1)
  {
    PowerPositive(k);
    if k > 0 {
      BitIsDigit(x / 2, k - 1);
      HalfFirst(x, Power2(k - 1));
    }
  }

  /** Block b's bit is bit b mod 8 of byte b mod 4096 / 8 of block bmapstart + b / 4096, and bfree's and balloc's store
      touches that byte alone. */
  lemma {:induction false} MarkBytes(sb: Super, store: seq<Block>, b: nat, on: bool)
    requires sb.bmapstart + b / 4096 < |store|
    ensures var data := store[sb.bmapstart + b / 4096];
            && Power2(b % 8) > 0 && (Marked(sb, store, b) <==> data[b % 4096 / 8] / Power2(b % 8) % 2 == 1)
            && SameOutside(data, PutMark(data, b, on), b % 4096 / 8, b % 4096 / 8 + 1)
            && forall k: nat :: k < 8 ==>
                 (Bit(PutMark(data, b, on)[b % 4096 / 8], k) <==> if k == b % 8 then on else Bit(data[b % 4096 / 8], k))
  {
    assert b % 4096 % 8 == b % 8;
    var data := store[sb.bmapstart + b / 4096];
    BitIsDigit(data[b % 4096 / 8], b % 8);
    hide Power2;
    forall k: nat | k < 8
      ensures Bit(PutMark(data, b, on)[b % 4096 / 8], k) <==> if k == b % 8 then on else Bit(data[b % 4096 / 8], k)
    {
      BitOfWith(data[b % 4096 / 8], b % 8, on, k);
    }
  }

  // ---- Block addresses of an inode ---------------------------------------------------------

  /** The disk block of the bn-th block of a file, 0 when there is none. */
  function Slot(store: seq<Block>, ip: Inode, bn: nat): uint32 {
    if |ip.addrs| != NDIRECT + 1 || bn >= MAXFILE then 0
    else if bn < NDIRECT then ip.addrs[bn]
    else
      var a := ip.addrs[NDIRECT];
      if a == 0 || a >= |store| then 0 else Word(store[a], bn - NDIRECT)
  }

  /** An indirect block with one slot changed. */
  function PutSlot(d: Block, j: nat, v: uint32): Block {
    if j < NINDIRECT then PutWord(d, j, v) else d
  }

  /** Entry j of an indirect block is in its bytes 4 * j to 4 * j + 3. */
  lemma {:induction false} SlotBytes(store: seq<Block>, ip: Inode, j: nat, v: uint32)
    requires |ip.addrs| == 13 && 0 < ip.addrs[12] < |store| && j < 128
    ensures var d := store[ip.addrs[12]];
            && Slot(store, ip, 12 + j) == Le32(d, 4 * j)
            && Le32(PutSlot(d, j, v), 4 * j) == v && SameOutside(d, PutSlot(d, j, v), 4 * j, 4 * j + 4)
  {
    var d := store[ip.addrs[12]];
    WordOfPut(d, j, v, j);
    assert Word(PutSlot(d, j, v), j) == Le32(PutSlot(d, j, v), 4 * j);
  }

  /**
   Everything that holds block addresses. While itrunc works on an indirect block, the
   first tj slots of inode ti are given back but not cleared, and count as empty.
   */
  datatype Tables = Tables(store: seq<Block>, inodes: seq<Inode>, ti: nat, tj: nat) {

    ghost predicate Shaped() {
      forall i :: 0 <= i < |inodes| ==> |inodes[i].addrs| == NDIRECT + 1
    }

    ghost function At(i: nat, bn: nat): uint32 {
      if i >= |inodes| || (i == ti && NDIRECT <= bn < NDIRECT + tj) then 0 else Slot(store, inodes[i], bn)
    }

    ghost function Table(i: nat): uint32 {
      if i < |inodes| && |inodes[i].addrs| == NDIRECT + 1 then inodes[i].addrs[NDIRECT] else 0
    }
  }

  /** The free map marks exactly the owned blocks, and the metadata blocks are the first nmeta. */
  ghost predicate MapAgrees(sb: Super, store: seq<Block>, owner: map<nat, Owner>) {
    && (forall b: nat :: b < sb.size ==> (Marked(sb, store, b) <==> b in owner))
    && (forall b: nat :: b in owner ==> b < sb.size && (owner[b] == Meta <==> b < sb.nmeta))
    && (forall b: nat :: b < sb.nmeta ==> b in owner)
  }

  /** A block reached from an inode is owned by the one place that reaches it. */
  ghost predicate Reached(t: Tables, owner: map<nat, Owner>)
  {
    && (forall i: nat, bn: nat :: i < |t.inodes| && bn < MAXFILE && t.At(i, bn) != 0 ==>
          t.At(i, bn) in owner && owner[t.At(i, bn)] == Data(i, bn))
    && (forall i: nat :: i < |t.inodes| && t.Table(i) != 0 ==> t.Table(i) in owner && owner[t.Table(i)] == Indirect(i))
  }

  /** The place a block is owned by does reach it, so no marked block is lost. */
  ghost predicate Reaches(t: Tables, owner: map<nat, Owner>)
  {
    forall b: nat :: b in owner ==>
      match owner[b]
      case Meta => true
      case Data(i, bn) => i < |t.inodes| && bn < MAXFILE && t.At(i, bn) == b
      case Indirect(i) => i < |t.inodes| && t.Table(i) == b
  }

  ghost predicate Owned(sb: Super, t: Tables, owner: map<nat, Owner>) {
    && Layout(sb, |t.store|) && t.Shaped()
    && MapAgrees(sb, t.store, owner)
    && Reached(t, owner)
    && Reaches(t, owner)
  }

  /** The only address that changed is the one at place w, which now is v. */
  ghost predicate Changed(t: Tables, t': Tables, w: Owner, v: nat)
  {
    && |t'.store| == |t.store| && |t'.inodes| == |t.inodes| && t'.Shaped()
    && (forall i: nat, bn: nat :: i < |t.inodes| && bn < MAXFILE ==>
          t'.At(i, bn) == if w == Data(i, bn) then v else t.At(i, bn))
    && (forall i: nat :: i < |t.inodes| ==> t'.Table(i) == if w == Indirect(i) then v else t.Table(i))
  }

  /** A place that reaches nothing may be given a free block. */
  lemma {:induction false} PlaceKeepsOwned(sb: Super, t: Tables, owner: map<nat, Owner>, t': Tables, w: Owner, b: nat)
    requires Owned(sb, t, owner) && b < sb.size && !Marked(sb, t.store, b)
    requires Changed(t, t', w, b)
    requires match w
             case Meta => false
             case Data(i, bn) => i < |t.inodes| && bn < MAXFILE && t.At(i, bn) == 0
             case Indirect(i) => i < |t.inodes| && t.Table(i) == 0
    requires forall x: nat :: x < sb.size ==> (Marked(sb, t'.store, x) <==> Marked(sb, t.store, x) || x == b)
    ensures Owned(sb, t', owner[b := w])
  {
    hide Slot, Marked, Tables.At;
    assert b !in owner;
    var owner' := owner[b := w];
    forall i: nat, bn: nat | i < |t.inodes| && bn < MAXFILE && t'.At(i, bn) != 0
      ensures t'.At(i, bn) in owner' && owner'[t'.At(i, bn)] == Data(i, bn)
    {
      if w != Data(i, bn) {
        assert t.At(i, bn) in owner;
      }
    }
  }

  /** A place may be emptied and its block freed. */
  lemma {:induction false} RemoveKeepsOwned(sb: Super, t: Tables, owner: map<nat, Owner>, t': Tables, b: nat)
    requires Owned(sb, t, owner) && b in owner && owner[b] != Meta
    requires Changed(t, t', owner[b], 0)
    requires forall x: nat :: x < sb.size ==> (Marked(sb, t'.store, x) <==> Marked(sb, t.store, x) && x != b)
    ensures Owned(sb, t', owner - {b})
  {
    hide Slot, Marked, Tables.At;
    var owner' := owner - {b};
    forall i: nat, bn: nat | i < |t.inodes| && bn < MAXFILE && t'.At(i, bn) != 0
      ensures t'.At(i, bn) in owner' && owner'[t'.At(i, bn)] == Data(i, bn)
    {
      assert owner[b] != Data(i, bn);
      assert t.At(i, bn) in owner;
    }
  }

  /** Some file reaches block b, as a data block or as its indirect block. */
  ghost predicate InUse(t: Tables, b: nat) {
    b != 0 && ((exists i: nat, bn: nat :: i < |t.inodes| && bn < MAXFILE && t.At(i, bn) == b)
               || exists i: nat :: i < |t.inodes| && t.Table(i) == b)
  }

  /**
   What Owned means for the free map: a bit is set exactly for the metadata blocks and the
   blocks some file reaches, and no block is reached twice.
   */
  lemma {:induction false} FreeMapIsExact(sb: Super, t: Tables, owner: map<nat, Owner>)
    requires Owned(sb, t, owner)
    ensures forall b: nat :: b < sb.size ==> (Marked(sb, t.store, b) <==> b < sb.nmeta || InUse(t, b))
    ensures forall i: nat, bn: nat, k: nat, m: nat ::
              i < |t.inodes| && bn < MAXFILE && k < |t.inodes| && m < MAXFILE && t.At(i, bn) == t.At(k, m) != 0 ==>
                  i == k && bn == m
    ensures forall i: nat, bn: nat, k: nat ::
              i < |t.inodes| && bn < MAXFILE && k < |t.inodes| && t.At(i, bn) == t.Table(k) ==> t.At(i, bn) == 0
    ensures forall i: nat, k: nat :: i < |t.inodes| && k < |t.inodes| && t.Table(i) == t.Table(k) != 0 ==> i == k
  {
    hide Marked, Tables.At, Tables.Table, Slot;
    forall b: nat | b < sb.size
      ensures Marked(sb, t.store, b) <==> b < sb.nmeta || InUse(t, b)
    {
      if b in owner {
        match owner[b]
        case Meta =>
        case Data(i, bn) => assert t.At(i, bn) == b;
        case Indirect(i) => assert t.Table(i) == b;
      }
    }
  }

  // ---- Frames ---------------------------------------------------------------------------------

  /** What Owned says about one indirect table. */
  lemma {:induction false} TableFacts(sb: Super, t: Tables, owner: map<nat, Owner>, i: nat)
    requires Owned(sb, t, owner) && i < |t.inodes|
    ensures t.Shaped() && Layout(sb, |t.store|) && |t.inodes[i].addrs| == NDIRECT + 1
            && t.Table(i) == t.inodes[i].addrs[NDIRECT]
    ensures sb.nmeta <= sb.size <= |t.store| < U32
    ensures t.Table(i) != 0 ==>
              t.Table(i) in owner && owner[t.Table(i)] == Indirect(i) && sb.nmeta <= t.Table(i) < |t.store|
  {
    hide Slot, Marked, Tables.At;
  }

  /** What Owned says about one place. */
  lemma {:induction false} PlaceFacts(sb: Super, t: Tables, owner: map<nat, Owner>, i: nat, bn: nat)
    requires Owned(sb, t, owner) && i < |t.inodes| && bn < MAXFILE
    ensures t.At(i, bn) != 0 ==>
              t.At(i, bn) in owner && owner[t.At(i, bn)] == Data(i, bn)
                  && sb.nmeta <= t.At(i, bn) < sb.size <= |t.store|
  {
    hide Slot, Marked, Tables.At;
  }

  /** Only blocks that hold no addresses differ. */
  ghost predicate SameTables(store: seq<Block>, store': seq<Block>, owner: map<nat, Owner>) {
    && |store'| == |store|
    && forall b: nat :: b in owner && owner[b].Indirect? && b < |store| ==> store'[b] == store[b]
  }

  lemma {:induction false} SlotFrame(sb: Super, t: Tables, owner: map<nat, Owner>, store': seq<Block>, i: nat, bn: nat)
    requires Owned(sb, t, owner) && SameTables(t.store, store', owner)
    requires i < |t.inodes| && bn < MAXFILE
    ensures Slot(store', t.inodes[i], bn) == Slot(t.store, t.inodes[i], bn)
  {
    assert t.Table(i) != 0 ==> t.Table(i) in owner;
  }

  /** Nothing about the addresses changed. */
  lemma {:induction false} SameKeepsOwned(sb: Super, t: Tables, owner: map<nat, Owner>, t': Tables)
    requires Owned(sb, t, owner) && Changed(t, t', Meta, 0)
    requires forall x: nat :: x < sb.size ==> (Marked(sb, t'.store, x) <==> Marked(sb, t.store, x))
    ensures Owned(sb, t', owner)
  {
    hide Slot, Marked, Tables.At;
  }

  lemma {:induction false} StoreChanged(sb: Super, t: Tables, owner: map<nat, Owner>, store': seq<Block>)
    requires Owned(sb, t, owner) && SameTables(t.store, store', owner)
    ensures Changed(t, t.(store := store'), Meta, 0)
  {
    forall k: nat, m: nat | k < |t.inodes| && m < MAXFILE
      ensures Slot(store', t.inodes[k], m) == Slot(t.store, t.inodes[k], m)
    {
      SlotFrame(sb, t, owner, store', k, m);
    }
    hide Slot;
  }

  lemma {:induction false} SameMarks(sb: Super, store: seq<Block>, x: nat, data: Block)
    requires Layout(sb, |store|) && sb.nmeta <= x < |store|
    ensures forall b: nat :: b < sb.size ==> (Marked(sb, store[x := data], b) <==> Marked(sb, store, b))
  {
  }

  /** Writing a data block moves nothing. */
  lemma {:induction false} WriteKeepsOwned(sb: Super, t: Tables, owner: map<nat, Owner>, x: nat, data: Block)
    requires Owned(sb, t, owner) && x in owner && owner[x].Data?
    ensures x < |t.store| && Owned(sb, t.(store := t.store[x := data]), owner)
  {
    var store' := t.store[x := data];
    SameMarks(sb, t.store, x, data);
    StoreChanged(sb, t, owner, store');
    SameKeepsOwned(sb, t, owner, t.(store := store'));
  }

  // ---- Taking a block -----------------------------------------------------------------------

  function Zero(): Block { seq(BSIZE, _ => 0) }

  /** The store with block b's mark set or cleared. */
  function MarkStore(sb: Super, store: seq<Block>, b: nat, on: bool): (r: seq<Block>)
    ensures |r| == |store|
  {
    var m := BBlock(sb, b);
    if m < |store| then store[m := PutMark(store[m], b, on)] else store
  }

  lemma {:induction false} MarkStoreMarks(sb: Super, store: seq<Block>, b: nat, on: bool)
    requires Layout(sb, |store|) && b < sb.size
    ensures forall x: nat :: x < sb.size ==>
              (Marked(sb, MarkStore(sb, store, b, on), x) <==> if x == b then on else Marked(sb, store, x))
  {
    forall x: nat | x < sb.size
      ensures Marked(sb, MarkStore(sb, store, b, on), x) <==> if x == b then on else Marked(sb, store, x)
    {
      if x / BPB == b / BPB {
        MarkOfPut(store[BBlock(sb, b)], b, on, x);
      }
    }
  }

  /** What balloc leaves: the mark is set and the block is zeroed. */
  function Taken(sb: Super, store: seq<Block>, b: nat): (r: seq<Block>)
    ensures |r| == |store|
  {
    if b < |store| then MarkStore(sb, store, b, true)[b := Zero()] else store
  }

  /** Taking a free block changes no owned block except a bitmap block, and no mark but its own. */
  lemma {:induction false} TakenFrame(sb: Super, t: Tables, owner: map<nat, Owner>, b: nat)
    requires Owned(sb, t, owner) && b < sb.size && !Marked(sb, t.store, b)
    ensures b !in owner && sb.nmeta <= b < |t.store| < U32 && b != 0
    ensures var store' := Taken(sb, t.store, b);
            && (forall x: nat :: x < sb.size ==> (Marked(sb, store', x) <==> Marked(sb, t.store, x) || x == b))
            && (forall y: nat :: y in owner && owner[y] != Meta ==> y < |t.store| && store'[y] == t.store[y])
            && SameTables(t.store, store', owner)
            && store'[b] == Zero()
  {
    assert MapAgrees(sb, t.store, owner) && Layout(sb, |t.store|);
    hide Owned, Slot;
    assert b !in owner;
    MarkStoreMarks(sb, t.store, b, true);
    SameMarks(sb, MarkStore(sb, t.store, b, true), b, Zero());
    assert BBlock(sb, b) < sb.nmeta;
  }

  /** The inodes with inode i's address k changed. */
  function SetAddr(inodes: seq<Inode>, i: nat, k: nat, b: uint32): (r: seq<Inode>)
    requires i < |inodes| && k < |inodes[i].addrs|
    ensures |r| == |inodes| && |r[i].addrs| == |inodes[i].addrs|
    ensures forall j :: 0 <= j < |inodes| && j != i ==> r[j] == inodes[j]
    ensures forall j :: 0 <= j < |r[i].addrs| ==> r[i].addrs[j] == if j == k then b else inodes[i].addrs[j]
    ensures r[i].size == inodes[i].size
  {
    inodes[i := inodes[i].(addrs := inodes[i].addrs[k := b])]
  }

  lemma {:induction false} DirectChanged(sb: Super, t: Tables, owner: map<nat, Owner>, store': seq<Block>,
                                         i: nat, bn: nat, v: uint32)
    requires Owned(sb, t, owner) && SameTables(t.store, store', owner) && t.tj == 0
    requires i < |t.inodes| && bn < NDIRECT
    ensures Changed(t, t.(store := store', inodes := SetAddr(t.inodes, i, bn, v)), Data(i, bn), v)
  {
    var inodes' := SetAddr(t.inodes, i, bn, v);
    forall k: nat, m: nat | k < |inodes'| && m < MAXFILE
      ensures Slot(store', inodes'[k], m) == if k == i && m == bn then v else Slot(t.store, t.inodes[k], m)
    {
      SlotFrame(sb, t, owner, store', k, m);
    }
    hide Slot, SetAddr;
  }

  /** bmap gives a direct place a new block. */
  lemma {:induction false} PlaceDirect(sb: Super, t: Tables, owner: map<nat, Owner>, i: nat, bn: nat, b: nat)
    requires Owned(sb, t, owner) && t.tj == 0 && b < sb.size && !Marked(sb, t.store, b)
    requires i < |t.inodes| && bn < NDIRECT && t.inodes[i].addrs[bn] == 0
    ensures b < |t.store| < U32
    ensures Owned(sb, t.(store := Taken(sb, t.store, b), inodes := SetAddr(t.inodes, i, bn, b)),
            owner[b := Data(i, bn)])
  {
    assert t.At(i, bn) == 0;
    hide *;
    TakenFrame(sb, t, owner, b);
    DirectChanged(sb, t, owner, Taken(sb, t.store, b), i, bn, b);
    PlaceKeepsOwned(sb, t, owner, t.(store := Taken(sb, t.store, b), inodes := SetAddr(t.inodes, i, bn, b)),
        Data(i, bn), b);
  }

  lemma {:induction false} EmptyTable(store: seq<Block>, ip: Inode, bn: nat)
    requires |ip.addrs| == NDIRECT + 1 && NDIRECT <= bn < MAXFILE
    requires ip.addrs[NDIRECT] < |store| && store[ip.addrs[NDIRECT]] == Zero()
    ensures Slot(store, ip, bn) == 0
  {
    assert Word(Zero(), bn - NDIRECT) == 0;
  }

  lemma {:induction false} TableChanged(sb: Super, t: Tables, owner: map<nat, Owner>, store': seq<Block>, i: nat,
                                        b: uint32)
    requires Owned(sb, t, owner) && SameTables(t.store, store', owner) && t.tj == 0
    requires i < |t.inodes| && t.Table(i) == 0 && b < |store'| && store'[b] == Zero()
    ensures Changed(t, t.(store := store', inodes := SetAddr(t.inodes, i, NDIRECT, b)), Indirect(i), b)
  {
    var inodes' := SetAddr(t.inodes, i, NDIRECT, b);
    forall k: nat, m: nat | k < |inodes'| && m < MAXFILE
      ensures Slot(store', inodes'[k], m) == Slot(t.store, t.inodes[k], m)
    {
      if k == i && m >= NDIRECT {
        EmptyTable(store', inodes'[i], m);
      } else {
        SlotFrame(sb, t, owner, store', k, m);
      }
    }
    hide Slot, SetAddr;
  }

  /** bmap gives an inode its indirect block, all of whose slots are empty. */
  lemma {:induction false} PlaceIndirect(sb: Super, t: Tables, owner: map<nat, Owner>, i: nat, b: nat)
    requires Owned(sb, t, owner) && t.tj == 0 && b < sb.size && !Marked(sb, t.store, b)
    requires i < |t.inodes| && t.Table(i) == 0
    ensures b < |t.store| < U32
    ensures Owned(sb, t.(store := Taken(sb, t.store, b), inodes := SetAddr(t.inodes, i, NDIRECT, b)),
            owner[b := Indirect(i)])
  {
    hide *;
    TableFacts(sb, t, owner, i);
    TakenFrame(sb, t, owner, b);
    TableChanged(sb, t, owner, Taken(sb, t.store, b), i, b);
    PlaceKeepsOwned(sb, t, owner, t.(store := Taken(sb, t.store, b), inodes := SetAddr(t.inodes, i, NDIRECT, b)),
        Indirect(i), b);
  }

  lemma {:induction false} SlotChanges(sb: Super, t: Tables, owner: map<nat, Owner>, store': seq<Block>,
                                       i: nat, bn: nat, b: uint32, k: nat, m: nat)
    requires Owned(sb, t, owner) && SameTables(t.store, store', owner)
    requires i < |t.inodes| && NDIRECT <= bn < MAXFILE && t.Table(i) != 0 && t.Table(i) < |store'|
    requires k < |t.inodes| && m < MAXFILE
    ensures Slot(store'[t.Table(i) := PutSlot(store'[t.Table(i)], bn - NDIRECT, b)], t.inodes[k], m)
            == if k == i && m == bn then b else Slot(t.store, t.inodes[k], m)
  {
    hide Owned, PutWord, Word;
    TableFacts(sb, t, owner, i);
    TableFacts(sb, t, owner, k);
    if k == i && m >= NDIRECT {
      WordOfPut(store'[t.Table(i)], bn - NDIRECT, b, m - NDIRECT);
    } else {
      SlotFrame(sb, t, owner, store', k, m);
    }
  }

  lemma {:induction false} SlotChanged(sb: Super, t: Tables, owner: map<nat, Owner>, store': seq<Block>,
                                       i: nat, bn: nat, b: uint32)
    requires Owned(sb, t, owner) && SameTables(t.store, store', owner) && t.tj == 0
    requires i < |t.inodes| && NDIRECT <= bn < MAXFILE && t.Table(i) != 0
    ensures t.Table(i) < |store'|
    ensures var a := t.Table(i);
            Changed(t, t.(store := store'[a := PutSlot(store'[a], bn - NDIRECT, b)]), Data(i, bn), b)
  {
    hide Owned, Slot, PutSlot;
    TableFacts(sb, t, owner, i);
    var t' := t.(store := store'[t.Table(i) := PutSlot(store'[t.Table(i)], bn - NDIRECT, b)]);
    assert t'.Shaped() && |t'.store| == |t.store|;
    forall k: nat, m: nat | k < |t.inodes| && m < MAXFILE
      ensures t'.At(k, m) == if Data(i, bn) == Data(k, m) then b else t.At(k, m)
    {
      SlotChanges(sb, t, owner, store', i, bn, b, k, m);
    }
  }

  /** bmap gives a slot of the indirect block a new block. */
  lemma {:induction false} PlaceSlot(sb: Super, t: Tables, owner: map<nat, Owner>, i: nat, bn: nat, b: nat)
    requires Owned(sb, t, owner) && t.tj == 0 && b < sb.size && !Marked(sb, t.store, b)
    requires i < |t.inodes| && NDIRECT <= bn < MAXFILE && t.Table(i) != 0 && Slot(t.store, t.inodes[i], bn) == 0
    ensures b < |t.store| < U32 && t.Table(i) < |t.store|
    ensures var a, store1 := t.Table(i), Taken(sb, t.store, b);
            Owned(sb, t.(store := store1[a := PutSlot(store1[a], bn - NDIRECT, b)]), owner[b := Data(i, bn)])
  {
    hide Owned, Slot, Marked, Taken, MapAgrees;
    var a, store1 := t.Table(i), Taken(sb, t.store, b);
    TableFacts(sb, t, owner, i);
    assert t.At(i, bn) == 0;
    hide *;
    TakenFrame(sb, t, owner, b);
    SlotChanged(sb, t, owner, store1, i, bn, b);
    var t' := t.(store := store1[a := PutSlot(store1[a], bn - NDIRECT, b)]);
    SameMarks(sb, store1, a, PutSlot(store1[a], bn - NDIRECT, b));
    PlaceKeepsOwned(sb, t, owner, t', Data(i, bn), b);
  }

  // ---- Counting free blocks -------------------------------------------------------------------

  /** How many of the first n blocks are not marked. */
  function FreeBelow(sb: Super, store: seq<Block>, n: nat): nat {
    if n == 0 then 0 else FreeBelow(sb, store, n - 1) + if Marked(sb, store, n - 1) then 0 else 1
  }

  function Free(sb: Super, store: seq<Block>): nat { FreeBelow(sb, store, sb.size) }

  lemma {:induction false} FreeNone(sb: Super, store: seq<Block>, n: nat)
    ensures FreeBelow(sb, store, n) == 0 <==> forall x: nat :: x < n ==> Marked(sb, store, x)
  {
    hide Marked;
    if n > 0 {
      FreeNone(sb, store, n - 1);
    }
  }

  lemma {:induction false} FreeSame(sb: Super, store: seq<Block>, store': seq<Block>, n: nat)
    requires forall x: nat :: x < n ==> (Marked(sb, store', x) <==> Marked(sb, store, x))
    ensures FreeBelow(sb, store', n) == FreeBelow(sb, store, n)
  {
    hide Marked;
    if n > 0 {
      FreeSame(sb, store, store', n - 1);
    }
  }

  lemma {:induction false} FreeLess(sb: Super, store: seq<Block>, store': seq<Block>, n: nat, b: nat)
    requires b < n && !Marked(sb, store, b)
    requires forall x: nat :: x < n ==> (Marked(sb, store', x) <==> Marked(sb, store, x) || x == b)
    ensures FreeBelow(sb, store', n) + 1 == FreeBelow(sb, store, n)
  {
    hide Marked;
    if b == n - 1 {
      FreeSame(sb, store, store', n - 1);
    } else {
      FreeLess(sb, store, store', n - 1, b);
    }
  }

  /** Taking a free block leaves one fewer; writing a block past the metadata changes no mark. */
  lemma {:induction false} TakenFree(sb: Super, t: Tables, owner: map<nat, Owner>, b: nat)
    requires Owned(sb, t, owner) && b < sb.size && !Marked(sb, t.store, b)
    ensures Free(sb, Taken(sb, t.store, b)) + 1 == Free(sb, t.store)
  {
    hide Owned, Marked, Taken;
    TakenFrame(sb, t, owner, b);
    FreeLess(sb, t.store, Taken(sb, t.store, b), sb.size, b);
  }

  lemma {:induction false} WriteFree(sb: Super, store: seq<Block>, x: nat, data: Block)
    requires Layout(sb, |store|) && sb.nmeta <= x < |store|
    ensures Free(sb, store[x := data]) == Free(sb, store)
  {
    SameMarks(sb, store, x, data);
    FreeSame(sb, store, store[x := data], sb.size);
  }

  /** The new blocks that bmap needs for the bn-th place of file i. */
  ghost function Needs(t: Tables, i: nat, bn: nat): nat {
    (if t.At(i, bn) == 0 then 1 else 0) + (if bn >= NDIRECT && t.Table(i) == 0 then 1 else 0)
  }

  /** The blocks balloc hands to log_write: the bitmap block and the zeroed block. */
  function BallocLogs(sb: Super, b: nat): seq<nat> { [BBlock(sb, b), b] }

  /** The blocks bmap hands to log_write, in order. */
  ghost function BmapLogs(sb: Super, t: Tables, t': Tables, i: nat, bn: nat): seq<nat> {
    (if bn >= NDIRECT && t.Table(i) == 0 then BallocLogs(sb, t'.Table(i)) else [])
    + if t.At(i, bn) != 0 then []
      else BallocLogs(sb, t'.At(i, bn)) + if bn >= NDIRECT then [t'.Table(i)] else []
  }

  // ---- What changes is logged, and inode blocks only by iupdate --------------------------------------

  /** The inode blocks come before the free map. */
  ghost predicate InodesFit(sb: Super, n: nat) {
    forall i: nat :: i < n ==> IBlock(sb, i) < sb.bmapstart
  }

  /** Nothing before the free map differs. */
  ghost predicate LowSame(sb: Super, store: seq<Block>, store': seq<Block>) {
    |store'| == |store| && forall x: nat :: x < sb.bmapstart && x < |store| ==> store'[x] == store[x]
  }

  /** Every block that differs from base has been handed to log_write, and no block before the inodes has. */
  ghost predicate AllLogged(sb: Super, base: seq<Block>, store: seq<Block>, logged: seq<nat>) {
    && |base| == |store| && (forall x: nat :: x < |store| && store[x] != base[x] ==> x in logged)
    && forall x :: x in logged ==> sb.inodestart <= x < |store|
  }

  lemma {:induction false} LogOne(sb: Super, base: seq<Block>, store: seq<Block>, logged: seq<nat>, x: nat, data: Block)
    requires AllLogged(sb, base, store, logged) && sb.inodestart <= x < |store|
    ensures AllLogged(sb, base, store[x := data], logged + [x])
  {
  }

  lemma {:induction false} LogMark(sb: Super, base: seq<Block>, store: seq<Block>, logged: seq<nat>, b: nat, on: bool)
    requires AllLogged(sb, base, store, logged) && Layout(sb, |store|) && b < sb.size
    ensures AllLogged(sb, base, MarkStore(sb, store, b, on), logged + [BBlock(sb, b)])
  {
    hide PutMark, Layout;
    BitmapBlock(sb, |store|, b);
    LogOne(sb, base, store, logged, BBlock(sb, b), PutMark(store[BBlock(sb, b)], b, on));
  }

  lemma {:induction false} BitmapBlock(sb: Super, n: nat, b: nat)
    requires Layout(sb, n) && b < sb.size
    ensures sb.inodestart <= sb.bmapstart <= BBlock(sb, b) < sb.nmeta <= sb.size <= n
  {
  }

  lemma {:induction false} LogTaken(sb: Super, base: seq<Block>, store: seq<Block>, logged: seq<nat>, b: nat)
    requires AllLogged(sb, base, store, logged) && Layout(sb, |store|) && sb.nmeta <= b < sb.size
    ensures AllLogged(sb, base, Taken(sb, store, b), logged + BallocLogs(sb, b))
  {
    BitmapBlock(sb, |store|, b);
    hide MarkStore, Zero, Layout, AllLogged, BBlock;
    LogMark(sb, base, store, logged, b, true);
    LogOne(sb, base, MarkStore(sb, store, b, true), logged + [BBlock(sb, b)], b, Zero());
    assert logged + [BBlock(sb, b)] + [b] == logged + BallocLogs(sb, b);
  }

  lemma {:induction false} LowWrite(sb: Super, store: seq<Block>, store': seq<Block>, x: nat, data: Block)
    requires LowSame(sb, store, store') && sb.bmapstart <= x < |store'|
    ensures LowSame(sb, store, store'[x := data])
  {
  }

  lemma {:induction false} LowTwice(sb: Super, a: seq<Block>, b: seq<Block>, c: seq<Block>)
    requires LowSame(sb, a, b) && LowSame(sb, b, c)
    ensures LowSame(sb, a, c)
  {
  }

  lemma {:induction false} LowMark(sb: Super, store: seq<Block>, b: nat, on: bool)
    ensures LowSame(sb, store, MarkStore(sb, store, b, on))
  {
    hide PutMark;
  }

  /** Where a layout puts the free map and the data. */
  lemma {:induction false} LayoutOrder(sb: Super, n: nat)
    requires Layout(sb, n)
    ensures sb.inodestart <= sb.bmapstart < sb.nmeta <= sb.size <= n < U32
  {
    assert 0 < sb.size && sb.bmapstart + 0 / BPB < sb.nmeta;
  }

  lemma {:induction false} LowTaken(sb: Super, t: Tables, owner: map<nat, Owner>, b: nat)
    requires Owned(sb, t, owner) && b < sb.size && !Marked(sb, t.store, b)
    ensures LowSame(sb, t.store, Taken(sb, t.store, b))
  {
    assert Layout(sb, |t.store|);
    LayoutOrder(sb, |t.store|);
    hide Owned, Marked, MarkStore, Zero;
    TakenFrame(sb, t, owner, b);
    LowMark(sb, t.store, b, true);
    LowWrite(sb, t.store, MarkStore(sb, t.store, b, true), b, Zero());
  }

  /** A new block and the store of its number in the indirect block, as far as counts, log and inodes go. */
  lemma {:induction false} SlotEffects(sb: Super, t: Tables, owner: map<nat, Owner>, base: seq<Block>, logged: seq<nat>,
                                       a: nat, data: Block, b: nat)
    requires Owned(sb, t, owner) && b < sb.size && !Marked(sb, t.store, b) && sb.nmeta <= a < |t.store|
    requires AllLogged(sb, base, t.store, logged)
    ensures var store1 := Taken(sb, t.store, b);
            var store' := store1[a := data];
            && Free(sb, store') + 1 == Free(sb, t.store) && LowSame(sb, t.store, store')
            && AllLogged(sb, base, store', logged + BallocLogs(sb, b) + [a])
  {
    assert Layout(sb, |t.store|);
    LayoutOrder(sb, |t.store|);
    hide Owned, Marked, Taken, Free, LowSame, AllLogged, Layout;
    var store1 := Taken(sb, t.store, b);
    TakenFrame(sb, t, owner, b);
    TakenFree(sb, t, owner, b);
    LowTaken(sb, t, owner, b);
    LogTaken(sb, base, t.store, logged, b);
    WriteFree(sb, store1, a, data);
    LowWrite(sb, t.store, store1, a, data);
    LogOne(sb, base, store1, logged + BallocLogs(sb, b), a, data);
  }

  lemma {:induction false} FreeMore(sb: Super, store: seq<Block>, store': seq<Block>, n: nat, b: nat)
    requires b < n && Marked(sb, store, b)
    requires forall x: nat :: x < n ==> (Marked(sb, store', x) <==> Marked(sb, store, x) && x != b)
    ensures FreeBelow(sb, store', n) == FreeBelow(sb, store, n) + 1
  {
    hide Marked;
    if b == n - 1 {
      FreeSame(sb, store, store', n - 1);
    } else {
      FreeMore(sb, store, store', n - 1, b);
    }
  }

  /** Giving a block back leaves exactly one free block more. */
  lemma {:induction false} FreedFree(sb: Super, t: Tables, owner: map<nat, Owner>, b: nat)
    requires Owned(sb, t, owner) && b in owner && owner[b] != Meta
    ensures Free(sb, MarkStore(sb, t.store, b, false)) == Free(sb, t.store) + 1
  {
    hide Owned, Marked, MarkStore;
    FreedFrame(sb, t, owner, b);
    FreeMore(sb, t.store, MarkStore(sb, t.store, b, false), sb.size, b);
  }

  // ---- Giving a block back -------------------------------------------------------------------

  lemma {:induction false} FreedFrame(sb: Super, t: Tables, owner: map<nat, Owner>, b: nat)
    requires Owned(sb, t, owner) && b in owner && owner[b] != Meta
    ensures b < sb.size && Marked(sb, t.store, b)
    ensures var store' := MarkStore(sb, t.store, b, false);
            && (forall x: nat :: x < sb.size ==> (Marked(sb, store', x) <==> Marked(sb, t.store, x) && x != b))
            && SameTables(t.store, store', owner)
            && (forall y: nat :: y in owner && owner[y] != Meta ==> y < |t.store| && store'[y] == t.store[y])
  {
    MarkStoreMarks(sb, t.store, b, false);
    assert BBlock(sb, b) < sb.nmeta;
  }

  /** itrunc gives back a direct block. */
  lemma {:induction false} FreeDirect(sb: Super, t: Tables, owner: map<nat, Owner>, i: nat, bn: nat)
    requires Owned(sb, t, owner) && t.tj == 0
    requires i < |t.inodes| && bn < NDIRECT && t.inodes[i].addrs[bn] != 0
    ensures var b := t.inodes[i].addrs[bn];
            && b < sb.size && Marked(sb, t.store, b)
            && Owned(sb, t.(store := MarkStore(sb, t.store, b, false), inodes := SetAddr(t.inodes, i, bn, 0)),
                owner - {b})
  {
    var b := t.inodes[i].addrs[bn];
    hide Owned;
    TableFacts(sb, t, owner, i);
    PlaceFacts(sb, t, owner, i, bn);
    assert t.At(i, bn) == b;
    hide *;
    FreedFrame(sb, t, owner, b);
    var store' := MarkStore(sb, t.store, b, false);
    DirectChanged(sb, t, owner, store', i, bn, 0);
    RemoveKeepsOwned(sb, t, owner, t.(store := store', inodes := SetAddr(t.inodes, i, bn, 0)), b);
  }

  lemma {:induction false} SlotFreed(sb: Super, t: Tables, owner: map<nat, Owner>, store': seq<Block>)
    requires Owned(sb, t, owner) && SameTables(t.store, store', owner)
    requires t.ti < |t.inodes| && t.tj < NINDIRECT
    ensures Changed(t, t.(store := store', tj := t.tj + 1), Data(t.ti, NDIRECT + t.tj), 0)
  {
    forall k: nat, m: nat | k < |t.inodes| && m < MAXFILE
      ensures Slot(store', t.inodes[k], m) == Slot(t.store, t.inodes[k], m)
    {
      SlotFrame(sb, t, owner, store', k, m);
    }
    hide Slot;
  }

  /** itrunc gives back the block of the next indirect slot; the slot itself keeps its stale number. */
  lemma {:induction false} FreeSlot(sb: Super, t: Tables, owner: map<nat, Owner>)
    requires Owned(sb, t, owner)
    requires t.ti < |t.inodes| && t.tj < NINDIRECT && Slot(t.store, t.inodes[t.ti], NDIRECT + t.tj) != 0
    ensures var b := Slot(t.store, t.inodes[t.ti], NDIRECT + t.tj);
            && b < sb.size && Marked(sb, t.store, b)
            && Owned(sb, t.(store := MarkStore(sb, t.store, b, false), tj := t.tj + 1), owner - {b})
  {
    var b := Slot(t.store, t.inodes[t.ti], NDIRECT + t.tj);
    hide Owned;
    PlaceFacts(sb, t, owner, t.ti, NDIRECT + t.tj);
    assert t.At(t.ti, NDIRECT + t.tj) == b;
    hide *;
    FreedFrame(sb, t, owner, b);
    var store' := MarkStore(sb, t.store, b, false);
    SlotFreed(sb, t, owner, store');
    RemoveKeepsOwned(sb, t, owner, t.(store := store', tj := t.tj + 1), b);
  }

  lemma {:induction false} SkipSlot(sb: Super, t: Tables, owner: map<nat, Owner>)
    requires Owned(sb, t, owner)
    requires t.ti < |t.inodes| && t.tj < NINDIRECT && Slot(t.store, t.inodes[t.ti], NDIRECT + t.tj) == 0
    ensures Owned(sb, t.(tj := t.tj + 1), owner)
  {
    SlotFreed(sb, t, owner, t.store);
    assert t.At(t.ti, NDIRECT + t.tj) == 0;
    SameKeepsOwned(sb, t, owner, t.(tj := t.tj + 1));
  }

  lemma {:induction false} TableFreed(sb: Super, t: Tables, owner: map<nat, Owner>, store': seq<Block>)
    requires Owned(sb, t, owner) && t.tj == NINDIRECT && SameTables(t.store, store', owner)
    requires t.ti < |t.inodes|
    ensures Changed(t, Tables(store', SetAddr(t.inodes, t.ti, NDIRECT, 0), 0, 0), Indirect(t.ti), 0)
  {
    assert t.Shaped();
    hide Owned;
    var inodes' := SetAddr(t.inodes, t.ti, NDIRECT, 0);
    forall k: nat, m: nat | k < |t.inodes| && m < MAXFILE
      ensures Slot(store', inodes'[k], m) == if k == t.ti && m >= NDIRECT then 0 else Slot(t.store, t.inodes[k], m)
    {
      SlotFrame(sb, t, owner, store', k, m);
    }
    hide Slot, SetAddr;
  }

  /** itrunc gives back the indirect block itself, once all its slots are given back. */
  lemma {:induction false} FreeTable(sb: Super, t: Tables, owner: map<nat, Owner>)
    requires Owned(sb, t, owner) && t.tj == NINDIRECT
    requires t.ti < |t.inodes| && t.Table(t.ti) != 0
    ensures var b := t.Table(t.ti);
            && b < sb.size && Marked(sb, t.store, b)
            && Owned(sb, Tables(MarkStore(sb, t.store, b, false), SetAddr(t.inodes, t.ti, NDIRECT, 0), 0, 0),
                owner - {b})
  {
    var b, i := t.Table(t.ti), t.ti;
    hide *;
    TableFacts(sb, t, owner, i);
    FreedFrame(sb, t, owner, b);
    TableFreed(sb, t, owner, MarkStore(sb, t.store, b, false));
    RemoveKeepsOwned(sb, t, owner, Tables(MarkStore(sb, t.store, b, false), SetAddr(t.inodes, i, NDIRECT, 0), 0, 0), b);
  }

  // ---- File contents ---------------------------------------------------------------------------

  ghost predicate Dense(t: Tables, i: nat, reach: nat)
  {
    && (forall bn: nat :: bn < MAXFILE ==> (t.At(i, bn) != 0 <==> bn * BSIZE < reach))
    && (t.Table(i) != 0 <==> NDIRECT * BSIZE < reach)
  }

  /** Byte k of file i. */
  ghost function ByteAt(t: Tables, i: nat, k: nat): byte
  {
    var a := t.At(i, k / BSIZE);
    if a < |t.store| then t.store[a][k % BSIZE] else 0
  }

  /** The first len bytes of file i. */
  ghost function Contents(t: Tables, i: nat, len: nat): (r: seq<byte>)
    ensures |r| == len
  {
    seq(len, k requires 0 <= k < len => ByteAt(t, i, k))
  }

  /** c with s written over it at offset off, growing it if s runs past the end. */
  function Splice(c: seq<byte>, off: nat, s: seq<byte>): (r: seq<byte>)
    requires off <= |c|
    ensures |r| == if off + |s| <= |c| then |c| else off + |s|
  {
    c[..off] + s + if off + |s| <= |c| then c[off + |s|..] else []
  }

  function Max(a: nat, b: nat): nat { if a <= b then b else a }

  /** A block with s written over it at offset o, as memmove does. */
  function BlockSplice(d: Block, o: nat, s: seq<byte>): (r: Block)
    ensures o + |s| <= BSIZE ==> forall k :: 0 <= k < BSIZE ==> r[k] == if o <= k < o + |s| then s[k - o] else d[k]
  {
    if o + |s| <= BSIZE then d[..o] + s + d[o + |s|..] else d
  }

  lemma {:induction false} SpliceEnds(c: seq<byte>, off: nat, src: seq<byte>)
    requires off <= |c|
    ensures Splice(c, off, src[..0]) == c && Splice(c, off, src[..|src|]) == Splice(c, off, src)
  {
    assert src[..|src|] == src;
  }

  lemma {:induction false} Adjacent(file: seq<byte>, a: nat, b: nat, c: nat)
    requires a <= b <= c <= |file|
    ensures file[a..b] + file[b..c] == file[a..c] && file[a..a] == []
  {
  }

  /** Splicing a part of src and then the next part is splicing both. */
  lemma {:induction false} SpliceNext(c: seq<byte>, off: nat, src: seq<byte>, tot: nat, m: nat)
    requires off <= |c| && tot + m <= |src|
    ensures Splice(Splice(c, off, src[..tot]), off + tot, src[tot..tot + m]) == Splice(c, off, src[..tot + m])
  {
    SpliceAgain(c, off, src[..tot], src[tot..tot + m]);
    assert src[..tot] + src[tot..tot + m] == src[..tot + m];
  }

  lemma {:induction false} SpliceAgain(c: seq<byte>, off: nat, s1: seq<byte>, s2: seq<byte>)
    requires off <= |c|
    ensures Splice(Splice(c, off, s1), off + |s1|, s2) == Splice(c, off, s1 + s2)
  {
  }

  /** off + n < off in 32-bit arithmetic. */
  predicate Wraps(off: uint32, n: uint32)
    ensures Wraps(off, n) <==> off + n >= U32
  {
    var sum: int := off + n;
    sum % U32 < off
  }

  /** m bytes at off lie within one block. */
  predicate InBlock(off: nat, m: nat) { off % BSIZE + m <= BSIZE }

  /** min(n - tot, BSIZE - off % BSIZE) */
  function ChunkLen(off: nat, left: nat): (m: nat)
    ensures m <= left && InBlock(off, m) && (left > 0 ==> m > 0)
  {
    if left < BSIZE - off % BSIZE then left else BSIZE - off % BSIZE
  }

  datatype ReadResult = Read(data: seq<byte>) | NotRead

  datatype WriteResult = Wrote(n: nat) | Refused | OutOfBlocks

  datatype MapResult = Mapped(addr: uint32) | NoSpace | OutOfRange

  /** bmap(i, bn) returned a: no other place changed, no file block changed, and a new block is zeroed. */
  ghost predicate Grown(t: Tables, owner: map<nat, Owner>, t': Tables, owner': map<nat, Owner>, i: nat, bn: nat,
                        a: uint32)
  {
    && |t'.store| == |t.store| && |t'.inodes| == |t.inodes| && a < |t.store|
    && (forall k: nat, m: nat :: k < |t.inodes| && m < MAXFILE ==>
        t'.At(k, m) == if k == i && m == bn then a else t.At(k, m))
    && (forall k: nat :: k < |t.inodes| && k != i ==> t'.Table(k) == t.Table(k))
    && (t'.Table(i) != 0 <==> t.Table(i) != 0 || bn >= NDIRECT)
    && (t.Table(i) != 0 ==> t'.Table(i) == t.Table(i))
    && (forall y: nat :: y in owner && owner[y].Data? ==> y < |t.store| && t'.store[y] == t.store[y])
    && (if t.At(i, bn) == 0 then t'.store[a] == Zero() else a == t.At(i, bn))
    && (forall k: nat :: k < |t.inodes| ==>
        t'.inodes[k].size == t.inodes[k].size && (k != i ==> t'.inodes[k] == t.inodes[k]))
  }

  /** A first block for the indirect table: no address of any file changed. */
  ghost predicate TableGrown(t: Tables, owner: map<nat, Owner>, t': Tables, i: nat)
  {
    && |t'.store| == |t.store| && |t'.inodes| == |t.inodes|
    && (forall k: nat, m: nat :: k < |t.inodes| && m < MAXFILE ==> t'.At(k, m) == t.At(k, m))
    && (forall k: nat :: k < |t.inodes| && k != i ==> t'.Table(k) == t.Table(k))
    && t'.Table(i) != 0 && (t.Table(i) != 0 ==> t'.Table(i) == t.Table(i))
    && (forall y: nat :: y in owner && owner[y].Data? ==> y < |t.store| && t'.store[y] == t.store[y])
    && (forall k: nat :: k < |t.inodes| ==>
        t'.inodes[k].size == t.inodes[k].size && (k != i ==> t'.inodes[k] == t.inodes[k]))
  }

  lemma {:induction false} ChangedIsGrown(t: Tables, owner: map<nat, Owner>, t': Tables, owner': map<nat, Owner>,
                                          i: nat, bn: nat, a: uint32)
    requires i < |t.inodes| && bn < MAXFILE
    requires Changed(t, t', Data(i, bn), a) && a < |t.store| && t.At(i, bn) == 0
    requires bn >= NDIRECT ==> t.Table(i) != 0
    requires forall y: nat :: y in owner && owner[y].Data? ==> y < |t.store| == |t'.store| && t'.store[y] == t.store[y]
    requires a < |t'.store| && t'.store[a] == Zero()
    requires forall k: nat :: k < |t.inodes| == |t'.inodes| ==>
               t'.inodes[k].size == t.inodes[k].size && (k != i ==> t'.inodes[k] == t.inodes[k])
    ensures Grown(t, owner, t', owner', i, bn, a)
  {
    hide Tables.At;
  }

  lemma {:induction false} GrowDirect(sb: Super, t: Tables, owner: map<nat, Owner>, i: nat, bn: nat, b: nat)
    requires Owned(sb, t, owner) && t.tj == 0 && b < sb.size && !Marked(sb, t.store, b)
    requires i < |t.inodes| && bn < NDIRECT && t.inodes[i].addrs[bn] == 0
    ensures b < |t.store| < U32 && b != 0
    ensures var t' := t.(store := Taken(sb, t.store, b), inodes := SetAddr(t.inodes, i, bn, b));
            && Owned(sb, t', owner[b := Data(i, bn)])
            && Grown(t, owner, t', owner[b := Data(i, bn)], i, bn, b)
  {
    assert bn < MAXFILE && t.At(i, bn) == 0;
    hide *;
    TableFacts(sb, t, owner, i);
    TakenFrame(sb, t, owner, b);
    PlaceDirect(sb, t, owner, i, bn, b);
    DirectChanged(sb, t, owner, Taken(sb, t.store, b), i, bn, b);
    ChangedIsGrown(t, owner, t.(store := Taken(sb, t.store, b), inodes := SetAddr(t.inodes, i, bn, b)),
                   owner[b := Data(i, bn)], i, bn, b);
  }

  lemma {:induction false} ChangedIsTableGrown(t: Tables, owner: map<nat, Owner>, t': Tables, i: nat, a: uint32)
    requires i < |t.inodes|
    requires Changed(t, t', Indirect(i), a) && a != 0 && t.Table(i) == 0
    requires forall y: nat :: y in owner && owner[y].Data? ==> y < |t.store| == |t'.store| && t'.store[y] == t.store[y]
    requires forall k: nat :: k < |t.inodes| == |t'.inodes| ==>
               t'.inodes[k].size == t.inodes[k].size && (k != i ==> t'.inodes[k] == t.inodes[k])
    ensures TableGrown(t, owner, t', i)
  {
    hide Tables.At;
  }

  lemma {:induction false} GrowTable(sb: Super, t: Tables, owner: map<nat, Owner>, i: nat, b: nat)
    requires Owned(sb, t, owner) && t.tj == 0 && b < sb.size && !Marked(sb, t.store, b)
    requires i < |t.inodes| && t.Table(i) == 0
    ensures b < |t.store| < U32 && b !in owner
    ensures var t' := t.(store := Taken(sb, t.store, b), inodes := SetAddr(t.inodes, i, NDIRECT, b));
            && Owned(sb, t', owner[b := Indirect(i)])
            && TableGrown(t, owner, t', i)
  {
    hide *;
    TableFacts(sb, t, owner, i);
    TakenFrame(sb, t, owner, b);
    PlaceIndirect(sb, t, owner, i, b);
    TableChanged(sb, t, owner, Taken(sb, t.store, b), i, b);
    ChangedIsTableGrown(t, owner, t.(store := Taken(sb, t.store, b), inodes := SetAddr(t.inodes, i, NDIRECT, b)), i, b);
  }

  lemma {:induction false} GrowSlot(sb: Super, t: Tables, owner: map<nat, Owner>, i: nat, bn: nat, b: nat)
    requires Owned(sb, t, owner) && t.tj == 0 && b < sb.size && !Marked(sb, t.store, b)
    requires i < |t.inodes| && NDIRECT <= bn < MAXFILE && t.Table(i) != 0 && Slot(t.store, t.inodes[i], bn) == 0
    ensures b < |t.store| < U32 && b != 0 && t.Table(i) < |t.store|
    ensures var a, store1 := t.Table(i), Taken(sb, t.store, b);
            var t' := t.(store := store1[a := PutSlot(store1[a], bn - NDIRECT, b)]);
            && Owned(sb, t', owner[b := Data(i, bn)])
            && Grown(t, owner, t', owner[b := Data(i, bn)], i, bn, b)
  {
    hide Owned, Marked, Taken, Grown;
    assert t.At(i, bn) == 0;
    hide *;
    TableFacts(sb, t, owner, i);
    TakenFrame(sb, t, owner, b);
    PlaceSlot(sb, t, owner, i, bn, b);
    var a, store1 := t.Table(i), Taken(sb, t.store, b);
    SlotChanged(sb, t, owner, store1, i, bn, b);
    ChangedIsGrown(t, owner, t.(store := store1[a := PutSlot(store1[a], bn - NDIRECT, b)]), owner[b := Data(i, bn)],
        i, bn, b);
  }

  lemma {:induction false} GrowBoth(t: Tables, owner: map<nat, Owner>, t1: Tables, owner1: map<nat, Owner>,
                                    t2: Tables, owner2: map<nat, Owner>, i: nat, bn: nat, a: uint32)
    requires i < |t.inodes| && NDIRECT <= bn < MAXFILE
    requires TableGrown(t, owner, t1, i) && Grown(t1, owner1, t2, owner2, i, bn, a)
    requires forall y: nat :: y in owner ==> y in owner1 && owner1[y] == owner[y]
    ensures Grown(t, owner, t2, owner2, i, bn, a)
  {
    hide Tables.At;
  }

  class FileSystem {
    const sb: Super
    var store: seq<Block>
    var inodes: seq<Inode>        // in-memory inodes
    ghost var owner: map<nat, Owner>
    ghost var base: seq<Block>    // the store when the operation began
    ghost var logged: seq<nat>    // the block of every call of log_write since

    constructor (sb: Super, store: seq<Block>, inodes: seq<Inode>, ghost owner: map<nat, Owner>)
      requires Owned(sb, Tables(store, inodes, 0, 0), owner) && InodesFit(sb, |inodes|)
      ensures this.sb == sb && this.store == store == base && this.inodes == inodes && this.owner == owner
              && logged == []
      ensures Valid()
    {
      this.sb, this.store, this.inodes, this.owner, base, logged := sb, store, inodes, owner, store, [];
    }

    ghost function T(): Tables
      reads this
    {
      Tables(store, inodes, 0, 0)
    }

    ghost predicate Valid()
      reads this
    {
      Owned(sb, T(), owner) && InodesFit(sb, |inodes|) && AllLogged(sb, base, store, logged)
    }

    /** begin_op: from here on the changes are those of one operation. */
    method BeginOp()
      requires Valid()
      modifies this`base, this`logged
      ensures Valid() && base == store && logged == [] && (old(Steady()) ==> Steady())
    {
      base, logged := store, [];
    }

    /** balloc: the first block whose bit is clear, marked and zeroed; a panic only if there is none. */
    method Balloc() returns (ok: bool, r: nat)
      requires Layout(sb, |store|)
      modifies this`store, this`logged
      ensures ok <==> exists x: nat :: x < sb.size && !Marked(sb, old(store), x)
      ensures ok <==> Free(sb, old(store)) > 0
      ensures !ok ==> store == old(store) && logged == old(logged)
      ensures ok ==> logged == old(logged) + BallocLogs(sb, r)
      ensures ok ==>
                && r < sb.size && !Marked(sb, old(store), r)
                && (forall x: nat :: x < r ==> Marked(sb, old(store), x))
                && store == Taken(sb, old(store), r)
    {
      FreeNone(sb, store, sb.size);
      hide FreeBelow;
      var b, q := 0, 0;
      while b < sb.size
        invariant b == q * BPB
        invariant store == old(store) && logged == old(logged)
        invariant forall x: nat :: x < b && x < sb.size ==> Marked(sb, store, x)
        decreases sb.size - b
      {
        var bp := BBlock(sb, b);
        var bi := 0;
        while bi < BPB && b + bi < sb.size
          invariant bi <= BPB && store == old(store) && logged == old(logged)
          invariant forall x: nat :: x < b + bi && x < sb.size ==> Marked(sb, store, x)
        {
          InBitmap(b, q, bi);
          if !Bit(store[bp][bi / 8], bi % 8) {
            assert !Marked(sb, old(store), b + bi);
            store := store[bp := store[bp][bi / 8 := PutBit(store[bp][bi / 8], bi % 8, true)]];
            logged := logged + [bp];
            store := store[b + bi := Zero()];
            logged := logged + [b + bi];
            return true, b + bi;
          }
          bi := bi + 1;
        }
        b, q := b + BPB, q + 1;
      }
      return false, 0;
    }

    /** bfree: the bit is cleared; a panic exactly if it was clear. */
    method Bfree(b: nat) returns (ok: bool)
      requires BBlock(sb, b) < |store|
      modifies this`store, this`logged
      ensures ok <==> Marked(sb, old(store), b)
      ensures store == if ok then MarkStore(sb, old(store), b, false) else old(store)
      ensures logged == old(logged) + if ok then [BBlock(sb, b)] else []
    {
      var bp := BBlock(sb, b);
      var bi := b % BPB;
      if !Bit(store[bp][bi / 8], bi % 8) {
        return false;
      }
      store := store[bp := store[bp][bi / 8 := PutBit(store[bp][bi / 8], bi % 8, false)]];
      logged := logged + [bp];
      return true;
    }

    /** The direct half of bmap. */
    method BmapDirect(i: nat, bn: nat) returns (r: MapResult)
      requires Valid() && i < |inodes| && bn < NDIRECT
      modifies this`store, this`inodes, this`owner, this`logged
      ensures Valid() && |inodes| == |old(inodes)| && !r.OutOfRange?
      ensures old(T()).At(i, bn) != 0 ==> T() == old(T()) && owner == old(owner) && r == Mapped(old(T()).At(i, bn))
      ensures r == NoSpace <==> Free(sb, old(store)) < Needs(old(T()), i, bn)
      ensures r.Mapped? ==>
                && Free(sb, store) + Needs(old(T()), i, bn) == Free(sb, old(store))
                && logged == old(logged) + BmapLogs(sb, old(T()), T(), i, bn)
      ensures r == NoSpace ==> forall x: nat :: x < sb.size ==> Marked(sb, store, x)
      ensures r.Mapped? ==>
                r.addr == T().At(i, bn) && r.addr != 0 && Grown(old(T()), old(owner), T(), owner, i, bn, r.addr)
      ensures LowSame(sb, old(store), store)
    {
      hide Owned, Taken, Grown, Marked, Free, AllLogged, InodesFit;
      ghost var t := T();
      TableFacts(sb, t, owner, i);
      assert t.At(i, bn) == inodes[i].addrs[bn];
      hide Tables.At, Tables.Table;
      r := Mapped(inodes[i].addrs[bn]);
      if inodes[i].addrs[bn] == 0 {
        var ok, b := Balloc();
        if ok {
          GrowDirect(sb, t, owner, i, bn, b);
          TakenFree(sb, t, owner, b);
          LowTaken(sb, t, owner, b);
          TakenFrame(sb, t, owner, b);
          LogTaken(sb, base, t.store, old(logged), b);
          inodes := SetAddr(inodes, i, bn, b);
          owner := owner[b := Data(i, bn)];
          r := Mapped(b);
          GrownAt(t, old(owner), T(), owner, i, bn, b);
        } else {
          r := NoSpace;
        }
      } else {
        GrownSame(sb, t, owner, i, bn);
      }
    }

    /** The first step of bmap's indirect half: an inode without an indirect block gets one. */
    method BmapTable(i: nat) returns (ok: bool)
      requires Valid() && i < |inodes|
      modifies this`store, this`inodes, this`owner, this`logged
      ensures Valid() && |inodes| == |old(inodes)|
      ensures old(T()).Table(i) != 0 ==> ok && T() == old(T()) && owner == old(owner) && logged == old(logged)
      ensures !ok <==> old(T()).Table(i) == 0 && Free(sb, old(store)) == 0
      ensures ok && old(T()).Table(i) == 0 ==>
                && Free(sb, store) + 1 == Free(sb, old(store))
                && logged == old(logged) + BallocLogs(sb, T().Table(i))
      ensures !ok ==> forall x: nat :: x < sb.size ==> Marked(sb, store, x)
      ensures ok ==> TableGrown(old(T()), old(owner), T(), i)
      ensures ok ==> forall y: nat :: y in old(owner) ==> y in owner && owner[y] == old(owner)[y]
      ensures LowSame(sb, old(store), store)
    {
      hide Owned, Taken, TableGrown, Marked, Tables.At, Free, AllLogged, InodesFit;
      ghost var t := T();
      TableFacts(sb, t, owner, i);
      ok := true;
      if inodes[i].addrs[NDIRECT] == 0 {
        var b;
        ok, b := Balloc();
        if ok {
          GrowTable(sb, t, owner, i, b);
          TakenFree(sb, t, owner, b);
          LowTaken(sb, t, owner, b);
          TakenFrame(sb, t, owner, b);
          LogTaken(sb, base, t.store, old(logged), b);
          inodes := SetAddr(inodes, i, NDIRECT, b);
          owner := owner[b := Indirect(i)];
        }
      } else {
        TableGrownSame(sb, t, owner, i);
      }
    }

    /** The second step: the slot in the indirect block. */
    method BmapSlot(i: nat, bn: nat) returns (r: MapResult)
      requires Valid() && i < |inodes| && NDIRECT <= bn < MAXFILE && T().Table(i) != 0
      modifies this`store, this`owner, this`logged
      ensures Valid() && !r.OutOfRange?
      ensures old(T()).At(i, bn) != 0 ==> T() == old(T()) && owner == old(owner) && r == Mapped(old(T()).At(i, bn))
      ensures r == NoSpace <==> Free(sb, old(store)) < Needs(old(T()), i, bn)
      ensures r.Mapped? ==>
                && Free(sb, store) + Needs(old(T()), i, bn) == Free(sb, old(store))
                && logged == old(logged) + BmapLogs(sb, old(T()), T(), i, bn)
      ensures r == NoSpace ==> forall x: nat :: x < sb.size ==> Marked(sb, store, x)
      ensures r.Mapped? ==>
                r.addr == T().At(i, bn) && r.addr != 0 && Grown(old(T()), old(owner), T(), owner, i, bn, r.addr)
      ensures LowSame(sb, old(store), store)
    {
      hide Owned, Taken, Grown, Marked, PutSlot, Free, AllLogged, InodesFit, LowSame;
      SameLow(sb, store);
      ghost var t := T();
      TableFacts(sb, t, owner, i);
      var a := inodes[i].addrs[NDIRECT];
      var addr := Word(store[a], bn - NDIRECT);
      assert t.At(i, bn) == addr == Slot(t.store, t.inodes[i], bn);
      hide Tables.At, Slot, Word;
      r := Mapped(addr);
      if addr == 0 {
        var ok, b := Balloc();
        if ok {
          GrowSlot(sb, t, owner, i, bn, b);
          SlotEffects(sb, t, owner, base, old(logged), a, PutSlot(store[a], bn - NDIRECT, b), b);
          store := store[a := PutSlot(store[a], bn - NDIRECT, b)];
          logged := logged + [a];
          owner := owner[b := Data(i, bn)];
          r := Mapped(b);
          GrownAt(t, old(owner), T(), owner, i, bn, b);
        } else {
          r := NoSpace;
        }
      } else {
        GrownSame(sb, t, owner, i, bn);
      }
    }

    /** bmap: the block of the bn-th place, taking a free block if there is none yet. */
    method Bmap(i: nat, bn: nat) returns (r: MapResult)
      requires Valid() && i < |inodes|
      modifies this`store, this`inodes, this`owner, this`logged
      ensures Valid() && |inodes| == |old(inodes)|
      ensures r == OutOfRange <==> bn >= MAXFILE
      ensures r == OutOfRange ==> T() == old(T()) && owner == old(owner) && logged == old(logged)
      ensures bn < MAXFILE && old(T()).At(i, bn) != 0 && (bn < NDIRECT || old(T()).Table(i) != 0) ==>
                T() == old(T()) && owner == old(owner) && r == Mapped(old(T()).At(i, bn)) && logged == old(logged)
      ensures r == NoSpace <==> bn < MAXFILE && Free(sb, old(store)) < Needs(old(T()), i, bn)
      ensures r.Mapped? ==>
                && Free(sb, store) + Needs(old(T()), i, bn) == Free(sb, old(store))
                && logged == old(logged) + BmapLogs(sb, old(T()), T(), i, bn)
      ensures r == NoSpace ==> forall x: nat :: x < sb.size ==> Marked(sb, store, x)
      ensures r.Mapped? ==>
                r.addr == T().At(i, bn) && r.addr != 0 && Grown(old(T()), old(owner), T(), owner, i, bn, r.addr)
      ensures LowSame(sb, old(store), store)
    {
      hide Owned, Grown, TableGrown, Marked, Free, AllLogged, InodesFit;
      ghost var t := T();
      assert bn >= NDIRECT && t.Table(i) == 0 ==> t.At(i, bn) == 0;
      hide Tables.At, Tables.Table;
      if bn >= MAXFILE {
        r := OutOfRange;
      } else if bn < NDIRECT {
        r := BmapDirect(i, bn);
      } else {
        var ok := BmapTable(i);
        if ok {
          ghost var t1, owner1 := T(), owner;
          TableGrownTable(old(T()), old(owner), t1, i);
          TableGrownAt(old(T()), old(owner), t1, i, bn);
          r := BmapSlot(i, bn);
          LowTwice(sb, t.store, t1.store, store);
          if r.Mapped? {
            GrowBoth(old(T()), old(owner), t1, owner1, T(), owner, i, bn, r.addr);
          }
        } else {
          r := NoSpace;
        }
      }
    }

    /** iupdate: size and addresses of the inode go to its place in its block. */
    method Iupdate(i: nat)
      requires i < |inodes| && inodes[i].size < U32 && |inodes[i].addrs| == NDIRECT + 1 && IBlock(sb, i) < |store|
      modifies this`store, this`logged
      ensures store == old(store)[IBlock(sb, i) := PutInode(old(store)[IBlock(sb, i)], i, inodes[i])]
      ensures InodeWritten(sb, old(store), store, i, inodes[i])
      ensures logged == old(logged) + [IBlock(sb, i)]
    {
      var b := IBlock(sb, i);
      InodeStored(store[b], i, inodes[i]);
      hide PutInode, InodeIn;
      store := store[b := PutInode(store[b], i, inodes[i])];
      logged := logged + [b];
    }

    /** File i as a byte sequence. */
    ghost function File(i: nat): (c: seq<byte>)
      requires i < |inodes|
      reads this
      ensures |c| == inodes[i].size
    {
      Contents(T(), i, inodes[i].size)
    }

    ghost function Files(): (c: seq<seq<byte>>)
      reads this
      ensures |c| == |inodes| && forall i :: 0 <= i < |inodes| ==> c[i] == File(i)
    {
      var t, ns := T(), inodes;
      seq(|ns|, i requires 0 <= i < |ns| => Contents(t, i, ns[i].size))
    }

    /** Between operations: no holes and no blocks past the end in any file, and the disk inodes up to date. */
    ghost predicate Steady()
      reads this
    {
      && Valid() && OnDisk(sb, store, inodes)
      && forall i: nat :: i < |inodes| ==> inodes[i].size <= MAXBYTES && Dense(T(), i, inodes[i].size)
    }

    /** The loop body of writei. */
    method WriteChunk(i: nat, off: nat, chunk: seq<byte>, ghost reach: nat) returns (ok: bool)
      requires Valid() && i < |inodes| && off <= reach <= MAXBYTES && Dense(T(), i, reach)
      requires 1 <= |chunk| && off % BSIZE + |chunk| <= BSIZE && off + |chunk| <= MAXBYTES
      modifies this`store, this`inodes, this`owner, this`logged
      ensures Valid() && |inodes| == |old(inodes)|
      ensures !ok ==> forall x: nat :: x < sb.size ==> Marked(sb, store, x)
      ensures ok <==> Free(sb, old(store)) + Used(reach) >= Used(Max(reach, off + |chunk|))
      ensures ok ==>
                && Free(sb, store) + Used(Max(reach, off + |chunk|)) == Free(sb, old(store)) + Used(reach)
                && PlacesStay(old(T()), T(), i)
                && logged == old(logged) + BmapLogs(sb, old(T()), T(), i, off / BSIZE) + [T().At(i, off / BSIZE)]
      ensures ok ==>
                && Others(old(T()), T(), i) && inodes[i].size == old(inodes[i]).size
                && Dense(T(), i, Max(reach, off + |chunk|))
                && Contents(T(), i, Max(reach, off + |chunk|)) == Splice(Contents(old(T()), i, reach), off, chunk)
      ensures ok && off < reach ==> inodes == old(inodes)
      ensures ok ==> LowSame(sb, old(store), store)
    {
      hide Owned, Grown, Others, Marked, Tables.At, Tables.Table, Contents, Splice, BlockSplice, Free, Used, Needs,
           BmapLogs;
      hide PlacesStay, AllLogged, LowSame, InodesFit;
      ghost var t, w := T(), owner;
      Places(off, |chunk|, off);
      if off < reach {
        DenseMapped(t, i, reach, off / BSIZE);
      }
      ChunkNeeds(t, i, reach, off, |chunk|);
      hide Dense;
      var r := Bmap(i, off / BSIZE);
      ok := r.Mapped?;
      if ok {
        ghost var t1, w1 := T(), owner;
        PlaceFacts(sb, t1, w1, i, off / BSIZE);
        ChunkKeepsOthers(sb, t, w, t1, w1, i, off / BSIZE, r.addr, BlockSplice(store[r.addr], off % BSIZE, chunk));
        ChunkContents(sb, t, w, t1, w1, i, r.addr, reach, off, chunk);
        WriteKeepsOwned(sb, t1, w1, r.addr, BlockSplice(store[r.addr], off % BSIZE, chunk));
        GrownSizes(t, w, t1, w1, i, off / BSIZE, r.addr);
        ChunkPlaces(sb, t, w, t1, w1, i, off / BSIZE, r.addr, BlockSplice(store[r.addr], off % BSIZE, chunk));
        DataBlock(sb, t1, w1, i, off / BSIZE);
        LowWrite(sb, t.store, store, r.addr, BlockSplice(store[r.addr], off % BSIZE, chunk));
        LogOne(sb, base, store, logged, r.addr, BlockSplice(store[r.addr], off % BSIZE, chunk));
        store := store[r.addr := BlockSplice(store[r.addr], off % BSIZE, chunk)];
        logged := logged + [r.addr];
      }
    }

    /** The loop of writei. Progress holds what has been written so far; size is not yet updated. */
    ghost predicate Written(t0: Tables, i: nat, size: nat, off: nat, c: seq<byte>)
      reads this
    {
      && Valid() && i < |inodes| == |t0.inodes|
      && Others(t0, T(), i) && inodes[i].size == size == t0.inodes[i].size
      && Max(size, off) <= MAXBYTES
      && Dense(T(), i, Max(size, off))
      && Contents(T(), i, Max(size, off)) == c
      && (off <= size ==> inodes == t0.inodes)
      && Free(sb, store) + Used(Max(size, off)) == Free(sb, t0.store) + Used(size)
      && LowSame(sb, t0.store, store)
    }

    /** The calls of log_write since l0 was the record, for the bytes from off0 to off. */
    ghost predicate Recorded(i: nat, size: nat, l0: seq<nat>, off0: nat, off: nat)
      reads this
    {
      && l0 <= logged && |logged| == |l0| + Calls(size, off0, off)
      && forall k :: |l0| <= k < |logged| ==> Explained(sb, T(), i, size, off0 / BSIZE, BlocksFor(off), logged[k])
    }

    lemma NothingRecorded(i: nat, size: nat, off0: nat)
      requires off0 <= size
      ensures Recorded(i, size, logged, off0, off0)
    {
    }

    lemma WrittenFree(t0: Tables, i: nat, size: nat, off: nat, c: seq<byte>)
      requires Written(t0, i, size, off, c)
      ensures Free(sb, t0.store) + Used(size) >= Used(Max(size, off))
    {
      hide Owned, Marked, Tables.At, Tables.Table, Contents, ByteAt, Dense, Others, Free, Used, AllLogged, LowSame;
    }

    /** One turn of the loop of writei, with what it takes from the disk and what it logs. */
    method WriteStep(i: nat, off: nat, chunk: seq<byte>, ghost t0: Tables, ghost size: nat, ghost c: seq<byte>,
                     ghost l0: seq<nat>, ghost off0: nat) returns (ok: bool)
      requires Written(t0, i, size, off, c) && off <= |c|
      requires 1 <= |chunk| && InBlock(off, |chunk|) && off + |chunk| <= MAXBYTES
      requires Recorded(i, size, l0, off0, off) && off0 <= off && off0 <= size && (off == off0 || Aligned(off))
      modifies this`store, this`inodes, this`owner, this`logged
      ensures !ok ==> forall x: nat :: x < sb.size ==> Marked(sb, store, x)
      ensures ok <==> Free(sb, t0.store) + Used(size) >= Used(Max(size, off + |chunk|))
      ensures ok ==> Written(t0, i, size, off + |chunk|, Splice(c, off, chunk))
      ensures ok ==> Recorded(i, size, l0, off0, off + |chunk|)
    {
      hide Owned, Marked, Tables.At, Tables.Table, Contents, ByteAt, Dense, Splice, Others, Free, Used, BmapLogs,
           PlacesStay;
      hide Explained, Calls, BlocksFor, AllLogged, LowSame, InodesFit;
      ghost var t, l := T(), logged;
      ok := WriteChunk(i, off, chunk, Max(size, off));
      if ok {
        OthersTransitive(t0, t, T(), i);
        LowTwice(sb, t0.store, t.store, store);
        RecordGrows(sb, t, T(), i, size, off0, off, |chunk|, l0, l, logged);
      }
    }

    method WriteLoop(i: nat, src: seq<byte>, off0: nat, ghost t0: Tables, ghost size: nat, ghost c0: seq<byte>)
      returns (ok: bool, off: nat)
      requires Written(t0, i, size, off0, c0) && off0 <= |c0| && off0 + |src| <= MAXBYTES && off0 <= size
      modifies this`store, this`inodes, this`owner, this`logged
      ensures !ok ==> forall x: nat :: x < sb.size ==> Marked(sb, store, x)
      ensures ok <==> Free(sb, t0.store) + Used(size) >= Used(Max(size, off0 + |src|))
      ensures ok ==> off == off0 + |src| && Written(t0, i, size, off, Splice(c0, off0, src))
      ensures ok ==> Recorded(i, size, old(logged), off0, off)
    {
      hide *;
      SpliceEnds(c0, off0, src);
      NothingRecorded(i, size, off0);
      WrittenFree(t0, i, size, off0, c0);
      MaxFacts(size, off0, off0 + |src|);
      UsedGrows(Max(size, off0), Max(size, off0 + |src|));
      var tot := 0;
      ok, off := true, off0;
      while tot < |src| && ok
        invariant tot <= |src| && off == off0 + tot && (tot == 0 || Aligned(off) || tot == |src|)
        invariant ok ==> Written(t0, i, size, off, Splice(c0, off0, src[..tot]))
        invariant ok ==> Recorded(i, size, old(logged), off0, off)
        invariant ok ==> Free(sb, t0.store) + Used(size) >= Used(Max(size, off))
        invariant !ok ==> forall x: nat :: x < sb.size ==> Marked(sb, store, x)
        invariant !ok ==> Free(sb, t0.store) + Used(size) < Used(Max(size, off0 + |src|))
        decreases |src| - tot, ok
      {
        var m := ChunkLen(off, |src| - tot);
        ChunkEndsOrAligned(off, |src| - tot);
        MaxFacts(size, off + m, off0 + |src|);
        UsedGrows(Max(size, off + m), Max(size, off0 + |src|));
        ok := WriteStep(i, off, src[tot..tot + m], t0, size, Splice(c0, off0, src[..tot]), old(logged), off0);
        if ok {
          SpliceNext(c0, off0, src, tot, m);
          tot, off := tot + m, off + m;
        }
      }
    }

    /** After the loop of writei: the new size, if the file grew, reaches the inode and its copy on disk. */
    method WriteSize(i: nat, off: nat, wrote: bool, ghost t0: Tables, ghost size: nat, ghost c: seq<byte>)
      requires Written(t0, i, size, off, c) && OnDisk(sb, t0.store, t0.inodes) && (wrote || off <= size)
      requires forall k: nat :: k < |t0.inodes| ==> t0.inodes[k].size <= MAXBYTES && Dense(t0, k, t0.inodes[k].size)
      modifies this`store, this`inodes, this`logged
      ensures Steady() && |inodes| == |t0.inodes|
      ensures logged == old(logged) + if wrote && off > size then [IBlock(sb, i)] else []
      ensures File(i) == c
      ensures Others(t0, T(), i) && Free(sb, store) + Used(Max(size, off)) == Free(sb, t0.store) + Used(size)
      ensures if wrote && off > size then InodeWritten(sb, old(store), store, i, inodes[i]) else store == old(store)
    {
      hide Owned, Marked, Tables.At, Tables.Table, Contents, ByteAt, Dense, Others, AllLogged, LowSame, InodesFit,
           OnDisk, PutInode, Free, Used, InodeWritten;
      LowOnDisk(sb, t0.store, store, t0.inodes);
      if wrote && off > inodes[i].size {
        SetSize(i, off, Max(size, off), t0);
      }
      forall k: nat | k < |inodes| && k != i
        ensures inodes[k].size <= MAXBYTES && Dense(T(), k, inodes[k].size) && inodes[k] == t0.inodes[k]
      {
        OtherIsDense(t0, T(), i, k);
      }
    }

    /** The new size of the inode, in memory and on disk; no file's contents up to reach change. */
    method SetSize(i: nat, size: nat, ghost reach: nat, ghost t0: Tables)
      requires Valid() && i < |inodes| == |t0.inodes| && size <= MAXBYTES && reach <= MAXBYTES && Dense(T(), i, reach)
      requires Others(t0, T(), i) && OnDisk(sb, store, t0.inodes)
      modifies this`store, this`inodes, this`logged
      ensures Valid() && inodes == old(inodes)[i := old(inodes[i]).(size := size)]
      ensures logged == old(logged) + [IBlock(sb, i)]
      ensures OnDisk(sb, store, inodes) && Others(t0, T(), i) && Free(sb, store) == Free(sb, old(store))
      ensures Dense(T(), i, reach) && Contents(T(), i, reach) == Contents(old(T()), i, reach)
      ensures InodeWritten(sb, old(store), store, i, inodes[i])
    {
      hide InodeWritten;
      hide Owned, Marked, Tables.At, Tables.Table, Contents, ByteAt, Dense, Others, AllLogged, LowSame, OnDisk,
           PutInode, SameFile;
      ghost var t := T();
      TableFacts(sb, t, owner, i);
      LayoutOrder(sb, |store|);
      assert IBlock(sb, i) < sb.bmapstart;
      hide InodesFit;
      inodes := inodes[i := inodes[i].(size := size)];
      ghost var data := PutInode(store[IBlock(sb, i)], i, inodes[i]);
      OtherInodes(t0, t, i);
      UpdateOnDisk(sb, store, t0.inodes, inodes, i);
      LogOne(sb, base, store, logged, IBlock(sb, i), data);
      InodeUpdate(sb, t, owner, i, size, IBlock(sb, i), data);
      Iupdate(i);
      HighFree(sb, t.store, store);
      SizeKeeps(sb, t, owner, T(), i, reach);
      OthersTransitive(t0, t, T(), i);
    }

    lemma OtherFiles(t0: Tables, i: nat)
      requires Steady() && |inodes| == |t0.inodes| && i < |inodes| && Others(t0, T(), i)
      requires forall k: nat :: k < |t0.inodes| ==> t0.inodes[k].size <= MAXBYTES && Dense(t0, k, t0.inodes[k].size)
      ensures forall k: nat :: k < |inodes| && k != i ==>
                inodes[k] == t0.inodes[k] && File(k) == Contents(t0, k, t0.inodes[k].size)
    {
      hide Owned, Marked, Tables.At, Tables.Table, Contents, ByteAt, Dense, Others, AllLogged, InodesFit, OnDisk;
      forall k: nat | k < |inodes| && k != i
        ensures inodes[k] == t0.inodes[k] && File(k) == Contents(t0, k, t0.inodes[k].size)
      {
        OtherIsDense(t0, T(), i, k);
      }
    }

    /** What the loop of writei has logged, and the inode block if the file grew. */
    lemma WillLog(i: nat, size: nat, l0: seq<nat>, off0: nat, n: nat)
      requires Recorded(i, size, l0, off0, off0 + n) && off0 <= size
      ensures LogGrew(l0, logged + if n > 0 && off0 + n > size then [IBlock(sb, i)] else [], size, off0, n)
    {
      var l' := logged + if n > 0 && off0 + n > size then [IBlock(sb, i)] else [];
      if n <= CHUNK {
        WithinBudget(sb, T(), i, size, off0, off0 + n, l0, logged, l');
      }
      hide Blocks, Calls, Explained;
    }

    /** writei: the file becomes the old one with src written over it at off; no other file changes. */
    method Writei(i: nat, src: seq<byte>, off0: uint32) returns (r: WriteResult)
      requires Steady() && i < |inodes| && |src| < U32
      modifies this`store, this`inodes, this`owner, this`logged
      ensures r == Refused <==> off0 > old(inodes[i]).size || off0 + |src| >= U32 || off0 + |src| > MAXBYTES
      ensures r == Refused ==> unchanged(this)
      ensures r == OutOfBlocks <==>
              var size, end := old(inodes[i]).size, off0 + |src|;
              r != Refused && Free(sb, old(store)) + Used(size) < Used(Max(size, end))
      ensures r == OutOfBlocks ==> forall x: nat :: x < sb.size ==> Marked(sb, store, x)
      ensures r.Wrote? ==>
                var size, end := old(inodes[i]).size, off0 + |src|;
                && LogGrew(old(logged), logged, size, off0, |src|)
                && Free(sb, store) + Used(Max(size, end)) == Free(sb, old(store)) + Used(size)
      ensures r.Wrote? ==>
                && r.n == |src| && Steady() && |inodes| == |old(inodes)|
                && File(i) == Splice(old(File(i)), off0, src)
                && forall k: nat :: k < |inodes| && k != i ==> inodes[k] == old(inodes[k]) && File(k) == old(File(k))
    {
      if off0 > inodes[i].size || Wraps(off0, |src|) {
        return Refused;
      }
      if off0 + |src| > MAXBYTES {
        return Refused;
      }
      hide FileSystem.Steady, FileSystem.File, Free, Used, Max, Marked, LogGrew, Splice;
      var ok := WriteAll(i, src, off0);
      r := if ok then Wrote(|src|) else OutOfBlocks;
    }

    /** The rest of writei, when its tests have passed. */
    method WriteAll(i: nat, src: seq<byte>, off0: nat) returns (ok: bool)
      requires Steady() && i < |inodes| && off0 <= inodes[i].size && off0 + |src| <= MAXBYTES
      modifies this`store, this`inodes, this`owner, this`logged
      ensures !ok ==> forall x: nat :: x < sb.size ==> Marked(sb, store, x)
      ensures var size, end := old(inodes[i]).size, off0 + |src|;
              && (ok <==> Free(sb, old(store)) + Used(size) >= Used(Max(size, end)))
              && (ok ==> LogGrew(old(logged), logged, size, off0, |src|))
              && (ok ==> Free(sb, store) + Used(Max(size, end)) == Free(sb, old(store)) + Used(size))
      ensures ok ==>
                && Steady() && |inodes| == |old(inodes)| && File(i) == Splice(old(File(i)), off0, src)
                && forall k: nat :: k < |inodes| && k != i ==> inodes[k] == old(inodes[k]) && File(k) == old(File(k))
    {
      hide Owned, Marked, Tables.At, Tables.Table, Contents, ByteAt, Dense, Others, Splice, Free, Used, Calls, Blocks,
           AllLogged, InodesFit, OnDisk, InodeWritten, LogGrew, FileSystem.Recorded, LowSame;
      ghost var t0, size, c0 := T(), inodes[i].size, File(i);
      SameFiles(t0, i);
      SameLow(sb, store);
      assert Max(size, off0) == size && Written(t0, i, size, off0, c0);
      hide Written, Max;
      var off;
      ok, off := WriteLoop(i, src, off0, t0, size, c0);
      if ok {
        WillLog(i, size, old(logged), off0, |src|);
        WriteSize(i, off, |src| > 0, t0, size, Splice(c0, off0, src));
        OtherFiles(t0, i);
      }
    }

    /** The loop body of readi: the block is mapped already, so bmap takes nothing. */
    method ReadChunk(i: nat, off: nat, m: nat) returns (part: seq<byte>)
      requires Steady() && i < |inodes| && 1 <= m && InBlock(off, m) && off + m <= inodes[i].size
      modifies this`store, this`inodes, this`owner, this`logged
      ensures unchanged(this)
      ensures part == File(i)[off..off + m]
    {
      hide Owned, Marked, Grown, Tables.At, Tables.Table;
      ghost var t := T();
      Places(off, m, off);
      DenseMapped(t, i, inodes[i].size, off / BSIZE);
      PlaceFacts(sb, t, owner, i, off / BSIZE);
      ReadBytes(t, i, off, m);
      hide Dense, Contents;
      var r := Bmap(i, off / BSIZE);
      part := store[r.addr][off % BSIZE..off % BSIZE + m];
    }

    /** readi: exactly the bytes asked for, up to the end of the file; nothing changes. */
    method Readi(i: nat, off0: uint32, n0: uint32) returns (r: ReadResult)
      requires Steady() && i < |inodes|
      modifies this`store, this`inodes, this`owner, this`logged
      ensures unchanged(this)
      ensures r == NotRead <==> off0 > inodes[i].size || off0 + n0 >= U32
      ensures r.Read? ==>
                r.data == File(i)[off0..if off0 + n0 > inodes[i].size then inodes[i].size else off0 + n0]
    {
      if off0 > inodes[i].size || Wraps(off0, n0) {
        return NotRead;
      }
      var n: nat := if off0 + n0 > inodes[i].size then inodes[i].size - off0 else n0;
      hide *;
      var dst := ReadLoop(i, off0, n);
      r := Read(dst);
    }

    method ReadLoop(i: nat, off0: nat, n: nat) returns (dst: seq<byte>)
      requires Steady() && i < |inodes| && off0 + n <= inodes[i].size
      modifies this`store, this`inodes, this`owner, this`logged
      ensures unchanged(this) && dst == File(i)[off0..off0 + n]
    {
      hide *;
      ghost var file := File(i);
      Adjacent(file, off0, off0, off0);
      var tot, off := 0, off0;
      dst := [];
      while tot < n
        invariant tot <= n && off == off0 + tot && unchanged(this)
        invariant dst == file[off0..off]
      {
        var m := ChunkLen(off, n - tot);
        var part := ReadChunk(i, off, m);
        Adjacent(file, off0, off, off + m);
        dst := dst + part;
        tot, off := tot + m, off + m;
      }
    }

    /** The direct loop of itrunc, one turn: the bit of a reached block is always set, so bfree does not panic. */
    method TruncDirect(i: nat, k: nat) returns (ok: bool)
      requires Valid() && i < |inodes| && k < NDIRECT
      modifies this`store, this`inodes, this`owner, this`logged
      ensures ok && Valid() && |inodes| == |old(inodes)| && inodes[i].size == old(inodes[i]).size
      ensures |inodes[i].addrs| == |old(inodes[i]).addrs| == NDIRECT + 1
      ensures inodes[i].addrs == old(inodes[i]).addrs[k := 0]
      ensures Others(old(T()), T(), i) && Changed(old(T()), T(), Data(i, k), 0) && LowSame(sb, old(store), store)
      ensures Free(sb, store) == Free(sb, old(store)) + if old(T()).At(i, k) != 0 then 1 else 0
    {
      hide Owned, Marked, Others, AllLogged, LowSame, InodesFit, Changed, Free;
      ghost var t := T();
      TableFacts(sb, t, owner, i);
      assert t.At(i, k) == inodes[i].addrs[k];
      hide Tables.At, Tables.Table;
      SameFiles(t, i);
      SameLow(sb, store);
      NotChanged(t, Data(i, k));
      ok := true;
      if inodes[i].addrs[k] != 0 {
        FreeDirect(sb, t, owner, i, k);
        FreeDirectOthers(sb, t, owner, i, k);
        FreeDirectCounts(sb, t, owner, i, k);
        LowMark(sb, store, inodes[i].addrs[k], false);
        LogMark(sb, base, store, logged, inodes[i].addrs[k], false);
        ok := Bfree(inodes[i].addrs[k]);
        owner := owner - {inodes[i].addrs[k]};
        inodes := SetAddr(inodes, i, k, 0);
      } else {
        assert inodes[i].addrs == inodes[i].addrs[k := 0];
      }
    }

    /** The indirect loop of itrunc, one turn. */
    method TruncSlot(i: nat, j: nat) returns (ok: bool)
      requires Owned(sb, Tables(store, inodes, i, j), owner) && i < |inodes| && j < NINDIRECT && T().Table(i) != 0
      requires AllLogged(sb, base, store, logged)
      modifies this`store, this`owner, this`logged
      ensures ok && Owned(sb, Tables(store, inodes, i, j + 1), owner) && AllLogged(sb, base, store, logged)
      ensures Others(old(Tables(store, inodes, i, j)), Tables(store, inodes, i, j + 1), i)
      ensures Changed(old(Tables(store, inodes, i, j)), Tables(store, inodes, i, j + 1), Data(i, NDIRECT + j), 0)
      ensures LowSame(sb, old(store), store)
      ensures Free(sb, store)
              == Free(sb, old(store)) + if old(Tables(store, inodes, i, j)).At(i, NDIRECT + j) != 0 then 1 else 0
    {
      hide Owned, Marked, Others, AllLogged, LowSame, Changed, Free;
      ghost var t := Tables(store, inodes, i, j);
      TableFacts(sb, t, owner, i);
      assert t.At(i, NDIRECT + j) == Slot(store, inodes[i], NDIRECT + j);
      hide Tables.At;
      SlotOthers(sb, t, owner);
      SlotCounts(sb, t, owner);
      SameLow(sb, store);
      ok := true;
      var b := Word(store[inodes[i].addrs[NDIRECT]], j);
      assert b == Slot(store, inodes[i], NDIRECT + j);
      hide Slot, Word;
      if b != 0 {
        FreeSlot(sb, t, owner);
        LowMark(sb, store, b, false);
        LogMark(sb, base, store, logged, b, false);
        ok := Bfree(b);
        owner := owner - {b};
      } else {
        SkipSlot(sb, t, owner);
      }
    }

    /** The loop of itrunc over the indirect block. */
    method TruncSlots(i: nat)
      requires Valid() && i < |inodes| && T().Table(i) != 0
      modifies this`store, this`owner, this`logged
      ensures Owned(sb, Tables(store, inodes, i, NINDIRECT), owner) && AllLogged(sb, base, store, logged)
      ensures Others(old(T()), Tables(store, inodes, i, NINDIRECT), i) && LowSame(sb, old(store), store)
      ensures Free(sb, store) + Placed(old(T()), i, NDIRECT) == Free(sb, old(store)) + Placed(old(T()), i, MAXFILE)
    {
      hide Owned, Marked, Others, Tables.At, AllLogged, LowSame, InodesFit, Changed, Free, Placed;
      ghost var t := T();
      TableFacts(sb, t, owner, i);
      SameFiles(t, i);
      SameLow(sb, store);
      NothingFreedYet(sb, t, owner, i);
      SlotsAsBefore(t, i);
      var j := 0;
      while j < NINDIRECT
        invariant j <= NINDIRECT && AllLogged(sb, base, store, logged)
        invariant inodes == t.inodes && Owned(sb, Tables(store, inodes, i, j), owner)
        invariant Others(t, Tables(store, inodes, i, j), i) && LowSame(sb, t.store, store)
        invariant forall m: nat :: NDIRECT + j <= m < MAXFILE ==> Tables(store, inodes, i, j).At(i, m) == t.At(i, m)
        invariant Free(sb, store) + Placed(t, i, NDIRECT) == Free(sb, t.store) + Placed(t, i, NDIRECT + j)
      {
        ghost var tj := Tables(store, inodes, i, j);
        var ok := TruncSlot(i, j);
        OthersTransitive(t, tj, Tables(store, inodes, i, j + 1), i);
        LowTwice(sb, t.store, tj.store, store);
        ChangedElsewhere(tj, Tables(store, inodes, i, j + 1), i, NDIRECT + j);
        PlacedStep(t, i, NDIRECT + j);
        j := j + 1;
      }
    }

    /** The indirect half of itrunc. */
    method TruncTable(i: nat) returns (ok: bool)
      requires Valid() && i < |inodes|
      modifies this`store, this`inodes, this`owner, this`logged
      ensures ok && Valid() && |inodes| == |old(inodes)| && inodes[i].size == old(inodes[i]).size
      ensures |inodes[i].addrs| == |old(inodes[i]).addrs| == NDIRECT + 1
      ensures inodes[i].addrs == old(inodes[i]).addrs[NDIRECT := 0]
      ensures Others(old(T()), T(), i) && LowSame(sb, old(store), store)
      ensures Free(sb, store) + Placed(old(T()), i, NDIRECT)
              == Free(sb, old(store)) + Placed(old(T()), i, MAXFILE) + if old(T()).Table(i) != 0 then 1 else 0
    {
      hide Owned, Marked, Others, Tables.At, AllLogged, LowSame, InodesFit, Changed, Free, Placed;
      ghost var t := T();
      TableFacts(sb, t, owner, i);
      SameFiles(t, i);
      SameLow(sb, store);
      ok := true;
      if inodes[i].addrs[NDIRECT] != 0 {
        TruncSlots(i);
        ghost var t1 := Tables(store, inodes, i, NINDIRECT);
        TableFacts(sb, t1, owner, i);
        FreeTable(sb, t1, owner);
        FreeTableOthers(sb, t1, owner);
        FreedFree(sb, t1, owner, inodes[i].addrs[NDIRECT]);
        LowMark(sb, store, inodes[i].addrs[NDIRECT], false);
        LogMark(sb, base, store, logged, inodes[i].addrs[NDIRECT], false);
        ok := Bfree(inodes[i].addrs[NDIRECT]);
        owner := owner - {inodes[i].addrs[NDIRECT]};
        inodes := SetAddr(inodes, i, NDIRECT, 0);
        OthersTransitive(t, t1, T(), i);
        LowTwice(sb, t.store, t1.store, store);
      } else {
        assert inodes[i].addrs == inodes[i].addrs[NDIRECT := 0];
        NoneBehindNoTable(t, i, MAXFILE);
      }
    }

    /**
     itrunc: every block of the file is given back, "freeing free block" never happens, no other file changes,
     and exactly as many blocks become free as the file used.
     */
    method Itrunc(i: nat) returns (ok: bool)
      requires Steady() && i < |inodes|
      modifies this`store, this`inodes, this`owner, this`logged
      ensures ok && Steady() && |inodes| == |old(inodes)|
      ensures File(i) == [] && forall b: nat :: b in owner ==> owner[b].Meta? || owner[b].inum != i
      ensures forall k: nat :: k < |inodes| && k != i ==> inodes[k] == old(inodes[k]) && File(k) == old(File(k))
      ensures Free(sb, store) == Free(sb, old(store)) + Used(old(inodes[i]).size)
    {
      hide Owned, Marked, Others, Tables.At, Tables.Table, Dense, Contents, ByteAt, AllLogged, LowSame, InodesFit,
           OnDisk, Changed, Free, Placed, Used;
      ghost var t := T();
      TableFacts(sb, t, owner, i);
      SameFiles(t, i);
      SameLow(sb, store);
      PlacedNone(t, i);
      ok := true;
      var k := 0;
      while k < NDIRECT
        invariant k <= NDIRECT && ok && Valid() && |inodes| == |t.inodes|
        invariant |inodes[i].addrs| == NDIRECT + 1 && forall j :: 0 <= j < k ==> inodes[i].addrs[j] == 0
        invariant Others(t, T(), i) && LowSame(sb, t.store, store)
        invariant Free(sb, store) == Free(sb, t.store) + Placed(t, i, k)
        invariant T().Table(i) == t.Table(i) && forall m: nat :: k <= m < MAXFILE ==> T().At(i, m) == t.At(i, m)
      {
        ghost var tk := T();
        ok := TruncDirect(i, k);
        OthersTransitive(t, tk, T(), i);
        LowTwice(sb, t.store, tk.store, store);
        ChangedElsewhere(tk, T(), i, k);
        PlacedStep(t, i, k);
        k := k + 1;
      }
      ghost var t1 := T();
      ok := TruncTable(i);
      OthersTransitive(t, t1, T(), i);
      LowTwice(sb, t.store, t1.store, store);
      PlacedBehind(t, t1, i, MAXFILE);
      DensePlaced(t, i, t.inodes[i].size, MAXFILE);
      DenseUses(t, i, t.inodes[i].size);
      TruncSize(i, t);
    }

    /** The end of itrunc. */
    method TruncSize(i: nat, ghost t: Tables)
      requires Valid() && i < |inodes| == |t.inodes| && OnDisk(sb, t.store, t.inodes) && LowSame(sb, t.store, store)
      requires Others(t, T(), i)
      requires |inodes[i].addrs| == NDIRECT + 1 && forall j :: 0 <= j <= NDIRECT ==> inodes[i].addrs[j] == 0
      requires forall k: nat :: k < |t.inodes| ==> t.inodes[k].size <= MAXBYTES && Dense(t, k, t.inodes[k].size)
      modifies this`store, this`inodes, this`logged
      ensures Steady() && |inodes| == |t.inodes| && File(i) == [] && Free(sb, store) == Free(sb, old(store))
      ensures forall b: nat :: b in owner ==> owner[b].Meta? || owner[b].inum != i
      ensures forall k: nat :: k < |inodes| && k != i ==>
                inodes[k] == t.inodes[k] && File(k) == Contents(t, k, t.inodes[k].size)
    {
      NoPlaces(sb, T(), owner, i);
      hide Owned, Marked, Others, Tables.At, Tables.Table, Dense, Contents, ByteAt, AllLogged, LowSame, InodesFit,
           OnDisk, Free;
      LowOnDisk(sb, t.store, store, t.inodes);
      SetSize(i, 0, 0, t);
      forall k: nat | k < |inodes| && k != i
        ensures inodes[k].size <= MAXBYTES && Dense(T(), k, inodes[k].size) && inodes[k] == t.inodes[k]
        ensures File(k) == Contents(t, k, t.inodes[k].size)
      {
        OtherIsDense(t, T(), i, k);
      }
    }
  }

  // ---- Counting the places of a file ----------------------------------------------------------------

  /** How many of the first n places of file i have a block. */
  ghost function Placed(t: Tables, i: nat, n: nat): nat {
    if n == 0 then 0 else Placed(t, i, n - 1) + if t.At(i, n - 1) != 0 then 1 else 0
  }

  lemma {:induction false} PlacedNone(t: Tables, i: nat)
    ensures Placed(t, i, 0) == 0
  {
  }

  lemma {:induction false} PlacedStep(t: Tables, i: nat, n: nat)
    ensures Placed(t, i, n + 1) == Placed(t, i, n) + if t.At(i, n) != 0 then 1 else 0
  {
    hide Tables.At;
  }

  lemma {:induction false} PlacedBehind(t: Tables, t': Tables, i: nat, n: nat)
    requires NDIRECT <= n <= MAXFILE && forall m: nat :: NDIRECT <= m < n ==> t'.At(i, m) == t.At(i, m)
    ensures Placed(t', i, n) - Placed(t', i, NDIRECT) == Placed(t, i, n) - Placed(t, i, NDIRECT)
  {
    hide Tables.At;
    if n > NDIRECT {
      PlacedBehind(t, t', i, n - 1);
    }
  }

  lemma {:induction false} NoneBehindNoTable(t: Tables, i: nat, n: nat)
    requires NDIRECT <= n <= MAXFILE && t.Table(i) == 0
    ensures Placed(t, i, n) == Placed(t, i, NDIRECT)
  {
    if n > NDIRECT {
      NoneBehindNoTable(t, i, n - 1);
      assert t.At(i, n - 1) == 0;
    }
  }

  lemma {:induction false} DensePlaced(t: Tables, i: nat, reach: nat, n: nat)
    requires Dense(t, i, reach) && reach <= MAXBYTES && n <= MAXFILE
    ensures Placed(t, i, n) == if n <= BlocksFor(reach) then n else BlocksFor(reach)
  {
    BlocksForFacts(reach);
    hide Tables.At, BlocksFor;
    if n > 0 {
      DensePlaced(t, i, reach, n - 1);
      assert t.At(i, n - 1) != 0 <==> (n - 1) * BSIZE < reach;
    }
  }

  lemma {:induction false} DenseUses(t: Tables, i: nat, reach: nat)
    requires Dense(t, i, reach) && reach <= MAXBYTES
    ensures BlocksFor(reach) <= MAXFILE && Used(reach) == BlocksFor(reach) + if t.Table(i) != 0 then 1 else 0
  {
  }

  lemma {:induction false} NotChanged(t: Tables, w: Owner)
    requires t.Shaped()
    ensures w.Data? && t.At(w.inum, w.bn) == 0 ==> Changed(t, t, w, 0)
  {
    hide Tables.At, Tables.Table;
  }

  lemma {:induction false} ChangedElsewhere(t: Tables, t': Tables, i: nat, bn: nat)
    requires Changed(t, t', Data(i, bn), 0) && i < |t.inodes|
    ensures t'.Table(i) == t.Table(i) && forall m: nat :: bn < m < MAXFILE ==> t'.At(i, m) == t.At(i, m)
  {
    hide Tables.At, Tables.Table;
  }

  lemma {:induction false} SlotsAsBefore(t: Tables, i: nat)
    requires t.tj == 0
    ensures forall m: nat :: Tables(t.store, t.inodes, i, 0).At(i, m) == t.At(i, m)
  {
  }

  lemma {:induction false} FreeDirectCounts(sb: Super, t: Tables, owner: map<nat, Owner>, i: nat, bn: nat)
    requires Owned(sb, t, owner) && t.tj == 0
    requires i < |t.inodes| && bn < NDIRECT && bn < |t.inodes[i].addrs| && t.inodes[i].addrs[bn] != 0
    ensures var b := t.inodes[i].addrs[bn];
            var store' := MarkStore(sb, t.store, b, false);
            && Changed(t, t.(store := store', inodes := SetAddr(t.inodes, i, bn, 0)), Data(i, bn), 0)
            && Free(sb, store') == Free(sb, t.store) + 1
  {
    hide Owned;
    var b := t.inodes[i].addrs[bn];
    TableFacts(sb, t, owner, i);
    PlaceFacts(sb, t, owner, i, bn);
    assert t.At(i, bn) == b;
    hide *;
    FreedFrame(sb, t, owner, b);
    DirectChanged(sb, t, owner, MarkStore(sb, t.store, b, false), i, bn, 0);
    FreedFree(sb, t, owner, b);
  }

  lemma {:induction false} SlotCounts(sb: Super, t: Tables, owner: map<nat, Owner>)
    requires Owned(sb, t, owner) && t.ti < |t.inodes| && t.tj < NINDIRECT
    ensures var b := Slot(t.store, t.inodes[t.ti], NDIRECT + t.tj);
            var store' := if b != 0 then MarkStore(sb, t.store, b, false) else t.store;
            && Changed(t, t.(store := store', tj := t.tj + 1), Data(t.ti, NDIRECT + t.tj), 0)
            && Free(sb, store') == Free(sb, t.store) + if b != 0 then 1 else 0
  {
    hide Owned;
    var b := Slot(t.store, t.inodes[t.ti], NDIRECT + t.tj);
    PlaceFacts(sb, t, owner, t.ti, NDIRECT + t.tj);
    OwnedInStore(sb, t, owner);
    assert t.At(t.ti, NDIRECT + t.tj) == b;
    hide *;
    if b != 0 {
      FreedFrame(sb, t, owner, b);
      SlotFreed(sb, t, owner, MarkStore(sb, t.store, b, false));
      FreedFree(sb, t, owner, b);
    } else {
      SlotFreed(sb, t, owner, t.store);
    }
  }

  /** The bytes of one chunk come from one block. */
  lemma {:induction false} ReadBytes(t: Tables, i: nat, off: nat, m: nat)
    requires i < |t.inodes| && 1 <= m && off % BSIZE + m <= BSIZE && off + m <= t.inodes[i].size <= MAXBYTES
    requires t.At(i, off / BSIZE) < |t.store|
    ensures t.store[t.At(i, off / BSIZE)][off % BSIZE..off % BSIZE + m]
            == Contents(t, i, t.inodes[i].size)[off..off + m]
  {
    hide Tables.At;
    var part := t.store[t.At(i, off / BSIZE)][off % BSIZE..off % BSIZE + m];
    var file := Contents(t, i, t.inodes[i].size);
    forall k | 0 <= k < m
      ensures part[k] == file[off..off + m][k]
    {
      Places(off, m, off + k);
      assert file[off + k] == ByteAt(t, i, off + k);
    }
  }

  /** Emptying a place of file i leaves every other file alone. */
  lemma {:induction false} RemoveKeepsOthers(sb: Super, t: Tables, owner: map<nat, Owner>, t': Tables, w: Owner, i: nat)
    requires Owned(sb, t, owner) && Changed(t, t', w, 0) && i < |t.inodes| && (w == Meta || w.inum == i)
    requires forall y: nat :: y in owner && owner[y] != Meta ==> y < |t.store| && t'.store[y] == t.store[y]
    requires forall k :: 0 <= k < |t.inodes| == |t'.inodes| && k != i ==> t'.inodes[k] == t.inodes[k]
    ensures Others(t, t', i)
  {
    hide Owned, Tables.At, Tables.Table;
    forall k: nat | k < |t.inodes| && k != i
      ensures SameFile(t, t', k)
    {
      forall p: nat | p / BSIZE < MAXFILE && t.At(k, p / BSIZE) != 0
        ensures ByteAt(t', k, p) == ByteAt(t, k, p)
      {
        PlaceFacts(sb, t, owner, k, p / BSIZE);
      }
    }
  }

  lemma {:induction false} FreeDirectOthers(sb: Super, t: Tables, owner: map<nat, Owner>, i: nat, bn: nat)
    requires Owned(sb, t, owner) && t.tj == 0
    requires i < |t.inodes| && bn < NDIRECT && bn < |t.inodes[i].addrs| && t.inodes[i].addrs[bn] != 0
    ensures Others(t, t.(store := MarkStore(sb, t.store, t.inodes[i].addrs[bn], false),
            inodes := SetAddr(t.inodes, i, bn, 0)), i)
  {
    hide Owned;
    var b := t.inodes[i].addrs[bn];
    TableFacts(sb, t, owner, i);
    PlaceFacts(sb, t, owner, i, bn);
    assert t.At(i, bn) == b;
    hide *;
    FreedFrame(sb, t, owner, b);
    DirectChanged(sb, t, owner, MarkStore(sb, t.store, b, false), i, bn, 0);
    RemoveKeepsOthers(sb, t, owner,
        t.(store := MarkStore(sb, t.store, b, false), inodes := SetAddr(t.inodes, i, bn, 0)), Data(i, bn), i);
  }

  lemma {:induction false} SlotOthers(sb: Super, t: Tables, owner: map<nat, Owner>)
    requires Owned(sb, t, owner) && t.ti < |t.inodes| && t.tj < NINDIRECT
    ensures var b := Slot(t.store, t.inodes[t.ti], NDIRECT + t.tj);
            Others(t, t.(store := if b != 0 then MarkStore(sb, t.store, b, false) else t.store, tj := t.tj + 1), t.ti)
  {
    hide Owned;
    var b := Slot(t.store, t.inodes[t.ti], NDIRECT + t.tj);
    PlaceFacts(sb, t, owner, t.ti, NDIRECT + t.tj);
    OwnedInStore(sb, t, owner);
    assert t.At(t.ti, NDIRECT + t.tj) == b;
    hide *;
    if b != 0 {
      FreedFrame(sb, t, owner, b);
      SlotFreed(sb, t, owner, MarkStore(sb, t.store, b, false));
      RemoveKeepsOthers(sb, t, owner, t.(store := MarkStore(sb, t.store, b, false), tj := t.tj + 1),
          Data(t.ti, NDIRECT + t.tj), t.ti);
    } else {
      assert SameTables(t.store, t.store, owner);
      SlotFreed(sb, t, owner, t.store);
      RemoveKeepsOthers(sb, t, owner, t.(tj := t.tj + 1), Data(t.ti, NDIRECT + t.tj), t.ti);
    }
  }

  lemma {:induction false} OwnedInStore(sb: Super, t: Tables, owner: map<nat, Owner>)
    requires Owned(sb, t, owner)
    ensures forall y: nat :: y in owner ==> y < |t.store|
    ensures SameTables(t.store, t.store, owner)
  {
  }

  lemma {:induction false} FreeTableOthers(sb: Super, t: Tables, owner: map<nat, Owner>)
    requires Owned(sb, t, owner) && t.tj == NINDIRECT && t.ti < |t.inodes| && t.Table(t.ti) != 0
    ensures |t.inodes[t.ti].addrs| == NDIRECT + 1
    ensures Others(t, Tables(MarkStore(sb, t.store, t.Table(t.ti), false), SetAddr(t.inodes, t.ti, NDIRECT, 0), 0, 0),
            t.ti)
  {
    hide *;
    var b, i := t.Table(t.ti), t.ti;
    TableFacts(sb, t, owner, i);
    FreedFrame(sb, t, owner, b);
    TableFreed(sb, t, owner, MarkStore(sb, t.store, b, false));
    RemoveKeepsOthers(sb, t, owner, Tables(MarkStore(sb, t.store, b, false), SetAddr(t.inodes, i, NDIRECT, 0), 0, 0),
        Indirect(i), i);
  }

  lemma {:induction false} NothingFreedYet(sb: Super, t: Tables, owner: map<nat, Owner>, i: nat)
    requires Owned(sb, t, owner) && t.tj == 0
    ensures Owned(sb, Tables(t.store, t.inodes, i, 0), owner)
    ensures Others(t, Tables(t.store, t.inodes, i, 0), i)
  {
    var t' := Tables(t.store, t.inodes, i, 0);
    assert Changed(t, t', Meta, 0);
    assert SameBytes(t, t');
    SameKeepsOwned(sb, t, owner, t');
    hide Owned, Tables.At, Tables.Table;
  }

  ghost predicate SameBytes(t: Tables, t': Tables) {
    forall k: nat, p: nat :: ByteAt(t', k, p) == ByteAt(t, k, p)
  }

  /** An inode whose addresses are all zero reaches nothing and owns nothing. */
  lemma {:induction false} NoPlaces(sb: Super, t: Tables, owner: map<nat, Owner>, i: nat)
    requires Owned(sb, t, owner) && t.tj == 0 && i < |t.inodes|
    requires forall j :: 0 <= j <= NDIRECT < |t.inodes[i].addrs| ==> t.inodes[i].addrs[j] == 0
    ensures Dense(t, i, 0)
    ensures forall b: nat :: b in owner ==> owner[b].Meta? || owner[b].inum != i
  {
    TableFacts(sb, t, owner, i);
    forall bn: nat | bn < MAXFILE
      ensures t.At(i, bn) == 0
    {
    }
    forall b: nat | b in owner && !owner[b].Meta?
      ensures owner[b].inum != i
    {
      assert b >= sb.nmeta;
    }
  }

  /** An inode's size is no part of its addresses. */
  lemma {:induction false} SizeChanged(t: Tables, i: nat, size: nat)
    requires i < |t.inodes| && t.Shaped()
    ensures Changed(t, t.(inodes := t.inodes[i := t.inodes[i].(size := size)]), Meta, 0)
  {
  }

  lemma {:induction false} SizeKeeps(sb: Super, t: Tables, owner: map<nat, Owner>, t': Tables, i: nat, reach: nat)
    requires Owned(sb, t, owner) && i < |t.inodes| && Dense(t, i, reach) && reach <= MAXBYTES
    requires Changed(t, t', Meta, 0) && HighSame(sb, t.store, t'.store)
    requires forall k :: 0 <= k < |t.inodes| == |t'.inodes| && k != i ==> t'.inodes[k] == t.inodes[k]
    ensures Owned(sb, t', owner) && Dense(t', i, reach) && Contents(t', i, reach) == Contents(t, i, reach)
    ensures Others(t, t', i)
  {
    SameKeepsOwned(sb, t, owner, t');
    assert |t'.store| == |t.store|;
    hide Owned, Tables.At, Tables.Table, Marked;
    DenseSame(t, t', i, reach);
    forall k: nat, p: nat | k < |t.inodes| && p / BSIZE < MAXFILE && t.At(k, p / BSIZE) != 0
      ensures ByteAt(t', k, p) == ByteAt(t, k, p)
    {
      PlaceFacts(sb, t, owner, k, p / BSIZE);
    }
    forall p: nat | p < reach
      ensures ByteAt(t', i, p) == ByteAt(t, i, p)
    {
      DenseByte(t, i, reach, p);
    }
    hide ByteAt;
  }

  lemma {:induction false} DenseByte(t: Tables, i: nat, reach: nat, p: nat)
    requires Dense(t, i, reach) && p < reach <= MAXBYTES
    ensures p / BSIZE < MAXFILE && t.At(i, p / BSIZE) != 0
  {
    hide Tables.At, Tables.Table;
    assert p / BSIZE * BSIZE <= p;
  }

  /** Data, indirect blocks and the free map are the same. */
  ghost predicate HighSame(sb: Super, store: seq<Block>, store': seq<Block>) {
    && |store'| == |store|
    && (forall x: nat :: sb.nmeta <= x < |store| ==> store'[x] == store[x])
    && forall x: nat :: x < sb.size ==> (Marked(sb, store', x) <==> Marked(sb, store, x))
  }

  lemma {:induction false} HighFree(sb: Super, store: seq<Block>, store': seq<Block>)
    requires HighSame(sb, store, store')
    ensures Free(sb, store') == Free(sb, store)
  {
    hide Marked;
    FreeSame(sb, store, store', sb.size);
  }

  /** Storing an inode moves no address. */
  lemma {:induction false} InodeUpdate(sb: Super, t: Tables, owner: map<nat, Owner>, i: nat, size: nat, x: nat,
                                       data: Block)
    requires Owned(sb, t, owner) && i < |t.inodes| && x < sb.bmapstart
    ensures x < |t.store|
    ensures var t' := t.(store := t.store[x := data], inodes := t.inodes[i := t.inodes[i].(size := size)]);
            Changed(t, t', Meta, 0) && HighSame(sb, t.store, t'.store)
  {
    assert t.Shaped() && Layout(sb, |t.store|);
    LayoutOrder(sb, |t.store|);
    LowIsHigh(sb, t.store, x, data);
    hide HighSame, Layout, Marked, Slot;
    var t1 := t.(inodes := t.inodes[i := t.inodes[i].(size := size)]);
    SizeChanged(t, i, size);
    SameKeepsOwned(sb, t, owner, t1);
    LowTables(sb, t1, owner, x, data);
    StoreChanged(sb, t1, owner, t.store[x := data]);
    hide Tables.At, Tables.Table, Owned;
  }

  lemma {:induction false} LowIsHigh(sb: Super, store: seq<Block>, x: nat, data: Block)
    requires Layout(sb, |store|) && x < sb.bmapstart && x < |store|
    ensures HighSame(sb, store, store[x := data])
  {
    LayoutOrder(sb, |store|);
    hide MarkedIn;
  }

  lemma {:induction false} LowTables(sb: Super, t: Tables, owner: map<nat, Owner>, x: nat, data: Block)
    requires Owned(sb, t, owner) && x < sb.bmapstart
    ensures x < |t.store| && SameTables(t.store, t.store[x := data], owner)
  {
    assert Layout(sb, |t.store|) && MapAgrees(sb, t.store, owner);
    LayoutOrder(sb, |t.store|);
    hide Marked, Slot;
  }

  /** A data block lies behind the metadata. */
  lemma {:induction false} DataBlock(sb: Super, t: Tables, owner: map<nat, Owner>, i: nat, bn: nat)
    requires Owned(sb, t, owner) && i < |t.inodes| && bn < MAXFILE && t.At(i, bn) != 0
    ensures sb.inodestart <= sb.bmapstart <= t.At(i, bn) < |t.store|
  {
    PlaceFacts(sb, t, owner, i, bn);
    TableFacts(sb, t, owner, i);
    LayoutOrder(sb, |t.store|);
  }

  /** The inodes in memory are those in the inode blocks. */
  ghost predicate OnDisk(sb: Super, store: seq<Block>, inodes: seq<Inode>) {
    forall i: nat :: i < |inodes| ==> DiskInode(sb, store, i) == inodes[i]
  }

  lemma {:induction false} SameLow(sb: Super, store: seq<Block>)
    ensures LowSame(sb, store, store)
  {
  }

  lemma {:induction false} LowOnDisk(sb: Super, store: seq<Block>, store': seq<Block>, inodes: seq<Inode>)
    requires LowSame(sb, store, store') && InodesFit(sb, |inodes|) && OnDisk(sb, store, inodes)
    ensures OnDisk(sb, store', inodes)
  {
    hide DecodeInode;
    forall i: nat | i < |inodes|
      ensures DiskInode(sb, store', i) == inodes[i]
    {
      assert DiskInode(sb, store, i) == inodes[i] && IBlock(sb, i) < sb.bmapstart;
    }
  }

  lemma {:induction false} OtherInodes(t: Tables, t': Tables, i: nat)
    requires Others(t, t', i)
    ensures |t'.inodes| == |t.inodes| && forall k: nat :: k < |t.inodes| && k != i ==> t'.inodes[k] == t.inodes[k]
  {
    hide Tables.At, Tables.Table, ByteAt;
    forall k: nat | k < |t.inodes| && k != i
      ensures t'.inodes[k] == t.inodes[k]
    {
      assert SameFile(t, t', k);
    }
  }

  lemma {:induction false} UpdateOnDisk(sb: Super, store: seq<Block>, inodes: seq<Inode>, inodes': seq<Inode>, i: nat)
    requires OnDisk(sb, store, inodes) && i < |inodes| == |inodes'| && IBlock(sb, i) < |store|
    requires forall k: nat :: k < |inodes| && k != i ==> inodes'[k] == inodes[k]
    requires inodes'[i].size < U32 && |inodes'[i].addrs| == NDIRECT + 1
    ensures OnDisk(sb, store[IBlock(sb, i) := PutInode(store[IBlock(sb, i)], i, inodes'[i])], inodes')
  {
    hide DecodeInode, PutInode;
    var x := IBlock(sb, i);
    var store' := store[x := PutInode(store[x], i, inodes'[i])];
    forall k: nat | k < |inodes'|
      ensures DiskInode(sb, store', k) == inodes'[k]
    {
      assert DiskInode(sb, store, k) == inodes[k];
      InodeRoundTrip(store[x], i, inodes'[i], k);
      OneBlock(sb, i, k);
    }
  }

  lemma {:induction false} OneBlock(sb: Super, i: nat, k: nat)
    ensures IBlock(sb, i) == IBlock(sb, k) && i % IPB == k % IPB ==> i == k
  {
  }

  /** What Others keeps of another file that is dense. */
  lemma {:induction false} OtherIsDense(t: Tables, t': Tables, i: nat, k: nat)
    requires Others(t, t', i) && k < |t.inodes| && k != i
    requires t.inodes[k].size <= MAXBYTES && Dense(t, k, t.inodes[k].size)
    ensures k < |t'.inodes| && t'.inodes[k] == t.inodes[k] && Dense(t', k, t.inodes[k].size)
    ensures Contents(t', k, t.inodes[k].size) == Contents(t, k, t.inodes[k].size)
  {
    assert SameFile(t, t', k);
    hide Tables.At, Tables.Table, ByteAt;
    forall p: nat | p < t.inodes[k].size
      ensures ByteAt(t', k, p) == ByteAt(t, k, p)
    {
      assert p / BSIZE < MAXFILE && p / BSIZE * BSIZE <= p;
    }
  }

  lemma {:induction false} SameFiles(t: Tables, i: nat)
    ensures Others(t, t, i)
  {
    hide Tables.At, Tables.Table, ByteAt;
  }

  lemma {:induction false} DenseMapped(t: Tables, i: nat, reach: nat, bn: nat)
    requires Dense(t, i, reach) && bn < MAXFILE && bn * BSIZE < reach
    ensures t.At(i, bn) != 0 && (bn < NDIRECT || t.Table(i) != 0)
  {
    hide Tables.At, Tables.Table;
  }

  lemma {:induction false} GrownSizes(t: Tables, owner: map<nat, Owner>, t': Tables, owner': map<nat, Owner>,
                                      i: nat, bn: nat, a: uint32)
    requires Grown(t, owner, t', owner', i, bn, a) && i < |t.inodes|
    ensures i < |t'.inodes| && t'.inodes[i].size == t.inodes[i].size
  {
    hide Tables.At;
  }

  // ---- What a write costs ------------------------------------------------------------------------

  /** Data blocks of a file of len bytes. */
  function BlocksFor(len: nat): nat { (len + BSIZE - 1) / BSIZE }

  /** All blocks of a file of len bytes, its indirect block included. */
  function Used(len: nat): nat { BlocksFor(len) + if len > NDIRECT * BSIZE then 1 else 0 }

  /** Places of a file of len bytes behind its indirect block. */
  function Slots(len: nat): nat { if len > NDIRECT * BSIZE then BlocksFor(len) - NDIRECT else 0 }

  lemma {:induction false} UsedGrows(a: nat, b: nat)
    requires a <= b
    ensures Used(a) <= Used(b) && BlocksFor(a) <= BlocksFor(b) && Slots(a) <= Slots(b)
  {
  }

  lemma {:induction false} BlocksForFacts(len: nat)
    ensures forall q: nat :: q < BlocksFor(len) <==> q * BSIZE < len
    ensures len > 0 ==> BlocksFor(len) == (len - 1) / BSIZE + 1
  {
    forall q: nat
      ensures q < BlocksFor(len) <==> q * BSIZE < len
    {
    }
  }

  /** A chunk within block bn ends in it. */
  lemma {:induction false} ChunkEnds(off: nat, m: nat)
    requires 1 <= m && off % BSIZE + m <= BSIZE
    ensures BlocksFor(off + m) == off / BSIZE + 1
    ensures off + m > NDIRECT * BSIZE <==> off / BSIZE >= NDIRECT
  {
  }

  lemma {:induction false} MaxFacts(size: nat, a: nat, b: nat)
    ensures a <= b ==> Max(size, a) <= Max(size, b)
    ensures size <= Max(size, a)
  {
  }

  predicate Aligned(off: nat) { off % BSIZE == 0 }

  /** A chunk ends where the data ends or at the end of a block. */
  lemma {:induction false} ChunkEndsOrAligned(off: nat, left: nat)
    requires left > 0
    ensures var m := ChunkLen(off, left); m == left || Aligned(off + m)
  {
  }

  /** No place of file i that had a block has another one now. */
  ghost predicate PlacesStay(t: Tables, t': Tables, i: nat) {
    && (forall q: nat :: q < MAXFILE && t.At(i, q) != 0 ==> t'.At(i, q) == t.At(i, q))
    && (t.Table(i) != 0 ==> t'.Table(i) == t.Table(i))
  }

  /** The places of bmap stay where they are when the block it returned is written. */
  lemma {:induction false} ChunkPlaces(sb: Super, t: Tables, owner: map<nat, Owner>, t1: Tables,
                                       owner1: map<nat, Owner>,
                                       i: nat, bn: nat, a: uint32, d: Block)
    requires Owned(sb, t1, owner1) && Grown(t, owner, t1, owner1, i, bn, a)
    requires i < |t.inodes| && bn < MAXFILE && a == t1.At(i, bn) && a != 0
    ensures a < |t1.store|
    ensures var t2 := t1.(store := t1.store[a := d]);
            && PlacesStay(t, t2, i) && BmapLogs(sb, t, t2, i, bn) == BmapLogs(sb, t, t1, i, bn)
            && t2.At(i, bn) == a && Free(sb, t2.store) == Free(sb, t1.store)
  {
    hide Owned, Slot;
    PlaceFacts(sb, t1, owner1, i, bn);
    TableFacts(sb, t1, owner1, i);
    StoreChanged(sb, t1, owner1, t1.store[a := d]);
    WriteFree(sb, t1.store, a, d);
    hide Tables.At, Tables.Table, Free;
  }

  /** Blocks of file i at places lo to hi, and the bitmap blocks of those past size. */
  ghost function Touched(sb: Super, t: Tables, i: nat, size: nat, lo: nat, hi: nat): set<nat> {
    if hi <= lo then {}
    else
      Touched(sb, t, i, size, lo, hi - 1) + {t.At(i, hi - 1) as nat}
      + if (hi - 1) * BSIZE >= size then {BBlock(sb, t.At(i, hi - 1))} else {}
  }

  /** Why a block is logged: see Touched; or it is the indirect block, or that block's bitmap block if it is new. */
  ghost predicate Explained(sb: Super, t: Tables, i: nat, size: nat, lo: nat, hi: nat, x: nat) {
    || x in Touched(sb, t, i, size, lo, hi)
    || (t.Table(i) != 0 && (x == t.Table(i) || (size <= NDIRECT * BSIZE && x == BBlock(sb, t.Table(i)))))
  }

  /** How often a write of the bytes from off0 to off calls log_write, up to its last block. */
  function Calls(size: nat, off0: nat, off: nat): int {
    (if off == off0 then 0 else BlocksFor(off) - off0 / BSIZE)
    + 2 * (Used(Max(size, off)) - Used(size)) + Slots(Max(size, off)) - Slots(size)
  }

  lemma {:induction false} CallsGrow(t: Tables, i: nat, size: nat, off0: nat, off: nat, m: nat)
    requires Dense(t, i, Max(size, off)) && off0 <= off && off0 <= size && (off == off0 || off % BSIZE == 0)
    requires 1 <= m && off % BSIZE + m <= BSIZE && off + m <= MAXBYTES
    ensures Calls(size, off0, off + m)
            == Calls(size, off0, off) + 1 + 2 * Needs(t, i, off / BSIZE)
               + if t.At(i, off / BSIZE) == 0 && off / BSIZE >= NDIRECT then 1 else 0
  {
    ChunkNeeds(t, i, Max(size, off), off, m);
    ChunkEnds(off, m);
    BlocksForAt(off, off / BSIZE);
    assert Max(Max(size, off), off + m) == Max(size, off + m);
    hide Tables.At, Tables.Table, Used, Slots, BlocksFor, Needs;
  }

  lemma {:induction false} TouchedStays(sb: Super, t: Tables, t': Tables, i: nat, size: nat, lo: nat, hi: nat)
    requires forall q: nat :: lo <= q < hi ==> t'.At(i, q) == t.At(i, q)
    ensures Touched(sb, t', i, size, lo, hi) == Touched(sb, t, i, size, lo, hi)
  {
    hide Tables.At;
    if lo < hi {
      TouchedStays(sb, t, t', i, size, lo, hi - 1);
    }
  }

  lemma {:induction false} TouchedGrows(sb: Super, t: Tables, i: nat, size: nat, lo: nat, hi: nat, more: nat)
    requires hi <= more
    ensures Touched(sb, t, i, size, lo, hi) <= Touched(sb, t, i, size, lo, more)
    decreases more
  {
    hide Tables.At;
    if hi < more {
      TouchedGrows(sb, t, i, size, lo, hi, more - 1);
    }
  }

  lemma {:induction false} ExplainedStays(sb: Super, t: Tables, t': Tables, i: nat, size: nat, off0: nat, off: nat,
                                          more: nat, x: nat)
    requires Dense(t, i, Max(size, off)) && PlacesStay(t, t', i) && off <= MAXBYTES && BlocksFor(off) <= more
    requires Explained(sb, t, i, size, off0 / BSIZE, BlocksFor(off), x)
    ensures Explained(sb, t', i, size, off0 / BSIZE, more, x)
  {
    var lo, hi := off0 / BSIZE, BlocksFor(off);
    BlocksForFacts(off);
    hide Tables.At, Tables.Table, Touched, BlocksFor;
    forall q: nat | lo <= q < hi
      ensures t'.At(i, q) == t.At(i, q)
    {
      assert q * BSIZE < off;
      assert t.At(i, q) != 0;
    }
    TouchedStays(sb, t, t', i, size, lo, hi);
    TouchedGrows(sb, t', i, size, lo, hi, more);
  }

  /** Each block that one turn of the loop logs has its reason. */
  lemma {:induction false} ExplainedNew(sb: Super, t: Tables, t': Tables, i: nat, size: nat, lo: nat, off: nat, k: nat)
    requires Dense(t, i, Max(size, off)) && lo <= off / BSIZE < MAXFILE
    requires off / BSIZE >= NDIRECT ==> t'.Table(i) != 0
    requires k <= |BmapLogs(sb, t, t', i, off / BSIZE)|
    ensures var bn := off / BSIZE;
            Explained(sb, t', i, size, lo, bn + 1, (BmapLogs(sb, t, t', i, bn) + [t'.At(i, bn)])[k])
  {
    var bn := off / BSIZE;
    assert bn * BSIZE <= off;
    assert t.At(i, bn) == 0 ==> bn * BSIZE >= size;
    assert t.Table(i) == 0 ==> size <= NDIRECT * BSIZE;
    hide Tables.At, Tables.Table, Dense;
    assert t'.At(i, bn) in Touched(sb, t', i, size, lo, bn + 1);
    assert bn * BSIZE >= size ==> BBlock(sb, t'.At(i, bn)) in Touched(sb, t', i, size, lo, bn + 1);
    hide Touched;
  }

  lemma {:induction false} BmapLogsLength(sb: Super, t: Tables, t': Tables, i: nat, bn: nat)
    ensures |BmapLogs(sb, t, t', i, bn)|
            == 2 * Needs(t, i, bn) + if t.At(i, bn) == 0 && bn >= NDIRECT then 1 else 0
  {
    hide Tables.At, Tables.Table;
  }

  lemma {:induction false} RecordGrows(sb: Super, t: Tables, t': Tables, i: nat, size: nat, off0: nat, off: nat, m: nat,
                                       l0: seq<nat>, l: seq<nat>, l': seq<nat>)
    requires Dense(t, i, Max(size, off)) && Dense(t', i, Max(size, off + m)) && PlacesStay(t, t', i)
    requires off0 <= off && off0 <= size && (off == off0 || off % BSIZE == 0)
    requires 1 <= m && off % BSIZE + m <= BSIZE && off + m <= MAXBYTES
    requires l0 <= l && |l| == |l0| + Calls(size, off0, off)
    requires forall k :: |l0| <= k < |l| ==> Explained(sb, t, i, size, off0 / BSIZE, BlocksFor(off), l[k])
    requires l' == l + BmapLogs(sb, t, t', i, off / BSIZE) + [t'.At(i, off / BSIZE)]
    ensures l0 <= l' && |l'| == |l0| + Calls(size, off0, off + m)
    ensures forall k :: |l0| <= k < |l'| ==> Explained(sb, t', i, size, off0 / BSIZE, BlocksFor(off + m), l'[k])
  {
    var bn, logs := off / BSIZE, BmapLogs(sb, t, t', i, off / BSIZE);
    CallsGrow(t, i, size, off0, off, m);
    BmapLogsLength(sb, t, t', i, bn);
    ChunkEnds(off, m);
    UsedGrows(off, off + m);
    TableThere(t', i, size, off, m);
    hide Dense, PlacesStay, Explained, Calls, BmapLogs, BlocksFor, Needs, Tables.At, Tables.Table;
    forall k | |l0| <= k < |l'|
      ensures Explained(sb, t', i, size, off0 / BSIZE, BlocksFor(off + m), l'[k])
    {
      if k < |l| {
        ExplainedStays(sb, t, t', i, size, off0, off, BlocksFor(off + m), l[k]);
      } else {
        ExplainedNew(sb, t, t', i, size, off0 / BSIZE, off, k - |l|);
        assert l'[k] == (logs + [t'.At(i, bn)])[k - |l|];
      }
    }
  }

  lemma {:induction false} TableThere(t: Tables, i: nat, size: nat, off: nat, m: nat)
    requires Dense(t, i, Max(size, off + m)) && 1 <= m && off % BSIZE + m <= BSIZE && off + m <= MAXBYTES
    ensures off / BSIZE >= NDIRECT ==> t.Table(i) != 0
    ensures off / BSIZE < MAXFILE
  {
    hide Tables.At, Tables.Table;
    ChunkEnds(off, m);
  }

  /** What one turn of the loop needs is what the file grows by. */
  lemma {:induction false} ChunkNeeds(t: Tables, i: nat, reach: nat, off: nat, m: nat)
    requires Dense(t, i, reach) && off <= reach && 1 <= m && off % BSIZE + m <= BSIZE && off + m <= MAXBYTES
    ensures Used(Max(reach, off + m)) == Used(reach) + Needs(t, i, off / BSIZE)
    ensures Slots(Max(reach, off + m))
            == Slots(reach) + (if t.At(i, off / BSIZE) == 0 && off / BSIZE >= NDIRECT then 1 else 0)
  {
    var bn := off / BSIZE;
    Places(off, m, off);
    BlocksForFacts(reach);
    ChunkEnds(off, m);
    hide Tables.At, Tables.Table, BlocksFor;
    assert t.At(i, bn) != 0 <==> bn * BSIZE < reach;
    if t.At(i, bn) == 0 {
      assert off == reach && off == bn * BSIZE;
    }
    assert Max(reach, off + m) == reach || Max(reach, off + m) == off + m;
    BlocksForAt(reach, bn);
    UsedGrows(off + m, Max(reach, off + m));
    UsedGrows(reach, Max(reach, off + m));
  }

  lemma {:induction false} BlocksForAt(reach: nat, bn: nat)
    ensures reach == bn * BSIZE ==> BlocksFor(reach) == bn
    ensures reach > bn * BSIZE ==> BlocksFor(reach) >= bn + 1
  {
  }

  /** The bytes filewrite gives to one operation: ((MAXOPBLOCKS-1-1-2) / 2) * 512. */
  const CHUNK: nat := (GroupCommit.MAXOPBLOCKS - 1 - 1 - 2) / 2 * 512

  function Blocks(l: seq<nat>): set<nat> { set x | x in l }

  lemma {:induction false} TouchedSize(sb: Super, t: Tables, i: nat, size: nat, lo: nat, hi: nat)
    requires lo <= hi
    ensures |Touched(sb, t, i, size, lo, hi)| <= if lo * BSIZE < size && lo < hi then 2 * (hi - lo) - 1
            else 2 * (hi - lo)
    decreases hi
  {
    hide Tables.At;
    if lo < hi {
      TouchedSize(sb, t, i, size, lo, hi - 1);
      var a, b := Touched(sb, t, i, size, lo, hi - 1), {t.At(i, hi - 1) as nat};
      var c := if (hi - 1) * BSIZE >= size then {BBlock(sb, t.At(i, hi - 1))} else {};
      assert |a + b| <= |a| + |b| && |(a + b) + c| <= |a + b| + |c|;
    }
  }

  /** A chunk spans at most four blocks, and of four the first is there already. */
  lemma {:induction false} ChunkSpan(off0: nat, off: nat, size: nat)
    requires off0 <= size && off0 <= off <= off0 + CHUNK
    ensures var lo, hi := off0 / BSIZE, BlocksFor(off); lo <= hi <= lo + 4 && (hi == lo + 4 ==> lo * BSIZE < size)
  {
  }

  /** The log_writes of a write of n bytes at off0 to a file of that size: so many, and for a chunk few blocks. */
  ghost predicate LogGrew(l0: seq<nat>, l: seq<nat>, size: nat, off0: nat, n: nat) {
    && l0 <= l && |l| - |l0| == Calls(size, off0, off0 + n) + (if n > 0 && off0 + n > size then 1 else 0)
    && (n <= CHUNK ==> |Blocks(l[|l0|..])| <= GroupCommit.MAXOPBLOCKS)
  }

  /** One chunk of filewrite keeps its operation within the blocks that begin_op reserves. */
  lemma {:induction false} WithinBudget(sb: Super, t: Tables, i: nat, size: nat, off0: nat, off: nat,
                                        l0: seq<nat>, l: seq<nat>, l': seq<nat>)
    requires off0 <= size && off0 <= off <= off0 + CHUNK && l0 <= l <= l' && |l'| <= |l| + 1
    requires forall k :: |l0| <= k < |l| ==> Explained(sb, t, i, size, off0 / BSIZE, BlocksFor(off), l[k])
    ensures |Blocks(l'[|l0|..])| <= GroupCommit.MAXOPBLOCKS
  {
    var lo, hi := off0 / BSIZE, BlocksFor(off);
    ChunkSpan(off0, off, size);
    TouchedSize(sb, t, i, size, lo, hi);
    var a := Touched(sb, t, i, size, lo, hi);
    var b := {t.Table(i) as nat, BBlock(sb, t.Table(i))};
    var c := if |l'| > |l| then {l'[|l|]} else {};
    hide Touched, Tables.At, Tables.Table, BlocksFor;
    assert |b| <= 2 && |a + b| <= |a| + |b| && |(a + b) + c| <= |a + b| + |c|;
    forall x | x in Blocks(l'[|l0|..])
      ensures x in a + b + c
    {
      var k :| 0 <= k < |l'[|l0|..]| && l'[|l0|..][k] == x;
      var j := |l0| + k;
      assert l'[j] == x;
      if j < |l| {
        assert l[j] == x && Explained(sb, t, i, size, lo, hi, l[j]);
      }
    }
    Subset(Blocks(l'[|l0|..]), a + b + c);
  }

  lemma {:induction false} Subset(a: set<nat>, b: set<nat>)
    requires a <= b
    ensures |a| <= |b|
  {
    assert b == a + (b - a);
  }

  /** It calls log_write up to sixteen times for them. */
  lemma {:induction false} CallsBound(size: nat, off0: nat, off: nat)
    requires off0 <= size && off0 <= off <= off0 + CHUNK
    ensures Calls(size, off0, off) + 1 <= 16
  {
    ChunkSpan(off0, off, size);
    BlocksClose(size, Max(size, off));
    hide BlocksFor;
  }

  lemma {:induction false} BlocksClose(a: nat, b: nat)
    requires a <= b <= a + CHUNK
    ensures BlocksFor(a) <= BlocksFor(b) <= BlocksFor(a) + 3
    ensures a > NDIRECT * BSIZE ==> BlocksFor(a) > NDIRECT
    ensures a <= NDIRECT * BSIZE ==> BlocksFor(a) <= NDIRECT
    ensures b > NDIRECT * BSIZE ==> BlocksFor(b) > NDIRECT
  {
  }

  /** Sixteen it is, more than MAXOPBLOCKS, when the chunk starts just before the end of the direct blocks. */
  lemma {:induction false} ChunkIsNotFrugal()
    ensures var off: nat := NDIRECT * BSIZE - 1; Calls(off, off, off + CHUNK) + 1 == 16 > GroupCommit.MAXOPBLOCKS
  {
    var off: nat := NDIRECT * BSIZE - 1;
    assert BlocksFor(off) == 12 && BlocksFor(off + CHUNK) == 15 && off / BSIZE == 11;
  }

  // ---- One turn of the loops of readi and writei --------------------------------------------------

  /** The place of byte p, and where a chunk at off that stays within one block puts it. */
  lemma {:induction false} Places(off: nat, m: nat, p: nat)
    requires off % BSIZE + m <= BSIZE
    ensures off / BSIZE * BSIZE <= off < (off / BSIZE + 1) * BSIZE
    ensures off + m <= (off / BSIZE + 1) * BSIZE
    ensures p / BSIZE == off / BSIZE ==> p - off == p % BSIZE - off % BSIZE
    ensures off <= p < off + m ==> p / BSIZE == off / BSIZE
  {
    if off <= p < off + m {
      assert p == off / BSIZE * BSIZE + (off % BSIZE + (p - off));
    }
  }

  /** Dense files grow at their end only: either the place is mapped already, or it is the next one. */
  lemma {:induction false} DenseGrows(t: Tables, owner: map<nat, Owner>, t': Tables, owner': map<nat, Owner>,
                                      i: nat, a: uint32, reach: nat, off: nat, m: nat)
    requires i < |t.inodes| && off <= reach && 1 <= m && off % BSIZE + m <= BSIZE && off + m <= MAXBYTES
    requires Dense(t, i, reach) && Grown(t, owner, t', owner', i, off / BSIZE, a) && a != 0
    ensures Dense(t', i, Max(reach, off + m))
    ensures t.At(i, off / BSIZE) == 0 ==> off == reach && off % BSIZE == 0
  {
    Places(off, m, 0);
    hide Tables.At, Tables.Table;
    var bn := off / BSIZE;
    assert bn < MAXFILE;
    forall q: nat | q < MAXFILE
      ensures t'.At(i, q) != 0 <==> q * BSIZE < Max(reach, off + m)
    {
      assert t.At(i, q) != 0 <==> q * BSIZE < reach;
    }
    assert t.At(i, bn) != 0 <==> bn * BSIZE < reach;
  }

  /** Writing block a changes the bytes of the place that owns a and no other byte of any file. */
  lemma {:induction false} BytesOfWrite(sb: Super, t: Tables, owner: map<nat, Owner>, i: nat, bn: nat, d: Block,
                                        k: nat, p: nat)
    requires Owned(sb, t, owner) && i < |t.inodes| && bn < MAXFILE && t.At(i, bn) != 0
    requires k < |t.inodes| && p / BSIZE < MAXFILE && t.At(k, p / BSIZE) != 0
    ensures t.At(i, bn) < |t.store|
    ensures ByteAt(t.(store := t.store[t.At(i, bn) := d]), k, p)
            == if k == i && p / BSIZE == bn then d[p % BSIZE] else ByteAt(t, k, p)
  {
    hide Owned, Slot;
    PlaceFacts(sb, t, owner, i, bn);
    PlaceFacts(sb, t, owner, k, p / BSIZE);
    StoreChanged(sb, t, owner, t.store[t.At(i, bn) := d]);
    hide Tables.At;
  }

  lemma {:induction false} BytesOfGrown(sb: Super, t: Tables, owner: map<nat, Owner>, t': Tables,
                                        owner': map<nat, Owner>,
                                        i: nat, bn: nat, a: uint32, k: nat, p: nat)
    requires Owned(sb, t, owner) && Grown(t, owner, t', owner', i, bn, a) && i < |t.inodes| && bn < MAXFILE
    requires k < |t.inodes| && p / BSIZE < MAXFILE && t.At(k, p / BSIZE) != 0
             && (k == i && p / BSIZE == bn ==> a == t.At(i, bn))
    ensures ByteAt(t', k, p) == ByteAt(t, k, p)
  {
    hide Owned, Slot;
    PlaceFacts(sb, t, owner, k, p / BSIZE);
    hide Tables.At;
  }

  /** File k has the same places and the same bytes. */
  ghost predicate SameFile(t: Tables, t': Tables, k: nat) {
    && k < |t.inodes| == |t'.inodes| && t'.inodes[k] == t.inodes[k]
    && t'.Table(k) == t.Table(k)
    && (forall bn: nat :: bn < MAXFILE ==> t'.At(k, bn) == t.At(k, bn))
    && (forall p: nat :: p / BSIZE < MAXFILE && t.At(k, p / BSIZE) != 0 ==> ByteAt(t', k, p) == ByteAt(t, k, p))
  }

  ghost predicate Others(t: Tables, t': Tables, i: nat) {
    |t'.inodes| == |t.inodes| && forall k: nat :: k < |t.inodes| && k != i ==> SameFile(t, t', k)
  }

  lemma {:induction false} OthersTransitive(t: Tables, t1: Tables, t2: Tables, i: nat)
    requires Others(t, t1, i) && Others(t1, t2, i)
    ensures Others(t, t2, i)
  {
    forall k: nat | k < |t.inodes| && k != i
      ensures SameFile(t, t2, k)
    {
      assert SameFile(t, t1, k) && SameFile(t1, t2, k);
      hide Tables.At, Tables.Table, ByteAt;
    }
  }

  /** bmap and a write to the block it returned leave every other file alone. */
  lemma {:induction false} ChunkKeepsOthers(sb: Super, t: Tables, owner: map<nat, Owner>, t1: Tables,
                                            owner1: map<nat, Owner>,
                                            i: nat, bn: nat, a: uint32, d: Block)
    requires Owned(sb, t, owner) && Owned(sb, t1, owner1) && Grown(t, owner, t1, owner1, i, bn, a)
    requires i < |t.inodes| && bn < MAXFILE && a == t1.At(i, bn) && a != 0
    ensures a < |t1.store| && Others(t, t1.(store := t1.store[a := d]), i)
  {
    hide Owned, Slot;
    var t2 := t1.(store := t1.store[a := d]);
    PlaceFacts(sb, t1, owner1, i, bn);
    StoreChanged(sb, t1, owner1, t2.store);
    hide Tables.At, Tables.Table, ByteAt;
    forall k: nat | k < |t.inodes| && k != i
      ensures SameFile(t, t2, k)
    {
      forall p: nat | p / BSIZE < MAXFILE && t.At(k, p / BSIZE) != 0
        ensures ByteAt(t2, k, p) == ByteAt(t, k, p)
      {
        BytesOfGrown(sb, t, owner, t1, owner1, i, bn, a, k, p);
        BytesOfWrite(sb, t1, owner1, i, bn, d, k, p);
      }
    }
  }

  /** ... and write exactly the chunk into file i. */
  lemma {:induction false} ChunkContents(sb: Super, t: Tables, owner: map<nat, Owner>, t1: Tables,
                                         owner1: map<nat, Owner>,
                                         i: nat, a: uint32, reach: nat, off: nat, chunk: seq<byte>)
    requires Owned(sb, t, owner) && Owned(sb, t1, owner1) && Grown(t, owner, t1, owner1, i, off / BSIZE, a)
    requires i < |t.inodes| && off <= reach <= MAXBYTES && Dense(t, i, reach)
    requires 1 <= |chunk| && off % BSIZE + |chunk| <= BSIZE && off + |chunk| <= MAXBYTES
    requires a == t1.At(i, off / BSIZE) && a != 0
    ensures a < |t1.store|
    ensures var t2 := t1.(store := t1.store[a := BlockSplice(t1.store[a], off % BSIZE, chunk)]);
            && Dense(t2, i, Max(reach, off + |chunk|))
            && Contents(t2, i, Max(reach, off + |chunk|)) == Splice(Contents(t, i, reach), off, chunk)
  {
    hide Owned, Slot;
    var bn, m := off / BSIZE, |chunk|;
    var d := BlockSplice(t1.store[a], off % BSIZE, chunk);
    var t2 := t1.(store := t1.store[a := d]);
    DenseGrows(t, owner, t1, owner1, i, a, reach, off, m);
    PlaceFacts(sb, t1, owner1, i, bn);
    StoreChanged(sb, t1, owner1, t2.store);
    DenseSame(t1, t2, i, Max(reach, off + m));
    hide Tables.At, Tables.Table, Changed, Dense;
    hide ByteAt, Contents, Splice;
    forall p: nat | p < Max(reach, off + m)
      ensures ByteAt(t2, i, p) == if off <= p < off + m then chunk[p - off] else ByteAt(t, i, p)
    {
      ChunkByte(sb, t, owner, t1, owner1, i, a, reach, off, chunk, p);
    }
    ContentsIsSplice(t, t2, i, reach, off, chunk);
  }

  lemma {:induction false} ContentsIsSplice(t: Tables, t2: Tables, i: nat, reach: nat, off: nat, chunk: seq<byte>)
    requires off <= reach
    requires forall p: nat :: p < Max(reach, off + |chunk|) ==>
               ByteAt(t2, i, p) == if off <= p < off + |chunk| then chunk[p - off] else ByteAt(t, i, p)
    ensures Contents(t2, i, Max(reach, off + |chunk|)) == Splice(Contents(t, i, reach), off, chunk)
  {
    hide ByteAt;
  }

  lemma {:induction false} DenseSame(t: Tables, t': Tables, i: nat, reach: nat)
    requires Changed(t, t', Meta, 0) && i < |t.inodes| && Dense(t, i, reach)
    ensures Dense(t', i, reach)
  {
    hide Tables.At, Tables.Table;
  }

  lemma {:induction false} ChunkByte(sb: Super, t: Tables, owner: map<nat, Owner>, t1: Tables, owner1: map<nat, Owner>,
                                     i: nat, a: uint32, reach: nat, off: nat, chunk: seq<byte>, p: nat)
    requires Owned(sb, t, owner) && Owned(sb, t1, owner1) && Grown(t, owner, t1, owner1, i, off / BSIZE, a)
    requires i < |t.inodes| && off <= reach <= MAXBYTES && Dense(t, i, reach)
    requires 1 <= |chunk| && off % BSIZE + |chunk| <= BSIZE && off + |chunk| <= MAXBYTES
    requires a == t1.At(i, off / BSIZE) && a != 0 && a < |t1.store|
    requires p < Max(reach, off + |chunk|)
    ensures var t2 := t1.(store := t1.store[a := BlockSplice(t1.store[a], off % BSIZE, chunk)]);
            ByteAt(t2, i, p) == if off <= p < off + |chunk| then chunk[p - off] else ByteAt(t, i, p)
  {
    hide Owned, Slot;
    var bn, m := off / BSIZE, |chunk|;
    var d := BlockSplice(t1.store[a], off % BSIZE, chunk);
    Places(off, m, p);
    DenseGrows(t, owner, t1, owner1, i, a, reach, off, m);
    assert p / BSIZE < MAXFILE && p / BSIZE * BSIZE <= p;
    assert t1.At(i, p / BSIZE) != 0;
    BytesOfWrite(sb, t1, owner1, i, bn, d, i, p);
    if !(off <= p < off + m) {
      assert t.At(i, p / BSIZE) != 0;
      BytesOfGrown(sb, t, owner, t1, owner1, i, bn, a, i, p);
      assert p / BSIZE == bn ==> ByteAt(t1, i, p) == t1.store[a][p % BSIZE];
    }
  }

  lemma {:induction false} TableGrownTable(t: Tables, owner: map<nat, Owner>, t': Tables, i: nat)
    requires TableGrown(t, owner, t', i) && i < |t.inodes|
    ensures t'.Table(i) != 0 && |t'.inodes| == |t.inodes|
  {
    hide Tables.At;
  }

  lemma {:induction false} TableGrownAt(t: Tables, owner: map<nat, Owner>, t': Tables, i: nat, bn: nat)
    requires TableGrown(t, owner, t', i) && i < |t.inodes| && bn < MAXFILE
    ensures t'.At(i, bn) == t.At(i, bn)
  {
    hide Tables.At;
  }

  lemma {:induction false} TableGrownSame(sb: Super, t: Tables, owner: map<nat, Owner>, i: nat)
    requires Owned(sb, t, owner) && i < |t.inodes| && t.Table(i) != 0
    ensures TableGrown(t, owner, t, i)
  {
    hide Tables.At, Slot, Marked;
  }

  lemma {:induction false} GrownSame(sb: Super, t: Tables, owner: map<nat, Owner>, i: nat, bn: nat)
    requires Owned(sb, t, owner) && i < |t.inodes| && bn < MAXFILE && t.At(i, bn) != 0
    requires bn >= NDIRECT ==> t.Table(i) != 0
    ensures Grown(t, owner, t, owner, i, bn, t.At(i, bn))
  {
    PlaceFacts(sb, t, owner, i, bn);
    hide Tables.At, Slot, Marked;
  }

  lemma {:induction false} GrownAt(t: Tables, owner: map<nat, Owner>, t': Tables, owner': map<nat, Owner>,
                                   i: nat, bn: nat, a: uint32)
    requires Grown(t, owner, t', owner', i, bn, a) && i < |t.inodes| && bn < MAXFILE
    ensures t'.At(i, bn) == a
  {
    hide Tables.At;
  }

  lemma {:induction false} InBitmap(b: nat, q: nat, bi: nat)
    requires b == q * BPB && bi < BPB
    ensures (b + bi) / BPB == b / BPB == q && (b + bi) % BPB == bi
  {
  }
}
