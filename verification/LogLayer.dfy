/** The logging layer of log.c on top of the buffer cache: log_write, commit and recovery. */
module LogLayer {
  import opened LittleEndian
  import opened RedoLog
  import opened BufferCache

  /** Two clean buffers, or one when the home block sits pinned in a third. */
  ghost predicate Room(bufs: seq<Buf>, home: nat) {
    exists i :: 0 <= i < |bufs| && !bufs[i].dirty
      && (Pinned(bufs, home) || exists j :: 0 <= j < |bufs| && j != i && !bufs[j].dirty)
  }

  ghost predicate Lists(blocks: seq<uint32>, m: nat) {
    exists i :: 0 <= i < |blocks| && blocks[i] == m
  }

  /** The pinned blocks are the listed ones. */
  ghost predicate PinsAre(bufs: seq<Buf>, blocks: seq<uint32>) {
    forall m: nat :: Pinned(bufs, m) <==> Lists(blocks, m)
  }

  /** The pin of block b, if there was one, is gone and every other pin is there. */
  ghost predicate PinDropped(was: seq<Buf>, now: seq<Buf>, b: nat) {
    forall m: nat :: Pinned(now, m) <==> Pinned(was, m) && m != b
  }

  /** Blocks of the disk outside the log. */
  ghost predicate Homes(blocks: seq<uint32>, size: nat, area: Area) {
    forall i :: 0 <= i < |blocks| ==> blocks[i] < size && !area.Holds(blocks[i])
  }

  lemma {:induction false} PinsAfterDrop(was: seq<Buf>, now: seq<Buf>, b: nat, blocks: seq<uint32>)
    requires PinsAre(was, blocks) && PinDropped(was, now, b) && !Lists(blocks, b)
    ensures PinsAre(now, blocks)
  {
  }

  lemma {:induction false} NotHome(blocks: seq<uint32>, size: nat, area: Area, b: nat)
    requires Homes(blocks, size, area) && area.Holds(b)
    ensures !Lists(blocks, b)
  {
  }

  lemma {:induction false} PinsOfRest(was: seq<Buf>, now: seq<Buf>, blocks: seq<uint32>)
    requires blocks != [] && Distinct(blocks) && PinsAre(was, blocks) && PinDropped(was, now, blocks[0])
    ensures PinsAre(now, blocks[1..])
  {
    ListsTail(blocks);
  }

  lemma {:induction false} StillNoPins(was: seq<Buf>, now: seq<Buf>, b: nat)
    requires PinsAre(was, []) && PinDropped(was, now, b)
    ensures PinsAre(now, [])
  {
    forall m: nat
      ensures !Pinned(now, m) && !Lists([], m)
    {
      assert Pinned(was, m) <==> Lists([], m);
    }
  }

  lemma {:induction false} NoPins(bufs: seq<Buf>, i: nat)
    requires PinsAre(bufs, []) && i < |bufs|
    ensures !bufs[i].dirty
  {
    assert !Lists([], bufs[i].blockno);
    assert !Pinned(bufs, bufs[i].blockno);
  }

  lemma {:induction false} AtBoot(bufs: seq<Buf>, spec: seq<Block>)
    requires forall i: nat :: i < |bufs| ==> bufs[i].refcnt == 0 && !bufs[i].dirty && !bufs[i].valid
    ensures PinsAre(bufs, []) && Published(bufs, spec, {}) && Quiet(bufs, {})
  {
  }

  lemma {:induction false} AbsorbHomes(blocks: seq<uint32>, b: uint32, size: nat, area: Area)
    requires Homes(blocks, size, area) && b < size && !area.Holds(b)
    ensures Homes(Absorb(blocks, b), size, area)
  {
  }

  /** Pinning a buffer and listing its block go together. */
  lemma {:induction false} PinsAbsorb(was: seq<Buf>, now: seq<Buf>, b: nat, blocks: seq<uint32>, blockno: uint32)
    requires PinsAre(was, blocks) && b < |was| && was[b].blockno == blockno && now == was[b := was[b].(dirty := true)]
    ensures PinsAre(now, Absorb(blocks, blockno))
  {
    AddPin(was, now, b);
    AbsorbLists(blocks, blockno);
  }

  /** A list as long as the log or longer: write_log overwrites the first block behind the log. */
  lemma {:induction false} OverrunHits(d: seq<Block>, area: Area, data: seq<Block>)
    requires WellFormed(d, area) && area.size <= |data| && area.start + area.size < |d|
    ensures !area.Holds(area.start + area.size)
    ensures Apply(d, LogCopies(area, data))[area.start + area.size] == data[area.size - 1]
  {
    var copies := LogCopies(area, data);
    assert copies[area.size - 1] == Write(area.start + area.size, data[area.size - 1]);
    ApplyHit(d, copies, area.size - 1);
  }

  lemma {:induction false} ListsTail(blocks: seq<uint32>)
    requires blocks != [] && Distinct(blocks)
    ensures forall m: nat :: Lists(blocks[1..], m) <==> Lists(blocks, m) && m != blocks[0]
    ensures Lists(blocks, blocks[0])
  {
    forall m: nat | Lists(blocks, m) && m != blocks[0]
      ensures Lists(blocks[1..], m)
    {
      var i :| 0 <= i < |blocks| && blocks[i] == m;
      assert blocks[1..][i - 1] == m;
    }
  }

  /** log absorption: a block already logged is not listed twice. */
  function Absorb(blocks: seq<uint32>, b: uint32): seq<uint32> {
    if b in blocks then blocks else blocks + [b]
  }

  lemma {:induction false} AbsorbLists(blocks: seq<uint32>, b: uint32)
    ensures forall m: nat :: Lists(Absorb(blocks, b), m) <==> Lists(blocks, m) || m == b
  {
    var after := Absorb(blocks, b);
    assert b in blocks || after[|blocks|] == b;
    forall m: nat | Lists(blocks, m)
      ensures Lists(after, m)
    {
      var i :| 0 <= i < |blocks| && blocks[i] == m;
      assert after[i] == m;
    }
  }

  /** A buffer with the contents of block m as readers see them. */
  ghost predicate Has(b: Buf, spec: seq<Block>, m: nat) {
    m < |spec| && b.valid && b.dev == DISK && b.blockno == m && b.data == spec[m]
  }

  lemma {:induction false} NothingClaimed(bufs: seq<Buf>)
    ensures Claimed(bufs, {}, {})
  {
  }

  datatype LogResult = Logged | TooBig | OutsideTrans

  // ---- Small facts about buffers -------------------------------------------------------

  lemma {:induction false} SamePins(was: seq<Buf>, now: seq<Buf>, held: set<nat>)
    requires Undisturbed(was, now, held, {})
    ensures forall m: nat :: Pinned(now, m) <==> Pinned(was, m)
  {
    forall m: nat | Pinned(was, m)
      ensures Pinned(now, m)
    {
      var i :| 0 <= i < |was| && was[i].dirty && was[i].blockno == m;
      assert now[i].dirty && now[i].blockno == m;
    }
    forall m: nat | Pinned(now, m)
      ensures Pinned(was, m)
    {
      var i :| 0 <= i < |now| && now[i].dirty && now[i].blockno == m;
      assert was[i].dirty && was[i].blockno == m;
    }
  }

  lemma {:induction false} PinsStay(was: seq<Buf>, now: seq<Buf>, blocks: seq<uint32>)
    requires Undisturbed(was, now, {}, {}) && PinsAre(was, blocks)
    ensures PinsAre(now, blocks)
  {
    SamePins(was, now, {});
  }

  lemma {:induction false} BackedWithoutPins(bufs: seq<Buf>, disk: seq<Block>, spec: seq<Block>)
    requires Backed(bufs, disk, spec) && PinsAre(bufs, [])
    ensures spec == disk
  {
    forall m | 0 <= m < |disk|
      ensures spec[m] == disk[m]
    {
      assert !Lists([], m);
    }
  }

  lemma {:induction false} SamePinsDropped(was: seq<Buf>, mid: seq<Buf>, now: seq<Buf>, held: set<nat>, b: nat)
    requires Undisturbed(was, mid, held, {}) && PinDropped(mid, now, b)
    ensures PinDropped(was, now, b)
  {
    SamePins(was, mid, held);
  }

  /** With room in a quiet cache, giving out one buffer still leaves one for the home block. */
  lemma {:induction false} RoomForSecond(was: seq<Buf>, now: seq<Buf>, b: nat, home: nat, spec: seq<Block>)
    requires Undisturbed(was, now, {}, {}) && Quiet(now, {b}) && Room(was, home)
    requires forall i :: 0 <= i < |now| ==> Current(now[i], spec)
    ensures Caches(now, DISK, home) || CanRecycle(now)
  {
    if Pinned(was, home) {
      var i :| 0 <= i < |was| && was[i].dirty && was[i].blockno == home;
      assert Current(now[i], spec) && now[i].dirty;
      assert now[i].dev == DISK && now[i].blockno == home;
    } else {
      var i, j :| 0 <= i < |was| && 0 <= j < |was| && j != i && !was[i].dirty && !was[j].dirty;
      var k := if i == b then j else i;
      assert now[k].refcnt == 0 && !now[k].dirty;
    }
  }

  /** In a quiet cache a buffer that is not pinned can be recycled. */
  lemma {:induction false} CleanIsFree(bufs: seq<Buf>)
    requires Quiet(bufs, {}) && exists i :: 0 <= i < |bufs| && !bufs[i].dirty
    ensures CanRecycle(bufs)
  {
    var i :| 0 <= i < |bufs| && !bufs[i].dirty;
    assert bufs[i].refcnt == 0;
  }

  /** Clearing the dirty flag of one buffer drops exactly its pin, since no block is cached twice. */
  lemma {:induction false} DropPin(was: seq<Buf>, now: seq<Buf>, b: nat, spec: seq<Block>)
    requires Unpinned(was, now, b) && b < |was| && was[b].dev == DISK && Unique(was)
    requires forall i :: 0 <= i < |was| ==> Current(was[i], spec)
    ensures PinDropped(was, now, was[b].blockno)
  {
    forall m: nat | Pinned(was, m) && m != was[b].blockno
      ensures Pinned(now, m)
    {
      var i :| 0 <= i < |was| && was[i].dirty && was[i].blockno == m;
      assert now[i].dirty && now[i].blockno == m;
    }
    forall m: nat | Pinned(now, m)
      ensures Pinned(was, m) && m != was[b].blockno
    {
      var i :| 0 <= i < |now| && now[i].dirty && now[i].blockno == m;
      assert was[i].dirty && was[i].blockno == m;
      assert Current(was[i], spec);
    }
  }

  /** Distinct elements that all come from ys are no more than ys. */
  lemma {:induction false} Pigeonhole<T>(xs: seq<T>, ys: seq<T>)
    requires Distinct(xs) && forall i :: 0 <= i < |xs| ==> xs[i] in ys
    ensures |xs| <= |ys|
  {
    if xs != [] {
      var last := |xs| - 1;
      var k :| 0 <= k < |ys| && ys[k] == xs[last];
      var ys' := ys[..k] + ys[k + 1..];
      forall i | 0 <= i < last
        ensures xs[..last][i] in ys'
      {
        var j :| 0 <= j < |ys| && ys[j] == xs[i];
        assert ys'[if j < k then j else j - 1] == xs[i];
      }
      Pigeonhole(xs[..last], ys');
    }
  }

  /** Fewer pins than buffers leave a clean buffer. */
  lemma {:induction false} SomeClean(bufs: seq<Buf>, spec: seq<Block>, blocks: seq<uint32>)
    requires |blocks| < |bufs| && Unique(bufs)
    requires forall i :: 0 <= i < |bufs| ==> Current(bufs[i], spec)
    requires PinsAre(bufs, blocks)
    ensures exists i :: 0 <= i < |bufs| && !bufs[i].dirty
  {
    if forall i :: 0 <= i < |bufs| ==> bufs[i].dirty {
      var xs := seq(|bufs|, i requires 0 <= i < |bufs| => bufs[i].blockno);
      assert Distinct(xs) by {
        assert forall i :: 0 <= i < |bufs| ==> Current(bufs[i], spec);
      }
      forall i | 0 <= i < |xs|
        ensures xs[i] in blocks
      {
        assert Pinned(bufs, xs[i]);
      }
      Pigeonhole(xs, blocks);
    }
  }

  lemma {:induction false} RoomForLogged(bufs: seq<Buf>, spec: seq<Block>, blocks: seq<uint32>, home: nat)
    requires |blocks| < |bufs| && Unique(bufs) && Pinned(bufs, home)
    requires forall i :: 0 <= i < |bufs| ==> Current(bufs[i], spec)
    requires PinsAre(bufs, blocks)
    ensures Room(bufs, home)
  {
    SomeClean(bufs, spec, blocks);
  }

  /** As many pinned blocks as buffers leave nothing to recycle and nothing but pinned blocks cached. */
  lemma {:induction false} FullCache(bufs: seq<Buf>, spec: seq<Block>, blocks: seq<uint32>, b: nat)
    requires |blocks| == |bufs| && Distinct(blocks)
    requires PinsAre(bufs, blocks)
    requires forall k :: 0 <= k < |blocks| ==> blocks[k] != b
    ensures !CanRecycle(bufs) && !Caches(bufs, DISK, b)
  {
    forall c | 0 <= c < |bufs|
      ensures bufs[c].dirty
    {
      if !bufs[c].dirty {
        var ys := seq(|bufs| - 1, i requires 0 <= i < |bufs| - 1 => bufs[if i < c then i else i + 1].blockno);
        forall k | 0 <= k < |blocks|
          ensures blocks[k] in ys
        {
          assert Pinned(bufs, blocks[k]);
          var i :| 0 <= i < |bufs| && bufs[i].dirty && bufs[i].blockno == blocks[k];
          assert ys[if i < c then i else i - 1] == blocks[k];
        }
        Pigeonhole(blocks, ys);
      }
    }
    forall c | 0 <= c < |bufs|
      ensures bufs[c].blockno != b
    {
      assert Pinned(bufs, bufs[c].blockno);
    }
  }

  /** What readers see in a list of blocks. */
  function ContentsOf(spec: seq<Block>, blocks: seq<uint32>): (r: seq<Block>)
    requires forall i :: 0 <= i < |blocks| ==> blocks[i] < |spec|
    ensures |r| == |blocks|
  {
    seq(|blocks|, i requires 0 <= i < |blocks| => spec[blocks[i]])
  }

  lemma {:induction false} CopiesMissHeader(s: seq<Block>, area: Area, data: seq<Block>)
    requires area.start < |s|
    ensures Apply(s, LogCopies(area, data))[area.start] == s[area.start]
  {
    ApplyFrame(s, LogCopies(area, data), area.start);
  }

  lemma {:induction false} InstallsMissHeader(s: seq<Block>, area: Area, blocks: seq<uint32>, data: seq<Block>)
    requires WellFormed(s, area) && |blocks| == |data| && Homes(blocks, |s|, area)
    ensures Apply(s, Installs(blocks, data))[area.start] == s[area.start]
  {
    ApplyFrame(s, Installs(blocks, data), area.start);
  }

  lemma {:induction false} EmptyList(size: nat, area: Area)
    ensures Homes([], size, area) && Distinct<uint32>([])
  {
  }

  /** The state between the two header writes, in terms of the writes so far. */
  lemma {:induction false} AfterHeader(d0: seq<Block>, s0: seq<Block>, area: Area, tx: Tx, d: seq<Block>, s: seq<Block>)
    requires WellFormed(d0, area) && |s0| == |d0| && s0[area.start] == d0[area.start] && Loggable(d0, area, tx)
    requires var w := Write(area.start, PutHeader(s0[area.start], tx.blocks));
             d == Put(Apply(d0, LogCopies(area, tx.data)), w) && s == Put(Apply(s0, LogCopies(area, tx.data)), w)
    ensures d == Apply(d0, CommitFront(d0[area.start], area, tx))
            && s == Apply(s0, CommitFront(s0[area.start], area, tx))
    ensures LogData(s, area, |tx.data|) == tx.data && s[area.start] == PutHeader(s0[area.start], tx.blocks)
  {
    var copies := LogCopies(area, tx.data);
    assert CommitFront(s0[area.start], area, tx)[..|copies|] == copies;
    CopiesLand(s0, area, tx);
    assert LogData(s, area, |tx.data|) == LogData(Apply(s0, copies), area, |tx.data|);
  }

  lemma {:induction false} AddPin(was: seq<Buf>, now: seq<Buf>, b: nat)
    requires b < |was| && now == was[b := was[b].(dirty := true)]
    ensures forall m: nat :: Pinned(now, m) <==> Pinned(was, m) || m == was[b].blockno
  {
    assert now[b].dirty;
    forall m: nat | Pinned(was, m)
      ensures Pinned(now, m)
    {
      var i :| 0 <= i < |was| && was[i].dirty && was[i].blockno == m;
      assert now[i].dirty && now[i].blockno == m;
    }
    forall m: nat | Pinned(now, m) && m != was[b].blockno
      ensures Pinned(was, m)
    {
      var i :| 0 <= i < |now| && now[i].dirty && now[i].blockno == m;
      assert was[i].dirty && was[i].blockno == m;
    }
  }

  /** The disk with the transaction applied is what readers see. */
  lemma {:induction false} ViewOfTxn(d: seq<Block>, s: seq<Block>, area: Area, tx: Tx, bufs: seq<Buf>)
    requires Loggable(d, area, tx) && |s| == |d| && tx.data == ContentsOf(s, tx.blocks)
    requires Backed(bufs, d, s) && PinsAre(bufs, tx.blocks)
    ensures forall b: nat :: b < |d| ==> ApplyTx(d, tx)[b] == s[b]
  {
    forall b: nat | b < |d|
      ensures ApplyTx(d, tx)[b] == s[b]
    {
      TransactionEffect(d, area, tx, b);
      if i :| 0 <= i < |tx.blocks| && tx.blocks[i] == b {
        assert tx.data[i] == s[b];
      } else {
        assert !Pinned(bufs, b);
      }
    }
  }

  lemma {:induction false} ApplyOne(d: seq<Block>, ws: seq<Write>, w: Write)
    ensures Apply(d, ws + [w]) == Put(Apply(d, ws), w)
  {
    assert (ws + [w])[..|ws|] == ws;
  }

  /** Starting from disk d0, view s0 and writes w0, the state after some leading part of the writes ws. */
  ghost predicate Prefixed(w: seq<Write>, d: seq<Block>, s: seq<Block>,
                           d0: seq<Block>, s0: seq<Block>, w0: seq<Write>, ws: seq<Write>) {
    var k := |w| - |w0|;
    && 0 <= k <= |ws|
    && w == w0 + ws[..k] && d == Apply(d0, ws[..k]) && s == Apply(s0, ws[..k])
  }

  lemma {:induction false} PrefixNone(w0: seq<Write>, d0: seq<Block>, s0: seq<Block>, ws: seq<Write>)
    ensures Prefixed(w0, d0, s0, d0, s0, w0, ws)
  {
    assert ws[..0] == [] && w0 + [] == w0;
  }

  lemma {:induction false} PrefixFull(w: seq<Write>, d: seq<Block>, s: seq<Block>,
                                      d0: seq<Block>, s0: seq<Block>, w0: seq<Write>, ws: seq<Write>)
    requires w == w0 + ws && d == Apply(d0, ws) && s == Apply(s0, ws)
    ensures Prefixed(w, d, s, d0, s0, w0, ws)
  {
    assert ws[..|ws|] == ws;
  }

  lemma {:induction false} PrefixOfMore(w: seq<Write>, d: seq<Block>, s: seq<Block>,
                                        d0: seq<Block>, s0: seq<Block>, w0: seq<Write>, ws: seq<Write>,
                                            more: seq<Write>)
    requires Prefixed(w, d, s, d0, s0, w0, ws)
    ensures Prefixed(w, d, s, d0, s0, w0, ws + more)
  {
    var k := |w| - |w0|;
    assert (ws + more)[..k] == ws[..k];
  }

  /** Part of back after all of front is part of both together. */
  lemma {:induction false} PrefixAfter(w: seq<Write>, d: seq<Block>, s: seq<Block>,
                                       d0: seq<Block>, s0: seq<Block>, w0: seq<Write>, front: seq<Write>,
                                           back: seq<Write>)
    requires Prefixed(w, d, s, Apply(d0, front), Apply(s0, front), w0 + front, back)
    ensures Prefixed(w, d, s, d0, s0, w0, front + back)
  {
    var k := |w| - |w0 + front|;
    ApplyAppend(d0, front, back[..k]);
    ApplyAppend(s0, front, back[..k]);
    assert (front + back)[..|front| + k] == front + back[..k];
    assert (w0 + front) + back[..k] == w0 + (front + back[..k]);
  }

  lemma {:induction false} PrefixIssued(w: seq<Write>, d: seq<Block>, s: seq<Block>,
                                        d0: seq<Block>, s0: seq<Block>, w0: seq<Write>, ws: seq<Write>)
    requires Prefixed(w, d, s, d0, s0, w0, ws)
    ensures w0 <= w && |w| - |w0| <= |ws| && w[|w0|..] == ws[..|w| - |w0|]
  {
  }

  lemma {:induction false} StoppedPrefix(d: seq<Block>, ws: seq<Write>, m: nat, k: nat)
    requires m <= |ws| && (k <= m || m == |ws|)
    ensures Stopped(d, ws[..m], k) == Stopped(d, ws, k)
  {
    if m == |ws| {
      assert ws[..m] == ws;
    } else if k < m {
      assert ws[..m][..k] == ws[..k];
    }
  }

  lemma {:induction false} NothingApplied(d: seq<Block>, s: seq<Block>, w: seq<Write>)
    ensures Apply(d, []) == d && Apply(s, []) == s && w + [] == w && w[|w|..] == []
  {
  }

  lemma {:induction false} NothingStopped(d: seq<Block>, ws: seq<Write>, k: nat)
    requires ws == []
    ensures Stopped(d, ws, k) == d
  {
  }

  class Log {
    const cache: Bcache
    const area: Area
    var outstanding: int
    var n: nat
    var block: seq<uint32>
    var shared: bool          // whether other processes run; at boot, when initlog is called, they do not

    ghost function Blocks(): seq<uint32>
      requires n <= |block|
      reads this
    {
      block[..n]
    }

    ghost predicate Valid()
      reads this, cache
    {
      && cache.Valid() && |cache.spec| == |cache.disk|
      && |block| == LOGSIZE && n <= LOGSIZE
      && WellFormed(cache.disk, area) && |cache.disk| <= U32
      && Distinct(Blocks())
      && Homes(Blocks(), |cache.disk|, area)
      && PinsAre(cache.bufs, Blocks())
    }

    /** The listed blocks fit the log. log_write does not keep this; GroupCommit says when it holds. */
    ghost predicate Fits()
      reads this
    {
      n + 1 <= area.size
    }

    /** No listed block is among those that write_log copies to. */
    ghost predicate Clear()
      requires n <= |block|
      reads this, cache
    {
      area.start + n < |cache.disk| && forall i :: 0 <= i < n ==> !(area.start < block[i] <= area.start + n)
    }

    /** Every buffer is pinned, and the log has a block besides its header. */
    ghost predicate Full()
      reads this
    {
      n == NBUF && area.size >= 2
    }

    lemma FitsIsClear()
      requires Valid() && Fits()
      ensures Clear()
    {
      forall i | 0 <= i < n
        ensures !(area.start < block[i] <= area.start + n)
      {
        assert Blocks()[i] == block[i];
      }
    }

    /** Nobody is in the middle of changing a buffer. */
    ghost predicate AllPublished()
      reads this, cache
    {
      Published(cache.bufs, cache.spec, {})
    }

    /** No other process runs and no buffer is in use. */
    ghost predicate Calm()
      reads this, cache
    {
      !shared && Quiet(cache.bufs, {})
    }

    /** initlog, up to recovery: where the log is, and nothing logged yet. */
    constructor (cache: Bcache, area: Area)
      requires cache.Valid() && WellFormed(cache.disk, area) && |cache.disk| <= U32
      requires PinsAre(cache.bufs, [])
      ensures this.cache == cache && this.area == area && Valid() && n == 0 && outstanding == 0 && !shared
    {
      this.cache, this.area, shared := cache, area, false;
      outstanding, n, block := 0, 0, seq(LOGSIZE, _ => 0);
    }

    /** The two breads of a copy loop; in a quiet cache with room neither waits and neither panics. */
    method ReadPair(logged: nat, home: nat) returns (f: Fate, b1: nat, b2: nat)
      requires cache.Valid() && AllPublished()
      requires logged < |cache.disk| && home < |cache.disk| && logged != home
      modifies cache`bufs, cache`pending, cache`next, cache`prev, cache`order, cache`disk, cache`writes
      ensures cache.Valid() && cache.disk == old(cache.disk) && cache.writes == old(cache.writes)
      ensures Undisturbed(old(cache.bufs), cache.bufs, {}, {})
      ensures !Caches(old(cache.bufs), DISK, logged) && !CanRecycle(old(cache.bufs)) ==> f == NoBuffer
      ensures f == Ready ==>
                && |cache.bufs| == NBUF && b1 < NBUF && b2 < NBUF && b1 != b2
                && Claimed(cache.bufs, {b1} + {b2}, {}) && Published(cache.bufs, cache.spec, {b1} + {b2})
                && Has(cache.bufs[b1], cache.spec, logged) && Has(cache.bufs[b2], cache.spec, home)
      ensures old(Calm()) ==>
                && f != Stuck && (Room(old(cache.bufs), home) ==> f == Ready)
                && (f == Ready ==> Quiet(cache.bufs, {b1} + {b2}))
    {
      ghost var was := cache.bufs;
      hide Bcache.Valid, Undisturbed, Published, Claimed, Quiet, Room, Caches, CanRecycle;
      NothingClaimed(was);
      b2 := 0;
      f, b1 := cache.Fetch(shared, logged, {});
      if f == Ready {
        ghost var mid := cache.bufs;
        assert {} + {b1} == {b1};
        if old(Calm()) && Room(was, home) {
          cache.Known();
          RoomForSecond(was, mid, b1, home, cache.spec);
        }
        f, b2 := cache.Fetch(shared, home, {b1});
        Fewer(mid, cache.bufs, {b1}, {}, {});
        UndisturbedTwice(was, mid, cache.bufs, {}, {});
        Keeps(mid, cache.bufs, {b1});
        cache.Known();
      }
    }

    /**
     One turn of the copy loops of write_log and install_trans: read the log block, read its
     home block, copy one over the other, write the one that changed, release both.
     */
    method CopyBlock(logged: nat, home: nat, toLog: bool) returns (f: Fate)
      requires cache.Valid() && AllPublished()
      requires logged < |cache.disk| && home < |cache.disk| && logged != home
      modifies cache
      ensures !Caches(old(cache.bufs), DISK, logged) && !CanRecycle(old(cache.bufs)) ==> f == NoBuffer
      ensures f != Ready ==>
                cache.disk == old(cache.disk) && cache.writes == old(cache.writes) && cache.spec == old(cache.spec)
      ensures f == Ready ==>
                var src, dst := if toLog then home else logged, if toLog then logged else home;
                && cache.Valid() && AllPublished()
                && cache.writes == old(cache.writes) + [Write(dst, old(cache.spec)[src])]
                && cache.disk == old(cache.disk)[dst := old(cache.spec)[src]]
                && cache.spec == old(cache.spec)[dst := old(cache.spec)[src]]
                && PinDropped(old(cache.bufs), cache.bufs, dst)
      ensures old(Calm()) ==>
                && f != Stuck && (Room(old(cache.bufs), home) ==> f == Ready)
                && (f == Ready ==> Calm())
    {
      hide Bcache.Valid, Undisturbed, Published, Claimed, Quiet, Room, Caches, CanRecycle, Pinned;
      var b1, b2;
      ghost var was := cache.bufs;
      f, b1, b2 := ReadPair(logged, home);
      if f == Ready {
        var from, to := if toLog then b2 else b1, if toLog then b1 else b2;
        ghost var mid := cache.bufs;
        cache.Known();
        assert {b1} + {b2} == {from} + {to};
        CopyAndRelease(from, to);
        DropPin(mid, cache.bufs, to, old(cache.spec));
        SamePinsDropped(was, mid, cache.bufs, {}, mid[to].blockno);
      }
    }

    /** memmove between two held buffers, bwrite of the target, brelse of both. */
    method CopyAndRelease(from: nat, to: nat)
      requires cache.Valid() && from < |cache.bufs| && to < |cache.bufs| && from != to
      requires Claimed(cache.bufs, {from} + {to}, {}) && Published(cache.bufs, cache.spec, {from} + {to})
      requires exists m: nat :: Has(cache.bufs[from], cache.spec, m)
      requires exists m: nat :: Has(cache.bufs[to], cache.spec, m)
      modifies cache
      ensures cache.Valid() && AllPublished()
      ensures var n, v := old(cache.bufs[to]).blockno, old(cache.bufs[from]).data;
              && n < |old(cache.disk)| == |old(cache.spec)|
              && cache.disk == old(cache.disk)[n := v] && cache.spec == old(cache.spec)[n := v]
              && cache.writes == old(cache.writes) + [Write(n, v)]
      ensures Unpinned(old(cache.bufs), cache.bufs, to)
      ensures !shared && Quiet(old(cache.bufs), {from} + {to}) ==> Calm()
    {
      hide Bcache.Valid, Undisturbed, Unpinned, Published, Claimed, Quiet;
      ghost var was := cache.bufs;
      cache.Known();
      cache.Overwrite(shared, to, cache.bufs[from].data, {from});
      ghost var written := cache.bufs;
      cache.Release(shared, from, {from} + {to});
      assert {from} + {to} - {from} == {to};
      ghost var one := cache.bufs;
      Keeps(written, one, {to});
      cache.Known();
      assert to in {to} && one[to] == written[to].(refcnt := one[to].refcnt);
      cache.Release(shared, to, {to});
      assert {to} - {to} == {};
      UnpinnedStays(was, written, one, to, {to});
      UnpinnedStays(was, one, cache.bufs, to, {});
    }

    /** The parts of Valid that do not quantify. */
    lemma Facts()
      requires Valid()
      ensures cache.Valid() && |cache.spec| == |cache.disk| <= U32 && WellFormed(cache.disk, area)
      ensures |block| == LOGSIZE && n <= LOGSIZE && area.start < |cache.disk|
      ensures cache.spec[area.start] == cache.disk[area.start]
    {
      cache.Known();
    }

    /** The transaction commit will write: the logged blocks with the contents readers see. */
    ghost function Txn(): (tx: Tx)
      requires Valid()
      reads this, cache
      ensures |tx.blocks| == |tx.data| == n
    {
      Tx(Blocks(), ContentsOf(cache.spec, Blocks()))
    }

    lemma TxnFacts()
      requires Valid() && Fits()
      ensures Loggable(cache.disk, area, Txn()) && Txn().blocks == Blocks()
    {
    }

    lemma CopiesFacts()
      requires Valid()
      ensures var copies := LogCopies(area, Txn().data);
              && |copies| == n
              && forall i :: 0 <= i < n ==>
                   && block[i] < |cache.spec| && Txn().data[i] == cache.spec[block[i]]
                   && copies[i] == Write(area.start + 1 + i, cache.spec[block[i]])
    {
    }

    /** Starting from disk d0, view s0 and writes w0, exactly the writes ws have been issued. */
    ghost predicate Issued(d0: seq<Block>, s0: seq<Block>, w0: seq<Write>, ws: seq<Write>)
      reads cache
    {
      cache.writes == w0 + ws && cache.disk == Apply(d0, ws) && cache.spec == Apply(s0, ws)
    }

    /** Starting from disk d0, view s0 and writes w0, some leading part of the writes ws has been issued. */
    ghost predicate Begun(d0: seq<Block>, s0: seq<Block>, w0: seq<Write>, ws: seq<Write>)
      reads cache
    {
      Prefixed(cache.writes, cache.disk, cache.spec, d0, s0, w0, ws)
    }

    /** The loop body of write_log. The cache has a buffer for the log block unless all of them are in use. */
    method WriteLogEntry(tail: nat, ghost d0: seq<Block>, ghost s0: seq<Block>, ghost w0: seq<Write>,
                         ghost ws: seq<Write>)
      returns (f: Fate)
      requires Valid() && AllPublished() && tail < n && Issued(d0, s0, w0, ws) && |s0| == |cache.spec|
      requires Clear() || (Full() && tail == 0)
      requires forall i :: 0 <= i < |ws| ==> area.start < ws[i].blockno <= area.start + n
      modifies cache
      ensures n == NBUF ==> f == NoBuffer
      ensures f != Ready ==> Issued(d0, s0, w0, ws)
      ensures f == Ready ==>
                && Valid() && Clear() && AllPublished() && |s0| == |cache.spec|
                && Issued(d0, s0, w0, ws + [Write(area.start + 1 + tail, s0[block[tail]])])
      ensures old(Calm()) ==> (f == Ready <==> n < NBUF) && (f == Ready ==> Calm())
    {
      hide Bcache.Valid, Homes, PinsAre, PinDropped, Distinct, Apply, Published, Quiet, Room, Caches, CanRecycle;
      EntryRoom(tail);
      if Clear() {
        ApplyFrame(s0, ws, block[tail]);
      }
      ghost var was, w := cache.bufs, Write(area.start + 1 + tail, s0[block[tail]]);
      f := CopyBlock(area.start + tail + 1, block[tail], true);
      if f == Ready {
        PinsAfterDrop(was, cache.bufs, area.start + 1 + tail, Blocks());
        ApplyOne(d0, ws, w);
        ApplyOne(s0, ws, w);
        assert (w0 + ws) + [w] == w0 + (ws + [w]);
      }
    }

    /** With every buffer pinned there is none for a log block; otherwise one is not pinned. */
    lemma EntryRoom(tail: nat)
      requires Valid() && tail < n && (Clear() || (Full() && tail == 0))
      ensures n == NBUF ==> !CanRecycle(cache.bufs) && !Caches(cache.bufs, DISK, area.start + tail + 1)
      ensures n < NBUF ==> Room(cache.bufs, block[tail])
      ensures block[tail] < |cache.disk| && area.start + tail + 1 < |cache.disk| && block[tail] != area.start + tail + 1
      ensures Clear() ==> !(area.start < block[tail] <= area.start + n)
      ensures !Lists(Blocks(), area.start + tail + 1)
    {
      cache.Known();
      hide Bcache.Valid;
      assert Blocks()[tail] == block[tail];
      if n == NBUF {
        FullCache(cache.bufs, cache.spec, Blocks(), area.start + tail + 1);
      } else {
        assert Lists(Blocks(), block[tail]);
        RoomForLogged(cache.bufs, cache.spec, Blocks(), block[tail]);
      }
    }

    /** write_log: copy every logged block from the cache into the log. */
    method WriteLog() returns (f: Fate)
      requires Valid() && AllPublished() && (Clear() || Full())
      modifies cache
      ensures n == NBUF ==> f == NoBuffer && Issued(old(cache.disk), old(cache.spec), old(cache.writes), [])
      ensures Begun(old(cache.disk), old(cache.spec), old(cache.writes), LogCopies(area, old(Txn()).data))
      ensures f == Ready ==>
                && Valid() && AllPublished()
                && Issued(old(cache.disk), old(cache.spec), old(cache.writes), LogCopies(area, old(Txn()).data))
      // a list that does not fit spoils the block behind the log
      ensures f == Ready && !Fits() ==>
                && area.start + area.size < |cache.disk| && !area.Holds(area.start + area.size)
                && cache.disk[area.start + area.size] == old(cache.spec)[block[area.size - 1]]
      ensures old(Calm()) ==> (f == Ready <==> n < NBUF) && (f == Ready ==> Calm())
    {
      hide Bcache.Valid, Log.Valid, LogCopies, ContentsOf, Apply, Lists, Prefixed, Published, Quiet;
      Facts();
      ghost var data := Txn().data;
      ghost var copies := LogCopies(area, data);
      ghost var d0, s0, w0 := cache.disk, cache.spec, cache.writes;
      CopiesFacts();
      NoneIssued(copies);
      f := Ready;
      var tail := 0;
      while tail < n && f == Ready
        invariant tail <= n && (tail > 0 ==> n < NBUF)
        invariant f == Ready ==> Valid() && AllPublished() && |s0| == |cache.spec|
        invariant f == Ready ==> Clear() || (Full() && tail == 0)
        invariant Issued(d0, s0, w0, copies[..tail])
        invariant f != Ready ==> tail < n && (n == NBUF ==> f == NoBuffer)
        invariant old(Calm()) ==> if f == Ready then Calm() else n == NBUF
        decreases n - tail, f == Ready
      {
        f := WriteLogEntry(tail, d0, s0, w0, copies[..tail]);
        if f == Ready {
          assert copies[..tail + 1] == copies[..tail] + [copies[tail]];
          tail := tail + 1;
        }
      }
      IssuedBegun(d0, s0, w0, copies, tail);
      assert f == Ready ==> copies[..tail] == copies;
      assert copies[..0] == [];
      if f == Ready && !Fits() {
        OverrunHits(d0, area, data);
      }
    }

    lemma NoneIssued(ws: seq<Write>)
      ensures Issued(cache.disk, cache.spec, cache.writes, ws[..0])
    {
      assert ws[..0] == [] && cache.writes + [] == cache.writes;
    }

    lemma IssuedBegun(d0: seq<Block>, s0: seq<Block>, w0: seq<Write>, ws: seq<Write>, k: nat)
      requires k <= |ws| && Issued(d0, s0, w0, ws[..k])
      ensures Begun(d0, s0, w0, ws) && |cache.writes| == |w0| + k
    {
    }

    /** write_head: the in-memory list becomes the header block. */
    method WriteHead() returns (f: Fate)
      requires cache.Valid() && AllPublished() && area.start < |cache.disk| == |cache.spec|
      requires |block| == LOGSIZE && n <= LOGSIZE
      modifies cache
      ensures f != Ready ==>
                cache.disk == old(cache.disk) && cache.writes == old(cache.writes) && cache.spec == old(cache.spec)
      ensures f == Ready ==>
                var w := Write(area.start, PutHeader(old(cache.spec)[area.start], Blocks()));
                && cache.Valid() && AllPublished() && |cache.bufs| == NBUF
                && cache.writes == old(cache.writes) + [w]
                && cache.disk == Put(old(cache.disk), w) && cache.spec == Put(old(cache.spec), w)
                && PinDropped(old(cache.bufs), cache.bufs, area.start)
      ensures old(Calm()) && (exists i :: 0 <= i < |old(cache.bufs)| && !old(cache.bufs)[i].dirty) ==>
                f == Ready && Calm()
    {
      hide Bcache.Valid, Undisturbed, Unpinned, Published, Claimed, Quiet, Caches, CanRecycle, Pinned, PutHeader;
      ghost var was := cache.bufs;
      NothingClaimed(was);
      if old(Calm()) && exists i :: 0 <= i < |was| && !was[i].dirty {
        CleanIsFree(was);
      }
      var b;
      f, b := cache.Fetch(shared, area.start, {});
      if f == Ready {
        ghost var mid := cache.bufs;
        cache.Known();
        assert {} + {b} == {b} && {b} - {b} == {};
        var data := HeaderData(cache.bufs[b].data);
        cache.Overwrite(shared, b, data, {});
        ghost var written := cache.bufs;
        cache.Release(shared, b, {b});
        cache.Known();
        UnpinnedStays(mid, written, cache.bufs, b, {});
        DropPin(mid, cache.bufs, b, old(cache.spec));
        SamePinsDropped(was, mid, cache.bufs, {}, area.start);
      }
    }

    /** The stores of write_head into the header buffer. */
    method HeaderData(was: Block) returns (data: Block)
      requires |block| == LOGSIZE && n <= LOGSIZE
      ensures data == PutHeader(was, Blocks())
    {
      data := PutWord(was, 0, n);
      for i := 0 to n
        invariant data == PutEntries(PutWord(was, 0, n), block[..i])
      {
        assert block[..i + 1][..i] == block[..i];
        data := PutWord(data, 1 + i, block[i]);
      }
    }

    /** What install_trans relies on: a list of home blocks outside the log, short enough for it. */
    ghost predicate Listed()
      reads this, cache
    {
      && cache.Valid() && |cache.spec| == |cache.disk| && AllPublished()
      && |block| == LOGSIZE && n <= LOGSIZE
      && WellFormed(cache.disk, area) && Fits()
      && Homes(Blocks(), |cache.disk|, area)
    }

    /** At commit the blocks from tail on are pinned and some buffer is not; at recovery nothing is pinned. */
    ghost predicate PinnedFrom(tail: nat, committing: bool)
      requires tail <= n <= |block|
      reads this, cache
    {
      if committing then
        Distinct(Blocks()) && n < NBUF && PinsAre(cache.bufs, block[tail..n])
      else PinsAre(cache.bufs, [])
    }

    lemma InstallRoom(tail: nat, committing: bool)
      requires Listed() && tail < n && PinnedFrom(tail, committing)
      ensures Room(cache.bufs, block[tail])
      ensures block[tail] < |cache.disk| && !area.Holds(block[tail])
      ensures committing ==> Distinct(block[tail..n])
    {
      hide Bcache.Valid;
      cache.Known();
      assert Blocks()[tail] == block[tail];
      if committing {
        assert Distinct(block[tail..n]) && block[tail..n][0] == block[tail];
        ListsTail(block[tail..n]);
        RoomForLogged(cache.bufs, cache.spec, block[tail..n], block[tail]);
      } else {
        NoPins(cache.bufs, 0);
        NoPins(cache.bufs, 1);
      }
    }

    lemma InstallFacts()
      requires Listed()
      ensures var ws := Installs(Blocks(), LogData(cache.spec, area, n));
              && |ws| == n
              && forall i :: 0 <= i < n ==>
                   ws[i] == Write(block[i], cache.spec[area.start + 1 + i]) && !area.Holds(ws[i].blockno)
    {
    }

    /** The loop body of install_trans. */
    method InstallEntry(tail: nat, ghost committing: bool,
                        ghost d0: seq<Block>, ghost s0: seq<Block>, ghost w0: seq<Write>, ghost ws: seq<Write>)
      returns (f: Fate)
      requires Listed() && tail < n && PinnedFrom(tail, committing) && Issued(d0, s0, w0, ws)
      modifies cache
      ensures f != Ready ==> Issued(d0, s0, w0, ws)
      ensures f == Ready ==>
                && Listed() && PinnedFrom(tail + 1, committing)
                && Issued(d0, s0, w0, ws + [Write(block[tail], old(cache.spec)[area.start + 1 + tail])])
      ensures old(Calm()) ==> f == Ready && Calm()
    {
      hide Bcache.Valid, Homes, PinsAre, PinDropped, Distinct, Apply, Published, Quiet, Room, Caches, CanRecycle;
      InstallRoom(tail, committing);
      ghost var was, w := cache.bufs, Write(block[tail], cache.spec[area.start + 1 + tail]);
      f := CopyBlock(area.start + tail + 1, block[tail], false);
      if f == Ready {
        if committing {
          PinsOfRest(was, cache.bufs, block[tail..n]);
          assert block[tail..n][1..] == block[tail + 1..n];
        } else {
          StillNoPins(was, cache.bufs, block[tail]);
        }
        ApplyOne(d0, ws, w);
        ApplyOne(s0, ws, w);
        assert (w0 + ws) + [w] == w0 + (ws + [w]);
      }
    }

    /** install_trans: copy every listed block from the log to its home. */
    method InstallTrans(ghost committing: bool) returns (f: Fate)
      requires Listed() && PinnedFrom(0, committing)
      modifies cache
      ensures Begun(old(cache.disk), old(cache.spec), old(cache.writes),
                    Installs(Blocks(), LogData(old(cache.spec), area, n)))
      ensures f == Ready ==>
                && Listed() && PinsAre(cache.bufs, [])
                && Issued(old(cache.disk), old(cache.spec), old(cache.writes),
                          Installs(Blocks(), LogData(old(cache.spec), area, n)))
      ensures old(Calm()) ==> f == Ready && Calm()
    {
      hide Bcache.Valid, Published, Quiet, Prefixed, Apply, Installs, LogData, PinsAre, Homes, Distinct;
      ghost var d0, s0, w0 := cache.disk, cache.spec, cache.writes;
      ghost var ws := Installs(Blocks(), LogData(s0, area, n));
      InstallFacts();
      NoneIssued(ws);
      f := Ready;
      var tail := 0;
      while tail < n && f == Ready
        invariant tail <= n && (f != Ready ==> tail < n)
        invariant f == Ready ==> Listed() && PinnedFrom(tail, committing)
        invariant Issued(d0, s0, w0, ws[..tail])
        invariant old(Calm()) ==> f == Ready && Calm()
        decreases n - tail, f == Ready
      {
        ApplyFrame(s0, ws[..tail], area.start + 1 + tail);
        f := InstallEntry(tail, committing, d0, s0, w0, ws[..tail]);
        if f == Ready {
          assert ws[..tail + 1] == ws[..tail] + [ws[tail]];
          tail := tail + 1;
        }
      }
      IssuedBegun(d0, s0, w0, ws, tail);
      assert f == Ready ==> ws[..tail] == ws && block[tail..n] == [];
    }

    lemma SomeCleanLogged()
      requires Valid()
      ensures n < NBUF ==> exists i :: 0 <= i < |cache.bufs| && !cache.bufs[i].dirty
    {
      cache.Known();
      hide Bcache.Valid;
      if n < NBUF {
        SomeClean(cache.bufs, cache.spec, Blocks());
      }
    }

    /** The first half of commit, up to the header write that commits the transaction. */
    method LogAndHead() returns (f: Fate)
      requires Valid() && AllPublished() && (Fits() || Full())
      modifies cache
      ensures n == NBUF ==> f == NoBuffer && Issued(old(cache.disk), old(cache.spec), old(cache.writes), [])
      ensures Begun(old(cache.disk), old(cache.spec), old(cache.writes),
                    CommitFront(old(cache.disk)[area.start], area, old(Txn())))
      ensures f == Ready ==>
                && Listed() && PinnedFrom(0, n > 0)
                && Issued(old(cache.disk), old(cache.spec), old(cache.writes),
                          CommitFront(old(cache.disk)[area.start], area, old(Txn())))
                && LogData(cache.spec, area, n) == old(Txn()).data
                && cache.spec[area.start] == PutHeader(old(cache.disk)[area.start], Blocks())
      ensures old(Calm()) ==> (f == Ready <==> n < NBUF) && (f == Ready ==> Calm())
    {
      hide Bcache.Valid, PutHeader, Apply, ContentsOf, Prefixed, Published, Quiet, LogCopies, LogData, Put;
      hide Homes, PinsAre, PinDropped, Distinct, Loggable;
      Facts();
      if Fits() {
        TxnFacts();
        FitsIsClear();
      }
      ghost var d0, s0, w0, tx := cache.disk, cache.spec, cache.writes, Txn();
      ghost var copies := LogCopies(area, tx.data);
      ghost var head := Write(area.start, PutHeader(d0[area.start], tx.blocks));
      f := WriteLog();
      PrefixOfMore(cache.writes, cache.disk, cache.spec, d0, s0, w0, copies, [head]);
      if f == Ready {
        CopiesMissHeader(s0, area, tx.data);
        SomeCleanLogged();
        ghost var was := cache.bufs;
        f := WriteHead();
        if f == Ready {
          NotHome(Blocks(), |cache.disk|, area, area.start);
          PinsAfterDrop(was, cache.bufs, area.start, Blocks());
          assert block[0..n] == Blocks() && (n == 0 ==> Blocks() == []);
          AfterHeader(d0, s0, area, tx, cache.disk, cache.spec);
          assert (w0 + copies) + [head] == w0 + (copies + [head]);
          PrefixFull(cache.writes, cache.disk, cache.spec, d0, s0, w0, copies + [head]);
        }
      }
    }

    /** The second half of commit, and all of recovery after the header has been read. */
    method InstallAndErase(ghost committing: bool) returns (f: Fate)
      requires Listed() && PinnedFrom(0, committing) && |cache.disk| <= U32
      modifies this`n, cache
      ensures Begun(old(cache.disk), old(cache.spec), old(cache.writes), old(InstallAll()))
      ensures f == Ready ==>
                && Valid() && AllPublished() && n == 0
                && Issued(old(cache.disk), old(cache.spec), old(cache.writes), old(InstallAll()))
      ensures old(Calm()) ==> f == Ready && Calm()
    {
      hide Bcache.Valid, Published, Quiet, Prefixed, PinsAre, PinDropped, Homes, Distinct, Apply, Installs, LogData,
           PutHeader, Put;
      ghost var d0, s0, w0 := cache.disk, cache.spec, cache.writes;
      ghost var installs := Installs(Blocks(), LogData(s0, area, n));
      ghost var erase := Write(area.start, PutHeader(s0[area.start], []));
      InstallsMissHeader(s0, area, Blocks(), LogData(s0, area, n));
      f := InstallTrans(committing);
      PrefixOfMore(cache.writes, cache.disk, cache.spec, d0, s0, w0, installs, [erase]);
      if f == Ready {
        n := 0;
        assert Blocks() == [];
        cache.Known();
        NoPins(cache.bufs, 0);
        ghost var was := cache.bufs;
        f := WriteHead();
        if f == Ready {
          StillNoPins(was, cache.bufs, area.start);
          ApplyOne(d0, installs, erase);
          ApplyOne(s0, installs, erase);
          assert (w0 + installs) + [erase] == w0 + (installs + [erase]);
          PrefixFull(cache.writes, cache.disk, cache.spec, d0, s0, w0, installs + [erase]);
          EmptyList(|cache.disk|, area);
        }
      }
    }

    /** The writes that install the listed blocks and erase the header. */
    ghost function InstallAll(): seq<Write>
      requires Listed()
      reads this, cache
    {
      InstallWrites(cache.spec[area.start], area, Tx(Blocks(), LogData(cache.spec, area, n)))
    }

    /**
     commit, while other processes read: in every interleaving the block writes it has issued are
     a leading part of the commit's writes, and all of them when it returns. With as many blocks
     logged as there are buffers it panics before the first write, whether the list fits the log
     or not; with fewer, and no reader in the way, it returns.
     */
    method Commit() returns (f: Fate)
      requires Valid() && AllPublished() && (Fits() || Full())
      modifies this`n, cache
      ensures old(Fits()) ==>
                && Loggable(old(cache.disk), area, old(Txn()))
                && Begun(old(cache.disk), old(cache.spec), old(cache.writes),
                    CommitWrites(old(cache.disk), area, old(Txn())))
      ensures f == Ready ==>
                && old(Fits()) && Valid() && AllPublished() && n == 0
                && Issued(old(cache.disk), old(cache.spec), old(cache.writes),
                          CommitWrites(old(cache.disk), area, old(Txn())))
      ensures old(n) == NBUF ==> f == NoBuffer && Issued(old(cache.disk), old(cache.spec), old(cache.writes), [])
      ensures old(Calm()) ==> (f == Ready <==> old(n) < NBUF) && (f == Ready ==> Calm())
    {
      hide Bcache.Valid, Log.Valid, CommitFront, InstallWrites, PutHeader, Apply, ContentsOf, Prefixed, Published,
           Quiet;
      hide Homes, PinsAre, Distinct, Loggable, LogData;
      Facts();
      if Fits() {
        TxnFacts();
      }
      ghost var d0, s0, w0, tx := cache.disk, cache.spec, cache.writes, Txn();
      f := Ready;
      if n > 0 {
        ghost var h := d0[area.start];
        ghost var front, back := CommitFront(h, area, tx), InstallWrites(PutHeader(h, tx.blocks), area, tx);
        f := LogAndHead();
        PrefixOfMore(cache.writes, cache.disk, cache.spec, d0, s0, w0, front, back);
        if f == Ready {
          f := InstallAndErase(true);
          PrefixAfter(cache.writes, cache.disk, cache.spec, d0, s0, w0, front, back);
          if f == Ready {
            ApplyAppend(d0, front, back);
            ApplyAppend(s0, front, back);
            assert (w0 + front) + back == w0 + (front + back);
          }
        }
      } else {
        NoneIssued([]);
        PrefixNone(w0, d0, s0, []);
      }
    }

    lemma TxnIsView()
      requires Valid() && Fits()
      ensures |Txn().blocks| == |Txn().data| && ApplyTx(cache.disk, Txn()) == cache.spec
    {
      cache.Known();
      ViewOfTxn(cache.disk, cache.spec, area, Txn(), cache.bufs);
    }

    /** When nothing is logged the disk is what readers see, outside the log what they saw before. */
    lemma DoneIsView(d0: seq<Block>, s0: seq<Block>, tx: Tx)
      requires Valid() && n == 0 && |tx.blocks| == |tx.data| && ApplyTx(d0, tx) == s0
      requires Settled(cache.disk, area, ApplyTx(d0, tx))
      ensures |s0| == |cache.disk| == |cache.spec|
      ensures forall b: nat :: b < |cache.disk| && !area.Holds(b) ==> cache.disk[b] == cache.spec[b] == s0[b]
    {
      cache.Known();
      forall b: nat | b < |cache.disk|
        ensures cache.disk[b] == cache.spec[b]
      {
        assert !Lists(Blocks(), b);
      }
    }

    /**
     end_op's call of commit among other processes: whether it returns, panics or never wakes up,
     and whenever the machine stops, recovery finds all of the transaction or none of it.
     */
    method CommitSurvivesCrashes() returns (f: Fate)
      requires Valid() && AllPublished() && (Fits() || Full()) && Settled(cache.disk, area, cache.disk)
      modifies this`n, cache
      ensures old(n) == NBUF ==> f == NoBuffer && cache.disk == old(cache.disk) && cache.writes == old(cache.writes)
      ensures old(Calm()) ==> (f == Ready <==> old(n) < NBUF)
      ensures f == Ready ==>
                && old(Fits()) && Valid() && AllPublished() && n == 0
                && Settled(cache.disk, area, ApplyTx(old(cache.disk), old(Txn())))
                && (forall b: nat :: b < |cache.disk| && !area.Holds(b) ==>
                      cache.disk[b] == cache.spec[b] == old(cache.spec)[b])
      ensures old(cache.writes) <= cache.writes
      ensures var issued := cache.writes[|old(cache.writes)|..];
              forall k: nat, ks: seq<nat> :: k <= |issued| || f == Ready ==>
                RecoversTo(Stopped(old(cache.disk), issued, k), area, ks, Outcome(old(cache.disk), old(Txn()), k))
    {
      hide Bcache.Valid, Log.Valid, ContentsOf, Published, Quiet, RecoversTo, Settled, Loggable, CommitWrites, Apply,
           ApplyTx, Stopped;
      Facts();
      ghost var d0, s0, tx, w0 := cache.disk, cache.spec, Txn(), cache.writes;
      ghost var fits := Fits();
      if fits {
        TxnFacts();
        TxnIsView();
      }
      f := Commit();
      ghost var issued := cache.writes[|w0|..];
      if fits {
        ghost var ws := CommitWrites(d0, area, tx);
        PrefixIssued(cache.writes, cache.disk, cache.spec, d0, s0, w0, ws);
        forall k: nat, ks: seq<nat> | k <= |issued| || f == Ready
          ensures RecoversTo(Stopped(d0, issued, k), area, ks, Outcome(d0, tx, k))
        {
          StoppedPrefix(d0, ws, |issued|, k);
          CrashAtomicity(d0, area, d0, tx, k, ks);
        }
        if f == Ready {
          CommitSettles(d0, area, d0, tx);
          DoneIsView(d0, s0, tx);
        }
        NothingApplied(d0, s0, w0);
      } else {
        NothingApplied(d0, s0, w0);
        forall k: nat, ks: seq<nat> | k <= |issued|
          ensures RecoversTo(Stopped(d0, issued, k), area, ks, Outcome(d0, tx, k))
        {
          NothingStopped(d0, issued, k);
          SettledRecovers(d0, area, d0, ks);
        }
      }
    }

    /** read_head: the list in the header block becomes the in-memory list. */
    method ReadHead() returns (f: Fate)
      requires cache.Valid() && AllPublished() && |block| == LOGSIZE
      requires area.start < |cache.disk| && Word(cache.disk[area.start], 0) <= LOGSIZE
      requires PinsAre(cache.bufs, [])
      modifies this`n, this`block, cache
      ensures cache.disk == old(cache.disk) && cache.spec == old(cache.spec) && cache.writes == old(cache.writes)
      ensures f == Ready ==>
                && cache.Valid() && AllPublished() && PinsAre(cache.bufs, [])
                && |block| == LOGSIZE && n <= LOGSIZE && Blocks() == HeaderBlocks(cache.disk[area.start])
      ensures old(Calm()) ==> f == Ready && Calm()
    {
      hide Bcache.Valid, Undisturbed, Published, Claimed, Quiet, Caches, CanRecycle, Pinned, PinsAre, HeaderBlocks;
      ghost var was := cache.bufs;
      cache.Known();
      BackedWithoutPins(was, cache.disk, cache.spec);
      NoPins(was, 0);
      if old(Calm()) {
        CleanIsFree(was);
      }
      NothingClaimed(was);
      var b;
      f, b := cache.Fetch(shared, area.start, {});
      if f == Ready {
        ghost var mid := cache.bufs;
        cache.Known();
        assert {} + {b} == {b} && {b} - {b} == {};
        var data := cache.bufs[b].data;
        cache.Release(shared, b, {b});
        UndisturbedTwice(was, mid, cache.bufs, {}, {});
        PinsStay(was, cache.bufs, []);
        LoadHead(data);
      }
    }

    method LoadHead(data: Block)
      requires |block| == LOGSIZE && Word(data, 0) <= LOGSIZE
      modifies this`n, this`block
      ensures |block| == LOGSIZE && n <= LOGSIZE && Blocks() == HeaderBlocks(data)
    {
      n := Word(data, 0);
      for i := 0 to n
        invariant |block| == LOGSIZE && n == Word(data, 0)
        invariant forall j :: 0 <= j < i ==> block[j] == Word(data, 1 + j)
      {
        block := block[i := Word(data, 1 + i)];
      }
    }

    /** recover_from_log: the block writes of recovery in order, ending with an empty header. */
    method RecoverFromLog() returns (f: Fate)
      requires cache.Valid() && AllPublished() && |block| == LOGSIZE && |cache.disk| <= U32
      requires Bootable(cache.disk, area)
      requires PinsAre(cache.bufs, [])
      modifies this`n, this`block, cache
      ensures Begun(old(cache.disk), old(cache.disk), old(cache.writes), RecoverWrites(old(cache.disk), area))
      ensures f == Ready ==>
                && Valid() && AllPublished() && n == 0
                && Issued(old(cache.disk), old(cache.disk), old(cache.writes), RecoverWrites(old(cache.disk), area))
      ensures old(Calm()) ==> f == Ready && Calm()
    {
      ghost var d0, w0 := cache.disk, cache.writes;
      cache.Known();
      BackedWithoutPins(cache.bufs, d0, cache.spec);
      PrefixNone(w0, d0, d0, RecoverWrites(d0, area));
      hide Bcache.Valid, PutHeader, Apply, Prefixed, Published, Quiet;
      f := ReadHead();
      if f == Ready {
        f := InstallAndErase(false);
      }
    }

    /** The first process has booted; from now on others may run. */
    method OpenToOthers()
      requires Valid() && AllPublished()
      modifies this`shared
      ensures Valid() && AllPublished() && shared
    {
      shared := true;
    }

    /** The tests of log_write, made before log.lock is taken. */
    method CheckRoom() returns (r: LogResult)
      ensures r == TooBig <==> n >= LOGSIZE || n >= area.size - 1
      ensures r == OutsideTrans <==> r != TooBig && outstanding < 1
    {
      r := if n >= LOGSIZE || n >= area.size - 1 then TooBig else if outstanding < 1 then OutsideTrans else Logged;
    }

    /**
     The part of log_write under log.lock: list the block, once, and pin its buffer. The list may
     have grown since the tests, so it is full or does not fit the log any more; with a full list
     only a block already listed leaves the array alone.
     */
    method LogAppend(b: nat)
      requires Valid() && b < NBUF && cache.bufs[b].locked && cache.bufs[b].valid
      requires !area.Holds(cache.bufs[b].blockno)
      requires n < LOGSIZE || Lists(Blocks(), cache.bufs[b].blockno)
      modifies this`n, this`block, cache`bufs, cache`spec
      ensures Valid()
      ensures var x := old(cache.bufs[b]);
              && x.blockno < |cache.spec|
              && Blocks() == Absorb(old(Blocks()), x.blockno)
              && cache.spec == old(cache.spec)[x.blockno := x.data]
              && cache.bufs == old(cache.bufs)[b := x.(dirty := true)]
    {
      cache.Known();
      assert Current(cache.bufs[b], cache.spec);
      hide Bcache.Valid, Pinned;
      ghost var was, blocks := cache.bufs, Blocks();
      var blockno := cache.bufs[b].blockno;
      AbsorbHomes(blocks, blockno, |cache.disk|, area);
      Append(blockno);
      cache.Pin(b);
      PinsAbsorb(was, cache.bufs, b, blocks, blockno);
    }

    /** log_write when no other log_write comes in between; then the list still fits the log. */
    method LogWrite(b: nat) returns (r: LogResult)
      requires Valid() && b < NBUF && cache.bufs[b].locked && cache.bufs[b].valid
      requires !area.Holds(cache.bufs[b].blockno)
      modifies this`n, this`block, cache`bufs, cache`spec
      ensures Valid() && (old(Fits()) ==> Fits())
      ensures r == TooBig <==> old(n) >= LOGSIZE || old(n) >= area.size - 1
      ensures r == OutsideTrans <==> r != TooBig && outstanding < 1
      ensures r != Logged ==>
                n == old(n) && block == old(block) && cache.bufs == old(cache.bufs) && cache.spec == old(cache.spec)
      ensures r == Logged ==>
                var x := old(cache.bufs[b]);
                && x.blockno < |cache.spec|
                && Blocks() == Absorb(old(Blocks()), x.blockno)
                && cache.spec == old(cache.spec)[x.blockno := x.data]
                && cache.bufs == old(cache.bufs)[b := x.(dirty := true)]
    {
      hide Bcache.Valid, Log.Valid, Pinned;
      Facts();
      cache.Known();
      r := CheckRoom();
      if r == Logged {
        LogAppend(b);
        Facts();
      }
    }

    /** The absorption loop of log_write. */
    method Append(blockno: uint32)
      requires |block| == LOGSIZE && n <= LOGSIZE && Distinct(Blocks())
      requires n < LOGSIZE || Lists(Blocks(), blockno)
      modifies this`n, this`block
      ensures |block| == LOGSIZE && old(n) <= n <= old(n) + 1 && n <= LOGSIZE
      ensures Blocks() == Absorb(old(Blocks()), blockno)
      ensures Distinct(Blocks())
    {
      var i := 0;
      while i < n && block[i] != blockno
        invariant 0 <= i <= n
        invariant forall j :: 0 <= j < i ==> block[j] != blockno
      {
        i := i + 1;
      }
      ghost var was := block;
      block := block[i := blockno];
      if i == n {
        n := n + 1;
      } else {
        assert block == was;
      }
      assert block[i] == blockno;
      assert forall j :: 0 <= j < old(n) && j != i ==> block[j] == was[j];
    }
  }

  /** initlog on a disk whose header recovery can work with; other processes start after it. */
  method InitLog(d: seq<Block>, area: Area) returns (log: Log)
    requires Bootable(d, area) && |d| <= U32
    ensures fresh(log) && fresh(log.cache) && log.area == area
    ensures log.Valid() && log.AllPublished() && log.n == 0 && log.outstanding == 0 && log.shared
    ensures log.cache.spec == log.cache.disk == Apply(d, RecoverWrites(d, area))
  {
    hide Bcache.Valid, Log.Valid, PinsAre, Published, Quiet, Apply, HeaderBlocks, RecoverWrites;
    var cache := new Bcache(d);
    cache.Known();
    AtBoot(cache.bufs, cache.spec);
    log := new Log(cache, area);
    log.Facts();
    var f := log.RecoverFromLog();
    log.OpenToOthers();
  }

  /**
   Booting after a crash: d was left by it, recovery was cut short after each of the numbers of
   writes in ks, and now a new cache and log run it to its end. Nothing is left in the log and
   every block outside it is as in t.
   */
  method Boot(d: seq<Block>, area: Area, ks: seq<nat>, ghost t: seq<Block>) returns (log: Log)
    requires RecoversTo(d, area, ks, t) && |d| <= U32
    ensures fresh(log) && fresh(log.cache) && log.area == area
    ensures log.Valid() && log.AllPublished() && log.n == 0 && log.outstanding == 0 && log.shared
    ensures Settled(log.cache.disk, area, t) && log.cache.spec == log.cache.disk
  {
    hide Bcache.Valid, Log.Valid, Published, Settled, Apply, Bootable, Reboots, RecoverWrites;
    log := InitLog(Reboots(d, area, ks), area);
  }
}
