/**
 The buffer cache over the synchronous memory disk. Each method from Bget to Brelse is one
 atomic section of the source (everything done under bcache.lock, or one action of
 the process that holds a buffer's sleep lock) or a few of them run without a break, so a
 property that every method keeps holds in every interleaving of processes. The methods
 behind them run the sections of one process with any steps of others in between.
 */
module BufferCache {
  import opened RedoLog

  const NBUF: nat := 30
  const HEAD: nat := NBUF   // index of the list head in next and prev
  const DISK: nat := 1      // the only device the memory disk serves

  /** A buffer: flags, identity, sleep lock, reference count and data. */
  datatype Buf = Buf(valid: bool, dirty: bool, dev: nat, blockno: nat, locked: bool, refcnt: nat, data: Block)

  datatype IdeResult = Done | Panic

  // ---- The prev/next ring ------------------------------------------------------

  /** Position i of the ring: the head at both ends, the buffers in between. */
  ghost function At(order: seq<nat>, i: int): nat {
    if 1 <= i <= |order| then order[i - 1] else HEAD
  }

  /** next and prev thread the buffers of order, in that order, through the head. */
  ghost predicate Ring(order: seq<nat>, next: seq<nat>, prev: seq<nat>) {
    && |next| == |prev| == NBUF + 1
    && Distinct(order)
    && (forall i :: 0 <= i < |order| ==> order[i] < NBUF)
    && (forall i :: 0 <= i <= |order| ==> Linked(order, next, prev, i))
  }

  /** Positions i and i + 1 point at each other. */
  ghost predicate Linked(order: seq<nat>, next: seq<nat>, prev: seq<nat>, i: int)
    requires |next| == |prev| == NBUF + 1 && forall k :: 0 <= k < |order| ==> order[k] < NBUF
  {
    next[At(order, i)] == At(order, i + 1) && prev[At(order, i + 1)] == At(order, i)
  }

  lemma {:induction false} Links(order: seq<nat>, next: seq<nat>, prev: seq<nat>, i: nat)
    requires Ring(order, next, prev) && i <= |order|
    ensures next[At(order, i)] == At(order, i + 1) && prev[At(order, i + 1)] == At(order, i)
  {
    assert Linked(order, next, prev, i);
  }

  function Without(order: seq<nat>, k: nat): seq<nat>
    requires k < |order|
  {
    order[..k] + order[k + 1..]
  }

  lemma {:induction false} WithoutMembers(order: seq<nat>, k: nat)
    requires Distinct(order) && k < |order|
    ensures forall x: nat :: x in Without(order, k) <==> x in order && x != order[k]
  {
    forall x: nat | x in order && x != order[k]
      ensures x in Without(order, k)
    {
      var j :| 0 <= j < |order| && order[j] == x;
      assert Without(order, k)[if j < k then j else j - 1] == x;
    }
  }

  lemma {:induction false} Unlink(order: seq<nat>, next: seq<nat>, prev: seq<nat>, k: nat)
    requires Ring(order, next, prev) && k < |order|
    ensures var b := order[k];
            && next[b] <= NBUF && prev[b] <= NBUF
            && Ring(Without(order, k), next[prev[b] := next[b]], prev[next[b] := prev[b]])
  {
    var b := order[k];
    var order' := Without(order, k);
    Links(order, next, prev, k);
    Links(order, next, prev, k + 1);
    var next', prev' := next[prev[b] := next[b]], prev[next[b] := prev[b]];
    forall i | 0 <= i <= |order'|
      ensures Linked(order', next', prev', i)
    {
      Links(order, next, prev, if i <= k then i else i + 1);
    }
  }

  lemma {:induction false} PushFront(order: seq<nat>, next: seq<nat>, prev: seq<nat>, b: nat)
    requires Ring(order, next, prev) && b < NBUF && b !in order
    ensures var first := next[HEAD];
            && first <= NBUF
            && Ring([b] + order, next[b := first][HEAD := b], prev[b := HEAD][first := b])
  {
    Links(order, next, prev, 0);
    var first := next[HEAD];
    var order' := [b] + order;
    var next', prev' := next[b := first][HEAD := b], prev[b := HEAD][first := b];
    forall i | 0 <= i <= |order'|
      ensures Linked(order', next', prev', i)
    {
      if i >= 1 {
        Links(order, next, prev, i - 1);
      }
    }
  }

  // ---- What every state of the cache satisfies -----------------------------------------

  /** Some buffer holds block n and the log keeps it from being recycled. */
  ghost predicate Pinned(bufs: seq<Buf>, n: nat) {
    exists i :: 0 <= i < |bufs| && bufs[i].dirty && bufs[i].blockno == n
  }

  /** Every reference is the lock holder's or a pending one. */
  ghost predicate Counted(bufs: seq<Buf>, pending: seq<nat>) {
    && |pending| == |bufs|
    && forall i :: 0 <= i < |bufs| ==> bufs[i].refcnt == pending[i] + if bufs[i].locked then 1 else 0
  }

  /** No block of a real device is cached twice. */
  ghost predicate Unique(bufs: seq<Buf>) {
    forall i, j :: 0 <= i < |bufs| && 0 <= j < |bufs| && i != j && bufs[i].dev != 0 && bufs[i].dev == bufs[j].dev ==>
      bufs[i].blockno != bufs[j].blockno
  }

  /** One buffer: only blocks of the disk are valid, and an unlocked valid buffer is current. */
  ghost predicate Current(b: Buf, spec: seq<Block>) {
    && (b.dirty ==> b.valid)
    && (b.valid ==> b.dev == DISK && b.blockno < |spec|)
    && (b.valid && !b.locked ==> b.data == spec[b.blockno])
  }

  /** What the buffer holds, if anything, is what was last written or logged. */
  ghost predicate Released(b: Buf, spec: seq<Block>) {
    b.valid ==> b.blockno < |spec| && b.data == spec[b.blockno]
  }

  /** What is not pinned is current on the disk. */
  ghost predicate Backed(bufs: seq<Buf>, disk: seq<Block>, spec: seq<Block>) {
    && |spec| == |disk|
    && forall n :: 0 <= n < |disk| && spec[n] != disk[n] ==> Pinned(bufs, n)
  }

  ghost predicate Coherent(bufs: seq<Buf>, pending: seq<nat>, disk: seq<Block>, spec: seq<Block>) {
    && Counted(bufs, pending)
    && Unique(bufs)
    && (forall i :: 0 <= i < |bufs| ==> Current(bufs[i], spec))
    && Backed(bufs, disk, spec)
  }

  /** x may stand in for buffer b: it keeps its identity or takes one nobody has, and it keeps its pin. */
  ghost predicate MayReplace(bufs: seq<Buf>, b: nat, x: Buf) {
    && b < |bufs|
    && ((x.dev == bufs[b].dev && x.blockno == bufs[b].blockno)
        || forall i :: 0 <= i < |bufs| ==> !(bufs[i].dev == x.dev && bufs[i].blockno == x.blockno))
    && (bufs[b].dirty ==> x.dirty && x.blockno == bufs[b].blockno)
  }

  lemma {:induction false} ReplaceKeepsPin(bufs: seq<Buf>, b: nat, x: Buf, n: nat)
    requires MayReplace(bufs, b, x)
    requires Pinned(bufs, n)
    ensures Pinned(bufs[b := x], n)
  {
    var i :| 0 <= i < |bufs| && bufs[i].dirty && bufs[i].blockno == n;
    assert bufs[b := x][i].dirty && bufs[b := x][i].blockno == n;
  }

  /** Changing one buffer, and no contents a reader could see, keeps the cache coherent. */
  lemma {:induction false} Replace(bufs: seq<Buf>, pending: seq<nat>, disk: seq<Block>, spec: seq<Block>, b: nat,
                                   x: Buf, p: nat)
    requires Coherent(bufs, pending, disk, spec)
    requires MayReplace(bufs, b, x) && Current(x, spec)
    requires x.refcnt == p + if x.locked then 1 else 0
    ensures Coherent(bufs[b := x], pending[b := p], disk, spec)
  {
    forall n | 0 <= n < |disk| && spec[n] != disk[n]
      ensures Pinned(bufs[b := x], n)
    {
      ReplaceKeepsPin(bufs, b, x, n);
    }
  }

  /**
   Publishing the data of a locked buffer, to the disk (bwrite) or to the log (log_write),
   makes it what every later reader sees; no other block changes.
   */
  lemma {:induction false} Publish(bufs: seq<Buf>, pending: seq<nat>, disk: seq<Block>, spec: seq<Block>, b: nat,
                                   toDisk: bool)
    requires Coherent(bufs, pending, disk, spec)
    requires b < |bufs| && bufs[b].locked && bufs[b].dev == DISK && bufs[b].blockno < |spec|
    ensures var n, v := bufs[b].blockno, bufs[b].data;
            && |spec| == |disk|
            && Coherent(bufs[b := bufs[b].(dirty := !toDisk, valid := true)], pending,
                        if toDisk then disk[n := v] else disk, spec[n := v])
  {
    var n, v := bufs[b].blockno, bufs[b].data;
    assert Current(bufs[b], spec);
    var bufs' := bufs[b := bufs[b].(dirty := !toDisk, valid := true)];
    var disk', spec' := if toDisk then disk[n := v] else disk, spec[n := v];
    forall i | 0 <= i < |bufs'|
      ensures Current(bufs'[i], spec')
    {
      assert Current(bufs[i], spec);
    }
    forall m | 0 <= m < |disk'| && spec'[m] != disk'[m]
      ensures Pinned(bufs', m)
    {
      if m == n {
        assert bufs'[b].dirty && bufs'[b].blockno == n;
      } else {
        var i :| 0 <= i < |bufs| && bufs[i].dirty && bufs[i].blockno == m;
        assert bufs'[i].dirty && bufs'[i].blockno == m;
      }
    }
  }

  /** A block whose buffer has not been read is pinned by no other buffer, so the disk is current for it. */
  lemma {:induction false} UnreadIsBacked(bufs: seq<Buf>, pending: seq<nat>, disk: seq<Block>, spec: seq<Block>, b: nat)
    requires Coherent(bufs, pending, disk, spec)
    requires b < |bufs| && bufs[b].dev == DISK && bufs[b].blockno < |disk| && !bufs[b].valid
    ensures spec[bufs[b].blockno] == disk[bufs[b].blockno]
  {
    var n := bufs[b].blockno;
    forall i | 0 <= i < |bufs|
      ensures !(bufs[i].dirty && bufs[i].blockno == n)
    {
      assert Current(bufs[i], spec);
    }
  }

  // ---- The cache ------------------------------------------------------------------

  /** What bread comes back with: a locked buffer, a wait for its lock, or a panic. */
  datatype ReadResult = Got(b: nat) | Asleep(b: nat) | NoBuffers | BadBlock

  ghost predicate Caches(bufs: seq<Buf>, dev: nat, blockno: nat) {
    exists i :: 0 <= i < |bufs| && bufs[i].dev == dev && bufs[i].blockno == blockno
  }

  /** Some process holds the block's buffer. */
  ghost predicate Busy(bufs: seq<Buf>, dev: nat, blockno: nat) {
    exists i :: 0 <= i < |bufs| && bufs[i].dev == dev && bufs[i].blockno == blockno && bufs[i].locked
  }

  ghost predicate CanRecycle(bufs: seq<Buf>) {
    exists i :: 0 <= i < |bufs| && bufs[i].refcnt == 0 && !bufs[i].dirty
  }

  /** Every buffer used less recently than b is referenced or pinned. */
  ghost predicate LeastRecent(bufs: seq<Buf>, order: seq<nat>, b: nat) {
    forall k, j :: 0 <= k < j < |order| && order[k] == b && order[j] < |bufs| ==>
      bufs[order[j]].refcnt > 0 || bufs[order[j]].dirty
  }

  /** now is was with buffer b given out, locked, for a block; b keeps its pin if it had one. */
  ghost predicate GaveOut(was: seq<Buf>, now: seq<Buf>, b: nat, blockno: nat) {
    && |now| == |was| && b < |was|
    && (forall i :: 0 <= i < |was| && i != b ==> now[i] == was[i])
    && now[b].dev == DISK && now[b].blockno == blockno && now[b].valid
    && now[b].locked && !was[b].locked
    && (was[b].refcnt == 0 ==> now[b].refcnt == 1)
    && now[b].dirty == was[b].dirty
    && (now[b].dirty ==> was[b].blockno == blockno)
  }

  // ---- One process among others --------------------------------------------------------

  /** What a process that reads blocks may do next: the sections of bread and brelse. */
  datatype Step =
    | Get(dev: nat, blockno: nat)    // bget, up to its lock
    | Take(b: nat)                   // acquiresleep
    | Read(b: nat)                   // iderw of a buffer not read yet
    | Give(b: nat)                   // releasesleep
    | Drop(b: nat)                   // the rest of brelse

  /** How bread ends for a process among others: with the buffer, in a panic, or never. */
  datatype Fate = Ready | NoBuffer | Stuck

  /** One process holds these buffers locked, and counts as a reference to those. */
  ghost predicate Claimed(bufs: seq<Buf>, held: set<nat>, counted: set<nat>) {
    && (forall i :: i in held ==> i < |bufs| && bufs[i].locked)
    && (forall i :: i in counted ==> i < |bufs| && bufs[i].refcnt >= if bufs[i].locked then 2 else 1)
  }

  /** Pins stay; held buffers stay but for further references; counted buffers keep their block. */
  ghost predicate Undisturbed(was: seq<Buf>, now: seq<Buf>, held: set<nat>, counted: set<nat>) {
    && |now| == |was|
    && forall i :: 0 <= i < |was| ==>
         && now[i].dirty == was[i].dirty
         && (was[i].dirty || i in counted ==> now[i].dev == was[i].dev && now[i].blockno == was[i].blockno)
         && (i in held ==> now[i] == was[i].(refcnt := now[i].refcnt))
  }

  /** Some process other than ours has a reference to b and not its lock. */
  predicate Spared(b: Buf, counted: bool) { b.refcnt > (if b.locked then 1 else 0) + if counted then 1 else 0 }

  /** Only buffer b changes, and it becomes x. */
  ghost predicate Becomes(was: seq<Buf>, now: seq<Buf>, b: nat, x: Buf) { b < |was| && now == was[b := x] }

  /** What a step of another process does, if it is one that some process can take. */
  ghost predicate Stepped(was: seq<Buf>, now: seq<Buf>, spec: seq<Block>, step: Step, held: set<nat>,
                          counted: set<nat>) {
    match step
    case Get(dev, n) =>
      if Caches(was, dev, n) then
        exists b: nat :: b < |was| && was[b].dev == dev && was[b].blockno == n
                         && Becomes(was, now, b, was[b].(refcnt := was[b].refcnt + 1))
      else if CanRecycle(was) then
        exists b: nat :: b < |was| && was[b].refcnt == 0 && !was[b].dirty
                         && Becomes(was, now, b, Buf(false, false, dev, n, false, 1, was[b].data))
      else now == was
    case Take(b) =>
      b < |was| && Spared(was[b], b in counted) && !was[b].locked ==> Becomes(was, now, b, was[b].(locked := true))
    case Read(b) =>
      b < |was| && was[b].locked && b !in held && !was[b].valid && was[b].dev == DISK && was[b].blockno < |spec| ==>
        Becomes(was, now, b, was[b].(valid := true, data := spec[was[b].blockno]))
    case Give(b) => b < |was| && was[b].locked && b !in held ==> Becomes(was, now, b, was[b].(locked := false))
    case Drop(b) =>
      b < |was| && Spared(was[b], b in counted) ==> Becomes(was, now, b, was[b].(refcnt := was[b].refcnt - 1))
  }

  /** Nobody but that process has a buffer with contents of its own. */
  ghost predicate Published(bufs: seq<Buf>, spec: seq<Block>, held: set<nat>) {
    forall i :: 0 <= i < |bufs| && i !in held ==> Released(bufs[i], spec)
  }

  /** No other process uses any buffer. */
  ghost predicate Quiet(bufs: seq<Buf>, held: set<nat>) {
    forall i :: 0 <= i < |bufs| ==> bufs[i].refcnt == if i in held then 1 else 0
  }

  /** bget of another process, in the terms of Stepped. */
  lemma {:induction false} GetIsStep(was: seq<Buf>, now: seq<Buf>, spec: seq<Block>, dev: nat, n: nat, b: nat,
                                     held: set<nat>, counted: set<nat>)
    requires b < |was|
    requires if Caches(was, dev, n) then
               was[b].dev == dev && was[b].blockno == n && now == was[b := was[b].(refcnt := was[b].refcnt + 1)]
             else
               && was[b].refcnt == 0 && !was[b].dirty
               && now == was[b := Buf(false, false, dev, n, false, 1, was[b].data)]
    ensures Stepped(was, now, spec, Get(dev, n), held, counted)
  {
    hide Caches;
    if Caches(was, dev, n) {
      assert Becomes(was, now, b, was[b].(refcnt := was[b].refcnt + 1));
    } else {
      assert Becomes(was, now, b, Buf(false, false, dev, n, false, 1, was[b].data));
    }
  }

  lemma {:induction false} GetIsNoStep(was: seq<Buf>, spec: seq<Block>, dev: nat, n: nat, held: set<nat>,
                                       counted: set<nat>)
    requires !Caches(was, dev, n) && !CanRecycle(was)
    ensures Stepped(was, was, spec, Get(dev, n), held, counted)
  {
  }

  lemma {:induction false} SameBuffers(bufs: seq<Buf>, held: set<nat>, counted: set<nat>)
    ensures Undisturbed(bufs, bufs, held, counted)
  {
  }

  lemma {:induction false} UndisturbedTwice(a: seq<Buf>, b: seq<Buf>, c: seq<Buf>, held: set<nat>, counted: set<nat>)
    requires Undisturbed(a, b, held, counted) && Undisturbed(b, c, held, counted)
    ensures Undisturbed(a, c, held, counted)
  {
  }

  /** A step that changes one buffer, neither held nor pinned differently, disturbs nobody. */
  lemma {:induction false} OneStep(was: seq<Buf>, b: nat, x: Buf, spec: seq<Block>, held: set<nat>, counted: set<nat>)
    requires b < |was| && Claimed(was, held, counted) && Published(was, spec, held)
    requires x.dirty == was[b].dirty && (b !in held ==> Released(x, spec))
    requires b in held ==> x == was[b].(refcnt := x.refcnt)
    requires (x.dev == was[b].dev && x.blockno == was[b].blockno) || (was[b].refcnt == 0 && !was[b].dirty)
    requires b in counted ==> x.refcnt >= if x.locked then 2 else 1
    ensures var now := was[b := x];
            Claimed(now, held, counted) && Published(now, spec, held) && Undisturbed(was, now, held, counted)
  {
  }

  lemma {:induction false} Fewer(was: seq<Buf>, now: seq<Buf>, held: set<nat>, counted: set<nat>, fewer: set<nat>)
    requires Undisturbed(was, now, held, counted) && fewer <= held
    ensures Undisturbed(was, now, fewer, {})
  {
  }

  lemma {:induction false} Keeps(was: seq<Buf>, now: seq<Buf>, held: set<nat>)
    requires Undisturbed(was, now, held, {})
    ensures |now| == |was| && forall i :: i in held && i < |was| ==> now[i] == was[i].(refcnt := now[i].refcnt)
  {
  }

  /** Locking a free buffer adds it to the held ones. */
  lemma {:induction false} TakeLock(was: seq<Buf>, b: nat, spec: seq<Block>, held: set<nat>)
    requires b < |was| && !was[b].locked && Claimed(was, held, {b}) && Published(was, spec, held)
    ensures var now := was[b := was[b].(locked := true)];
            && b !in held && Released(now[b], spec)
            && Claimed(now, held + {b}, {}) && Published(now, spec, held + {b}) && Undisturbed(was, now, held, {})
  {
    assert Released(was[b], spec);
  }

  /** The holder of a buffer may change its contents. */
  lemma {:induction false} OwnStep(was: seq<Buf>, b: nat, x: Buf, spec: seq<Block>, held: set<nat>)
    requires b < |was| && b !in held && Claimed(was, held + {b}, {}) && Published(was, spec, held + {b})
    requires x.locked && x.dirty == was[b].dirty && x.dev == was[b].dev && x.blockno == was[b].blockno
    ensures var now := was[b := x];
            && Claimed(now, held + {b}, {}) && Published(now, spec, held + {b}) && Undisturbed(was, now, held, {})
            && (x.refcnt == was[b].refcnt && Quiet(was, held + {b}) ==> Quiet(now, held + {b}))
  {
  }

  /** Every pin stays but b's, which is dropped. */
  ghost predicate Unpinned(was: seq<Buf>, now: seq<Buf>, b: nat) {
    && |now| == |was|
    && forall i :: 0 <= i < |was| ==>
         && now[i].dirty == (was[i].dirty && i != b)
         && (now[i].dirty ==> now[i].dev == was[i].dev && now[i].blockno == was[i].blockno)
  }

  lemma {:induction false} UnpinnedStays(a: seq<Buf>, b: seq<Buf>, c: seq<Buf>, x: nat, held: set<nat>)
    requires Unpinned(a, b, x) && Undisturbed(b, c, held, {})
    ensures Unpinned(a, c, x)
  {
  }

  lemma {:induction false} UndisturbedUnpinned(a: seq<Buf>, b: seq<Buf>, c: seq<Buf>, x: nat, held: set<nat>)
    requires Undisturbed(a, b, held, {}) && Unpinned(b, c, x)
    ensures Unpinned(a, c, x)
  {
  }

  /** Writing a held buffer out publishes its contents; everybody else's stay published. */
  lemma {:induction false} OwnWrite(was: seq<Buf>, b: nat, spec: seq<Block>, held: set<nat>)
    requires b < |was| && b in held && was[b].dev == DISK && was[b].blockno < |spec| && Unique(was)
    requires forall i :: 0 <= i < |was| ==> Current(was[i], spec)
    requires Claimed(was, held, {}) && Published(was, spec, held)
    ensures var now := was[b := was[b].(dirty := false, valid := true)];
            var spec' := spec[was[b].blockno := was[b].data];
            && Claimed(now, held, {}) && Published(now, spec', held) && Released(now[b], spec')
            && Unpinned(was, now, b) && (Quiet(was, held) ==> Quiet(now, held))
  {
    var now, spec' := was[b := was[b].(dirty := false, valid := true)], spec[was[b].blockno := was[b].data];
    forall i | 0 <= i < |now| && i !in held
      ensures Released(now[i], spec')
    {
      assert Released(was[i], spec) && Current(was[i], spec);
    }
  }

  /** Unlocking a buffer whose contents are published leaves a reference to it. */
  lemma {:induction false} GiveLock(was: seq<Buf>, b: nat, spec: seq<Block>, held: set<nat>)
    requires b < |was| && b in held && was[b].refcnt >= 1 && Released(was[b], spec)
    requires Claimed(was, held, {}) && Published(was, spec, held)
    ensures var now := was[b := was[b].(locked := false)];
            && Claimed(now, held - {b}, {b}) && Published(now, spec, held - {b})
            && Undisturbed(was, now, held - {b}, {})
  {
  }

  lemma {:induction false} QuietGive(was: seq<Buf>, b: nat, held: set<nat>)
    requires b < |was| && b in held && Quiet(was, held)
    ensures Quiet(was[b := was[b].(locked := false, refcnt := 0)], held - {b})
  {
  }

  /** In a quiet cache bget gives out a buffer that nobody has locked. */
  lemma {:induction false} QuietGet(was: seq<Buf>, b: nat, x: Buf, held: set<nat>)
    requires b < |was| && Quiet(was, held) && x.refcnt == was[b].refcnt + 1 && b !in held
    ensures Quiet(was[b := x.(locked := true)], held + {b})
  {
  }

  class Bcache {
    var bufs: seq<Buf>
    var next: seq<nat>
    var prev: seq<nat>
    var disk: seq<Block>
    ghost var order: seq<nat>      // the ring, most recently used first
    ghost var pending: seq<nat>    // per buffer: references whose owner does not hold the lock
    ghost var spec: seq<Block>     // per block: the contents last written or logged
    ghost var writes: seq<Write>   // every block write so far

    /** The ring holds every buffer exactly once. */
    ghost predicate Shape()
      reads this
    {
      && |bufs| == NBUF
      && Ring(order, next, prev)
      && forall b: nat :: b < NBUF ==> b in order
    }

    ghost predicate Valid()
      reads this
    {
      Shape() && Coherent(bufs, pending, disk, spec)
    }

    /** The parts of Valid that callers reason with. */
    lemma Known()
      requires Valid()
      ensures Shape() && Unique(bufs) && Backed(bufs, disk, spec) && Counted(bufs, pending)
      ensures forall i :: 0 <= i < |bufs| ==> Current(bufs[i], spec)
    {
    }

    /** binit: link every buffer at the front of the list, one after the other. */
    constructor (blocks: seq<Block>)
      ensures Valid() && disk == spec == blocks && writes == []
      ensures forall b: nat :: b < NBUF ==> bufs[b].refcnt == 0 && !bufs[b].dirty && !bufs[b].valid
    {
      var zero: Block := seq(BSIZE, _ => 0);
      var empty := seq(NBUF, _ => Buf(false, false, 0, 0, false, 0, zero));
      bufs, disk, spec, writes, order := empty, blocks, blocks, [], [];
      pending := seq(NBUF, _ => 0);
      next, prev := seq(NBUF + 1, _ => HEAD), seq(NBUF + 1, _ => HEAD);
      new;
      for b := 0 to NBUF
        invariant Ring(order, next, prev)
        invariant forall i: nat :: i < NBUF ==> (i in order <==> i < b)
        invariant bufs == empty && pending == seq(NBUF, _ => 0)
        invariant disk == spec == blocks && writes == []
      {
        LinkFront(b);
      }
    }

    /** The four stores that put b behind the head. */
    method LinkFront(b: nat)
      requires Ring(order, next, prev) && b < NBUF && b !in order
      modifies this`next, this`prev, this`order
      ensures Ring(order, next, prev) && order == [b] + old(order)
    {
      PushFront(order, next, prev, b);
      next := next[b := next[HEAD]];
      prev := prev[b := HEAD];
      prev := prev[next[HEAD] := b];
      next := next[HEAD := b];
      order := [b] + order;
    }

    /** The scan of bget forward along next. */
    method Find(dev: nat, blockno: nat) returns (b: nat)
      requires Shape()
      ensures b <= NBUF
      ensures b < NBUF ==> bufs[b].dev == dev && bufs[b].blockno == blockno
      ensures b == HEAD <==> !Caches(bufs, dev, blockno)
    {
      Links(order, next, prev, 0);
      b := next[HEAD];
      ghost var i := 1;
      while b != HEAD
        invariant 1 <= i <= |order| + 1 && b == At(order, i)
        invariant forall k :: 0 <= k < i - 1 ==> !(bufs[order[k]].dev == dev && bufs[order[k]].blockno == blockno)
        decreases |order| - i
      {
        if bufs[b].dev == dev && bufs[b].blockno == blockno {
          return;
        }
        Links(order, next, prev, i);
        b := next[b];
        i := i + 1;
      }
      forall x: nat | x < NBUF
        ensures !(bufs[x].dev == dev && bufs[x].blockno == blockno)
      {
        assert x in order;
        var k :| 0 <= k < |order| && order[k] == x;
      }
    }

    /** The scan of bget backward along prev: least recently used first. */
    method FindUnused() returns (b: nat)
      requires Shape()
      ensures b <= NBUF
      ensures b < NBUF ==> bufs[b].refcnt == 0 && !bufs[b].dirty
      ensures b == HEAD <==> !CanRecycle(bufs)
      ensures b < NBUF ==> LeastRecent(bufs, order, b)
    {
      Links(order, next, prev, |order|);
      b := prev[HEAD];
      ghost var i := |order|;
      while b != HEAD
        invariant 0 <= i <= |order| && b == At(order, i)
        invariant forall k :: i <= k < |order| ==> !(bufs[order[k]].refcnt == 0 && !bufs[order[k]].dirty)
        decreases i
      {
        if bufs[b].refcnt == 0 && !bufs[b].dirty {
          assert order[i - 1] == b;
          assert forall k :: 0 <= k < |order| && k != i - 1 ==> order[k] != b;
          return;
        }
        Links(order, next, prev, i - 1);
        b := prev[b];
        i := i - 1;
      }
      forall x: nat | x < NBUF
        ensures !(bufs[x].refcnt == 0 && !bufs[x].dirty)
      {
        assert x in order;
        var k :| 0 <= k < |order| && order[k] == x;
      }
    }

    /**
     bget up to the release of bcache.lock. The buffer is the one that already caches the
     block or else the least recently used one that nobody references and the log has not
     pinned; its reference is counted, its lock is not taken yet. HEAD stands for the panic.
     */
    method Bget(dev: nat, blockno: nat) returns (b: nat)
      requires Valid()
      modifies this`bufs, this`pending
      ensures Valid() && b <= NBUF
      ensures b == HEAD <==> !Caches(old(bufs), dev, blockno) && !CanRecycle(old(bufs))
      ensures b == HEAD ==> bufs == old(bufs) && pending == old(pending)
      ensures b < NBUF && Caches(old(bufs), dev, blockno) ==>
                && old(bufs[b]).dev == dev && old(bufs[b]).blockno == blockno
                && bufs == old(bufs)[b := old(bufs[b]).(refcnt := old(bufs[b]).refcnt + 1)]
      ensures b < NBUF && !Caches(old(bufs), dev, blockno) ==>
                && old(bufs[b]).refcnt == 0 && !old(bufs[b]).dirty && LeastRecent(old(bufs), order, b)
                && bufs == old(bufs)[b := Buf(false, false, dev, blockno, false, 1, old(bufs[b]).data)]
      ensures b < NBUF ==> pending == old(pending)[b := old(pending[b]) + 1]
    {
      b := Find(dev, blockno);
      if b != HEAD {
        var x := bufs[b].(refcnt := bufs[b].refcnt + 1);
        assert Current(bufs[b], spec);
        Replace(bufs, pending, disk, spec, b, x, pending[b] + 1);
        bufs, pending := bufs[b := x], pending[b := pending[b] + 1];
      } else {
        b := FindUnused();
        if b != HEAD {
          var x := bufs[b].(dev := dev, blockno := blockno, valid := false, dirty := false, refcnt := 1);
          Replace(bufs, pending, disk, spec, b, x, pending[b] + 1);
          bufs, pending := bufs[b := x], pending[b := pending[b] + 1];
        }
      }
    }

    /** One try at a buffer's sleep lock by a process that holds a reference. */
    method AcquireSleep(b: nat) returns (got: bool)
      requires Valid() && b < NBUF && pending[b] >= 1
      modifies this`bufs, this`pending
      ensures Valid()
      ensures got == !old(bufs[b]).locked
      ensures !got ==> bufs == old(bufs) && pending == old(pending)
      ensures got ==> bufs == old(bufs)[b := old(bufs[b]).(locked := true)]
      ensures got ==> pending == old(pending)[b := old(pending[b]) - 1]
    {
      got := !bufs[b].locked;
      if got {
        var x := bufs[b].(locked := true);
        assert Current(bufs[b], spec);
        Replace(bufs, pending, disk, spec, b, x, pending[b] - 1);
        bufs, pending := bufs[b := x], pending[b := pending[b] - 1];
      }
    }

    /** The memory disk: a dirty buffer is written, an invalid one is read, anything else panics. */
    method Iderw(b: nat) returns (r: IdeResult)
      requires b < |bufs|
      modifies this`bufs, this`disk, this`writes
      ensures r == Panic <==>
              var x := old(bufs[b]);
              !x.locked || (x.valid && !x.dirty) || x.dev != DISK || x.blockno >= |old(disk)|
      ensures r == Panic ==> bufs == old(bufs) && disk == old(disk) && writes == old(writes)
      ensures r == Done && old(bufs[b]).dirty ==>
                && disk == old(disk)[old(bufs[b]).blockno := old(bufs[b]).data]
                && writes == old(writes) + [Write(old(bufs[b]).blockno, old(bufs[b]).data)]
                && bufs == old(bufs)[b := old(bufs[b]).(dirty := false, valid := true)]
      ensures r == Done && !old(bufs[b]).dirty ==>
                && disk == old(disk) && writes == old(writes)
                && bufs == old(bufs)[b := old(bufs[b]).(data := disk[old(bufs[b]).blockno], valid := true)]
    {
      var x := bufs[b];
      if !x.locked || (x.valid && !x.dirty) || x.dev != DISK || x.blockno >= |disk| {
        return Panic;
      }
      if x.dirty {
        disk := disk[x.blockno := x.data];
        writes := writes + [Write(x.blockno, x.data)];
        bufs := bufs[b := x.(dirty := false, valid := true)];
      } else {
        bufs := bufs[b := x.(data := disk[x.blockno], valid := true)];
      }
      r := Done;
    }

    /** The part of bread after the lock is held: read the block unless the buffer is valid. */
    method Fill(b: nat) returns (r: IdeResult)
      requires Valid() && b < NBUF && bufs[b].locked
      modifies this`bufs, this`disk, this`writes
      ensures Valid() && disk == old(disk) && writes == old(writes)
      ensures r == Panic <==> old(bufs[b]).dev != DISK || old(bufs[b]).blockno >= |disk|
      ensures r == Panic ==> bufs == old(bufs)
      ensures r == Done ==>
                && bufs == old(bufs)[b := old(bufs[b]).(data := bufs[b].data, valid := true)]
                && (if old(bufs[b]).valid then bufs[b].data == old(bufs[b]).data
                    else bufs[b].data == spec[bufs[b].blockno])
    {
      r := Done;
      ghost var x := bufs[b];
      assert Current(x, spec);
      if !bufs[b].valid {
        if x.dev == DISK && x.blockno < |disk| {
          UnreadIsBacked(bufs, pending, disk, spec, b);
        }
        r := Iderw(b);
        if r == Done {
          Replace(old(bufs), pending, disk, spec, b, bufs[b], pending[b]);
          assert pending[b := pending[b]] == pending;
        }
      }
    }

    /** bread: a buffer for the block, locked and holding the contents last written or logged. */
    method Bread(dev: nat, blockno: nat) returns (r: ReadResult)
      requires Valid()
      modifies this`bufs, this`pending, this`disk, this`writes
      ensures Valid() && disk == old(disk) && writes == old(writes)
      ensures r.Got? || r.Asleep? ==> r.b < NBUF
      ensures r == NoBuffers <==> !Caches(old(bufs), dev, blockno) && !CanRecycle(old(bufs))
      ensures r.Got? ==>
                && dev == DISK && blockno < |disk| && pending == old(pending)
                && GaveOut(old(bufs), bufs, r.b, blockno) && bufs[r.b].data == spec[blockno]
      ensures r.Asleep? ==>
                && old(bufs[r.b]).locked && old(bufs[r.b]).dev == dev && old(bufs[r.b]).blockno == blockno
      ensures dev != 0 ==> (r.Asleep? <==> Busy(old(bufs), dev, blockno))
      ensures r == BadBlock <==> r != NoBuffers && !r.Asleep? && (dev != DISK || blockno >= |disk|)
    {
      var b := Bget(dev, blockno);
      if b == HEAD {
        return NoBuffers;
      }
      var got := AcquireSleep(b);
      if !got {
        return Asleep(b);
      }
      assert Current(bufs[b], spec);
      var filled := Fill(b);
      r := if filled == Done then Got(b) else BadBlock;
    }

    /** The lock holder changes the buffer's data; readers see nothing of it yet. */
    method Modify(b: nat, data: Block)
      requires Valid() && b < NBUF && bufs[b].locked
      modifies this`bufs
      ensures Valid()
      ensures bufs == old(bufs)[b := old(bufs[b]).(data := data)]
    {
      var x := bufs[b].(data := data);
      assert Current(bufs[b], spec);
      Replace(bufs, pending, disk, spec, b, x, pending[b]);
      assert pending[b := pending[b]] == pending;
      bufs := bufs[b := x];
    }

    /** bwrite: the data reaches the disk and is what every later reader sees, read before or not. */
    method Bwrite(b: nat) returns (r: IdeResult)
      requires Valid() && b < NBUF
      modifies this`bufs, this`disk, this`writes, this`spec
      ensures r == Panic <==> !old(bufs[b]).locked || old(bufs[b]).dev != DISK || old(bufs[b]).blockno >= |old(disk)|
      ensures r == Panic ==> disk == old(disk) && writes == old(writes) && spec == old(spec)
      ensures !old(bufs[b]).locked ==> unchanged(this)
      ensures r == Done ==>
                var n, v := old(bufs[b]).blockno, old(bufs[b]).data;
                && Valid()
                && disk == old(disk)[n := v] && spec == old(spec)[n := v]
                && writes == old(writes) + [Write(n, v)]
                && bufs == old(bufs)[b := old(bufs[b]).(dirty := false, valid := true)]
    {
      if !bufs[b].locked {
        return Panic;
      }
      ghost var n, v := bufs[b].blockno, bufs[b].data;
      if bufs[b].dev == DISK && n < |spec| {
        Publish(bufs, pending, disk, spec, b, true);
      }
      bufs := bufs[b := bufs[b].(dirty := true)];
      r := Iderw(b);
      if r == Done {
        spec := spec[n := v];
        assert bufs == old(bufs)[b := old(bufs[b]).(dirty := false, valid := true)];
      }
    }

    /** The last step of log_write: the data is what readers see, and the buffer may not be recycled. */
    method Pin(b: nat)
      requires Valid() && b < NBUF && bufs[b].locked && bufs[b].valid
      modifies this`bufs, this`spec
      ensures Valid()
      ensures bufs[b].blockno < |old(spec)|
      ensures spec == old(spec)[bufs[b].blockno := bufs[b].data]
      ensures bufs == old(bufs)[b := old(bufs[b]).(dirty := true)]
    {
      assert Current(bufs[b], spec);
      Publish(bufs, pending, disk, spec, b, false);
      assert bufs[b].(dirty := true, valid := true) == bufs[b].(dirty := true);
      spec := spec[bufs[b].blockno := bufs[b].data];
      bufs := bufs[b := bufs[b].(dirty := true)];
    }

    /**
     brelse, first section: give up the lock. The cache stays coherent exactly when the holder
     has written or logged what it changed.
     */
    method ReleaseSleep(b: nat)
      requires Valid() && b < NBUF && bufs[b].locked
      modifies this`bufs, this`pending
      ensures Shape() && Counted(bufs, pending)
      ensures Valid() <==> Released(bufs[b], spec)
      ensures bufs == old(bufs)[b := old(bufs[b]).(locked := false)]
      ensures pending == old(pending)[b := old(pending[b]) + 1]
    {
      var x := bufs[b].(locked := false);
      assert Current(bufs[b], spec);
      if Released(bufs[b], spec) {
        Replace(bufs, pending, disk, spec, b, x, pending[b] + 1);
      }
      bufs, pending := bufs[b := x], pending[b := pending[b] + 1];
      assert bufs[b] == x;
    }

    /** brelse, second section: drop the reference; the last one moves the buffer to the front of the ring. */
    method DropRef(b: nat)
      requires Shape() && Counted(bufs, pending) && b < NBUF && pending[b] >= 1
      modifies this`bufs, this`pending, this`next, this`prev, this`order
      ensures Shape() && Counted(bufs, pending) && (old(Valid()) ==> Valid())
      ensures bufs == old(bufs)[b := old(bufs[b]).(refcnt := old(bufs[b]).refcnt - 1)]
      ensures pending == old(pending)[b := old(pending[b]) - 1]
      ensures bufs[b].refcnt > 0 ==> order == old(order)
      ensures bufs[b].refcnt == 0 ==>
                exists k: nat :: k < |old(order)| && old(order)[k] == b && order == [b] + Without(old(order), k)
    {
      var x := bufs[b].(refcnt := bufs[b].refcnt - 1);
      if Valid() {
        assert Current(bufs[b], spec);
        Replace(bufs, pending, disk, spec, b, x, pending[b] - 1);
      }
      bufs, pending := bufs[b := x], pending[b := pending[b] - 1];
      if bufs[b].refcnt == 0 {
        MoveToFront(b);
      }
    }

    /** The six stores of brelse that take b out of the ring and put it back behind the head. */
    method MoveToFront(b: nat)
      requires Shape() && b < NBUF
      modifies this`next, this`prev, this`order
      ensures Shape()
      ensures exists k: nat :: k < |old(order)| && old(order)[k] == b && order == [b] + Without(old(order), k)
    {
      assert b in order;
      ghost var k: nat :| k < |order| && order[k] == b;
      Unlink(order, next, prev, k);
      prev := prev[next[b] := prev[b]];
      next := next[prev[b] := next[b]];
      order := Without(order, k);
      WithoutMembers(old(order), k);
      LinkFront(b);
    }

    /** brelse as its caller sees it. */
    method Brelse(b: nat) returns (r: IdeResult)
      requires Valid() && b < NBUF
      modifies this`bufs, this`pending, this`next, this`prev, this`order
      ensures r == Done ==> Shape() && (Valid() <==> Released(bufs[b], spec))
      ensures r == Panic <==> !old(bufs[b]).locked
      ensures r == Panic ==> unchanged(this)
      ensures r == Done ==>
                && bufs == old(bufs)[b := old(bufs[b]).(locked := false, refcnt := old(bufs[b]).refcnt - 1)]
                && pending == old(pending)
    {
      if !bufs[b].locked {
        return Panic;
      }
      assert bufs[b].refcnt == pending[b] + 1;
      ReleaseSleep(b);
      DropRef(b);
      r := Done;
    }

    /**
     Any other process takes one step of a read. Our locks, our reference, the pins, the disk
     and what readers see are as before. A process that finds no buffer halts the machine, and
     so does one that asks for a block that does not exist; here they just do nothing.
     */
    method OtherStep(step: Step, held: set<nat>, counted: set<nat>)
      requires Valid() && Claimed(bufs, held, counted) && Published(bufs, spec, held)
      modifies this`bufs, this`pending, this`next, this`prev, this`order, this`disk, this`writes
      ensures Valid() && disk == old(disk) && writes == old(writes)
      ensures Claimed(bufs, held, counted) && Published(bufs, spec, held)
      ensures Undisturbed(old(bufs), bufs, held, counted)
      ensures Stepped(old(bufs), bufs, spec, step, held, counted)
    {
      if step.Get? {
        OtherGet(step.dev, step.blockno, held, counted);
      } else if step.Take? || step.Drop? {
        OtherRef(step, held, counted);
      } else {
        OtherLock(step, held, counted);
      }
    }

    method OtherGet(dev: nat, blockno: nat, held: set<nat>, counted: set<nat>)
      requires Valid() && Claimed(bufs, held, counted) && Published(bufs, spec, held)
      modifies this`bufs, this`pending, this`next, this`prev, this`order, this`disk, this`writes
      ensures Valid() && disk == old(disk) && writes == old(writes)
      ensures Claimed(bufs, held, counted) && Published(bufs, spec, held)
      ensures Undisturbed(old(bufs), bufs, held, counted)
      ensures Stepped(old(bufs), bufs, spec, Get(dev, blockno), held, counted)
    {
      ghost var was := bufs;
      Known();
      hide Bcache.Valid, Ring, Unique, Backed, Undisturbed, Caches, CanRecycle, Stepped, LeastRecent;
      var b := Bget(dev, blockno);
      if b != HEAD {
        OneStep(was, b, bufs[b], spec, held, counted);
        hide Claimed, Published, Current;
        GetIsStep(was, bufs, spec, dev, blockno, b, held, counted);
      } else {
        hide Claimed, Published, Current;
        SameBuffers(was, held, counted);
        GetIsNoStep(was, spec, dev, blockno, held, counted);
      }
    }

    /** A process that has a reference to a buffer and not its lock. */
    method OtherRef(step: Step, held: set<nat>, counted: set<nat>)
      requires step.Take? || step.Drop?
      requires Valid() && Claimed(bufs, held, counted) && Published(bufs, spec, held)
      modifies this`bufs, this`pending, this`next, this`prev, this`order, this`disk, this`writes
      ensures Valid() && disk == old(disk) && writes == old(writes)
      ensures Claimed(bufs, held, counted) && Published(bufs, spec, held)
      ensures Undisturbed(old(bufs), bufs, held, counted)
      ensures Stepped(old(bufs), bufs, spec, step, held, counted)
    {
      ghost var was := bufs;
      Known();
      hide Bcache.Valid, Ring, Unique, Backed, Undisturbed;
      SameBuffers(was, held, counted);
      var b := step.b;
      if b < NBUF && Spared(bufs[b], b in counted) {
        var got := true;
        if step.Take? {
          got := AcquireSleep(b);
        } else {
          DropRef(b);
        }
        if got {
          OneStep(was, b, bufs[b], spec, held, counted);
        }
      }
    }

    /** A process that has the lock of a buffer. */
    method OtherLock(step: Step, held: set<nat>, counted: set<nat>)
      requires step.Read? || step.Give?
      requires Valid() && Claimed(bufs, held, counted) && Published(bufs, spec, held)
      modifies this`bufs, this`pending, this`next, this`prev, this`order, this`disk, this`writes
      ensures Valid() && disk == old(disk) && writes == old(writes)
      ensures Claimed(bufs, held, counted) && Published(bufs, spec, held)
      ensures Undisturbed(old(bufs), bufs, held, counted)
      ensures Stepped(old(bufs), bufs, spec, step, held, counted)
    {
      ghost var was := bufs;
      Known();
      hide Bcache.Valid, Ring, Unique, Backed, Undisturbed;
      SameBuffers(was, held, counted);
      var b := step.b;
      if b < NBUF && bufs[b].locked && b !in held {
        if step.Read? {
          var r := Fill(b);
          if r == Done {
            OneStep(was, b, bufs[b], spec, held, counted);
          }
        } else {
          ReleaseSleep(b);
          OneStep(was, b, bufs[b], spec, held, counted);
        }
      }
    }

    /** If there are other processes, they take any number of steps. */
    method Others(shared: bool, held: set<nat>, counted: set<nat>)
      requires Valid() && Claimed(bufs, held, counted) && Published(bufs, spec, held)
      modifies this`bufs, this`pending, this`next, this`prev, this`order, this`disk, this`writes
      ensures Valid() && disk == old(disk) && writes == old(writes)
      ensures Claimed(bufs, held, counted) && Published(bufs, spec, held)
      ensures Undisturbed(old(bufs), bufs, held, counted)
      ensures !shared ==> bufs == old(bufs)
    {
      if shared {
        var steps: seq<Step> := *;
        for i := 0 to |steps|
          invariant Valid() && disk == old(disk) && writes == old(writes)
          invariant Claimed(bufs, held, counted) && Published(bufs, spec, held)
          invariant Undisturbed(old(bufs), bufs, held, counted)
        {
          ghost var mid := bufs;
          OtherStep(steps[i], held, counted);
          UndisturbedTwice(old(bufs), mid, bufs, held, counted);
        }
      }
    }

    /** acquiresleep among other processes, which run until the lock is free or for ever. */
    method Await(shared: bool, b: nat, held: set<nat>) returns (got: bool)
      requires Valid() && Claimed(bufs, held, {b}) && Published(bufs, spec, held)
      modifies this`bufs, this`pending, this`next, this`prev, this`order, this`disk, this`writes
      ensures Valid() && disk == old(disk) && writes == old(writes)
      ensures Undisturbed(old(bufs), bufs, held, {})
      ensures got ==>
                && b !in held && Released(bufs[b], spec)
                && bufs[b].dev == old(bufs[b]).dev && bufs[b].blockno == old(bufs[b]).blockno
                && Claimed(bufs, held + {b}, {}) && Published(bufs, spec, held + {b})
      ensures !shared ==> got == !old(bufs[b]).locked
      ensures !shared && got ==> bufs == old(bufs)[b := old(bufs[b]).(locked := true)]
    {
      ghost var was := bufs;
      Known();
      hide Bcache.Valid, Ring, Unique, Backed, Current, Published;
      Others(shared, held, {b});
      Fewer(was, bufs, held, {b}, held);
      ghost var late := bufs;
      got := AcquireSleep(b);
      if got {
        TakeLock(late, b, spec, held);
        UndisturbedTwice(was, late, bufs, held, {});
      }
    }

    /** bget and the wait for the lock. Stuck stands for a wait that does not end. */
    method Lock(shared: bool, blockno: nat, held: set<nat>) returns (f: Fate, b: nat)
      requires Valid() && Claimed(bufs, held, {}) && Published(bufs, spec, held)
      modifies this`bufs, this`pending, this`next, this`prev, this`order, this`disk, this`writes
      ensures Valid() && disk == old(disk) && writes == old(writes)
      ensures Undisturbed(old(bufs), bufs, held, {})
      ensures f == NoBuffer <==> !Caches(old(bufs), DISK, blockno) && !CanRecycle(old(bufs))
      ensures f == Ready ==>
                && b < NBUF && b !in held
                && bufs[b].dev == DISK && bufs[b].blockno == blockno && Released(bufs[b], spec)
                && Claimed(bufs, held + {b}, {}) && Published(bufs, spec, held + {b})
      ensures !shared && Quiet(old(bufs), held) && (forall i :: i in held ==> old(bufs[i]).blockno != blockno) ==>
                f != Stuck && (f == Ready ==> Quiet(bufs, held + {b}))
    {
      ghost var was := bufs;
      Known();
      hide Bcache.Valid, Ring, Unique, Backed, Current, Undisturbed, Published, Caches, CanRecycle, LeastRecent;
      b := Bget(DISK, blockno);
      if b == HEAD {
        f := NoBuffer;
        OneStep(was, 0, bufs[0], spec, held, {});
        assert was[0 := was[0]] == was;
      } else {
        OneStep(was, b, bufs[b], spec, held, {});
        ghost var mid := bufs;
        var got := Await(shared, b, held);
        UndisturbedTwice(was, mid, bufs, held, {});
        f := if got then Ready else Stuck;
        if !shared && Quiet(was, held) && b !in held {
          QuietGet(was, b, mid[b], held);
        }
      }
    }

    /** bread among other processes: a buffer with the contents last written or logged. */
    method Fetch(shared: bool, blockno: nat, held: set<nat>) returns (f: Fate, b: nat)
      requires Valid() && Claimed(bufs, held, {}) && Published(bufs, spec, held) && blockno < |disk|
      modifies this`bufs, this`pending, this`next, this`prev, this`order, this`disk, this`writes
      ensures Valid() && disk == old(disk) && writes == old(writes)
      ensures Undisturbed(old(bufs), bufs, held, {})
      ensures f == NoBuffer <==> !Caches(old(bufs), DISK, blockno) && !CanRecycle(old(bufs))
      ensures f == Ready ==>
                && b < NBUF && b !in held && bufs[b].valid
                && bufs[b].dev == DISK && bufs[b].blockno == blockno && bufs[b].data == spec[blockno]
                && Claimed(bufs, held + {b}, {}) && Published(bufs, spec, held + {b})
      ensures !shared && Quiet(old(bufs), held) && (forall i :: i in held ==> old(bufs[i]).blockno != blockno) ==>
                f != Stuck && (f == Ready ==> Quiet(bufs, held + {b}))
    {
      ghost var was := bufs;
      Known();
      hide Bcache.Valid, Bcache.Shape, Counted, Unique, Backed, Current, Undisturbed, Published, Quiet, Caches,
           CanRecycle;
      f, b := Lock(shared, blockno, held);
      if f == Ready {
        ghost var locked := bufs;
        Others(shared, held + {b}, {});
        Fewer(locked, bufs, held + {b}, {}, held);
        UndisturbedTwice(was, locked, bufs, held, {});
        ghost var before := bufs;
        var r := Fill(b);
        OwnStep(before, b, bufs[b], spec, held);
        UndisturbedTwice(was, before, bufs, held, {});
        ghost var filled := bufs;
        Others(shared, held + {b}, {});
        Fewer(filled, bufs, held + {b}, {}, held);
        UndisturbedTwice(was, filled, bufs, held, {});
      }
    }

    /** brelse among other processes. */
    method Release(shared: bool, b: nat, held: set<nat>)
      requires Valid() && Claimed(bufs, held, {}) && Published(bufs, spec, held)
      requires b in held && Released(bufs[b], spec)
      modifies this`bufs, this`pending, this`next, this`prev, this`order, this`disk, this`writes
      ensures Valid() && disk == old(disk) && writes == old(writes)
      ensures Claimed(bufs, held - {b}, {}) && Published(bufs, spec, held - {b})
      ensures Undisturbed(old(bufs), bufs, held - {b}, {})
      ensures !shared && Quiet(old(bufs), held) ==> Quiet(bufs, held - {b})
    {
      ghost var was := bufs;
      var rest := held - {b};
      Known();
      hide Bcache.Valid, Ring, Unique, Backed, Current, Undisturbed, Published;
      GiveLock(was, b, spec, held);
      ReleaseSleep(b);
      ghost var given := bufs;
      Others(shared, rest, {b});
      Fewer(given, bufs, rest, {b}, rest);
      UndisturbedTwice(was, given, bufs, rest, {});
      ghost var before := bufs;
      Known();
      DropRef(b);
      OneStep(before, b, bufs[b], spec, rest, {});
      UndisturbedTwice(was, before, bufs, rest, {});
      ghost var dropped := bufs;
      Others(shared, rest, {});
      UndisturbedTwice(was, dropped, bufs, rest, {});
      if !shared && Quiet(was, held) {
        QuietGive(was, b, held);
        assert bufs == was[b := was[b].(locked := false, refcnt := 0)];
      }
    }

    /** memmove into a held buffer, among other processes. */
    method Change(shared: bool, b: nat, data: Block, held: set<nat>)
      requires Valid() && Claimed(bufs, held + {b}, {}) && Published(bufs, spec, held + {b}) && b !in held
      modifies this`bufs, this`pending, this`next, this`prev, this`order, this`disk, this`writes
      ensures Valid() && disk == old(disk) && writes == old(writes)
      ensures Claimed(bufs, held + {b}, {}) && Published(bufs, spec, held + {b})
      ensures Undisturbed(old(bufs), bufs, held, {})
      ensures b < |old(bufs)| == |bufs| && bufs[b] == old(bufs[b]).(data := data, refcnt := bufs[b].refcnt)
      ensures !shared && Quiet(old(bufs), held + {b}) ==> Quiet(bufs, held + {b})
    {
      ghost var was := bufs;
      hide Bcache.Valid, Undisturbed, Published, Quiet;
      Known();
      Modify(b, data);
      OwnStep(was, b, bufs[b], spec, held);
      ghost var changed := bufs;
      Others(shared, held + {b}, {});
      Keeps(changed, bufs, held + {b});
      Fewer(changed, bufs, held + {b}, {}, held);
      UndisturbedTwice(was, changed, bufs, held, {});
    }

    /** bwrite of a held buffer, among other processes. */
    method WriteOut(shared: bool, b: nat, held: set<nat>)
      requires Valid() && Claimed(bufs, held, {}) && Published(bufs, spec, held) && b in held
      requires bufs[b].dev == DISK && bufs[b].blockno < |disk|
      modifies this
      ensures Valid() && Claimed(bufs, held, {}) && Published(bufs, spec, held) && Released(bufs[b], spec)
      ensures var n, v := old(bufs[b]).blockno, old(bufs[b]).data;
              && n < |old(disk)| == |old(spec)|
              && disk == old(disk)[n := v] && spec == old(spec)[n := v]
              && writes == old(writes) + [Write(n, v)]
      ensures Unpinned(old(bufs), bufs, b)
      ensures forall i :: i in held && i != b ==> i < |old(bufs)| && bufs[i] == old(bufs[i]).(refcnt := bufs[i].refcnt)
      ensures !shared && Quiet(old(bufs), held) ==> Quiet(bufs, held)
    {
      ghost var was := bufs;
      Known();
      hide Bcache.Valid, Bcache.Shape, Counted, Unique, Backed, Current, Undisturbed, Unpinned, Published, Quiet;
      OwnWrite(was, b, spec, held);
      var r := Bwrite(b);
      ghost var after := bufs;
      Others(shared, held, {});
      Keeps(after, bufs, held);
      UnpinnedStays(was, after, bufs, b, held);
    }

    /** memmove into a held buffer and bwrite of it, among other processes. */
    method Overwrite(shared: bool, b: nat, data: Block, held: set<nat>)
      requires Valid() && Claimed(bufs, held + {b}, {}) && Published(bufs, spec, held + {b}) && b !in held
      requires bufs[b].dev == DISK && bufs[b].blockno < |disk|
      modifies this
      ensures Valid() && Claimed(bufs, held + {b}, {}) && Published(bufs, spec, held + {b}) && Released(bufs[b], spec)
      ensures var n := old(bufs[b]).blockno;
              && n < |old(disk)| == |old(spec)|
              && disk == old(disk)[n := data] && spec == old(spec)[n := data]
              && writes == old(writes) + [Write(n, data)]
      ensures Unpinned(old(bufs), bufs, b)
      ensures forall i :: i in held ==> i < |old(bufs)| && bufs[i] == old(bufs[i]).(refcnt := bufs[i].refcnt)
      ensures !shared && Quiet(old(bufs), held + {b}) ==> Quiet(bufs, held + {b})
    {
      ghost var was := bufs;
      Known();
      hide Bcache.Valid, Bcache.Shape, Counted, Unique, Backed, Current, Undisturbed, Unpinned, Published, Quiet;
      Change(shared, b, data, held);
      ghost var changed := bufs;
      Keeps(was, changed, held);
      WriteOut(shared, b, held + {b});
      UndisturbedUnpinned(was, changed, bufs, b, held);
    }
  }
}
