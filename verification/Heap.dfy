/**
 The K&R allocator of umalloc.c. Addresses count headers of 8 bytes. The heap memory is
 the map of headers; the ghost part says which blocks are free, which are allocated and
 which block each unit obtained from sbrk belongs to.
 */
module Heap {
  import opened LittleEndian

  ghost predicate Ascending(r: seq<nat>) {
    forall i, j :: 0 <= i < j < |r| ==> r[i] < r[j]
  }

  function InsertAt(r: seq<nat>, k: nat, b: nat): (r': seq<nat>)
    requires k <= |r|
    ensures |r'| == |r| + 1
    ensures forall i :: 0 <= i < |r'| ==> r'[i] == if i < k then r[i] else if i == k then b else r[i - 1]
  {
    r[..k] + [b] + r[k..]
  }

  function Drop(r: seq<nat>, k: nat): (r': seq<nat>)
    requires k < |r|
    ensures |r'| == |r| - 1
    ensures forall i :: 0 <= i < |r'| ==> r'[i] == if i < k then r[i] else r[i + 1]
  {
    r[..k] + r[k + 1..]
  }

  lemma {:induction false} PutAscends(r: seq<nat>, k: nat, b: nat)
    requires Ascending(r) && 1 <= k <= |r| && r[k - 1] < b && (k < |r| ==> b < r[k])
    ensures Ascending(InsertAt(r, k, b))
  {
    var r' := InsertAt(r, k, b);
    forall i, j | 0 <= i < j < |r'|
      ensures r'[i] < r'[j]
    {
      if j == k {
        assert i == k - 1 || r[i] < r[k - 1];
      } else if i == k {
        assert j - 1 == k || r[k] < r[j - 1];
      }
    }
  }

  lemma {:induction false} DropAscends(r: seq<nat>, k: nat)
    requires Ascending(r) && k < |r|
    ensures Ascending(Drop(r, k))
  {
  }

  datatype Header = Header(ptr: nat, size: nat)

  /** hdr is the memory; ring lists the free blocks by address, starting with the static base. */
  datatype Heap = Heap(hdr: map<nat, Header>, ring: seq<nat>, used: set<nat>, owner: map<nat, nat>) {

    ghost function Size(a: nat): nat { if a in hdr then hdr[a].size else 0 }

    ghost function Ptr(a: nat): nat { if a in hdr then hdr[a].ptr else 0 }

    /** The block that follows position i on the free list. */
    ghost function After(i: nat): nat
      requires i < |ring|
    {
      if i + 1 < |ring| then ring[i + 1] else ring[0]
    }

    /** The units of block a are exactly those from a on, as many as its header says. */
    ghost predicate IsBlock(a: nat) {
      && a in hdr && Size(a) >= 1
      && forall u: nat :: a <= u < a + Size(a) <==> u in owner && owner[u] == a
    }

    /** The free list is one ring in address order from base. */
    ghost predicate Ring(base: nat) {
      && |ring| >= 1 && ring[0] == base && Size(base) == 0
      && Ascending(ring)
      && (forall i: nat :: i < |ring| ==> Linked(i))
    }

    /** The block at position i points at the one after it. */
    ghost predicate Linked(i: nat) { i < |ring| && ring[i] in hdr && Ptr(ring[i]) == After(i) }

    /** Free and allocated blocks tile the memory from sbrk: every unit is in exactly one of them. */
    ghost predicate Tiled(base: nat) { FreeBlocks() && UsedBlocks() && Owners(base) }

    ghost predicate FreeBlocks() { forall i: nat :: 1 <= i < |ring| ==> IsBlock(ring[i]) }

    ghost predicate UsedBlocks() { forall a: nat :: a in used ==> IsBlock(a) && !OnList(a) }

    ghost predicate Owners(base: nat) {
      forall u: nat :: u in owner ==> base < u && owner[u] != base && (owner[u] in used || OnList(owner[u]))
    }

    ghost predicate OnList(a: nat) { exists i: nat :: i < |ring| && ring[i] == a }

    ghost predicate Sound(base: nat) { Ring(base) && Tiled(base) }

    /** The free block at position i does not touch the next one. */
    ghost predicate Apart(i: nat) {
      1 <= i < |ring| - 1 ==> ring[i] + Size(ring[i]) != ring[i + 1]
    }

    /** Some free block has at least n units. */
    ghost predicate Fits(n: nat) { exists i: nat :: i < |ring| && Size(ring[i]) >= n }

    ghost predicate Coalesced() { forall i: nat :: i < |ring| ==> Apart(i) }
  }

  // ---- The steps of free ---------------------------------------------------------------------

  /** Link allocated block b behind position t. */
  ghost function Insert(h: Heap, t: nat, b: nat): Heap
    requires t < |h.ring|
  {
    var p := h.ring[t];
    Heap(h.hdr[b := Header(h.After(t), h.Size(b))][p := Header(b, h.Size(p))],
         InsertAt(h.ring, t + 1, b), h.used - {b}, h.owner)
  }

  /** A block whose size and units are the same is still a block. */
  lemma {:induction false} SameBlock(h: Heap, h': Heap, a: nat)
    requires h.IsBlock(a) && a in h'.hdr && h'.Size(a) == h.Size(a)
    requires forall u: nat :: (u in h'.owner && h'.owner[u] == a) <==> (u in h.owner && h.owner[u] == a)
    ensures h'.IsBlock(a)
  {
  }

  lemma {:induction false} InsertRing(h: Heap, base: nat, t: nat, b: nat)
    requires h.Ring(base) && t < |h.ring| && h.ring[t] < b && (t + 1 < |h.ring| ==> b < h.ring[t + 1]) && b != base
    ensures Insert(h, t, b).Ring(base)
  {
    var h' := Insert(h, t, b);
    PutAscends(h.ring, t + 1, b);
    forall i: nat | i < |h'.ring|
      ensures h'.Linked(i)
    {
      if i <= t {
        assert h.Linked(i);
      } else if i > t + 1 {
        assert h.Linked(i - 1);
      }
    }
  }

  lemma {:induction false} InsertOnList(h: Heap, t: nat, b: nat)
    requires t < |h.ring|
    ensures forall a: nat :: Insert(h, t, b).OnList(a) <==> h.OnList(a) || a == b
  {
    var h' := Insert(h, t, b);
    forall a: nat | h.OnList(a) || a == b
      ensures h'.OnList(a)
    {
      if a == b {
        assert h'.ring[t + 1] == b;
      } else {
        var i: nat :| i < |h.ring| && h.ring[i] == a;
        assert h'.ring[if i <= t then i else i + 1] == a;
      }
    }
    forall a: nat | h'.OnList(a) && a != b
      ensures h.OnList(a)
    {
      var i: nat :| i < |h'.ring| && h'.ring[i] == a;
      assert h.ring[if i <= t then i else i - 1] == a;
    }
  }

  lemma {:induction false} InsertBlocks(h: Heap, t: nat, b: nat)
    requires t < |h.ring|
    ensures forall a: nat :: h.IsBlock(a) ==> Insert(h, t, b).IsBlock(a)
  {
    var h' := Insert(h, t, b);
    forall a: nat | h.IsBlock(a)
      ensures h'.IsBlock(a)
    {
      assert a in h'.hdr && h'.Size(a) == h.Size(a);
      hide Insert, Heap.Size;
      SameBlock(h, h', a);
    }
  }

  lemma {:induction false} InsertSound(h: Heap, base: nat, t: nat, b: nat)
    requires h.Sound(base) && b in h.used && t < |h.ring| && h.ring[t] < b && (t + 1 < |h.ring| ==> b < h.ring[t + 1])
    ensures Insert(h, t, b).Sound(base)
  {
    var h' := Insert(h, t, b);
    assert h.OnList(base);
    InsertRing(h, base, t, b);
    InsertOnList(h, t, b);
    InsertBlocks(h, t, b);
    assert h'.used == h.used - {b} && h'.owner == h.owner;
    hide Insert, Heap.IsBlock, Heap.Size, Heap.Linked;
    forall i: nat | 1 <= i < |h'.ring|
      ensures h'.IsBlock(h'.ring[i])
    {
      var x := h'.ring[i];
      assert h'.ring[0] < x && h'.OnList(x);
      if x != b {
        var j: nat :| j < |h.ring| && h.ring[j] == x;
        assert h.IsBlock(h.ring[j]);
      }
    }
    hide Heap.Ring;
  }

  /** Join the free block at position i with the one after it, which it touches. */
  ghost function Merge(h: Heap, i: nat): Heap
    requires i + 1 < |h.ring|
  {
    var a, b := h.ring[i], h.ring[i + 1];
    Heap(h.hdr[a := Header(h.Ptr(b), h.Size(a) + h.Size(b))], Drop(h.ring, i + 1), h.used,
         map u: nat | u in h.owner :: if h.owner[u] == b then a else h.owner[u])
  }

  lemma {:induction false} DropOnList(h: Heap, h': Heap, k: nat)
    requires k < |h.ring| && h'.ring == Drop(h.ring, k) && Ascending(h.ring)
    ensures forall a: nat :: h'.OnList(a) <==> h.OnList(a) && a != h.ring[k]
  {
    forall a: nat | h.OnList(a) && a != h.ring[k]
      ensures h'.OnList(a)
    {
      var i: nat :| i < |h.ring| && h.ring[i] == a;
      assert h'.ring[if i < k then i else i - 1] == a;
    }
    forall a: nat | h'.OnList(a)
      ensures h.OnList(a) && a != h.ring[k]
    {
      var i: nat :| i < |h'.ring| && h'.ring[i] == a;
      assert h.ring[if i < k then i else i + 1] == a;
    }
  }

  lemma {:induction false} MergeRing(h: Heap, base: nat, i: nat)
    requires h.Ring(base) && 1 <= i && i + 1 < |h.ring|
    ensures Merge(h, i).Ring(base)
  {
    var h' := Merge(h, i);
    DropAscends(h.ring, i + 1);
    assert h.Linked(i + 1);
    forall k: nat | k < |h'.ring|
      ensures h'.Linked(k)
    {
      assert h.Linked(if k <= i then k else k + 1);
    }
  }

  lemma {:induction false} MergeBlock(h: Heap, i: nat)
    requires i + 1 < |h.ring| && h.IsBlock(h.ring[i]) && h.IsBlock(h.ring[i + 1])
    requires h.ring[i] + h.Size(h.ring[i]) == h.ring[i + 1]
    ensures Merge(h, i).IsBlock(h.ring[i])
  {
  }

  lemma {:induction false} MergeBlocks(h: Heap, base: nat, i: nat, x: nat)
    requires h.Sound(base) && 1 <= i && i + 1 < |h.ring|
    requires h.ring[i] + h.Size(h.ring[i]) == h.ring[i + 1]
    requires h.IsBlock(x) && x != h.ring[i + 1]
    ensures Merge(h, i).IsBlock(x)
  {
    assert h.IsBlock(h.ring[i]) && h.IsBlock(h.ring[i + 1]);
    if x == h.ring[i] {
      MergeBlock(h, i);
    } else {
      SameBlock(h, Merge(h, i), x);
    }
  }

  lemma {:induction false} MergeFree(h: Heap, base: nat, i: nat)
    requires h.Sound(base) && 1 <= i && i + 1 < |h.ring| && h.ring[i] + h.Size(h.ring[i]) == h.ring[i + 1]
    ensures Merge(h, i).FreeBlocks()
  {
    forall k: nat | 1 <= k < |h.ring| - 1
      ensures Merge(h, i).IsBlock(Merge(h, i).ring[k])
    {
      MergeBlocks(h, base, i, h.ring[if k <= i then k else k + 1]);
    }
  }

  lemma {:induction false} MergeUsed(h: Heap, base: nat, i: nat)
    requires h.Sound(base) && 1 <= i && i + 1 < |h.ring| && h.ring[i] + h.Size(h.ring[i]) == h.ring[i + 1]
    ensures Merge(h, i).UsedBlocks()
  {
    DropOnList(h, Merge(h, i), i + 1);
    assert h.OnList(h.ring[i + 1]);
    forall a: nat | a in h.used
      ensures Merge(h, i).IsBlock(a)
    {
      MergeBlocks(h, base, i, a);
    }
  }

  lemma {:induction false} MergeOwners(h: Heap, base: nat, i: nat)
    requires h.Sound(base) && 1 <= i && i + 1 < |h.ring|
    ensures Merge(h, i).Owners(base)
  {
    DropOnList(h, Merge(h, i), i + 1);
    assert h.OnList(h.ring[i]) && base < h.ring[i];
  }

  lemma {:induction false} MergeSound(h: Heap, base: nat, i: nat)
    requires h.Sound(base) && 1 <= i && i + 1 < |h.ring| && h.ring[i] + h.Size(h.ring[i]) == h.ring[i + 1]
    ensures Merge(h, i).Sound(base)
  {
    MergeRing(h, base, i);
    MergeFree(h, base, i);
    MergeUsed(h, base, i);
    MergeOwners(h, base, i);
    hide *;
  }

  // ---- Coalescing -----------------------------------------------------------------------------

  ghost predicate CoalescedBut(h: Heap, but: set<nat>) {
    forall i: nat :: i < |h.ring| && i !in but ==> h.Apart(i)
  }

  lemma {:induction false} InsertApart(h: Heap, t: nat, b: nat)
    requires h.Coalesced() && t < |h.ring| && b !in h.ring && b in h.hdr
    requires forall i: nat :: i < |h.ring| ==> h.ring[i] in h.hdr
    ensures CoalescedBut(Insert(h, t, b), {t, t + 1})
  {
    var h' := Insert(h, t, b);
    forall i: nat | i < |h'.ring| && i != t && i != t + 1
      ensures h'.Apart(i)
    {
      assert h.Apart(if i < t then i else i - 1);
    }
  }

  lemma {:induction false} MergeApart(h: Heap, i: nat, but: set<nat>)
    requires CoalescedBut(h, but + {i}) && i + 1 < |h.ring| && i !in but && Ascending(h.ring)
    requires h.ring[i] + h.Size(h.ring[i]) == h.ring[i + 1]
    requires forall k :: k in but ==> k < i
    requires forall k: nat :: k < |h.ring| ==> h.ring[k] in h.hdr
    ensures CoalescedBut(Merge(h, i), but)
  {
    var h' := Merge(h, i);
    forall k: nat | k < |h'.ring| && k !in but
      ensures h'.Apart(k)
    {
      assert h.Apart(if k < i then k else k + 1) || k == i;
      assert k >= i ==> h.Apart(k + 1);
    }
  }

  ghost predicate Touches(h: Heap, i: nat) {
    1 <= i < |h.ring| - 1 && h.ring[i] + h.Size(h.ring[i]) == h.ring[i + 1]
  }

  /** Join position i with the next one if they touch. */
  ghost function Join(h: Heap, i: nat): Heap {
    if Touches(h, i) then Merge(h, i) else h
  }

  lemma {:induction false} JoinKeeps(h: Heap, base: nat, i: nat, but: set<nat>)
    requires h.Sound(base) && i < |h.ring| && CoalescedBut(h, but + {i}) && i !in but && forall k :: k in but ==> k < i
    ensures Join(h, i).Sound(base) && CoalescedBut(Join(h, i), but)
    ensures i < |Join(h, i).ring| && Join(h, i).ring[..i + 1] == h.ring[..i + 1]
    ensures Join(h, i).used == h.used && Join(h, i).owner.Keys == h.owner.Keys
    ensures forall a: nat :: a in h.used ==> a in Join(h, i).hdr && Join(h, i).Size(a) == h.Size(a)
  {
    forall k: nat | k < |h.ring|
      ensures h.ring[k] in h.hdr
    {
      assert h.Linked(k);
    }
    if Touches(h, i) {
      assert h.OnList(h.ring[i]);
      MergeSound(h, base, i);
      MergeApart(h, i, but);
    } else {
      assert h.Apart(i);
    }
  }

  /** What free(b) makes of the heap when b belongs between positions t and t + 1. */
  ghost function FreeAt(h: Heap, t: nat, b: nat): Heap
    requires t < |h.ring|
  {
    Join(Join(Insert(h, t, b), t + 1), t)
  }

  lemma {:induction false} FreeAtSound(h: Heap, base: nat, t: nat, b: nat)
    requires h.Sound(base) && h.Coalesced() && b in h.used
    requires t < |h.ring| && h.ring[t] < b && (t + 1 < |h.ring| ==> b < h.ring[t + 1])
    ensures var h' := FreeAt(h, t, b);
            && h'.Sound(base) && h'.Coalesced()
            && h'.used == h.used - {b} && h'.owner.Keys == h.owner.Keys
            && (forall a: nat :: a in h'.used ==> h'.Size(a) == h.Size(a))
            && t < |h'.ring| && h'.ring[t] == h.ring[t]
  {
    var h1 := Insert(h, t, b);
    InsertFacts(h, base, t, b);
    InsertSound(h, base, t, b);
    hide *;
    assert {t} + {t + 1} == {t, t + 1} && {} + {t} == {t};
    JoinKeeps(h1, base, t + 1, {t});
    var h2 := Join(h1, t + 1);
    JoinKeeps(h2, base, t, {});
    assert h2.ring[..t + 1][t] == h2.ring[t] && Join(h2, t).ring[..t + 1][t] == Join(h2, t).ring[t];
  }

  lemma {:induction false} InsertFacts(h: Heap, base: nat, t: nat, b: nat)
    requires h.Sound(base) && h.Coalesced() && b in h.used
    requires t < |h.ring| && h.ring[t] < b && (t + 1 < |h.ring| ==> b < h.ring[t + 1])
    ensures var h1 := Insert(h, t, b);
            && CoalescedBut(h1, {t, t + 1}) && t + 1 < |h1.ring| && h1.ring[t] == h.ring[t]
            && h1.used == h.used - {b} && h1.owner == h.owner
            && forall a: nat :: a in h1.used ==> h1.Size(a) == h.Size(a)
  {
    forall k: nat | k < |h.ring|
      ensures h.ring[k] in h.hdr
    {
      assert h.Linked(k);
    }
    assert b !in h.ring by {
      assert !h.OnList(b);
    }
    InsertApart(h, t, b);
  }

  // ---- The steps of malloc ----------------------------------------------------------------------

  /** Take the whole free block at position i. */
  ghost function TakeAll(h: Heap, i: nat): Heap
    requires 1 <= i < |h.ring|
  {
    var p := h.ring[i - 1];
    Heap(h.hdr[p := Header(h.Ptr(h.ring[i]), h.Size(p))], Drop(h.ring, i), h.used + {h.ring[i]}, h.owner)
  }

  lemma {:induction false} TakeAllRing(h: Heap, base: nat, i: nat)
    requires h.Ring(base) && 1 <= i < |h.ring|
    ensures TakeAll(h, i).Ring(base)
  {
    var h' := TakeAll(h, i);
    DropAscends(h.ring, i);
    assert h.Linked(i) && h.Linked(i - 1);
    forall k: nat | k < |h'.ring|
      ensures h'.Linked(k)
    {
      assert h.Linked(if k < i then k else k + 1);
    }
  }

  lemma {:induction false} TakeAllSound(h: Heap, base: nat, i: nat)
    requires h.Sound(base) && h.Coalesced() && 1 <= i < |h.ring|
    ensures TakeAll(h, i).Sound(base) && TakeAll(h, i).Coalesced()
  {
    var h', a := TakeAll(h, i), h.ring[i];
    assert h.OnList(a) && h.Linked(i - 1) && h.Linked(i);
    TakeAllRing(h, base, i);
    DropOnList(h, h', i);
    TakeAllApart(h, base, i);
    TakeAllBlocks(h, i);
    assert h'.used == h.used + {a} && h'.owner == h.owner && h'.ring == Drop(h.ring, i);
    assert h.IsBlock(a);
    hide TakeAll, Heap.Ring, Heap.Size, Heap.Coalesced, Heap.IsBlock;
    forall k: nat | 1 <= k < |h'.ring|
      ensures h'.IsBlock(h'.ring[k])
    {
      assert h.IsBlock(h.ring[if k < i then k else k + 1]);
    }
  }

  lemma {:induction false} TakeAllBlocks(h: Heap, i: nat)
    requires 1 <= i < |h.ring| && h.Linked(i - 1) && h.Linked(i)
    ensures forall x: nat :: h.IsBlock(x) ==> TakeAll(h, i).IsBlock(x)
  {
    var h' := TakeAll(h, i);
    forall x: nat | h.IsBlock(x)
      ensures h'.IsBlock(x)
    {
      assert x in h'.hdr && h'.Size(x) == h.Size(x);
      hide TakeAll, Heap.Size;
      SameBlock(h, h', x);
    }
  }

  lemma {:induction false} TakeAllApart(h: Heap, base: nat, i: nat)
    requires h.Sound(base) && h.Coalesced() && 1 <= i < |h.ring|
    ensures TakeAll(h, i).Coalesced()
  {
    var h' := TakeAll(h, i);
    assert h.Linked(i - 1);
    forall k: nat | k < |h'.ring|
      ensures h'.Apart(k)
    {
      assert h.Apart(if k < i then k else k + 1);
      if k == i - 1 && 1 <= k < |h'.ring| - 1 {
        Separate(h, base, k, i);
      }
    }
  }

  /** Blocks do not overlap, so a free block ends before the next one begins. */
  lemma {:induction false} Separate(h: Heap, base: nat, i: nat, j: nat)
    requires h.Sound(base) && 1 <= i < j < |h.ring|
    ensures h.ring[i] + h.Size(h.ring[i]) <= h.ring[j]
    ensures j + 1 < |h.ring| ==> h.ring[i] + h.Size(h.ring[i]) != h.ring[j + 1]
  {
    var a, b := h.ring[i], h.ring[j];
    assert h.IsBlock(a) && h.IsBlock(b);
    assert b in h.owner && h.owner[b] == b;
    if j + 1 < |h.ring| {
      assert h.ring[j] < h.ring[j + 1];
    }
  }

  /** Cut the last n units off the free block at position i and take them. */
  ghost function TakeTail(h: Heap, i: nat, n: nat): Heap
    requires i < |h.ring| && n <= h.Size(h.ring[i])
  {
    var a := h.ring[i];
    var rest := h.Size(a) - n;
    Heap(h.hdr[a := Header(h.Ptr(a), rest)][a + rest := Header(h.Ptr(a + rest), n)], h.ring, h.used + {a + rest},
         map u: nat | u in h.owner :: if a + rest <= u < a + rest + n then a + rest else h.owner[u])
  }

  lemma {:induction false} TailIsInside(h: Heap, base: nat, i: nat, n: nat)
    requires h.Sound(base) && 1 <= i < |h.ring| && 1 <= n < h.Size(h.ring[i])
    ensures var q: nat := h.ring[i] + h.Size(h.ring[i]) - n;
            && !h.OnList(q) && q !in h.used
            && forall u: nat :: q <= u < q + n ==> u in h.owner && h.owner[u] == h.ring[i]
  {
    var a := h.ring[i];
    var q: nat := a + h.Size(a) - n;
    assert h.IsBlock(a);
    assert q in h.owner && h.owner[q] == a;
    assert !h.IsBlock(q) by {
      assert q <= q < q + h.Size(q) || h.Size(q) == 0;
    }
    assert h.ring[0] < a < q;
  }

  /** The headers and the units after the tail has been taken. */
  lemma {:induction false} TailFacts(h: Heap, i: nat, n: nat)
    requires i < |h.ring| && 1 <= n < h.Size(h.ring[i])
    ensures var h', a := TakeTail(h, i, n), h.ring[i];
            var q: nat := a + h.Size(a) - n;
            && a in h'.hdr && q in h'.hdr && h'.Size(a) == h.Size(a) - n && h'.Size(q) == n
            && (forall x: nat :: x in h.hdr && x != a && x != q ==> x in h'.hdr && h'.Size(x) == h.Size(x))
            && HandedTo(h, h', q, n)
  {
  }

  /** h' has the units of h, those from q to q + n handed to q. */
  ghost predicate HandedTo(h: Heap, h': Heap, q: nat, n: nat) {
    && (forall u: nat :: u in h'.owner <==> u in h.owner)
    && forall u: nat :: u in h.owner && u in h'.owner ==> h'.owner[u] == if q <= u < q + n then q else h.owner[u]
  }

  lemma {:induction false} SplitFront(h: Heap, h': Heap, a: nat, q: nat, n: nat)
    requires h.IsBlock(a) && a < q && q + n == a + h.Size(a) && HandedTo(h, h', q, n)
    requires a in h'.hdr && h'.Size(a) == q - a
    ensures h'.IsBlock(a)
  {
    hide Heap.Size;
    forall u: nat
      ensures a <= u < a + h'.Size(a) <==> u in h'.owner && h'.owner[u] == a
    {
      assert a <= u < a + h.Size(a) <==> u in h.owner && h.owner[u] == a;
    }
  }

  lemma {:induction false} SplitBack(h: Heap, h': Heap, a: nat, q: nat, n: nat)
    requires h.IsBlock(a) && a < q && q + n == a + h.Size(a) && HandedTo(h, h', q, n) && n >= 1
    requires q in h'.hdr && h'.Size(q) == n && forall u: nat :: u in h.owner ==> h.owner[u] != q
    ensures h'.IsBlock(q)
  {
    hide Heap.Size;
    forall u: nat
      ensures q <= u < q + n <==> u in h'.owner && h'.owner[u] == q
    {
      assert a <= u < a + h.Size(a) <==> u in h.owner && h.owner[u] == a;
    }
  }

  lemma {:induction false} SplitOther(h: Heap, h': Heap, a: nat, q: nat, n: nat, x: nat)
    requires h.IsBlock(a) && h.IsBlock(x) && x != a && x != q && a < q && q + n == a + h.Size(a)
             && HandedTo(h, h', q, n)
    requires x in h'.hdr && h'.Size(x) == h.Size(x)
    ensures h'.IsBlock(x)
  {
    hide Heap.Size;
    forall u: nat
      ensures (u in h'.owner && h'.owner[u] == x) <==> (u in h.owner && h.owner[u] == x)
    {
      assert a <= u < a + h.Size(a) <==> u in h.owner && h.owner[u] == a;
    }
    SameBlock(h, h', x);
  }

  lemma {:induction false} TakeTailBlocks(h: Heap, base: nat, i: nat, n: nat, x: nat)
    requires h.Sound(base) && 1 <= i < |h.ring| && 1 <= n < h.Size(h.ring[i])
    requires h.IsBlock(x) || x == h.ring[i] + h.Size(h.ring[i]) - n
    ensures TakeTail(h, i, n).IsBlock(x)
  {
    hide TakeTail, Heap.Size, Heap.Sound, Heap.OnList, Heap.IsBlock, HandedTo;
    var h', a := TakeTail(h, i, n), h.ring[i];
    var q: nat := a + h.Size(a) - n;
    TailIsNobodys(h, base, i, n);
    TailFacts(h, i, n);
    if x == a {
      SplitFront(h, h', a, q, n);
    } else if x == q {
      SplitBack(h, h', a, q, n);
    } else {
      BlockHasHeader(h, x);
      SplitOther(h, h', a, q, n, x);
    }
  }

  lemma {:induction false} TailIsNobodys(h: Heap, base: nat, i: nat, n: nat)
    requires h.Sound(base) && 1 <= i < |h.ring| && 1 <= n < h.Size(h.ring[i])
    ensures h.IsBlock(h.ring[i])
    ensures forall u: nat :: u in h.owner ==> h.owner[u] != h.ring[i] + h.Size(h.ring[i]) - n
  {
    TailIsInside(h, base, i, n);
    assert h.FreeBlocks() && h.Owners(base);
    hide Heap.IsBlock, Heap.OnList, Heap.Size, Heap.Ring;
  }

  lemma {:induction false} BlockHasHeader(h: Heap, x: nat)
    requires h.IsBlock(x)
    ensures x in h.hdr
  {
  }

  lemma {:induction false} TakeTailRing(h: Heap, base: nat, i: nat, n: nat)
    requires h.Sound(base) && h.Coalesced() && 1 <= i < |h.ring| && 1 <= n < h.Size(h.ring[i])
    ensures TakeTail(h, i, n).Ring(base) && TakeTail(h, i, n).Coalesced()
  {
    var h', a := TakeTail(h, i, n), h.ring[i];
    var q: nat := a + h.Size(a) - n;
    TailIsInside(h, base, i, n);
    forall k: nat | k < |h.ring|
      ensures h'.Linked(k) && h'.Apart(k)
    {
      assert h.Linked(k) && h.Apart(k) && h.OnList(h.ring[k]);
      if k == i && i + 1 < |h.ring| {
        Separate(h, base, i, i + 1);
      }
    }
    assert h.OnList(base);
  }

  lemma {:induction false} TakeTailTiled(h: Heap, base: nat, i: nat, n: nat)
    requires h.Sound(base) && 1 <= i < |h.ring| && 1 <= n < h.Size(h.ring[i])
    ensures TakeTail(h, i, n).FreeBlocks() && TakeTail(h, i, n).UsedBlocks()
  {
    var h', q: nat := TakeTail(h, i, n), h.ring[i] + h.Size(h.ring[i]) - n;
    TailIsInside(h, base, i, n);
    assert forall x: nat :: h'.OnList(x) <==> h.OnList(x);
    forall x: nat | h.IsBlock(x) || x == q
      ensures h'.IsBlock(x)
    {
      TakeTailBlocks(h, base, i, n, x);
    }
    hide Heap.IsBlock, Heap.OnList, Heap.Ring;
  }

  lemma {:induction false} TakeTailOwners(h: Heap, base: nat, i: nat, n: nat)
    requires h.Sound(base) && 1 <= i < |h.ring| && 1 <= n < h.Size(h.ring[i])
    ensures TakeTail(h, i, n).Owners(base)
  {
    var h' := TakeTail(h, i, n);
    assert forall x: nat :: h'.OnList(x) <==> h.OnList(x);
    assert base < h.ring[i];
    hide Heap.IsBlock, Heap.OnList, Heap.Ring;
  }

  lemma {:induction false} TakeTailSound(h: Heap, base: nat, i: nat, n: nat)
    requires h.Sound(base) && h.Coalesced() && 1 <= i < |h.ring| && 1 <= n < h.Size(h.ring[i])
    ensures TakeTail(h, i, n).Sound(base) && TakeTail(h, i, n).Coalesced()
  {
    TakeTailRing(h, base, i, n);
    TakeTailTiled(h, base, i, n);
    TakeTailOwners(h, base, i, n);
    hide *;
  }

  /** A new region from sbrk, as the allocated block morecore hands to free. */
  ghost function Extend(h: Heap, p: nat, n: nat): Heap {
    Heap(h.hdr[p := Header(h.Ptr(p), n)], h.ring, h.used + {p},
         map u: nat | u in h.owner.Keys + Units(p, n) :: if u in h.owner then h.owner[u] else p)
  }

  function Units(p: nat, n: nat): (r: set<nat>)
    ensures forall u: nat :: u in r <==> p <= u < p + n
  {
    if n == 0 then {} else Units(p, n - 1) + {p + n - 1}
  }

  lemma {:induction false} BelowExtension(h: Heap, base: nat, p: nat)
    requires h.Sound(base) && base < p && forall u: nat :: u in h.owner ==> u < p
    ensures forall k: nat :: k < |h.ring| ==> h.ring[k] < p && h.ring[k] in h.hdr
    ensures forall x: nat :: h.IsBlock(x) ==> x < p
  {
    forall k: nat | k < |h.ring|
      ensures h.ring[k] < p && h.ring[k] in h.hdr
    {
      assert h.Linked(k);
      if k >= 1 {
        assert h.IsBlock(h.ring[k]) && h.ring[k] in h.owner;
      }
    }
    forall x: nat | h.IsBlock(x)
      ensures x < p
    {
      assert x in h.owner;
    }
  }

  lemma {:induction false} ExtendRing(h: Heap, base: nat, p: nat, n: nat)
    requires h.Sound(base) && h.Coalesced() && base < p && forall u: nat :: u in h.owner ==> u < p
    ensures Extend(h, p, n).Ring(base) && Extend(h, p, n).Coalesced()
  {
    BelowExtension(h, base, p);
    forall k: nat | k < |h.ring|
      ensures Extend(h, p, n).Linked(k) && Extend(h, p, n).Apart(k)
    {
      assert h.Linked(k) && h.Apart(k);
    }
  }

  lemma {:induction false} ExtendBlocks(h: Heap, base: nat, p: nat, n: nat, x: nat)
    requires h.Sound(base) && base < p && 1 <= n && forall u: nat :: u in h.owner ==> u < p
    requires h.IsBlock(x) || x == p
    ensures Extend(h, p, n).IsBlock(x)
  {
    BelowExtension(h, base, p);
    if x != p {
      SameBlock(h, Extend(h, p, n), x);
    } else {
      forall u: nat | u in h.owner
        ensures h.owner[u] != p
      {
        assert h.OnList(h.owner[u]) || h.IsBlock(h.owner[u]);
      }
    }
  }

  lemma {:induction false} ExtendOwners(h: Heap, base: nat, p: nat, n: nat)
    requires h.Sound(base) && base < p && forall u: nat :: u in h.owner ==> u < p
    ensures var h' := Extend(h, p, n);
            && h'.owner.Keys == h.owner.Keys + Units(p, n)
            && (forall a: nat :: a in h'.used ==> !h'.OnList(a))
            && forall u: nat :: u in h'.owner ==>
                 base < u && h'.owner[u] != base && (h'.owner[u] in h'.used || h'.OnList(h'.owner[u]))
  {
    BelowExtension(h, base, p);
    var h' := Extend(h, p, n);
    hide Heap.IsBlock, Heap.Ring;
    assert forall x: nat :: h'.OnList(x) <==> h.OnList(x);
    assert !h.OnList(p);
    hide Heap.OnList;
  }

  lemma {:induction false} ExtendSound(h: Heap, base: nat, p: nat, n: nat)
    requires h.Sound(base) && h.Coalesced() && base < p && 1 <= n
    requires forall u: nat :: u in h.owner ==> u < p
    ensures Extend(h, p, n).Sound(base) && Extend(h, p, n).Coalesced()
    ensures Extend(h, p, n).owner.Keys == h.owner.Keys + Units(p, n)
  {
    var h' := Extend(h, p, n);
    assert h'.ring == h.ring && h'.used == h.used + {p};
    hide Extend, Heap.Ring, Heap.Coalesced, Heap.IsBlock, Heap.OnList;
    ExtendRing(h, base, p, n);
    ExtendOwners(h, base, p, n);
    forall x: nat | h.IsBlock(x) || x == p
      ensures h'.IsBlock(x)
    {
      ExtendBlocks(h, base, p, n, x);
    }
  }

  /** Two different blocks share no unit. */
  lemma {:induction false} BlocksAreDisjoint(h: Heap, a: nat, b: nat)
    requires h.IsBlock(a) && h.IsBlock(b) && a != b
    ensures a + h.Size(a) <= b || b + h.Size(b) <= a
  {
    assert a in h.owner && h.owner[a] == a && b in h.owner && h.owner[b] == b;
  }

  // ---- Where a block belongs on the list ------------------------------------------------------------

  /** b lies behind position t and before the next one. */
  ghost predicate Belongs(h: Heap, t: nat, b: nat) {
    t < |h.ring| && h.ring[t] < b && (t + 1 < |h.ring| ==> b < h.ring[t + 1])
  }

  lemma {:induction false} FindPlace(h: Heap, base: nat, b: nat) returns (t: nat)
    requires h.Ring(base) && base < b && !h.OnList(b)
    ensures Belongs(h, t, b)
  {
    t := 0;
    while t + 1 < |h.ring| && h.ring[t + 1] < b
      invariant t < |h.ring| && h.ring[t] < b
    {
      t := t + 1;
    }
    assert t + 1 < |h.ring| ==> h.ring[t + 1] != b;
  }

  /** The stopping test of free's search. */
  predicate Stops(p: nat, next: nat, b: nat) {
    (b > p && b < next) || (p >= next && (b > p || b < next))
  }

  /** The search stops at the right place and nowhere else. */
  lemma {:induction false} StopsThere(h: Heap, base: nat, t: nat, b: nat, i: nat)
    requires h.Ring(base) && Belongs(h, t, b) && i < |h.ring|
    ensures Stops(h.ring[i], h.After(i), b) <==> i == t
  {
    if i < t {
      assert i + 1 == t || h.ring[i + 1] < h.ring[t];
    } else if i > t {
      assert i == t + 1 || h.ring[t + 1] < h.ring[i];
    }
    if i + 1 == |h.ring| && i > 0 {
      assert h.ring[0] < h.ring[i];
    }
  }

  /** An allocated block lies above base and has a header; so have the blocks on the list. */
  lemma {:induction false} InUse(h: Heap, base: nat, b: nat)
    requires h.Sound(base) && b in h.used
    ensures base < b && !h.OnList(b) && b in h.hdr
  {
    assert h.IsBlock(b) && b in h.owner;
  }

  lemma {:induction false} OnRing(h: Heap, base: nat, t: nat)
    requires h.Ring(base) && t < |h.ring|
    ensures h.ring[t] in h.hdr && h.hdr[h.ring[t]].ptr == h.After(t) && h.After(t) in h.hdr && h.ring[t] >= base
  {
    assert h.Linked(t) && h.Linked(Succ(t, |h.ring|));
  }

  /** Steps along the ring of n blocks from position i to position t. */
  function Dist(i: nat, t: nat, n: nat): nat
    requires i < n && t < n
  {
    if i <= t then t - i else n - i + t
  }

  function Succ(i: nat, n: nat): nat
    requires i < n
  {
    if i + 1 < n then i + 1 else 0
  }

  /** The headers free writes. */
  ghost function FreeHdr(h: Heap, t: nat, b: nat): map<nat, Header>
    requires t < |h.ring|
  {
    var p, next := h.ring[t], h.After(t);
    var hdr1 := if b + h.Size(b) == next then h.hdr[b := Header(h.Ptr(next), h.Size(b) + h.Size(next))]
                else h.hdr[b := Header(next, h.Size(b))];
    if p + h.Size(p) == b then hdr1[p := Header(hdr1[b].ptr, h.Size(p) + hdr1[b].size)]
    else hdr1[p := Header(b, h.Size(p))]
  }

  /** The headers after the first of the two joins, and what its outcome means for the second. */
  lemma {:induction false} UpperWrites(h: Heap, base: nat, t: nat, b: nat)
    requires h.Ring(base) && b in h.hdr && b != base && !h.OnList(b) && Belongs(h, t, b)
    ensures var h2, p, next := Join(Insert(h, t, b), t + 1), h.ring[t], h.After(t);
            && t + 1 < |h2.ring| && h2.ring[t] == p && h2.ring[t + 1] == b
            && h2.hdr == (if b + h.Size(b) == next then h.hdr[b := Header(h.Ptr(next), h.Size(b) + h.Size(next))]
                          else h.hdr[b := Header(next, h.Size(b))])[p := Header(b, h.Size(p))]
  {
    var p, next := h.ring[t], h.After(t);
    var h1 := Insert(h, t, b);
    OnRing(h, base, t);
    assert h.OnList(p) && h.OnList(next);
    assert t > 0 ==> h.ring[0] < p;
    assert next == base || (t + 1 < |h.ring| && h1.ring[t + 2] == next && next > b);
    assert Touches(h1, t + 1) <==> b + h.Size(b) == next;
  }

  lemma {:induction false} FreeWrites(h: Heap, base: nat, t: nat, b: nat)
    requires h.Sound(base) && b in h.used && Belongs(h, t, b)
    ensures FreeAt(h, t, b).hdr == FreeHdr(h, t, b)
  {
    var p, next := h.ring[t], h.After(t);
    InUse(h, base, b);
    OnRing(h, base, t);
    UpperWrites(h, base, t, b);
    var h2 := Join(Insert(h, t, b), t + 1);
    assert FreeAt(h, t, b) == Join(h2, t);
    assert t == 0 ==> p == base && h.Size(p) == 0;
    hide Heap.Sound, Heap.OnList, Heap.Ring, Insert, Heap.After;
    assert Touches(h2, t) <==> p + h.Size(p) == b;
  }

  /** After the free, some block on the list is at least as big as the one freed. */
  lemma {:induction false} FreedFits(h: Heap, base: nat, t: nat, b: nat)
    requires h.Sound(base) && b in h.used && Belongs(h, t, b)
    ensures FreeAt(h, t, b).Fits(h.Size(b))
  {
    FreeWrites(h, base, t, b);
    var h1 := Insert(h, t, b);
    var h2 := Join(h1, t + 1);
    var h3 := FreeAt(h, t, b);
    assert h1.ring[t] == h.ring[t] && h1.ring[t + 1] == b && h2.ring[t] == h.ring[t] && h2.ring[t + 1] == b;
    assert h3.ring[t] == h.ring[t] && (!Touches(h2, t) ==> h3.ring[t + 1] == b);
    assert h3.Size(h3.ring[if Touches(h2, t) then t else t + 1]) >= h.Size(b);
  }

  // ---- Sizes -----------------------------------------------------------------------------------------

  /** Bytes of one unit, which is the size of a header. */
  const UNIT := 8

  /** The least number of units malloc asks sbrk for. */
  const NALLOC := 4096

  /** The units for nbytes and one header, in 32-bit arithmetic. */
  function UnitsFor(nbytes: uint32): nat {
    ((nbytes + UNIT - 1) % U32) / UNIT + 1
  }

  /** The block leaves room for nbytes behind its header exactly when the rounding did not wrap. */
  lemma {:induction false} EnoughBytes(nbytes: uint32)
    ensures (UnitsFor(nbytes) - 1) * UNIT >= nbytes <==> nbytes + UNIT - 1 < U32
    ensures nbytes + UNIT - 1 < U32 ==> (UnitsFor(nbytes) - 1) * UNIT < nbytes + UNIT
    ensures 1 <= UnitsFor(nbytes) <= U32 / UNIT
  {
  }

  /** The number sbrk reads when it is asked for n units: a 32-bit product, taken as signed. */
  function SbrkArg(n: nat): int {
    var x := n * UNIT % U32;
    if x >= U32 / 2 then x - U32 else x
  }

  /** sbrk is asked for n units exactly when they are fewer than 2^28. */
  lemma {:induction false} SbrkArgIsRight(n: nat)
    requires n <= U32 / UNIT
    ensures SbrkArg(n) == n * UNIT <==> n < 0x1000_0000
    ensures n >= 0x1000_0000 ==> SbrkArg(n) <= 0
  {
  }

  /** What morecore asks for. */
  function Asked(n: nat): nat { if n < NALLOC then NALLOC else n }

  /** The same blocks are in use, with the same sizes; the arena gained the units more. */
  ghost predicate Kept(h: Heap, h': Heap, more: set<nat>) {
    && h'.used == h.used && h'.owner.Keys == h.owner.Keys + more
    && forall a: nat :: a in h.used ==> h'.Size(a) == h.Size(a)
  }

  lemma {:induction false} TakeAllHands(h: Heap, base: nat, i: nat)
    requires h.Sound(base) && 1 <= i < |h.ring|
    ensures Hands(h, TakeAll(h, i), h.ring[i], h.Size(h.ring[i]), {})
  {
    assert h.OnList(h.ring[i]) && h.OnList(h.ring[i - 1]) && h.Linked(i - 1);
  }

  lemma {:induction false} TakeTailHands(h: Heap, base: nat, i: nat, n: nat)
    requires h.Sound(base) && 1 <= i < |h.ring| && 1 <= n < h.Size(h.ring[i])
    ensures Hands(h, TakeTail(h, i, n), h.ring[i] + h.Size(h.ring[i]) - n, n, {})
  {
    var h', a := TakeTail(h, i, n), h.ring[i];
    assert h.OnList(a) && h.IsBlock(a);
    var b := a + h.Size(a) - n;
    assert b in h.owner && h.owner[b] == a;
    assert b !in h.used by {
      assert h.IsBlock(b) ==> h.owner[b] == b;
    }
    assert h'.owner.Keys == h.owner.Keys;
  }

  /** The predecessor of the block taken stays on the list. */
  lemma {:induction false} StillListed(h: Heap, h': Heap, base: nat, c: nat)
    requires h.Ring(base) && base > 0 && 1 <= c < |h.ring| && (h'.ring == h.ring || h'.ring == Drop(h.ring, c))
    ensures h'.OnList(h.ring[c - 1]) && h.ring[c - 1] > 0
  {
    assert h'.ring[c - 1] == h.ring[c - 1];
    assert c > 1 ==> h.ring[0] < h.ring[c - 1];
  }

  lemma {:induction false} NewIsUnused(h: Heap, base: nat, p: nat, n: nat)
    requires h.Sound(base) && base < p && forall u: nat :: u in h.owner ==> u < p
    ensures p !in h.used
    ensures forall a: nat :: a in h.used ==> Extend(h, p, n).Size(a) == h.Size(a)
  {
    BelowExtension(h, base, p);
  }

  lemma {:induction false} GrownFits(h: Heap, base: nat, b: nat, h': Heap)
    requires h.Sound(base) && b in h.used
    requires exists t: nat :: Belongs(h, t, b) && h' == FreeAt(h, t, b)
    ensures h'.Fits(h.Size(b))
  {
    var t: nat :| Belongs(h, t, b) && h' == FreeAt(h, t, b);
    FreedFits(h, base, t, b);
  }

  lemma {:induction false} MoreFits(h: Heap, n: nat, m: nat)
    requires n <= m
    ensures h.Fits(m) ==> h.Fits(n)
  {
    if h.Fits(m) {
      var i: nat :| i < |h.ring| && h.Size(h.ring[i]) >= m;
      assert h.Size(h.ring[i]) >= n;
    }
  }

  /** The invariant between calls: a sound and coalesced heap, with freep on the list. */
  ghost predicate Primed(h: Heap, base: nat, freep: nat) {
    base > 0 && h.Sound(base) && h.Coalesced() && h.OnList(freep)
  }

  lemma {:induction false} FreeAtPrimed(h: Heap, base: nat, t: nat, b: nat)
    requires base > 0 && h.Sound(base) && h.Coalesced() && b in h.used && Belongs(h, t, b)
    ensures var h' := FreeAt(h, t, b);
            && Primed(h', base, h.ring[t]) && h.ring[t] != 0 && h'.hdr == FreeHdr(h, t, b)
            && h'.used == h.used - {b} && h'.owner.Keys == h.owner.Keys
            && forall a: nat :: a in h'.used ==> h'.Size(a) == h.Size(a)
    ensures b in h.hdr && h.ring[t] in h.hdr && h.hdr[h.ring[t]].ptr == h.After(t) && h.After(t) in h.hdr
    ensures h.ring[t] != b && h.After(t) != b
  {
    InUse(h, base, b);
    FreeAtSound(h, base, t, b);
    FreeWrites(h, base, t, b);
    OnRing(h, base, t);
    assert h.OnList(h.After(t)) && h.OnList(h.ring[t]);
    hide FreeHdr, Heap.Sound, Heap.Coalesced;
  }

  lemma {:induction false} ExtendPrimed(h: Heap, base: nat, freep: nat, p: nat, n: nat)
    requires Primed(h, base, freep) && base < p && 1 <= n
    requires forall u: nat :: u in h.owner ==> u < p
    ensures Primed(Extend(h, p, n), base, freep) && p in Extend(h, p, n).used
  {
    ExtendSound(h, base, p, n);
    hide Heap.Sound, Heap.Coalesced;
  }

  lemma {:induction false} FreeRegion(h: Heap, base: nat, p: nat, n: nat, h': Heap)
    requires h.Sound(base) && h.Coalesced() && base < p && 1 <= n && forall u: nat :: u in h.owner ==> u < p
    requires var h1 := Extend(h, p, n);
             && h'.used == h1.used - {p} && h'.owner.Keys == h1.owner.Keys
             && (forall a: nat :: a in h'.used ==> h'.Size(a) == h1.Size(a))
             && exists t: nat :: Belongs(h1, t, p) && h' == FreeAt(h1, t, p)
    ensures h'.Fits(n) && Kept(h, h', Units(p, n))
  {
    var h1 := Extend(h, p, n);
    ExtendSound(h, base, p, n);
    NewIsUnused(h, base, p, n);
    assert h1.Size(p) == n && h1.used == h.used + {p};
    hide Extend, Heap.Sound, Heap.Coalesced;
    GrownFits(h1, base, p, h');
    assert h'.used == h.used;
  }

  // ---- The circular search of malloc -------------------------------------------------------------

  /** p is at position c of the list and prevp before it. */
  ghost predicate At(h: Heap, c: nat, p: nat, prevp: nat) {
    && c < |h.ring| && h.ring[c] == p && p in h.hdr
    && (if c == 0 then prevp == h.ring[|h.ring| - 1] else prevp == h.ring[c - 1]) && prevp in h.hdr
  }

  /** Every block the search has passed is too small. */
  ghost predicate Missed(h: Heap, n: nat, c: nat, f: nat) {
    && c < |h.ring| && f < |h.ring|
    && forall g: nat :: g < |h.ring| && Dist(c, g, |h.ring|) > Dist(c, f, |h.ring|) ==> h.Size(h.ring[g]) < n
  }

  /** A block that is big enough lies between the search and its end at f. */
  ghost predicate Ahead(h: Heap, n: nat, c: nat, f: nat) {
    && c < |h.ring| && f < |h.ring|
    && exists g: nat :: g < |h.ring| && Dist(c, g, |h.ring|) <= Dist(c, f, |h.ring|) && h.Size(h.ring[g]) >= n
  }

  lemma {:induction false} Position(h: Heap, base: nat, freep: nat) returns (f: nat)
    requires Primed(h, base, freep)
    ensures f < |h.ring| && h.ring[f] == freep && freep in h.hdr && h.hdr[freep].ptr == h.After(f)
            && h.After(f) in h.hdr
  {
    f :| f < |h.ring| && h.ring[f] == freep;
    OnRing(h, base, f);
  }

  lemma {:induction false} SearchBegins(h: Heap, base: nat, n: nat, f: nat)
    requires f < |h.ring| && Primed(h, base, h.ring[f])
    ensures var c := Succ(f, |h.ring|);
            && At(h, c, h.After(f), h.ring[f]) && Missed(h, n, c, f) && (h.Fits(n) ==> Ahead(h, n, c, f))
  {
    OnRing(h, base, f);
    if h.Fits(n) {
      var g: nat :| g < |h.ring| && h.Size(h.ring[g]) >= n;
      assert Dist(Succ(f, |h.ring|), g, |h.ring|) <= Dist(Succ(f, |h.ring|), f, |h.ring|);
    }
  }

  lemma {:induction false} LastMissed(h: Heap, base: nat, n: nat, c: nat, f: nat, grown: bool)
    requires c < |h.ring| && f < |h.ring| && Primed(h, base, h.ring[f]) && h.ring[c] == h.ring[f]
             && h.Size(h.ring[c]) < n
    requires if grown then Ahead(h, n, c, f) else Missed(h, n, c, f)
    ensures !grown && !h.Fits(n)
  {
    assert c == f;
    assert forall g: nat :: g < |h.ring| && Dist(c, g, |h.ring|) <= 0 ==> g == c;
  }

  lemma {:induction false} Advance(h: Heap, base: nat, n: nat, c: nat, f: nat, grown: bool)
    requires c < |h.ring| && f < |h.ring| && Primed(h, base, h.ring[f]) && h.ring[c] != h.ring[f]
             && h.Size(h.ring[c]) < n
    requires if grown then Ahead(h, n, c, f) else Missed(h, n, c, f)
    ensures var c' := Succ(c, |h.ring|);
            && At(h, c', h.Ptr(h.ring[c]), h.ring[c]) && Dist(c', f, |h.ring|) < Dist(c, f, |h.ring|)
            && if grown then Ahead(h, n, c', f) else Missed(h, n, c', f)
  {
    OnRing(h, base, c);
    var c' := Succ(c, |h.ring|);
    assert forall g: nat :: g < |h.ring| && g != c ==> Dist(c', g, |h.ring|) == Dist(c, g, |h.ring|) - 1;
  }

  /** The base never fits, so a fitting block has its predecessor one position back. */
  lemma {:induction false} Found(h: Heap, base: nat, freep: nat, n: nat, c: nat, p: nat, prevp: nat)
    requires Primed(h, base, freep) && n >= 1 && At(h, c, p, prevp) && h.hdr[p].size >= n
    ensures c >= 1 && h.ring[c - 1] == prevp && h.Fits(n)
  {
    assert h.Size(h.ring[c]) >= n;
  }

  /** The units the arena gains: none if a block fits, otherwise those of the region from sbrk. */
  ghost function Gained(h: Heap, n: nat, grant: Option<nat>): set<nat> {
    if h.Fits(n) || grant.None? then {} else Units(grant.value, Asked(n))
  }

  /** Block p of n units was not in use and now is; nothing else changed hands and the arena gained more. */
  ghost predicate Hands(h: Heap, h': Heap, p: nat, n: nat, more: set<nat>) {
    && p !in h.used && h'.used == h.used + {p} && h'.Size(p) == n && h'.owner.Keys == h.owner.Keys + more
    && forall a: nat :: a in h.used ==> h'.Size(a) == h.Size(a)
  }

  lemma {:induction false} HandsAfter(h: Heap, h1: Heap, h2: Heap, p: nat, n: nat, grant: Option<nat>)
    requires if h1.Fits(n) && h == h1 then true
             else !h.Fits(n) && grant.Some? && Kept(h, h1, Units(grant.value, Asked(n)))
    requires Hands(h1, h2, p, n, {})
    ensures Hands(h, h2, p, n, Gained(h, n, grant))
  {
    hide Heap.Fits, Asked;
    assert h1.owner.Keys + {} == h1.owner.Keys;
  }

  lemma {:induction false} FromStart(h0: Heap, h1: Heap, h2: Heap, n: nat, grant: Option<nat>, r: Answer)
    requires h0.used == h1.used && h0.owner == h1.owner && forall a: nat :: a in h0.used ==> h0.Size(a) == h1.Size(a)
    requires h0.Fits(n) <==> h1.Fits(n)
    ensures r.Block? && Hands(h1, h2, r.at, n, Gained(h1, n, grant)) ==> Hands(h0, h2, r.at, n, Gained(h0, n, grant))
    ensures h2 == h1 ==> Kept(h0, h2, {})
  {
    hide Heap.Fits;
    assert h1.owner.Keys == h0.owner.Keys + {} && h0.owner.Keys == h1.owner.Keys;
  }

  datatype Option<T> = None | Some(value: T)

  /** Undefined: sbrk took memory away and the new header was written there all the same. */
  datatype Answer = Block(at: nat) | NoMemory | Undefined

  class Allocator {
    const base: nat
    var hdr: map<nat, Header>
    /** Where the next search starts; 0 before the first malloc. */
    var freep: nat
    ghost var ring: seq<nat>
    ghost var used: set<nat>
    ghost var owner: map<nat, nat>

    constructor (base: nat)
      requires base > 0
      ensures Valid() && freep == 0 && this.base == base
    {
      this.base := base;
      hdr, freep, ring, used, owner := map[], 0, [], {}, map[];
    }

    ghost function Now(): Heap
      reads this
    {
      Heap(hdr, ring, used, owner)
    }

    ghost predicate Ready()
      reads this
    {
      Primed(Now(), base, freep)
    }

    ghost predicate Valid()
      reads this
    {
      if freep == 0 then base > 0 && ring == [] && used == {} && owner == map[] else Ready()
    }

    /** umalloc.c: free. */
    method Free(b: nat)
      requires Ready() && b in used
      modifies this
      ensures Ready() && freep != 0
      ensures exists t: nat :: Belongs(old(Now()), t, b) && Now() == FreeAt(old(Now()), t, b)
      ensures used == old(used) - {b} && owner.Keys == old(owner.Keys)
      ensures forall a: nat :: a in used ==> Now().Size(a) == old(Now()).Size(a)
    {
      ghost var h := Now();
      InUse(h, base, b);
      ghost var t := FindPlace(h, base, b);
      var p := Search(b, t);
      FreeAtPrimed(h, base, t, b);
      hide FreeAt, Heap.Sound, Heap.Coalesced, Heap.OnList, Primed, Belongs;
      Link(p, b, t);
      freep := p;
      ring, used, owner := FreeAt(h, t, b).ring, FreeAt(h, t, b).used, FreeAt(h, t, b).owner;
      assert Now() == FreeAt(h, t, b);
    }

    /** The stores of free: join b with the block after it, then with the one before, or link them. */
    method Link(p: nat, b: nat, ghost t: nat)
      requires t < |ring| && p == ring[t] && p != b && p in hdr && b in hdr
      requires hdr[p].ptr == Now().After(t) && hdr[p].ptr in hdr && hdr[p].ptr != b
      modifies `hdr
      ensures hdr == FreeHdr(old(Now()), t, b)
    {
      var next := hdr[p].ptr;
      if b + hdr[b].size == next {
        hdr := hdr[b := Header(hdr[next].ptr, hdr[b].size + hdr[next].size)];
      } else {
        hdr := hdr[b := Header(next, hdr[b].size)];
      }
      if p + hdr[p].size == b {
        hdr := hdr[p := Header(hdr[b].ptr, hdr[p].size + hdr[b].size)];
      } else {
        hdr := hdr[p := Header(b, hdr[p].size)];
      }
    }

    /** The search loop of free. */
    method Search(b: nat, ghost t: nat) returns (p: nat)
      requires Ready() && Belongs(Now(), t, b)
      ensures p == ring[t]
    {
      ghost var h := Now();
      p := freep;
      ghost var i: nat :| i < |ring| && ring[i] == p;
      assert h.Linked(i);
      while !Stops(p, hdr[p].ptr, b)
        invariant i < |ring| && ring[i] == p && h.Linked(i)
        decreases Dist(i, t, |ring|)
      {
        StopsThere(h, base, t, b, i);
        p := hdr[p].ptr;
        i := Succ(i, |ring|);
        assert h.Linked(i);
      }
      StopsThere(h, base, t, b, i);
    }

    /** umalloc.c: morecore. sbrk's answer is a parameter: a region above everything it gave out before. */
    method Morecore(n: nat, grant: Option<nat>) returns (r: Answer)
      requires Ready() && 1 <= n <= U32 / UNIT
      requires grant.Some? ==> Above(grant.value)
      modifies this
      ensures r.NoMemory? <==> grant.None?
      ensures r.Undefined? <==> grant.Some? && n >= 0x1000_0000
      ensures r.Block? ==>
                && Ready() && r.at == freep != 0 && Now().Fits(n)
                && Kept(old(Now()), Now(), Units(grant.value, Asked(n)))
      ensures !r.Block? ==> unchanged(this)
    {
      var nu := if n < NALLOC then NALLOC else n;
      if grant.None? {
        r := NoMemory;
      } else {
        SbrkArgIsRight(nu);
        if SbrkArg(nu) != nu * UNIT {
          r := Undefined;
        } else {
          AddRegion(grant.value, nu);
          MoreFits(Now(), n, nu);
          r := Block(freep);
        }
      }
    }

    /** Make the region from sbrk an allocated block and free it. */
    method AddRegion(hp: nat, nu: nat)
      requires Ready() && nu >= 1 && Above(hp)
      modifies this
      ensures Ready() && freep != 0 && Now().Fits(nu) && Kept(old(Now()), Now(), Units(hp, nu))
    {
      ghost var h := Now();
      ExtendPrimed(h, base, freep, hp, nu);
      hdr := hdr[hp := Header(if hp in hdr then hdr[hp].ptr else 0, nu)];
      owner, used := Extend(h, hp, nu).owner, used + {hp};
      ghost var h1 := Now();
      assert h1 == Extend(h, hp, nu);
      hide *;
      Free(hp);
      FreeRegion(h, base, hp, nu, Now());
    }

    ghost predicate Above(p: nat)
      reads this
    {
      base < p && forall u: nat :: u in owner ==> u < p
    }

    /** Hand out the block at position c, or its tail. */
    method Take(prevp: nat, p: nat, n: nat, ghost c: nat) returns (r: nat)
      requires Ready() && 1 <= c < |ring| && ring[c] == p && ring[c - 1] == prevp
      requires p in hdr && hdr[p].size >= n >= 1 && prevp in hdr
      modifies this
      ensures Ready() && freep == prevp != 0
      ensures Hands(old(Now()), Now(), r, n, {})
    {
      ghost var h := Now();
      if hdr[p].size == n {
        hdr := hdr[prevp := Header(hdr[p].ptr, hdr[prevp].size)];
        r := p;
        ring, used := Drop(ring, c), used + {r};
        assert Now() == TakeAll(h, c);
        TakeAllSound(h, base, c);
        TakeAllHands(h, base, c);
      } else {
        hdr := hdr[p := Header(hdr[p].ptr, hdr[p].size - n)];
        r := p + hdr[p].size;
        hdr := hdr[r := Header(if r in hdr then hdr[r].ptr else 0, n)];
        owner, used := TakeTail(h, c, n).owner, used + {r};
        assert Now() == TakeTail(h, c, n);
        TakeTailSound(h, base, c, n);
        TakeTailHands(h, base, c, n);
      }
      freep := prevp;
      StillListed(h, Now(), base, c);
    }

    /** The first call makes the ring of base alone. */
    method Initialise()
      requires Valid() && freep == 0
      modifies this
      ensures Ready() && freep != 0 && used == {} && owner == map[] && !Now().Fits(1)
    {
      hdr := map[base := Header(base, 0)];
      freep := base;
      ring := [base];
      assert Now().Linked(0) && Now().OnList(base) && Now().Apart(0);
    }

    /** umalloc.c: malloc. */
    method Malloc(nbytes: uint32, grant: Option<nat>) returns (r: Answer)
      requires Valid() && (grant.Some? ==> Above(grant.value))
      modifies this
      ensures r.Block? <==> old(Now()).Fits(UnitsFor(nbytes)) || (grant.Some? && UnitsFor(nbytes) < 0x1000_0000)
      ensures r.NoMemory? <==> !old(Now()).Fits(UnitsFor(nbytes)) && grant.None?
      ensures !r.Undefined? ==> Ready() && freep != 0
      ensures r.Block? ==> Hands(old(Now()), Now(), r.at, UnitsFor(nbytes), Gained(old(Now()), UnitsFor(nbytes), grant))
      ensures r.NoMemory? ==> Kept(old(Now()), Now(), {})
    {
      var n := UnitsFor(nbytes);
      EnoughBytes(nbytes);
      ghost var h0 := Now();
      if freep == 0 {
        Initialise();
      }
      ghost var h1 := Now();
      assert h0.used == h1.used && h0.owner == h1.owner && forall a: nat :: a in h0.used ==> h0.Size(a) == h1.Size(a);
      MoreFits(h1, 1, n);
      assert h0.Fits(n) <==> h1.Fits(n);
      hide *;
      r := FirstFit(n, grant);
      FromStart(h0, h1, Now(), n, grant, r);
    }

    /** The circular search of malloc, from the block after freep. */
    method FirstFit(n: nat, grant: Option<nat>) returns (r: Answer)
      requires Ready() && freep != 0 && 1 <= n <= U32 / UNIT && (grant.Some? ==> Above(grant.value))
      modifies this
      ensures r.Block? <==> old(Now()).Fits(n) || (grant.Some? && n < 0x1000_0000)
      ensures r.NoMemory? <==> !old(Now()).Fits(n) && grant.None?
      ensures !r.Undefined? ==> Ready() && freep != 0
      ensures r.Block? ==> Hands(old(Now()), Now(), r.at, n, Gained(old(Now()), n, grant))
      ensures r.NoMemory? ==> Now() == old(Now())
    {
      hide Heap.Fits, Heap.OnList, Missed, Ahead, Primed, Kept, Hands, Gained;
      ghost var h := Now();
      var prevp := freep;
      ghost var f: nat := Position(h, base, freep);
      var p := hdr[prevp].ptr;
      ghost var c: nat, grown := Succ(f, |ring|), false;
      SearchBegins(h, base, n, f);
      r := Block(0);
      while r.Block? && hdr[p].size < n
        invariant !r.Undefined? ==> Ready() && freep != 0
        invariant r.Block? ==> At(Now(), c, p, prevp) && f < |ring| && ring[f] == freep
        invariant !grown ==> Now() == h && r.Block? && Missed(h, n, c, f)
        invariant grown && r.Block? ==> !h.Fits(n) && Ahead(Now(), n, c, f) && grant.Some? && n < 0x1000_0000
                                        && Kept(h, Now(), Units(grant.value, Asked(n)))
        invariant r.NoMemory? ==> Now() == h && !h.Fits(n) && grant.None?
        invariant r.Undefined? ==> !h.Fits(n) && grant.Some? && n >= 0x1000_0000
        decreases r.Block?, !grown, if r.Block? then Dist(c, f, |ring|) else 0
      {
        if p == freep {
          LastMissed(Now(), base, n, c, f, grown);
          r := Morecore(n, grant);
          grown := true;
          if r.Block? {
            p := r.at;
            f := Position(Now(), base, freep);
            c := f;
            prevp := p;
            p := hdr[p].ptr;
            SearchBegins(Now(), base, n, f);
            c := Succ(c, |ring|);
          }
        } else {
          Advance(Now(), base, n, c, f, grown);
          prevp := p;
          p := hdr[p].ptr;
          c := Succ(c, |ring|);
        }
      }
      if r.Block? {
        Found(Now(), base, freep, n, c, p, prevp);
        ghost var h2 := Now();
        var b := Take(prevp, p, n, c);
        r := Block(b);
        HandsAfter(h, h2, Now(), b, n, grant);
      }
    }
  }
}
