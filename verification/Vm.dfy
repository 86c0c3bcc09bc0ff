/** The page allocator of kalloc.c and the address spaces of vm.c, on the physical pages themselves. */
module Vm {
  import opened LittleEndian
  import opened Paging

  // ---- The free list -------------------------------------------------------------------------------

  /** The kernel address of frame p; frame 0 is never allocated and stands for the null pointer. */
  function Kva(p: nat): (v: nat)
    ensures p < NPAGES ==> v < U32
    ensures v == 0 <==> p == 0
  {
    if p == 0 then 0 else KERNBASE + p * PGSIZE
  }

  function FrameAt(v: nat): nat { if v < KERNBASE then 0 else (v - KERNBASE) / PGSIZE }

  lemma {:induction false} FrameOfKva(p: nat)
    ensures FrameAt(Kva(p)) == p
  {
  }

  lemma {:induction false} KvaOfFrame(v: nat)
    requires v % PGSIZE == 0 && KERNBASE < v
    ensures Kva(FrameAt(v)) == v
  {
  }

  ghost function Nth(free: seq<nat>, k: nat): nat { if k < |free| then free[k] else 0 }

  predicate Outside(p: nat, first: nat) { p < first || p >= NPAGES }

  /** Every free page is on the list, which runs through the first words of the pages. */
  ghost predicate FreeList(pages: seq<Page>, owner: seq<Owner>, free: seq<nat>, head: uint32, first: nat) {
    && |pages| == |owner| == NPAGES && 0 < first <= NPAGES
    && (forall p: nat :: OwnerOf(owner, p).Reserved? <==> Outside(p, first))
    && (forall p: nat :: OwnerOf(owner, p) == Free <==> p in free)
    && (forall k: nat :: k < |free| ==> Chained(pages, free, k))
    && head == Kva(Nth(free, 0))
  }

  /** The k-th page of the list is on it once and points at the next. */
  ghost predicate Chained(pages: seq<Page>, free: seq<nat>, k: nat) {
    && k < |free| && free[k] !in free[..k] && Pde(pages, free[k], 0) == Kva(Nth(free, k + 1))
  }

  lemma {:induction false} PopFree(pages: seq<Page>, owner: seq<Owner>, free: seq<nat>, head: uint32, first: nat)
    requires FreeList(pages, owner, free, head, first) && head != 0
    ensures |free| > 0 && head == Kva(free[0]) && first <= free[0] < NPAGES && owner[free[0]] == Free
    ensures FreeList(pages, owner[free[0] := Held], free[1..], Pde(pages, free[0], 0), first)
  {
    var p, free' := free[0], free[1..];
    assert !Outside(p, first);
    assert Chained(pages, free, 0);
    assert free == [p] + free';
    forall k: nat | k < |free'|
      ensures Chained(pages, free', k) && free'[k] != p
    {
      assert Chained(pages, free, k + 1);
      assert free[..k + 1] == [p] + free'[..k];
    }
    assert p in free && p !in free' && forall q: nat :: q in free <==> q == p || q in free';
    assert Nth(free', 0) == Nth(free, 1);
    hide Kva, Chained, Pde, Nth;
    assert forall q: nat :: OwnerOf(owner[p := Held], q) == if q == p then Held else OwnerOf(owner, q);
    hide OwnerOf;
  }

  /** What kfree writes: junk, and the old head of the list in the first word. */
  function Junk(head: uint32): Page { Filled(0x01010101)[0 := head] }

  lemma {:induction false} PushFree(pages: seq<Page>, owner: seq<Owner>, free: seq<nat>, head: uint32, first: nat,
                                    p: nat)
    requires FreeList(pages, owner, free, head, first) && OwnerOf(owner, p) == Held
    ensures p < NPAGES
    ensures FreeList(pages[p := Junk(head)], owner[p := Free], [p] + free, Kva(p), first)
  {
    var pages', free' := pages[p := Junk(head)], [p] + free;
    assert p !in free && !Outside(p, first);
    forall k: nat | k < |free'|
      ensures Chained(pages', free', k)
    {
      if k > 0 {
        assert Chained(pages, free, k - 1) && free[k - 1] in free;
        assert free'[..k] == [p] + free[..k - 1];
      }
    }
    assert forall q: nat :: q in free' <==> q == p || q in free;
    assert Nth(free', 0) == p;
    hide Kva, Chained, Nth;
    assert forall q: nat :: OwnerOf(owner[p := Free], q) == if q == p then Free else OwnerOf(owner, q);
    hide OwnerOf;
  }

  /** Writing elsewhere, and passing pages between holders, leaves the list alone. */
  lemma {:induction false} SameFree(pages: seq<Page>, owner: seq<Owner>, free: seq<nat>, head: uint32, first: nat,
                                    pages': seq<Page>, owner': seq<Owner>)
    requires FreeList(pages, owner, free, head, first) && |pages'| == |owner'| == NPAGES
    requires forall p: nat :: OwnerOf(owner, p) in {Free, Reserved} || OwnerOf(owner', p) in {Free, Reserved} ==>
               OwnerOf(owner', p) == OwnerOf(owner, p)
    requires forall p: nat :: p < NPAGES && OwnerOf(owner, p) == Free ==> pages'[p] == pages[p]
    ensures FreeList(pages', owner', free, head, first)
  {
    forall k: nat | k < |free|
      ensures Chained(pages', free, k)
    {
      assert Chained(pages, free, k) && free[k] in free;
    }
    hide OwnerOf, Kva;
  }

  // ---- Virtual pages ----------------------------------------------------------------------------------

  /** Pages of the address space. */
  const VPAGES := 0x10_0000
  /** Pages of its user half. */
  const USERPAGES := 0x8_0000

  /** Directory slot and table slot of page v. */
  function Pdx(v: nat): nat { v / ENTRIES }

  function Ptx(v: nat): (j: nat)
    ensures j < ENTRIES
  {
    v % ENTRIES
  }

  function Vpn(i: nat, j: nat): nat { i * ENTRIES + j }

  lemma {:induction false} VpnSplits(v: nat)
    ensures Vpn(Pdx(v), Ptx(v)) == v
    ensures Pdx(v) < USERPDES <==> v < USERPAGES
    ensures Pdx(v) < ENTRIES <==> v < VPAGES
  {
  }

  lemma {:induction false} SplitsVpn(i: nat, j: nat)
    requires j < ENTRIES
    ensures Pdx(Vpn(i, j)) == i && Ptx(Vpn(i, j)) == j
  {
  }

  /** Present entries among the first n words of a page. */
  ghost function Count(page: Page, n: nat): nat
    requires n <= ENTRIES
  {
    if n == 0 then 0 else Count(page, n - 1) + if Present(page[n - 1]) then 1 else 0
  }

  /** Tables of directory d. */
  ghost function Tabs(pages: seq<Page>, d: nat): nat {
    if d < |pages| then Count(pages[d], ENTRIES) else 0
  }

  lemma {:induction false} CountUpdate(page: Page, i: nat, e: uint32, n: nat)
    requires i < ENTRIES && n <= ENTRIES && !Present(page[i]) && Present(e)
    ensures Count(page[i := e], n) == Count(page, n) + if i < n then 1 else 0
  {
    if n > 0 {
      CountUpdate(page, i, e, n - 1);
    }
  }

  /** Pages in somebody's hands hold what they held. */
  ghost predicate SameData(pages: seq<Page>, owner: seq<Owner>, pages': seq<Page>) {
    && |pages'| == |pages|
    && forall q: nat :: q < |pages| && (OwnerOf(owner, q).Held? || OwnerOf(owner, q).User?) ==> pages'[q] == pages[q]
  }

  /** No page changed owner, but directory d may have got tables from the free pages. */
  ghost predicate Grown(owner: seq<Owner>, owner': seq<Owner>, d: nat) {
    && |owner'| == |owner|
    && forall q: nat :: OwnerOf(owner', q) == OwnerOf(owner, q)
                        || (OwnerOf(owner, q).Free? && OwnerOf(owner', q).Table? && OwnerOf(owner', q).d == d)
  }

  /** Directory d has the tables it had and one in slot i. */
  ghost predicate OneTable(pages: seq<Page>, pages': seq<Page>, d: nat, i: nat) {
    forall i': nat :: Present(Pde(pages', d, i')) <==> Present(Pde(pages, d, i')) || i' == i
  }

  lemma {:induction false} LinkCounts(pages: seq<Page>, owner: seq<Owner>, d: nat, i: nat, t: nat)
    requires |pages| == |owner| == NPAGES && IsDir(owner, d) && i < ENTRIES && !Present(Pde(pages, d, i))
             && OwnerOf(owner, t) == Free
    ensures var pages', owner' := LinkTable(pages, d, i, t), owner[t := Table(d, i)];
            && OneTable(pages, pages', d, i) && Tabs(pages', d) == Tabs(pages, d) + 1
            && SameData(pages, owner, pages') && Grown(owner, owner', d)
  {
    var e := Entry(t, PDEFLAGS);
    CountUpdate(pages[d], i, e, ENTRIES);
    hide Present, Frame, Entry;
  }

  lemma {:induction false} WriteCounts(pages: seq<Page>, owner: seq<Owner>, d: nat, i: nat, j: nat, e: uint32)
    requires |pages| == |owner| == NPAGES && IsDir(owner, d) && j < ENTRIES
             && OwnerOf(owner, Frame(Pde(pages, d, i))) == Table(d, i)
    ensures var pages' := SetEntry(pages, d, i, j, e);
            && (forall i': nat :: Pde(pages', d, i') == Pde(pages, d, i')) && Tabs(pages', d) == Tabs(pages, d)
            && SameData(pages, owner, pages')
  {
    hide Present, Frame;
  }

  datatype View = View(pages: seq<Page>, owner: seq<Owner>, free: seq<nat>)

  /** Owners once frame p is mapped at page v of directory d: in the user half it is the mapping's. */
  ghost function Claimed(owner: seq<Owner>, d: nat, v: nat, p: nat): seq<Owner> {
    if v < USERPAGES && p < |owner| then owner[p := User(d, Pdx(v), Ptx(v))] else owner
  }

  /** From s to s', page v of directory d was mapped to frame p, and perhaps given a table; nothing else changed. */
  ghost predicate MapsOne(s: View, s': View, d: nat, v: nat, p: nat, perm: nat)
    requires p < VPAGES && perm < PGSIZE
  {
    && !Present(Pte(s.pages, d, Pdx(v), Ptx(v)))
    && OneMap(s.pages, s.owner, s'.pages, d, Pdx(v), Ptx(v), Entry(p, perm))
    && SameData(s.pages, s.owner, s'.pages) && Grown(Claimed(s.owner, d, v, p), s'.owner, d)
    && OneTable(s.pages, s'.pages, d, Pdx(v)) && |s'.free| + Tabs(s'.pages, d) == |s.free| + Tabs(s.pages, d)
  }

  /** Entry j behind slot i is of a page from lo up to hi. */
  predicate In(i: nat, j: nat, lo: nat, hi: nat) { j < ENTRIES && lo <= Vpn(i, j) < hi }

  /** Slot i covers a page from lo up to hi. */
  predicate Covers(i: nat, lo: nat, hi: nat) { lo < hi && lo <= Vpn(i, ENTRIES - 1) && Vpn(i, 0) < hi }

  /** The frame k after p, modulo 2^32 bytes. */
  function Later(p: nat, k: nat): (q: nat)
    ensures q < VPAGES
  {
    (p + k) % VPAGES
  }

  lemma {:induction false} LaterStep(p: nat, k: nat)
    ensures p < VPAGES ==> Later(p, 0) == p
    ensures Later(p, k + 1) == if Later(p, k) + 1 == VPAGES then 0 else Later(p, k) + 1
  {
  }

  /** Pages lo up to hi of directory d map to consecutive frames from p on; all other translations are as before. */
  ghost predicate Ranged(s: View, s': View, d: nat, lo: nat, hi: nat, p: nat, perm: nat)
    requires perm < PGSIZE
  {
    forall d': nat, i: nat, j: nat :: IsDir(s.owner, d') ==>
      Pte(s'.pages, d', i, j) ==
        if d' == d && In(i, j, lo, hi) then Entry(Later(p, Vpn(i, j) - lo), perm) else Pte(s.pages, d', i, j)
  }

  ghost predicate Absent(pages: seq<Page>, d: nat, lo: nat, hi: nat) {
    forall i: nat, j: nat :: In(i, j, lo, hi) ==> !Present(Pte(pages, d, i, j))
  }

  /** Directory d got exactly the tables that cover the range. */
  ghost predicate Tabled(pages: seq<Page>, pages': seq<Page>, d: nat, lo: nat, hi: nat) {
    forall i: nat :: Present(Pde(pages', d, i)) <==> Present(Pde(pages, d, i)) || Covers(i, lo, hi)
  }

  /** From s to s', pages lo up to hi of directory d were mapped, and nothing else changed. */
  ghost predicate Maps(s: View, s': View, d: nat, lo: nat, hi: nat, p: nat, perm: nat)
    requires perm < PGSIZE
  {
    && Absent(s.pages, d, lo, hi) && Ranged(s, s', d, lo, hi, p, perm)
    && SameData(s.pages, s.owner, s'.pages)
    && Grown(if lo < hi then Claimed(s.owner, d, lo, p) else s.owner, s'.owner, d)
    && Tabled(s.pages, s'.pages, d, lo, hi) && |s'.free| + Tabs(s'.pages, d) == |s.free| + Tabs(s.pages, d)
  }

  lemma {:induction false} MapsNone(s: View, d: nat, lo: nat, p: nat, perm: nat)
    requires perm < PGSIZE
    ensures Maps(s, s, d, lo, lo, p, perm)
  {
    hide Present, Pte, Pde, Tabs;
  }

  lemma {:induction false} StillPresent(s: View, s': View, d: nat, lo: nat, hi: nat, p: nat, perm: nat)
    requires perm < PGSIZE && Maps(s, s', d, lo, hi, p, perm) && IsDir(s.owner, d)
    ensures Pte(s'.pages, d, Pdx(hi), Ptx(hi)) == Pte(s.pages, d, Pdx(hi), Ptx(hi))
  {
    VpnSplits(hi);
    hide Present, Pte, Pde, Pdx, Ptx;
  }

  lemma {:induction false} StepRanged(s: View, s1: View, s2: View, d: nat, lo: nat, a: nat, p0: nat, perm: nat)
    requires perm < PGSIZE && lo <= a && IsDir(s.owner, d)
    requires forall d': nat :: IsDir(s.owner, d') ==> IsDir(s1.owner, d')
    requires Ranged(s, s1, d, lo, a, p0, perm)
    requires OneMap(s1.pages, s1.owner, s2.pages, d, Pdx(a), Ptx(a), Entry(Later(p0, a - lo), perm))
    ensures Ranged(s, s2, d, lo, a + 1, p0, perm)
  {
    hide Pdx, Ptx, Entry, Later, Pte, Vpn;
    VpnSplits(a);
    forall d': nat, i: nat, j: nat | IsDir(s.owner, d')
      ensures Pte(s2.pages, d', i, j) ==
                if d' == d && In(i, j, lo, a + 1) then Entry(Later(p0, Vpn(i, j) - lo), perm)
                else Pte(s.pages, d', i, j)
    {
      InOneMore(i, j, lo, a);
    }
  }

  lemma {:induction false} InOneMore(i: nat, j: nat, lo: nat, a: nat)
    requires lo <= a
    ensures In(i, j, lo, a + 1) <==> In(i, j, lo, a) || (i == Pdx(a) && j == Ptx(a))
    ensures i == Pdx(a) && j == Ptx(a) ==> Vpn(i, j) == a && !In(i, j, lo, a)
  {
    VpnSplits(a);
    if j < ENTRIES {
      SplitsVpn(i, j);
    }
    hide Pdx, Ptx, Vpn;
  }

  lemma {:induction false} StepAbsent(s: View, s1: View, d: nat, lo: nat, a: nat, p0: nat, perm: nat)
    requires perm < PGSIZE && lo <= a && IsDir(s.owner, d) && Absent(s.pages, d, lo, a)
             && Ranged(s, s1, d, lo, a, p0, perm)
    requires !Present(Pte(s1.pages, d, Pdx(a), Ptx(a)))
    ensures Absent(s.pages, d, lo, a + 1)
  {
    forall i: nat, j: nat | In(i, j, lo, a + 1)
      ensures !Present(Pte(s.pages, d, i, j))
    {
      SplitsVpn(i, j);
      hide Pdx, Ptx, Entry, Later, Pte, Vpn, Present;
      assert Vpn(i, j) < a ==> In(i, j, lo, a);
    }
  }

  lemma {:induction false} StepTabled(pages: seq<Page>, pages1: seq<Page>, pages2: seq<Page>, d: nat, lo: nat, a: nat)
    requires lo <= a && Tabled(pages, pages1, d, lo, a) && OneTable(pages1, pages2, d, Pdx(a))
    ensures Tabled(pages, pages2, d, lo, a + 1)
  {
    VpnSplits(a);
    forall i: nat
      ensures Present(Pde(pages2, d, i)) <==> Present(Pde(pages, d, i)) || Covers(i, lo, a + 1)
    {
      assert Covers(i, lo, a + 1) <==> Covers(i, lo, a) || i == Pdx(a);
      hide Pdx, Ptx, Vpn, Pde, Present;
    }
  }

  lemma {:induction false} StepOwners(s: View, s1: View, s2: View, d: nat)
    requires Grown(s.owner, s1.owner, d) && Grown(s1.owner, s2.owner, d)
    requires SameData(s.pages, s.owner, s1.pages) && SameData(s1.pages, s1.owner, s2.pages)
    ensures Grown(s.owner, s2.owner, d) && SameData(s.pages, s.owner, s2.pages)
  {
    hide OwnerOf;
  }

  lemma {:induction false} MapsStep(s: View, s1: View, s2: View, d: nat, lo: nat, a: nat, p0: nat, perm: nat)
    requires perm < PGSIZE && lo <= a && IsDir(s.owner, d)
    requires Maps(s, s1, d, lo, a, p0, perm) && MapsOne(s1, s2, d, a, Later(p0, a - lo), perm)
    requires lo < USERPAGES ==> a == lo && s1 == s && Later(p0, 0) == p0
    ensures Maps(s, s2, d, lo, a + 1, p0, perm)
  {
    hide Present, Pte, Pde, Tabs, Pdx, Ptx, Vpn, Entry, Later, OwnerOf, OneMap, Ranged, Tabled, OneTable, Absent,
         SameData;
    if lo >= USERPAGES {
      StepOwners(s, s1, s2, d);
    }
    StepRanged(s, s1, s2, d, lo, a, p0, perm);
    StepAbsent(s, s1, d, lo, a, p0, perm);
    StepTabled(s.pages, s1.pages, s2.pages, d, lo, a);
  }

  // ---- Unmapping ------------------------------------------------------------------------------------

  /** The owner of a page once the user pages lo up to hi of directory d are given back. */
  function Released(o: Owner, d: nat, lo: nat, hi: nat): Owner {
    if o.User? && o.d == d && In(o.i, o.j, lo, hi) then Free else o
  }

  /** From s to s', pages lo up to hi of directory d were unmapped and given back; nothing else changed. */
  ghost predicate Unmaps(s: View, s': View, d: nat, lo: nat, hi: nat) {
    && |s'.pages| == |s.pages| && |s'.owner| == |s.owner|
    && (forall q: nat :: OwnerOf(s'.owner, q) == Released(OwnerOf(s.owner, q), d, lo, hi))
    && (forall q: nat :: q < |s.pages| && (OwnerOf(s'.owner, q).Held? || OwnerOf(s'.owner, q).User?) ==>
        s'.pages[q] == s.pages[q])
    && (forall d': nat, i: nat :: IsDir(s.owner, d') ==> Pde(s'.pages, d', i) == Pde(s.pages, d', i))
    && forall d': nat, i: nat, j: nat :: IsDir(s.owner, d') ==>
         Pte(s'.pages, d', i, j) == if d' == d && In(i, j, lo, hi) && Present(Pte(s.pages, d', i, j)) then 0
         else Pte(s.pages, d', i, j)
  }

  /** Unmapping goes on where it left off. */
  lemma {:induction false} UnmapsOn(s: View, s1: View, s2: View, d: nat, lo: nat, a: nat, hi: nat)
    requires Unmaps(s, s1, d, lo, a) && Unmaps(s1, s2, d, a, hi) && lo <= a <= hi
    ensures Unmaps(s, s2, d, lo, hi)
  {
    hide OwnerOf, Pde, Pte, Vpn, Present;
    forall q: nat
      ensures OwnerOf(s2.owner, q) == Released(OwnerOf(s.owner, q), d, lo, hi)
    {
      assert OwnerOf(s1.owner, q) == Released(OwnerOf(s.owner, q), d, lo, a);
    }
    forall d': nat, i: nat, j: nat | IsDir(s.owner, d')
      ensures Pte(s2.pages, d', i, j) == if d' == d && In(i, j, lo, hi) && Present(Pte(s.pages, d', i, j)) then 0
              else Pte(s.pages, d', i, j)
      ensures Pde(s2.pages, d', i) == Pde(s.pages, d', i)
    {
      assert IsDir(s1.owner, d');
      assert !Present(0) by {
        NotPresent();
      }
      assert Pde(s1.pages, d', i) == Pde(s.pages, d', i);
    }
  }

  lemma {:induction false} NotPresent()
    ensures !Present(0)
  {
  }

  lemma {:induction false} UnmapsNothing(s: View, d: nat, lo: nat, hi: nat)
    requires Ledger(s.pages, s.owner) && Absent(s.pages, d, lo, hi)
    ensures Unmaps(s, s, d, lo, hi)
  {
    hide Pte, Present, Vpn, OwnerOf, Frame;
    forall q: nat
      ensures OwnerOf(s.owner, q) == Released(OwnerOf(s.owner, q), d, lo, hi)
    {
      assert OwnerOf(s.owner, q).User? ==> Mapped(s.pages, s.owner, q);
    }
  }

  lemma {:induction false} AbsentPage(pages: seq<Page>, d: nat, v: nat)
    requires !Present(Pte(pages, d, Pdx(v), Ptx(v)))
    ensures Absent(pages, d, v, v + 1)
  {
    forall i: nat, j: nat | In(i, j, v, v + 1)
      ensures !Present(Pte(pages, d, i, j))
    {
      SplitsVpn(i, j);
    }
  }

  lemma {:induction false} NoneBetween(pages: seq<Page>, d: nat, lo: nat, hi: nat)
    requires hi <= lo
    ensures Absent(pages, d, lo, hi)
  {
  }

  lemma {:induction false} AbsentPart(pages: seq<Page>, d: nat, lo: nat, hi: nat, hi': nat)
    requires Absent(pages, d, lo, hi)
    ensures Absent(pages, d, lo, Min(hi, hi'))
  {
    hide Pte, Present, Vpn;
    assert forall i: nat, j: nat :: In(i, j, lo, Min(hi, hi')) ==> In(i, j, lo, hi);
  }

  /** Without a table, no page of the slot is mapped. */
  lemma {:induction false} AbsentSlot(pages: seq<Page>, d: nat, v: nat)
    requires !Present(Pde(pages, d, Pdx(v)))
    ensures Absent(pages, d, v, Vpn(Pdx(v) + 1, 0))
  {
    forall i: nat, j: nat | In(i, j, v, Vpn(Pdx(v) + 1, 0))
      ensures !Present(Pte(pages, d, i, j))
    {
      assert i == Pdx(v);
    }
  }

  /** Pages that hold sz bytes. */
  function PagesUp(sz: nat): nat { (sz + PGSIZE - 1) / PGSIZE }

  lemma {:induction false} RoundUp(sz: nat, a: nat)
    ensures a < PagesUp(sz) <==> a * PGSIZE < sz
    ensures sz <= KERNBASE ==> PagesUp(sz) <= USERPAGES
  {
  }

  lemma {:induction false} RoundUpOrder(sz: nat, sz': nat)
    requires sz <= sz'
    ensures PagesUp(sz) <= PagesUp(sz')
  {
  }

  lemma {:induction false} NextSlot(v: nat)
    ensures v < Vpn(Pdx(v) + 1, 0)
  {
  }

  /** A mapped page is one that kfree accepts. */
  lemma {:induction false} UserIsFreeable(pages: seq<Page>, owner: seq<Owner>, free: seq<nat>, head: uint32,
                                          first: nat, p: nat)
    requires FreeList(pages, owner, free, head, first) && !OwnerOf(owner, p).Reserved?
    ensures first <= p < NPAGES && Kva(p) < U32 && Kva(p) % PGSIZE == 0 && FrameAt(Kva(p)) == p
    ensures KERNBASE + first * PGSIZE <= Kva(p) && Kva(p) - KERNBASE < PHYSTOP
  {
    assert !Outside(p, first);
  }

  /** Giving a mapped page back and clearing its entry keeps the ledger and touches nothing else. */
  lemma {:induction false} UnmapLedger(s: View, d: nat, v: nat, p: nat, junk: Page, free: seq<nat>)
    requires Ledger(s.pages, s.owner) && IsDir(s.owner, d) && v < USERPAGES
    requires Present(Pte(s.pages, d, Pdx(v), Ptx(v))) && p == Frame(Pte(s.pages, d, Pdx(v), Ptx(v)))
    ensures Pdx(v) < USERPDES && OwnerOf(s.owner, p) == User(d, Pdx(v), Ptx(v))
    ensures OwnerOf(s.owner, Frame(Pde(s.pages, d, Pdx(v)))).Table?
    ensures var pages' := SetEntry(s.pages, d, Pdx(v), Ptx(v), 0)[p := junk];
            var owner' := s.owner[p := Free];
            Ledger(pages', owner') && Unmaps(s, View(pages', owner', free), d, v, v + 1)
  {
    VpnSplits(v);
    var i, j := Pdx(v), Ptx(v);
    UnmapUser(s.pages, s.owner, d, i, j);
    var pages1, owner1 := SetEntry(s.pages, d, i, j, 0), s.owner[p := Held];
    Recolour(pages1, owner1, p, junk, Free);
    assert owner1[p := Free] == s.owner[p := Free];
    UnmapView(s, pages1, pages1[p := junk], s.owner[p := Free], free, d, v, p);
  }

  lemma {:induction false} UnmapView(s: View, pages1: seq<Page>, pages': seq<Page>, owner': seq<Owner>,
                                     free: seq<nat>, d: nat, v: nat, p: nat)
    requires Ledger(s.pages, s.owner) && |pages1| == NPAGES
    requires forall d': nat, i: nat :: IsDir(s.owner, d') ==> Pde(pages', d', i) == Pde(s.pages, d', i)
    requires OneMap(s.pages, s.owner, pages', d, Pdx(v), Ptx(v), 0) && SameData(s.pages, s.owner, pages1)
    requires OwnerOf(s.owner, p) == User(d, Pdx(v), Ptx(v)) && Present(Pte(s.pages, d, Pdx(v), Ptx(v)))
    requires |pages'| == NPAGES && owner' == s.owner[p := Free] && forall q: nat :: q < NPAGES && q != p ==>
               pages'[q] == pages1[q]
    ensures Unmaps(s, View(pages', owner', free), d, v, v + 1)
  {
    hide Pde, Pte, Frame, Present;
    forall q: nat
      ensures OwnerOf(owner', q) == Released(OwnerOf(s.owner, q), d, v, v + 1)
    {
      if OwnerOf(s.owner, q).User? {
        var o := OwnerOf(s.owner, q);
        assert Mapped(s.pages, s.owner, q) && Mapped(s.pages, s.owner, p);
        SplitsVpn(o.i, o.j);
        VpnSplits(v);
      }
    }
    var hi := v + 1;
    forall i: nat, j: nat
      ensures In(i, j, v, hi) <==> i == Pdx(v) && j == Ptx(v)
    {
      VpnSplits(v);
      if j < ENTRIES {
        SplitsVpn(i, j);
      }
    }
    hide Pdx, Ptx, In, OwnerOf;
  }

  // ---- Discarding an address space ---------------------------------------------------------------------

  /** From s to s', the held page p was given back. */
  ghost predicate Gives(s: View, s': View, p: nat) {
    && |s'.pages| == |s.pages| && OwnerOf(s.owner, p) == Held && p < |s.owner| && s'.owner == s.owner[p := Free]
    && forall q: nat :: q < |s.pages| && q != p ==> s'.pages[q] == s.pages[q]
  }

  /** Page q with owner o is part of address space d. */
  predicate Part(o: Owner, q: nat, d: nat) { q == d || ((o.Table? || o.User?) && o.d == d) }

  /** From s to s', exactly the directory d, its tables and its user pages were given back. */
  ghost predicate Discards(s: View, s': View, d: nat) {
    && |s'.pages| == |s.pages| && |s'.owner| == |s.owner|
    && (forall q: nat :: OwnerOf(s'.owner, q) == if Part(OwnerOf(s.owner, q), q, d) then Free else OwnerOf(s.owner, q))
    && (forall q: nat :: q < |s.pages| && (OwnerOf(s'.owner, q).Held? || OwnerOf(s'.owner, q).User?) ==>
        s'.pages[q] == s.pages[q])
    && forall d': nat, i: nat, j: nat :: IsDir(s.owner, d') && d' != d ==>
        Pte(s'.pages, d', i, j) == Pte(s.pages, d', i, j)
  }

  /** The tables of the first n slots of d have been given back, its other pages are held, the rest is as in s. */
  ghost predicate Partly(s: View, s': View, d: nat, n: nat) {
    && |s'.pages| == |s.pages| && |s'.owner| == |s.owner|
    && (forall q: nat :: OwnerOf(s'.owner, q) == Retiring(OwnerOf(s.owner, q), q, d, n))
    && forall q: nat :: q < |s.pages| && !(OwnerOf(s.owner, q).Table? && OwnerOf(s.owner, q).d == d) ==>
        s'.pages[q] == s.pages[q]
  }

  ghost function Retiring(o: Owner, q: nat, d: nat, n: nat): Owner {
    if q == d then Held else if o.Table? && o.d == d then if o.i < n then Free else Held else o
  }

  lemma {:induction false} PartlyNone(s: View, s': View, d: nat)
    requires |s.pages| == |s.owner| && IsDir(s.owner, d) && s'.pages == s.pages && s'.owner == Retired(s.owner, d)
    ensures Partly(s, s', d, 0) && OwnerOf(s'.owner, d) == Held
  {
    hide Retired;
  }

  /** The table of slot n, if there is one, is still held. */
  lemma {:induction false} NextTable(s: View, s': View, d: nat, n: nat)
    requires Ledger(s.pages, s.owner) && IsDir(s.owner, d) && Partly(s, s', d, n) && n < ENTRIES
    ensures d < |s'.pages| && s'.pages[d] == s.pages[d] && Pde(s.pages, d, n) == s.pages[d][n]
    ensures Present(Pde(s.pages, d, n)) ==> OwnerOf(s.owner, Frame(Pde(s.pages, d, n))) == Table(d, n)
                                            && OwnerOf(s'.owner, Frame(Pde(s.pages, d, n))) == Held
    ensures forall q: nat :: OwnerOf(s.owner, q) == Table(d, n) ==>
              Present(Pde(s.pages, d, n)) && q == Frame(Pde(s.pages, d, n))
  {
    hide Present, Frame, UserDown, UserUp;
  }

  lemma {:induction false} PartlyStep(s: View, s2: View, s3: View, d: nat, n: nat)
    requires Ledger(s.pages, s.owner) && IsDir(s.owner, d) && Partly(s, s2, d, n) && n < ENTRIES
    requires if Present(Pde(s.pages, d, n)) then Gives(s2, s3, Frame(Pde(s.pages, d, n))) else s3 == s2
    ensures Partly(s, s3, d, n + 1) && OwnerOf(s3.owner, d) == Held
  {
    NextTable(s, s2, d, n);
    hide Present, Frame, Pde, Ledger;
  }

  lemma {:induction false} NoUsersLeft(s: View, s1: View, d: nat)
    requires Ledger(s.pages, s.owner) && Unmaps(s, s1, d, PagesUp(0), PagesUp(KERNBASE))
    ensures forall q: nat :: OwnerOf(s1.owner, q).User? ==> OwnerOf(s1.owner, q).d != d
  {
    hide OwnerOf, Pte, Pde, Frame, Present;
    assert PagesUp(0) == 0 && PagesUp(KERNBASE) == USERPAGES;
    forall q: nat | OwnerOf(s1.owner, q).User?
      ensures OwnerOf(s1.owner, q).d != d
    {
      assert OwnerOf(s.owner, q).User? ==> Mapped(s.pages, s.owner, q);
    }
  }

  /** The other address spaces do not notice. */
  lemma {:induction false} OthersKeep(s: View, s': View, d: nat)
    requires Ledger(s.pages, s.owner) && IsDir(s.owner, d) && |s'.pages| == |s.pages|
    requires forall q: nat :: q < |s.pages| && !Part(OwnerOf(s.owner, q), q, d) ==> s'.pages[q] == s.pages[q]
    ensures forall d': nat, i: nat, j: nat :: IsDir(s.owner, d') && d' != d ==>
              Pte(s'.pages, d', i, j) == Pte(s.pages, d', i, j)
  {
    hide Present, Frame;
    forall d': nat, i: nat, j: nat | IsDir(s.owner, d') && d' != d
      ensures Pte(s'.pages, d', i, j) == Pte(s.pages, d', i, j)
    {
      assert s'.pages[d'] == s.pages[d'];
      if Present(Pde(s.pages, d', i)) {
        var t := Frame(Pde(s.pages, d', i));
        assert OwnerOf(s.owner, t) == Table(d', i);
        assert s'.pages[t] == s.pages[t];
      }
    }
  }

  lemma {:induction false} DiscardsAll(s: View, s1: View, s2: View, s3: View, d: nat)
    requires Ledger(s.pages, s.owner) && Ledger(s1.pages, s1.owner) && IsDir(s.owner, d)
    requires Unmaps(s, s1, d, PagesUp(0), PagesUp(KERNBASE)) && Partly(s1, s2, d, ENTRIES) && Gives(s2, s3, d)
    ensures Discards(s, s3, d)
  {
    hide Pte, Pde, Frame, Present;
    OthersKeep(s1, s3, d);
    NoUsersLeft(s, s1, d);
    assert PagesUp(0) == 0 && PagesUp(KERNBASE) == USERPAGES;
    forall q: nat
      ensures OwnerOf(s3.owner, q) == if Part(OwnerOf(s.owner, q), q, d) then Free else OwnerOf(s.owner, q)
    {
      assert OwnerOf(s1.owner, q).Table? ==> OwnerOf(s1.owner, q).i < ENTRIES;
      assert OwnerOf(s.owner, q).User? ==> Mapped(s.pages, s.owner, q);
    }
  }

  // ---- Filling an address space with new pages ----------------------------------------------------------

  /** What a new page at entry j of slot i should hold, and its flags. */
  type Plan = (nat, nat) -> (Page, nat)

  function PageAt(pages: seq<Page>, p: nat): Page { if p < |pages| then pages[p] else Filled(0) }

  /** Directory d maps that entry to a page with the planned contents and flags. */
  ghost predicate AsPlanned(s: View, d: nat, i: nat, j: nat, plan: Plan) {
    && Present(Pte(s.pages, d, i, j)) && Flags(Pte(s.pages, d, i, j)) == WithP(plan(i, j).1)
    && PageAt(s.pages, Frame(Pte(s.pages, d, i, j))) == plan(i, j).0
  }

  /** A page keeps its owner, or goes from the free list into the tables or the new pages of d. */
  predicate Got(o: Owner, o': Owner, d: nat, lo: nat, hi: nat) {
    o' == o || (o.Free? && ((o'.Table? && o'.d == d) || (o'.User? && o'.d == d && In(o'.i, o'.j, lo, hi))))
  }

  /** From s to s', pages lo up to hi of directory d got new pages as planned; nothing else changed. */
  ghost predicate Fills(s: View, s': View, d: nat, lo: nat, hi: nat, plan: Plan) {
    && Absent(s.pages, d, lo, hi) && (forall i: nat, j: nat :: In(i, j, lo, hi) ==> AsPlanned(s', d, i, j, plan))
    && OthersSame(s, s', d, lo, hi) && SameData(s.pages, s.owner, s'.pages)
    && (forall q: nat :: Got(OwnerOf(s.owner, q), OwnerOf(s'.owner, q), d, lo, hi))
    && Tabled(s.pages, s'.pages, d, lo, hi)
    && |s'.free| + Tabs(s'.pages, d) + (hi - lo) == |s.free| + Tabs(s.pages, d)
  }

  ghost predicate OthersSame(s: View, s': View, d: nat, lo: nat, hi: nat) {
    forall d': nat, i: nat, j: nat :: IsDir(s.owner, d') && !(d' == d && In(i, j, lo, hi)) ==>
      Pte(s'.pages, d', i, j) == Pte(s.pages, d', i, j)
  }

  /** From s to s', kalloc took page p, which now holds page. */
  ghost predicate Took(s: View, s': View, p: nat, page: Page) {
    && p < |s.owner| && p < |s.pages| && OwnerOf(s.owner, p) == Free && s'.owner == s.owner[p := Held]
    && s'.pages == s.pages[p := page] && |s'.free| + 1 == |s.free|
  }

  lemma {:induction false} FillsNone(s: View, d: nat, lo: nat, plan: Plan)
    ensures Fills(s, s, d, lo, lo, plan)
  {
    hide Pte, Pde, Present, Tabs, OwnerOf;
  }

  /** Taking a page changes no translation and no table. */
  lemma {:induction false} TookKeeps(s: View, s': View, d: nat, p: nat, page: Page)
    requires Ledger(s.pages, s.owner) && Took(s, s', p, page) && IsDir(s.owner, d)
    ensures Ledger(s'.pages, s'.owner) && SameMaps(s.pages, s.owner, s'.pages, s'.owner)
    ensures Tabs(s'.pages, d) == Tabs(s.pages, d) && forall i: nat :: Pde(s'.pages, d, i) == Pde(s.pages, d, i)
  {
    Recolour(s.pages, s.owner, p, page, Held);
  }

  lemma {:induction false} FillsPlan(s1: View, s2: View, s3: View, d: nat, lo: nat, a: nat, p: nat, plan: Plan,
                                     i: nat, j: nat)
    requires Ledger(s1.pages, s1.owner) && IsDir(s1.owner, d) && a < USERPAGES && p < VPAGES
    requires plan(Pdx(a), Ptx(a)).1 < PGSIZE && Took(s1, s2, p, plan(Pdx(a), Ptx(a)).0)
    requires Maps(s2, s3, d, a, a + 1, p, plan(Pdx(a), Ptx(a)).1)
    requires In(i, j, lo, a + 1) && (Vpn(i, j) < a ==> AsPlanned(s1, d, i, j, plan))
    ensures AsPlanned(s3, d, i, j, plan)
  {
    TookKeeps(s1, s2, d, p, plan(Pdx(a), Ptx(a)).0);
    SplitsVpn(i, j);
    VpnSplits(Vpn(i, j));
    LaterStep(p, 0);
    hide Pte, Pde, Present, Frame, Flags, WithP, Tabs, Pdx, Ptx, Vpn, Later, Filled, Entry;
    assert IsDir(s2.owner, d);
    if Vpn(i, j) == a {
      assert Pte(s3.pages, d, i, j) == Entry(p, plan(i, j).1);
      assert OwnerOf(s2.owner, p) == Held;
    } else {
      var q := Frame(Pte(s1.pages, d, i, j));
      assert Pte(s3.pages, d, i, j) == Pte(s1.pages, d, i, j);
      assert OwnerOf(s1.owner, q) == User(d, i, j) && OwnerOf(s2.owner, q) == User(d, i, j);
      assert s2.pages[q] == s1.pages[q];
    }
  }

  lemma {:induction false} FillsMaps(s: View, s1: View, s2: View, s3: View, d: nat, lo: nat, a: nat, p: nat, perm: nat)
    requires perm < PGSIZE && lo <= a && IsDir(s.owner, d)
    requires forall d': nat :: IsDir(s.owner, d') ==> IsDir(s1.owner, d')
    requires Absent(s.pages, d, lo, a) && OthersSame(s, s1, d, lo, a)
    requires SameMaps(s1.pages, s1.owner, s2.pages, s2.owner)
    requires Absent(s2.pages, d, a, a + 1) && Ranged(s2, s3, d, a, a + 1, p, perm)
    ensures Absent(s.pages, d, lo, a + 1) && OthersSame(s, s3, d, lo, a + 1)
  {
    hide Pte, Present, Later, Entry;
    forall i: nat, j: nat
      ensures In(i, j, lo, a + 1) <==> In(i, j, lo, a) || In(i, j, a, a + 1)
      ensures !(In(i, j, lo, a) && In(i, j, a, a + 1))
    {
    }
    hide In;
    forall i: nat, j: nat | In(i, j, lo, a + 1)
      ensures !Present(Pte(s.pages, d, i, j))
    {
      if In(i, j, a, a + 1) {
        assert IsDir(s1.owner, d);
        assert Pte(s2.pages, d, i, j) == Pte(s1.pages, d, i, j) == Pte(s.pages, d, i, j);
      }
    }
    forall d': nat, i: nat, j: nat | IsDir(s.owner, d') && !(d' == d && In(i, j, lo, a + 1))
      ensures Pte(s3.pages, d', i, j) == Pte(s.pages, d', i, j)
    {
      assert IsDir(s1.owner, d') && IsDir(s2.owner, d');
      assert Pte(s2.pages, d', i, j) == Pte(s1.pages, d', i, j);
    }
  }

  lemma {:induction false} FillsOwners(s: View, s1: View, s2: View, s3: View, d: nat, lo: nat, a: nat, p: nat,
                                       page: Page)
    requires lo <= a < USERPAGES && SameData(s.pages, s.owner, s1.pages) && Took(s1, s2, p, page)
    requires forall q: nat :: Got(OwnerOf(s.owner, q), OwnerOf(s1.owner, q), d, lo, a)
    requires SameData(s2.pages, s2.owner, s3.pages) && Grown(Claimed(s2.owner, d, a, p), s3.owner, d)
    ensures SameData(s.pages, s.owner, s3.pages)
    ensures forall q: nat :: Got(OwnerOf(s.owner, q), OwnerOf(s3.owner, q), d, lo, a + 1)
  {
    hide Filled;
    forall q: nat
      ensures Got(OwnerOf(s.owner, q), OwnerOf(s3.owner, q), d, lo, a + 1)
    {
      assert Got(OwnerOf(s.owner, q), OwnerOf(s1.owner, q), d, lo, a);
      VpnSplits(a);
    }
    forall q: nat | q < |s.pages| && (OwnerOf(s.owner, q).Held? || OwnerOf(s.owner, q).User?)
      ensures s3.pages[q] == s.pages[q]
    {
      assert Got(OwnerOf(s.owner, q), OwnerOf(s1.owner, q), d, lo, a);
      assert OwnerOf(s2.owner, q) == OwnerOf(s1.owner, q) == OwnerOf(s.owner, q);
    }
  }

  lemma {:induction false} TabledOn(pages: seq<Page>, pages1: seq<Page>, pages2: seq<Page>, pages3: seq<Page>, d: nat,
                                    lo: nat, a: nat)
    requires lo <= a && Tabled(pages, pages1, d, lo, a) && Tabled(pages2, pages3, d, a, a + 1)
    requires forall i: nat :: Pde(pages2, d, i) == Pde(pages1, d, i)
    ensures Tabled(pages, pages3, d, lo, a + 1)
  {
    hide Pde, Present;
    forall i: nat
      ensures Present(Pde(pages3, d, i)) <==> Present(Pde(pages, d, i)) || Covers(i, lo, a + 1)
    {
      assert Covers(i, lo, a + 1) <==> Covers(i, lo, a) || Covers(i, a, a + 1);
      assert Pde(pages2, d, i) == Pde(pages1, d, i);
    }
  }

  lemma {:induction false} FillsStep(s: View, s1: View, s2: View, s3: View, d: nat, lo: nat, a: nat, p: nat, plan: Plan)
    requires lo <= a < USERPAGES && p < VPAGES && IsDir(s.owner, d) && Ledger(s1.pages, s1.owner)
    requires plan(Pdx(a), Ptx(a)).1 < PGSIZE && Fills(s, s1, d, lo, a, plan)
    requires Took(s1, s2, p, plan(Pdx(a), Ptx(a)).0) && Maps(s2, s3, d, a, a + 1, p, plan(Pdx(a), Ptx(a)).1)
    ensures Fills(s, s3, d, lo, a + 1, plan)
  {
    forall d': nat | IsDir(s.owner, d')
      ensures IsDir(s1.owner, d')
    {
      assert Got(OwnerOf(s.owner, d'), OwnerOf(s1.owner, d'), d, lo, a);
    }
    TookKeeps(s1, s2, d, p, plan(Pdx(a), Ptx(a)).0);
    assert |s2.free| + 1 == |s1.free|;
    hide Ledger, Absent, Ranged, OthersSame, SameMaps, Tabled, Tabs, SameData, Grown, Claimed, OwnerOf, Got, Pdx, Ptx,
         Pde, IsDir, Took;
    FillsMaps(s, s1, s2, s3, d, lo, a, p, plan(Pdx(a), Ptx(a)).1);
    FillsOwners(s, s1, s2, s3, d, lo, a, p, plan(Pdx(a), Ptx(a)).0);
    TabledOn(s.pages, s1.pages, s2.pages, s3.pages, d, lo, a);
    forall i: nat, j: nat | In(i, j, lo, a + 1)
      ensures AsPlanned(s3, d, i, j, plan)
    {
      FillsPlan(s1, s2, s3, d, lo, a, p, plan, i, j);
    }
  }

  /** From s to s', pages lo up to hi of d are unmapped and whatever they had is given back; d may have more tables. */
  ghost predicate Unwinds(s: View, s': View, d: nat, lo: nat, hi: nat) {
    && |s'.pages| == |s.pages| && |s'.owner| == |s.owner|
    && (forall q: nat :: OwnerOf(s'.owner, q) == Released(OwnerOf(s.owner, q), d, lo, hi)
                         || (OwnerOf(s.owner, q).Free? && OwnerOf(s'.owner, q).Table? && OwnerOf(s'.owner, q).d == d))
    && (forall q: nat :: q < |s.pages| && (OwnerOf(s'.owner, q).Held? || OwnerOf(s'.owner, q).User?) ==>
        s'.pages[q] == s.pages[q])
    && Absent(s'.pages, d, lo, hi) && OthersSame(s, s', d, lo, hi)
  }

  /** Giving back what was filled so far, and the page p in hand if there is one. */
  lemma {:induction false} FillsUndone(s: View, s1: View, s2: View, s3: View, s4: View, d: nat, lo: nat, a: nat,
                                       hi: nat, p: nat, page: Page, plan: Plan)
    requires lo <= a <= hi && IsDir(s.owner, d) && |s.pages| == |s.owner| && Ledger(s1.pages, s1.owner)
    requires Fills(s, s1, d, lo, a, plan) && |s1.owner| == |s.owner|
    requires s2 == s1 || Took(s1, s2, p, page)
    requires Unmaps(s2, s3, d, lo, hi) && Ledger(s3.pages, s3.owner)
    requires if s2 == s1 then s4 == s3 else Gives(s3, s4, p)
    ensures Unwinds(s, s4, d, lo, hi)
  {
    UndoneOwners(s, s1, s2, s3, s4, d, lo, a, hi, p, page, plan);
    UndoneMaps(s, s1, s2, s3, s4, d, lo, a, hi, p, page, plan);
  }

  lemma {:induction false} UndoneOwners(s: View, s1: View, s2: View, s3: View, s4: View, d: nat, lo: nat, a: nat,
                                        hi: nat, p: nat, page: Page, plan: Plan)
    requires lo <= a <= hi && |s.pages| == |s.owner| == |s1.owner|
    requires Fills(s, s1, d, lo, a, plan)
    requires s2 == s1 || Took(s1, s2, p, page)
    requires Unmaps(s2, s3, d, lo, hi)
    requires if s2 == s1 then s4 == s3 else Gives(s3, s4, p)
    ensures |s4.pages| == |s.pages| && |s4.owner| == |s.owner|
    ensures forall q: nat :: OwnerOf(s4.owner, q) == Released(OwnerOf(s.owner, q), d, lo, hi)
                             || (OwnerOf(s.owner, q).Free? && OwnerOf(s4.owner, q).Table?
                                 && OwnerOf(s4.owner, q).d == d)
    ensures forall q: nat :: q < |s.pages| && (OwnerOf(s4.owner, q).Held? || OwnerOf(s4.owner, q).User?) ==>
              s4.pages[q] == s.pages[q]
  {
    hide Pte, Pde, Present, Tabs, Absent, OthersSame, Tabled, AsPlanned, Vpn, Filled;
    forall q: nat
      ensures OwnerOf(s4.owner, q) == Released(OwnerOf(s.owner, q), d, lo, hi)
              || (OwnerOf(s.owner, q).Free? && OwnerOf(s4.owner, q).Table? && OwnerOf(s4.owner, q).d == d)
      ensures q < |s.pages| && (OwnerOf(s4.owner, q).Held? || OwnerOf(s4.owner, q).User?) ==> s4.pages[q] == s.pages[q]
    {
      assert Got(OwnerOf(s.owner, q), OwnerOf(s1.owner, q), d, lo, a);
      assert OwnerOf(s3.owner, q) == Released(OwnerOf(s2.owner, q), d, lo, hi);
    }
  }

  lemma {:induction false} UndoneMaps(s: View, s1: View, s2: View, s3: View, s4: View, d: nat, lo: nat, a: nat,
                                      hi: nat, p: nat, page: Page, plan: Plan)
    requires lo <= a <= hi && IsDir(s.owner, d) && |s.pages| == |s.owner| && Ledger(s1.pages, s1.owner)
    requires Fills(s, s1, d, lo, a, plan) && |s1.owner| == |s.owner|
    requires s2 == s1 || Took(s1, s2, p, page)
    requires Unmaps(s2, s3, d, lo, hi) && Ledger(s3.pages, s3.owner)
    requires if s2 == s1 then s4 == s3 else Gives(s3, s4, p)
    ensures Absent(s4.pages, d, lo, hi) && OthersSame(s, s4, d, lo, hi)
  {
    forall d': nat | IsDir(s.owner, d')
      ensures IsDir(s1.owner, d')
    {
      assert Got(OwnerOf(s.owner, d'), OwnerOf(s1.owner, d'), d, lo, a);
    }
    NotPresent();
    if s2 != s1 {
      TookKeeps(s1, s2, d, p, page);
      GivesKeeps(s3, s4, p);
    }
    hide Pte, Pde, Present, Tabs, Tabled, AsPlanned, Vpn, Filled, Ledger;
    assert forall d': nat :: IsDir(s.owner, d') ==> IsDir(s2.owner, d') && IsDir(s3.owner, d');
    forall d': nat, i: nat, j: nat | IsDir(s.owner, d')
      ensures Pte(s4.pages, d', i, j) == Pte(s3.pages, d', i, j)
      ensures Pte(s2.pages, d', i, j) == Pte(s1.pages, d', i, j)
    {
    }
  }

  lemma {:induction false} GivesKeeps(s: View, s': View, p: nat)
    requires Ledger(s.pages, s.owner) && Gives(s, s', p)
    ensures Ledger(s'.pages, s'.owner) && SameMaps(s.pages, s.owner, s'.pages, s'.owner)
  {
    Recolour(s.pages, s.owner, p, s'.pages[p], Free);
    assert s'.pages == s.pages[p := s'.pages[p]];
  }

  /** Zeroed pages that the user may read and write. */
  ghost function ZeroPlan(): Plan { (i, j) => (Filled(0), 6) }

  lemma {:induction false} ZeroPlanIs(v: nat)
    ensures ZeroPlan()(Pdx(v), Ptx(v)) == (Filled(0), 6)
  {
  }

  lemma {:induction false} Lengths(s: View, s': View)
    requires Ledger(s.pages, s.owner) && Ledger(s'.pages, s'.owner)
    ensures |s.pages| == |s.owner| == |s'.owner| == |s'.pages|
  {
  }

  lemma {:induction false} StillHeld(s1: View, s2: View, s3: View, d: nat, lo: nat, hi: nat, p: nat, page: Page)
    requires Took(s1, s2, p, page) && Unmaps(s2, s3, d, lo, hi)
    ensures OwnerOf(s3.owner, p) == Held && s2 != s1
  {
    assert OwnerOf(s2.owner, p) == Held;
  }

  /** A page found mapped was mapped from the start. */
  lemma {:induction false} WasPresent(s: View, s1: View, d: nat, lo: nat, a: nat, hi: nat, plan: Plan)
    requires Fills(s, s1, d, lo, a, plan) && IsDir(s.owner, d) && lo <= a < hi
             && Present(Pte(s1.pages, d, Pdx(a), Ptx(a)))
    ensures !Absent(s.pages, d, lo, hi)
  {
    VpnSplits(a);
    assert In(Pdx(a), Ptx(a), lo, hi) && !In(Pdx(a), Ptx(a), lo, a);
    hide Pdx, Ptx, Pte, Present, In, Tabs, Tabled;
  }

  datatype Growth = Size(n: uint32) | Failed | Panicked

  datatype MapResult = Done | NoTable | Remap

  lemma {:induction false} InRange(pages: seq<Page>, owner: seq<Owner>, p: nat)
    requires Ledger(pages, owner) && OwnerOf(owner, p) == Held
    ensures p < NPAGES && |pages| == |owner| == NPAGES && owner[p] == Held && owner[p := Held] == owner
  {
  }

  lemma {:induction false} SameFreeHeld(pages: seq<Page>, owner: seq<Owner>, free: seq<nat>, head: uint32, first: nat,
                                        p: nat, page: Page)
    requires FreeList(pages, owner, free, head, first) && OwnerOf(owner, p) == Held && p < NPAGES
    ensures FreeList(pages[p := page], owner, free, head, first)
  {
    SameFree(pages, owner, free, head, first, pages[p := page], owner);
  }

  // ---- The kernel part of an address space ----------------------------------------------------------

  /** One line of kmap: pages lo up to hi go to frames from p on. */
  datatype Kmap = Kmap(lo: nat, hi: nat, p: nat, perm: nat)

  /** Frame of EXTMEM and page of DEVSPACE. */
  const EXTPAGES := 0x100
  const DEVPAGE := 0xF_E000

  /** The k-th line of kmap; data is the frame where the kernel's data begins. */
  function KmapAt(k: nat, data: nat): Kmap {
    if k == 0 then Kmap(USERPAGES, USERPAGES + EXTPAGES, 0, 2)
    else if k == 1 then Kmap(USERPAGES + EXTPAGES, USERPAGES + data, EXTPAGES, 0)
    else if k == 2 then Kmap(USERPAGES + data, USERPAGES + NPAGES, data, 2)
    else Kmap(DEVPAGE, VPAGES, DEVPAGE, 2)
  }

  /** The entry that the first n lines give page v. */
  function KernelPte(v: nat, n: nat, data: nat): uint32 {
    if n == 0 then 0
    else var k := KmapAt(n - 1, data);
         if k.lo <= v < k.hi then Entry(Later(k.p, v - k.lo), k.perm) else KernelPte(v, n - 1, data)
  }

  /** Slot i is covered by one of the first n lines. */
  predicate KernelSlot(i: nat, n: nat, data: nat) {
    n > 0 && (Covers(i, KmapAt(n - 1, data).lo, KmapAt(n - 1, data).hi) || KernelSlot(i, n - 1, data))
  }

  /** The kernel part in one formula: physical memory at KERNBASE, devices at DEVSPACE onto themselves. */
  lemma {:induction false} KernelPart(v: nat, data: nat)
    requires EXTPAGES < data < NPAGES
    ensures KernelPte(v, 4, data) ==
              if USERPAGES <= v < USERPAGES + NPAGES
              then Entry(v - USERPAGES, if EXTPAGES <= v - USERPAGES < data then 0 else 2)
              else if DEVPAGE <= v < VPAGES then Entry(v, 2) else 0
  {
    assert KernelPte(v, 4, data) == if DEVPAGE <= v < VPAGES then Entry(Later(DEVPAGE, v - DEVPAGE), 2)
           else KernelPte(v, 3, data);
    assert KernelPte(v, 3, data) == if USERPAGES + data <= v < USERPAGES + NPAGES
           then Entry(Later(data, v - USERPAGES - data), 2) else KernelPte(v, 2, data);
    assert KernelPte(v, 2, data) == if USERPAGES + EXTPAGES <= v < USERPAGES + data
           then Entry(Later(EXTPAGES, v - USERPAGES - EXTPAGES), 0) else KernelPte(v, 1, data);
    assert KernelPte(v, 1, data) == if USERPAGES <= v < USERPAGES + EXTPAGES then Entry(Later(0, v - USERPAGES), 2)
           else KernelPte(v, 0, data);
    hide Entry;
  }

  /** Kernel slots below n: 56 for memory and 8 for devices. */
  function SlotsBelow(n: nat): nat {
    if n <= 512 then 0 else if n <= 568 then n - 512 else if n <= 1016 then 56 else n - 960
  }

  predicate IsKernelSlot(i: nat) { 512 <= i < 568 || 1016 <= i < 1024 }

  lemma {:induction false} KernelSlots(i: nat, data: nat)
    requires EXTPAGES < data < NPAGES
    ensures KernelSlot(i, 4, data) <==> IsKernelSlot(i)
  {
    assert KernelSlot(i, 4, data) <==> Covers(i, DEVPAGE, VPAGES) || KernelSlot(i, 3, data);
    assert KernelSlot(i, 3, data) <==> Covers(i, USERPAGES + data, USERPAGES + NPAGES) || KernelSlot(i, 2, data);
    assert KernelSlot(i, 2, data) <==> Covers(i, USERPAGES + EXTPAGES, USERPAGES + data) || KernelSlot(i, 1, data);
    assert KernelSlot(i, 1, data) <==> Covers(i, USERPAGES, USERPAGES + EXTPAGES) || KernelSlot(i, 0, data);
  }

  lemma {:induction false} SlotsGrow(i: nat, k: nat, n: nat, data: nat)
    requires KernelSlot(i, k, data) && k <= n
    ensures KernelSlot(i, n, data)
  {
    if k < n {
      SlotsGrow(i, k, n - 1, data);
    }
  }

  /** Tables in kernel slots only are at most SlotsBelow; exactly so many if every kernel slot has one. */
  lemma {:induction false} CountSlots(page: Page, n: nat)
    requires n <= ENTRIES && forall i: nat :: i < n && Present(page[i]) ==> IsKernelSlot(i)
    ensures Count(page, n) <= SlotsBelow(n)
    ensures Count(page, n) == SlotsBelow(n) <==> forall i: nat :: i < n && IsKernelSlot(i) ==> Present(page[i])
  {
    if n > 0 {
      CountSlots(page, n - 1);
    }
  }

  /** From s to s', page d became a directory and got tables; everything else is as it was. */
  ghost predicate Building(s: View, s': View, d: nat) {
    && d < |s.owner| && OwnerOf(s.owner, d) == Free && Grown(s.owner[d := Dir], s'.owner, d)
    && SameData(s.pages, s.owner, s'.pages)
    && (forall d': nat, i: nat, j: nat :: IsDir(s.owner, d') ==> Pte(s'.pages, d', i, j) == Pte(s.pages, d', i, j))
    && |s'.free| + Tabs(s'.pages, d) + 1 == |s.free|
  }

  /** Directory d maps what the first n lines of kmap say, and has tables for that only. */
  ghost predicate Built(pages: seq<Page>, d: nat, n: nat, data: nat) {
    && (forall i: nat, j: nat :: j < ENTRIES ==> Pte(pages, d, i, j) == KernelPte(Vpn(i, j), n, data))
    && forall i: nat :: Present(Pde(pages, d, i)) <==> KernelSlot(i, n, data)
  }

  lemma {:induction false} CountZero(n: nat)
    requires n <= ENTRIES
    ensures Count(Filled(0), n) == 0
  {
    if n > 0 {
      CountZero(n - 1);
      NotPresent();
    }
  }

  lemma {:induction false} BuildNew(s: View, s1: View, s2: View, d: nat, data: nat)
    requires Ledger(s1.pages, s1.owner) && d < |s.owner| && OwnerOf(s.owner, d) == Free
             && s1.owner == s.owner[d := Held]
    requires s1.pages == s.pages && |s1.free| + 1 == |s.free| && SameMaps(s.pages, s.owner, s1.pages, s1.owner)
    requires s2.free == s1.free && d < |s1.pages| && s2.pages == s1.pages[d := Filled(0)]
             && s2.owner == s1.owner[d := Dir]
    ensures Building(s, s2, d) && Built(s2.pages, d, 0, data)
  {
    CountZero(ENTRIES);
    NotPresent();
    NewDir(s1.pages, s1.owner, d);
    assert s2.owner == s.owner[d := Dir];
    hide Present, Frame, Filled, Count, Ledger, Entry;
    forall i: nat, j: nat
      ensures Pte(s2.pages, d, i, j) == 0
    {
      assert Pde(s2.pages, d, i) == 0;
    }
  }

  lemma {:induction false} BuildStep(s: View, s1: View, s2: View, d: nat, lo: nat, hi: nat, p: nat, perm: nat)
    requires perm < PGSIZE && lo >= USERPAGES && Building(s, s1, d) && Maps(s1, s2, d, lo, hi, p, perm)
    ensures Building(s, s2, d)
  {
    hide Pte, Pde, Present, Tabs, Tabled, Entry, Later, Absent;
    assert IsDir(s.owner[d := Dir], d) && !IsDir(s.owner, d);
    assert forall d': nat :: IsDir(s.owner, d') ==> IsDir(s1.owner, d');
    assert forall q: nat :: OwnerOf(s.owner, q).Held? || OwnerOf(s.owner, q).User? ==>
             OwnerOf(s1.owner, q) == OwnerOf(s.owner, q);
    hide In;
  }

  lemma {:induction false} BuiltStep(s1: View, s2: View, d: nat, n: nat, data: nat)
    requires IsDir(s1.owner, d) && Built(s1.pages, d, n, data) && KmapAt(n, data).perm < PGSIZE
    requires var k := KmapAt(n, data); Maps(s1, s2, d, k.lo, k.hi, k.p, k.perm)
    ensures Built(s2.pages, d, n + 1, data)
  {
    hide Pte, Pde, Present, Tabs, Entry, Later, Absent, KmapAt, Vpn;
  }

  /** The lines of kmap do not overlap. */
  lemma {:induction false} LinesApart(v: nat, n: nat, data: nat)
    requires EXTPAGES < data < NPAGES && n < 4 && KmapAt(n, data).lo <= v < KmapAt(n, data).hi
    ensures KernelPte(v, n, data) == 0
  {
    hide Entry;
    assert n >= 1 ==> !(KmapAt(0, data).lo <= v < KmapAt(0, data).hi) && KernelPte(v, 1, data) == KernelPte(v, 0, data);
    assert n >= 2 ==> !(KmapAt(1, data).lo <= v < KmapAt(1, data).hi) && KernelPte(v, 2, data) == KernelPte(v, 1, data);
    assert n >= 3 ==> !(KmapAt(2, data).lo <= v < KmapAt(2, data).hi) && KernelPte(v, 3, data) == KernelPte(v, 2, data);
  }

  lemma {:induction false} NoRemap(pages: seq<Page>, d: nat, v: nat, n: nat, data: nat)
    requires EXTPAGES < data < NPAGES && n < 4 && KmapAt(n, data).lo <= v < KmapAt(n, data).hi
    requires Built(pages, d, n, data)
    ensures !Present(Pte(pages, d, Pdx(v), Ptx(v)))
  {
    VpnSplits(v);
    LinesApart(v, n, data);
    NotPresent();
    hide Pdx, Ptx, Vpn, Pte, Present, KernelPte, KmapAt;
    assert Pte(pages, d, Pdx(v), Ptx(v)) == KernelPte(v, n, data);
  }

  lemma {:induction false} CoversPage(v: nat, lo: nat, hi: nat)
    requires lo <= v < hi
    ensures Covers(Pdx(v), lo, hi)
  {
  }

  /** The last page gone and a kernel slot still empty: there were fewer than 65 pages. */
  lemma {:induction false} TooFew(s: View, s1: View, s2: View, d: nat, n: nat, mid: nat, data: nat)
    requires EXTPAGES < data < NPAGES && n < 4 && KmapAt(n, data).lo <= mid < KmapAt(n, data).hi
             && KmapAt(n, data).perm < PGSIZE
    requires Built(s1.pages, d, n, data) && Building(s, s2, d) && s2.free == [] && d < |s2.pages|
    requires var k := KmapAt(n, data); Maps(s1, s2, d, k.lo, mid, k.p, k.perm)
    requires !Present(Pde(s2.pages, d, Pdx(mid)))
    ensures |s.free| < 65
  {
    var k := KmapAt(n, data);
    CoversPage(mid, k.lo, k.hi);
    hide Present, Pdx, KmapAt, Pte, Entry, Later, KernelPte;
    forall i: nat | Present(Pde(s2.pages, d, i))
      ensures IsKernelSlot(i)
    {
      if !KernelSlot(i, n, data) {
        assert Covers(i, k.lo, mid);
        assert KernelSlot(i, n + 1, data);
      } else {
        SlotsGrow(i, n, n + 1, data);
      }
      SlotsGrow(i, n + 1, 4, data);
      KernelSlots(i, data);
    }
    assert KernelSlot(Pdx(mid), n + 1, data);
    SlotsGrow(Pdx(mid), n + 1, 4, data);
    KernelSlots(Pdx(mid), data);
    CountSlots(s2.pages[d], ENTRIES);
  }

  lemma {:induction false} Enough(s: View, s': View, d: nat, data: nat)
    requires EXTPAGES < data < NPAGES && Building(s, s', d) && Built(s'.pages, d, 4, data) && d < |s'.pages|
    ensures |s.free| == |s'.free| + 65 && Tabs(s'.pages, d) == 64
  {
    hide Present, Pte, Entry, Later, KernelPte, KernelSlot;
    forall i: nat
      ensures Present(Pde(s'.pages, d, i)) <==> IsKernelSlot(i)
    {
      KernelSlots(i, data);
    }
    CountSlots(s'.pages[d], ENTRIES);
  }

  /** Every page has the owner it had, and every translation and every page in use is the same. */
  ghost predicate Restored(s: View, s': View) {
    && |s'.owner| == |s.owner| && (forall q: nat :: OwnerOf(s'.owner, q) == OwnerOf(s.owner, q))
        && SameData(s.pages, s.owner, s'.pages)
    && forall d': nat, i: nat, j: nat :: IsDir(s.owner, d') ==> Pte(s'.pages, d', i, j) == Pte(s.pages, d', i, j)
  }

  lemma {:induction false} BuildUndone(s: View, s1: View, s2: View, d: nat)
    requires Building(s, s1, d) && Discards(s1, s2, d)
    requires forall q: nat :: OwnerOf(s.owner, q).Table? || OwnerOf(s.owner, q).User? ==> OwnerOf(s.owner, q).d != d
    ensures Restored(s, s2)
  {
    hide Pte, Tabs;
    forall q: nat
      ensures OwnerOf(s2.owner, q) == OwnerOf(s.owner, q)
    {
      assert OwnerOf(s1.owner, q) == OwnerOf(s.owner[d := Dir], q) || OwnerOf(s.owner, q).Free?;
    }
    assert forall d': nat :: IsDir(s.owner, d') ==> IsDir(s1.owner, d') && d' != d;
  }

  lemma {:induction false} RestoredSame(s: View)
    ensures Restored(s, s)
  {
  }

  lemma {:induction false} DirInRange(pages: seq<Page>, owner: seq<Owner>, d: nat)
    requires Ledger(pages, owner) && IsDir(owner, d)
    ensures d < |pages|
  {
  }

  /** A free page is part of no address space. */
  lemma {:induction false} NotPart(s: View, d: nat)
    requires Ledger(s.pages, s.owner) && OwnerOf(s.owner, d) == Free
    ensures forall q: nat :: OwnerOf(s.owner, q).Table? || OwnerOf(s.owner, q).User? ==> OwnerOf(s.owner, q).d != d
  {
    hide Pte, Pde, Present, Frame;
    assert forall q: nat :: OwnerOf(s.owner, q).User? ==> Mapped(s.pages, s.owner, q);
  }

  // ---- Copying an address space ------------------------------------------------------------------------

  /** CopyPanic: a page below sz is not mapped. */
  datatype Copy = Child(d: nat) | NoChild | CopyPanic

  /** The pages of the parent, with their flags. */
  ghost function CopyPlan(s: View, parent: nat): Plan {
    (i, j) => (PageAt(s.pages, Frame(Pte(s.pages, parent, i, j))), Flags(Pte(s.pages, parent, i, j)))
  }

  ghost predicate Full(pages: seq<Page>, d: nat, n: nat) {
    forall i: nat, j: nat :: In(i, j, 0, n) ==> Present(Pte(pages, d, i, j))
  }

  /** From s to s', d is a new address space: n pages copied from the parent, the kernel part, and nothing else
      changed. */
  ghost predicate Copied(s: View, s': View, parent: nat, d: nat, n: nat, data: nat) {
    && IsDir(s'.owner, d) && OwnerOf(s.owner, d).Free?
    && (forall i: nat, j: nat :: In(i, j, 0, n) ==> AsPlanned(s', d, i, j, CopyPlan(s, parent)))
    && (forall i: nat, j: nat :: j < ENTRIES && !In(i, j, 0, n) ==>
        Pte(s'.pages, d, i, j) == KernelPte(Vpn(i, j), 4, data))
    && SameData(s.pages, s.owner, s'.pages)
    && (forall d': nat, i: nat, j: nat :: IsDir(s.owner, d') ==> Pte(s'.pages, d', i, j) == Pte(s.pages, d', i, j))
    && forall q: nat :: OwnerOf(s'.owner, q) == OwnerOf(s.owner, q)
        || (OwnerOf(s.owner, q).Free? && Part(OwnerOf(s'.owner, q), q, d))
  }

  lemma {:induction false} CopiedAll(s: View, s0: View, s': View, parent: nat, d: nat, n: nat, data: nat)
    requires Building(s, s0, d) && Built(s0.pages, d, 4, data) && Fills(s0, s', d, 0, n, CopyPlan(s, parent))
    ensures Copied(s, s', parent, d, n, data)
  {
    hide Pte, Pde, Present, Tabs, Tabled, Absent, CopyPlan, KernelPte, AsPlanned, KernelSlot, In, Vpn;
    forall q: nat
      ensures OwnerOf(s'.owner, q) == OwnerOf(s.owner, q)
              || (OwnerOf(s.owner, q).Free? && Part(OwnerOf(s'.owner, q), q, d))
      ensures IsDir(s.owner, q) ==> IsDir(s0.owner, q) && q != d
      ensures OwnerOf(s.owner, q).Held? || OwnerOf(s.owner, q).User? ==> OwnerOf(s0.owner, q) == OwnerOf(s.owner, q)
    {
      assert Got(OwnerOf(s0.owner, q), OwnerOf(s'.owner, q), d, 0, n);
    }
    assert IsDir(s0.owner, d) && Got(OwnerOf(s0.owner, d), OwnerOf(s'.owner, d), d, 0, n);
    hide Got, OwnerOf;
  }

  /** While the child is being filled, the parent's pages read as at the start, and the next page of the child is not
      mapped. */
  lemma {:induction false} ParentSame(s: View, s0: View, s1: View, parent: nat, d: nat, a: nat)
    requires Ledger(s.pages, s.owner) && IsDir(s.owner, parent) && a < USERPAGES && |s1.pages| == |s.pages|
    requires Building(s, s0, d) && Fills(s0, s1, d, 0, a, CopyPlan(s, parent))
    ensures IsDir(s1.owner, parent) && Pte(s1.pages, parent, Pdx(a), Ptx(a)) == Pte(s.pages, parent, Pdx(a), Ptx(a))
    ensures var e := Pte(s.pages, parent, Pdx(a), Ptx(a));
            Present(e) ==>
              && Frame(e) < |s1.pages|
              && CopyPlan(s, parent)(Pdx(a), Ptx(a)) == (s1.pages[Frame(e)], Flags(e))
  {
    VpnSplits(a);
    var i, j := Pdx(a), Ptx(a);
    var e := Pte(s.pages, parent, i, j);
    assert CopyPlan(s, parent)(i, j) == (PageAt(s.pages, Frame(e)), Flags(e));
    hide Pdx, Ptx, Pte, Pde, Present, Frame, Flags, Tabs, Tabled, Absent, CopyPlan, AsPlanned, In;
    assert IsDir(s0.owner, parent) && parent != d;
    assert Got(OwnerOf(s0.owner, parent), OwnerOf(s1.owner, parent), d, 0, a);
    assert Pte(s1.pages, parent, i, j) == Pte(s0.pages, parent, i, j);
    if Present(e) {
      var q := Frame(e);
      assert OwnerOf(s.owner, q) == User(parent, i, j) && OwnerOf(s0.owner, q) == User(parent, i, j);
    }
  }

  lemma {:induction false} NotFull(pages: seq<Page>, d: nat, a: nat, n: nat)
    requires a < n && !Present(Pte(pages, d, Pdx(a), Ptx(a)))
    ensures !Full(pages, d, n)
  {
    VpnSplits(a);
    assert In(Pdx(a), Ptx(a), 0, n);
  }

  lemma {:induction false} NoClash(s0: View, s1: View, d: nat, a: nat, data: nat, plan: Plan)
    requires EXTPAGES < data < NPAGES && IsDir(s0.owner, d) && Built(s0.pages, d, 4, data)
             && Fills(s0, s1, d, 0, a, plan) && a < USERPAGES
    ensures !Present(Pte(s1.pages, d, Pdx(a), Ptx(a)))
  {
    VpnSplits(a);
    KernelPart(a, data);
    NotPresent();
    assert !In(Pdx(a), Ptx(a), 0, a);
    hide Pdx, Ptx, Pte, Present, In, Vpn, Tabs, Tabled, Absent, AsPlanned, KernelPte, KernelSlot, Got;
    assert Pte(s1.pages, d, Pdx(a), Ptx(a)) == Pte(s0.pages, d, Pdx(a), Ptx(a)) == KernelPte(a, 4, data);
  }

  // ---- Counting pages: when copyuvm loses one ------------------------------------------------------------

  /** Tables for the first a pages. */
  function UserTabs(a: nat): nat { (a + ENTRIES - 1) / ENTRIES }

  lemma {:induction false} CoversLow(i: nat, a: nat)
    ensures Covers(i, 0, a) <==> i < UserTabs(a)
  {
  }

  lemma {:induction false} CountAll(page: Page, n: nat, u: nat)
    requires n <= ENTRIES && u <= USERPDES && forall i: nat :: i < n ==>
               (Present(page[i]) <==> IsKernelSlot(i) || i < u)
    ensures Count(page, n) == SlotsBelow(n) + Min(n, u)
  {
    if n > 0 {
      CountAll(page, n - 1, u);
    }
  }

  lemma {:induction false} CountDirectory(pages: seq<Page>, d: nat, u: nat)
    requires d < |pages| && u <= USERPDES
    requires forall i: nat :: Present(Pde(pages, d, i)) <==> IsKernelSlot(i) || i < u
    ensures Count(pages[d], ENTRIES) == SlotsBelow(ENTRIES) + Min(ENTRIES, u)
  {
    hide Present;
    forall i: nat | i < ENTRIES
      ensures Present(pages[d][i]) <==> IsKernelSlot(i) || i < u
    {
      assert Pde(pages, d, i) == pages[d][i];
    }
    CountAll(pages[d], ENTRIES, u);
  }

  /** The free pages once a pages have been copied. */
  lemma {:induction false} FreeAfter(s: View, s0: View, s1: View, d: nat, a: nat, data: nat, plan: Plan)
    requires EXTPAGES < data < NPAGES && a <= USERPAGES && d < |s0.pages|
    requires Building(s, s0, d) && Built(s0.pages, d, 4, data) && Fills(s0, s1, d, 0, a, plan)
    ensures |s1.free| + 65 + a + UserTabs(a) == |s.free|
    ensures forall i: nat :: Present(Pde(s1.pages, d, i)) <==> IsKernelSlot(i) || i < UserTabs(a)
  {
    Enough(s, s0, d, data);
    assert UserTabs(a) <= USERPDES;
    hide Pte, Present, KernelPte, AsPlanned, KernelSlot, In, UserTabs;
    forall i: nat
      ensures Present(Pde(s1.pages, d, i)) <==> IsKernelSlot(i) || i < UserTabs(a)
    {
      KernelSlots(i, data);
      CoversLow(i, a);
    }
    CountDirectory(s1.pages, d, UserTabs(a));
  }

  lemma {:induction false} TabsOrder(a: nat, n: nat)
    requires a < n
    ensures UserTabs(a) <= UserTabs(n)
    ensures Pdx(a) >= UserTabs(a) ==> a == UserTabs(a) * ENTRIES && UserTabs(a) < UserTabs(n)
  {
  }

  predicate MappedAt(pages: seq<Page>, d: nat, v: nat) { Present(Pte(pages, d, Pdx(v), Ptx(v))) }

  /** The first page from a on, below n, that directory d does not map; n if it maps them all. */
  function Hole(pages: seq<Page>, d: nat, a: nat, n: nat): (m: nat)
    requires a <= n
    ensures a <= m <= n && (m < n ==> !MappedAt(pages, d, m))
    decreases n - a
  {
    if a == n then n else if MappedAt(pages, d, a) then Hole(pages, d, a + 1, n) else a
  }

  /** The first page from a on, below n, that directory d maps; n if it maps none. */
  function Clash(pages: seq<Page>, d: nat, a: nat, n: nat): (m: nat)
    requires a <= n
    ensures a <= m <= n && (m < n ==> MappedAt(pages, d, m))
    decreases n - a
  {
    if a == n then n else if MappedAt(pages, d, a) then a else Clash(pages, d, a + 1, n)
  }

  lemma {:induction false} HoleBefore(pages: seq<Page>, d: nat, a: nat, n: nat, v: nat)
    requires a <= n && a <= v < Hole(pages, d, a, n)
    ensures MappedAt(pages, d, v)
    decreases n - a
  {
    hide MappedAt;
    if a < v {
      HoleBefore(pages, d, a + 1, n, v);
    }
  }

  lemma {:induction false} ClashBefore(pages: seq<Page>, d: nat, a: nat, n: nat, v: nat)
    requires a <= n && a <= v < Clash(pages, d, a, n)
    ensures !MappedAt(pages, d, v)
    decreases n - a
  {
    hide MappedAt;
    if a < v {
      ClashBefore(pages, d, a + 1, n, v);
    }
  }

  /** The loop of copyuvm stops at the hole, and until then each page and each table counts. */
  lemma {:induction false} NextHole(pages: seq<Page>, d: nat, a: nat, n: nat)
    requires a < n && Hole(pages, d, a, n) == Hole(pages, d, 0, n)
    ensures !Present(Pte(pages, d, Pdx(a), Ptx(a))) ==> Hole(pages, d, 0, n) == a
    ensures Present(Pte(pages, d, Pdx(a), Ptx(a))) ==>
              var m := Hole(pages, d, 0, n);
              && Hole(pages, d, a + 1, n) == m && m >= a + 1
              && m + UserTabs(m) > a + UserTabs(a)
              && (Pdx(a) >= UserTabs(a) ==> m + UserTabs(m) > a + UserTabs(a) + 1)
  {
    if Present(Pte(pages, d, Pdx(a), Ptx(a))) {
      TabsOrder(a, Hole(pages, d, 0, n));
    }
    hide Present, Pte;
  }

  lemma {:induction false} FullHasNoHole(pages: seq<Page>, d: nat, n: nat)
    ensures Full(pages, d, n) <==> Hole(pages, d, 0, n) == n
  {
    var m := Hole(pages, d, 0, n);
    if m == n {
      forall i: nat, j: nat | In(i, j, 0, n)
        ensures Present(Pte(pages, d, i, j))
      {
        SplitsVpn(i, j);
        HoleBefore(pages, d, 0, n, Vpn(i, j));
      }
    } else {
      VpnSplits(m);
      assert In(Pdx(m), Ptx(m), 0, n);
    }
  }

  lemma {:induction false} AbsentHasNoClash(pages: seq<Page>, d: nat, lo: nat, hi: nat)
    requires lo <= hi
    ensures Absent(pages, d, lo, hi) <==> Clash(pages, d, lo, hi) == hi
  {
    var m := Clash(pages, d, lo, hi);
    if m == hi {
      forall i: nat, j: nat | In(i, j, lo, hi)
        ensures !Present(Pte(pages, d, i, j))
      {
        SplitsVpn(i, j);
        ClashBefore(pages, d, lo, hi, Vpn(i, j));
      }
    } else {
      VpnSplits(m);
      assert In(Pdx(m), Ptx(m), lo, hi);
    }
  }

  /** The slots among the first n that the range covers and that have no table yet. */
  ghost function NewTabs(page: Page, lo: nat, hi: nat, n: nat): nat
    requires n <= ENTRIES
  {
    if n == 0 then 0
    else NewTabs(page, lo, hi, n - 1) + if Covers(n - 1, lo, hi) && !Present(page[n - 1]) then 1 else 0
  }

  lemma {:induction false} NewTabsGrow(page: Page, lo: nat, a: nat, b: nat, n: nat)
    requires lo <= a <= b && n <= ENTRIES
    ensures NewTabs(page, lo, a, n) <= NewTabs(page, lo, b, n)
  {
    hide Present;
    if n > 0 {
      NewTabsGrow(page, lo, a, b, n - 1);
    }
  }

  lemma {:induction false} NewTabsMore(page: Page, lo: nat, a: nat, b: nat, n: nat, i: nat)
    requires lo <= a <= b && i < n <= ENTRIES && !Present(page[i]) && Covers(i, lo, b) && !Covers(i, lo, a)
    ensures NewTabs(page, lo, a, n) < NewTabs(page, lo, b, n)
  {
    hide Present, Covers;
    if i == n - 1 {
      NewTabsGrow(page, lo, a, b, n - 1);
    } else {
      NewTabsMore(page, lo, a, b, n - 1, i);
      CoversMore(n - 1, lo, a, b);
    }
  }

  lemma {:induction false} CoversMore(i: nat, lo: nat, a: nat, b: nat)
    requires lo <= a <= b
    ensures Covers(i, lo, a) ==> Covers(i, lo, b)
  {
  }

  lemma {:induction false} CountTabled(page: Page, page': Page, lo: nat, hi: nat, n: nat)
    requires n <= ENTRIES && forall i: nat :: i < n ==> (Present(page'[i]) <==> Present(page[i]) || Covers(i, lo, hi))
    ensures Count(page', n) == Count(page, n) + NewTabs(page, lo, hi, n)
  {
    hide Present, Covers;
    if n > 0 {
      CountTabled(page, page', lo, hi, n - 1);
    }
  }

  /** What filling pages lo up to a has taken from the free list. */
  lemma {:induction false} FilledFree(s: View, s1: View, d: nat, lo: nat, a: nat, plan: Plan)
    requires d < |s.pages| == |s1.pages| && lo <= a && Fills(s, s1, d, lo, a, plan)
    ensures |s1.free| + (a - lo) + NewTabs(s.pages[d], lo, a, ENTRIES) == |s.free|
    ensures forall i: nat :: Present(Pde(s1.pages, d, i)) <==> Present(Pde(s.pages, d, i)) || Covers(i, lo, a)
  {
    hide Present, Covers, Pte, AsPlanned, Absent, OthersSame, SameData, Got, OwnerOf;
    forall i: nat | i < ENTRIES
      ensures Present(s1.pages[d][i]) <==> Present(s.pages[d][i]) || Covers(i, lo, a)
    {
      assert Pde(s1.pages, d, i) == s1.pages[d][i] && Pde(s.pages, d, i) == s.pages[d][i];
    }
    CountTabled(s.pages[d], s1.pages[d], lo, a, ENTRIES);
  }

  /**
   The free pages that mapping new pages from lo up to hi takes: pages and tables up to the first page
   that is mapped already, and there the page that is in hand when mappages panics.
   */
  ghost function Wanted(pages: seq<Page>, d: nat, lo: nat, hi: nat): nat
    requires lo <= hi && d < |pages|
  {
    var m := Clash(pages, d, lo, hi);
    m - lo + NewTabs(pages[d], lo, m, ENTRIES) + if m < hi then 1 else 0
  }

  /** No page left for page a. */
  lemma {:induction false} NoPageFor(s: View, s1: View, d: nat, lo: nat, a: nat, hi: nat, plan: Plan)
    requires d < |s.pages| == |s1.pages| && lo <= a < hi && Fills(s, s1, d, lo, a, plan) && |s1.free| == 0
    requires Clash(s.pages, d, a, hi) == Clash(s.pages, d, lo, hi)
    ensures |s.free| < Wanted(s.pages, d, lo, hi)
  {
    FilledFree(s, s1, d, lo, a, plan);
    hide Fills, MappedAt;
    NewTabsGrow(s.pages[d], lo, a, Clash(s.pages, d, lo, hi), ENTRIES);
  }

  /** No page left for the table of page a. */
  lemma {:induction false} NoPageForTable(s: View, s1: View, d: nat, lo: nat, a: nat, hi: nat, plan: Plan)
    requires d < |s.pages| == |s1.pages| && lo <= a < hi && a < VPAGES && Fills(s, s1, d, lo, a, plan) && |s1.free| == 1
    requires Clash(s.pages, d, a, hi) == Clash(s.pages, d, lo, hi) && !Present(Pde(s1.pages, d, Pdx(a)))
    ensures |s.free| < Wanted(s.pages, d, lo, hi)
  {
    FilledFree(s, s1, d, lo, a, plan);
    NoTableNoPage(s.pages, d, a);
    VpnSplits(a);
    CoversPage(a, lo, a + 1);
    var i, m := Pdx(a), Clash(s.pages, d, lo, hi);
    assert Pde(s.pages, d, i) == s.pages[d][i];
    CoversMore(i, lo, a + 1, m);
    hide Fills, MappedAt, Present, Covers, Pdx;
    assert m >= a + 1;
    NewTabsMore(s.pages[d], lo, a, m, ENTRIES, i);
  }

  /** Whether page a is mapped is as it was at the start, and decides how the loop goes on. */
  lemma {:induction false} NextClash(s: View, s1: View, d: nat, lo: nat, a: nat, hi: nat, plan: Plan)
    requires d < |s.pages| == |s1.pages| && lo <= a < hi && Fills(s, s1, d, lo, a, plan) && IsDir(s.owner, d)
    requires Clash(s.pages, d, a, hi) == Clash(s.pages, d, lo, hi)
    ensures Present(Pte(s1.pages, d, Pdx(a), Ptx(a))) <==> MappedAt(s.pages, d, a)
    ensures if MappedAt(s.pages, d, a) then |s1.free| >= 1 ==> |s.free| >= Wanted(s.pages, d, lo, hi)
            else Clash(s.pages, d, a + 1, hi) == Clash(s.pages, d, lo, hi)
  {
    FilledFree(s, s1, d, lo, a, plan);
    VpnSplits(a);
    assert !In(Pdx(a), Ptx(a), lo, a);
    hide Present, In, Covers, Pdx, Ptx;
    assert Pte(s1.pages, d, Pdx(a), Ptx(a)) == Pte(s.pages, d, Pdx(a), Ptx(a));
  }

  lemma {:induction false} EnoughFor(s: View, s1: View, d: nat, lo: nat, hi: nat, plan: Plan)
    requires d < |s.pages| == |s1.pages| && lo <= hi && Fills(s, s1, d, lo, hi, plan)
    ensures |s.free| >= Wanted(s.pages, d, lo, hi) && Absent(s.pages, d, lo, hi)
  {
    FilledFree(s, s1, d, lo, hi, plan);
    AbsentHasNoClash(s.pages, d, lo, hi);
    hide Present, In, Covers;
  }

  lemma {:induction false} BelowKernel(sz: uint32)
    requires sz < KERNBASE
    ensures PagesUp(sz) <= USERPAGES < VPAGES
  {
  }

  lemma {:induction false} NotMappedBefore(s: View, s1: View, d: nat, lo: nat, a: nat, plan: Plan)
    requires lo <= a && Fills(s, s1, d, lo, a + 1, plan)
    ensures !MappedAt(s.pages, d, a)
  {
    VpnSplits(a);
    assert In(Pdx(a), Ptx(a), lo, a + 1);
  }

  lemma {:induction false} NoTableNoPage(pages: seq<Page>, d: nat, a: nat)
    ensures !Present(Pde(pages, d, Pdx(a))) ==> !MappedAt(pages, d, a)
  {
    NotPresent();
  }

  /** With f free pages, copying n pages ends with one page taken and not returned. */
  predicate Loses(f: nat, n: nat) { f >= 66 && (f - 66) % 1025 == 0 && (f - 66) / 1025 * ENTRIES < n }

  lemma {:induction false} LosesOne(f: nat, a: nat, n: nat)
    requires a < n && f == 66 + a + UserTabs(a) && a == UserTabs(a) * ENTRIES
    ensures Loses(f, n)
  {
    var k := UserTabs(a);
    assert f - 66 == 1025 * k;
  }

  lemma {:induction false} LosesNone(f: nat, a: nat, n: nat)
    requires f == 65 + a + UserTabs(a)
    ensures !Loses(f, n)
  {
    if f >= 66 && (f - 66) % 1025 == 0 {
      var k := (f - 66) / 1025;
      assert f - 66 == 1025 * k;
      assert a + UserTabs(a) == 1025 * k + 1;
      NoSplit(a, k);
    }
  }

  lemma {:induction false} NoSplit(a: nat, k: nat)
    ensures a + UserTabs(a) != 1025 * k + 1
  {
    var u := UserTabs(a);
    assert (u - 1) * ENTRIES < a || a == 0;
    assert a <= u * ENTRIES;
    if u <= k {
      assert a + u <= 1025 * u <= 1025 * k;
    } else {
      assert a + u > 1025 * (u - 1) + 1 >= 1025 * k + 1;
    }
  }

  lemma {:induction false} LosesNever(f: nat, n: nat)
    requires f >= 65 + n + UserTabs(n) || f < 65
    ensures !Loses(f, n)
  {
  }

  /** A loss is a failure: with so many free pages the copy does not get to its end. */
  lemma {:induction false} LossFails(f: nat, m: nat, n: nat)
    requires Loses(f, m) && m <= n
    ensures f < 65 + m + UserTabs(m) && Loses(f, n)
  {
    var k := (f - 66) / 1025;
    assert f == 66 + 1025 * k && ENTRIES * k < m;
    assert UserTabs(m) >= k + 1;
  }

  /** Every page has the owner it had, but p was free and is now held by nobody who remembers it. */
  ghost predicate LostOne(s: View, s': View, p: nat) {
    && OwnerOf(s.owner, p).Free? && |s'.owner| == |s.owner| && SameData(s.pages, s.owner, s'.pages)
    && (forall q: nat :: OwnerOf(s'.owner, q) == if q == p then Held else OwnerOf(s.owner, q))
    && forall d': nat, i: nat, j: nat :: IsDir(s.owner, d') ==> Pte(s'.pages, d', i, j) == Pte(s.pages, d', i, j)
  }

  /** Discarding a half-filled child gives everything back, except the page in hand if there is one. */
  lemma {:induction false} CopyUndone(s: View, s0: View, s1: View, s2: View, s3: View, d: nat, a: nat, p: nat,
                                      page: Page, plan: Plan)
    requires Ledger(s.pages, s.owner) && Ledger(s1.pages, s1.owner) && IsDir(s1.owner, d)
             && |s0.owner| == |s1.owner| == |s.owner|
    requires Building(s, s0, d) && Fills(s0, s1, d, 0, a, plan) && (s2 == s1 || Took(s1, s2, p, page))
             && Discards(s2, s3, d)
    ensures if s2 == s1 then Restored(s, s3) else LostOne(s, s3, p)
  {
    NotPart(s, d);
    if s2 != s1 {
      TookKeeps(s1, s2, d, p, page);
    }
    hide Pte, Pde, Present, Tabs, Tabled, Absent, AsPlanned, In, Ledger, Filled;
    forall q: nat
      ensures OwnerOf(s3.owner, q) == if s2 != s1 && q == p then Held else OwnerOf(s.owner, q)
      ensures s2 != s1 && q == p ==> OwnerOf(s.owner, q).Free?
      ensures IsDir(s.owner, q) ==> IsDir(s0.owner, q) && IsDir(s1.owner, q) && IsDir(s2.owner, q) && q != d
      ensures OwnerOf(s.owner, q).Held? || OwnerOf(s.owner, q).User? ==>
                OwnerOf(s0.owner, q) == OwnerOf(s1.owner, q) == OwnerOf(s2.owner, q) == OwnerOf(s.owner, q)
    {
      assert Got(OwnerOf(s0.owner, q), OwnerOf(s1.owner, q), d, 0, a);
    }
    hide Got, OwnerOf, Part;
  }

  lemma {:induction false} WalkReads(pages: seq<Page>, owner: seq<Owner>, d: nat, v: nat, t: nat)
    requires Ledger(pages, owner) && IsDir(owner, d)
    requires if t == 0 then !Present(Pde(pages, d, Pdx(v)))
             else Present(Pde(pages, d, Pdx(v))) && Frame(Pde(pages, d, Pdx(v))) == t
    requires t != 0 ==> OwnerOf(owner, t).Table?
    ensures t == 0 ==> !Present(Pte(pages, d, Pdx(v), Ptx(v)))
    ensures t != 0 ==> t < |pages| && Pte(pages, d, Pdx(v), Ptx(v)) == pages[t][Ptx(v)]
  {
    NotPresent();
  }

  lemma {:induction false} PageBytes(v: nat)
    ensures v * PGSIZE / PGSIZE == v && v * PGSIZE % PGSIZE == 0 && (v * PGSIZE + PGSIZE - 1) / PGSIZE == v
  {
  }

  lemma {:induction false} FlagsFit(e: uint32)
    ensures Flags(e) < PGSIZE
  {
  }

  lemma {:induction false} TookCount(s: View, s': View, p: nat, page: Page)
    requires Took(s, s', p, page)
    ensures |s'.free| + 1 == |s.free| && s' != s
  {
  }

  // ---- The emulator's walker -----------------------------------------------------------------------------

  /** Byte x of physical memory. */
  function ByteAt(pages: seq<Page>, x: nat): byte
    requires x / PGSIZE < |pages|
  {
    ByteOf(pages[x / PGSIZE][x % PGSIZE / 4], x % 4)
  }

  /** The weight of byte k of a word. */
  function Weight(k: nat): nat {
    if k == 0 then 1 else if k == 1 then 0x100 else if k == 2 then 0x1_0000 else 0x100_0000
  }

  /** The number that the low k bytes of w make. */
  ghost function LowBytes(w: uint32, k: nat): nat
    requires k <= 4
  {
    if k == 0 then 0 else LowBytes(w, k - 1) + ByteOf(w, k - 1) * Weight(k - 1)
  }

  lemma {:induction false} AllBytes(w: uint32)
    ensures LowBytes(w, 4) == w
  {
    BytesOfWord(w);
    hide ByteOf;
    assert LowBytes(w, 4) == LowBytes(w, 3) + ByteOf(w, 3) * 0x100_0000;
    assert LowBytes(w, 3) == LowBytes(w, 2) + ByteOf(w, 2) * 0x1_0000;
    assert LowBytes(w, 2) == LowBytes(w, 1) + ByteOf(w, 1) * 0x100;
  }

  lemma {:induction false} AddressParts(base: nat, i: nat, k: nat)
    requires i < ENTRIES && k < 4
    ensures var x := base * PGSIZE + 4 * i + k; x / PGSIZE == base && x % PGSIZE / 4 == i && x % 4 == k
  {
    var x := base * PGSIZE + 4 * i + k;
    assert x / PGSIZE == base && x % PGSIZE == 4 * i + k;
    assert x == 4 * (base * 1024 + i) + k;
  }

  lemma {:induction false} NextByte(pages: seq<Page>, base: nat, i: nat, k: nat)
    requires base < |pages| && i < ENTRIES && k < 4
    ensures (base * PGSIZE + 4 * i + k) / PGSIZE == base
    ensures LowBytes(pages[base][i], k + 1)
            == LowBytes(pages[base][i], k) + ByteAt(pages, base * PGSIZE + 4 * i + k) * Weight(k)
  {
    hide Weight, ByteOf;
    AddressParts(base, i, k);
  }

  /** The loops of v2p that put a table entry together from four bytes; the shifted bytes do not overlap, so or is
      plus. */
  method LoadEntry(pages: seq<Page>, base: nat, i: nat) returns (e: uint32)
    requires base < |pages| && i < ENTRIES
    ensures e == pages[base][i]
  {
    hide Weight, ByteAt;
    var acc, k := 0, 0;
    while k < 4
      invariant k <= 4 && acc == LowBytes(pages[base][i], k)
    {
      NextByte(pages, base, i, k);
      acc := acc + ByteAt(pages, base * PGSIZE + 4 * i + k) * Weight(k);
      k := k + 1;
    }
    AllBytes(pages[base][i]);
    e := acc;
  }

  /** Where the walk from directory d leads, for addresses that have a table. */
  function Translate(pages: seq<Page>, d: nat, va: uint32): (pa: uint32) {
    Frame(Pde(pages, Frame(Pde(pages, d, Pdx(va / PGSIZE))), Ptx(va / PGSIZE))) * PGSIZE + va % PGSIZE
  }

  /** emulator.go: the 4 KB branch of v2p. Not ok: a table lies outside memory, where the emulator stops. */
  method V2p(pages: seq<Page>, cr3: uint32, va: uint32) returns (pa: uint32, ok: bool)
    ensures ok <==> Frame(cr3) < |pages| && Frame(Pde(pages, Frame(cr3), Pdx(va / PGSIZE))) < |pages|
    ensures ok ==> pa == Translate(pages, Frame(cr3), va)
  {
    pa := 0;
    ok := Frame(cr3) < |pages|;
    if ok {
      var pde := LoadEntry(pages, Frame(cr3), va / 0x40_0000);
      SlotOf(va);
      ok := Frame(pde) < |pages|;
      if ok {
        var pte := LoadEntry(pages, Frame(pde), va / PGSIZE % ENTRIES);
        pa := Frame(pte) * PGSIZE + va % PGSIZE;
      }
    }
  }

  lemma {:induction false} SlotOf(va: uint32)
    ensures va / 0x40_0000 == Pdx(va / PGSIZE) < ENTRIES
  {
  }

  /** A page that the tables map is found by the walker at the frame of its entry. */
  lemma {:induction false} WalkerAgrees(pages: seq<Page>, owner: seq<Owner>, d: nat, va: uint32)
    requires Ledger(pages, owner) && IsDir(owner, d) && Present(Pte(pages, d, Pdx(va / PGSIZE), Ptx(va / PGSIZE)))
    ensures d < |pages| && Frame(Pde(pages, d, Pdx(va / PGSIZE))) < |pages|
    ensures Translate(pages, d, va) == Frame(Pte(pages, d, Pdx(va / PGSIZE), Ptx(va / PGSIZE))) * PGSIZE + va % PGSIZE
  {
    NotPresent();
    hide Frame, Present, Pdx, Ptx;
    assert OwnerOf(owner, Frame(Pde(pages, d, Pdx(va / PGSIZE)))).Table?;
  }

  /** After mappages, the walker sends every address of the range to its frame, modulo 2^32. */
  lemma {:induction false} MappedTranslates(s: View, s': View, d: nat, lo: nat, hi: nat, p: nat, perm: nat, va: uint32)
    requires perm < PGSIZE && p < VPAGES && Maps(s, s', d, lo, hi, p, perm) && IsDir(s.owner, d)
    requires Ledger(s'.pages, s'.owner) && IsDir(s'.owner, d) && lo * PGSIZE <= va < hi * PGSIZE
    ensures d < |s'.pages| && Frame(Pde(s'.pages, d, Pdx(va / PGSIZE))) < |s'.pages|
    ensures Translate(s'.pages, d, va) == (p * PGSIZE + (va - lo * PGSIZE)) % U32
  {
    hide Translate, Later, Pte, Frame, Present, Pdx, Ptx, Ledger, Maps, Ranged, IsDir;
    var v := va / PGSIZE;
    InPages(va, lo, hi);
    MapsRanged(s, s', d, lo, hi, p, perm);
    EntryOf(s, s', d, lo, hi, p, perm, v);
    WalkerAgrees(s'.pages, s'.owner, d, va);
    WrapBytes(p, v - lo, va % PGSIZE);
  }

  lemma {:induction false} InPages(va: nat, lo: nat, hi: nat)
    requires lo * PGSIZE <= va < hi * PGSIZE
    ensures lo <= va / PGSIZE < hi && (va / PGSIZE - lo) * PGSIZE + va % PGSIZE == va - lo * PGSIZE
  {
  }

  lemma {:induction false} MapsRanged(s: View, s': View, d: nat, lo: nat, hi: nat, p: nat, perm: nat)
    requires perm < PGSIZE && Maps(s, s', d, lo, hi, p, perm)
    ensures Ranged(s, s', d, lo, hi, p, perm)
  {
  }

  lemma {:induction false} EntryOf(s: View, s': View, d: nat, lo: nat, hi: nat, p: nat, perm: nat, v: nat)
    requires perm < PGSIZE && Ranged(s, s', d, lo, hi, p, perm) && IsDir(s.owner, d) && lo <= v < hi
    ensures Present(Pte(s'.pages, d, Pdx(v), Ptx(v))) && Frame(Pte(s'.pages, d, Pdx(v), Ptx(v))) == Later(p, v - lo)
  {
    VpnSplits(v);
    hide Pte, Present, Frame, Pdx, Ptx, Later, Entry;
    assert In(Pdx(v), Ptx(v), lo, hi);
  }

  lemma {:induction false} WrapBytes(p: nat, k: nat, off: nat)
    requires off < PGSIZE
    ensures Later(p, k) * PGSIZE + off == (p * PGSIZE + k * PGSIZE + off) % U32
  {
    var q := (p + k) / VPAGES;
    assert p + k == q * VPAGES + Later(p, k);
    assert p * PGSIZE + k * PGSIZE + off == q * U32 + (Later(p, k) * PGSIZE + off);
  }

  /** Every address that was mapped before goes where it went, in every address space. */
  lemma {:induction false} MappedKeeps(s: View, s': View, d: nat, lo: nat, hi: nat, p: nat, perm: nat, d': nat,
                                       va: uint32)
    requires perm < PGSIZE && Maps(s, s', d, lo, hi, p, perm) && IsDir(s.owner, d') && Ledger(s.pages, s.owner)
    requires Ledger(s'.pages, s'.owner) && IsDir(s'.owner, d')
    requires Present(Pte(s.pages, d', Pdx(va / PGSIZE), Ptx(va / PGSIZE)))
    ensures Translate(s'.pages, d', va) == Translate(s.pages, d', va)
  {
    var v := va / PGSIZE;
    WalkerAgrees(s.pages, s.owner, d', va);
    hide Pte, Frame, Present, Pdx, Ptx, Translate, Later, Entry, In, Tabs, Tabled;
    assert Pte(s'.pages, d', Pdx(v), Ptx(v)) == Pte(s.pages, d', Pdx(v), Ptx(v));
    WalkerAgrees(s'.pages, s'.owner, d', va);
  }

  /** setupkvm: the walker sends the kernel's addresses to physical memory and the devices' to themselves. */
  lemma {:induction false} KernelTranslates(pages: seq<Page>, owner: seq<Owner>, d: nat, data: nat, va: uint32)
    requires EXTPAGES < data < NPAGES && Ledger(pages, owner) && IsDir(owner, d) && Built(pages, d, 4, data)
    ensures KERNBASE <= va < KERNBASE + PHYSTOP ==> Translate(pages, d, va) == va - KERNBASE
    ensures va >= DEVPAGE * PGSIZE ==> Translate(pages, d, va) == va
  {
    var v := va / PGSIZE;
    VpnSplits(v);
    KernelPart(v, data);
    var e := Pte(pages, d, Pdx(v), Ptx(v));
    assert e == KernelPte(v, 4, data);
    hide KernelPte, Translate, Pdx, Ptx, Pte, Built, Ledger;
    if KERNBASE <= va < KERNBASE + PHYSTOP || va >= DEVPAGE * PGSIZE {
      assert USERPAGES <= v < USERPAGES + NPAGES || DEVPAGE <= v < VPAGES;
      WalkerAgrees(pages, owner, d, va);
    }
  }

  /** Two user mappings never share a frame. */
  lemma {:induction false} FramesDistinct(pages: seq<Page>, owner: seq<Owner>, d: nat, i: nat, j: nat, d': nat,
                                          i': nat, j': nat)
    requires Ledger(pages, owner) && IsDir(owner, d) && IsDir(owner, d') && i < USERPDES && i' < USERPDES
    requires Present(Pte(pages, d, i, j)) && Present(Pte(pages, d', i', j')) && (d != d' || i != i' || j != j')
    ensures Frame(Pte(pages, d, i, j)) != Frame(Pte(pages, d', i', j'))
    ensures Frame(Pte(pages, d, i, j)) < |pages|
  {
    hide Frame, Present, Pte;
    assert OwnerOf(owner, Frame(Pte(pages, d, i, j))) == User(d, i, j);
    assert OwnerOf(owner, Frame(Pte(pages, d', i', j'))) == User(d', i', j');
  }

  lemma {:induction false} ByteIn(pages: seq<Page>, f: nat, off: nat)
    requires f < |pages| && off < PGSIZE
    ensures (f * PGSIZE + off) / PGSIZE == f && ByteAt(pages, f * PGSIZE + off) == ByteOf(pages[f][off / 4], off % 4)
  {
    PageAndOffset(f, off);
    ByteOfPage(pages, f * PGSIZE + off, f, off);
  }

  lemma {:induction false} ByteOfPage(pages: seq<Page>, x: nat, f: nat, off: nat)
    requires f < |pages| && off < PGSIZE && x / PGSIZE == f && x % PGSIZE == off && x % 4 == off % 4
    ensures ByteAt(pages, x) == ByteOf(pages[f][off / 4], off % 4)
  {
    hide ByteOf;
  }

  lemma {:induction false} PageAndOffset(f: nat, off: nat)
    requires off < PGSIZE
    ensures (f * PGSIZE + off) / PGSIZE == f && (f * PGSIZE + off) % PGSIZE == off && (f * PGSIZE + off) % 4 == off % 4
  {
    WordAligned(f, off);
  }

  lemma {:induction false} WordAligned(f: nat, off: nat)
    ensures (f * PGSIZE + off) % 4 == off % 4
  {
    assert f * PGSIZE + off == 4 * (f * 1024) + off;
  }

  /** fork's copy: below sz the child reads what the parent read, with the same flags, from a frame of its own. */
  lemma {:induction false} CopyReads(s: View, s': View, parent: nat, d: nat, n: nat, data: nat, va: uint32)
    requires Ledger(s.pages, s.owner) && Ledger(s'.pages, s'.owner) && IsDir(s.owner, parent) && n <= USERPAGES
    requires Copied(s, s', parent, d, n, data) && Full(s.pages, parent, n) && va < n * PGSIZE
    ensures Translate(s'.pages, d, va) / PGSIZE < |s'.pages| && Translate(s.pages, parent, va) / PGSIZE < |s.pages|
    ensures ByteAt(s'.pages, Translate(s'.pages, d, va)) == ByteAt(s.pages, Translate(s.pages, parent, va))
    ensures Translate(s'.pages, d, va) / PGSIZE != Translate(s'.pages, parent, va) / PGSIZE
    ensures var i, j := Pdx(va / PGSIZE), Ptx(va / PGSIZE);
            Flags(Pte(s'.pages, d, i, j)) == Flags(Pte(s.pages, parent, i, j))
  {
    hide Pte, Frame, Present, Flags, Translate, ByteAt, ByteOf, In, Pdx, Ptx, Ledger, Copied, Full, IsDir;
    var i, j, off := Pdx(va / PGSIZE), Ptx(va / PGSIZE), va % PGSIZE;
    InLow(va, n);
    PlanOf(s, s', parent, d, n, data, i, j);
    var e, e' := Pte(s.pages, parent, i, j), Pte(s'.pages, d, i, j);
    WalkerAgrees(s.pages, s.owner, parent, va);
    WalkerAgrees(s'.pages, s'.owner, d, va);
    WalkerAgrees(s'.pages, s'.owner, parent, va);
    FramesDistinct(s'.pages, s'.owner, d, i, j, parent, i, j);
    MappedFrame(s.pages, s.owner, parent, i, j);
    ByteIn(s.pages, Frame(e), off);
    ByteIn(s'.pages, Frame(e'), off);
    FrameOfSum(Frame(e), off);
  }

  /** After allocuvm: every address of the range reads zero, from a page the user may read and write. */
  lemma {:induction false} AllocReads(s: View, s': View, d: nat, lo: nat, hi: nat, va: uint32)
    requires Ledger(s'.pages, s'.owner) && IsDir(s'.owner, d) && lo <= hi <= USERPAGES
    requires Fills(s, s', d, lo, hi, ZeroPlan()) && lo * PGSIZE <= va < hi * PGSIZE
    ensures Translate(s'.pages, d, va) / PGSIZE < |s'.pages| && ByteAt(s'.pages, Translate(s'.pages, d, va)) == 0
    ensures Flags(Pte(s'.pages, d, Pdx(va / PGSIZE), Ptx(va / PGSIZE))) == 7
  {
    var i, j, off := Pdx(va / PGSIZE), Ptx(va / PGSIZE), va % PGSIZE;
    InLow(va, hi);
    InMiddle(va, lo, hi);
    assert AsPlanned(s', d, i, j, ZeroPlan());
    hide Pte, Frame, Present, Flags, Translate, ByteAt, In, Pdx, Ptx, Ledger, Fills, IsDir;
    var e := Pte(s'.pages, d, i, j);
    WalkerAgrees(s'.pages, s'.owner, d, va);
    MappedFrame(s'.pages, s'.owner, d, i, j);
    ByteIn(s'.pages, Frame(e), off);
    FrameOfSum(Frame(e), off);
  }

  lemma {:induction false} InMiddle(va: uint32, lo: nat, hi: nat)
    requires lo * PGSIZE <= va < hi * PGSIZE && hi <= USERPAGES
    ensures In(Pdx(va / PGSIZE), Ptx(va / PGSIZE), lo, hi)
  {
    VpnSplits(va / PGSIZE);
  }

  lemma {:induction false} InLow(va: uint32, n: nat)
    requires va < n * PGSIZE && n <= USERPAGES
    ensures In(Pdx(va / PGSIZE), Ptx(va / PGSIZE), 0, n) && Pdx(va / PGSIZE) < USERPDES
  {
    VpnSplits(va / PGSIZE);
  }

  lemma {:induction false} FrameOfSum(f: nat, off: nat)
    requires off < PGSIZE
    ensures (f * PGSIZE + off) / PGSIZE == f
  {
  }

  lemma {:induction false} MappedFrame(pages: seq<Page>, owner: seq<Owner>, d: nat, i: nat, j: nat)
    requires Ledger(pages, owner) && IsDir(owner, d) && i < USERPDES && Present(Pte(pages, d, i, j))
    ensures Frame(Pte(pages, d, i, j)) < |pages|
  {
    hide Frame, Present, Pte;
    assert OwnerOf(owner, Frame(Pte(pages, d, i, j))) == User(d, i, j);
  }

  lemma {:induction false} PlanOf(s: View, s': View, parent: nat, d: nat, n: nat, data: nat, i: nat, j: nat)
    requires Copied(s, s', parent, d, n, data) && In(i, j, 0, n) && Full(s.pages, parent, n) && IsDir(s.owner, parent)
    ensures var e, e' := Pte(s.pages, parent, i, j), Pte(s'.pages, d, i, j);
            && Present(e) && Present(e') && Flags(e') == Flags(e) && Pte(s'.pages, parent, i, j) == e
            && PageAt(s'.pages, Frame(e')) == PageAt(s.pages, Frame(e))
    ensures IsDir(s'.owner, d) && d != parent && IsDir(s'.owner, parent)
  {
    assert AsPlanned(s', d, i, j, CopyPlan(s, parent));
    OddFlags(Pte(s.pages, parent, i, j));
  }

  lemma {:induction false} OddFlags(e: uint32)
    requires Present(e)
    ensures WithP(Flags(e)) == Flags(e)
  {
  }

  /** Page v of the kernel half is a frame that kfree accepts. */
  predicate Allocatable(v: nat, first: nat) { v >= USERPAGES && !Outside(v - USERPAGES, first) }

  lemma {:induction false} FreeableFrame(v: nat, first: nat)
    ensures v * PGSIZE % PGSIZE == 0
    ensures (KERNBASE + first * PGSIZE <= v * PGSIZE && v * PGSIZE - KERNBASE < PHYSTOP) <==> Allocatable(v, first)
    ensures v > USERPAGES ==> FrameAt(v * PGSIZE) == v - USERPAGES
  {
  }

  class Machine {
    /** The first frame past the kernel image. */
    const first: nat
    /** The frame where the kernel's writeable data begins. */
    const data: nat
    var pages: seq<Page>
    var freelist: uint32
    ghost var owner: seq<Owner>
    ghost var free: seq<nat>

    ghost function Now(): View
      reads this
    {
      View(pages, owner, free)
    }

    ghost predicate ListOk()
      reads this
    {
      FreeList(pages, owner, free, freelist, first)
    }

    ghost predicate Valid()
      reads this
    {
      ListOk() && Ledger(pages, owner)
    }

    /** kalloc.c: kalloc. The frame, or 0. */
    method Kalloc() returns (p: nat)
      requires Valid()
      modifies `freelist, `owner, `free
      ensures Valid()
      ensures p == 0 <==> old(free) == []
      ensures p == 0 ==> owner == old(owner) && free == old(free)
      ensures p != 0 ==> OwnerOf(old(owner), p) == Free && OwnerOf(owner, p) == Held
                         && owner == old(owner)[p := Held] && free == old(free)[1..] && p == old(free)[0]
      ensures SameMaps(pages, old(owner), pages, owner)
    {
      p := FrameAt(freelist);
      if freelist != 0 {
        PopFree(pages, owner, free, freelist, first);
        FrameOfKva(free[0]);
        Recolour(pages, owner, p, pages[p], Held);
        assert pages[p := pages[p]] == pages;
        freelist := pages[p][0];
        owner, free := owner[p := Held], free[1..];
      }
    }

    /** The test at the start of kfree: v is page aligned and between the kernel's end and PHYSTOP. */
    predicate Freeable(v: uint32)
    {
      v % PGSIZE == 0 && KERNBASE + first * PGSIZE <= v && v - KERNBASE < PHYSTOP
    }

    /** kalloc.c: kfree. Panics (not ok) on an address outside the allocatable pages. */
    method Kfree(v: uint32) returns (ok: bool)
      requires ListOk() && (Freeable(v) ==> OwnerOf(owner, FrameAt(v)) == Held)
      modifies this
      ensures ok <==> Freeable(v)
      ensures !ok ==> unchanged(this)
      ensures ok ==>
                && ListOk() && FrameAt(v) < |old(pages)| == |old(owner)|
                && pages == old(pages)[FrameAt(v) := Junk(old(freelist))]
                && owner == old(owner)[FrameAt(v) := Free] && free == [FrameAt(v)] + old(free)
                && pages[FrameAt(v)][0] == old(freelist) && freelist == v
                && forall j :: 0 < j < ENTRIES ==> pages[FrameAt(v)][j] == 0x01010101
    {
      if v % PGSIZE != 0 || v < KERNBASE + first * PGSIZE || v - KERNBASE >= PHYSTOP {
        ok := false;
      } else {
        KvaOfFrame(v);
        hide FreeList, FrameAt, Kva;
        var p := FrameAt(v);
        PushFree(pages, owner, free, freelist, first, p);
        pages := pages[p := Filled(0x01010101)];
        pages := pages[p := pages[p][0 := freelist]];
        assert pages == old(pages)[p := Junk(freelist)];
        freelist := v;
        owner, free := owner[p := Free], [p] + free;
        ok := true;
      }
    }

    /** vm.c: walkpgdir. The table that holds the entry of page v of directory d, or 0. */
    method WalkPgdir(d: nat, v: nat, alloc: bool) returns (t: nat)
      requires Valid() && IsDir(owner, d) && v < VPAGES
      modifies this
      ensures Valid() && SameMaps(old(pages), old(owner), pages, owner)
      ensures t == 0 <==> !Present(Pde(old(pages), d, Pdx(v))) && (!alloc || old(free) == [])
      ensures t == 0 || Present(Pde(old(pages), d, Pdx(v))) ==> unchanged(this)
      ensures t != 0 ==>
                && Present(Pde(pages, d, Pdx(v))) && Frame(Pde(pages, d, Pdx(v))) == t
                && OwnerOf(owner, t) == Table(d, Pdx(v))
      ensures t != 0 && !Present(Pde(old(pages), d, Pdx(v))) ==>
                && old(free) != [] && t == old(free)[0] && free == old(free)[1..]
                && owner == old(owner)[t := Table(d, Pdx(v))]
                && OwnerOf(old(owner), t) == Free && d < |old(pages)| && pages == LinkTable(old(pages), d, Pdx(v), t)
    {
      hide Pdx, Ptx;
      VpnSplits(v);
      var i := Pdx(v);
      if Present(pages[d][i]) {
        t := Frame(pages[d][i]);
        assert Pde(pages, d, i) == pages[d][i];
        assert OwnerOf(owner, t) == Table(d, i);
      } else {
        t := 0;
        if alloc {
          t := Kalloc();
        }
        if t != 0 {
          ghost var pages0, owner0 := pages, owner;
          assert owner0[t := Table(d, i)] == old(owner)[t := Table(d, i)];
          LinkTableKeeps(pages, owner, d, i, t);
          SameFree(pages, owner, free, freelist, first, LinkTable(pages, d, i, t), owner[t := Table(d, i)]);
          pages := pages[t := Filled(0)];
          pages := pages[d := pages[d][i := Entry(t, PDEFLAGS)]];
          owner := owner[t := Table(d, i)];
        }
      }
    }

    /** The body of the loop of mappages: give page v of directory d the frame p. */
    method MapOne(d: nat, v: nat, p: nat, perm: nat) returns (r: MapResult)
      requires Valid() && IsDir(owner, d) && v < VPAGES && p < VPAGES && perm < PGSIZE
      requires v < USERPAGES ==> OwnerOf(owner, p) == Held
      modifies this
      ensures Valid()
      ensures r.Remap? <==> Present(Pte(old(pages), d, Pdx(v), Ptx(v)))
      ensures r.NoTable? <==> !Present(Pde(old(pages), d, Pdx(v))) && old(free) == []
      ensures !r.Done? ==> unchanged(this)
      ensures IsDir(owner, d) && (r.Done? ==> MapsOne(old(Now()), Now(), d, v, p, perm))
    {
      hide Pdx, Ptx, Tabs, LinkTable, Down, Up, UserDown, UserUp, Frame;
      VpnSplits(v);
      var i, j := Pdx(v), Ptx(v);
      ghost var pages0, owner0 := pages, owner;
      var t := WalkPgdir(d, v, true);
      if t == 0 {
        r := NoTable;
      } else if Present(pages[t][j]) {
        r := Remap;
      } else {
        if !Present(Pde(pages0, d, i)) {
          LinkCounts(pages0, owner0, d, i, t);
        }
        ghost var pages1, owner1 := pages, owner;
        WriteCounts(pages1, owner1, d, i, j, Entry(p, perm));
        pages := pages[t := pages[t][j := Entry(p, perm)]];
        if v < USERPAGES {
          MapUser(pages1, owner, d, i, j, p, perm);
          owner := owner[p := User(d, i, j)];
        } else {
          MapKernel(pages1, owner, d, i, j, Entry(p, perm));
        }
        SameFree(pages1, owner1, free, freelist, first, pages, owner);
        r := Done;
      }
    }

    /** The loop of mappages, on page and frame numbers. */
    method MapLoop(d: nat, a0: nat, last: nat, p0: nat, perm: nat) returns (r: MapResult, mid: nat)
      requires Valid() && IsDir(owner, d) && perm < PGSIZE && a0 <= last < VPAGES && p0 < VPAGES
      requires a0 < USERPAGES ==> a0 == last && OwnerOf(owner, p0) == Held
      modifies this
      ensures Valid() && IsDir(owner, d)
      ensures a0 <= mid <= last + 1 && (r.Done? <==> mid == last + 1)
      ensures Maps(old(Now()), Now(), d, a0, mid, p0, perm)
      ensures r.Remap? ==> Present(Pte(old(pages), d, Pdx(mid), Ptx(mid)))
      ensures r.NoTable? ==> free == [] && !Present(Pde(pages, d, Pdx(mid)))
      ensures a0 < USERPAGES && !r.Done? ==> Now() == old(Now()) && freelist == old(freelist)
    {
      hide Present, Pte, Pde, Pdx, Ptx, Later, OwnerOf, Maps, MapsOne, FreeList, Ledger, IsDir;
      ghost var s := Now();
      var p := p0;
      LaterStep(p0, 0);
      MapsNone(s, d, a0, p, perm);
      mid := a0;
      r := Done;
      while r.Done? && mid <= last
        invariant Valid() && IsDir(owner, d) && a0 <= mid <= last + 1 && p < VPAGES
        invariant p == Later(p0, mid - a0) && Maps(s, Now(), d, a0, mid, p0, perm)
        invariant mid == a0 || !r.Done? ==> a0 < USERPAGES ==> Now() == s && freelist == old(freelist)
        invariant !r.Done? ==> mid <= last
        invariant r.Remap? ==> Present(Pte(s.pages, d, Pdx(mid), Ptx(mid)))
        invariant r.NoTable? ==> free == [] && !Present(Pde(pages, d, Pdx(mid)))
        decreases last + 1 - mid, r.Done?
      {
        ghost var s1 := Now();
        r := MapOne(d, mid, p, perm);
        if r.Done? {
          MapsStep(s, s1, Now(), d, a0, mid, p0, perm);
          LaterStep(p0, mid - a0);
          mid := mid + 1;
          p := if p + 1 == VPAGES then 0 else p + 1;
        } else {
          StillPresent(s, s1, d, a0, mid, p0, perm);
        }
      }
    }

    /** vm.c: mappages. mid is the page where it stopped. */
    method MapPages(d: nat, va: uint32, size: uint32, pa: uint32, perm: nat) returns (r: MapResult, ghost mid: nat)
      requires Valid() && IsDir(owner, d) && perm < PGSIZE && pa % PGSIZE == 0 && size >= 1 && va + size <= U32
      requires va >= KERNBASE || (va % PGSIZE == 0 && size == PGSIZE && OwnerOf(owner, pa / PGSIZE) == Held)
      modifies this
      ensures Valid() && IsDir(owner, d)
      ensures va / PGSIZE <= mid <= (va + size - 1) / PGSIZE + 1 && (r.Done? <==> mid == (va + size - 1) / PGSIZE + 1)
      ensures Maps(old(Now()), Now(), d, va / PGSIZE, mid, pa / PGSIZE, perm)
      ensures r.Remap? ==> Present(Pte(old(pages), d, Pdx(mid), Ptx(mid)))
      ensures r.NoTable? ==> free == [] && !Present(Pde(pages, d, Pdx(mid)))
      ensures va < KERNBASE && !r.Done? ==> Now() == old(Now()) && freelist == old(freelist)
    {
      r, mid := MapLoop(d, va / PGSIZE, (va + size - 1) / PGSIZE, pa / PGSIZE, perm);
    }

    /** The body of the loop of deallocuvm. none: there is no table for page v. */
    method UnmapOne(d: nat, v: nat) returns (none: bool)
      requires Valid() && IsDir(owner, d) && v < USERPAGES
      modifies this
      ensures Valid() && IsDir(owner, d) && Unmaps(old(Now()), Now(), d, v, v + 1)
      ensures none <==> !Present(Pde(old(pages), d, Pdx(v)))
      ensures none ==> Now() == old(Now())
    {
      hide Pdx, Ptx, Tabs, Down, Up, UserDown, UserUp, Frame, FreeList, Kva, FrameAt, Junk, Unmaps, OneMap;
      VpnSplits(v);
      var j := Ptx(v);
      ghost var s, i := Now(), Pdx(v);
      var t := WalkPgdir(d, v, false);
      none := t == 0;
      if t != 0 && Present(pages[t][j]) {
        var p := Frame(pages[t][j]);
        assert pages[t][j] == Pte(pages, d, i, j);
        UnmapUser(pages, owner, d, i, j);
        UserIsFreeable(pages, owner, free, freelist, first, p);
        ghost var junk := Junk(freelist);
        UnmapLedger(s, d, v, p, junk, [p] + free);
        owner := owner[p := Held];
        SameFree(pages, s.owner, free, freelist, first, pages, owner);
        var ok := Kfree(Kva(p));
        assert ok;
        ghost var pages1 := pages;
        pages := pages[t := pages[t][j := 0]];
        SameFree(pages1, owner, free, freelist, first, pages, owner);
        assert pages == SetEntry(s.pages, d, i, j, 0)[p := junk] && owner == s.owner[p := Free];
      } else {
        AbsentPage(s.pages, d, v);
        UnmapsNothing(s, d, v, v + 1);
      }
    }

    /** vm.c: deallocuvm. */
    method DeallocUvm(d: nat, oldsz: uint32, newsz: uint32) returns (r: uint32)
      requires Valid() && IsDir(owner, d) && oldsz <= KERNBASE
      modifies this
      ensures Valid() && IsDir(owner, d) && Unmaps(old(Now()), Now(), d, PagesUp(newsz), PagesUp(oldsz))
      ensures r == if newsz >= oldsz then oldsz else newsz
    {
      hide Pdx, FreeList, Ledger, Unmaps, IsDir, Absent, Vpn, PagesUp;
      ghost var s, lo, hi := Now(), PagesUp(newsz), PagesUp(oldsz);
      if newsz >= oldsz {
        RoundUpOrder(oldsz, newsz);
        NoneBetween(pages, d, lo, hi);
        UnmapsNothing(s, d, lo, hi);
        r := oldsz;
      } else {
        var a := PagesUp(newsz);
        RoundUpOrder(newsz, oldsz);
        NoneBetween(pages, d, lo, lo);
        UnmapsNothing(s, d, lo, lo);
        while a * PGSIZE < oldsz
          invariant Valid() && IsDir(owner, d) && lo <= a
          invariant Unmaps(s, Now(), d, lo, Min(a, hi))
          decreases hi - a
        {
          RoundUp(oldsz, a);
          ghost var s1, a1 := Now(), a;
          var none := UnmapOne(d, a);
          if none {
            NextSlot(a);
            AbsentSlot(pages, d, a);
            AbsentPart(pages, d, a, Vpn(Pdx(a) + 1, 0), hi);
            a := Vpn(Pdx(a) + 1, 0) - 1;
            UnmapsNothing(s1, d, a1, Min(a + 1, hi));
          }
          a := a + 1;
          UnmapsOn(s, s1, Now(), d, lo, a1, Min(a, hi));
        }
        RoundUp(oldsz, a);
        r := newsz;
      }
    }

    /** Give page p, which is held, back. */
    method FreeHeld(p: nat)
      requires Valid() && OwnerOf(owner, p) == Held
      modifies this
      ensures Valid() && Gives(old(Now()), Now(), p) && SameMaps(old(pages), old(owner), pages, owner)
    {
      hide FreeList, Kva, FrameAt, Junk;
      UserIsFreeable(pages, owner, free, freelist, first, p);
      Recolour(pages, owner, p, Junk(freelist), Free);
      var ok := Kfree(Kva(p));
      assert ok;
    }

    /** vm.c: freevm. */
    method FreeVm(d: nat)
      requires Valid() && IsDir(owner, d)
      modifies this
      ensures Valid() && Discards(old(Now()), Now(), d)
    {
      ghost var s := Now();
      var _ := DeallocUvm(d, KERNBASE, 0);
      ghost var s1 := Now();
      NoUsersLeft(s, s1, d);
      RetireDir(pages, owner, d);
      owner := Retired(owner, d);
      SameFree(pages, s1.owner, free, freelist, first, pages, owner);
      FreeTables(d, s1);
      ghost var s2 := Now();
      FreeHeld(d);
      DiscardsAll(s, s1, s2, Now(), d);
    }

    /** The loop of freevm, on a directory whose pages are merely held. */
    method FreeTables(d: nat, ghost s1: View)
      requires Valid() && Ledger(s1.pages, s1.owner) && IsDir(s1.owner, d) && pages == s1.pages
               && owner == Retired(s1.owner, d)
      modifies this
      ensures Valid() && OwnerOf(owner, d) == Held
      ensures Partly(s1, Now(), d, ENTRIES)
    {
      assert |s1.pages| == |s1.owner|;
      hide Present, Frame, FreeList, Retired, Ledger;
      PartlyNone(s1, Now(), d);
      var i := 0;
      while i < ENTRIES
        invariant Valid() && i <= ENTRIES && OwnerOf(owner, d) == Held && Partly(s1, Now(), d, i)
      {
        ghost var s2 := Now();
        NextTable(s1, s2, d, i);
        if Present(pages[d][i]) {
          FreeHeld(Frame(pages[d][i]));
        }
        PartlyStep(s1, s2, Now(), d, i);
        i := i + 1;
      }
    }

    /** The body of the loops of allocuvm and copyuvm: a new page with the given contents, mapped at page a. s2 is
        before the mapping. */
    method AddPage(d: nat, a: nat, contents: Page, perm: nat) returns (p: nat, r: MapResult, ghost s2: View)
      requires Valid() && IsDir(owner, d) && a < USERPAGES && perm < PGSIZE
      modifies this
      ensures Valid() && IsDir(owner, d)
      ensures p == 0 <==> old(free) == []
      ensures p == 0 ==> Now() == old(Now())
      ensures p != 0 ==> p < NPAGES && Took(old(Now()), s2, p, contents)
      ensures p != 0 && r.Done? ==> Maps(s2, Now(), d, a, a + 1, p, perm)
      ensures p != 0 && !r.Done? ==> Now() == s2
      ensures p != 0 && r.Remap? ==> Present(Pte(old(pages), d, Pdx(a), Ptx(a)))
      ensures p != 0 && r.NoTable? ==> free == [] && !Present(Pde(old(pages), d, Pdx(a)))
    {
      hide FreeList, Ledger, Maps, OwnerOf, Pte, Pde, Pdx, Ptx, Present;
      ghost var s := Now();
      p := Kalloc();
      r := Done;
      s2 := Now();
      if p != 0 {
        InRange(pages, owner, p);
        ghost var s1 := Now();
        Recolour(pages, owner, p, contents, Held);
        SameFreeHeld(pages, owner, free, freelist, first, p, contents);
        pages := pages[p := contents];
        s2 := Now();
        Lengths(s, s1);
        assert owner == s1.owner[p := Held];
        TookKeeps(s, s2, d, p, contents);
        PageBytes(a);
        PageBytes(p);
        ghost var mid: nat;
        r, mid := MapPages(d, a * PGSIZE, PGSIZE, p * PGSIZE, perm);
      }
    }

    /** vm.c: allocuvm. Failed is the answer 0 of its error exits. */
    method AllocUvm(d: nat, oldsz: uint32, newsz: uint32) returns (r: Growth)
      requires Valid() && IsDir(owner, d)
      modifies this
      ensures Valid() && IsDir(owner, d)
      ensures newsz >= KERNBASE ==> r == Failed && Now() == old(Now())
      ensures newsz < KERNBASE && newsz < oldsz ==> r == Size(oldsz) && Now() == old(Now())
      ensures oldsz <= newsz < KERNBASE ==> !r.Size? || r.n == newsz
      ensures oldsz <= newsz < KERNBASE && r.Size? ==>
                Fills(old(Now()), Now(), d, PagesUp(oldsz), PagesUp(newsz), ZeroPlan())
      ensures oldsz <= newsz < KERNBASE && r.Failed? ==> Unwinds(old(Now()), Now(), d, PagesUp(oldsz), PagesUp(newsz))
      ensures r.Panicked? ==> !Absent(old(pages), d, PagesUp(oldsz), PagesUp(newsz))
      ensures oldsz <= newsz < KERNBASE ==>
                var lo, hi := PagesUp(oldsz), PagesUp(newsz);
                && lo <= hi && d < |old(pages)|
                && (r.Failed? <==> |old(free)| < Wanted(old(pages), d, lo, hi))
                && (r.Panicked? <==> |old(free)| >= Wanted(old(pages), d, lo, hi) && !Absent(old(pages), d, lo, hi))
    {
      hide FreeList, Ledger, Maps, OwnerOf, IsDir, Fills, Unwinds, Unmaps, Took, Gives, Absent, PagesUp, Pdx, Ptx,
           Pte, Pde, Present, ZeroPlan;
      hide Clash, Wanted;
      if newsz >= KERNBASE {
        r := Failed;
      } else if newsz < oldsz {
        r := Size(oldsz);
      } else {
        RoundUpOrder(oldsz, newsz);
        ghost var s, lo, hi := Now(), PagesUp(oldsz), PagesUp(newsz);
        DirInRange(pages, owner, d);
        AbsentHasNoClash(pages, d, lo, hi);
        BelowKernel(newsz);
        var a := PagesUp(oldsz);
        r := Size(newsz);
        FillsNone(s, d, lo, ZeroPlan());
        RoundUp(newsz, a);
        while a * PGSIZE < newsz && r.Size?
          invariant Valid() && IsDir(owner, d) && lo <= a <= hi
          invariant r == Size(newsz) || r == Failed || r == Panicked
          invariant r.Size? ==> Fills(s, Now(), d, lo, a, ZeroPlan())
          invariant r.Failed? ==> Unwinds(s, Now(), d, lo, hi)
          invariant r.Panicked? ==> !Absent(s.pages, d, lo, hi)
          invariant r.Size? ==> Clash(s.pages, d, a, hi) == Clash(s.pages, d, lo, hi)
          invariant r.Failed? ==> |s.free| < Wanted(s.pages, d, lo, hi)
          invariant r.Panicked? ==> |s.free| >= Wanted(s.pages, d, lo, hi)
          decreases r.Size?, hi - a
        {
          RoundUp(newsz, a);
          r := AllocOne(d, oldsz, newsz, a, s);
          a := a + 1;
        }
        RoundUp(newsz, a);
        if r.Size? {
          Lengths(s, Now());
          EnoughFor(s, Now(), d, lo, hi, ZeroPlan());
        }
      }
    }

    /** The body of the loop of allocuvm, with its two ways to fail. */
    method AllocOne(d: nat, oldsz: uint32, newsz: uint32, a: nat, ghost s: View) returns (r: Growth)
      requires Valid() && IsDir(owner, d) && oldsz <= newsz < KERNBASE && PagesUp(oldsz) <= a < PagesUp(newsz)
      requires Fills(s, Now(), d, PagesUp(oldsz), a, ZeroPlan()) && Ledger(s.pages, s.owner) && IsDir(s.owner, d)
      requires d < |s.pages| && a < VPAGES
      requires Clash(s.pages, d, a, PagesUp(newsz)) == Clash(s.pages, d, PagesUp(oldsz), PagesUp(newsz))
      modifies this
      ensures Valid() && IsDir(owner, d)
      ensures r == Size(newsz) || r == Failed || r == Panicked
      ensures r.Size? ==> Fills(s, Now(), d, PagesUp(oldsz), a + 1, ZeroPlan())
      ensures r.Size? ==> Clash(s.pages, d, a + 1, PagesUp(newsz)) == Clash(s.pages, d, PagesUp(oldsz), PagesUp(newsz))
      ensures r.Failed? ==> Unwinds(s, Now(), d, PagesUp(oldsz), PagesUp(newsz))
      ensures r.Failed? ==> |s.free| < Wanted(s.pages, d, PagesUp(oldsz), PagesUp(newsz))
      ensures r.Panicked? ==> !Absent(s.pages, d, PagesUp(oldsz), PagesUp(newsz))
      ensures r.Panicked? ==> |s.free| >= Wanted(s.pages, d, PagesUp(oldsz), PagesUp(newsz))
    {
      hide FreeList, Ledger, Maps, OwnerOf, IsDir, Fills, Unwinds, Unmaps, Took, Gives, Absent, PagesUp, Pdx, Ptx,
           Pte, Pde, Present, ZeroPlan;
      hide Clash, Wanted;
      ghost var s1, lo, hi := Now(), PagesUp(oldsz), PagesUp(newsz);
      ZeroPlanIs(a);
      Lengths(s, s1);
      RoundUp(newsz, a);
      NextClash(s, s1, d, lo, a, hi, ZeroPlan());
      var p, m, s2 := AddPage(d, a, Filled(0), 6);
      if p != 0 {
        TookCount(s1, s2, p, Filled(0));
      }
      if p == 0 {
        NoPageFor(s, s1, d, lo, a, hi, ZeroPlan());
        var _ := DeallocUvm(d, newsz, oldsz);
        FillsUndone(s, s1, s1, Now(), Now(), d, lo, a, hi, p, Filled(0), ZeroPlan());
        r := Failed;
      } else if m.NoTable? {
        NoPageForTable(s, s1, d, lo, a, hi, ZeroPlan());
        var _ := DeallocUvm(d, newsz, oldsz);
        ghost var s3 := Now();
        StillHeld(s1, s2, s3, d, lo, hi, p, Filled(0));
        FreeHeld(p);
        FillsUndone(s, s1, s2, s3, Now(), d, lo, a, hi, p, Filled(0), ZeroPlan());
        r := Failed;
      } else if m.Remap? {
        WasPresent(s, s1, d, lo, a, hi, ZeroPlan());
        r := Panicked;
      } else {
        FillsStep(s, s1, s2, Now(), d, lo, a, p, ZeroPlan());
        NotMappedBefore(s, Now(), d, lo, a, ZeroPlan());
        r := Size(newsz);
      }
    }

    /** vm.c: setupkvm. The directory, or 0. */
    method SetupKvm() returns (d: nat)
      requires Valid() && EXTPAGES < data < NPAGES
      modifies this
      ensures Valid()
      ensures d == 0 <==> |old(free)| < 65
      ensures d == 0 ==> Restored(old(Now()), Now())
      ensures d != 0 ==>
                && IsDir(owner, d) && Building(old(Now()), Now(), d) && Built(pages, d, 4, data)
                && |free| == |old(free)| - 65
    {
      hide FreeList, Ledger, Maps, OwnerOf, IsDir, Building, Built, Discards, Present, Pte, Pde, Pdx, Ptx, KmapAt,
           Restored;
      ghost var s := Now();
      d := Kalloc();
      if d == 0 {
        RestoredSame(s);
      } else {
        Lengths(s, Now());
        InRange(pages, owner, d);
        NotPart(s, d);
        NewTable(d, s);
        ghost var d0 := d;
        var k := 0;
        while d != 0 && k < 4
          invariant Valid() && k <= 4
          invariant d != 0 ==> d == d0 && IsDir(owner, d) && Building(s, Now(), d) && Built(pages, d, k, data)
          invariant d == 0 ==> |s.free| < 65 && Restored(s, Now())
        {
          var ok := MapLine(d, k, s);
          if ok {
            k := k + 1;
          } else {
            ghost var s2 := Now();
            FreeVm(d);
            BuildUndone(s, s2, Now(), d);
            d := 0;
          }
        }
        if d != 0 {
          DirInRange(pages, owner, d);
          Enough(s, Now(), d, data);
        }
      }
    }

    /** Make the held page d an empty directory. */
    method NewTable(d: nat, ghost s: View)
      requires Valid() && OwnerOf(owner, d) == Held && |s.owner| == |owner| && s.pages == pages
               && Ledger(s.pages, s.owner)
      requires OwnerOf(s.owner, d) == Free && d < |s.owner| && owner == s.owner[d := Held] && |free| + 1 == |s.free|
      requires SameMaps(s.pages, s.owner, pages, owner)
      modifies this
      ensures Valid() && IsDir(owner, d) && Building(s, Now(), d) && Built(pages, d, 0, data)
    {
      ghost var s1 := Now();
      NewDir(pages, owner, d);
      SameFree(pages, owner, free, freelist, first, pages[d := Filled(0)], owner[d := Dir]);
      pages := pages[d := Filled(0)];
      owner := owner[d := Dir];
      BuildNew(s, s1, Now(), d, data);
    }

    /** One round of the loop of setupkvm. */
    method MapLine(d: nat, k: nat, ghost s: View) returns (ok: bool)
      requires Valid() && IsDir(owner, d) && EXTPAGES < data < NPAGES && k < 4
      requires Building(s, Now(), d) && Built(pages, d, k, data)
      modifies this
      ensures Valid() && IsDir(owner, d) && Building(s, Now(), d)
      ensures if ok then Built(pages, d, k + 1, data) else |s.free| < 65
    {
      hide FreeList, Ledger, Maps, OwnerOf, IsDir, Building, Built, Discards, Present, Pte, Pde, Pdx, Ptx;
      ghost var s1 := Now();
      var line := KmapAt(k, data);
      var r, mid := MapPages(d, line.lo * PGSIZE, (line.hi - line.lo) * PGSIZE, line.p * PGSIZE, line.perm);
      BuildStep(s, s1, Now(), d, line.lo, mid, line.p, line.perm);
      ok := r.Done?;
      if ok {
        BuiltStep(s1, Now(), d, k, data);
      } else {
        NoRemap(s1.pages, d, mid, k, data);
        DirInRange(pages, owner, d);
        TooFew(s, s1, Now(), d, k, mid, data);
      }
    }

    /** vm.c: copyuvm. lost is the page that is neither mapped nor free after a failed mapping. */
    method CopyUvm(parent: nat, sz: uint32) returns (r: Copy, ghost lost: nat)
      requires Valid() && IsDir(owner, parent) && sz <= KERNBASE && EXTPAGES < data < NPAGES
      modifies this
      ensures Valid()
      ensures r.CopyPanic? ==> !Full(old(pages), parent, PagesUp(sz))
      ensures var m := Hole(old(pages), parent, 0, PagesUp(sz));
              && (r.CopyPanic? <==> !Full(old(pages), parent, PagesUp(sz)) && |old(free)| >= 65 + m + UserTabs(m))
              && (r.NoChild? <==> |old(free)| < 65 + m + UserTabs(m))
              && (Loses(|old(free)|, m) ==> r.NoChild? && LostOne(old(Now()), Now(), lost))
      ensures r.Child? ==> Copied(old(Now()), Now(), parent, r.d, PagesUp(sz), data)
      ensures r.Child? ==> |old(free)| >= 65 + PagesUp(sz) + UserTabs(PagesUp(sz))
      ensures r.NoChild? ==> |old(free)| < 65 + PagesUp(sz) + UserTabs(PagesUp(sz))
      ensures r.NoChild? ==>
                if Loses(|old(free)|, PagesUp(sz)) then LostOne(old(Now()), Now(), lost)
                else Restored(old(Now()), Now())
    {
      hide FreeList, Ledger, Maps, OwnerOf, IsDir, Building, Built, Fills, Copied, Restored, LostOne, Full, PagesUp,
           UserTabs, Loses, CopyPlan, Hole;
      ghost var s, n := Now(), PagesUp(sz);
      FullHasNoHole(pages, parent, n);
      if Loses(|free|, Hole(pages, parent, 0, n)) {
        LossFails(|free|, Hole(pages, parent, 0, n), n);
      }
      lost := 0;
      var d := SetupKvm();
      if d == 0 {
        LosesNever(|s.free|, n);
        r := NoChild;
      } else {
        ghost var s0 := Now();
        FillsNone(s0, d, 0, CopyPlan(s, parent));
        r := Child(d);
        RoundUp(sz, 0);
        var i := 0;
        while i * PGSIZE < sz && r.Child?
          invariant Valid() && i <= n
                    && (r.Child? ==> r == Child(d) && IsDir(owner, d) && Fills(s0, Now(), d, 0, i, CopyPlan(s, parent)))
          invariant r.CopyPanic? ==> !Full(s.pages, parent, n)
          invariant r.NoChild? ==> |s.free| < 65 + n + UserTabs(n)
          invariant r.Child? ==> Hole(s.pages, parent, i, n) == Hole(s.pages, parent, 0, n)
          invariant r.CopyPanic? ==> var m := Hole(s.pages, parent, 0, n); |s.free| >= 65 + m + UserTabs(m)
          invariant r.NoChild? ==> var m := Hole(s.pages, parent, 0, n); |s.free| < 65 + m + UserTabs(m)
          invariant r.NoChild? ==> if Loses(|s.free|, n) then LostOne(s, Now(), lost) else Restored(s, Now())
          decreases r.Child?, n - i
        {
          RoundUp(sz, i);
          r, lost := CopyOne(d, parent, i, n, s, s0);
          i := i + 1;
        }
        if r.Child? {
          RoundUp(sz, i);
          Lengths(s, Now());
          Lengths(s, s0);
          DirInRange(s0.pages, s0.owner, d);
          FreeAfter(s, s0, Now(), d, n, data, CopyPlan(s, parent));
          CopiedAll(s, s0, Now(), parent, d, n, data);
        }
      }
    }

    /** The body of the loop of copyuvm, with its ways to fail. */
    method CopyOne(d: nat, parent: nat, a: nat, ghost n: nat, ghost s: View, ghost s0: View) returns (r: Copy,
                   ghost lost: nat)
      requires Valid() && IsDir(owner, d) && a < n <= USERPAGES && EXTPAGES < data < NPAGES
      requires Ledger(s.pages, s.owner) && IsDir(s.owner, parent) && Ledger(s0.pages, s0.owner) && IsDir(s0.owner, d)
      requires Building(s, s0, d) && Built(s0.pages, d, 4, data) && Fills(s0, Now(), d, 0, a, CopyPlan(s, parent))
      requires Hole(s.pages, parent, a, n) == Hole(s.pages, parent, 0, n)
      modifies this
      ensures Valid()
      ensures r.Child? ==> r == Child(d) && IsDir(owner, d) && Fills(s0, Now(), d, 0, a + 1, CopyPlan(s, parent))
      ensures r.Child? ==> Hole(s.pages, parent, a + 1, n) == Hole(s.pages, parent, 0, n)
      ensures r.CopyPanic? ==> !Full(s.pages, parent, n)
      ensures r.CopyPanic? ==> var m := Hole(s.pages, parent, 0, n); |s.free| >= 65 + m + UserTabs(m)
      ensures r.NoChild? ==> |s.free| < 65 + n + UserTabs(n)
      ensures r.NoChild? ==> var m := Hole(s.pages, parent, 0, n); |s.free| < 65 + m + UserTabs(m)
      ensures r.NoChild? ==> if Loses(|s.free|, n) then LostOne(s, Now(), lost) else Restored(s, Now())
    {
      hide FreeList, Ledger, Maps, OwnerOf, IsDir, Building, Built, Fills, Restored, LostOne, Full, UserTabs, Loses,
           CopyPlan, Took, Discards, Pte, Pde, Pdx, Ptx, Present, Frame, Flags, IsKernelSlot, Hole;
      ghost var s1, plan := Now(), CopyPlan(s, parent);
      lost := 0;
      Lengths(s, s1);
      Lengths(s, s0);
      DirInRange(s0.pages, s0.owner, d);
      ParentSame(s, s0, s1, parent, d, a);
      NoClash(s0, s1, d, a, data, plan);
      FreeAfter(s, s0, s1, d, a, data, plan);
      var t := WalkPgdir(parent, a, false);
      WalkReads(pages, owner, parent, a, t);
      NextHole(s.pages, parent, a, n);
      if t == 0 || !Present(pages[t][Ptx(a)]) {
        NotFull(s.pages, parent, a, n);
        r := CopyPanic;
      } else {
        var e := pages[t][Ptx(a)];
        FlagsFit(e);
        var p, m, s2 := AddPage(d, a, pages[Frame(e)], Flags(e));
        TabsOrder(a, n);
        if p == 0 {
          FreeVm(d);
          CopyUndone(s, s0, s1, s1, Now(), d, a, p, Filled(0), plan);
          LosesNone(|s.free|, a, n);
          r := NoChild;
        } else if m.NoTable? {
          TookCount(s1, s2, p, s1.pages[Frame(e)]);
          FreeVm(d);
          CopyUndone(s, s0, s1, s2, Now(), d, a, p, s1.pages[Frame(e)], plan);
          LosesOne(|s.free|, a, n);
          lost := p;
          r := NoChild;
        } else {
          FillsStep(s0, s1, s2, Now(), d, 0, a, p, plan);
          r := Child(d);
        }
      }
    }

    /** Memory before kinit1: nothing is free yet, and the pages past the kernel are in the loader's hands. */
    constructor (first: nat, data: nat, memory: seq<Page>)
      requires 0 < first <= NPAGES && |memory| == NPAGES
      ensures Valid() && free == [] && this.first == first && this.data == data && pages == memory
      ensures forall p: nat :: OwnerOf(owner, p) == if Outside(p, first) then Reserved else Held
    {
      this.first, this.data := first, data;
      pages, freelist, free := memory, 0, [];
      owner := seq(NPAGES, p => if p < first then Reserved else Held);
    }

    /** kalloc.c: freerange. Panics (not ok) at the first page outside the allocatable ones. */
    method FreeRange(vstart: uint32, vend: uint32) returns (ok: bool)
      requires Valid() && vend < U32 - PGSIZE
      requires forall p: nat :: PagesUp(vstart) <= USERPAGES + p < vend / PGSIZE && !Outside(p, first) ==>
                 OwnerOf(owner, p) == Held
      modifies this
      ensures ok ==> Valid()
      ensures ok <==> forall v: nat :: PagesUp(vstart) <= v < vend / PGSIZE ==> Allocatable(v, first)
      ensures ok ==> forall p: nat :: OwnerOf(owner, p) ==
                       if PagesUp(vstart) <= USERPAGES + p < vend / PGSIZE then Free else OwnerOf(old(owner), p)
    {
      var v := PagesUp(vstart);
      ghost var v0, owner0 := v, owner;
      ok := true;
      hide FreeList, Ledger;
      while ok && (v + 1) * PGSIZE <= vend
        invariant v0 <= v && (v == v0 || v <= vend / PGSIZE)
        invariant ok ==> Valid() && forall w: nat :: v0 <= w < v ==> Allocatable(w, first)
        invariant ok ==> forall p: nat :: OwnerOf(owner, p) == if v0 <= USERPAGES + p < v then Free
                  else OwnerOf(owner0, p)
        invariant !ok ==> v < vend / PGSIZE && !Allocatable(v, first)
        decreases ok, vend / PGSIZE - v
      {
        FreeableFrame(v, first);
        if Freeable(v * PGSIZE) {
          ghost var p := v - USERPAGES;
          Recolour(pages, owner, p, Junk(freelist), Free);
          ok := Kfree(v * PGSIZE);
          v := v + 1;
        } else {
          ok := Kfree(v * PGSIZE);
        }
      }
    }
  }
}
