/**
 * Physical pages, two-level page tables and the ledger of page owners.
 * A page is named by its frame number; tables are the words the guest stores and the emulator reads.
 */
module Paging {
  import opened LittleEndian

  const PGSIZE := 0x1000
  /** Words of a page: the entries of a directory or table. */
  const ENTRIES := 1024
  /** Directory entries of the user half, below KERNBASE. */
  const USERPDES := 512
  const KERNBASE := 0x8000_0000
  const PHYSTOP := 0xE00_0000
  /** Frames below PHYSTOP. */
  const NPAGES := 0xE000

  type Page = s: seq<uint32> | |s| == ENTRIES witness seq(ENTRIES, _ => 0)

  function Filled(w: uint32): (p: Page)
    ensures forall j: nat :: j < ENTRIES ==> p[j] == w
  {
    seq(ENTRIES, _ => w)
  }

  // ---- Entries ---------------------------------------------------------------------------------

  predicate Present(e: uint32) { e % 2 == 1 }

  function Frame(e: uint32): nat { e / PGSIZE }

  function Flags(e: uint32): nat { e % PGSIZE }

  /** Flags with PTE_P set. */
  function WithP(flags: nat): nat { if flags % 2 == 1 then flags else flags + 1 }

  /** The entry for frame p. */
  function Entry(p: nat, flags: nat): (e: uint32)
    requires p < 0x10_0000 && flags < PGSIZE
    ensures Present(e) && Frame(e) == p && Flags(e) == WithP(flags)
  {
    p * PGSIZE + WithP(flags)
  }

  /** Word i of page d. */
  function Pde(pages: seq<Page>, d: nat, i: nat): uint32 {
    if d < |pages| && i < ENTRIES then pages[d][i] else 0
  }

  /** The table entry that directory d gives to page j of its slot i; 0 if there is no table. */
  function Pte(pages: seq<Page>, d: nat, i: nat, j: nat): uint32 {
    if Present(Pde(pages, d, i)) then Pde(pages, Frame(Pde(pages, d, i)), j) else 0
  }

  // ---- The ledger ---------------------------------------------------------------------------------

  /** Held: given out by kalloc and not, or no longer, part of an address space. */
  datatype Owner = Reserved | Free | Held | Dir | Table(d: nat, i: nat) | User(d: nat, i: nat, j: nat)

  function OwnerOf(owner: seq<Owner>, p: nat): Owner {
    if p < |owner| then owner[p] else Reserved
  }

  ghost predicate IsDir(owner: seq<Owner>, d: nat) { OwnerOf(owner, d) == Dir }

  /** Every table a directory points at is owned by that slot of it. */
  ghost predicate Down(pages: seq<Page>, owner: seq<Owner>) {
    forall d: nat, i: nat :: IsDir(owner, d) && Present(Pde(pages, d, i)) ==>
      OwnerOf(owner, Frame(Pde(pages, d, i))) == Table(d, i)
  }

  /** Every page owned as a table is pointed at by its slot. */
  ghost predicate Up(pages: seq<Page>, owner: seq<Owner>) {
    forall t: nat :: OwnerOf(owner, t).Table? ==>
      var o := OwnerOf(owner, t);
      IsDir(owner, o.d) && o.i < ENTRIES && Present(Pde(pages, o.d, o.i)) && Frame(Pde(pages, o.d, o.i)) == t
  }

  /** Every page mapped in the user half is owned by that mapping. */
  ghost predicate UserDown(pages: seq<Page>, owner: seq<Owner>) {
    forall d: nat, i: nat, j: nat :: IsDir(owner, d) && i < USERPDES && Present(Pte(pages, d, i, j)) ==>
      OwnerOf(owner, Frame(Pte(pages, d, i, j))) == User(d, i, j)
  }

  /** Every page owned by a user mapping is what that mapping points at. */
  ghost predicate UserUp(pages: seq<Page>, owner: seq<Owner>) {
    forall u: nat :: OwnerOf(owner, u).User? ==> Mapped(pages, owner, u)
  }

  ghost predicate Mapped(pages: seq<Page>, owner: seq<Owner>, u: nat) {
    && OwnerOf(owner, u).User?
    && var o := OwnerOf(owner, u);
       && IsDir(owner, o.d) && o.i < USERPDES && o.j < ENTRIES
       && Present(Pte(pages, o.d, o.i, o.j)) && Frame(Pte(pages, o.d, o.i, o.j)) == u
  }

  ghost predicate Ledger(pages: seq<Page>, owner: seq<Owner>) {
    && |pages| == |owner| == NPAGES
    && Down(pages, owner) && Up(pages, owner) && UserDown(pages, owner) && UserUp(pages, owner)
  }

  /** Directories and tables are the same pages with the same owners. */
  ghost predicate SameTables(pages: seq<Page>, owner: seq<Owner>, pages': seq<Page>, owner': seq<Owner>) {
    && |pages'| == |pages| == |owner'| == |owner|
    && forall p: nat :: p < |owner| && (owner[p].Dir? || owner[p].Table? || owner'[p].Dir? || owner'[p].Table?) ==>
         owner'[p] == owner[p] && pages'[p] == pages[p]
  }

  /** Every directory gives every page the same entry as before. */
  ghost predicate SameMaps(pages: seq<Page>, owner: seq<Owner>, pages': seq<Page>, owner': seq<Owner>) {
    && (forall d: nat :: IsDir(owner, d) <==> IsDir(owner', d))
    && forall d: nat, i: nat, j: nat :: IsDir(owner, d) ==> Pte(pages', d, i, j) == Pte(pages, d, i, j)
  }

  /** Writing to any other page changes no translation. */
  lemma {:induction false} TablesDecide(pages: seq<Page>, owner: seq<Owner>, pages': seq<Page>, owner': seq<Owner>)
    requires Down(pages, owner) && Up(pages, owner) && SameTables(pages, owner, pages', owner')
    ensures Down(pages', owner') && Up(pages', owner') && SameMaps(pages, owner, pages', owner')
  {
    hide Present, Frame;
    forall d: nat, i: nat, j: nat | IsDir(owner, d)
      ensures Pde(pages', d, i) == Pde(pages, d, i) && Pte(pages', d, i, j) == Pte(pages, d, i, j)
    {
      if Present(Pde(pages, d, i)) {
        var t := Frame(Pde(pages, d, i));
        assert OwnerOf(owner, t) == Table(d, i);
        assert Pde(pages', t, j) == Pde(pages, t, j);
      }
    }
    forall t: nat | OwnerOf(owner', t).Table?
      ensures OwnerOf(owner, t) == OwnerOf(owner', t)
    {
      assert owner'[t] == owner[t];
    }
  }

  /** With the same translations and the same pages in user hands, the user part of the ledger stands. */
  lemma {:induction false} SameUsers(pages: seq<Page>, owner: seq<Owner>, pages': seq<Page>, owner': seq<Owner>)
    requires UserDown(pages, owner) && UserUp(pages, owner) && SameMaps(pages, owner, pages', owner')
    requires forall p: nat :: OwnerOf(owner, p).User? || OwnerOf(owner', p).User? ==>
               OwnerOf(owner', p) == OwnerOf(owner, p)
    ensures UserDown(pages', owner') && UserUp(pages', owner')
  {
    hide Present, Frame, Pte, OwnerOf;
  }

  /** A page on or off the free list is nobody's mapping, so giving it the other of the two colours keeps the ledger. */
  lemma {:induction false} Recolour(pages: seq<Page>, owner: seq<Owner>, p: nat, page: Page, o: Owner)
    requires Ledger(pages, owner) && p < NPAGES && owner[p] in {Free, Held} && o in {Free, Held}
    ensures Ledger(pages[p := page], owner[p := o]) && SameMaps(pages, owner, pages[p := page], owner[p := o])
  {
    var pages', owner' := pages[p := page], owner[p := o];
    hide Down, Up, Present, Frame, Pte, Pde;
    assert SameTables(pages, owner, pages', owner');
    TablesDecide(pages, owner, pages', owner');
    SameUsers(pages, owner, pages', owner');
  }

  // ---- The steps of the kernel ---------------------------------------------------------------------

  /** Flags of a directory entry: present, writeable, user. */
  const PDEFLAGS := 7

  /** Hang the zeroed page t into slot i of directory d. */
  ghost function LinkTable(pages: seq<Page>, d: nat, i: nat, t: nat): seq<Page>
    requires d < |pages| && t < |pages| && i < ENTRIES && t < NPAGES
  {
    var zeroed := pages[t := Filled(0)];
    zeroed[d := zeroed[d][i := Entry(t, PDEFLAGS)]]
  }

  /** A new table changes no translation. */
  lemma {:induction false} LinkTableKeeps(pages: seq<Page>, owner: seq<Owner>, d: nat, i: nat, t: nat)
    requires Ledger(pages, owner) && IsDir(owner, d) && i < ENTRIES && !Present(Pde(pages, d, i))
    requires OwnerOf(owner, t) == Held
    ensures var pages', owner' := LinkTable(pages, d, i, t), owner[t := Table(d, i)];
            && Ledger(pages', owner') && SameMaps(pages, owner, pages', owner')
            && Pde(pages', d, i) == Entry(t, PDEFLAGS)
            && forall d': nat, i': nat :: IsDir(owner, d') && (d' != d || i' != i) ==>
                Pde(pages', d', i') == Pde(pages, d', i')
  {
    var pages', owner' := LinkTable(pages, d, i, t), owner[t := Table(d, i)];
    var e := Entry(t, PDEFLAGS);
    hide Present, Frame, Entry;
    forall d': nat, i': nat, j: nat | IsDir(owner, d')
      ensures Pde(pages', d', i') == (if d' == d && i' == i then e else Pde(pages, d', i'))
      ensures Pte(pages', d', i', j) == Pte(pages, d', i', j)
    {
      if d' == d && i' == i {
        assert Frame(Pde(pages', d', i')) == t;
      } else if Present(Pde(pages, d', i')) {
        assert OwnerOf(owner, Frame(Pde(pages, d', i'))) == Table(d', i');
      }
    }
    SameUsers(pages, owner, pages', owner');
  }

  /** Write table entry j behind slot i of directory d. */
  ghost function SetEntry(pages: seq<Page>, d: nat, i: nat, j: nat, e: uint32): seq<Page>
    requires j < ENTRIES && Frame(Pde(pages, d, i)) < |pages|
  {
    var t := Frame(Pde(pages, d, i));
    pages[t := pages[t][j := e]]
  }

  /** It changes that one translation. */
  ghost predicate OneMap(pages: seq<Page>, owner: seq<Owner>, pages': seq<Page>, d: nat, i: nat, j: nat, e: uint32) {
    forall d': nat, i': nat, j': nat :: IsDir(owner, d') ==>
      Pte(pages', d', i', j') == if d' == d && i' == i && j' == j then e else Pte(pages, d', i', j')
  }

  lemma {:induction false} SetEntryWalk(pages: seq<Page>, owner: seq<Owner>, d: nat, i: nat, j: nat, e: uint32)
    requires Ledger(pages, owner) && IsDir(owner, d) && Present(Pde(pages, d, i)) && j < ENTRIES
    ensures OwnerOf(owner, Frame(Pde(pages, d, i))) == Table(d, i)
    ensures var pages' := SetEntry(pages, d, i, j, e);
            && |pages'| == |pages| && Down(pages', owner) && Up(pages', owner)
            && OneMap(pages, owner, pages', d, i, j, e)
            && forall d': nat, i': nat :: IsDir(owner, d') ==> Pde(pages', d', i') == Pde(pages, d', i')
  {
    hide Present, Frame;
    var t := Frame(Pde(pages, d, i));
    assert OwnerOf(owner, t) == Table(d, i);
    var pages' := SetEntry(pages, d, i, j, e);
    forall d': nat, i': nat, j': nat | IsDir(owner, d')
      ensures Pde(pages', d', i') == Pde(pages, d', i')
      ensures Pte(pages', d', i', j') == if d' == d && i' == i && j' == j then e else Pte(pages, d', i', j')
    {
      if Present(Pde(pages, d', i')) {
        assert OwnerOf(owner, Frame(Pde(pages, d', i'))) == Table(d', i');
      }
    }
  }

  /** In the kernel half no page changes hands. */
  lemma {:induction false} MapKernel(pages: seq<Page>, owner: seq<Owner>, d: nat, i: nat, j: nat, e: uint32)
    requires Ledger(pages, owner) && IsDir(owner, d) && Present(Pde(pages, d, i)) && j < ENTRIES && i >= USERPDES
    ensures Frame(Pde(pages, d, i)) < |pages|
    ensures Ledger(SetEntry(pages, d, i, j, e), owner) && OneMap(pages, owner, SetEntry(pages, d, i, j, e), d, i, j, e)
  {
    SetEntryWalk(pages, owner, d, i, j, e);
    hide Present, Frame, Pte, SetEntry, Down, Up;
    assert Frame(Pde(pages, d, i)) < |pages|;
  }

  /** Mapping a held page into an empty place of the user half makes it the user's. */
  lemma {:induction false} MapUser(pages: seq<Page>, owner: seq<Owner>, d: nat, i: nat, j: nat, p: nat, flags: nat)
    requires Ledger(pages, owner) && IsDir(owner, d) && Present(Pde(pages, d, i)) && j < ENTRIES && i < USERPDES
    requires !Present(Pte(pages, d, i, j)) && OwnerOf(owner, p) == Held && flags < PGSIZE
    ensures Frame(Pde(pages, d, i)) < |pages| && p < NPAGES
    ensures var pages', owner' := SetEntry(pages, d, i, j, Entry(p, flags)), owner[p := User(d, i, j)];
            Ledger(pages', owner') && OneMap(pages, owner, pages', d, i, j, Entry(p, flags))
  {
    var e := Entry(p, flags);
    SetEntryWalk(pages, owner, d, i, j, e);
    var pages', owner' := SetEntry(pages, d, i, j, e), owner[p := User(d, i, j)];
    hide Present, Frame, Pte, Entry, SetEntry, Down, Up, Pde;
    assert SameTables(pages', owner, pages', owner');
    TablesDecide(pages', owner, pages', owner');
    forall d': nat, i': nat, j': nat | IsDir(owner', d') && i' < USERPDES && Present(Pte(pages', d', i', j'))
      ensures OwnerOf(owner', Frame(Pte(pages', d', i', j'))) == User(d', i', j')
    {
      assert (d' == d && i' == i && j' == j) || Present(Pte(pages, d', i', j'));
    }
    forall u: nat | OwnerOf(owner', u).User?
      ensures Mapped(pages', owner', u)
    {
      assert u != p ==> Mapped(pages, owner, u) && OwnerOf(owner, u) == OwnerOf(owner', u);
    }
  }

  /** Clearing a mapping of the user half takes the page back. */
  lemma {:induction false} UnmapUser(pages: seq<Page>, owner: seq<Owner>, d: nat, i: nat, j: nat)
    requires Ledger(pages, owner) && IsDir(owner, d) && i < USERPDES && j < ENTRIES
    requires Present(Pte(pages, d, i, j))
    ensures Present(Pde(pages, d, i)) && OwnerOf(owner, Frame(Pde(pages, d, i))) == Table(d, i)
    ensures var p, pages' := Frame(Pte(pages, d, i, j)), SetEntry(pages, d, i, j, 0);
            && OwnerOf(owner, p) == User(d, i, j)
            && Ledger(pages', owner[p := Held]) && OneMap(pages, owner, pages', d, i, j, 0)
  {
    SetEntryWalk(pages, owner, d, i, j, 0);
    var p, pages' := Frame(Pte(pages, d, i, j)), SetEntry(pages, d, i, j, 0);
    var owner' := owner[p := Held];
    assert OwnerOf(owner, p) == User(d, i, j) && !Present(0);
    hide Present, Frame, Pte, SetEntry, Down, Up, Pde;
    assert SameTables(pages', owner, pages', owner');
    TablesDecide(pages', owner, pages', owner');
    forall d': nat, i': nat, j': nat | IsDir(owner', d') && i' < USERPDES && Present(Pte(pages', d', i', j'))
      ensures OwnerOf(owner', Frame(Pte(pages', d', i', j'))) == User(d', i', j')
    {
      assert Pte(pages', d', i', j') == Pte(pages, d', i', j');
      assert OwnerOf(owner, Frame(Pte(pages, d', i', j'))) == User(d', i', j');
    }
    forall u: nat | OwnerOf(owner', u).User?
      ensures Mapped(pages', owner', u)
    {
      assert Mapped(pages, owner, u) && OwnerOf(owner, u) == OwnerOf(owner', u);
    }
  }

  /** A zeroed held page is a directory that maps nothing. */
  lemma {:induction false} NewDir(pages: seq<Page>, owner: seq<Owner>, d: nat)
    requires Ledger(pages, owner) && OwnerOf(owner, d) == Held
    ensures d < NPAGES
    ensures var pages', owner' := pages[d := Filled(0)], owner[d := Dir];
            && Ledger(pages', owner')
            && (forall i: nat :: Pde(pages', d, i) == 0)
            && forall d': nat, i: nat, j: nat :: IsDir(owner, d') ==>
                IsDir(owner', d') && Pte(pages', d', i, j) == Pte(pages, d', i, j)
  {
    var pages', owner' := pages[d := Filled(0)], owner[d := Dir];
    assert !Present(0);
    hide Present, Frame;
    Recolour(pages, owner, d, Filled(0), Held);
    assert owner[d := Held] == owner;
    forall i: nat, j: nat
      ensures Pde(pages', d, i) == 0 && Pte(pages', d, i, j) == 0
    {
      assert Pde(pages', d, i) == 0;
    }
    hide Pde, Pte;
    assert forall p: nat :: p != d ==> OwnerOf(owner', p) == OwnerOf(owner, p);
    hide OwnerOf;
    assert forall d': nat :: IsDir(owner, d') ==> IsDir(owner', d');
    assert forall d': nat, i: nat, j: nat :: IsDir(owner, d') ==> Pte(pages', d', i, j) == Pte(pages, d', i, j);
  }

  /** Owners once directory d and its tables are taken out of use and merely held. */
  ghost function Retired(owner: seq<Owner>, d: nat): (owner': seq<Owner>)
    ensures |owner'| == |owner|
    ensures forall p: nat :: OwnerOf(owner', p) ==
                             if p == d < |owner| || (OwnerOf(owner, p).Table? && OwnerOf(owner, p).d == d) then Held
                             else OwnerOf(owner, p)
  {
    seq(|owner|, p requires 0 <= p < |owner| => if p == d || (owner[p].Table? && owner[p].d == d) then Held
    else owner[p])
  }

  lemma {:induction false} RetireDir(pages: seq<Page>, owner: seq<Owner>, d: nat)
    requires Ledger(pages, owner) && IsDir(owner, d)
    requires forall p: nat :: OwnerOf(owner, p).User? ==> OwnerOf(owner, p).d != d
    ensures Ledger(pages, Retired(owner, d))
  {
    assert d < |owner|;
    hide Present, Frame, Pte, Pde, OwnerOf;
    var owner' := Retired(owner, d);
    hide Retired;
    assert forall d': nat :: IsDir(owner', d') <==> IsDir(owner, d') && d' != d;
  }
}
