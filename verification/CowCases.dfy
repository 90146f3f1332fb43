/** Two short runs from boot in which a promise fails: making a page writable that a fork left shared,
    and an unmapping that fails after it has discarded a page. */
module CowCases {
  import opened Layout
  import opened VmaList
  import opened AddressSpaces
  import opened PageTables
  import opened CowState
  import opened CowSteps
  import opened CowRuns
  import opened CowMemory

  // Boot with one frame, one space with one area of `pages` pages, and one touched page.
  method Touched(pages: nat, flags: nat, a: nat, write: bool) returns (m: Memory)
    requires 0 < pages <= 3 && flags in {VM_READ, VM_RW} && (write ==> flags == VM_RW)
    requires Aligned(a) && USERBASE <= a < USERBASE + pages * PGSIZE
    ensures fresh(m) && Inv(m.Snap()) && |m.slotRefs| == 0
        && m.areas == map[0 := [Vma(1, USERBASE, USERBASE + pages * PGSIZE, flags)]]
    ensures Key(0, a) in m.ptes && m.ptes == map[Key(0, a) := m.ptes[Key(0, a)]]
    ensures m.ptes[Key(0, a)].Present? && !m.ptes[Key(0, a)].cow && m.ptes[Key(0, a)].w == CanWrite(flags)
    ensures Read(m.Snap(), Key(0, a)) == ZeroPage
  {
    var v := Vma(1, USERBASE, USERBASE + pages * PGSIZE, flags);
    m := new Memory(map[7 := ZeroPage], []);
    m.NewSpace(0);
    assert 7 in m.pool;
    var k := m.MapArea(0, v);
    assert m.areas[0] == [v];
    ScanHits([v], 0, a);
    var r := m.Fault(0, a, write, true, true);
    EntryFacts(m.Snap(), Key(0, a));
  }

  // A page of zeros that a fork left shared, read-only and without the copy-on-write mark.
  ghost predicate Shared(m: Mem) {
    var a, b := Key(0, USERBASE), Key(1, USERBASE);
    && Inv(m) && a in m.ptes && b in m.ptes && m.ptes[a] == m.ptes[b] && m.ptes[a].Present? && !m.ptes[a].w
        && !m.ptes[a].cow
    && Read(m, a) == ZeroPage && 1 in m.areas && |m.areas[1]| == 1
    && m.areas[1][0].start == USERBASE && m.areas[1][0].end == USERBASE + PGSIZE
  }

  method SharedPage() returns (m: Memory)
    ensures fresh(m) && Shared(m.Snap())
  {
    var a, b := Key(0, USERBASE), Key(1, USERBASE);
    m := Touched(1, VM_READ, USERBASE, false);
    ghost var ptes := m.ptes;
    assert Forkable(m.Snap(), 0, [Some(2)], {});
    hide Inv;
    var ok := m.Fork(0, 1, [Some(2)], {});
    assert CopiedPte(ptes, m.ptes, 0, 1, 0, USERTOP, a) && CopiedPte(ptes, m.ptes, 0, 1, 0, USERTOP, b);
  }

  const Enabling: Op := ProtectPages(1, USERBASE, USERBASE + PGSIZE, VM_RW, None, None)

  lemma SharedLeaks(m: Mem)
    requires Shared(m)
    ensures Leaks(m, Enabling) && VmaList.Valid(Reprotected(m.areas[1], Enabling))
        && m.ptes[Key(0, USERBASE)].frame in m.data
    ensures SetPages(m.areas[1], Reprotected(m.areas[1], Enabling), USERBASE, USERBASE + PGSIZE, Some(VM_RW))
  {
    EntryFacts(m, Key(0, USERBASE));
    AreaValid(m, 1);
    OneArea(m.areas[1], USERBASE, USERBASE + PGSIZE);
    ReprotectedPages(m.areas[1], Enabling);
    assert InSpan(Key(1, USERBASE), 1, USERBASE, USERBASE + PGSIZE);
    SharedUsers(m);
  }

  lemma SharedUsers(m: Mem)
    requires Shared(m)
    ensures var f := m.ptes[Key(0, USERBASE)].frame; f in m.refs && m.refs[f] >= 2
  {
    var a, b := Key(0, USERBASE), Key(1, USERBASE);
    var f := m.ptes[a].frame;
    EntryFacts(m, a);
    assert FrameOk(m, f);
    CountPositive(m.ptes, a);
    if m.refs[f] == 1 { CountOne(m.ptes, Frame(f), a, b); }
  }

  /** From boot to a shared page by a map, an access and a fork: making one side writable is a request
      that `Leaks`, and after it a store on that side shows on the other side. */
  method WriteEnablingLeaks() returns (m: Memory, ghost shared: Mem, ghost protected: Mem)
    ensures Inv(shared) && Leaks(shared, Enabling)
    ensures protected ==
        ProtectedMem(shared, 1, USERBASE, USERBASE + PGSIZE, VM_RW, Reprotected(shared.areas[1], Enabling))
    ensures var k := Key(1, USERBASE);
            && k in protected.ptes && Writable(protected.ptes[k])
            && m.Snap() == protected.(data := protected.data[protected.ptes[k].frame := Stored(Read(protected, k), 0,
                1)])
    ensures Read(m.Snap(), Key(0, USERBASE)) != Read(protected, Key(0, USERBASE))
  {
    m := SharedPage();
    shared := m.Snap();
    SharedLeaks(shared);
    hide Inv, Leaks, Reprotected;
    var f := m.ptes[Key(0, USERBASE)].frame;
    m.Protect(1, USERBASE, USERBASE + PGSIZE, VM_RW, Reprotected(m.areas[1], Enabling));
    protected := m.Snap();
    assert InSpan(Key(1, USERBASE), 1, USERBASE, USERBASE + PGSIZE);
    m.data := m.data[f := Stored(m.data[f], 0, 1)];
    assert 0 in Read(m.Snap(), Key(0, USERBASE));
  }

  /** An unmapping that fails for want of an area structure has already discarded the page: a written
      byte is gone, and the area is still there. */
  method FailedUnmapLoses() returns (m: Memory, ok: bool, ghost before: Page)
    ensures !ok && before != ZeroPage && Read(m.Snap(), Key(0, USERBASE + PGSIZE)) == ZeroPage
    ensures 0 in m.areas && FlagsAt(m.areas[0], USERBASE + PGSIZE) == Some(VM_RW)
  {
    var k := Key(0, USERBASE + PGSIZE);
    m := Touched(3, VM_RW, k.la, true);
    var stored := m.Store(k, 0, 1);
    before := Read(m.Snap(), k);
    assert 0 in before;
    assert m.areas[0][0] in m.areas[0] && Straddles(m.areas[0][0], k.la, k.la + PGSIZE);
    ok := m.Unmap(0, k.la, k.la + PGSIZE, None);
    ScanHits(m.areas[0], 0, k.la);
  }

  lemma OneArea(list: seq<Vma>, start: nat, end: nat)
    requires VmaList.Valid(list) && |list| == 1 && list[0].start == start && list[0].end == end
    ensures Covered(list, start, end) && !SplitsAt(list, start) && !SplitsAt(list, end)
  {
    forall x | start <= x < end ensures Scan(list, x).Some? { ScanHits(list, 0, x); }
  }
}
