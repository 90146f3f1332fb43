/** User memory with lazy copying: page faults, stores, fork, unmapping, permission changes and
    swapping, updated in place.  Each method is proved against the eager memory of `EagerRead`
    and keeps the invariant `Inv`: counts equal uses, and a writable entry is the only user of
    its frame. */
module CowMemory {
  import opened Layout
  import opened VmaList
  import opened AddressSpaces
  import opened PageTables
  import opened CowState
  import opened CowSteps
  import opened CowRuns

  const SWAP_VICTIM_SCAN_LIMIT := 64

  class Memory {
    var ptes: map<Key, Pte>
    var refs: map<nat, int>
    var data: map<nat, Page>
    var pool: set<nat>
    var slotRefs: seq<int>
    var slots: seq<Page>
    var areas: map<nat, seq<Vma>>

    ghost function Snap(): Mem
      reads this
    {
      Mem(ptes, refs, data, pool, slotRefs, slots, areas)
    }

    /** At boot every frame and every slot is free. */
    constructor (frames: map<nat, Page>, slotPages: seq<Page>)
      ensures Inv(Snap()) && ptes == map[] && areas == map[] && pool == frames.Keys && |slotRefs| == |slotPages|
    {
      ptes, areas := map[], map[];
      refs := map f | f in frames :: 0;
      data, pool := frames, frames.Keys;
      slotRefs, slots := seq(|slotPages|, _ => 0), slotPages;
      new;
      assert forall t :: Users(ptes, t) == {};
      assert forall f | f in refs :: FrameOk(Snap(), f);
      assert forall s | 1 <= s < |slotRefs| :: SlotOk(Snap(), s);
    }

    // ---- pmm.c ----------------------------------------------------------------------------

    method AllocPage() returns (r: Option<nat>)
      modifies this`pool
      ensures r.None? <==> old(pool) == {}
      ensures r.Some? ==> r.value in old(pool)
      ensures pool == if r.Some? then old(pool) - {r.value} else old(pool)
    {
      if pool == {} { return None; }
      var f :| f in pool;
      pool := pool - {f};
      r := Some(f);
    }

    method RefDec(f: nat)
      requires f in refs
      modifies this`refs, this`pool
      ensures Snap() == Released(old(Snap()), Frame(f))
    {
      refs := refs[f := refs[f] - 1];
      if refs[f] == 0 { pool := pool + {f}; }
    }

    // The body of the loop of unmap_range.
    method RemoveEntry(k: Key)
      requires k in ptes && InRange(Snap(), ptes[k])
      requires ptes[k].Swapped? ==> slotRefs[ptes[k].slot] > 0
      modifies this`ptes, this`refs, this`pool, this`slotRefs
      ensures Snap() == Dropped(old(Snap()), k)
    {
      match ptes[k] {
        case Present(f, _, _) => RefDec(f);
        case Hidden(f, _, _) => RefDec(f);
        case Swapped(s) => if slotRefs[s] != 0 { slotRefs := slotRefs[s := slotRefs[s] - 1]; }
      }
      ptes := ptes - {k};
    }

    /** unmap_range empties every entry of the range and gives each frame or slot back. */
    method UnmapRange(mm: nat, start: nat, end: nat)
      requires Inv(Snap()) && Aligned(start) && Aligned(end) && start <= end
      modifies this`ptes, this`refs, this`pool, this`slotRefs
      ensures Inv(Snap())
      ensures Erased(old(Snap()), Snap(), mm, start, end)
    {
      hide Inv, Erased;
      var la := start;
      EraseNothing(Snap(), mm, start);
      while la < end
        invariant Inv(Snap()) && Aligned(la) && start <= la <= end
        invariant Erased(old(Snap()), Snap(), mm, start, la)
        decreases end - la
      {
        var k := Key(mm, la);
        EraseNext(old(Snap()), Snap(), mm, start, la);
        if k in ptes {
          if ptes[k].Swapped? { SlotUsed(Snap(), k); }
          RemoveEntry(k);
        }
        la := la + PGSIZE;
      }
    }

    // ---- vmm.c ----------------------------------------------------------------------------

    /** do_pgfault.  A fault never changes what any address space reads.  It fails only where the
        area forbids the access, on a write fault to a page that is not copy-on-write, or for want
        of a frame, a page table or the swap device; a failure changes nothing.  After success the
        faulting access is permitted. */
    method Fault(mm: nat, addr: nat, write: bool, tableOk: bool, ioOk: bool) returns (r: Status)
      requires Inv(Snap())
      modifies this
      ensures Inv(Snap()) && SameReads(old(Snap()), Snap()) && areas == old(areas)
      ensures r != Ok ==> Snap() == old(Snap())
      ensures r == Ok ==> var k := Key(mm, addr - addr % PGSIZE); k in ptes && ptes[k].Present? && (write ==> ptes[k].w)
      ensures r == FaultStatus(old(Snap()), mm, addr, write, tableOk, ioOk)
      ensures var k := Key(mm, addr - addr % PGSIZE);
              r == Ok && k !in old(ptes) ==>
                !ptes[k].cow && ptes == old(ptes)[k := ptes[k]] && |slotRefs| == |old(slotRefs)|
    {
      hide Inv;
      ghost var m := Snap();
      if mm !in areas || FlagsAt(areas[mm], addr).None? { return Inval; }
      var flags := FlagsAt(areas[mm], addr).value;
      var k := Key(mm, addr - addr % PGSIZE);
      FaultFacts(m, mm, addr);
      if write {
        if !CanWrite(flags) { return Inval; }
      } else {
        if k in ptes && ptes[k].Present? { return Inval; }
        if !CanRead(flags) { return Inval; }
      }
      if k !in ptes {
        if !tableOk { return NoMem; }
        var ok := FirstTouch(k, flags);
        return if ok then Ok else NoMem;
      }
      EntryFacts(m, k);
      match ptes[k] {
        case Present(_, _, cow) =>
          if !cow { return NoMem; }
          var ok := BreakCow(k, flags);
          r := if ok then Ok else NoMem;
        case Swapped(_) =>
          r := SwapIn(k, flags, ioOk);
        case Hidden(_, _, _) =>
          // PROT_NONE areas refuse every access, so no fault reaches a hidden entry
          assert false;
      }
    }

    // The first access to a page maps a frame of zeros.
    method FirstTouch(k: Key, flags: nat) returns (ok: bool)
      requires Inv(Snap()) && k !in ptes && Aligned(k.la) && FlagsOf(Snap(), k) == Some(flags)
      modifies this
      ensures Inv(Snap()) && SameReads(old(Snap()), Snap()) && areas == old(areas)
      ensures ok <==> old(pool) != {}
      ensures ok ==> k in ptes && ptes[k].Present? && ptes[k].w == CanWrite(flags) && !ptes[k].cow
      ensures ok ==> ptes == old(ptes)[k := ptes[k]] && |slotRefs| == |old(slotRefs)|
      ensures !ok ==> Snap() == old(Snap())
    {
      hide Inv;
      ghost var m := Snap();
      var f := AllocPage();
      if f.None? { return false; }
      FreshKeeps(m, k, f.value, ZeroPage);
      MapFrame(k, f.value, CanWrite(flags));
      data := data[f.value := ZeroPage];
      assert Snap() == Fresh(m, k, f.value, ZeroPage, CanWrite(flags));
      ok := true;
    }

    // A write to a copy-on-write page: the last user takes the page over, others copy it.
    method BreakCow(k: Key, flags: nat) returns (ok: bool)
      requires Inv(Snap()) && k in ptes && ptes[k].Present? && ptes[k].cow
      requires FlagsOf(Snap(), k) == Some(flags) && CanWrite(flags)
      modifies this
      ensures Inv(Snap()) && SameReads(old(Snap()), Snap()) && areas == old(areas)
      ensures ok <==> old(pool) != {} || (old(ptes[k]).frame in old(refs) && old(refs)[old(ptes[k]).frame] == 1)
      ensures ok ==> k in ptes && ptes[k].Present? && ptes[k].w
      ensures !ok ==> Snap() == old(Snap())
    {
      hide Inv;
      ghost var m := Snap();
      EntryFacts(m, k);
      var frame := ptes[k].frame;
      if refs[frame] == 1 {
        RemarkKeeps(m, k, Present(frame, true, false));
        ptes := ptes[k := Present(frame, true, false)];
      } else {
        var f := AllocPage();
        if f.None? { return false; }
        FreshKeeps(m, k, f.value, data[frame]);
        data := data[f.value := data[frame]];
        MapFrame(k, f.value, CanWrite(flags));
        assert Snap() == Fresh(m, k, f.value, Read(m, k), CanWrite(flags));
      }
      ok := true;
    }

    // swap_in, page_insert and the release of the slot.
    method SwapIn(k: Key, flags: nat, ioOk: bool) returns (r: Status)
      requires Inv(Snap()) && k in ptes && ptes[k].Swapped? && FlagsOf(Snap(), k) == Some(flags)
      modifies this
      ensures Inv(Snap()) && SameReads(old(Snap()), Snap()) && areas == old(areas)
      ensures r == if old(pool) == {} then NoMem else if ioOk then Ok else IoError
      ensures r == Ok ==> k in ptes && ptes[k].Present? && ptes[k].w == CanWrite(flags)
      ensures r != Ok ==> Snap() == old(Snap())
    {
      hide Inv;
      ghost var m := Snap();
      EntryFacts(m, k);
      var s := ptes[k].slot;
      var f := AllocPage();
      if f.None? { return NoMem; }
      if !ioOk {
        pool := pool + {f.value};
        assert Snap() == m;
        return IoError;
      }
      FreshKeeps(m, k, f.value, slots[s]);
      data := data[f.value := slots[s]];
      MapFrame(k, f.value, CanWrite(flags));
      assert Snap() == Fresh(m, k, f.value, Read(m, k), CanWrite(flags));
      r := Ok;
    }

    // page_insert of a frame just allocated, with the release of what the entry held before.
    method MapFrame(k: Key, f: nat, w: bool)
      requires f in refs && f !in pool
      requires k in ptes ==> InRange(Snap(), ptes[k]) && TargetOf(ptes[k]) != Frame(f)
      requires k in ptes && ptes[k].Swapped? ==> slotRefs[ptes[k].slot] > 0
      modifies this`ptes, this`refs, this`pool, this`slotRefs
      ensures Snap() == Put(old(Snap()), k, Present(f, w, false))
    {
      refs := refs[f := refs[f] + 1];
      if k in ptes { RemoveEntry(k); }
      ptes := ptes[k := Present(f, w, false)];
    }

    /** A store goes through exactly when the hardware permits it, and one space sees it. */
    method Store(k: Key, off: nat, b: Byte) returns (ok: bool)
      requires Inv(Snap())
      modifies this`data
      ensures Inv(Snap())
      ensures ok <==> k in ptes && ptes[k].Present? && ptes[k].w
      ensures forall x :: Read(Snap(), x) == if ok && x == k then Stored(Read(old(Snap()), k), off, b)
          else Read(old(Snap()), x)
    {
      if k !in ptes || !ptes[k].Present? || !ptes[k].w { return false; }
      EntryFacts(Snap(), k);
      StoreKeeps(Snap(), k, Stored(Read(Snap(), k), off, b));
      data := data[ptes[k].frame := Stored(data[ptes[k].frame], off, b)];
      ok := true;
    }

    // ---- swap.c ---------------------------------------------------------------------------

    /** swap_alloc_entry takes the lowest slot without references. */
    method FindSlot() returns (r: Option<nat>)
      ensures r.Some? ==> 1 <= r.value < |slotRefs| && slotRefs[r.value] == 0
                          && forall s | 1 <= s < r.value :: slotRefs[s] != 0
      ensures r.None? ==> forall s | 1 <= s < |slotRefs| :: slotRefs[s] != 0
    {
      var s := 1;
      while s < |slotRefs|
        invariant 1 <= s && forall t | 1 <= t < s && t < |slotRefs| :: slotRefs[t] != 0
      {
        if slotRefs[s] == 0 { return Some(s); }
        s := s + 1;
      }
      r := None;
    }

    /** One round of swap_out: an unshared resident page moves to a slot and its frame is freed. */
    method SwapOutPage(k: Key, ioOk: bool) returns (ok: bool)
      requires Inv(Snap())
      modifies this
      ensures Inv(Snap()) && SameReads(old(Snap()), Snap()) && areas == old(areas)
      ensures ok <==> Swappable(old(Snap()), k, ioOk)
      ensures ok ==>
        && k in ptes && ptes[k].Swapped? && pool == old(pool) + {old(ptes)[k].frame}
        && old(ptes)[k].frame !in old(pool)
      ensures !ok ==> Snap() == old(Snap())
    {
      hide Inv;
      ghost var m := Snap();
      if k !in ptes || !ptes[k].Present? { return false; }
      EntryFacts(m, k);
      var frame := ptes[k].frame;
      if refs[frame] != 1 { return false; }
      var s := FindSlot();
      if s.None? { return false; }
      slotRefs := slotRefs[s.value := 1];
      if !ioOk {
        slotRefs := slotRefs[s.value := 0];
        assert Snap() == m;
        return false;
      }
      SwapOutKeeps(m, k, s.value);
      slots := slots[s.value := data[frame]];
      ptes := ptes[k := Swapped(s.value)];
      RefDec(frame);
      assert Snap() == SwappedOut(m, k, s.value);
      ok := true;
    }

    /** swap_out: every page swapped out frees one frame, and nobody can tell.  The victims come
        from the replacement queue, each with the outcome of its device write. */
    method SwapOut(n: int, victims: seq<(Key, bool)>) returns (swapped: nat)
      requires Inv(Snap())
      modifies this
      ensures Inv(Snap()) && SameReads(old(Snap()), Snap()) && areas == old(areas)
      ensures |pool| == |old(pool)| + swapped && (n <= 0 ==> swapped == 0) && (n > 0 ==> swapped <= n)
      ensures n > 0 && swapped == 0 ==>
        forall i | 0 <= i < |victims| && i < SWAP_VICTIM_SCAN_LIMIT ::
          !Swappable(old(Snap()), victims[i].0, victims[i].1)
    {
      hide Inv;
      swapped := 0;
      var scanned := 0;
      while swapped < n && scanned < SWAP_VICTIM_SCAN_LIMIT && scanned < |victims|
        invariant Inv(Snap()) && SameReads(old(Snap()), Snap()) && areas == old(areas) && 0 <= scanned <= |victims|
        invariant |pool| == |old(pool)| + swapped && (n <= 0 ==> swapped == 0) && (n > 0 ==> swapped <= n)
        invariant swapped == 0 ==>
          Snap() == old(Snap()) && forall i | 0 <= i < scanned :: !Swappable(old(Snap()), victims[i].0, victims[i].1)
        decreases |victims| - scanned
      {
        var (k, ioOk) := victims[scanned];
        scanned := scanned + 1;
        var slot := FindSlot();
        if slot.None? && k in ptes && ptes[k].Present? && ptes[k].frame in refs && refs[ptes[k].frame] == 1 { break; }
        var ok := SwapOutPage(k, ioOk);
        if ok { swapped := swapped + 1; }
      }
    }

    // ---- fork -----------------------------------------------------------------------------

    // The body of the loop of copy_range; the entry of the child is empty.
    method CopyEntry(from: Key, to: Key) returns (ok: bool)
      requires from in ptes && to !in ptes && InRange(Snap(), ptes[from])
      requires !ptes[from].Swapped? ==> ptes[from].frame !in pool
      modifies this`ptes, this`refs, this`slotRefs
      ensures ok <==> (old(ptes)[from].Swapped? ==> old(slotRefs)[old(ptes)[from].slot] !in {0, SLOT_MAX})
      ensures Snap() == if ok then CopiedEntry(old(Snap()), from, to) else old(Snap())
    {
      var e := ptes[from];
      if e.Swapped? {
        if slotRefs[e.slot] == 0 || slotRefs[e.slot] == SLOT_MAX { return false; }
        slotRefs := slotRefs[e.slot := slotRefs[e.slot] + 1];
        ptes := ptes[to := e];
        assert old(ptes)[from := e] == old(ptes);
        return true;
      }
      ptes := ptes[from := Forked(e)];
      refs := refs[e.frame := refs[e.frame] + 1];
      ptes := ptes[to := Forked(e)];
      assert pool - {e.frame} == pool;
      ok := true;
    }

    /** copy_range: the child can read the parent's pages of [start, stop), nobody else sees a
        change, and it gets to the end exactly when the child has a page table wherever the parent has
        an entry and every slot count has room. */
    method CopyRange(child: nat, parent: nat, start: nat, end: nat, noTable: set<nat>) returns (ok: bool, stop: nat)
      requires Inv(Snap()) && parent != child && Aligned(start) && Aligned(end) && start < end
      requires forall k | k in ptes :: !InSpan(k, child, start, end)
      requires forall la | start <= la < end :: FlagsOf(Snap(), Key(child, la)) == FlagsOf(Snap(), Key(parent, la))
      modifies this`ptes, this`refs, this`pool, this`slotRefs
      ensures Inv(Snap()) && start <= stop <= end && (ok <==> stop == end)
      ensures CopiedSpan(old(Snap()), Snap(), parent, child, start, stop)
      ensures ok <==> Copyable(old(Snap()), parent, start, end, noTable)
      ensures !ok ==> Blocked(Snap(), Key(parent, stop), noTable)
    {
      hide Inv, CopiedSpan;
      var la := start;
      CopyNothing(Snap(), parent, child, start);
      InvPlaced(Snap());
      while la < end
        invariant Inv(Snap()) && Aligned(la) && start <= la <= end && areas == old(areas)
        invariant CopiedSpan(old(Snap()), Snap(), parent, child, start, la)
        invariant forall x | start <= x < la && Key(parent, x) in old(ptes) :: x !in noTable
        decreases end - la
      {
        var from, to := Key(parent, la), Key(child, la);
        FlagsFrame(old(Snap()), Snap(), from, to);
        CopyNext(old(Snap()), Snap(), parent, child, start, la);
        if from in ptes {
          if la in noTable { return false, la; }
          EntryFacts(Snap(), from);
          var done := CopyEntry(from, to);
          if !done {
            CopyStopped(old(Snap()), Snap(), parent, child, start, end, la);
            return false, la;
          }
        }
        NoneBetween(old(Snap()), parent, la);
        la := la + PGSIZE;
      }
      RoomAfter(old(Snap()), Snap(), parent, child, start, end);
      return true, end;
    }

    // ---- discarding and changing areas ------------------------------------------------------

    method UnmapRuns(mm: nat, runs: seq<(nat, nat)>, start: nat, end: nat)
      requires Inv(Snap())
      requires forall c | c in runs :: start <= c.0 <= c.1 <= end && Aligned(c.0) && Aligned(c.1)
      modifies this`ptes, this`refs, this`pool, this`slotRefs
      ensures Inv(Snap()) && Trimmed(old(Snap()), Snap(), mm, start, end)
      ensures forall i, k | 0 <= i < |runs| && k in ptes :: !InSpan(k, mm, runs[i].0, runs[i].1)
    {
      hide Inv;
      var i := 0;
      while i < |runs|
        invariant 0 <= i <= |runs| && Inv(Snap()) && Trimmed(old(Snap()), Snap(), mm, start, end)
        invariant forall j, k | 0 <= j < i && k in ptes :: !InSpan(k, mm, runs[j].0, runs[j].1)
      {
        ghost var n := Snap();
        assert runs[i] in runs;
        UnmapRange(mm, runs[i].0, runs[i].1);
        TrimNext(old(Snap()), n, Snap(), mm, start, end, runs[i].0, runs[i].1);
        i := i + 1;
      }
    }

    /** mm_unmap: the pages of the range read as zeros again, also when splitting an area fails. */
    method Unmap(mm: nat, start: nat, end: nat, node: Option<nat>) returns (ok: bool)
      requires Inv(Snap()) && mm in areas && start < end && Aligned(start) && Aligned(end)
      requires node.Some? ==> node.value !in Ptrs(areas[mm])
      modifies this
      ensures Inv(Snap())
      ensures !ok <==> node.None? && exists v | v in old(areas)[mm] :: Straddles(v, start, end)
      ensures areas == if ok then old(areas)[mm := Cut(old(areas)[mm], start, end, if node.Some? then node.value
          else Bound(old(areas)[mm]))]
                       else old(areas)
      ensures forall k :: Read(Snap(), k) == if InSpan(k, mm, start, end) then ZeroPage else Read(old(Snap()), k)
    {
      hide Inv;
      ghost var m := Snap();
      ClippedGood(m, mm, start, end);
      UnmapRuns(mm, Clipped(areas[mm], start, end), start, end);
      RunsCover(m, Snap(), mm, start, end);
      TrimAll(m, Snap(), mm, start, end);
      if node.None? && exists v | v in areas[mm] :: Straddles(v, start, end) { return false; }
      var spare := if node.Some? then node.value else Bound(areas[mm]);
      CutKeeps(Snap(), mm, start, end, spare);
      areas := areas[mm := Cut(areas[mm], start, end, spare)];
      ok := true;
    }

    /** exit_mmap: the space loses every entry, and its frames and slots are given back. */
    method Exit(mm: nat)
      requires Inv(Snap()) && mm in areas
      modifies this
      ensures Inv(Snap()) && areas == old(areas) - {mm}
      ensures forall k | k in ptes :: k.mm != mm && k in old(ptes)
      ensures forall k :: Read(Snap(), k) == if k.mm == mm then ZeroPage else Read(old(Snap()), k)
    {
      hide Inv;
      ghost var m := Snap();
      var runs := Bounds(areas[mm]);
      BoundsGood(m, mm);
      UnmapRuns(mm, runs, USERBASE, USERTOP);
      BoundsCover(m, Snap(), mm);
      ListDropped(Snap(), mm);
      areas := areas - {mm};
    }

    /** mm_mprotect on the page table, with the list that the change of areas leaves.  Nothing
        visible changes; the isolation of later stores is kept exactly under `Protectable`. */
    method Protect(mm: nat, start: nat, end: nat, flags: nat, list: seq<Vma>)
      requires Inv(Snap()) && mm in areas && Aligned(start) && Aligned(end) && start < end
      requires VmaList.Valid(list) && SetPages(areas[mm], list, start, end, Some(flags))
      modifies this`ptes, this`areas
      ensures SameReads(old(Snap()), Snap()) && Balanced(Snap()) && Placed(Snap())
      ensures Exclusive(Snap()) <==> Protectable(old(Snap()), mm, start, end, flags)
      ensures Snap() == ProtectedMem(old(Snap()), mm, start, end, flags, list)
    {
      ghost var m := Snap();
      ProtectBalanced(m, mm, start, end, flags, list);
      ProtectExclusive(m, mm, start, end, flags, list);
      ProtectPlaced(m, mm, start, end, flags, list);
      AllAligned(m);
      hide ProtectedPtes, Balanced, Placed, Exclusive, SameReads, Protectable, Aligned;
      areas := areas[mm := list];
      ProtectStart(ptes, mm, start, flags);
      var la := start;
      while la < end
        invariant Aligned(la) && start <= la <= end
        invariant ptes == ProtectedPtes(m.ptes, mm, start, la, flags) && areas == m.areas[mm := list]
        decreases end - la
      {
        ProtectNext(m.ptes, mm, start, la, flags);
        AlignedNext(la, end);
        var k := Key(mm, la);
        if k in ptes { ptes := ptes[k := Protected(ptes[k], flags)]; }
        la := la + PGSIZE;
      }
      ProtectEnd(m, mm, start, end, flags, list, Snap());
    }

    /** A new, empty address space. */
    method NewSpace(mm: nat)
      requires Inv(Snap()) && mm !in areas
      modifies this`areas
      ensures Inv(Snap()) && SameReads(old(Snap()), Snap()) && areas == old(areas)[mm := []]
    {
      NoEntries(Snap(), mm);
      ListKeeps(Snap(), mm, []);
      areas := areas[mm := []];
    }

    /** mm_map: the new area is empty until its pages are touched. */
    method MapArea(mm: nat, v: Vma) returns (k: nat)
      requires Inv(Snap()) && mm in areas && GoodArea(v) && v.ptr !in Ptrs(areas[mm])
          && !Overlaps(areas[mm], v.start, v.end)
      modifies this`areas
      ensures Inv(Snap()) && SameReads(old(Snap()), Snap())
      ensures k <= |old(areas)[mm]| && areas == old(areas)[mm := Inserted(old(areas)[mm], k, v)]
      ensures SetPages(old(areas)[mm], areas[mm], v.start, v.end, Some(v.flags))
    {
      k := 0;
      while k < |areas[mm]| && areas[mm][k].start <= v.start
        invariant k <= |areas[mm]|
        invariant forall j | 0 <= j < k :: areas[mm][j].start <= v.start
      {
        k := k + 1;
      }
      InsertPlace(areas[mm], k, v);
      InsertKeeps(Snap(), mm, v, Inserted(areas[mm], k, v));
      areas := areas[mm := Inserted(areas[mm], k, v)];
    }

    /** fork: the child reads exactly what the parent reads and nobody else sees a change.  A fork
        that fails anywhere leaves no trace of the child. */
    method Fork(parent: nat, child: nat, nodes: seq<Option<nat>>, noTable: set<nat>) returns (ok: bool)
      requires Inv(Snap()) && parent in areas && child !in areas && |nodes| == |areas[parent]|
      requires forall a, b | 0 <= a < b < |nodes| && nodes[a].Some? :: nodes[a] != nodes[b]
      modifies this
      ensures Inv(Snap())
      ensures if ok then child in areas && areas == old(areas)[child := areas[child]]
          && SameAreas(areas[child], areas[parent])
              else areas == old(areas)
      ensures forall k: Key ::
          Read(Snap(), k) == Read(old(Snap()), if ok && k.mm == child then Key(parent, k.la) else k)
      ensures ok <==> Forkable(old(Snap()), parent, nodes, noTable)
      ensures ok ==> ForkedTables(old(ptes), ptes, parent, child)
    {
      hide Inv, CopiedSpan, Copyable, Tabled, ForkedTables;
      ghost var m := Snap();
      NoEntries(m, child);
      NewSpace(child);
      var list, i, copy := areas[parent], |areas[parent]|, [];
      CopyStart(m, Snap(), parent, child);
      TabledTop(m, parent, noTable);
      while i > 0
        invariant 0 <= i <= |list| && Inv(Snap()) && areas == m.areas[child := copy]
        invariant |copy| == |list| - i && forall k | i <= k < |list| :: CopyOf(copy[k - i], list[k], nodes[k])
        invariant forall k | i <= k < |nodes| :: nodes[k].Some?
        invariant CopiedSpan(m, Snap(), parent, child, Low(list, i), USERTOP)
            && Tabled(m, parent, Low(list, i), noTable)
      {
        i := i - 1;
        var v := list[i];
        if nodes[i].None? {
          CopyOthers(m, Snap(), parent, child, Low(list, i + 1));
          Undone(m.areas, child, copy);
          assert nodes[i] in nodes;
          Exit(child);
          return false;
        }
        ForkArea(m, Snap(), parent, child, copy, nodes, i);
        copy := [Vma(nodes[i].value, v.start, v.end, v.flags)] + copy;
        ghost var n := Snap();
        areas := areas[child := copy];
        assert areas == m.areas[child := copy];
        CopiedSame(m, n, Snap(), parent, child, Low(list, i + 1));
        n := Snap();
        var done, stop := CopyRange(child, parent, v.start, v.end, noTable);
        if !done {
          CopyFailed(m, n, Snap(), parent, child, i, stop);
          ForkBlocked(m, Snap(), parent, child, nodes, noTable, stop);
          Undone(m.areas, child, copy);
          Exit(child);
          return false;
        }
        TabledNext(m, n, parent, child, i, noTable);
        CopyJoin(m, n, Snap(), parent, child, i);
      }
      CopyWhole(m, Snap(), parent, child);
      ForkWent(m, Snap(), parent, child, nodes, noTable);
      AllCopied(copy, list, nodes);
      ok := true;
    }

    // ---- requests -----------------------------------------------------------------------------

    /** mm_brk on an existing heap area: its end moves, and the pages above a lower end read as zeros
        again. */
    method MoveEnd(mm: nat, i: nat, end: nat)
      requires Inv(Snap()) && Accepted(areas, Op.MoveEnd(mm, i, end))
      modifies this
      ensures Inv(Snap()) && areas == old(areas)[mm := Resized(old(areas)[mm], i, end)]
      ensures var was := old(areas)[mm][i].end;
              forall k :: Read(Snap(), k) == if InSpan(k, mm, end, was) then ZeroPage else Read(old(Snap()), k)
    {
      hide Inv;
      ghost var m := Snap();
      var was := areas[mm][i].end;
      AreaValid(m, mm);
      EndAligned(areas[mm], i);
      if end < was { UnmapRange(mm, end, was); } else { EraseBack(m, mm, end, was); }
      MoveKeeps(m, Snap(), mm, i, end);
      areas := areas[mm := Resized(areas[mm], i, end)];
    }

    /** mm_mprotect as a whole: a failed split leaves at most another boundary between areas. */
    method ProtectAll(op: Op)
      requires Inv(Snap()) && op.ProtectPages? && Accepted(areas, op) && !Leaks(Snap(), op)
      modifies this
      ensures Inv(Snap()) && SameReads(old(Snap()), Snap()) && AreasAfter(old(Snap()), op, areas)
    {
      var mm := op.mm;
      ghost var m := Snap();
      AreaValid(m, mm);
      hide Inv, SameReads, SplitAt, SetFlags, Protectable;
      if LeftFails(areas[mm], op) {
        ReadsSame(m);
        return;
      }
      if RightFails(areas[mm], op) {
        LeftPages(areas[mm], op);
        SameListKeeps(m, mm, LeftSplit(areas[mm], op));
        areas := areas[mm := LeftSplit(areas[mm], op)];
        return;
      }
      ReprotectedPages(areas[mm], op);
      Protect(mm, op.start, op.end, op.flags, Reprotected(areas[mm], op));
      InvAgain(Snap());
    }

    /** One request, accepted or not. */
    method Serve(op: Op)
      requires Inv(Snap()) && !Leaks(Snap(), op)
      modifies this
      ensures Inv(Snap()) && Served(old(Snap()), op, Snap())
    {
      hide Inv, Forkable, Leaks, EagerNext, AreasAfter, Granted;
      EagerIdle(Snap());
      if !Accepted(areas, op) { return; }
      if op.Access? || op.StoreByte? || op.Discard? || op.PageOut? { ServePages(op); } else { ServeAreas(op); }
    }

    // Requests that leave the areas alone.
    method ServePages(op: Op)
      requires Inv(Snap()) && Accepted(areas, op) && (op.Access? || op.StoreByte? || op.Discard? || op.PageOut?)
      modifies this
      ensures Inv(Snap()) && Served(old(Snap()), op, Snap())
    {
      hide Inv;
      match op {
        case Access(mm, addr, write, tableOk, ioOk) => var r := Fault(mm, addr, write, tableOk, ioOk);
        case StoreByte(k, off, b) => var ok := Store(k, off, b);
        case Discard(mm, start, end) => UnmapRange(mm, start, end);
        case PageOut(k, ioOk) => var ok := SwapOutPage(k, ioOk);
      }
    }

    // Requests that change them.
    method ServeAreas(op: Op)
      requires Inv(Snap()) && Accepted(areas, op) && !(op.Access? || op.StoreByte? || op.Discard? || op.PageOut?)
          && !Leaks(Snap(), op)
      modifies this
      ensures Inv(Snap()) && Served(old(Snap()), op, Snap())
    {
      hide Inv, Forkable, Leaks;
      match op {
        case New(mm) => NewSpace(mm);
        case Map(mm, v) => var k := MapArea(mm, v);
        case ForkSpace(parent, child, nodes, noTable) => var ok := Fork(parent, child, nodes, noTable);
        case UnmapPages(mm, start, end, node) => var ok := Unmap(mm, start, end, node);
        case ProtectPages(_, _, _, _, _, _) => ProtectAll(op);
        case MoveEnd(mm, i, end) => MoveEnd(mm, i, end);
        case ExitSpace(mm) => Exit(mm);
      }
    }

    /** Lazy copying refines eager copying over every run: whatever the requests and the failures
        they meet, each request does what `Served` says, and each address space reads what it would
        read had every fork copied every page.  A run stops early only before a write-enabling mprotect
        of a page with a second user. */
    method Run(ops: seq<Op>) returns (done: nat, ghost states: seq<Mem>)
      requires Inv(Snap())
      modifies this
      ensures done <= |ops| && RunOf(states, ops[..done]) && states[0] == old(Snap()) && states[done] == Snap()
      ensures Matches(Snap(), old(Snap()), Trace(states, ops[..done]))
      ensures done < |ops| ==> Leaks(Snap(), ops[done])
    {
      hide Inv, Served, Matches, Leaks;
      done, states := 0, [Snap()];
      while done < |ops|
        invariant 0 <= done <= |ops| && Inv(Snap())
        invariant RunOf(states, ops[..done]) && states[0] == old(Snap()) && states[done] == Snap()
      {
        if Leaking(ops[done]) { break; }
        Serve(ops[done]);
        RunNext(states, ops[..done], ops[done], Snap());
        assert ops[..done] + [ops[done]] == ops[..done + 1];
        states := states + [Snap()];
        done := done + 1;
      }
      RunRefines(states, ops[..done]);
    }

    // `Leaks` on the current state.
    predicate Leaking(op: Op)
      reads this
      ensures Leaking(op) == Leaks(Snap(), op)
    { Leaks(Mem(ptes, refs, data, pool, slotRefs, slots, areas), op) }
  }

  // ---- facts about the requests -------------------------------------------------------------------

  lemma ReadsSame(m: Mem)
    ensures SameReads(m, m)
  { }

  lemma EndAligned(list: seq<Vma>, i: nat)
    requires VmaList.Valid(list) && i < |list|
    ensures Aligned(list[i].end)
  { assert GoodArea(list[i]); }

  lemma EraseBack(m: Mem, mm: nat, start: nat, end: nat)
    requires end <= start
    ensures Erased(m, m, mm, start, end)
  { }

  lemma SameListKeeps(m: Mem, mm: nat, list: seq<Vma>)
    requires Inv(m) && mm in m.areas && VmaList.Valid(list) && SamePages(m.areas[mm], list)
    ensures Inv(m.(areas := m.areas[mm := list])) && SameReads(m, m.(areas := m.areas[mm := list]))
  { ListKeeps(m, mm, list); }

  // The end of one area moves where no entry is left above it.
  lemma MoveKeeps(m: Mem, n: Mem, mm: nat, i: nat, end: nat)
    requires Inv(n) && Accepted(m.areas, Op.MoveEnd(mm, i, end)) && n.areas == m.areas
    requires Erased(m, n, mm, end, m.areas[mm][i].end)
    ensures var n' := n.(areas := n.areas[mm := Resized(n.areas[mm], i, end)]);
            Inv(n') && forall k :: Read(n', k) == if InSpan(k, mm, end, m.areas[mm][i].end) then ZeroPage
              else Read(m, k)
  {
    var list := n.areas[mm];
    AreaValid(n, mm);
    ResizeValid(list, i, end);
    forall k | k in n.ptes && k.mm == mm ensures FlagsAt(Resized(list, i, end), k.la) == FlagsOf(n, k) {
      ResizeFlags(list, i, end, k.la);
      EntryCovered(n, k);
      if list[i].end <= k.la < end { NewlyMapped(list, i, end, k.la); }
    }
    ListKeeps(n, mm, Resized(list, i, end));
  }

  lemma NewlyMapped(list: seq<Vma>, i: nat, end: nat, a: nat)
    requires Resizable(list, i, end) && list[i].end <= a < end
    ensures Scan(list, a).None?
  {
    forall j | 0 <= j < |list| ensures !Covers(list[j], a) {
      if j < i { OrderedAt(list, j, i); assert GoodArea(list[i]); }
      if j > i + 1 { OrderedAt(list, i + 1, j); assert GoodArea(list[i + 1]); }
    }
    ScanMisses(list, a);
  }
}
