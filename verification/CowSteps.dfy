/** What each memory operation does to the state, as values: the pages a fault, a fork, an
    unmapping, a permission change or a swap leaves, and what each address space then reads. */
module CowSteps {
  import opened Layout
  import opened VmaList
  import opened AddressSpaces
  import opened PageTables
  import opened CowState

  // A page belongs to the area its addresses belong to.
  lemma {:induction false} SamePageFlags(s: seq<Vma>, a: nat)
    requires AllGood(s)
    ensures FlagsAt(s, a - a % PGSIZE) == FlagsAt(s, a)
  {
    if s != [] {
      assert GoodArea(s[0]);
      assert AllGood(s[1..]) by { assert forall i | 0 <= i < |s| :: GoodArea(s[i]); }
      assert Covers(s[0], a - a % PGSIZE) <==> Covers(s[0], a);
      SamePageFlags(s[1..], a);
    }
  }

  // Entries sit at page boundaries.
  lemma NoneBetween(m: Mem, mm: nat, la: nat)
    requires Placed(m) && Aligned(la)
    ensures forall x | x in m.ptes && InSpan(x, mm, la, la + PGSIZE) :: x == Key(mm, la)
  {
    forall x | x in m.ptes && InSpan(x, mm, la, la + PGSIZE) ensures x == Key(mm, la) { assert Fits(m, x, m.ptes[x]); }
  }

  /** `n` is `m` with every entry of a range emptied. */
  ghost predicate Erased(m: Mem, n: Mem, mm: nat, start: nat, end: nat) {
    && (forall k :: k in n.ptes <==> k in m.ptes && !InSpan(k, mm, start, end))
    && (forall k :: Read(n, k) == if InSpan(k, mm, start, end) then ZeroPage else Read(m, k))
    && n.areas == m.areas
  }

  lemma EraseNothing(m: Mem, mm: nat, start: nat)
    ensures Erased(m, m, mm, start, start)
  { }

  lemma EraseNext(m: Mem, n: Mem, mm: nat, start: nat, la: nat)
    requires Inv(n) && Aligned(la) && start <= la && Erased(m, n, mm, start, la)
    ensures var k := Key(mm, la);
            if k in n.ptes then InRange(n, n.ptes[k]) && Inv(Dropped(n, k))
              && Erased(m, Dropped(n, k), mm, start, la + PGSIZE)
            else Erased(m, n, mm, start, la + PGSIZE)
  {
    var k := Key(mm, la);
    NoneBetween(n, mm, la);
    if k in n.ptes { DropKeeps(n, k); }
  }

  lemma SlotUsed(m: Mem, k: Key)
    requires Inv(m) && k in m.ptes && m.ptes[k].Swapped?
    ensures InRange(m, m.ptes[k]) && m.slotRefs[m.ptes[k].slot] > 0
  {
    assert InRange(m, m.ptes[k]);
    assert SlotOk(m, m.ptes[k].slot);
    CountPositive(m.ptes, k);
  }

  // ---- the changes of one operation, as values -------------------------------------------

  /** A fresh frame with given contents is mapped at `k`. */
  function Fresh(m: Mem, k: Key, f: nat, p: Page, w: bool): Mem
    requires f in m.refs && (k in m.ptes ==> InRange(m, m.ptes[k]))
  {
    Put(m.(data := m.data[f := p]), k, Present(f, w, false))
  }

  /** Mapping a fresh frame with the contents that `k` already shows changes nothing visible. */
  lemma FreshKeeps(m: Mem, k: Key, f: nat, p: Page)
    requires Inv(m) && f in m.pool && p == Read(m, k) && FlagsOf(m, k).Some? && Aligned(k.la)
    ensures f in m.refs && (k in m.ptes ==> InRange(m, m.ptes[k]))
    ensures var n := Fresh(m, k, f, p, CanWrite(FlagsOf(m, k).value)); Inv(n) && SameReads(m, n)
  {
    FillFree(m, f, p);
    var w := CanWrite(FlagsOf(m, k).value);
    PutKeeps(m.(data := m.data[f := p]), k, Present(f, w, false));
  }

  /** Changing the bits of an entry that keeps its frame changes nothing visible. */
  lemma RemarkKeeps(m: Mem, k: Key, e: Pte)
    requires Inv(m) && k in m.ptes && TargetOf(e) == TargetOf(m.ptes[k]) && Fits(m, k, e)
    requires Writable(e) ==> Writable(m.ptes[k]) || (m.ptes[k].frame in m.refs && m.refs[m.ptes[k].frame] == 1)
    ensures InRange(m, m.ptes[k])
    ensures var n := m.(ptes := m.ptes[k := e]); n == Put(m, k, e) && Inv(n) && SameReads(m, n)
  {
    assert InRange(m, m.ptes[k]);
    CountPositive(m.ptes, k);
    if e.Swapped? {
      assert SlotOk(m, e.slot);
    } else {
      assert FrameOk(m, e.frame);
    }
    RemarkUnshared(m, k, e);
    PutKeeps(m, k, e);
    RemarkPut(m, k, e);
  }

  lemma RemarkUnshared(m: Mem, k: Key, e: Pte)
    requires Balanced(m) && Exclusive(m) && k in m.ptes && TargetOf(e) == TargetOf(m.ptes[k]) && InRange(m, e)
    requires Writable(e) ==> Writable(m.ptes[k]) || m.refs[m.ptes[k].frame] == 1
    ensures Unshared(m, k, e)
  {
    forall x | x in m.ptes && x != k && TargetOf(m.ptes[x]) == TargetOf(e)
      ensures !Writable(m.ptes[x]) && !Writable(e)
    {
      if Writable(m.ptes[x]) { assert Sole(m, x); }
      if Writable(m.ptes[k]) { assert Sole(m, k); }
      if Writable(m.ptes[x]) || Writable(e) {
        assert FrameOk(m, e.frame);
        CountOne(m.ptes, TargetOf(e), k, x);
      }
    }
  }

  lemma RemarkPut(m: Mem, k: Key, e: Pte)
    requires k in m.ptes && TargetOf(e) == TargetOf(m.ptes[k]) && InRange(m, e) && InRange(m, m.ptes[k])
    requires !e.Swapped? ==> m.refs[e.frame] > 0 && e.frame !in m.pool
    ensures m.(ptes := m.ptes[k := e]) == Put(m, k, e)
  { }

  /** The page at `k` moves to swap slot `s`. */
  function SwappedOut(m: Mem, k: Key, s: nat): Mem
    requires k in m.ptes && InRange(m, m.ptes[k]) && 1 <= s < |m.slotRefs| && |m.slots| == |m.slotRefs|
  {
    Put(m.(slots := m.slots[s := Read(m, k)]), k, Swapped(s))
  }

  lemma SwapOutKeeps(m: Mem, k: Key, s: nat)
    requires Inv(m) && k in m.ptes && 1 <= s < |m.slotRefs| && m.slotRefs[s] == 0
    ensures InRange(m, m.ptes[k]) && |m.slots| == |m.slotRefs|
    ensures Inv(SwappedOut(m, k, s)) && SameReads(m, SwappedOut(m, k, s))
  {
    assert InRange(m, m.ptes[k]) && Fits(m, k, m.ptes[k]);
    FillSlot(m, s, Read(m, k));
    PutKeeps(m.(slots := m.slots[s := Read(m, k)]), k, Swapped(s));
  }

  /** A page that can be swapped out: resident, with one user, when a slot is free and the device
      works. */
  predicate Swappable(m: Mem, k: Key, ioOk: bool) {
    && ioOk && k in m.ptes && m.ptes[k].Present? && m.ptes[k].frame in m.refs && m.refs[m.ptes[k].frame] == 1
    && exists s | 1 <= s < |m.slotRefs| :: m.slotRefs[s] == 0
  }

  // ---- faults -------------------------------------------------------------------------------

  /** The outcome of a page fault, from the state before it. */
  function FaultStatus(m: Mem, mm: nat, addr: nat, write: bool, tableOk: bool, ioOk: bool): Status {
    var k := Key(mm, addr - addr % PGSIZE);
    var flags := if mm in m.areas then FlagsAt(m.areas[mm], addr) else None;
    var present := k in m.ptes && m.ptes[k].Present?;
    if flags.None? || (if write then !CanWrite(flags.value) else present || !CanRead(flags.value)) then Inval
    else if k !in m.ptes then (if tableOk && m.pool != {} then Ok else NoMem)
    else match m.ptes[k]
      case Present(f, _, cow) => if cow && (m.pool != {} || (f in m.refs && m.refs[f] == 1)) then Ok else NoMem
      case Swapped(_) => if m.pool == {} then NoMem else if ioOk then Ok else IoError
      case Hidden(_, _, _) => Ok
  }

  lemma FaultFacts(m: Mem, mm: nat, addr: nat)
    requires Inv(m) && mm in m.areas
    ensures var k := Key(mm, addr - addr % PGSIZE); Aligned(k.la) && FlagsOf(m, k) == FlagsAt(m.areas[mm], addr)
  {
    SamePageFlags(m.areas[mm], addr);
  }

  lemma EntryFacts(m: Mem, k: Key)
    requires Inv(m) && k in m.ptes
    ensures InRange(m, m.ptes[k]) && Fits(m, k, m.ptes[k]) && |m.slotRefs| == |m.slots| && m.refs.Keys == m.data.Keys
    ensures m.pool <= m.refs.Keys && TargetOf(m.ptes[k]) !in (set f | f in m.pool :: Frame(f))
    ensures m.ptes[k].Swapped? ==> 0 < m.slotRefs[m.ptes[k].slot] <= SLOT_MAX
  {
    assert InRange(m, m.ptes[k]) && Fits(m, k, m.ptes[k]);
    CountPositive(m.ptes, k);
    if m.ptes[k].Swapped? { assert SlotOk(m, m.ptes[k].slot); } else { assert FrameOk(m, m.ptes[k].frame); }
  }

  // ---- fork -------------------------------------------------------------------------------

  /** One step of copy_range: both spaces keep the page read-only and copy-on-write. */
  function CopiedEntry(m: Mem, from: Key, to: Key): Mem
    requires from in m.ptes && InRange(m, m.ptes[from]) && (to in m.ptes ==> InRange(m, m.ptes[to]))
  {
    var e := Forked(m.ptes[from]);
    Put(m.(ptes := m.ptes[from := e]), to, e)
  }

  lemma CopyKeeps(m: Mem, from: Key, to: Key)
    requires Inv(m) && from in m.ptes && to !in m.ptes && from != to && FlagsOf(m, to) == FlagsOf(m, from)
        && to.la == from.la
    requires m.ptes[from].Swapped? ==> InRange(m, m.ptes[from]) && m.slotRefs[m.ptes[from].slot] < SLOT_MAX
    ensures InRange(m, m.ptes[from]) && Inv(CopiedEntry(m, from, to))
    ensures forall x :: Read(CopiedEntry(m, from, to), x) == Read(m, if x == to then from else x)
  {
    assert InRange(m, m.ptes[from]) && Fits(m, from, m.ptes[from]);
    var e := Forked(m.ptes[from]);
    assert Fits(m, from, e);
    RemarkKeeps(m, from, e);
    var n := m.(ptes := m.ptes[from := e]);
    assert Fits(n, to, e);
    CopyUnshared(n, from, to);
    PutKeeps(n, to, e);
  }

  lemma CopyUnshared(n: Mem, from: Key, to: Key)
    requires Balanced(n) && Exclusive(n) && from in n.ptes && !Writable(n.ptes[from])
    ensures Unshared(n, to, n.ptes[from])
  {
    var e := n.ptes[from];
    forall x | x in n.ptes && x != to && TargetOf(n.ptes[x]) == TargetOf(e) ensures !Writable(n.ptes[x]) {
      if Writable(n.ptes[x]) {
        assert Sole(n, x) && FrameOk(n, n.ptes[x].frame);
        CountOne(n.ptes, TargetOf(e), from, x);
      }
    }
  }

  lemma InvPlaced(m: Mem)
    requires Inv(m)
    ensures Placed(m)
  { }

  lemma FlagsFrame(m: Mem, n: Mem, from: Key, to: Key)
    requires n.areas == m.areas && FlagsOf(m, to) == FlagsOf(m, from)
    ensures FlagsOf(n, to) == FlagsOf(n, from)
  { }

  lemma CopyNothing(m: Mem, parent: nat, child: nat, a: nat)
    ensures CopiedSpan(m, m, parent, child, a, a)
  { }

  /** `n` is `m` with the pages of `parent` in [lo, hi) also readable in `child`. */
  ghost predicate CopiedSpan(m: Mem, n: Mem, parent: nat, child: nat, lo: nat, hi: nat) {
    && (forall k :: k in n.ptes <==> k in m.ptes || (InSpan(k, child, lo, hi) && Key(parent, k.la) in m.ptes))
    && (forall k :: Read(n, k) == Read(m, if InSpan(k, child, lo, hi) then Key(parent, k.la) else k))
    && (forall k {:trigger CopiedPte(m.ptes, n.ptes, parent, child, lo, hi, k)} | k in n.ptes ::
          CopiedPte(m.ptes, n.ptes, parent, child, lo, hi, k))
    && |n.slotRefs| == |m.slotRefs|
  }

  // Where an entry comes from: a page of the child from the parent's page.
  function Origin(k: Key, parent: nat, child: nat, lo: nat, hi: nat): Key {
    if InSpan(k, child, lo, hi) then Key(parent, k.la) else k
  }

  // The entry at `k` after the pages of `parent` in [lo, hi) have been shared.
  predicate CopiedPte(ptes: map<Key, Pte>, ptes': map<Key, Pte>, parent: nat, child: nat, lo: nat, hi: nat, k: Key) {
    var o := Origin(k, parent, child, lo, hi);
    k in ptes' && o in ptes && ptes'[k] == if InSpan(o, parent, lo, hi) then Forked(ptes[o]) else ptes[o]
  }

  lemma CopyNext(m: Mem, n: Mem, parent: nat, child: nat, lo: nat, la: nat)
    requires Inv(n) && Placed(m) && Aligned(la) && lo <= la && parent != child
        && CopiedSpan(m, n, parent, child, lo, la)
    requires forall k | k in m.ptes :: k.mm != child || !(la <= k.la < la + PGSIZE)
    requires FlagsOf(n, Key(child, la)) == FlagsOf(n, Key(parent, la))
    ensures Key(parent, la) in n.ptes <==> Key(parent, la) in m.ptes
    ensures Key(parent, la) !in n.ptes ==> CopiedSpan(m, n, parent, child, lo, la + PGSIZE)
    ensures Key(parent, la) in n.ptes ==>
              var from, to := Key(parent, la), Key(child, la);
              && to !in n.ptes && InRange(n, n.ptes[from])
              && (n.ptes[from].Swapped? ==> n.slotRefs[n.ptes[from].slot] > 0)
              && ((n.ptes[from].Swapped? && n.slotRefs[n.ptes[from].slot] >= SLOT_MAX) ||
                  (Inv(CopiedEntry(n, from, to))
                    && CopiedSpan(m, CopiedEntry(n, from, to), parent, child, lo, la + PGSIZE)))
  {
    hide Inv, Read, CopiedEntry;
    var from, to := Key(parent, la), Key(child, la);
    NoneBetween(m, parent, la);
    if from !in m.ptes { NextAbsent(m, n, parent, child, lo, la); }
    if from in n.ptes {
      EntryFacts(n, from);
      CopiedShape(n, from, to);
      if !(n.ptes[from].Swapped? && n.slotRefs[n.ptes[from].slot] >= SLOT_MAX) {
        CopyKeeps(n, from, to);
        CopyGrows(m, n, CopiedEntry(n, from, to), parent, child, lo, la);
      }
    }
  }

  lemma NextAbsent(m: Mem, n: Mem, parent: nat, child: nat, lo: nat, la: nat)
    requires lo <= la && parent != child && CopiedSpan(m, n, parent, child, lo, la) && Key(parent, la) !in m.ptes
    requires forall k | k in m.ptes && InSpan(k, parent, la, la + PGSIZE) :: k == Key(parent, la)
    requires forall k | k in m.ptes :: k.mm != child || !(la <= k.la < la + PGSIZE)
    ensures CopiedSpan(m, n, parent, child, lo, la + PGSIZE)
  {
    hide Read;
    forall k | InSpan(k, child, la, la + PGSIZE)
      ensures k !in m.ptes && Key(parent, k.la) !in m.ptes && Read(m, k) == Read(m, Key(parent, k.la))
    {
      ReadNothing(m, k, Key(parent, k.la));
    }
    forall k | k in n.ptes ensures CopiedPte(m.ptes, n.ptes, parent, child, lo, la + PGSIZE, k) {
      assert CopiedPte(m.ptes, n.ptes, parent, child, lo, la, k);
    }
  }

  lemma CopiedShape(n: Mem, from: Key, to: Key)
    requires from in n.ptes && to !in n.ptes && InRange(n, n.ptes[from])
    ensures var n' := CopiedEntry(n, from, to);
            n'.ptes == n.ptes[from := Forked(n.ptes[from])][to := Forked(n.ptes[from])] && |n'.slotRefs| == |n.slotRefs|
  { }

  lemma CopyGrows(m: Mem, n: Mem, n': Mem, parent: nat, child: nat, lo: nat, la: nat)
    requires lo <= la && parent != child && CopiedSpan(m, n, parent, child, lo, la)
    requires Key(parent, la) in m.ptes
    requires forall k | k in m.ptes && InSpan(k, parent, la, la + PGSIZE) :: k == Key(parent, la)
    requires forall k | k in m.ptes :: k.mm != child || !(la <= k.la < la + PGSIZE)
    requires var from, to := Key(parent, la), Key(child, la);
             from in n.ptes && n'.ptes == n.ptes[from := Forked(n.ptes[from])][to := Forked(n.ptes[from])]
    requires |n'.slotRefs| == |n.slotRefs|
    requires forall x :: Read(n', x) == Read(n, if x == Key(child, la) then Key(parent, la) else x)
    ensures CopiedSpan(m, n', parent, child, lo, la + PGSIZE)
  {
    hide Read;
    var from, to := Key(parent, la), Key(child, la);
    forall k ensures Read(n', k) == Read(m, if InSpan(k, child, lo, la + PGSIZE) then Key(parent, k.la) else k) {
      if k != to && InSpan(k, child, la, la + PGSIZE) {
        assert Read(n', k) == Read(n, k) == Read(m, k);
        assert Key(parent, k.la) !in m.ptes && k !in m.ptes;
        ReadNothing(m, k, Key(parent, k.la));
      }
    }
    assert CopiedPte(m.ptes, n.ptes, parent, child, lo, la, from);
    forall k | k in n'.ptes ensures CopiedPte(m.ptes, n'.ptes, parent, child, lo, la + PGSIZE, k) {
      if k != from && k != to { assert CopiedPte(m.ptes, n.ptes, parent, child, lo, la, k); }
    }
  }

  lemma ReadNothing(m: Mem, k: Key, x: Key)
    requires k !in m.ptes && x !in m.ptes
    ensures Read(m, k) == Read(m, x)
  { }

  // ---- discarding runs of pages -------------------------------------------------------------

  /** `n` has lost entries of one range at most. */
  ghost predicate Trimmed(m: Mem, n: Mem, mm: nat, start: nat, end: nat) {
    && (forall k | k in n.ptes :: k in m.ptes)
    && (forall k | !InSpan(k, mm, start, end) :: (k in n.ptes <==> k in m.ptes) && Read(n, k) == Read(m, k))
    && n.areas == m.areas
  }

  lemma TrimNext(m: Mem, n: Mem, n': Mem, mm: nat, start: nat, end: nat, a: nat, b: nat)
    requires Trimmed(m, n, mm, start, end) && Erased(n, n', mm, a, b) && start <= a && b <= end
    ensures Trimmed(m, n', mm, start, end)
  { }

  lemma TrimAll(m: Mem, n: Mem, mm: nat, start: nat, end: nat)
    requires Trimmed(m, n, mm, start, end) && forall k | k in n.ptes :: !InSpan(k, mm, start, end)
    ensures Erased(m, n, mm, start, end)
  { }

  // Every entry of a space lies in one of its areas.
  lemma EntryCovered(m: Mem, k: Key)
    requires Inv(m) && k in m.ptes
    ensures k.mm in m.areas && Scan(m.areas[k.mm], k.la).Some?
  {
    assert Fits(m, k, m.ptes[k]);
  }

  // ---- permission changes ---------------------------------------------------------------------

  /** mm_mprotect on the page table, up to address `la`. */
  function ProtectedPtes(ptes: map<Key, Pte>, mm: nat, start: nat, la: nat, flags: nat): map<Key, Pte> {
    map k | k in ptes :: if InSpan(k, mm, start, la) then Protected(ptes[k], flags) else ptes[k]
  }

  /** The condition under which a write-enabling mprotect keeps spaces apart: every page of the
      range that is not copy-on-write has a single user. */
  predicate Protectable(m: Mem, mm: nat, start: nat, end: nat, flags: nat) {
    CanWrite(flags) ==>
      forall k | k in m.ptes && InSpan(k, mm, start, end) && !m.ptes[k].Swapped? && !m.ptes[k].cow ::
        m.ptes[k].frame in m.refs && m.refs[m.ptes[k].frame] == 1
  }

  function ProtectedMem(m: Mem, mm: nat, start: nat, end: nat, flags: nat, list: seq<Vma>): Mem {
    m.(ptes := ProtectedPtes(m.ptes, mm, start, end, flags), areas := m.areas[mm := list])
  }

  lemma ProtectCount(ptes: map<Key, Pte>, mm: nat, start: nat, end: nat, flags: nat, t: Target)
    ensures Count(ProtectedPtes(ptes, mm, start, end, flags), t) == Count(ptes, t)
  {
    assert Users(ProtectedPtes(ptes, mm, start, end, flags), t) == Users(ptes, t);
  }

  lemma ProtectBalanced(m: Mem, mm: nat, start: nat, end: nat, flags: nat, list: seq<Vma>)
    requires Balanced(m)
    ensures Balanced(ProtectedMem(m, mm, start, end, flags, list))
        && SameReads(m, ProtectedMem(m, mm, start, end, flags, list))
  {
    var n := ProtectedMem(m, mm, start, end, flags, list);
    forall x | x in n.ptes ensures InRange(n, n.ptes[x]) { assert InRange(m, m.ptes[x]); }
    forall f | f in n.refs ensures FrameOk(n, f) {
      assert FrameOk(m, f);
      ProtectCount(m.ptes, mm, start, end, flags, Frame(f));
    }
    forall s | 1 <= s < |n.slotRefs| ensures SlotOk(n, s) {
      assert SlotOk(m, s);
      ProtectCount(m.ptes, mm, start, end, flags, Slot(s));
    }
  }

  /** After mprotect, writable entries are exclusive if and only if the condition held before. */
  lemma ProtectExclusive(m: Mem, mm: nat, start: nat, end: nat, flags: nat, list: seq<Vma>)
    requires Balanced(m) && Exclusive(m)
    ensures Exclusive(ProtectedMem(m, mm, start, end, flags, list)) <==> Protectable(m, mm, start, end, flags)
  {
    var n := ProtectedMem(m, mm, start, end, flags, list);
    forall x | x in n.ptes && Writable(n.ptes[x]) ensures Protectable(m, mm, start, end, flags) ==> Sole(n, x) {
      if Writable(m.ptes[x]) { assert Sole(m, x); }
    }
    if Exclusive(n) && CanWrite(flags) {
      forall k | k in m.ptes && InSpan(k, mm, start, end) && !m.ptes[k].Swapped? && !m.ptes[k].cow
        ensures m.ptes[k].frame in m.refs && m.refs[m.ptes[k].frame] == 1
      {
        assert Writable(n.ptes[k]) && Sole(n, k);
      }
    }
  }

  lemma ProtectPlaced(m: Mem, mm: nat, start: nat, end: nat, flags: nat, list: seq<Vma>)
    requires Placed(m) && mm in m.areas && VmaList.Valid(list) && SetPages(m.areas[mm], list, start, end, Some(flags))
    ensures Placed(ProtectedMem(m, mm, start, end, flags, list))
  {
    var n := ProtectedMem(m, mm, start, end, flags, list);
    forall x | x in n.ptes ensures Fits(n, x, n.ptes[x]) {
      assert Fits(m, x, m.ptes[x]);
      if x.mm == mm {
        assert FlagsAt(list, x.la) == if start <= x.la < end then Some(flags) else FlagsAt(m.areas[mm], x.la);
      }
    }
  }

  lemma ProtectNext(ptes: map<Key, Pte>, mm: nat, start: nat, la: nat, flags: nat)
    requires Aligned(la) && start <= la && forall k | k in ptes :: Aligned(k.la)
    ensures var was, k := ProtectedPtes(ptes, mm, start, la, flags), Key(mm, la);
            ProtectedPtes(ptes, mm, start, la + PGSIZE, flags) == if k in was then was[k := Protected(was[k], flags)]
              else was
  {
    var was, now := ProtectedPtes(ptes, mm, start, la, flags), ProtectedPtes(ptes, mm, start, la + PGSIZE, flags);
    forall k | k in ptes && InSpan(k, mm, la, la + PGSIZE) ensures k == Key(mm, la) { assert Aligned(k.la); }
    assert forall k | k in ptes && k != Key(mm, la) :: now[k] == was[k];
  }

  lemma AllAligned(m: Mem)
    requires Placed(m)
    ensures forall k | k in m.ptes :: Aligned(k.la)
  {
    forall k | k in m.ptes ensures Aligned(k.la) { assert Fits(m, k, m.ptes[k]); }
  }

  // ---- area lists -------------------------------------------------------------------------------

  /** One list changes where no entry is affected. */
  lemma ListKeeps(m: Mem, mm: nat, list: seq<Vma>)
    requires Inv(m) && VmaList.Valid(list)
    requires forall k | k in m.ptes && k.mm == mm :: FlagsAt(list, k.la) == FlagsOf(m, k)
    ensures Inv(m.(areas := m.areas[mm := list])) && SameReads(m, m.(areas := m.areas[mm := list]))
  {
    forall k | k in m.ptes ensures k.mm in m.areas { assert Fits(m, k, m.ptes[k]); }
    AreasKeep(m, m.areas[mm := list]);
  }

  lemma ListDropped(m: Mem, mm: nat)
    requires Inv(m) && forall k | k in m.ptes :: k.mm != mm
    ensures Inv(m.(areas := m.areas - {mm})) && SameReads(m, m.(areas := m.areas - {mm}))
  {
    forall k | k in m.ptes ensures k.mm in m.areas { assert Fits(m, k, m.ptes[k]); }
    AreasKeep(m, m.areas - {mm});
  }

  lemma InsertKeeps(m: Mem, mm: nat, v: Vma, list: seq<Vma>)
    requires Inv(m) && mm in m.areas && !Overlaps(m.areas[mm], v.start, v.end)
    requires VmaList.Valid(list) && SetPages(m.areas[mm], list, v.start, v.end, Some(v.flags))
    ensures Inv(m.(areas := m.areas[mm := list])) && SameReads(m, m.(areas := m.areas[mm := list]))
  {
    forall k | k in m.ptes && k.mm == mm ensures FlagsAt(list, k.la) == FlagsOf(m, k) {
      EntryCovered(m, k);
      var u := Scan(m.areas[mm], k.la).value;
      assert u in m.areas[mm] && Covers(u, k.la);
    }
    ListKeeps(m, mm, list);
  }

  lemma CutKeeps(m: Mem, mm: nat, start: nat, end: nat, node: nat)
    requires Inv(m) && mm in m.areas && start < end && Aligned(start) && Aligned(end) && node !in Ptrs(m.areas[mm])
    requires forall k | k in m.ptes :: !InSpan(k, mm, start, end)
    ensures var list := Cut(m.areas[mm], start, end, node);
            Inv(m.(areas := m.areas[mm := list])) && SameReads(m, m.(areas := m.areas[mm := list]))
  {
    CutPages(m.areas[mm], start, end, node);
    ListKeeps(m, mm, Cut(m.areas[mm], start, end, node));
  }

  // Runs that cover every mapped page of the range leave no entry in it.
  lemma RunsCover(m: Mem, n: Mem, mm: nat, start: nat, end: nat)
    requires Inv(m) && mm in m.areas && forall k | k in n.ptes :: k in m.ptes
    requires forall i, k | 0 <= i < |Clipped(m.areas[mm], start, end)| && k in n.ptes ::
               !InSpan(k, mm, Clipped(m.areas[mm], start, end)[i].0, Clipped(m.areas[mm], start, end)[i].1)
    ensures forall k | k in n.ptes :: !InSpan(k, mm, start, end)
  {
    forall k | k in n.ptes ensures !InSpan(k, mm, start, end) {
      if InSpan(k, mm, start, end) {
        EntryCovered(m, k);
        ClippedCovers(m.areas[mm], start, end, k.la);
      }
    }
  }

  function Bounds(s: seq<Vma>): (r: seq<(nat, nat)>)
    ensures |r| == |s| && forall i | 0 <= i < |s| :: r[i] == (s[i].start, s[i].end)
  {
    seq(|s|, i requires 0 <= i < |s| => (s[i].start, s[i].end))
  }

  lemma BoundsGood(m: Mem, mm: nat)
    requires Inv(m) && mm in m.areas
    ensures forall c | c in Bounds(m.areas[mm]) :: USERBASE <= c.0 <= c.1 <= USERTOP && Aligned(c.0) && Aligned(c.1)
  {
    forall i | 0 <= i < |m.areas[mm]| ensures GoodArea(m.areas[mm][i]) { }
  }

  lemma BoundsCover(m: Mem, n: Mem, mm: nat)
    requires Inv(m) && mm in m.areas && Trimmed(m, n, mm, USERBASE, USERTOP)
    requires forall i, k | 0 <= i < |Bounds(m.areas[mm])| && k in n.ptes ::
               !InSpan(k, mm, Bounds(m.areas[mm])[i].0, Bounds(m.areas[mm])[i].1)
    ensures forall k | k in n.ptes :: k.mm != mm
    ensures forall k: Key | k.mm != mm :: Read(n, k) == Read(m, k)
  {
    forall k | k in n.ptes ensures k.mm != mm {
      if k.mm == mm {
        EntryCovered(m, k);
        var v := Scan(m.areas[mm], k.la).value;
        var i :| 0 <= i < |m.areas[mm]| && m.areas[mm][i] == v;
        assert InSpan(k, mm, Bounds(m.areas[mm])[i].0, Bounds(m.areas[mm])[i].1);
      }
    }
  }

  lemma {:induction false} ClippedWithin(s: seq<Vma>, start: nat, end: nat)
    requires AllGood(s) && start < end && Aligned(start) && Aligned(end)
    ensures forall c | c in Clipped(s, start, end) :: start <= c.0 <= c.1 <= end && Aligned(c.0) && Aligned(c.1)
  {
    if s != [] {
      assert GoodArea(s[0]);
      assert forall i | 0 <= i < |s| :: GoodArea(s[i]);
      ClippedWithin(s[1..], start, end);
    }
  }

  lemma ClippedGood(m: Mem, mm: nat, start: nat, end: nat)
    requires Inv(m) && mm in m.areas && start < end && Aligned(start) && Aligned(end)
    ensures forall c | c in Clipped(m.areas[mm], start, end) ::
        start <= c.0 <= c.1 <= end && Aligned(c.0) && Aligned(c.1)
  {
    ClippedWithin(m.areas[mm], start, end);
  }

  lemma NoEntries(m: Mem, mm: nat)
    requires Inv(m) && mm !in m.areas
    ensures forall k | k in m.ptes :: k.mm != mm
  {
    forall k | k in m.ptes ensures k.mm != mm { EntryCovered(m, k); }
  }

  lemma InsertPlace(s: seq<Vma>, k: nat, v: Vma)
    requires VmaList.Valid(s) && GoodArea(v) && v.ptr !in Ptrs(s) && !Overlaps(s, v.start, v.end) && k <= |s|
    requires forall j | 0 <= j < k :: s[j].start <= v.start
    requires k < |s| ==> v.start < s[k].start
    ensures VmaList.Valid(Inserted(s, k, v)) && SetPages(s, Inserted(s, k, v), v.start, v.end, Some(v.flags))
  {
    assert forall j | 0 <= j < |s| :: s[j] in s && GoodArea(s[j]);
    assert forall j | k < j < |s| :: Before(s[k], s[j]);
    InsertedValid(s, k, v);
    forall a: nat
      ensures FlagsAt(Inserted(s, k, v), a) == if v.start <= a < v.end then Some(v.flags) else FlagsAt(s, a)
    {
      InsertedFlags(s, k, v, a);
    }
  }

  lemma ProtectStart(ptes: map<Key, Pte>, mm: nat, start: nat, flags: nat)
    ensures ptes == ProtectedPtes(ptes, mm, start, start, flags)
  { }

  lemma AlignedNext(la: nat, end: nat)
    requires Aligned(la) && Aligned(end) && la < end
    ensures Aligned(la + PGSIZE) && la + PGSIZE <= end
  { }

  lemma ProtectEnd(m: Mem, mm: nat, start: nat, end: nat, flags: nat, list: seq<Vma>, n: Mem)
    requires n == m.(ptes := n.ptes, areas := m.areas[mm := list])
        && n.ptes == ProtectedPtes(m.ptes, mm, start, end, flags)
    ensures n == ProtectedMem(m, mm, start, end, flags, list)
  { }

  // ---- fork as a whole ------------------------------------------------------------------------

  // Where the areas from `i` on begin.
  function Low(list: seq<Vma>, i: nat): nat { if i < |list| then list[i].start else USERTOP }

  lemma LowEntries(m: Mem, mm: nat, i: nat)
    requires Inv(m) && mm in m.areas && i < |m.areas[mm]|
    ensures var list := m.areas[mm];
            list[i].start < list[i].end <= Low(list, i + 1)
            && forall la | list[i].end <= la < Low(list, i + 1) :: Key(mm, la) !in m.ptes
  {
    var list := m.areas[mm];
    assert GoodArea(list[i]);
    if i + 1 < |list| { assert Before(list[i], list[i + 1]); }
    forall la | list[i].end <= la < Low(list, i + 1) ensures Key(mm, la) !in m.ptes {
      if Key(mm, la) in m.ptes {
        EntryCovered(m, Key(mm, la));
        Gap(list, i, la);
      }
    }
  }

  lemma Gap(s: seq<Vma>, i: nat, la: nat)
    requires VmaList.Valid(s) && i < |s| && s[i].end <= la < Low(s, i + 1)
    ensures Scan(s, la) == None
  {
    forall k | 0 <= k < |s| ensures !Covers(s[k], la) {
      if k < i { OrderedAt(s, k, i); assert GoodArea(s[i]); }
      if i + 1 < k { OrderedAt(s, i + 1, k); assert GoodArea(s[i + 1]); }
    }
    ScanMisses(s, la);
  }

  lemma OutsideEntries(m: Mem, mm: nat, la: nat)
    requires Inv(m) && mm in m.areas && (la < Low(m.areas[mm], 0) || USERTOP <= la)
    ensures Key(mm, la) !in m.ptes
  {
    var s := m.areas[mm];
    if Key(mm, la) in m.ptes {
      EntryCovered(m, Key(mm, la));
      var v := Scan(s, la).value;
      var k :| 0 <= k < |s| && s[k] == v;
      assert GoodArea(s[k]) && GoodArea(s[0]);
      if 0 < k { OrderedAt(s, 0, k); }
    }
  }

  lemma CopyJoin(m: Mem, n: Mem, n': Mem, parent: nat, child: nat, i: nat)
    requires Inv(m) && parent in m.areas && parent != child && i < |m.areas[parent]|
    requires CopiedSpan(m, n, parent, child, Low(m.areas[parent], i + 1), USERTOP)
    requires CopiedSpan(n, n', parent, child, m.areas[parent][i].start, m.areas[parent][i].end)
    requires forall k | k in m.ptes :: k.mm != child
    ensures CopiedSpan(m, n', parent, child, Low(m.areas[parent], i), USERTOP)
  {
    LowEntries(m, parent, i);
    var v, next := m.areas[parent][i], Low(m.areas[parent], i + 1);
    if i + 1 < |m.areas[parent]| { assert GoodArea(m.areas[parent][i + 1]); }
    hide Read;
    forall k ensures Read(n', k) == Read(m, if InSpan(k, child, v.start, USERTOP) then Key(parent, k.la) else k) {
      assert !InSpan(Key(parent, k.la), child, next, USERTOP);
      if InSpan(k, child, v.end, next) { ReadNothing(m, k, Key(parent, k.la)); }
    }
    forall k
      ensures k in n'.ptes <==> k in m.ptes || (InSpan(k, child, v.start, USERTOP) && Key(parent, k.la) in m.ptes)
    {
      if InSpan(k, child, v.end, next) { assert Key(parent, k.la) !in m.ptes; }
    }
    forall k | k in n'.ptes ensures CopiedPte(m.ptes, n'.ptes, parent, child, v.start, USERTOP, k) {
      JoinPte(m, n, n', parent, child, v.start, v.end, next, k);
    }
  }

  lemma JoinPte(m: Mem, n: Mem, n': Mem, parent: nat, child: nat, start: nat, end: nat, next: nat, k: Key)
    requires parent != child && start < end <= next <= USERTOP && k in n'.ptes
        && forall x | x in m.ptes :: x.mm != child
    requires CopiedSpan(m, n, parent, child, next, USERTOP) && CopiedSpan(n, n', parent, child, start, end)
    requires forall la | end <= la < next :: Key(parent, la) !in m.ptes
    ensures CopiedPte(m.ptes, n'.ptes, parent, child, start, USERTOP, k)
  {
    hide Read;
    assert CopiedPte(n.ptes, n'.ptes, parent, child, start, end, k);
    assert CopiedPte(m.ptes, n.ptes, parent, child, next, USERTOP, Origin(k, parent, child, start, end));
  }

  /** The page tables after a fork: the child has the parent's entries, which are read-only in both. */
  ghost predicate ForkedTables(ptes: map<Key, Pte>, ptes': map<Key, Pte>, parent: nat, child: nat) {
    && (forall k: Key :: k in ptes' <==> k in ptes || (k.mm == child && Key(parent, k.la) in ptes))
    && (forall k {:trigger CopiedPte(ptes, ptes', parent, child, 0, USERTOP, k)} | k in ptes' ::
          CopiedPte(ptes, ptes', parent, child, 0, USERTOP, k))
  }

  lemma CopyWhole(m: Mem, n: Mem, parent: nat, child: nat)
    requires Inv(m) && parent in m.areas && parent != child
        && CopiedSpan(m, n, parent, child, Low(m.areas[parent], 0), USERTOP)
    requires forall k | k in m.ptes :: k.mm != child
    ensures forall k: Key :: Read(n, k) == Read(m, if k.mm == child then Key(parent, k.la) else k)
    ensures ForkedTables(m.ptes, n.ptes, parent, child)
  {
    forall k: Key | !(Low(m.areas[parent], 0) <= k.la < USERTOP) ensures Key(parent, k.la) !in m.ptes {
      OutsideEntries(m, parent, k.la);
    }
    forall k | k in n.ptes ensures CopiedPte(m.ptes, n.ptes, parent, child, 0, USERTOP, k) {
      assert CopiedPte(m.ptes, n.ptes, parent, child, Low(m.areas[parent], 0), USERTOP, k);
    }
    forall k: Key ensures Read(n, k) == Read(m, if k.mm == child then Key(parent, k.la) else k) {
      if k.mm == child && !InSpan(k, child, Low(m.areas[parent], 0), USERTOP) {
        OutsideEntries(m, parent, k.la);
      }
    }
  }

  /** Giving the child the next lower area touches none of the pages it already has. */
  lemma ForkArea(m: Mem, n: Mem, parent: nat, child: nat, copy: seq<Vma>, nodes: seq<Option<nat>>, i: nat)
    requires Inv(m) && Inv(n) && parent in m.areas && parent != child && i < |m.areas[parent]| == |nodes|
    requires n.areas == m.areas[child := copy] && |copy| == |nodes| - 1 - i && nodes[i].Some?
    requires forall k | i + 1 <= k < |nodes| :: CopyOf(copy[k - (i + 1)], m.areas[parent][k], nodes[k])
    requires forall a, b | 0 <= a < b < |nodes| && nodes[a].Some? :: nodes[a] != nodes[b]
    requires forall k | k in m.ptes :: k.mm != child
    requires CopiedSpan(m, n, parent, child, Low(m.areas[parent], i + 1), USERTOP)
    ensures var v := m.areas[parent][i];
            var grown := [Vma(nodes[i].value, v.start, v.end, v.flags)] + copy;
            var n' := n.(areas := m.areas[child := grown]);
            && Inv(n') && SameReads(n, n') && Aligned(v.start) && Aligned(v.end) && v.start < v.end
            && (forall k | k in n'.ptes :: !InSpan(k, child, v.start, v.end))
            && (forall la | v.start <= la < v.end :: FlagsOf(n', Key(child, la)) == FlagsOf(n', Key(parent, la)))
  {
    var list := m.areas[parent];
    var v := list[i];
    var first := Vma(nodes[i].value, v.start, v.end, v.flags);
    LowEntries(m, parent, i);
    CopyFits(list, copy, nodes, i);
    assert VmaList.Valid(n.areas[child]);
    GrownValid(first, copy);
    forall k | k in n.ptes && k.mm == child ensures v.end <= k.la && FlagsAt([first] + copy, k.la) == FlagsOf(n, k) {
      FlagsAppend([first], copy, k.la);
    }
    ListKeeps(n, child, [first] + copy);
    assert n.areas[child := [first] + copy] == m.areas[child := [first] + copy];
    forall la | v.start <= la < v.end ensures FlagsAt([first] + copy, la) == FlagsAt(list, la) {
      ScanHits(list, i, la);
    }
  }

  lemma GrownValid(v: Vma, s: seq<Vma>)
    requires GoodArea(v) && VmaList.Valid(s) && v.ptr !in Ptrs(s) && forall i | 0 <= i < |s| :: v.end <= s[i].start
    ensures VmaList.Valid([v] + s)
  {
    assert forall i | 0 <= i < |s| :: s[i].ptr in Ptrs(s);
    ValidAppend([v], s);
  }

  lemma CopyStart(m: Mem, n: Mem, parent: nat, child: nat)
    requires n.ptes == m.ptes && SameReads(m, n) && |n.slotRefs| == |m.slotRefs|
    ensures CopiedSpan(m, n, parent, child, USERTOP, USERTOP)
  { }

  lemma CopiedSame(m: Mem, n: Mem, n': Mem, parent: nat, child: nat, lo: nat)
    requires CopiedSpan(m, n, parent, child, lo, USERTOP) && n'.ptes == n.ptes && SameReads(n, n')
        && |n'.slotRefs| == |n.slotRefs|
    ensures CopiedSpan(m, n', parent, child, lo, USERTOP)
  {
    forall k | k in n'.ptes ensures CopiedPte(m.ptes, n'.ptes, parent, child, lo, USERTOP, k) {
      assert CopiedPte(m.ptes, n.ptes, parent, child, lo, USERTOP, k);
    }
  }

  // What a fork that stops early has done to the other spaces.
  ghost predicate OthersKept(m: Mem, n: Mem, child: nat) {
    && (forall k: Key | k.mm != child :: Read(n, k) == Read(m, k))
    && (forall k: Key | k.mm != child :: k in n.ptes <==> k in m.ptes)
  }

  lemma CopyOthers(m: Mem, n: Mem, parent: nat, child: nat, lo: nat)
    requires CopiedSpan(m, n, parent, child, lo, USERTOP)
    ensures OthersKept(m, n, child)
  { }

  lemma CopyFailed(m: Mem, n: Mem, n': Mem, parent: nat, child: nat, i: nat, stop: nat)
    requires Inv(m) && parent in m.areas && parent != child && i < |m.areas[parent]| && stop < m.areas[parent][i].end
    requires CopiedSpan(m, n, parent, child, Low(m.areas[parent], i + 1), USERTOP)
    requires CopiedSpan(n, n', parent, child, m.areas[parent][i].start, stop)
    requires forall k | k in m.ptes :: k.mm != child
    ensures OthersKept(m, n', child) && CopiedPart(m, n', parent, child, 0, USERTOP, stop)
    ensures |n'.slotRefs| == |m.slotRefs| && stop < USERTOP
  {
    var v, next := m.areas[parent][i], Low(m.areas[parent], i + 1);
    LowEntries(m, parent, i);
    assert GoodArea(v);
    forall k | k in n'.ptes ensures PartPte(m.ptes, n'.ptes, parent, child, 0, USERTOP, stop, k) {
      assert CopiedPte(n.ptes, n'.ptes, parent, child, v.start, stop, k);
      assert CopiedPte(m.ptes, n.ptes, parent, child, next, USERTOP, Origin(k, parent, child, v.start, stop));
    }
  }

  // ---- when fork fails ------------------------------------------------------------------------

  /** The entries of a space in [lo, hi) that name one frame or slot. */
  function Mine(ptes: map<Key, Pte>, mm: nat, lo: nat, hi: nat, t: Target): set<Key> {
    set k | k in ptes && InSpan(k, mm, lo, hi) && TargetOf(ptes[k]) == t
  }

  /** Every swap slot can take as many more references as the space has entries for it. */
  ghost predicate SlotRoom(m: Mem, parent: nat, lo: nat, hi: nat) {
    forall s {:trigger Mine(m.ptes, parent, lo, hi, Slot(s))} | 1 <= s < |m.slotRefs| ::
      m.slotRefs[s] + |Mine(m.ptes, parent, lo, hi, Slot(s))| <= SLOT_MAX
  }

  ghost predicate Copyable(m: Mem, parent: nat, lo: nat, hi: nat, noTable: set<nat>) {
    && (forall la | lo <= la < hi && Key(parent, la) in m.ptes :: la !in noTable)
    && SlotRoom(m, parent, lo, hi)
  }

  /** When fork succeeds: an area structure for each area, a page table wherever the parent has an
      entry, and room in every slot count. */
  ghost predicate Forkable(m: Mem, parent: nat, nodes: seq<Option<nat>>, noTable: set<nat>) {
    None !in nodes && Copyable(m, parent, 0, USERTOP, noTable)
  }

  // Entries of a copy that has not yet reached `stop`.
  predicate PartPte(ptes: map<Key, Pte>, ptes': map<Key, Pte>, parent: nat, child: nat, lo: nat, hi: nat, stop: nat,
      k: Key) {
    && k in ptes'
    && if k in ptes then TargetOf(ptes'[k]) == TargetOf(ptes[k])
       else
         && InSpan(k, child, lo, hi) && k.la != stop && Key(parent, k.la) in ptes
         && TargetOf(ptes'[k]) == TargetOf(ptes[Key(parent, k.la)])
  }

  ghost predicate CopiedPart(m: Mem, n: Mem, parent: nat, child: nat, lo: nat, hi: nat, stop: nat) {
    && (forall k | k in m.ptes :: k in n.ptes)
    && (forall k {:trigger PartPte(m.ptes, n.ptes, parent, child, lo, hi, stop, k)} | k in n.ptes ::
          PartPte(m.ptes, n.ptes, parent, child, lo, hi, stop, k))
  }

  // Pages of one space are as many as the same pages of another.
  lemma {:induction false} Rehomed(a: set<Key>, b: set<Key>, mm: nat)
    requires forall k | k in a :: Key(mm, k.la) in b
    requires forall k, x | k in a && x in a && k.la == x.la :: k == x
    ensures |a| <= |b|
  {
    if a != {} {
      var k :| k in a;
      Rehomed(a - {k}, b - {Key(mm, k.la)}, mm);
    }
  }

  lemma {:induction false} Subset(a: set<Key>, b: set<Key>)
    requires a <= b
    ensures |a| <= |b|
  {
    if a != {} {
      var k :| k in a;
      Subset(a - {k}, b - {k});
    }
  }

  /** A copy that went through had room in every slot count. */
  lemma RoomAfter(m: Mem, n: Mem, parent: nat, child: nat, lo: nat, hi: nat)
    requires Inv(m) && Inv(n) && parent != child && CopiedSpan(m, n, parent, child, lo, hi)
    requires forall k | k in m.ptes :: !InSpan(k, child, lo, hi)
    ensures SlotRoom(m, parent, lo, hi)
  {
    forall s | 1 <= s < |m.slotRefs| ensures m.slotRefs[s] + |Mine(m.ptes, parent, lo, hi, Slot(s))| <= SLOT_MAX {
      assert SlotOk(n, s) && SlotOk(m, s);
      hide Inv;
      UsersAfter(m, n, parent, child, lo, hi, Slot(s));
    }
  }

  lemma UsersAfter(m: Mem, n: Mem, parent: nat, child: nat, lo: nat, hi: nat, t: Target)
    requires parent != child && CopiedSpan(m, n, parent, child, lo, hi)
        && forall k | k in m.ptes :: !InSpan(k, child, lo, hi)
    ensures Count(m.ptes, t) + |Mine(m.ptes, parent, lo, hi, t)| <= Count(n.ptes, t)
  {
    hide Read;
    var mine, copies, was := Mine(m.ptes, parent, lo, hi, t), Mine(n.ptes, child, lo, hi, t), Users(m.ptes, t);
    forall k | k in mine ensures Key(child, k.la) in copies {
      assert CopiedPte(m.ptes, n.ptes, parent, child, lo, hi, Key(child, k.la));
    }
    Rehomed(mine, copies, child);
    forall k | k in was ensures k in Users(n.ptes, t) && k !in copies {
      assert CopiedPte(m.ptes, n.ptes, parent, child, lo, hi, k);
    }
    assert was !! copies && was + copies <= Users(n.ptes, t);
    Subset(was + copies, Users(n.ptes, t));
  }

  /** A copy that met a full slot count had no room for all its entries. */
  lemma NoRoom(m: Mem, n: Mem, parent: nat, child: nat, lo: nat, hi: nat, stop: nat)
    requires Inv(m) && Inv(n) && parent != child && |n.slotRefs| == |m.slotRefs|
        && CopiedPart(m, n, parent, child, lo, hi, stop)
    requires lo <= stop < hi && Key(parent, stop) in m.ptes && Key(parent, stop) in n.ptes
        && n.ptes[Key(parent, stop)].Swapped?
    requires InRange(n, n.ptes[Key(parent, stop)]) && n.slotRefs[n.ptes[Key(parent, stop)].slot] == SLOT_MAX
    ensures !SlotRoom(m, parent, lo, hi)
  {
    var x := Key(parent, stop);
    var s := n.ptes[x].slot;
    var t := Slot(s);
    assert PartPte(m.ptes, n.ptes, parent, child, lo, hi, stop, x) && SlotOk(n, s) && SlotOk(m, s);
    var mine, was, now := Mine(m.ptes, parent, lo, hi, t), Users(m.ptes, t), Users(n.ptes, t);
    var copies := now - was;
    forall k | k in copies ensures Key(parent, k.la) in mine - {x} && k.mm == child {
      assert PartPte(m.ptes, n.ptes, parent, child, lo, hi, stop, k);
    }
    Rehomed(copies, mine - {x}, parent);
    assert x in mine && now == copies + (now * was);
    Subset(now * was, was);
  }

  // What stops a copy at an entry: no page table for the child, or a slot count that is full.
  predicate Blocked(n: Mem, k: Key, noTable: set<nat>) {
    && k in n.ptes
    && (k.la in noTable || (n.ptes[k].Swapped? && InRange(n, n.ptes[k]) && n.slotRefs[n.ptes[k].slot] == SLOT_MAX))
  }

  lemma CopyStopped(m: Mem, n: Mem, parent: nat, child: nat, lo: nat, hi: nat, stop: nat)
    requires Inv(m) && Inv(n) && parent != child && CopiedSpan(m, n, parent, child, lo, stop) && lo <= stop < hi
    requires Key(parent, stop) in n.ptes && n.ptes[Key(parent, stop)].Swapped?
    requires InRange(n, n.ptes[Key(parent, stop)]) && n.slotRefs[n.ptes[Key(parent, stop)].slot] == SLOT_MAX
    requires forall k | k in m.ptes :: !InSpan(k, child, lo, hi)
    ensures !SlotRoom(m, parent, lo, hi)
  {
    forall k | k in n.ptes ensures PartPte(m.ptes, n.ptes, parent, child, lo, hi, stop, k) {
      assert CopiedPte(m.ptes, n.ptes, parent, child, lo, stop, k);
    }
    assert CopiedPte(m.ptes, n.ptes, parent, child, lo, stop, Key(parent, stop));
    NoRoom(m, n, parent, child, lo, hi, stop);
  }

  // No page from `lo` on lacks a page table.
  ghost predicate Tabled(m: Mem, parent: nat, lo: nat, noTable: set<nat>) {
    forall la: nat | lo <= la && Key(parent, la) in m.ptes :: la !in noTable
  }

  lemma TabledNext(m: Mem, n: Mem, parent: nat, child: nat, i: nat, noTable: set<nat>)
    requires Inv(m) && parent in m.areas && parent != child && i < |m.areas[parent]|
    requires CopiedSpan(m, n, parent, child, Low(m.areas[parent], i + 1), USERTOP)
        && Tabled(m, parent, Low(m.areas[parent], i + 1), noTable)
    requires Copyable(n, parent, m.areas[parent][i].start, m.areas[parent][i].end, noTable)
    ensures Tabled(m, parent, Low(m.areas[parent], i), noTable)
  {
    LowEntries(m, parent, i);
    forall la: nat | Low(m.areas[parent], i) <= la && Key(parent, la) in m.ptes ensures la !in noTable {
      assert Key(parent, la) in n.ptes;
    }
  }

  lemma TabledTop(m: Mem, parent: nat, noTable: set<nat>)
    requires Inv(m) && parent in m.areas
    ensures Tabled(m, parent, USERTOP, noTable)
  {
    forall la: nat | USERTOP <= la ensures Key(parent, la) !in m.ptes { OutsideEntries(m, parent, la); }
  }

  lemma ForkWent(m: Mem, n: Mem, parent: nat, child: nat, nodes: seq<Option<nat>>, noTable: set<nat>)
    requires Inv(m) && Inv(n) && parent in m.areas && parent != child && forall i | 0 <= i < |nodes| :: nodes[i].Some?
    requires CopiedSpan(m, n, parent, child, Low(m.areas[parent], 0), USERTOP)
        && Tabled(m, parent, Low(m.areas[parent], 0), noTable)
    requires forall k | k in m.ptes :: k.mm != child
    ensures Forkable(m, parent, nodes, noTable)
  {
    var lo := Low(m.areas[parent], 0);
    RoomAfter(m, n, parent, child, lo, USERTOP);
    forall la: nat | la < lo ensures Key(parent, la) !in m.ptes { OutsideEntries(m, parent, la); }
    forall s | 1 <= s < |m.slotRefs| ensures m.slotRefs[s] + |Mine(m.ptes, parent, 0, USERTOP, Slot(s))| <= SLOT_MAX {
      assert Mine(m.ptes, parent, 0, USERTOP, Slot(s)) == Mine(m.ptes, parent, lo, USERTOP, Slot(s));
    }
  }

  lemma Undone(areas: map<nat, seq<Vma>>, child: nat, copy: seq<Vma>)
    requires child !in areas
    ensures areas[child := copy] - {child} == areas
  { }

  lemma ForkBlocked(m: Mem, n: Mem, parent: nat, child: nat, nodes: seq<Option<nat>>, noTable: set<nat>, stop: nat)
    requires Inv(m) && Inv(n) && parent != child && |n.slotRefs| == |m.slotRefs| && stop < USERTOP
    requires CopiedPart(m, n, parent, child, 0, USERTOP, stop) && Blocked(n, Key(parent, stop), noTable)
    ensures !Forkable(m, parent, nodes, noTable)
  {
    assert PartPte(m.ptes, n.ptes, parent, child, 0, USERTOP, stop, Key(parent, stop));
    if stop !in noTable { NoRoom(m, n, parent, child, 0, USERTOP, stop); }
  }

  // ---- whole runs -----------------------------------------------------------------------------

  /** What every space reads at the start of a run. */
  function View(m: Mem): map<Key, Page> { map k | k in m.ptes :: Read(m, k) }

  ghost predicate Matches(m: Mem, start: Mem, trace: seq<EagerOp>) {
    forall k :: Read(m, k) == EagerRead(View(start), trace, k)
  }

  lemma MatchStart(m: Mem)
    ensures Matches(m, m, [])
  { }

  /** One eager operation after another. */
  function EagerNext(m: Mem, op: EagerOp, k: Key): Page {
    match op
    case Nothing => Read(m, k)
    case WriteByte(k', off, b) => if k == k' then Stored(Read(m, k), off, b) else Read(m, k)
    case CopySpace(parent, child) => Read(m, if k.mm == child then Key(parent, k.la) else k)
    case ZeroRange(mm, start, end) => if InSpan(k, mm, start, end) then ZeroPage else Read(m, k)
    case ZeroSpace(mm) => if k.mm == mm then ZeroPage else Read(m, k)
  }

  lemma MatchStep(m: Mem, n: Mem, start: Mem, trace: seq<EagerOp>, op: EagerOp)
    requires Matches(m, start, trace) && forall k :: Read(n, k) == EagerNext(m, op, k)
    ensures Matches(n, start, trace + [op])
  {
    assert (trace + [op])[..|trace|] == trace;
    forall k ensures Read(n, k) == EagerRead(View(start), trace + [op], k) {
      assert Read(n, k) == EagerNext(m, op, k);
    }
  }

  lemma EagerIdle(m: Mem)
    ensures forall k :: Read(m, k) == EagerNext(m, Nothing, k)
  { }

  lemma AreaValid(m: Mem, mm: nat)
    requires Inv(m) && mm in m.areas
    ensures VmaList.Valid(m.areas[mm])
  { }

  lemma InvAgain(m: Mem)
    requires Balanced(m) && Exclusive(m) && Placed(m)
    ensures Inv(m)
  { }
}
