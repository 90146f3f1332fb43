/** The state of user memory (page tables, frames with reference counts, swap slots with
    reference counts, area lists) as a value, its invariant, and the elementary changes that
    every memory operation is made of. */
module CowState {
  import opened Layout
  import opened VmaList
  import opened AddressSpaces
  import opened PageTables

  const SLOT_MAX: int := 0xffff   // swap_slot_refs is an array of uint16_t

  /** `refs` is `page->ref` for every frame; the frames of `pool` are free. */
  datatype Mem = Mem(
    ptes: map<Key, Pte>, refs: map<nat, int>, data: map<nat, Page>, pool: set<nat>,
    slotRefs: seq<int>, slots: seq<Page>, areas: map<nat, seq<Vma>>)

  predicate InRange(m: Mem, e: Pte) {
    if e.Swapped? then 1 <= e.slot < |m.slotRefs| else e.frame in m.refs
  }

  /** Every count is the number of entries that name the frame or slot, and the free frames are
      exactly those that no entry names. */
  ghost predicate Balanced(m: Mem) {
    && m.refs.Keys == m.data.Keys && m.pool <= m.refs.Keys && |m.slotRefs| == |m.slots|
    && (forall k {:trigger InRange(m, m.ptes[k])} | k in m.ptes :: InRange(m, m.ptes[k]))
    && (forall f {:trigger FrameOk(m, f)} | f in m.refs :: FrameOk(m, f))
    && (forall s {:trigger SlotOk(m, s)} | 1 <= s < |m.slotRefs| :: SlotOk(m, s))
  }

  ghost predicate FrameOk(m: Mem, f: nat) {
    f in m.refs && m.refs[f] == Count(m.ptes, Frame(f)) && (f in m.pool <==> m.refs[f] == 0)
  }

  ghost predicate SlotOk(m: Mem, s: nat) {
    s < |m.slotRefs| && m.slotRefs[s] == Count(m.ptes, Slot(s)) && m.slotRefs[s] <= SLOT_MAX
  }

  /** A writable entry is the only one that names its frame. */
  ghost predicate Exclusive(m: Mem) {
    forall k {:trigger Sole(m, k)} | k in m.ptes && Writable(m.ptes[k]) :: Sole(m, k)
  }

  predicate Sole(m: Mem, k: Key)
    requires k in m.ptes && Writable(m.ptes[k])
  {
    m.ptes[k].frame in m.refs && m.refs[m.ptes[k].frame] == 1
  }

  // The flags of the area around a page.
  function FlagsOf(m: Mem, k: Key): Option<nat> {
    if k.mm in m.areas then FlagsAt(m.areas[k.mm], k.la) else None
  }

  predicate Fits(m: Mem, k: Key, e: Pte) {
    && Aligned(k.la) && FlagsOf(m, k).Some?
    && (e.Present? ==> (e.w <==> CanWrite(FlagsOf(m, k).value) && !e.cow))
    && (e.Hidden? ==> FlagsOf(m, k).value == 0)
  }

  /** Every entry lies in an area.  The hardware may write exactly when the area allows it and the
      page is not copy-on-write, and only a PROT_NONE area has hidden entries. */
  ghost predicate Placed(m: Mem) {
    && (forall k {:trigger Fits(m, k, m.ptes[k])} | k in m.ptes :: Fits(m, k, m.ptes[k]))
    && (forall mm | mm in m.areas :: VmaList.Valid(m.areas[mm]))
  }

  ghost predicate Inv(m: Mem) { Balanced(m) && Exclusive(m) && Placed(m) }

  function Read(m: Mem, k: Key): Page { Contents(m.ptes, m.data, m.slots, k) }

  ghost predicate SameReads(m: Mem, n: Mem) { forall k :: Read(n, k) == Read(m, k) }

  // ---- elementary changes ---------------------------------------------------------------

  function Released(m: Mem, t: Target): Mem
    requires t.Frame? ==> t.f in m.refs
    requires t.Slot? ==> t.s < |m.slotRefs|
  {
    match t
    case Frame(f) => m.(refs := m.refs[f := m.refs[f] - 1], pool := if m.refs[f] == 1 then m.pool + {f} else m.pool)
    case Slot(s) => m.(slotRefs := m.slotRefs[s := m.slotRefs[s] - 1])
  }

  function Acquired(m: Mem, t: Target): Mem
    requires t.Frame? ==> t.f in m.refs
    requires t.Slot? ==> t.s < |m.slotRefs|
  {
    match t
    case Frame(f) => m.(refs := m.refs[f := m.refs[f] + 1], pool := m.pool - {f})
    case Slot(s) => m.(slotRefs := m.slotRefs[s := m.slotRefs[s] + 1])
  }

  /** The entry at `k` is removed, and its frame or slot loses one reference. */
  function Dropped(m: Mem, k: Key): Mem
    requires k in m.ptes && InRange(m, m.ptes[k])
  {
    Released(m, TargetOf(m.ptes[k])).(ptes := m.ptes - {k})
  }

  /** The entry at `k` becomes `e`: the old frame or slot loses a reference, the new one gains it. */
  function Put(m: Mem, k: Key, e: Pte): Mem
    requires k in m.ptes ==> InRange(m, m.ptes[k])
    requires InRange(m, e)
  {
    var n := if k in m.ptes then Released(m, TargetOf(m.ptes[k])) else m;
    Acquired(n, TargetOf(e)).(ptes := m.ptes[k := e])
  }

  lemma DropBalanced(m: Mem, k: Key)
    requires Balanced(m) && k in m.ptes && InRange(m, m.ptes[k])
    ensures Balanced(Dropped(m, k))
  {
    var n := Dropped(m, k);
    forall x | x in n.ptes ensures InRange(n, n.ptes[x]) { assert InRange(m, m.ptes[x]); }
    forall f | f in n.refs ensures FrameOk(n, f) {
      assert FrameOk(m, f);
      CountDrop(m.ptes, k, Frame(f));
    }
    forall s | 1 <= s < |n.slotRefs| ensures SlotOk(n, s) {
      assert SlotOk(m, s);
      CountDrop(m.ptes, k, Slot(s));
    }
  }

  // The slot an entry is put in has room for one more reference.
  predicate Room(m: Mem, k: Key, e: Pte) {
    && InRange(m, e)
    && (e.Swapped? ==> m.slotRefs[e.slot] < SLOT_MAX || (k in m.ptes && TargetOf(m.ptes[k]) == TargetOf(e)))
  }

  lemma PutFrameOk(m: Mem, k: Key, e: Pte, f: nat)
    requires Balanced(m) && InRange(m, e) && (k in m.ptes ==> InRange(m, m.ptes[k])) && f in m.refs
    ensures FrameOk(Put(m, k, e), f)
  {
    assert FrameOk(m, f);
    if k in m.ptes { CountPositive(m.ptes, k); }
    CountPut(m.ptes, k, e, Frame(f));
    assert TargetOf(e) == Frame(f) ==> Count(m.ptes[k := e], Frame(f)) >= 1 by { CountPositive(m.ptes[k := e], k); }
  }

  lemma PutSlotOk(m: Mem, k: Key, e: Pte, s: nat)
    requires Balanced(m) && Room(m, k, e) && (k in m.ptes ==> InRange(m, m.ptes[k])) && 1 <= s < |m.slotRefs|
    ensures SlotOk(Put(m, k, e), s)
  {
    assert SlotOk(m, s);
    CountPut(m.ptes, k, e, Slot(s));
  }

  lemma PutBalanced(m: Mem, k: Key, e: Pte)
    requires Balanced(m) && Room(m, k, e)
    ensures (k in m.ptes ==> InRange(m, m.ptes[k])) && Balanced(Put(m, k, e))
  {
    assert k in m.ptes ==> InRange(m, m.ptes[k]);
    var n := Put(m, k, e);
    forall x | x in n.ptes ensures InRange(n, n.ptes[x]) { if x != k { assert InRange(m, m.ptes[x]); } }
    forall f | f in n.refs ensures FrameOk(n, f) { PutFrameOk(m, k, e, f); }
    forall s | 1 <= s < |n.slotRefs| ensures SlotOk(n, s) { PutSlotOk(m, k, e, s); }
  }

  // A count of one for each frame with a writable entry.
  lemma Soles(m: Mem, k: Key)
    requires Balanced(m) && k in m.ptes && Writable(m.ptes[k])
    ensures m.ptes[k].frame in m.refs
    ensures Sole(m, k) <==> Count(m.ptes, Frame(m.ptes[k].frame)) == 1
  {
    assert InRange(m, m.ptes[k]);
    assert FrameOk(m, m.ptes[k].frame);
  }

  /** Dropping an entry keeps the whole invariant and zeroes one page of one space. */
  lemma DropKeeps(m: Mem, k: Key)
    requires Inv(m) && k in m.ptes
    ensures InRange(m, m.ptes[k]) && Inv(Dropped(m, k))
    ensures forall x :: Read(Dropped(m, k), x) == if x == k then ZeroPage else Read(m, x)
  {
    assert InRange(m, m.ptes[k]);
    var n := Dropped(m, k);
    DropBalanced(m, k);
    forall x | x in n.ptes && Writable(n.ptes[x]) ensures Sole(n, x) {
      assert Sole(m, x);
      Soles(m, x);
      Soles(n, x);
      CountDrop(m.ptes, k, Frame(n.ptes[x].frame));
      CountPositive(n.ptes, x);
    }
    forall x | x in n.ptes ensures Fits(n, x, n.ptes[x]) { assert Fits(m, x, m.ptes[x]); }
  }

  // Nobody else names the frame of a writable entry.
  ghost predicate Unshared(m: Mem, k: Key, e: Pte) {
    forall x | x in m.ptes && x != k && TargetOf(m.ptes[x]) == TargetOf(e) :: !Writable(m.ptes[x]) && !Writable(e)
  }

  lemma PutSole(m: Mem, k: Key, e: Pte, x: Key)
    requires Balanced(m) && Exclusive(m) && Room(m, k, e) && Unshared(m, k, e)
    requires k in m.ptes ==> InRange(m, m.ptes[k])
    requires Balanced(Put(m, k, e)) && x in Put(m, k, e).ptes && Writable(Put(m, k, e).ptes[x])
    ensures Sole(Put(m, k, e), x)
  {
    var n := Put(m, k, e);
    Soles(n, x);
    if x == k {
      OnlyUser(n.ptes, k);
    } else {
      assert Sole(m, x);
      Soles(m, x);
      CountPut(m.ptes, k, e, Frame(n.ptes[x].frame));
      CountPositive(n.ptes, x);
    }
  }

  /** Writing an entry keeps the invariant when a writable entry gets a frame nobody else names. */
  lemma PutKeeps(m: Mem, k: Key, e: Pte)
    requires Inv(m) && Room(m, k, e) && Fits(m, k, e) && Unshared(m, k, e)
    ensures (k in m.ptes ==> InRange(m, m.ptes[k])) && Inv(Put(m, k, e))
    ensures forall x | x != k :: Read(Put(m, k, e), x) == Read(m, x)
  {
    PutBalanced(m, k, e);
    var n := Put(m, k, e);
    forall x | x in n.ptes && Writable(n.ptes[x]) ensures Sole(n, x) { PutSole(m, k, e, x); }
    PutPlaced(m, k, e);
  }

  lemma PutPlaced(m: Mem, k: Key, e: Pte)
    requires Placed(m) && InRange(m, e) && Fits(m, k, e) && (k in m.ptes ==> InRange(m, m.ptes[k]))
    ensures Placed(Put(m, k, e))
  {
    var n := Put(m, k, e);
    forall x | x in n.ptes ensures Fits(n, x, n.ptes[x]) { if x != k { assert Fits(m, x, m.ptes[x]); } }
  }

  lemma OnlyUser(ptes: map<Key, Pte>, k: Key)
    requires k in ptes && forall x | x in ptes && x != k :: TargetOf(ptes[x]) != TargetOf(ptes[k])
    ensures Count(ptes, TargetOf(ptes[k])) == 1
  {
    assert Users(ptes, TargetOf(ptes[k])) == {k};
  }

  // The parts of the invariant that contents do not enter.
  lemma SameShape(m: Mem, n: Mem)
    requires Inv(m) && n == m.(data := n.data, slots := n.slots)
    requires n.data.Keys == m.data.Keys && |n.slots| == |m.slots|
    ensures Inv(n)
  {
    forall x | x in n.ptes ensures InRange(n, n.ptes[x]) && Fits(n, x, n.ptes[x]) {
      assert InRange(m, m.ptes[x]) && Fits(m, x, m.ptes[x]);
    }
    forall x | x in n.ptes && Writable(n.ptes[x]) ensures Sole(n, x) { assert Sole(m, x); }
    forall f | f in n.refs ensures FrameOk(n, f) { assert FrameOk(m, f); }
    forall s | 1 <= s < |n.slotRefs| ensures SlotOk(n, s) { assert SlotOk(m, s); }
  }

  /** Filling a free frame shows nowhere. */
  lemma FillFree(m: Mem, f: nat, p: Page)
    requires Inv(m) && f in m.pool
    ensures Inv(m.(data := m.data[f := p])) && SameReads(m, m.(data := m.data[f := p]))
    ensures forall x | x in m.ptes :: TargetOf(m.ptes[x]) != Frame(f)
  {
    assert FrameOk(m, f);
    forall x | x in m.ptes ensures TargetOf(m.ptes[x]) != Frame(f) { CountNone(m.ptes, Frame(f), x); }
    SameShape(m, m.(data := m.data[f := p]));
  }

  /** A store through a writable entry shows in one space only. */
  lemma StoreKeeps(m: Mem, k: Key, p: Page)
    requires Inv(m) && k in m.ptes && Writable(m.ptes[k])
    ensures var n := m.(data := m.data[m.ptes[k].frame := p]);
            Inv(n) && forall x :: Read(n, x) == if x == k then p else Read(m, x)
  {
    var f := m.ptes[k].frame;
    var n := m.(data := m.data[f := p]);
    assert Sole(m, k);
    Soles(m, k);
    forall x ensures Read(n, x) == if x == k then p else Read(m, x) {
      if x in m.ptes && TargetOf(m.ptes[x]) == Frame(f) { CountOne(m.ptes, Frame(f), k, x); }
    }
    SameShape(m, n);
  }

  /** Filling a free swap slot shows nowhere. */
  lemma FillSlot(m: Mem, s: nat, p: Page)
    requires Inv(m) && 1 <= s < |m.slotRefs| && m.slotRefs[s] == 0
    ensures |m.slots| == |m.slotRefs|
    ensures Inv(m.(slots := m.slots[s := p])) && SameReads(m, m.(slots := m.slots[s := p]))
    ensures forall x | x in m.ptes :: TargetOf(m.ptes[x]) != Slot(s)
  {
    assert SlotOk(m, s);
    forall x | x in m.ptes ensures TargetOf(m.ptes[x]) != Slot(s) { CountNone(m.ptes, Slot(s), x); }
    SameShape(m, m.(slots := m.slots[s := p]));
  }

  /** New area lists keep the invariant when every entry still lies in an area with the same flags. */
  lemma AreasKeep(m: Mem, areas: map<nat, seq<Vma>>)
    requires Inv(m)
    requires forall mm | mm in areas :: VmaList.Valid(areas[mm])
    requires forall k | k in m.ptes :: k.mm in areas && FlagsAt(areas[k.mm], k.la) == FlagsOf(m, k)
    ensures Inv(m.(areas := areas)) && SameReads(m, m.(areas := areas))
  {
    var n := m.(areas := areas);
    forall x | x in n.ptes ensures InRange(n, n.ptes[x]) && Fits(n, x, n.ptes[x]) {
      assert InRange(m, m.ptes[x]) && Fits(m, x, m.ptes[x]);
    }
    forall x | x in n.ptes && Writable(n.ptes[x]) ensures Sole(n, x) { assert Sole(m, x); }
    forall f | f in n.refs ensures FrameOk(n, f) { assert FrameOk(m, f); }
    forall s | 1 <= s < |n.slotRefs| ensures SlotOk(n, s) { assert SlotOk(m, s); }
  }
}
