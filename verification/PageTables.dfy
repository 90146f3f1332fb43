/** Page-table entries as values, and the counting of the entries that name a physical frame
    or a swap slot. */
module PageTables {
  import opened Layout
  import opened VmaList
  import opened AddressSpaces

  // An address space and a page-aligned address in it.
  datatype Key = Key(mm: nat, la: nat)

  /** `Present` has PTE_P; `Hidden` is the software-only PTE_MPROTECT form that retains its frame
      under PROT_NONE; `Swapped` holds a swap slot.  An absent entry is a missing key. */
  datatype Pte =
    | Present(frame: nat, w: bool, cow: bool)
    | Hidden(frame: nat, w: bool, cow: bool)
    | Swapped(slot: nat)

  // The bytes of a page by offset; a missing byte is zero.
  type Page = map<nat, Byte>

  const ZeroPage: Page := map[]

  function Stored(p: Page, off: nat, b: Byte): Page { p[off := b] }

  // What an entry counts against: a frame or a swap slot.
  datatype Target = Frame(f: nat) | Slot(s: nat)

  function TargetOf(e: Pte): Target { if e.Swapped? then Slot(e.slot) else Frame(e.frame) }

  predicate Writable(e: Pte) { !e.Swapped? && e.w }

  function Users(ptes: map<Key, Pte>, t: Target): set<Key> { set k | k in ptes && TargetOf(ptes[k]) == t }

  function Count(ptes: map<Key, Pte>, t: Target): nat { |Users(ptes, t)| }

  function Hit(b: bool): nat { if b then 1 else 0 }

  lemma CountPut(ptes: map<Key, Pte>, k: Key, e: Pte, t: Target)
    ensures Count(ptes[k := e], t) ==
            Count(ptes, t) - Hit(k in ptes && TargetOf(ptes[k]) == t) + Hit(TargetOf(e) == t)
  {
    var u := Users(ptes, t);
    assert Users(ptes[k := e], t) == if TargetOf(e) == t then u + {k} else u - {k};
  }

  lemma CountDrop(ptes: map<Key, Pte>, k: Key, t: Target)
    ensures Count(ptes - {k}, t) == Count(ptes, t) - Hit(k in ptes && TargetOf(ptes[k]) == t)
  {
    assert Users(ptes - {k}, t) == Users(ptes, t) - {k};
  }

  lemma CountNone(ptes: map<Key, Pte>, t: Target, k: Key)
    requires Count(ptes, t) == 0 && k in ptes
    ensures TargetOf(ptes[k]) != t
  {
    assert k !in Users(ptes, t);
  }

  lemma CountOne(ptes: map<Key, Pte>, t: Target, k: Key, k': Key)
    requires Count(ptes, t) == 1 && k in ptes && k' in ptes && TargetOf(ptes[k]) == TargetOf(ptes[k']) == t
    ensures k == k'
  {
    var u := Users(ptes, t);
    assert k in u && k' in u && |u - {k}| == 0;
    assert k' !in u - {k};
  }

  lemma CountPositive(ptes: map<Key, Pte>, k: Key)
    requires k in ptes
    ensures Count(ptes, TargetOf(ptes[k])) >= 1
  {
    assert k in Users(ptes, TargetOf(ptes[k]));
  }

  // ---- entry transitions --------------------------------------------------------------

  /** fork leaves a writable entry read-only and marked copy-on-write, in both spaces. */
  function Forked(e: Pte): Pte { if Writable(e) then e.(w := false, cow := true) else e }

  /** mprotect hides an entry under PROT_NONE, and otherwise grants W exactly when the new flags
      allow it and the page is not copy-on-write. */
  function Protected(e: Pte, flags: nat): Pte {
    if e.Swapped? then e
    else if flags == 0 then Hidden(e.frame, e.w, e.cow)
    else Present(e.frame, CanWrite(flags) && !e.cow, e.cow)
  }

  // ---- what an address space reads -----------------------------------------------------

  /** The contents behind an entry; an untouched page reads as zeros. */
  function Contents(ptes: map<Key, Pte>, data: map<nat, Page>, slots: seq<Page>, k: Key): Page {
    if k !in ptes then ZeroPage
    else match TargetOf(ptes[k])
      case Frame(f) => if f in data then data[f] else ZeroPage
      case Slot(s) => if s < |slots| then slots[s] else ZeroPage
  }

  // ---- the reference: memory that copies eagerly -----------------------------------------

  datatype EagerOp =
    | Nothing
    | WriteByte(k: Key, off: nat, b: Byte)
    | CopySpace(parent: nat, child: nat)
    | ZeroRange(mm: nat, start: nat, end: nat)
    | ZeroSpace(mm: nat)

  predicate InSpan(k: Key, mm: nat, start: nat, end: nat) { k.mm == mm && start <= k.la < end }

  /** What `k` reads after `ops` in a memory without page tables, in which fork copies every page
      at once.  `m` is the initial memory; a missing page is zero. */
  function EagerRead(m: map<Key, Page>, ops: seq<EagerOp>, k: Key): Page {
    if ops == [] then (if k in m then m[k] else ZeroPage)
    else
      var before := ops[..|ops| - 1];
      match ops[|ops| - 1]
      case Nothing => EagerRead(m, before, k)
      case WriteByte(k', off, b) =>
        if k == k' then Stored(EagerRead(m, before, k), off, b) else EagerRead(m, before, k)
      case CopySpace(parent, child) =>
        EagerRead(m, before, if k.mm == child then Key(parent, k.la) else k)
      case ZeroRange(mm, start, end) =>
        if InSpan(k, mm, start, end) then ZeroPage else EagerRead(m, before, k)
      case ZeroSpace(mm) =>
        if k.mm == mm then ZeroPage else EagerRead(m, before, k)
  }
}
