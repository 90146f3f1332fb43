/** An address space (`mm_struct`): the sorted area list with its length, lookup cache and
    program break, updated in place by `mm_map`, `mm_unmap`, `mm_mprotect`, `mm_brk` and
    `dup_mmap`.  Allocation of an area structure is a parameter: `None` is a failed `kmalloc`. */
module AddressSpaces {
  import opened Layout
  import opened VmaList

  const VM_READ: nat := 1
  const VM_WRITE: nat := 2
  const VM_RW: nat := 3

  predicate CanWrite(flags: nat) { flags / 2 % 2 == 1 }
  predicate CanRead(flags: nat) { flags % 2 == 1 || flags / 4 % 2 == 1 }   // VM_READ | VM_EXEC
  predicate IsStack(flags: nat) { flags / 8 % 2 == 1 }

  /** The page range a request names, or `None` when the request is malformed. */
  function MapRange(addr: Addr, len: Addr, flags: nat): Option<(nat, nat)> {
    var start, end := RoundDown(addr), RoundUp(Wrap(addr + len));
    if len == 0 || addr + len >= WORD || flags >= 16 || end <= start || !UserAccess(start, end) then None
    else Some((start, end))
  }

  function ExactRange(addr: Addr, len: Addr): Option<(nat, nat)> {
    var end := RoundUp(Wrap(addr + len));
    if len == 0 || !Aligned(addr) || addr + len >= WORD || end <= addr || !UserAccess(addr, end) then None
    else Some((addr, end))
  }

  // `SetPages` is the map after [start, end) has been given one value.
  ghost predicate SetPages(s: seq<Vma>, t: seq<Vma>, start: nat, end: nat, value: Option<nat>) {
    forall a: nat :: FlagsAt(t, a) == if start <= a < end then value else FlagsAt(s, a)
  }

  ghost predicate SamePages(s: seq<Vma>, t: seq<Vma>) {
    forall a: nat :: FlagsAt(t, a) == FlagsAt(s, a)
  }

  // Room for `size` bytes at `c` below the stack reservation.
  ghost predicate Hole(s: seq<Vma>, c: nat, size: nat) {
    USERBASE <= c && Aligned(c) && c + size <= MMAP_LIMIT && !Overlaps(s, c, c + size)
  }

  lemma NoOverlap(s: seq<Vma>, start: nat, end: nat, i: nat)
    requires Valid(s) && start < end && i <= |s|
    requires forall j | 0 <= j < i :: s[j].end <= start
    requires i < |s| ==> end <= s[i].start
    ensures !Overlaps(s, start, end)
  {
    forall v | v in s ensures !(v.start < end && start < v.end) {
      var j :| 0 <= j < |s| && s[j] == v;
      if i < j { assert Before(s[i], s[j]) && GoodArea(s[i]); }
    }
  }

  lemma RestOutside(s: seq<Vma>, start: nat, end: nat, node: nat)
    requires Valid(s) && start < end && (s != [] ==> end <= s[0].start)
    ensures Cut(s, start, end, node) == s && Clipped(s, start, end) == []
    ensures forall v | v in s :: !Straddles(v, start, end)
  {
    assert forall k | 0 < k < |s| :: Before(s[0], s[k]);
    assert s != [] ==> GoodArea(s[0]);
    CutOutside(s, start, end, node);
  }

  lemma AfterStraddler(s: seq<Vma>, start: nat, end: nat, node: nat)
    requires Valid(s) && start < end && s != [] && Straddles(s[0], start, end)
    ensures Clipped(s, start, end) == [(start, end)] && s[0] in s
  {
    ValidPart(s, 1, |s|);
    assert |s| > 1 ==> Before(s[0], s[1]);
    RestOutside(s[1..], start, end, node);
  }

  lemma Rejoin<T>(s: seq<T>, i: nat)
    requires i <= |s|
    ensures s == s[..i] + s[i..]
  { }

  lemma CutPages(s: seq<Vma>, start: nat, end: nat, node: nat)
    requires Valid(s) && Aligned(start) && Aligned(end) && start < end && node !in Ptrs(s)
    ensures Valid(Cut(s, start, end, node)) && SetPages(s, Cut(s, start, end, node), start, end, None)
  {
    CutValid(s, start, end, node);
    assert forall i | 0 <= i < |s| :: GoodArea(s[i]);
    forall a: nat ensures FlagsAt(Cut(s, start, end, node), a) == if start <= a < end then None else FlagsAt(s, a) {
      CutFlags(s, start, end, node, a);
    }
  }

  // Which structures remain when the area at `i` gives way to `q`.
  lemma PtrsAfter(s: seq<Vma>, t: seq<Vma>, i: nat, q: seq<Vma>)
    requires i < |s| && t == s[..i] + q + s[i + 1..]
    ensures forall p | p in Ptrs(s) && p != s[i].ptr :: p in Ptrs(t)
    ensures Ptrs(q) <= Ptrs(t)
  {
    forall p | p in Ptrs(s) && p != s[i].ptr ensures p in Ptrs(t) {
      var k :| 0 <= k < |s| && s[k].ptr == p;
      assert s[k] == t[if k < i then k else k - 1 + |q|];
    }
    forall p | p in Ptrs(q) ensures p in Ptrs(t) {
      var k :| 0 <= k < |q| && q[k].ptr == p;
      assert q[k] == t[i + k];
    }
  }

  lemma NotCovered(s: seq<Vma>, i: nat, a: nat)
    requires Valid(s) && i <= |s|
    requires forall k | 0 <= k < i :: s[k].end <= a
    requires i < |s| ==> a < s[i].start
    ensures Scan(s, a) == None
  {
    assert forall k | i < k < |s| && i < |s| :: Before(s[i], s[k]);
    assert i < |s| ==> GoodArea(s[i]);
    ScanMisses(s, a);
  }

  lemma OrderedAt(s: seq<Vma>, i: nat, k: nat)
    requires Valid(s) && i < k < |s|
    ensures s[i].end <= s[k].start
  {
    assert Before(s[i], s[k]);
  }

  lemma ScanIndex(s: seq<Vma>, a: nat)
    requires Scan(s, a).Some?
    ensures exists k | 0 <= k < |s| :: Covers(s[k], a)
  {
    var v := Scan(s, a).value;
    var k :| 0 <= k < |s| && s[k] == v;
  }

  // The first area that ends after `a` covers `a` when some area does.
  lemma FirstCovers(s: seq<Vma>, i: nat, a: nat)
    requires Valid(s) && i < |s| && a < s[i].end
    requires exists k | i <= k < |s| :: Covers(s[k], a)
    ensures Covers(s[i], a)
  {
    var k :| i <= k < |s| && Covers(s[k], a);
    if i < k { OrderedAt(s, i, k); }
  }

  // An area that starts or ends at x leaves no area with x strictly inside.
  lemma NoSplit(s: seq<Vma>, i: nat, x: nat)
    requires Valid(s) && i < |s| && (s[i].start == x || s[i].end == x)
    ensures !SplitsAt(s, x)
  {
    assert GoodArea(s[i]);
    forall v | v in s ensures !(v.start < x < v.end) {
      var k :| 0 <= k < |s| && s[k] == v;
      assert (k < i ==> Before(s[k], s[i])) && (i < k ==> Before(s[i], s[k]));
    }
  }

  lemma SplitKeeps(s: seq<Vma>, x: nat, node: Option<nat>)
    requires Valid(s)
    ensures SamePages(s, SplitAt(s, x, if node.Some? then node.value else 0))
  {
    forall a: nat ensures FlagsAt(SplitAt(s, x, if node.Some? then node.value else 0), a) == FlagsAt(s, a) {
      SplitAtFlags(s, x, if node.Some? then node.value else 0, a);
    }
  }

  lemma CoveredSame(s: seq<Vma>, t: seq<Vma>, start: nat, end: nat)
    requires SamePages(s, t) && Covered(s, start, end)
    ensures Covered(t, start, end)
  {
    forall a | start <= a < end ensures Scan(t, a).Some? { assert FlagsAt(t, a) == FlagsAt(s, a); }
  }

  // The left split neither adds nor removes the need for a right split.
  lemma SplitOther(s: seq<Vma>, x: nat, y: nat, node: nat)
    requires Valid(s) && x < y
    ensures SplitsAt(SplitAt(s, x, node), y) <==> SplitsAt(s, y)
  {
    SplitAtEdges(s, x, node);
    if SplitsAt(s, y) {
      var k :| 0 <= k < |s| && s[k].start < y < s[k].end;
      if SplitsAt(s, x) {
        var i :| 0 <= i < |s| && s[i].start < x < s[i].end;
        SplitAtPlace(s, x, node, i);
        assert k < i ==> Before(s[k], s[i]);
        assert SplitAt(s, x, node)[k + 1].start < y < SplitAt(s, x, node)[k + 1].end;
      } else {
        SplitAtNone(s, x, node);
      }
    }
  }

  /** Mapping at a hole that get_unmapped_area found cannot fail for its range or an overlap. */
  lemma MapAtHole(s: seq<Vma>, r: nat, len: Addr, flags: nat)
    requires len != 0 && len + PGSIZE <= WORD && flags < 16 && Hole(s, r, RoundUp(len))
    ensures r < WORD && MapRange(r, len, flags) == Some((r, r + RoundUp(len)))
    ensures !Overlaps(s, r, r + RoundUp(len))
  {
    RoundUpSum(r, len);
  }

  lemma RoundUpSum(r: nat, len: Addr)
    requires Aligned(r) && len + PGSIZE <= WORD && r + RoundUp(len) <= MMAP_LIMIT
    ensures len <= RoundUp(len) && r + len < WORD && RoundUp(r + len) == r + RoundUp(len)
  {
    var k := r / PGSIZE;
    assert r == PGSIZE * k;
    var m := len + (PGSIZE - 1);
    assert RoundUp(len) == m - m % PGSIZE;
    assert (PGSIZE * k + m) % PGSIZE == m % PGSIZE;
  }

  // A hole of the wanted size that starts no lower than `candidate` starts after `v`.
  lemma PastArea(s: seq<Vma>, v: Vma, c: nat, size: nat, candidate: nat)
    requires Hole(s, c, size) && v in s && candidate <= c
    requires !(v.start >= candidate && v.start - candidate >= size && candidate + size <= MMAP_LIMIT)
    requires candidate + size <= MMAP_LIMIT
    ensures v.end <= c
  {
    assert !(v.start < c + size && c < v.end);
  }

  ghost predicate Permits(s: seq<Vma>, a: nat, write: bool) {
    match Scan(s, a)
    case None => false
    case Some(v) =>
      && (if write then CanWrite(v.flags) else CanRead(v.flags))
      && (write && IsStack(v.flags) ==> v.start + PGSIZE <= a)
  }

  predicate CopyOf(v: Vma, w: Vma, node: Option<nat>) {
    v.start == w.start && v.end == w.end && v.flags == w.flags && node == Some(v.ptr)
  }

  lemma AllCopied(s: seq<Vma>, from: seq<Vma>, nodes: seq<Option<nat>>)
    requires |s| == |from| == |nodes|
    requires forall i | 0 <= i < |from| :: CopyOf(s[i - (|from| - |s|)], from[i], nodes[i])
    ensures SameAreas(s, from) && forall i | 0 <= i < |s| :: nodes[i] == Some(s[i].ptr)
  {
    forall i | 0 <= i < |s| ensures CopyOf(s[i], from[i], nodes[i]) {
      assert CopyOf(s[i - (|from| - |s|)], from[i], nodes[i]);
    }
  }

  lemma CopyFits(from: seq<Vma>, s: seq<Vma>, nodes: seq<Option<nat>>, j: nat)
    requires Valid(from) && j < |from| == |nodes| && nodes[j].Some? && |s| == |from| - 1 - j
    requires forall i | j + 1 <= i < |from| :: CopyOf(s[i - (j + 1)], from[i], nodes[i])
    requires forall i, k | 0 <= i < k < |nodes| && nodes[i].Some? :: nodes[i] != nodes[k]
    ensures GoodArea(from[j]) && nodes[j].value !in Ptrs(s)
    ensures forall i | 0 <= i < |s| :: from[j].end <= s[i].start
  {
    assert GoodArea(from[j]);
    forall i | 0 <= i < |s| ensures from[j].end <= s[i].start && s[i].ptr != nodes[j].value {
      assert Before(from[j], from[j + 1 + i]) && CopyOf(s[j + 1 + i - (j + 1)], from[j + 1 + i], nodes[j + 1 + i]);
    }
  }

  // ---- the heap area --------------------------------------------------------------------------

  // Two areas do not cover the same address.
  lemma NotBoth(s: seq<Vma>, i: nat, k: nat, a: nat)
    requires Valid(s) && i < |s| && k < |s| && i != k && Covers(s[i], a)
    ensures !Covers(s[k], a)
  {
    if i < k { OrderedAt(s, i, k); } else { OrderedAt(s, k, i); }
  }

  // The area at index k ends at e instead.
  function Resized(s: seq<Vma>, k: nat, e: nat): seq<Vma>
    requires k < |s|
  { s[k := s[k].(end := e)] }

  ghost predicate Resizable(s: seq<Vma>, k: nat, e: nat) {
    Valid(s) && k < |s| && Aligned(e) && s[k].start < e <= USERTOP && (k + 1 < |s| ==> e <= s[k + 1].start)
  }

  lemma ResizeValid(s: seq<Vma>, k: nat, e: nat)
    requires Resizable(s, k, e)
    ensures Valid(Resized(s, k, e)) && Ptrs(Resized(s, k, e)) == Ptrs(s)
  {
    var t := Resized(s, k, e);
    assert forall i | 0 <= i < |s| :: t[i].ptr == s[i].ptr && t[i].start == s[i].start;
    assert GoodArea(s[k]);
    forall j | k < j < |s| ensures e <= s[j].start {
      if j > k + 1 { OrderedAt(s, k + 1, j); assert GoodArea(s[k + 1]); }
    }
    forall i, j | 0 <= i < j < |t| ensures Before(t[i], t[j]) { assert Before(s[i], s[j]); }
    forall i | 0 <= i < |t| ensures GoodArea(t[i]) { assert GoodArea(s[i]); }
  }

  lemma ResizePtrs(s: seq<Vma>, k: nat, e: nat)
    requires k < |s|
    ensures Ptrs(Resized(s, k, e)) == Ptrs(s)
  {
    var t := Resized(s, k, e);
    assert forall i | 0 <= i < |s| :: t[i].ptr == s[i].ptr;
  }

  /** Moving an area's end keeps the list in order exactly when it still ends before the next area. */
  lemma ResizeExact(s: seq<Vma>, k: nat, e: nat)
    requires Valid(s) && k < |s| && Aligned(e) && e <= USERTOP
    ensures Valid(Resized(s, k, e)) <==> Resizable(s, k, e)
  {
    var t := Resized(s, k, e);
    if Resizable(s, k, e) { ResizeValid(s, k, e); }
    if Valid(t) {
      assert GoodArea(t[k]);
      if k + 1 < |s| { assert Before(t[k], t[k + 1]); }
    }
  }

  function ResizedFlags(s: seq<Vma>, k: nat, e: nat, a: nat): Option<nat>
    requires k < |s|
  { if s[k].end <= a < e then Some(s[k].flags) else if e <= a < s[k].end then None else FlagsAt(s, a) }

  /** Moving an area's end gives or takes exactly the pages between the two ends. */
  lemma ResizeFlags(s: seq<Vma>, k: nat, e: nat, a: nat)
    requires Resizable(s, k, e)
    ensures FlagsAt(Resized(s, k, e), a) == ResizedFlags(s, k, e, a)
  {
    var t := Resized(s, k, e);
    ResizeValid(s, k, e);
    assert GoodArea(s[k]);
    if j :| 0 <= j < |s| && Covers(t[j], a) {
      ScanHits(t, j, a);
      if j != k || a < s[k].end { ScanHits(s, j, a); }
      if j != k { NotBoth(t, j, k, a); NotBoth(s, j, k, a); }
    } else {
      ScanMisses(t, a);
      forall j | 0 <= j < |s| && j != k ensures !Covers(s[j], a) { assert t[j] == s[j]; }
      if !Covers(s[k], a) { ScanMisses(s, a); }
    }
  }

  lemma RemoveFlags(s: seq<Vma>, k: nat, a: nat)
    requires Valid(s) && k < |s|
    ensures Valid(s[..k] + s[k + 1..]) && FlagsAt(s[..k] + s[k + 1..], a) == if Covers(s[k], a) then None
        else FlagsAt(s, a)
  {
    var t := s[..k] + s[k + 1..];
    assert forall i | 0 <= i < |t| :: t[i] == s[if i < k then i else i + 1];
    forall i, j | 0 <= i < j < |t| ensures Before(t[i], t[j]) {
      assert Before(s[if i < k then i else i + 1], s[if j < k then j else j + 1]);
    }
    forall i | 0 <= i < |t| ensures GoodArea(t[i]) { assert GoodArea(s[if i < k then i else i + 1]); }
    if i :| 0 <= i < |t| && Covers(t[i], a) {
      ScanHits(t, i, a);
      ScanHits(s, if i < k then i else i + 1, a);
      NotBoth(s, if i < k then i else i + 1, k, a);
    } else {
      ScanMisses(t, a);
      if !Covers(s[k], a) {
        forall i | 0 <= i < |s| ensures !Covers(s[i], a) { assert i != k ==> t[if i < k then i else i - 1] == s[i]; }
        ScanMisses(s, a);
      }
    }
  }

  class AddressSpace {
    var list: seq<Vma>
    var mapCount: int
    var cache: Option<nat>
    var startBrk: nat
    var brk: nat
    var brkVma: Option<nat>

    // The bookkeeping around the list.
    ghost predicate Linked()
      reads this
    {
      && mapCount == |list|
      && (cache.Some? ==> cache.value in Ptrs(list))
      && (brkVma.Some? ==> brkVma.value in Ptrs(list))
      && USERBASE <= startBrk <= USERTOP && brk <= USERTOP
    }

    ghost predicate Valid()
      reads this
    {
      VmaList.Valid(list) && Linked()
    }

    constructor ()
      ensures Valid() && list == []
    {
      list, mapCount, cache := [], 0, None;
      startBrk, brk, brkVma := USERBASE, USERBASE, None;
    }

    method IndexOf(ptr: nat) returns (k: nat)
      requires Valid() && ptr in Ptrs(list)
      ensures k < |list| && list[k].ptr == ptr
    {
      k := 0;
      while list[k].ptr != ptr
        invariant k < |list|
        decreases |list| - k
        invariant forall j | 0 <= j < k :: list[j].ptr != ptr
      {
        k := k + 1;
      }
    }

    /** The cached lookup gives the answer of the plain scan. */
    method FindVma(addr: nat) returns (r: Option<Vma>)
      requires Valid()
      modifies this`cache
      ensures Valid() && r == Scan(list, addr)
    {
      if cache.Some? {
        var k := IndexOf(cache.value);
        if Covers(list[k], addr) {
          ScanHits(list, k, addr);
          return Some(list[k]);
        }
      }
      var i := 0;
      while i < |list| && !Covers(list[i], addr)
        invariant i <= |list|
        invariant forall j | 0 <= j < i :: !Covers(list[j], addr)
      {
        i := i + 1;
      }
      if i < |list| {
        ScanHits(list, i, addr);
        r := Some(list[i]);
        cache := Some(list[i].ptr);
      } else {
        ScanMisses(list, addr);
        r := None;
      }
    }

    /** insert_vma_struct: the list position is the first area that starts later. */
    method Insert(v: Vma) returns (k: nat)
      requires Valid() && GoodArea(v) && v.ptr !in Ptrs(list) && !Overlaps(list, v.start, v.end)
      modifies this`list, this`mapCount
      ensures Valid() && k <= |old(list)| && list == Inserted(old(list), k, v)
      ensures old(list) == [] || v.start < old(list)[0].start ==> k == 0
      ensures SetPages(old(list), list, v.start, v.end, Some(v.flags))
      ensures Ptrs(list) == Ptrs(old(list)) + {v.ptr}
    {
      k := 0;
      while k < |list| && list[k].start <= v.start
        invariant k <= |list|
        invariant forall j | 0 <= j < k :: list[j].start <= v.start
        invariant 0 < k ==> list[0].start <= v.start
      {
        k := k + 1;
      }
      ghost var was := list;
      assert forall j | 0 <= j < |was| :: was[j] in was && GoodArea(was[j]);
      assert forall j | k < j < |was| :: Before(was[k], was[j]);
      InsertedValid(was, k, v);
      forall a: nat ensures FlagsAt(Inserted(was, k, v), a) == if Covers(v, a) then Some(v.flags) else FlagsAt(was, a) {
        InsertedFlags(was, k, v, a);
      }
      InsertedPtrs(was, k, v);
      list := Inserted(list, k, v);
      mapCount := mapCount + 1;
    }

    /** mm_map: fails exactly on a malformed request, an overlap or a failed allocation, and
        otherwise gives exactly the requested pages the new flags. */
    method Map(addr: Addr, len: Addr, flags: nat, node: Option<nat>) returns (r: Status)
      requires Valid() && (node.Some? ==> node.value !in Ptrs(list))
      modifies this`list, this`mapCount
      ensures Valid()
      ensures r == Inval <==>
          (var g := MapRange(addr, len, flags); g.None? || Overlaps(old(list), g.value.0, g.value.1))
      ensures r == NoMem <==> r != Inval && node.None?
      ensures r != Ok ==> list == old(list) && r != IoError
      ensures r == Ok ==> var g := MapRange(addr, len, flags).value;
                          && SetPages(old(list), list, g.0, g.1, Some(flags))
                              && Ptrs(list) == Ptrs(old(list)) + {node.value}
                          && Vma(node.value, g.0, g.1, flags) in list
    {
      var g := MapRange(addr, len, flags);
      if g.None? { return Inval; }
      var (start, end) := g.value;
      var i := 0;
      while i < |list| && list[i].end <= start
        invariant i <= |list|
        invariant forall j | 0 <= j < i :: list[j].end <= start
      {
        i := i + 1;
      }
      if i < |list| && list[i].start < end {
        assert list[i] in list;
        return Inval;
      }
      NoOverlap(list, start, end, i);
      if node.None? { return NoMem; }
      var k := Insert(Vma(node.value, start, end, flags));
      r := Ok;
    }

    /** One round of mm_unmap: the area at `i` gives way to what the cut leaves of it. */
    method CutOne(i: nat, start: nat, end: nat, node: Option<nat>) returns (ok: bool, next: nat)
      requires Linked() && i < |list| && GoodArea(list[i])
      requires start < list[i].end && list[i].start < end
      modifies this
      ensures ok <==> node.Some? || !Straddles(old(list[i]), start, end)
      ensures Linked()
      ensures !ok ==> list == old(list)
      ensures ok ==> var q := Pieces(old(list[i]), start, end, if node.Some? then node.value else 0);
                     next <= |list| && list[..next] == old(list)[..i] + q && list[next..] == old(list)[i + 1..]
    {
      ghost var before := list;
      var v := list[i];
      ghost var q := Pieces(v, start, end, if node.Some? then node.value else 0);
      var cutStart := if start > v.start then start else v.start;
      var cutEnd := if end < v.end then end else v.end;
      if cutStart == v.start && cutEnd == v.end {
        if brkVma == Some(v.ptr) { brkVma := None; }
        if cache == Some(v.ptr) { cache := None; }
        list := list[..i] + list[i + 1..];
        mapCount := mapCount - 1;
        next := i;
      } else if cutStart == v.start {
        list := list[i := v.(start := cutEnd)];
        if brkVma == Some(v.ptr) && cutEnd != RoundUp(startBrk) { brkVma := None; }
        next := i + 1;
      } else if cutEnd == v.end {
        list := list[i := v.(end := cutStart)];
        if brkVma == Some(v.ptr) && cutStart < brk { brk := cutStart; }
        next := i + 1;
      } else {
        if node.None? { return false, i; }
        list := list[..i] + [v.(end := cutStart), Vma(node.value, cutEnd, v.end, v.flags)] + list[i + 1..];
        mapCount := mapCount + 1;
        if brkVma == Some(v.ptr) { brkVma := None; }
        next := i + 2;
      }
      ok := true;
      PtrsAfter(before, list, i, q);
      assert q != [] ==> q[0].ptr in Ptrs(q);
    }

    /** mm_unmap clears the flags of exactly the requested pages.  It needs memory only when one
        area reaches past both ends of the request, and then a failure leaves the list alone.
        `cuts` lists the page runs handed to `unmap_range`. */
    method Unmap(addr: Addr, len: Addr, node: Option<nat>) returns (r: Status, cuts: seq<(nat, nat)>)
      requires Valid() && (node.Some? ==> node.value !in Ptrs(list))
      modifies this
      ensures Valid()
      ensures r == Inval <==> ExactRange(addr, len).None?
      ensures r == Inval ==> list == old(list) && cuts == []
      ensures r != Inval ==>
                var g := ExactRange(addr, len).value;
                && (r == NoMem <==> node.None? && exists v | v in old(list) :: Straddles(v, g.0, g.1))
                && (r == NoMem ==> list == old(list))
                && (r == Ok ==> SetPages(old(list), list, g.0, g.1, None))
                && cuts == Clipped(old(list), g.0, g.1)
    {
      var g := ExactRange(addr, len);
      if g.None? { return Inval, []; }
      var ok;
      ok, cuts := UnmapPages(g.value.0, g.value.1, node);
      r := if ok then Ok else NoMem;
    }

    method UnmapPages(start: nat, end: nat, node: Option<nat>) returns (ok: bool, cuts: seq<(nat, nat)>)
      requires Valid() && (node.Some? ==> node.value !in Ptrs(list))
      requires start < end && Aligned(start) && Aligned(end)
      modifies this
      ensures Valid()
      ensures !ok <==> node.None? && exists v | v in old(list) :: Straddles(v, start, end)
      ensures !ok ==> list == old(list)
      ensures ok ==> SetPages(old(list), list, start, end, None)
      ensures cuts == Clipped(old(list), start, end)
    {
      cuts := [];
      ghost var was := list;
      ghost var spare := if node.Some? then node.value else Bound(was);
      var i := 0;
      ghost var rest := list;
      assert list[0..] == list;
      while i < |list| && list[i].start < end
        invariant 0 <= i <= |list| && list[i..] == rest && Linked() && VmaList.Valid(rest)
        invariant node.None? ==> forall v | v in was && Straddles(v, start, end) :: v in rest
        invariant list == was || (rest != [] ==> start <= rest[0].start)
        invariant Cut(was, start, end, spare) == list[..i] + Cut(rest, start, end, spare)
        invariant Clipped(was, start, end) == cuts + Clipped(rest, start, end)
        decreases |rest|
      {
        var v := list[i];
        assert v == rest[0] && GoodArea(rest[0]);
        ValidPart(rest, 1, |rest|);
        assert |rest| > 1 ==> Before(rest[0], rest[1]);
        assert list[i + 1..] == list[i..][1..];
        ghost var front, seen := list[..i], cuts;
        if v.end <= start {
          assert list[..i + 1] == front + [v] && cuts == seen + [];
          i := i + 1;
        } else {
          cuts := cuts + ClippedOne(v, start, end);
          var done, next := CutOne(i, start, end, node);
          if !done {
            AfterStraddler(rest, start, end, spare);
            return false, cuts;
          }
          i := next;
        }
        Regroup(front, Pieces(v, start, end, spare), Cut(rest[1..], start, end, spare));
        Regroup(seen, ClippedOne(v, start, end), Clipped(rest[1..], start, end));
        rest := rest[1..];
      }
      RestOutside(rest, start, end, spare);
      Rejoin(list, i);
      CutPages(was, start, end, spare);
      ok := true;
    }

    /** The check shared by mm_mprotect and mm_madvise: every page belongs to some area. */
    method CoversAll(start: nat, end: nat) returns (b: bool)
      requires Valid() && start < end
      ensures b <==> Covered(list, start, end)
    {
      var cursor, i := start, 0;
      while cursor < end
        invariant start <= cursor <= end && 0 <= i <= |list|
        invariant forall k | 0 <= k < i :: list[k].end <= cursor || cursor == end
        invariant forall a | start <= a < cursor :: Scan(list, a).Some?
        decreases end - cursor
      {
        while i < |list| && list[i].end <= cursor
          invariant 0 <= i <= |list|
          invariant forall k | 0 <= k < i :: list[k].end <= cursor
        {
          i := i + 1;
        }
        if i == |list| || list[i].start > cursor {
          NotCovered(list, i, cursor);
          return false;
        }
        forall a | cursor <= a < list[i].end ensures Scan(list, a).Some? { ScanHits(list, i, a); }
        cursor := if list[i].end < end then list[i].end else end;
        i := i + 1;
      }
      b := true;
    }

    method SplitLeft(start: nat, node: Option<nat>) returns (ok: bool, le: nat)
      requires Valid() && Scan(list, start).Some? && Aligned(start) && (node.Some? ==> node.value !in Ptrs(list))
      modifies this`list, this`mapCount
      ensures Valid()
      ensures ok <==> node.Some? || !SplitsAt(old(list), start)
      ensures !ok ==> list == old(list)
      ensures ok ==> list == SplitAt(old(list), start, if node.Some? then node.value else 0)
      ensures ok ==> le < |list| && list[le].start == start
      ensures ok ==> Ptrs(list) <= Ptrs(old(list)) + (if node.Some? then {node.value} else {})
    {
      var i := 0;
      ScanIndex(list, start);
      while list[i].end <= start
        invariant 0 <= i < |list|
        invariant forall k | 0 <= k < i :: list[k].end <= start
        invariant exists k | i <= k < |list| :: Covers(list[k], start)
        decreases |list| - i
      {
        i := i + 1;
      }
      FirstCovers(list, i, start);
      ok, le := SplitOne(i, start, node);
    }

    method SplitRight(le: nat, end: nat, node: Option<nat>) returns (ok: bool)
      requires Valid() && 0 < end && Scan(list, end - 1).Some? && Aligned(end)
      requires le < |list| && list[le].start < end && (node.Some? ==> node.value !in Ptrs(list))
      modifies this`list, this`mapCount
      ensures Valid()
      ensures ok <==> node.Some? || !SplitsAt(old(list), end)
      ensures !ok ==> list == old(list)
      ensures ok ==> list == SplitAt(old(list), end, if node.Some? then node.value else 0)
    {
      var i := le;
      ScanIndex(list, end - 1);
      assert forall k | 0 <= k < le :: Before(list[k], list[le]);
      while list[i].end < end
        invariant le <= i < |list|
        invariant forall k | 0 <= k < i :: list[k].end < end
        invariant exists k | i <= k < |list| :: Covers(list[k], end - 1)
        decreases |list| - i
      {
        i := i + 1;
      }
      FirstCovers(list, i, end - 1);
      if list[i].end > end {
        var next;
        ok, next := SplitOne(i, end, node);
      } else {
        NoSplit(list, i, end);
        SplitAtNone(list, end, if node.Some? then node.value else 0);
        ok := true;
      }
    }

    // The area at `i` covers x; it is split when x is strictly inside.
    method SplitOne(i: nat, x: nat, node: Option<nat>) returns (ok: bool, next: nat)
      requires Valid() && i < |list| && Covers(list[i], x) && Aligned(x) && (node.Some? ==> node.value !in Ptrs(list))
      modifies this`list, this`mapCount
      ensures Valid()
      ensures ok <==> node.Some? || !SplitsAt(old(list), x)
      ensures !ok ==> list == old(list)
      ensures ok ==> list == SplitAt(old(list), x, if node.Some? then node.value else 0)
      ensures ok ==> next < |list| && list[next].start == x
      ensures ok ==> Ptrs(list) <= Ptrs(old(list)) + (if node.Some? then {node.value} else {})
    {
      var v := list[i];
      if v.start < x {
        assert v in list;
        if node.None? { return false, i; }
        ghost var was := list;
        SplitAtPlace(was, x, node.value, i);
        SplitAtValid(was, x, node.value);
        list := list[..i] + [v.(end := x), Vma(node.value, x, v.end, v.flags)] + list[i + 1..];
        mapCount := mapCount + 1;
        PtrsAfter(was, list, i, Halves(v, x, node.value));
        assert Halves(v, x, node.value)[0].ptr in Ptrs(Halves(v, x, node.value));
        return true, i + 1;
      }
      NoSplit(list, i, x);
      SplitAtNone(list, x, if node.Some? then node.value else 0);
      return true, i;
    }

    method SetFlagsIn(start: nat, end: nat, flags: nat)
      requires Valid() && start < end
      modifies this`list
      ensures list == SetFlags(old(list), start, end, flags)
    {
      ghost var was := list;
      var i := 0;
      while i < |list| && list[i].start < end
        invariant 0 <= i <= |list| && |list| == |was|
        invariant forall k | 0 <= k < |was| :: list[k] == if k < i then Reflagged(was[k], start, end, flags) else was[k]
      {
        if list[i].start >= start && list[i].end <= end {
          list := list[i := list[i].(flags := flags)];
        }
        i := i + 1;
      }
      forall k | i <= k < |was| ensures Reflagged(was[k], start, end, flags) == was[k] {
        assert GoodArea(was[i]) && GoodArea(was[k]) && (i < k ==> Before(was[i], was[k]));
      }
    }

    /** mm_mprotect: every error, also one after a partial split, leaves the page map unchanged;
        success changes the flags of exactly the requested pages. */
    method Mprotect(addr: Addr, len: Addr, flags: nat, left: Option<nat>, right: Option<nat>) returns (r: Status)
      requires Valid()
      requires left.Some? ==> left.value !in Ptrs(list)
      requires right.Some? ==> right.value !in Ptrs(list) && left != right
      modifies this`list, this`mapCount
      ensures Valid()
      ensures r == Inval <==> (var g := ExactRange(addr, len);
                               flags >= 8 || g.None? || !Covered(old(list), g.value.0, g.value.1))
      ensures r != Inval ==>
                var g := ExactRange(addr, len).value;
                && (r == NoMem <==>
                      (left.None? && SplitsAt(old(list), g.0)) || (right.None? && SplitsAt(old(list), g.1)))
                && (r == Ok ==> SetPages(old(list), list, g.0, g.1, Some(flags)))
      ensures r != Ok ==> SamePages(old(list), list)
    {
      var g := ExactRange(addr, len);
      if flags >= 8 || g.None? { return Inval; }
      var covered := CoversAll(g.value.0, g.value.1);
      if !covered { return Inval; }
      var ok := ProtectPages(g.value.0, g.value.1, flags, left, right);
      r := if ok then Ok else NoMem;
    }

    method ProtectPages(start: nat, end: nat, flags: nat, left: Option<nat>, right: Option<nat>) returns (ok: bool)
      requires Valid() && start < end && Aligned(start) && Aligned(end) && Covered(list, start, end)
      requires left.Some? ==> left.value !in Ptrs(list)
      requires right.Some? ==> right.value !in Ptrs(list) && left != right
      modifies this`list, this`mapCount
      ensures Valid()
      ensures !ok <==> (left.None? && SplitsAt(old(list), start)) || (right.None? && SplitsAt(old(list), end))
      ensures ok ==> SetPages(old(list), list, start, end, Some(flags))
      ensures !ok ==> SamePages(old(list), list)
    {
      ok := SplitEdges(start, end, left, right);
      if ok {
        ghost var was := list;
        CoveredSame(old(list), was, start, end);
        SetFlagsIn(start, end, flags);
        SetFlagsValid(was, start, end, flags);
        forall a: nat ensures FlagsAt(list, a) == if start <= a < end then Some(flags) else FlagsAt(old(list), a) {
          SetFlagsFlags(was, start, end, flags, a);
        }
      }
    }

    method SplitEdges(start: nat, end: nat, left: Option<nat>, right: Option<nat>) returns (ok: bool)
      requires Valid() && start < end && Aligned(start) && Aligned(end) && Covered(list, start, end)
      requires left.Some? ==> left.value !in Ptrs(list)
      requires right.Some? ==> right.value !in Ptrs(list) && left != right
      modifies this`list, this`mapCount
      ensures Valid() && SamePages(old(list), list)
      ensures !ok <==> (left.None? && SplitsAt(old(list), start)) || (right.None? && SplitsAt(old(list), end))
      ensures ok ==> !SplitsAt(list, start) && !SplitsAt(list, end)
    {
      ghost var was := list;
      var le;
      ok, le := SplitLeft(start, left);
      if ok {
        ghost var half := list;
        ghost var p := if left.Some? then left.value else 0;
        SplitKeeps(was, start, left);
        SplitOther(was, start, end, p);
        SplitAtEdges(was, start, p);
        CoveredSame(was, half, start, end);
        ok := SplitRight(le, end, right);
        SplitKeeps(half, end, right);
        SplitAtEdges(half, end, if right.Some? then right.value else 0);
      }
    }

    /** get_unmapped_area: the lowest page-aligned hole of the rounded size below the stack
        reservation, or 0 exactly when there is none. */
    method GetUnmappedArea(len: Addr) returns (r: nat)
      requires Valid()
      ensures r != 0 ==> len != 0 && Hole(list, r, RoundUp(len)) && len + PGSIZE <= WORD
      ensures r != 0 ==> forall c | Hole(list, c, RoundUp(len)) :: r <= c
      ensures r == 0 <==> len == 0 || RoundUp(len) == 0 || !exists c :: Hole(list, c, RoundUp(len))
    {
      if len == 0 || len > WORD - 1 - (PGSIZE - 1) {
        return 0;
      }
      var size := RoundUp(len);
      if size == 0 || size > MMAP_LIMIT - USERBASE {
        return 0;
      }
      var candidate, i := USERBASE, 0;
      while i < |list|
        invariant 0 <= i <= |list| && USERBASE <= candidate <= MMAP_LIMIT && Aligned(candidate)
        invariant size <= MMAP_LIMIT - candidate
        invariant forall k | 0 <= k < i :: list[k].end <= candidate
        invariant forall c | Hole(list, c, size) :: candidate <= c
      {
        var v := list[i];
        assert GoodArea(v) && v in list;
        if v.end > candidate {
          if v.start >= candidate && v.start - candidate >= size && candidate + size <= MMAP_LIMIT {
            NoOverlap(list, candidate, candidate + size, i);
            return candidate;
          }
          forall c | Hole(list, c, size) ensures v.end <= c { PastArea(list, v, c, size, candidate); }
          candidate := RoundUp(v.end);
          if candidate > MMAP_LIMIT || size > MMAP_LIMIT - candidate {
            return 0;
          }
        }
        i := i + 1;
      }
      NoOverlap(list, candidate, candidate + size, i);
      assert Hole(list, candidate, size);
      return candidate;
    }

    /** user_mem_check: true exactly when every byte of the range lies in an area with the needed
        permission, and, for a write, outside the guard page at the bottom of a stack area. */
    method UserMemCheck(addr: Addr, len: Addr, write: bool) returns (b: bool)
      requires Valid()
      modifies this`cache
      ensures Valid()
      ensures b <==> UserAccess(addr, addr + len) &&
                     forall a: nat | addr <= a < addr + len :: Permits(list, a, write)
    {
      var start, end := addr, Wrap(addr + len);
      if !UserAccess(start, end) { return false; }
      while start < end
        invariant addr <= start && Valid()
        invariant forall a: nat | addr <= a < start && a < end :: Permits(list, a, write)
        decreases end - start
      {
        var r := FindVma(start);
        if r.None? || !(if write then CanWrite(r.value.flags) else CanRead(r.value.flags)) {
          assert !Permits(list, start, write);
          return false;
        }
        var vma := r.value;
        if write && IsStack(vma.flags) && start < vma.start + PGSIZE {
          assert !Permits(list, start, write);
          return false;
        }
        var k :| 0 <= k < |list| && list[k] == vma;
        forall a: nat | start <= a < vma.end ensures Permits(list, a, write) { ScanHits(list, k, a); }
        start := vma.end;
      }
      b := true;
    }

    // Inserting below every area puts the new one first.
    method InsertFirst(v: Vma)
      requires Valid() && GoodArea(v) && v.ptr !in Ptrs(list)
      requires forall i | 0 <= i < |list| :: v.end <= list[i].start
      modifies this`list, this`mapCount
      ensures Valid() && list == [v] + old(list)
    {
      ghost var was := list;
      var k := Insert(v);
      assert was[..0] == [] && was[0..] == was;
    }

    /** dup_mmap on the area lists: the copy holds the same areas in fresh structures, with the
        heap pointer on the copy of the heap area.  After a failed allocation the copy holds the
        areas copied so far, from the top down. */
    method DupFrom(from: AddressSpace, nodes: seq<Option<nat>>) returns (ok: bool, copied: nat)
      requires from != this && from.Valid() && Valid() && list == [] && |nodes| == |from.list|
      requires forall i, j | 0 <= i < j < |nodes| && nodes[i].Some? :: nodes[i] != nodes[j]
      modifies this
      ensures Valid() && copied <= |from.list| && (ok <==> copied == |from.list|)
      ensures ok <==> forall i | 0 <= i < |nodes| :: nodes[i].Some?
      ensures |list| == copied && forall i | |from.list| - copied <= i < |from.list| ::
                CopyOf(list[i - (|from.list| - copied)], from.list[i], nodes[i])
      ensures ok ==> SamePages(from.list, list) && brk == from.brk && startBrk == from.startBrk
      ensures ok ==> (brkVma.Some? <==> from.brkVma.Some?)
      ensures ok && brkVma.Some? ==>
          exists i :: 0 <= i < |list| && Some(list[i].ptr) == brkVma && Some(from.list[i].ptr) == from.brkVma
    {
      startBrk, brk, brkVma, cache := from.startBrk, from.brk, None, None;
      copied := 0;
      ghost var n := |from.list|;
      while copied < |from.list|
        invariant Valid() && from.Valid() && unchanged(from) && 0 <= copied <= n && cache == None
        invariant startBrk == from.startBrk && brk == from.brk
        invariant |list| == copied
            && forall i | n - copied <= i < n :: CopyOf(list[i - (n - copied)], from.list[i], nodes[i])
        invariant brkVma.Some? <==> exists i | n - copied <= i < n :: from.brkVma == Some(from.list[i].ptr)
        invariant brkVma.Some? ==>
            exists i | n - copied <= i < n :: from.brkVma == Some(from.list[i].ptr) && brkVma == nodes[i]
      {
        var j := |from.list| - 1 - copied;
        var vma := from.list[j];
        if nodes[j].None? { return false, copied; }
        CopyFits(from.list, list, nodes, j);
        InsertFirst(Vma(nodes[j].value, vma.start, vma.end, vma.flags));
        assert list[0].ptr == nodes[j].value;
        if from.brkVma == Some(vma.ptr) { brkVma := nodes[j]; }
        copied := copied + 1;
      }
      ok := true;
      AllCopied(list, from.list, nodes);
      forall a: nat ensures FlagsAt(list, a) == FlagsAt(from.list, a) { SameAreasFlags(list, from.list, a); }
    }

    // The heap area runs from the rounded start of the heap to the rounded break.
    ghost predicate HeapOk()
      reads this
      requires Valid()
    { startBrk <= brk && HeapEnds(RoundUp(brk)) }

    /** mm_brk: growing gives exactly the pages between the old and the new rounded break the heap's
        flags, or fails and changes nothing.  Shrinking moves the end of the heap area or removes it,
        which keeps the list in order exactly when the area still ends before the next one; so it
        does, and takes exactly the pages above the new break, if the heap was whole. */
    method Brk(newbrk: Addr, node: Option<nat>) returns (ok: bool)
      requires Valid() && (node.Some? ==> node.value !in Ptrs(list))
      modifies this
      ensures Linked() && startBrk == old(startBrk)
      ensures var was, now := RoundUp(old(brk)), RoundUp(newbrk);
              && (ok <==>
                    && startBrk <= newbrk <= USERTOP
                    && (now > was ==> GrowOk(old(list), startBrk, old(brkVma), was, now, node)))
              && (VmaList.Valid(list) <==> (ok && now < was ==> HeapFits(old(list), startBrk, old(brkVma), now)))
      ensures ok ==>
        var was, now := RoundUp(old(brk)), RoundUp(newbrk);
        && brk == newbrk
        && (now == was ==> list == old(list))
        && (now < was ==> list == Shrunk(old(list), startBrk, old(brkVma), now))
        && (now > was ==> SetPages(old(list), list, was, now, HeapFlags(old(brkVma), old(list))))
      ensures !ok ==> list == old(list) && brk == old(brk) && brkVma == old(brkVma)
      ensures old(HeapOk()) ==>
        var was, now := RoundUp(old(brk)), RoundUp(newbrk);
        && Valid() && HeapOk()
        && (ok && now < was ==> SetPages(old(list), list, now, was, None))
    {
      if newbrk < startBrk || newbrk > USERTOP { return false; }
      var was, now := RoundUp(brk), RoundUp(newbrk);
      RoundsUp(startBrk, newbrk);
      RoundsUp(0, brk);
      if startBrk <= brk { RoundsUp(startBrk, brk); }
      ok := true;
      if now < was { ShrinkHeap(was, now); }
      if now > was { ok := GrowHeap(was, now, node); }
      if ok { brk := newbrk; }
    }

    // The break moves down: the heap area ends earlier, or goes.
    method ShrinkHeap(was: nat, now: nat)
      requires Valid() && now < was && Aligned(now) && RoundUp(startBrk) <= now <= USERTOP
      modifies this`list, this`mapCount, this`cache, this`brkVma
      ensures Linked() && list == Shrunk(old(list), startBrk, old(brkVma), now)
      ensures VmaList.Valid(list) <==> HeapFits(old(list), startBrk, old(brkVma), now)
      ensures old(HeapEnds(was)) ==> Valid() && HeapEnds(now) && SetPages(old(list), list, now, was, None)
    {
      if brkVma.None? { return; }
      var k := IndexOf(brkVma.value);
      HeapIndex(list, k, brkVma.value);
      ghost var s, whole := list, HeapEnds(was);
      assert whole ==> s[k].start == RoundUp(startBrk) && s[k].end == was;
      if now <= RoundUp(startBrk) {
        RemovePages(s, k);
        RemovePtrs(s, k);
        if cache == brkVma { cache := None; }
        list := list[..k] + list[k + 1..];
        mapCount := mapCount - 1;
        brkVma := None;
      } else {
        ResizePtrs(s, k, now);
        ResizeExact(s, k, now);
        list := list[k := list[k].(end := now)];
        if whole {
          ShrinkPages(s, k, now);
          assert list[k].ptr == brkVma.value && list[k].start == RoundUp(startBrk) && list[k].end == now;
        }
      }
    }

    // The heap area, if there is one, runs to `end`.
    ghost predicate HeapEnds(end: nat)
      reads this
      requires Valid()
    {
      match brkVma
      case None => end == RoundUp(startBrk)
      case Some(p) =>
        exists k: nat ::
          k < |list| && list[k].ptr == p && list[k].start == RoundUp(startBrk) && list[k].end == end
    }

    // The break moves up: a new heap area, or a longer one.
    method GrowHeap(was: nat, now: nat, node: Option<nat>) returns (ok: bool)
      requires Valid() && was < now && RoundUp(startBrk) <= now <= USERTOP && Aligned(was) && Aligned(now)
      requires node.Some? ==> node.value !in Ptrs(list)
      modifies this`list, this`mapCount, this`brkVma
      ensures Valid() && (ok <==> GrowOk(old(list), startBrk, old(brkVma), was, now, node))
      ensures ok ==> SetPages(old(list), list, was, now, HeapFlags(old(brkVma), old(list)))
      ensures ok && old(HeapEnds(was)) ==> HeapEnds(now)
      ensures !ok ==> list == old(list) && brkVma == old(brkVma)
    {
      if brkVma.None? {
        if was != RoundUp(startBrk) { return false; }
        RoundsUp(startBrk, startBrk);
        HeapRange(RoundUp(startBrk), now);
        var r := Map(RoundUp(startBrk), now - RoundUp(startBrk), VM_READ + VM_WRITE, node);
        ok := r == Ok;
        if ok { brkVma := node; }
      } else {
        var k := IndexOf(brkVma.value);
        HeapIndex(list, k, brkVma.value);
        if list[k].end != was { return false; }
        if k + 1 < |list| && list[k + 1].start < now { return false; }
        ghost var s := list;
        GrowOverlap(s, k, now);
        ResizeValid(s, k, now);
        forall a: nat
          ensures FlagsAt(Resized(s, k, now), a) == if was <= a < now then Some(s[k].flags) else FlagsAt(s, a)
        {
          ResizeFlags(s, k, now, a);
        }
        list := list[k := list[k].(end := now)];
        assert list[k].ptr == brkVma.value && list[k].start == s[k].start && list[k].end == now;
        ok := true;
      }
    }
  }

  lemma RemovePages(s: seq<Vma>, k: nat)
    requires Valid(s) && k < |s|
    ensures Valid(s[..k] + s[k + 1..]) && SetPages(s, s[..k] + s[k + 1..], s[k].start, s[k].end, None)
  {
    var t := s[..k] + s[k + 1..];
    RemoveFlags(s, k, 0);
    forall a: nat ensures FlagsAt(t, a) == if s[k].start <= a < s[k].end then None else FlagsAt(s, a) {
      RemoveFlags(s, k, a);
    }
    assert SetPages(s, t, s[k].start, s[k].end, None);
  }

  lemma ShrinkPages(s: seq<Vma>, k: nat, e: nat)
    requires Valid(s) && k < |s| && s[k].start < e < s[k].end && Aligned(e)
    ensures Resizable(s, k, e) && SetPages(s, Resized(s, k, e), e, s[k].end, None)
  {
    ShrinkFits(s, k, e);
    forall a: nat ensures FlagsAt(Resized(s, k, e), a) == if e <= a < s[k].end then None else FlagsAt(s, a) {
      ResizeFlags(s, k, e, a);
    }
  }

  // The index of the structure p.
  ghost function AreaOf(s: seq<Vma>, p: nat): (k: nat)
    requires p in Ptrs(s)
    ensures k < |s| && s[k].ptr == p
  {
    var k: nat :| k < |s| && s[k].ptr == p;
    k
  }

  /** When the heap can grow: a fresh heap where nothing is in the way, or an area that ends at the
      old break with room after it. */
  ghost predicate GrowOk(s: seq<Vma>, startBrk: Addr, brkVma: Option<nat>, was: nat, now: nat, node: Option<nat>) {
    match brkVma
    case None => was == RoundUp(startBrk) && node.Some? && !Overlaps(s, was, now)
    case Some(p) =>
      p in Ptrs(s) && var k := AreaOf(s, p); s[k].end == was && (k + 1 < |s| ==> now <= s[k + 1].start)
  }

  ghost function Shrunk(s: seq<Vma>, startBrk: Addr, brkVma: Option<nat>, now: nat): seq<Vma> {
    match brkVma
    case None => s
    case Some(p) =>
      if p !in Ptrs(s) then s
      else var k := AreaOf(s, p); if now <= RoundUp(startBrk) then s[..k] + s[k + 1..] else Resized(s, k, now)
  }

  /** The heap area can end at `now`: it starts before and no other area lies in the way. */
  ghost predicate HeapFits(s: seq<Vma>, startBrk: Addr, brkVma: Option<nat>, now: nat) {
    brkVma.Some? && brkVma.value in Ptrs(s) && RoundUp(startBrk) < now ==>
      var k := AreaOf(s, brkVma.value); s[k].start < now && (k + 1 < |s| ==> now <= s[k + 1].start)
  }

  /** A heap area that mprotect has split: lowering the break into its other half makes the two
      overlap. */
  lemma SplitHeapOverlaps(a: nat)
    requires Aligned(a) && USERBASE <= a && a + 3 * PGSIZE <= USERTOP
    ensures var s := [Vma(1, a, a + PGSIZE, VM_READ), Vma(2, a + PGSIZE, a + 3 * PGSIZE, VM_READ + VM_WRITE)];
            && Valid(s) && !HeapFits(s, a, Some(1), a + 2 * PGSIZE)
            && !Valid(Shrunk(s, a, Some(1), a + 2 * PGSIZE))
  {
    var s := [Vma(1, a, a + PGSIZE, VM_READ), Vma(2, a + PGSIZE, a + 3 * PGSIZE, VM_READ + VM_WRITE)];
    assert s[0].ptr == 1 && 1 in Ptrs(s);
    HeapIndex(s, 0, 1);
    ResizeExact(s, 0, a + 2 * PGSIZE);
  }

  // What new heap pages get: the heap area's flags, or read and write.
  ghost function HeapFlags(brkVma: Option<nat>, s: seq<Vma>): Option<nat> {
    if brkVma.None? || brkVma.value !in Ptrs(s) then Some(VM_READ + VM_WRITE)
      else Some(s[AreaOf(s, brkVma.value)].flags)
  }

  // A structure is in the list once.
  lemma HeapIndex(s: seq<Vma>, k: nat, p: nat)
    requires Valid(s) && k < |s| && s[k].ptr == p
    ensures GoodArea(s[k]) && forall j: nat | j < |s| && s[j].ptr == p :: j == k
  {
    assert GoodArea(s[k]);
    forall j: nat | j < |s| && s[j].ptr == p ensures j == k {
      assert j < k ==> Before(s[j], s[k]);
      assert k < j ==> Before(s[k], s[j]);
    }
  }

  lemma RemovePtrs(s: seq<Vma>, k: nat)
    requires Valid(s) && k < |s|
    ensures Ptrs(s[..k] + s[k + 1..]) == Ptrs(s) - {s[k].ptr}
  {
    var t := s[..k] + s[k + 1..];
    HeapIndex(s, k, s[k].ptr);
    forall p | p in Ptrs(s) - {s[k].ptr} ensures p in Ptrs(t) {
      var i :| 0 <= i < |s| && s[i].ptr == p;
      assert t[if i < k then i else i - 1].ptr == p;
    }
    forall p | p in Ptrs(t) ensures p in Ptrs(s) - {s[k].ptr} {
      var i :| 0 <= i < |t| && t[i].ptr == p;
      assert s[if i < k then i else i + 1].ptr == p;
    }
  }

  lemma ShrinkFits(s: seq<Vma>, k: nat, e: nat)
    requires Valid(s) && k < |s| && s[k].start < e < s[k].end && Aligned(e)
    ensures Resizable(s, k, e)
  {
    assert GoodArea(s[k]);
    if k + 1 < |s| { OrderedAt(s, k, k + 1); }
  }

  lemma GrowOverlap(s: seq<Vma>, k: nat, e: nat)
    requires Valid(s) && k < |s| && s[k].end < e <= USERTOP && Aligned(e)
    ensures Overlaps(s, s[k].end, e) <==> k + 1 < |s| && s[k + 1].start < e
    ensures !Overlaps(s, s[k].end, e) ==> Resizable(s, k, e)
  {
    assert GoodArea(s[k]);
    if k + 1 < |s| {
      OrderedAt(s, k, k + 1);
      assert GoodArea(s[k + 1]) && s[k + 1] in s;
      if s[k + 1].start >= e {
        forall j | 0 <= j <= k ensures s[j].end <= s[k].end { if j < k { OrderedAt(s, j, k); } }
        NoOverlap(s, s[k].end, e, k + 1);
      }
    } else {
      forall j | 0 <= j <= k ensures s[j].end <= s[k].end { if j < k { OrderedAt(s, j, k); } }
      NoOverlap(s, s[k].end, e, k + 1);
    }
  }

  // Rounding up below the top of user space does not wrap.
  lemma RoundsUp(a: Addr, b: Addr)
    requires a <= b <= USERTOP
    ensures a <= RoundUp(a) <= RoundUp(b) <= USERTOP && Aligned(RoundUp(a)) && Aligned(RoundUp(b))
  { }

  lemma HeapRange(start: nat, end: nat)
    requires USERBASE <= start < end <= USERTOP && Aligned(start) && Aligned(end)
    ensures MapRange(start, end - start, VM_READ + VM_WRITE) == Some((start, end))
  { }
}
