/** The sorted list of virtual memory areas of one address space, as a value.

    A `Vma` carries the address of its `vma_struct` in `ptr`, so that the lookup cache and
    the heap pointer of the address space can name an area whose bounds change in place.
    The meaning of a list is the page-to-flags map `FlagsAt`. */
module VmaList {
  import opened Layout

  datatype Vma = Vma(ptr: nat, start: nat, end: nat, flags: nat)

  predicate Covers(v: Vma, a: nat) { v.start <= a < v.end }

  predicate GoodArea(v: Vma) {
    UserAccess(v.start, v.end) && Aligned(v.start) && Aligned(v.end)
  }

  // One area ends before the other starts, in a different structure.
  predicate Before(u: Vma, v: Vma) { u.end <= v.start && u.ptr != v.ptr }

  ghost predicate Ordered(s: seq<Vma>) {
    forall i, j {:trigger Before(s[i], s[j])} | 0 <= i < j < |s| :: Before(s[i], s[j])
  }

  ghost predicate AllBefore(s: seq<Vma>, t: seq<Vma>) {
    forall i, j {:trigger Before(s[i], t[j])} | 0 <= i < |s| && 0 <= j < |t| :: Before(s[i], t[j])
  }

  ghost predicate AllGood(s: seq<Vma>) { forall i {:trigger GoodArea(s[i])} | 0 <= i < |s| :: GoodArea(s[i]) }

  ghost predicate Valid(s: seq<Vma>) { AllGood(s) && Ordered(s) }

  function Ptrs(s: seq<Vma>): set<nat> { set i | 0 <= i < |s| :: s[i].ptr }

  /** The plain scan of `find_vma`. */
  function Scan(s: seq<Vma>, a: nat): (r: Option<Vma>)
    ensures r.Some? ==> r.value in s && Covers(r.value, a)
  {
    if s == [] then None
    else if Covers(s[0], a) then Some(s[0])
    else Scan(s[1..], a)
  }

  /** The page-to-flags map that a list stands for. */
  function FlagsAt(s: seq<Vma>, a: nat): Option<nat> {
    match Scan(s, a) case None => None case Some(v) => Some(v.flags)
  }

  lemma {:induction false} ScanAppend(s: seq<Vma>, t: seq<Vma>, a: nat)
    ensures Scan(s + t, a) == if Scan(s, a).Some? then Scan(s, a) else Scan(t, a)
  {
    if s == [] {
      assert s + t == t;
    } else {
      assert (s + t)[1..] == s[1..] + t;
      ScanAppend(s[1..], t, a);
    }
  }

  lemma {:induction false} ScanMisses(s: seq<Vma>, a: nat)
    requires forall v | v in s :: !Covers(v, a)
    ensures Scan(s, a) == None
  {
    if s != [] { ScanMisses(s[1..], a); }
  }

  /** On a sorted list the scan finds the one area that covers the address. */
  lemma ScanHits(s: seq<Vma>, i: nat, a: nat)
    requires Valid(s) && i < |s| && Covers(s[i], a)
    ensures Scan(s, a) == Some(s[i])
  {
    assert s == s[..i] + s[i..];
    assert forall j | 0 <= j < i :: Before(s[j], s[i]);
    ScanMisses(s[..i], a);
    ScanAppend(s[..i], s[i..], a);
  }

  function Else<T>(x: Option<T>, y: Option<T>): Option<T> { if x.Some? then x else y }

  lemma FlagsAppend(s: seq<Vma>, t: seq<Vma>, a: nat)
    ensures FlagsAt(s + t, a) == Else(FlagsAt(s, a), FlagsAt(t, a))
  { ScanAppend(s, t, a); }

  predicate Overlaps(s: seq<Vma>, start: nat, end: nat) {
    exists v | v in s :: v.start < end && start < v.end
  }

  lemma ValidPart(s: seq<Vma>, i: nat, j: nat)
    requires Valid(s) && i <= j <= |s|
    ensures Valid(s[i..j])
    ensures i == 0 ==> Valid(s[..j])
    ensures j == |s| ==> Valid(s[i..])
  { }

  /** Two lists that follow each other in the address space form one list. */
  lemma ValidAppend(s: seq<Vma>, t: seq<Vma>)
    requires Valid(s) && Valid(t) && AllBefore(s, t)
    ensures Valid(s + t)
  { }

  function Bound(s: seq<Vma>): (b: nat)
    ensures b !in Ptrs(s) && forall i | 0 <= i < |s| :: s[i].ptr < b
  {
    if s == [] then 0
    else var b := Bound(s[1..]); if s[0].ptr < b then b else s[0].ptr + 1
  }

  // ---- insertion ----------------------------------------------------------------------

  function Inserted(s: seq<Vma>, k: nat, v: Vma): seq<Vma>
    requires k <= |s|
  { s[..k] + [v] + s[k..] }

  lemma InsertedValid(s: seq<Vma>, k: nat, v: Vma)
    requires Valid(s) && k <= |s| && GoodArea(v) && v.ptr !in Ptrs(s)
    requires forall i | 0 <= i < k :: s[i].end <= v.start
    requires forall i | k <= i < |s| :: v.end <= s[i].start
    ensures Valid(Inserted(s, k, v))
  {
    var pre, post := s[..k], s[k..];
    assert forall i | 0 <= i < |s| :: s[i].ptr in Ptrs(s);
    ValidPart(s, 0, k);
    ValidPart(s, k, |s|);
    assert Valid([v]);
    ValidAppend(pre, [v]);
    ValidAppend(pre + [v], post);
  }

  lemma InsertedFlags(s: seq<Vma>, k: nat, v: Vma, a: nat)
    requires k <= |s|
    requires forall i | 0 <= i < k :: s[i].end <= v.start
    ensures FlagsAt(Inserted(s, k, v), a) == if Covers(v, a) then Some(v.flags) else FlagsAt(s, a)
  {
    assert s == s[..k] + s[k..];
    FlagsAppend(s[..k], s[k..], a);
    FlagsAppend(s[..k] + [v], s[k..], a);
    FlagsAppend(s[..k], [v], a);
    if Covers(v, a) { ScanMisses(s[..k], a); }
  }

  lemma InsertedPtrs(s: seq<Vma>, k: nat, v: Vma)
    requires k <= |s|
    ensures Ptrs(Inserted(s, k, v)) == Ptrs(s) + {v.ptr}
  {
    var t := Inserted(s, k, v);
    assert forall i | 0 <= i < |s| :: s[i] == t[if i < k then i else i + 1];
    assert t[k] == v;
  }

  // ---- unmapping ----------------------------------------------------------------------

  /** What is left of one area when [start, end) is cut out of it.  When both ends remain,
      the left one keeps the structure and the right one lives in `node`. */
  function Pieces(v: Vma, start: nat, end: nat, node: nat): seq<Vma> {
    if v.end <= start || end <= v.start then [v]
    else if start <= v.start && v.end <= end then []
    else if start <= v.start then [v.(start := end)]
    else if v.end <= end then [v.(end := start)]
    else [v.(end := start), v.(ptr := node, start := end)]
  }

  /** Cutting [start, end) out of every area. */
  function Cut(s: seq<Vma>, start: nat, end: nat, node: nat): seq<Vma> {
    if s == [] then [] else Pieces(s[0], start, end, node) + Cut(s[1..], start, end, node)
  }

  /** The area that a cut splits in two: the one case of unmapping that needs memory. */
  predicate Straddles(v: Vma, start: nat, end: nat) { v.start < start && end < v.end }

  /** The address runs that cutting [start, end) takes away, in list order. */
  function Clipped(s: seq<Vma>, start: nat, end: nat): seq<(nat, nat)> {
    if s == [] then [] else ClippedOne(s[0], start, end) + Clipped(s[1..], start, end)
  }

  function ClippedOne(v: Vma, start: nat, end: nat): seq<(nat, nat)> {
    if v.end <= start || end <= v.start then []
    else [(if start > v.start then start else v.start, if end < v.end then end else v.end)]
  }

  lemma {:induction false} CutOutside(s: seq<Vma>, start: nat, end: nat, node: nat)
    requires forall i | 0 <= i < |s| :: s[i].end <= start || end <= s[i].start
    ensures Cut(s, start, end, node) == s && Clipped(s, start, end) == []
  {
    if s != [] { CutOutside(s[1..], start, end, node); }
  }

  /** Together the runs are exactly the mapped part of the request. */
  lemma {:induction false} ClippedCovers(s: seq<Vma>, start: nat, end: nat, a: nat)
    ensures (exists c :: c in Clipped(s, start, end) && c.0 <= a < c.1) <==> start <= a < end && Scan(s, a).Some?
  {
    if s != [] {
      ClippedCovers(s[1..], start, end, a);
      var rest, all := Clipped(s[1..], start, end), Clipped(s, start, end);
      if c :| c in rest && c.0 <= a < c.1 { assert c in all; }
      if start <= a < end && Covers(s[0], a) { assert all[0] in all; }
    }
  }

  lemma PiecesValid(v: Vma, start: nat, end: nat, node: nat)
    requires GoodArea(v) && Aligned(start) && Aligned(end) && start < end && node != v.ptr
    ensures Valid(Pieces(v, start, end, node))
  { }

  lemma PiecesFlags(v: Vma, start: nat, end: nat, node: nat, a: nat)
    requires v.start < v.end && start < end
    ensures FlagsAt(Pieces(v, start, end, node), a) == if start <= a < end then None else FlagsAt([v], a)
  {
    var q := Pieces(v, start, end, node);
    if |q| == 2 {
      assert q == [q[0]] + [q[1]];
      FlagsAppend([q[0]], [q[1]], a);
    }
  }

  lemma {:induction false} CutAfter(s: seq<Vma>, start: nat, end: nat, node: nat, u: Vma)
    requires AllBefore([u], s) && u.ptr != node && start < end
    ensures AllBefore([u], Cut(s, start, end, node))
  {
    if s != [] {
      assert Before([u][0], s[0]);
      assert forall j | 0 <= j < |s| :: Before([u][0], s[j]);
      CutAfter(s[1..], start, end, node, u);
    }
  }

  lemma CutAfterPieces(s: seq<Vma>, u: Vma, start: nat, end: nat, node: nat)
    requires AllBefore([u], s) && u.ptr != node && start < end && u.start < u.end && node !in Ptrs(s)
    ensures AllBefore(Pieces(u, start, end, node), Cut(s, start, end, node))
  {
    var c := Cut(s, start, end, node);
    CutAfter(s, start, end, node, u);
    assert forall j | 0 <= j < |c| :: Before([u][0], c[j]);
    if Straddles(u, start, end) {
      assert forall j | 0 <= j < |s| :: Before([u][0], s[j]) && s[j].ptr in Ptrs(s);
      CutOutside(s, start, end, node);
    }
  }

  /** Cutting keeps the list sorted, disjoint and page-aligned. */
  lemma {:induction false} CutValid(s: seq<Vma>, start: nat, end: nat, node: nat)
    requires Valid(s) && Aligned(start) && Aligned(end) && start < end && node !in Ptrs(s)
    ensures Valid(Cut(s, start, end, node))
  {
    if s != [] {
      var tail := s[1..];
      ValidPart(s, 1, |s|);
      assert s[0].ptr in Ptrs(s);
      assert forall p | p in Ptrs(tail) :: p in Ptrs(s);
      CutValid(tail, start, end, node);
      PiecesValid(s[0], start, end, node);
      assert AllBefore([s[0]], tail);
      CutAfterPieces(tail, s[0], start, end, node);
      ValidAppend(Pieces(s[0], start, end, node), Cut(tail, start, end, node));
    }
  }

  /** Unmapping clears the map on exactly the requested addresses. */
  lemma {:induction false} CutFlags(s: seq<Vma>, start: nat, end: nat, node: nat, a: nat)
    requires start < end
    requires forall i | 0 <= i < |s| :: s[i].start < s[i].end
    ensures FlagsAt(Cut(s, start, end, node), a) == if start <= a < end then None else FlagsAt(s, a)
  {
    if s != [] {
      CutFlags(s[1..], start, end, node, a);
      assert s == [s[0]] + s[1..];
      FlagsAppend([s[0]], s[1..], a);
      FlagsAppend(Pieces(s[0], start, end, node), Cut(s[1..], start, end, node), a);
      PiecesFlags(s[0], start, end, node, a);
    }
  }

  // ---- changing permissions -----------------------------------------------------------

  /** Splitting the area that has `x` strictly inside it. */
  function SplitAt(s: seq<Vma>, x: nat, node: nat): seq<Vma> {
    if s == [] then []
    else if s[0].start < x < s[0].end then
      Halves(s[0], x, node) + s[1..]
    else [s[0]] + SplitAt(s[1..], x, node)
  }

  predicate SplitsAt(s: seq<Vma>, x: nat) { exists v | v in s :: v.start < x < v.end }

  lemma {:induction false} SplitAtPlace(s: seq<Vma>, x: nat, node: nat, i: nat)
    requires Valid(s) && i < |s| && s[i].start < x < s[i].end
    ensures SplitAt(s, x, node) == s[..i] + Halves(s[i], x, node) + s[i + 1..]
  {
    if i > 0 {
      assert Before(s[0], s[i]);
      ValidPart(s, 1, |s|);
      assert s[1..|s|] == s[1..];
      SplitAtPlace(s[1..], x, node, i - 1);
      assert s[..i] == [s[0]] + s[1..][..i - 1];
      assert s[i + 1..] == s[1..][i..];
    }
  }

  lemma {:induction false} SplitAtNone(s: seq<Vma>, x: nat, node: nat)
    requires !SplitsAt(s, x)
    ensures SplitAt(s, x, node) == s
  {
    if s != [] {
      assert s[0] in s;
      SplitAtNone(s[1..], x, node);
    }
  }

  function Halves(v: Vma, x: nat, node: nat): seq<Vma> { [v.(end := x), v.(ptr := node, start := x)] }

  lemma HalvesFlags(v: Vma, x: nat, node: nat, a: nat)
    requires v.start < x < v.end
    ensures FlagsAt(Halves(v, x, node), a) == FlagsAt([v], a)
  {
    var q := Halves(v, x, node);
    assert q == [q[0]] + [q[1]];
    FlagsAppend([q[0]], [q[1]], a);
  }

  /** A split moves no flag. */
  lemma SplitAtFlags(s: seq<Vma>, x: nat, node: nat, a: nat)
    requires Valid(s)
    ensures FlagsAt(SplitAt(s, x, node), a) == FlagsAt(s, a)
  {
    if SplitsAt(s, x) {
      var i :| 0 <= i < |s| && s[i].start < x < s[i].end;
      SplitAtPlace(s, x, node, i);
      assert s == s[..i] + [s[i]] + s[i + 1..];
      FlagsAppend(s[..i] + [s[i]], s[i + 1..], a);
      FlagsAppend(s[..i], [s[i]], a);
      FlagsAppend(s[..i] + Halves(s[i], x, node), s[i + 1..], a);
      FlagsAppend(s[..i], Halves(s[i], x, node), a);
      HalvesFlags(s[i], x, node, a);
    } else {
      SplitAtNone(s, x, node);
    }
  }

  lemma {:induction false} SplitAtAfter(s: seq<Vma>, x: nat, node: nat, u: Vma)
    requires AllBefore([u], s) && u.ptr != node
    ensures AllBefore([u], SplitAt(s, x, node))
  {
    if s != [] {
      assert Before([u][0], s[0]);
      assert forall j | 0 <= j < |s| :: Before([u][0], s[j]);
      SplitAtAfter(s[1..], x, node, u);
    }
  }

  /** A split keeps the list sorted, disjoint and page-aligned. */
  lemma {:induction false} SplitAtValid(s: seq<Vma>, x: nat, node: nat)
    requires Valid(s) && Aligned(x) && node !in Ptrs(s)
    ensures Valid(SplitAt(s, x, node))
    ensures Ptrs(SplitAt(s, x, node)) <= Ptrs(s) + {node}
  {
    if s != [] {
      var head, tail := s[0], s[1..];
      HeadTail(s);
      if head.start < x < head.end {
        HalvesFit(head, tail, x, node);
      } else {
        hide AllBefore, Valid, Ptrs;
        SplitAtValid(tail, x, node);
        SplitAtAfter(tail, x, node, head);
        ValidAppend([head], SplitAt(tail, x, node));
        PtrsHead(head, SplitAt(tail, x, node));
      }
    }
  }

  lemma PtrsHead(v: Vma, s: seq<Vma>)
    ensures Ptrs([v] + s) == {v.ptr} + Ptrs(s)
  {
    var t := [v] + s;
    forall p | p in Ptrs(t) ensures p in {v.ptr} + Ptrs(s) {
      var i :| 0 <= i < |t| && t[i].ptr == p;
      assert i == 0 || s[i - 1].ptr == p;
    }
    forall p | p in {v.ptr} + Ptrs(s) ensures p in Ptrs(t) {
      if p != v.ptr { var i :| 0 <= i < |s| && s[i].ptr == p; assert t[i + 1].ptr == p; } else { assert t[0].ptr == p; }
    }
  }

  lemma HeadTail(s: seq<Vma>)
    requires Valid(s) && s != []
    ensures Valid(s[1..]) && Valid([s[0]]) && GoodArea(s[0]) && AllBefore([s[0]], s[1..])
        && Ptrs(s) == {s[0].ptr} + Ptrs(s[1..])
  {
    ValidPart(s, 1, |s|);
    assert s == [s[0]] + s[1..];
    PtrsHead(s[0], s[1..]);
  }

  // The two halves of an area before the areas that followed it.
  lemma HalvesFit(v: Vma, tail: seq<Vma>, x: nat, node: nat)
    requires Valid([v]) && Valid(tail) && AllBefore([v], tail) && v.start < x < v.end && Aligned(x)
    requires node != v.ptr && node !in Ptrs(tail)
    ensures Valid(Halves(v, x, node) + tail) && Ptrs(Halves(v, x, node) + tail) <= {v.ptr, node} + Ptrs(tail)
  {
    assert GoodArea([v][0]);
    HalvesValid(v, x, node);
    assert forall j | 0 <= j < |tail| :: tail[j].ptr in Ptrs(tail) && Before([v][0], tail[j]);
    ValidAppend(Halves(v, x, node), tail);
  }

  lemma HalvesValid(v: Vma, x: nat, node: nat)
    requires GoodArea(v) && v.start < x < v.end && Aligned(x) && node != v.ptr
    ensures Valid(Halves(v, x, node))
  { }

  /** A split leaves a boundary at `x` and adds no other. */
  lemma SplitAtEdges(s: seq<Vma>, x: nat, node: nat)
    requires Valid(s)
    ensures !SplitsAt(SplitAt(s, x, node), x)
    ensures forall y :: SplitsAt(SplitAt(s, x, node), y) ==> SplitsAt(s, y)
  {
    if SplitsAt(s, x) {
      var i :| 0 <= i < |s| && s[i].start < x < s[i].end;
      SplitAtPlace(s, x, node, i);
      assert forall j | 0 <= j < i :: Before(s[j], s[i]);
      assert forall j | i < j < |s| :: Before(s[i], s[j]);
      assert s[i] in s;
    } else {
      SplitAtNone(s, x, node);
    }
  }

  /** Every area inside [start, end) takes the new flags. */
  function SetFlags(s: seq<Vma>, start: nat, end: nat, flags: nat): (r: seq<Vma>)
    ensures |r| == |s|
    ensures forall i | 0 <= i < |s| :: r[i] == Reflagged(s[i], start, end, flags)
  {
    if s == [] then [] else [Reflagged(s[0], start, end, flags)] + SetFlags(s[1..], start, end, flags)
  }

  function Reflagged(v: Vma, start: nat, end: nat, flags: nat): Vma {
    if start <= v.start && v.end <= end then v.(flags := flags) else v
  }

  predicate Covered(s: seq<Vma>, start: nat, end: nat) {
    forall a | start <= a < end :: Scan(s, a).Some?
  }

  /** Once the list has boundaries at both edges, the flags change on exactly [start, end). */
  lemma SetFlagsFlags(s: seq<Vma>, start: nat, end: nat, flags: nat, a: nat)
    requires Valid(s) && start < end && !SplitsAt(s, start) && !SplitsAt(s, end)
    requires Covered(s, start, end)
    ensures FlagsAt(SetFlags(s, start, end, flags), a) == if start <= a < end then Some(flags) else FlagsAt(s, a)
  {
    var t := SetFlags(s, start, end, flags);
    SetFlagsValid(s, start, end, flags);
    if i :| 0 <= i < |s| && Covers(s[i], a) {
      ScanHits(s, i, a);
      ScanHits(t, i, a);
      assert s[i] in s;
    } else {
      ScanMisses(s, a);
      ScanMisses(t, a);
    }
  }

  lemma SetFlagsValid(s: seq<Vma>, start: nat, end: nat, flags: nat)
    requires Valid(s)
    ensures Valid(SetFlags(s, start, end, flags)) && Ptrs(SetFlags(s, start, end, flags)) == Ptrs(s)
  {
    var t := SetFlags(s, start, end, flags);
    assert forall i | 0 <= i < |s| :: t[i].ptr == s[i].ptr && t[i].start == s[i].start && t[i].end == s[i].end;
    assert forall i | 0 <= i < |s| :: GoodArea(s[i]);
    forall i, j | 0 <= i < j < |t| ensures Before(t[i], t[j]) { assert Before(s[i], s[j]); }
  }

  // ---- duplication --------------------------------------------------------------------

  /** The same areas in other structures. */
  predicate SameAreas(s: seq<Vma>, t: seq<Vma>) {
    && |s| == |t|
    && forall i | 0 <= i < |s| :: s[i].start == t[i].start && s[i].end == t[i].end && s[i].flags == t[i].flags
  }

  lemma {:induction false} SameAreasFlags(s: seq<Vma>, t: seq<Vma>, a: nat)
    requires SameAreas(s, t)
    ensures FlagsAt(s, a) == FlagsAt(t, a)
  {
    if s != [] && !Covers(s[0], a) { SameAreasFlags(s[1..], t[1..], a); }
  }
}
