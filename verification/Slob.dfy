/** The SLOB heap: allocation and release of blocks of units from pages. */
module Slob {
  import opened Layout
  import opened SlobRing

  // Units in a page.
  const PAGE: nat := 512

  // ---- walking the ring -------------------------------------------------------------------------

  ghost function IndexOf(r: seq<nat>, b: nat): (i: nat)
    requires b in r
    ensures At(r, i, b)
  { if r[0] == b then 0 else IndexOf(r[1..], b) + 1 }

  ghost predicate At(r: seq<nat>, i: nat, b: nat) { i < |r| && r[i] == b }

  // Steps from index i to index p, going round.
  function Distance(r: seq<nat>, i: nat, p: nat): nat
    requires i < |r| && p < |r|
  { if i <= p then p - i else |r| - i + p }

  lemma NextAt(h: Heap, r: seq<nat>, i: nat)
    requires Ring(h, r) && i < |r|
    ensures Known(h, r[i]) && At(r, Follow(r, i), h.next[r[i]])
  { assert LinkOk(h, r, i); }

  lemma StepCloser(r: seq<nat>, i: nat, p: nat)
    requires i < |r| && p < |r| && i != p
    ensures Distance(r, Follow(r, i), p) == Distance(r, i, p) - 1
  { }

  // The block after which an address belongs.
  function PlaceFrom(r: seq<nat>, b: nat, i: nat): (p: nat)
    requires i < |r|
    ensures p < |r|
    decreases |r| - i
  {
    if i + 1 == |r| || b < r[i + 1] then i else PlaceFrom(r, b, i + 1)
  }

  function Place(r: seq<nat>, b: nat): (p: nat)
    requires r != []
    ensures p < |r|
  { if b < r[0] then |r| - 1 else PlaceFrom(r, b, 0) }

  // slob_free's two tests for the place to insert at.
  predicate Here(cur: nat, nxt: nat, b: nat) {
    (b > cur && b < nxt) || (cur >= nxt && (b > cur || b < nxt))
  }

  lemma {:induction false} PlaceFromRight(h: Heap, r: seq<nat>, b: nat, i: nat)
    requires Ring(h, r) && i < |r| && r[i] < b && b !in r
    ensures var p := PlaceFrom(r, b, i); i <= p && r[p] < b && (p + 1 < |r| ==> b < r[p + 1])
    decreases |r| - i
  {
    if i + 1 < |r| && b > r[i + 1] { PlaceFromRight(h, r, b, i + 1); }
  }

  /** The search stops exactly at the place. */
  lemma StopsAtPlace(h: Heap, r: seq<nat>, b: nat, i: nat)
    requires Ring(h, r) && i < |r| && b !in r
    ensures Here(r[i], After(r, i), b) <==> i == Place(r, b)
  {
    var p := Place(r, b);
    RingAt(h, r, i, p);
    RingAt(h, r, 0, i);
    RingAt(h, r, i, |r| - 1);
    if b > r[0] {
      PlaceFromRight(h, r, b, 0);
      if p + 1 < |r| { RingAt(h, r, p + 1, i); }
      if i + 1 < |r| { RingAt(h, r, i, i + 1); RingAt(h, r, i + 1, p); }
    } else {
      assert b != r[0];
      if i + 1 < |r| { RingAt(h, r, i, i + 1); }
    }
  }

  /** A range that is not free fits at its place. */
  lemma FitsAtPlace(h: Heap, r: seq<nat>, b: nat, n: nat)
    requires Ring(h, r) && n > 0 && forall u | b <= u < b + n :: !Free(h, r, u)
    ensures b !in r && r[Place(r, b)] in h.units && Fits(h, r, Place(r, b), b, n)
  {
    assert !Free(h, r, b);
    forall j: nat | j < |r| ensures Known(h, r[j]) && !(b <= r[j] < b + n) && !(r[j] <= b < End(h, r[j])) {
      assert LinkOk(h, r, j);
      assert In(h, r, j, r[j]) && Free(h, r, r[j]) && (In(h, r, j, b) <==> r[j] <= b < End(h, r[j]));
    }
    var p := Place(r, b);
    assert Known(h, r[p]) && Known(h, r[0]);
    if b > r[0] { PlaceFromRight(h, r, b, 0); }
  }

  // ---- the heap ---------------------------------------------------------------------------------

  ghost predicate Used(allocs: map<nat, nat>, u: nat) {
    exists b {:trigger b in allocs} :: b in allocs && b <= u < b + allocs[b]
  }

  predicate Apart(b: nat, n: nat, c: nat, m: nat) { b + n <= c || c + m <= b }

  // A unit is the heap's exactly if it is free or handed out, and never both.
  ghost predicate Accounted(h: Heap, r: seq<nat>, allocs: map<nat, nat>, owned: set<nat>, arena: nat, u: nat) {
    && (u in owned || u == arena <==> Free(h, r, u) || Used(allocs, u))
    && !(Free(h, r, u) && Used(allocs, u))
  }

  // No unit the heap owns is the arena or beside it.
  predicate Clear(owned: set<nat>, arena: nat) {
    arena !in owned && arena + 1 !in owned && forall u | u in owned :: u + 1 != arena
  }

  ghost predicate Sound(h: Heap, r: seq<nat>, slobfree: nat, allocs: map<nat, nat>, owned: set<nat>, arena: nat) {
    && Ring(h, r) && slobfree in r && arena in r && arena in h.units && h.units[arena] == 1 && Clear(owned, arena)
    && (forall u: nat {:trigger Accounted(h, r, allocs, owned, arena, u)} :: Accounted(h, r, allocs, owned, arena, u))
    && (forall b {:trigger b in allocs} | b in allocs :: allocs[b] > 0 && b in h.units && h.units[b] == allocs[b])
    && (forall b, c {:trigger b in allocs, c in allocs} | b in allocs && c in allocs
        && b != c :: Apart(b, allocs[b], c, allocs[c]))
  }

  // The sizes in the headers of handed-out blocks are kept.
  ghost predicate Headers(h: Heap, h': Heap, allocs: map<nat, nat>) {
    forall b {:trigger b in allocs} | b in allocs :: b in h.units && b in h'.units && h'.units[b] == h.units[b]
  }

  ghost predicate Base(h: Heap, r: seq<nat>, slobfree: nat, arena: nat) {
    Ring(h, r) && slobfree in r && arena in r && arena in h.units && h.units[arena] == 1
  }

  /** Free units become a handed-out block. */
  lemma HandOut(h: Heap, r: seq<nat>, f: nat, h': Heap, r': seq<nat>, f': nat, allocs: map<nat, nat>,
      owned: set<nat>, arena: nat, c: nat, n: nat)
    requires Sound(h, r, f, allocs, owned, arena) && Base(h', r', f', arena) && n > 0 && Headers(h, h', allocs)
    requires forall u | c <= u < c + n :: Free(h, r, u)
    requires forall u: nat :: Free(h', r', u) <==> Free(h, r, u) && !(c <= u < c + n)
    requires c in h'.units && h'.units[c] == n
    ensures c !in allocs && Sound(h', r', f', allocs[c := n], owned, arena)
  {
    hide Ring, Free, Clear;
    var allocs' := allocs[c := n];
    assert Accounted(h, r, allocs, owned, arena, c);
    assert c in allocs ==> Used(allocs, c);
    forall b | b in allocs ensures Apart(b, allocs[b], c, n) {
      var x := if b <= c then c else b;
      assert Accounted(h, r, allocs, owned, arena, x);
      assert b <= x < b + allocs[b] ==> Used(allocs, x);
    }
    forall u: nat ensures Accounted(h', r', allocs', owned, arena, u) {
      assert Accounted(h, r, allocs, owned, arena, u);
      UsedMore(allocs, c, n, u);
    }
  }

  lemma UsedMore(allocs: map<nat, nat>, c: nat, n: nat, u: nat)
    requires c !in allocs
    ensures Used(allocs[c := n], u) <==> Used(allocs, u) || c <= u < c + n
  {
    var a := allocs[c := n];
    if Used(allocs, u) { var b :| b in allocs && b <= u < b + allocs[b]; assert b in a; }
    assert c in a;
    if Used(a, u) { var b :| b in a && b <= u < b + a[b]; assert b != c ==> b in allocs; }
  }

  /** A handed-out block becomes free units. */
  lemma TakeBack(h: Heap, r: seq<nat>, f: nat, h': Heap, r': seq<nat>, f': nat, allocs: map<nat, nat>,
      owned: set<nat>, arena: nat, c: nat)
    requires Sound(h, r, f, allocs, owned, arena) && c in allocs && Base(h', r', f', arena)
        && Headers(h, h', allocs - {c})
    requires forall u: nat :: Free(h', r', u) <==> Free(h, r, u) || c <= u < c + allocs[c]
    ensures Sound(h', r', f', allocs - {c}, owned, arena)
  {
    hide Ring, Free, Clear;
    var rest, n := allocs - {c}, allocs[c];
    assert rest[c := n] == allocs;
    forall b | b in rest ensures Apart(b, rest[b], c, n) && rest[b] == allocs[b] { assert b in allocs && c in allocs; }
    forall u: nat ensures Accounted(h', r', rest, owned, arena, u) {
      assert Accounted(h, r, allocs, owned, arena, u);
      UsedMore(rest, c, n, u);
      assert c <= u < c + n ==> !Used(rest, u);
    }
  }

  function Span(b: nat, n: nat): set<nat> { set u {:trigger InSpan(b, n, u)} | b <= u < b + n && InSpan(b, n, u) }

  predicate InSpan(b: nat, n: nat, u: nat) { b <= u < b + n }

  /** Pages join the heap as free units. */
  lemma JoinPages(h: Heap, r: seq<nat>, f: nat, h': Heap, r': seq<nat>, f': nat, allocs: map<nat, nat>,
      owned: set<nat>, arena: nat, c: nat, n: nat)
    requires Sound(h, r, f, allocs, owned, arena) && Base(h', r', f', arena) && Headers(h, h', allocs)
    requires owned !! Span(c, n) && Clear(owned + Span(c, n), arena)
    requires forall u: nat :: Free(h', r', u) <==> Free(h, r, u) || c <= u < c + n
    ensures Sound(h', r', f', allocs, owned + Span(c, n), arena)
  {
    hide Ring, Free, Used;
    forall u: nat ensures Accounted(h', r', allocs, owned + Span(c, n), arena, u) {
      assert Accounted(h, r, allocs, owned, arena, u);
      assert u in Span(c, n) <==> InSpan(c, n, u);
    }
  }

  /** Free units leave the heap as pages. */
  lemma LeavePages(h: Heap, r: seq<nat>, f: nat, h': Heap, r': seq<nat>, f': nat, allocs: map<nat, nat>,
      owned: set<nat>, arena: nat, c: nat, n: nat)
    requires Sound(h, r, f, allocs, owned, arena) && Base(h', r', f', arena) && Headers(h, h', allocs)
    requires forall u: nat | c <= u < c + n :: Free(h, r, u) && u != arena
    requires forall u: nat :: Free(h', r', u) <==> Free(h, r, u) && !(c <= u < c + n)
    ensures Span(c, n) <= owned && Sound(h', r', f', allocs, owned - Span(c, n), arena)
  {
    hide Ring, Free, Used;
    forall u: nat ensures Accounted(h', r', allocs, owned - Span(c, n), arena, u) && (u in Span(c, n) ==> u in owned) {
      assert Accounted(h, r, allocs, owned, arena, u);
      assert u in Span(c, n) <==> InSpan(c, n, u);
    }
  }

  // ---- steps of the heap ------------------------------------------------------------------------

  // The blocks a walk that started after index s has passed when it stands at index i.
  predicate Passed(s: nat, i: nat, j: nat) { if i > s then s < j < i else s < j || j < i }

  // A free unit is no handed-out block's header.
  lemma NoHeader(h: Heap, r: seq<nat>, f: nat, allocs: map<nat, nat>, owned: set<nat>, arena: nat, u: nat)
    requires Sound(h, r, f, allocs, owned, arena) && Free(h, r, u)
    ensures u !in allocs
  {
    assert Accounted(h, r, allocs, owned, arena, u);
    assert u in allocs ==> Used(allocs, u);
  }

  lemma BlockFree(h: Heap, r: seq<nat>, i: nat)
    requires Ring(h, r) && i < |r|
    ensures Known(h, r[i]) && forall u: nat | r[i] <= u < End(h, r[i]) :: Free(h, r, u)
  {
    assert LinkOk(h, r, i);
    forall u: nat | r[i] <= u < End(h, r[i]) ensures Free(h, r, u) { assert In(h, r, i, u); }
  }

  // A block is in the ring once.
  lemma OnlyOnce(h: Heap, r: seq<nat>, i: nat)
    requires Ring(h, r) && i < |r|
    ensures r[i] !in Without(r, i)
  {
    forall j: nat | j < |r| && r[j] == r[i] ensures j == i { RingAt(h, r, j, i); }
    var w := Without(r, i);
    assert forall j | 0 <= j < |w| :: w[j] == r[if j < i then j else j + 1];
  }

  // Two different blocks are in the ring.
  lemma TwoBlocks(h: Heap, r: seq<nat>, arena: nat, i: nat)
    requires Ring(h, r) && arena in r && i < |r| && r[i] != arena
    ensures |r| >= 2 && Before(r, i) != r[i] && Before(r, i) in Without(r, i) && arena in Without(r, i)
  {
    var k :| 0 <= k < |r| && r[k] == arena;
    var p := if i == 0 then |r| - 1 else i - 1;
    RingAt(h, r, p, i);
    assert Without(r, i)[if k < i then k else k - 1] == arena;
    assert Without(r, i)[if p < i then p else p - 1] == Before(r, i);
  }

  /** Taking a whole block, or the front of a larger one. */
  lemma TakeExact(h: Heap, r: seq<nat>, f: nat, allocs: map<nat, nat>, owned: set<nat>, arena: nat, i: nat)
    requires Sound(h, r, f, allocs, owned, arena) && i < |r| && r[i] != arena
    ensures Known(h, r[i]) && r[i] !in allocs
    ensures var h' := h.(next := h.next[Before(r, i) := h.next[r[i]]]);
            Sound(h', Without(r, i), Before(r, i), allocs[r[i] := h.units[r[i]]], owned, arena)
  {
    TwoBlocks(h, r, arena, i);
    Unlink(h, r, i);
    BlockFree(h, r, i);
    var h', r' := h.(next := h.next[Before(r, i) := h.next[r[i]]]), Without(r, i);
    UnlinkFree(h, r, i, h');
    HandOut(h, r, f, h', r', Before(r, i), allocs, owned, arena, r[i], h.units[r[i]]);
  }

  lemma TakeFront(h: Heap, r: seq<nat>, f: nat, allocs: map<nat, nat>, owned: set<nat>, arena: nat, i: nat, n: nat)
    requires Sound(h, r, f, allocs, owned, arena) && i < |r| && r[i] != arena && Known(h, r[i]) && 0 < n < h.units[r[i]]
    ensures r[i] !in allocs
    ensures Sound(Cut(h, Before(r, i), r[i], n), r[i := r[i] + n], Before(r, i), allocs[r[i] := n], owned, arena)
  {
    TwoBlocks(h, r, arena, i);
    Shorten(h, r, i, n);
    BlockFree(h, r, i);
    var c := r[i];
    var h', r' := Cut(h, Before(r, i), c, n), r[i := c + n];
    assert Free(h, r, c) && Free(h, r, c + n);
    NoHeader(h, r, f, allocs, owned, arena, c);
    NoHeader(h, r, f, allocs, owned, arena, c + n);
    FrontBase(h, r, arena, i, n);
    HandOut(h, r, f, h', r', Before(r, i), allocs, owned, arena, c, n);
  }

  lemma FrontBase(h: Heap, r: seq<nat>, arena: nat, i: nat, n: nat)
    requires Ring(h, r) && arena in r && arena in h.units && h.units[arena] == 1 && i < |r| && r[i] != arena
    requires Known(h, r[i]) && 0 < n < h.units[r[i]] && |r| >= 2
    ensures var h', r' := Cut(h, Before(r, i), r[i], n), r[i := r[i] + n];
            Before(r, i) in r' && arena in r' && arena in h'.units && h'.units[arena] == 1
  {
    var k :| 0 <= k < |r| && r[k] == arena;
    var p := if i == 0 then |r| - 1 else i - 1;
    RingAt(h, r, p, i);
    RingAt(h, r, k, i);
    var r' := r[i := r[i] + n];
    assert r'[k] == arena && r'[p] == Before(r, i);
    if k < i { RingOrder(h, r, k, i); } else { RingOrder(h, r, i, k); }
  }

  // The arena neither overlaps nor touches a range that the heap owns.
  lemma OwnedPlaceable(h: Heap, r: seq<nat>, f: nat, allocs: map<nat, nat>, owned: set<nat>, arena: nat, b: nat,
      n: nat, owned': set<nat>)
    requires Sound(h, r, f, allocs, owned, arena) && n > 0 && (forall u: nat | b <= u < b + n :: !Free(h, r, u))
    requires Span(b, n) <= owned' && Clear(owned', arena)
    ensures b !in r && Placeable(h, r, Place(r, b), b, n)
  {
    FitsAtPlace(h, r, b, n);
    var p := Place(r, b);
    assert LinkOk(h, r, p) && LinkOk(h, r, Follow(r, p));
    assert InSpan(b, n, b) && InSpan(b, n, b + n - 1);
    assert b in owned' && b + n - 1 in owned';
  }

  lemma LinkBase(h: Heap, r: seq<nat>, f: nat, allocs: map<nat, nat>, owned: set<nat>, arena: nat, b: nat, n: nat,
      owned': set<nat>)
    requires Sound(h, r, f, allocs, owned, arena) && b !in r && Placeable(h, r, Place(r, b), b, n)
    requires Span(b, n) <= owned' && Clear(owned', arena)
    ensures var p := Place(r, b); Base(Linked(h, r[p], b, n), LinkedRing(h, r, p, b, n), r[p], arena)
  {
    var p := Place(r, b);
    LinkKeeps(h, r, p, b, n);
    var k :| 0 <= k < |r| && r[k] == arena;
    assert InSpan(b, n, b) && InSpan(b, n, b + n - 1);
    assert b in owned' && b + n - 1 in owned';
    var f := Follow(r, p);
    RingAt(h, r, k, p);
    RingAt(h, r, k, f);
    RingAt(h, r, p, f);
    var r' := LinkedRing(h, r, p, b, n);
    hide Ring, Sound;
    assert r'[NewIndex(h, r, p, b, n, k)] == arena;
    assert r'[NewIndex(h, r, p, b, n, p)] == r[p];
  }

  /** A handed-out block goes back into the ring. */
  lemma FreeBlock(h: Heap, r: seq<nat>, f: nat, allocs: map<nat, nat>, owned: set<nat>, arena: nat, b: nat)
    requires Sound(h, r, f, allocs, owned, arena) && b in allocs
    ensures var p, n := Place(r, b), allocs[b];
            && b !in r && Placeable(h, r, p, b, n)
            && Sound(Linked(h, r[p], b, n), LinkedRing(h, r, p, b, n), r[p], allocs - {b}, owned, arena)
  {
    var n := allocs[b];
    forall u: nat | b <= u < b + n ensures !Free(h, r, u) && u in owned {
      assert Used(allocs, u);
      assert Accounted(h, r, allocs, owned, arena, u);
      var k :| 0 <= k < |r| && r[k] == arena;
      assert LinkOk(h, r, k) && In(h, r, k, arena) && Free(h, r, arena);
    }
    assert Span(b, n) <= owned;
    OwnedPlaceable(h, r, f, allocs, owned, arena, b, n, owned);
    LinkBase(h, r, f, allocs, owned, arena, b, n, owned);
    var p := Place(r, b);
    LinkFree(h, r, p, b, n);
    LinkHeaders(h, r, f, allocs, owned, arena, b, n);
    TakeBack(h, r, f, Linked(h, r[p], b, n), LinkedRing(h, r, p, b, n), r[p], allocs, owned, arena, b);
  }

  lemma LinkHeaders(h: Heap, r: seq<nat>, f: nat, allocs: map<nat, nat>, owned: set<nat>, arena: nat, b: nat, n: nat)
    requires Sound(h, r, f, allocs, owned, arena) && b !in r && Placeable(h, r, Place(r, b), b, n)
    ensures Headers(h, Linked(h, r[Place(r, b)], b, n), allocs - {b})
  {
    var p := Place(r, b);
    BlockFree(h, r, p);
    assert Free(h, r, r[p]);
    NoHeader(h, r, f, allocs, owned, arena, r[p]);
  }

  /** A fresh page goes into the ring. */
  lemma AddPage(h: Heap, r: seq<nat>, f: nat, allocs: map<nat, nat>, owned: set<nat>, arena: nat, b: nat)
    requires Sound(h, r, f, allocs, owned, arena) && owned !! Span(b, PAGE) && Clear(owned + Span(b, PAGE), arena)
    ensures var p := Place(r, b);
            && b !in r && Known(h, r[p]) && Known(h, h.next[r[p]])
            && Sound(Linked(h, r[p], b, PAGE), LinkedRing(h, r, p, b, PAGE), r[p], allocs, owned + Span(b, PAGE), arena)
            && OwnIndex(h, r, p, b, PAGE) < |LinkedRing(h, r, p, b, PAGE)|
            && (var c := LinkedRing(h, r, p, b, PAGE)[OwnIndex(h, r, p, b, PAGE)];
                c in Linked(h, r[p], b, PAGE).units && Linked(h, r[p], b, PAGE).units[c] >= PAGE)
  {
    var owned' := owned + Span(b, PAGE);
    forall u: nat | b <= u < b + PAGE ensures !Free(h, r, u) && u !in owned && u != arena {
      assert InSpan(b, PAGE, u) && u in Span(b, PAGE) && u in owned';
      assert Accounted(h, r, allocs, owned, arena, u);
    }
    assert b !in allocs by {
      assert Accounted(h, r, allocs, owned, arena, b);
      assert b in allocs ==> Used(allocs, b);
    }
    assert allocs - {b} == allocs;
    OwnedPlaceable(h, r, f, allocs, owned, arena, b, PAGE, owned');
    LinkBase(h, r, f, allocs, owned, arena, b, PAGE, owned');
    var p := Place(r, b);
    LinkFree(h, r, p, b, PAGE);
    LinkHeaders(h, r, f, allocs, owned, arena, b, PAGE);
    JoinPages(h, r, f, Linked(h, r[p], b, PAGE), LinkedRing(h, r, p, b, PAGE), r[p], allocs, owned, arena, b, PAGE);
    GetsUnits(h, r, p, b, PAGE, b);
    GetsUnits(h, r, p, b, PAGE, b + PAGE - 1);
  }

  /** A block of whole pages leaves the ring. */
  lemma DropBlock(h: Heap, r: seq<nat>, f: nat, allocs: map<nat, nat>, owned: set<nat>, arena: nat, i: nat)
    requires Sound(h, r, f, allocs, owned, arena) && i < |r| && r[i] != arena
    ensures Known(h, r[i])
    ensures var h' := h.(next := h.next[Before(r, i) := h.next[r[i]]]);
            && Span(r[i], h.units[r[i]]) <= owned
            && Sound(h', Without(r, i), if f == r[i] then Before(r, i)
                else f, allocs, owned - Span(r[i], h.units[r[i]]), arena)
  {
    TwoBlocks(h, r, arena, i);
    Unlink(h, r, i);
    BlockFree(h, r, i);
    var h', r' := h.(next := h.next[Before(r, i) := h.next[r[i]]]), Without(r, i);
    UnlinkFree(h, r, i, h');
    var c, n := r[i], h.units[r[i]];
    var f' := if f == c then Before(r, i) else f;
    assert f' in r' by {
      if f != c { var j :| 0 <= j < |r| && r[j] == f; assert r'[if j < i then j else j - 1] == f; }
    }
    var k :| 0 <= k < |r| && r[k] == arena;
    if k < i { RingOrder(h, r, k, i); } else { RingOrder(h, r, i, k); }
    LeavePages(h, r, f, h', r', f', allocs, owned, arena, c, n);
  }

  /** Going round from the block after `f`, block c is the first one with room for n units. */
  ghost predicate FirstFit(h: Heap, r: seq<nat>, f: nat, n: nat, c: nat) {
    f in r && exists i: nat {:trigger At(r, i, c)} ::
      && At(r, i, c) && c in h.units && h.units[c] >= n
      && forall j: nat {:trigger Passed(IndexOf(r, f), i, j)} | j < |r|
          && Passed(IndexOf(r, f), i, j) :: TooSmall(h, r[j], n)
  }

  ghost predicate TooSmall(h: Heap, b: nat, n: nat) { b in h.units && h.units[b] < n }

  // The block that a freed block became part of, and whether it is whole pages of the page allocator.
  function Release(h: Heap, cur: nat, b: nat): nat
    requires cur in h.units
  { if End(h, cur) == b then cur else b }

  predicate WholePages(h: Heap, c: nat, arena: nat) {
    c != arena && c % PAGE == 0 && c in h.units && h.units[c] % PAGE == 0
  }

  // A fresh page has been linked in at its place, where slobfree now points.
  ghost predicate PageLinked(h: Heap, r: seq<nat>, b: nat, h': Heap, r': seq<nat>, f': nat)
    requires r != []
  {
    var p := Place(r, b);
    && Known(h, r[p]) && Known(h, h.next[r[p]])
    && h' == Linked(h, r[p], b, PAGE) && r' == LinkedRing(h, r, p, b, PAGE) && f' == r[p]
  }

  class SlobHeap {
    var next: map<nat, nat>
    var units: map<nat, nat>
    var slobfree: nat
    const arena: nat
    ghost var ring: seq<nat>
    ghost var allocs: map<nat, nat>
    ghost var owned: set<nat>

    function H(): Heap
      reads this
    { Heap(next, units) }

    ghost predicate Valid()
      reads this
    { Sound(H(), ring, slobfree, allocs, owned, arena) }

    constructor (arena: nat)
      ensures Valid() && this.arena == arena && ring == [arena] && allocs == map[] && owned == {}
    {
      this.arena := arena;
      next, units, slobfree := map[arena := arena], map[arena := 1], arena;
      ring, allocs, owned := [arena], map[], {};
      new;
      forall u: nat ensures Accounted(H(), ring, allocs, owned, arena, u) {
        assert In(H(), ring, 0, u) <==> u == arena;
      }
    }

    // The first block with room, going round from the one after slobfree.
    method FindFit(n: nat) returns (found: bool, prev: nat, cur: nat, ghost i: nat)
      requires Valid()
      ensures found ==> At(ring, i, cur) && prev == Before(ring, i) && cur in units && units[cur] >= n
      ensures found ==> FirstFit(H(), ring, slobfree, n, cur)
      ensures n <= 1 ==> found && slobfree in next && cur == next[slobfree] && prev == slobfree
      ensures !found ==> forall j: nat | j < |ring| :: ring[j] in units && units[ring[j]] < n
    {
      ghost var h, r := H(), ring;
      ghost var s := IndexOf(r, slobfree);
      NextAt(h, r, s);
      prev, cur, i := slobfree, next[slobfree], Follow(r, s);
      NextAt(h, r, i);
      while units[cur] < n
        invariant At(r, i, cur) && cur in units && cur in next && prev == Before(r, i)
        invariant units[cur] >= 1 && (n <= 1 ==> cur == next[slobfree] && prev == slobfree)
        invariant forall j: nat {:trigger Passed(s, i, j)} | j < |r| && Passed(s, i, j) :: TooSmall(h, r[j], n)
        decreases Distance(r, i, s)
      {
        if cur == slobfree {
          RingAt(h, r, i, s);
          forall j: nat | j < |r| ensures r[j] in units && units[r[j]] < n { assert Passed(s, i, j) || j == i; }
          return false, prev, cur, i;
        }
        StepCloser(r, i, s);
        NextAt(h, r, i);
        ghost var i' := Follow(r, i);
        assert forall j: nat | j < |r| && Passed(s, i', j) :: Passed(s, i, j) || j == i;
        prev, cur, i := cur, next[cur], i';
        NextAt(h, r, i);
      }
      found := true;
    }

    // The block, or its first units, leaves the ring.
    method Take(prev: nat, cur: nat, n: nat, ghost i: nat)
      requires Valid() && At(ring, i, cur) && prev == Before(ring, i) && cur in units && 1 <= n <= units[cur]
      modifies this`next, this`units, this`slobfree, this`ring, this`allocs
      ensures cur != arena ==> Valid() && cur !in old(allocs)
      ensures allocs == old(allocs)[cur := n]
      ensures cur == arena ==>
        && n == 1 && arena !in ring && cur in old(next) && next == old(next)[prev := old(next)[cur]]
        && units == old(units) && slobfree == prev
    {
      ghost var h, r := H(), ring;
      NextAt(h, r, i);
      if units[cur] == n {
        if cur != arena { TakeExact(h, r, slobfree, allocs, owned, arena, i); } else { OnlyOnce(h, r, i); }
        next := next[prev := next[cur]];
        ring := Without(r, i);
      } else {
        TakeFront(h, r, slobfree, allocs, owned, arena, i, n);
        next := next[prev := cur + n][cur + n := next[cur]];
        units := units[cur + n := units[cur] - n][cur := n];
        ring := r[i := cur + n];
      }
      slobfree := prev;
      allocs := allocs[cur := n];
    }

    // Where slob_free links a block in.
    method FindPlace(b: nat) returns (cur: nat)
      requires Valid() && b !in ring
      ensures cur == ring[Place(ring, b)]
    {
      ghost var h, r := H(), ring;
      cur := slobfree;
      ghost var i := IndexOf(r, cur);
      NextAt(h, r, i);
      while !Here(cur, next[cur], b)
        invariant At(r, i, cur) && cur in next && next[cur] == After(r, i)
        decreases Distance(r, i, Place(r, b))
      {
        StopsAtPlace(h, r, b, i);
        StepCloser(r, i, Place(r, b));
        NextAt(h, r, i);
        cur, i := next[cur], Follow(r, i);
        NextAt(h, r, i);
      }
      StopsAtPlace(h, r, b, i);
    }

    // The links of slob_free.
    method Link(cur: nat, b: nat, n: nat) returns (release: nat)
      requires Known(H(), cur) && Known(H(), next[cur]) && b != cur && b != next[cur]
      modifies this`next, this`units
      ensures H() == Linked(old(H()), cur, b, n)
      ensures release == Release(old(H()), cur, b)
    {
      var nxt := next[cur];
      units := units[b := n];
      if b + units[b] == nxt {
        units := units[b := units[b] + units[nxt]];
        next := next[b := next[nxt]];
      } else {
        next := next[b := nxt];
      }
      if cur + units[cur] == b {
        units := units[cur := units[cur] + units[b]];
        next := next[cur := next[b]];
        release := cur;
      } else {
        next := next[cur := b];
        release := b;
      }
    }

    // The block before `release`, searched from the arena.
    method FindBefore(release: nat, ghost t: nat) returns (prev: nat)
      requires Valid() && At(ring, t, release) && release != arena
      ensures prev == Before(ring, t)
    {
      ghost var h, r, i := H(), ring, IndexOf(ring, arena);
      prev := arena;
      NextAt(h, r, i);
      while next[prev] != release
        invariant At(r, i, prev) && prev in next && next[prev] == After(r, i)
        invariant i != t
        decreases Distance(r, i, t)
      {
        RingAt(h, r, Follow(r, i), t);
        StepCloser(r, i, t);
        prev, i := next[prev], Follow(r, i);
        NextAt(h, r, i);
      }
      RingAt(h, r, Follow(r, i), t);
    }

    // The block at `release` leaves the ring.
    method Unlist(release: nat)
      requires Valid() && release in ring && release != arena
      modifies this`next, this`slobfree, this`ring, this`owned
      ensures Valid() && release in units && Span(release, units[release]) <= old(owned)
      ensures owned == old(owned) - Span(release, units[release])
    {
      ghost var h, r, t := H(), ring, IndexOf(ring, release);
      var prev := FindBefore(release, t);
      DropBlock(h, r, slobfree, allocs, owned, arena, t);
      next := next[prev := next[release]];
      if slobfree == release { slobfree := prev; }
      ring := Without(r, t);
      owned := owned - Span(release, units[release]);
    }

    /** slob_free of a handed-out block: it is linked in and merged; a result of whole pages goes
        back to the page allocator. */
    method SlobFree(b: nat) returns (returned: Option<(nat, nat)>)
      requires Valid() && b in allocs
      modifies this
      ensures Valid() && allocs == old(allocs) - {b}
      ensures var p := Place(old(ring), b);
              && Known(old(H()), old(ring)[p]) && Known(old(H()), old(H()).next[old(ring)[p]])
              && var h := Linked(old(H()), old(ring)[p], b, old(allocs)[b]);
                 var c := Release(old(H()), old(ring)[p], b);
                 returned == if WholePages(h, c, arena) then Some((c, h.units[c])) else None
      ensures returned.None? ==> owned == old(owned)
      ensures returned.Some? ==>
        && returned.value.0 % PAGE == 0 && returned.value.1 % PAGE == 0 && returned.value.1 > 0
        && Span(returned.value.0, returned.value.1) <= old(owned)
            && owned == old(owned) - Span(returned.value.0, returned.value.1)
    {
      ghost var h, r, p := H(), ring, Place(ring, b);
      FreeBlock(h, r, slobfree, allocs, owned, arena, b);
      NextAt(h, r, p);
      var cur := FindPlace(b);
      var n := units[b];
      var release := Link(cur, b, n);
      slobfree := cur;
      ring := LinkedRing(h, r, p, b, n);
      allocs := allocs - {b};
      ReleaseInRing(h, r, p, b, n);
      returned := None;
      if release != arena && release % PAGE == 0 && units[release] % PAGE == 0 {
        returned := Some((release, units[release]));
        Unlist(release);
      }
    }

    // A page from the page allocator.
    method AddFresh(b: nat)
      requires Valid() && owned !! Span(b, PAGE) && Clear(owned + Span(b, PAGE), arena)
      modifies this
      ensures Valid() && allocs == old(allocs) && owned == old(owned) + Span(b, PAGE)
      ensures exists j: nat :: j < |ring| && ring[j] in units && units[ring[j]] >= PAGE
      ensures PageLinked(old(H()), old(ring), b, H(), ring, slobfree)
    {
      ghost var h, r, p := H(), ring, Place(ring, b);
      AddPage(h, r, slobfree, allocs, owned, arena, b);
      NextAt(h, r, p);
      var cur := FindPlace(b);
      var release := Link(cur, b, PAGE);
      slobfree := cur;
      ring := LinkedRing(h, r, p, b, PAGE);
      owned := owned + Span(b, PAGE);
      assert ring[OwnIndex(h, r, p, b, PAGE)] in units;
    }

    /** slob_alloc without alignment: first fit, after at most one page from the page allocator.  The
        heap stays sound unless the arena itself is handed out, which happens exactly to a request of
        one unit made while slobfree points at the arena's predecessor. */
    method SlobAlloc(n: nat, page: Option<nat>) returns (r: Option<nat>, took: bool)
      requires Valid() && 1 <= n < PAGE
      requires page.Some? ==> owned !! Span(page.value, PAGE) && Clear(owned + Span(page.value, PAGE), arena)
      modifies this
      ensures r == Some(arena) <==> n == 1 && old(slobfree in next && next[slobfree] == arena)
      ensures Valid() <==> r != Some(arena)
      ensures r == Some(arena) ==>
        && old(slobfree) in old(next) && arena in old(next) && next == old(next)[old(slobfree) := old(next)[arena]]
        && units == old(units) && slobfree == old(slobfree)
      ensures r.Some? ==> allocs == old(allocs)[r.value := n] && (r.value != arena ==> r.value !in old(allocs))
      ensures r.Some? && !took ==> FirstFit(old(H()), old(ring), old(slobfree), n, r.value)
      ensures took ==> page.Some? && r.Some?
      ensures took ==>
        exists h, q, f :: PageLinked(old(H()), old(ring), page.value, h, q, f) && FirstFit(h, q, f, n, r.value)
      ensures owned == if took then old(owned) + Span(page.value, PAGE) else old(owned)
      ensures took <==> page.Some? && old(forall j: nat | j < |ring| :: ring[j] in units && units[ring[j]] < n)
      ensures r.None? ==>
        unchanged(this) && page.None? && forall j: nat | j < |ring| :: ring[j] in units && units[ring[j]] < n
    {
      var found, prev, cur;
      ghost var i;
      found, prev, cur, i := FindFit(n);
      took := false;
      if !found {
        if page.None? { return None, false; }
        AddFresh(page.value);
        took := true;
        found, prev, cur, i := FindFit(n);
      }
      Take(prev, cur, n, i);
      r := Some(cur);
    }
  }

  /** On a fresh heap a request of one unit gets the arena and leaves every link as it was, so the next
      such request gets the same block. */
  method ArenaTwice(arena: nat) returns (h: SlobHeap, first: Option<nat>, second: Option<nat>)
    ensures first == second == Some(arena) && h.arena == arena
  {
    h := new SlobHeap(arena);
    assert LinkOk(h.H(), h.ring, 0);
    ghost var allocs, owned := h.allocs, h.owned;
    ghost var boot := h.H();
    var took;
    first, took := h.SlobAlloc(1, None);
    assert h.next == boot.next && h.units == boot.units && h.slobfree == arena;
    h.ring, h.allocs, h.owned := [arena], allocs, owned;
    second, took := h.SlobAlloc(1, None);
  }

  // The block that slob_free may give back to the page allocator is in the ring.
  lemma ReleaseInRing(h: Heap, r: seq<nat>, i: nat, b: nat, n: nat)
    requires Placeable(h, r, i, b, n)
    ensures (if End(h, r[i]) == b then r[i] else b) in LinkedRing(h, r, i, b, n)
  {
    var r', k := LinkedRing(h, r, i, b, n), OwnIndex(h, r, i, b, n);
    GetsUnits(h, r, i, b, n, b);
    RingAt(h, r, i, Follow(r, i));
    Position(h, r, i, b, n, Follow(r, i));
    hide Ring;
    assert r'[k] == if End(h, r[i]) == b then r[i] else b;
  }
}
