/** The free list of the SLOB heap: blocks of units, linked in address order into a ring. */
module SlobRing {
  import opened Layout

  // What the heap keeps in its blocks.
  datatype Heap = Heap(next: map<nat, nat>, units: map<nat, nat>)

  function After(r: seq<nat>, i: nat): nat
    requires i < |r|
  { if i + 1 < |r| then r[i + 1] else r[0] }

  function Before(r: seq<nat>, i: nat): nat
    requires i < |r|
  { if i == 0 then r[|r| - 1] else r[i - 1] }

  predicate Known(h: Heap, b: nat) { b in h.next && b in h.units && h.units[b] > 0 }

  function End(h: Heap, b: nat): nat
    requires b in h.units
  { b + h.units[b] }

  // Block i is linked to its successor and ends before it, with a gap.
  predicate LinkOk(h: Heap, r: seq<nat>, i: nat)
    requires i < |r|
  {
    && Known(h, r[i]) && h.next[r[i]] == After(r, i)
    && (i + 1 < |r| ==> End(h, r[i]) < r[i + 1])
  }

  /** The free list: a ring through `r`, in address order, of blocks that neither overlap nor touch. */
  ghost predicate Ring(h: Heap, r: seq<nat>) {
    r != [] && forall i: nat {:trigger LinkOk(h, r, i)} | i < |r| :: LinkOk(h, r, i)
  }

  lemma {:induction false} RingOrder(h: Heap, r: seq<nat>, i: nat, j: nat)
    requires Ring(h, r) && i < j < |r|
    ensures Known(h, r[i]) && Known(h, r[j]) && End(h, r[i]) < r[j]
    decreases j - i
  {
    assert LinkOk(h, r, i) && LinkOk(h, r, j);
    if i + 1 < j { RingOrder(h, r, i + 1, j); }
  }

  lemma RingAt(h: Heap, r: seq<nat>, i: nat, j: nat)
    requires Ring(h, r) && i < |r| && j < |r|
    ensures Known(h, r[i]) && (r[i] == r[j] <==> i == j) && (r[i] < r[j] <==> i < j)
  {
    assert LinkOk(h, r, i);
    if i < j { RingOrder(h, r, i, j); } else if j < i { RingOrder(h, r, j, i); }
  }

  predicate In(h: Heap, r: seq<nat>, i: nat, u: nat)
    requires i < |r|
  { r[i] in h.units && r[i] <= u < End(h, r[i]) }

  /** Unit u is in a free block. */
  ghost predicate Free(h: Heap, r: seq<nat>, u: nat) {
    exists i: nat {:trigger In(h, r, i, u)} :: i < |r| && In(h, r, i, u)
  }

  // Two blocks do not share a unit.
  lemma Alone(h: Heap, r: seq<nat>, i: nat, j: nat, u: nat)
    requires Ring(h, r) && i < |r| && j < |r| && In(h, r, i, u) && In(h, r, j, u)
    ensures i == j
  {
    if i < j { RingOrder(h, r, i, j); } else if j < i { RingOrder(h, r, j, i); }
  }

  // ---- taking ---------------------------------------------------------------------------------

  function Without(r: seq<nat>, i: nat): seq<nat>
    requires i < |r|
  { r[..i] + r[i + 1..] }

  /** Unlinking a whole block. */
  lemma Unlink(h: Heap, r: seq<nat>, i: nat)
    requires Ring(h, r) && |r| >= 2 && i < |r|
    ensures Known(h, r[i]) && Ring(h.(next := h.next[Before(r, i) := h.next[r[i]]]), Without(r, i))
  {
    assert LinkOk(h, r, i);
    var r', h' := Without(r, i), h.(next := h.next[Before(r, i) := h.next[r[i]]]);
    forall k: nat | k < |r'| ensures LinkOk(h', r', k) {
      var j := if k < i then k else k + 1;
      assert LinkOk(h, r, j);
      RingAt(h, r, j, if i == 0 then |r| - 1 else i - 1);
      if k + 1 == i && i + 1 < |r| { RingOrder(h, r, k, i + 1); }
    }
  }

  lemma UnlinkFree(h: Heap, r: seq<nat>, i: nat, h': Heap)
    requires Ring(h, r) && i < |r| && h'.units == h.units
    ensures forall u: nat :: Free(h', Without(r, i), u) <==> Free(h, r, u) && !In(h, r, i, u)
  {
    var r' := Without(r, i);
    forall u: nat ensures Free(h', r', u) <==> Free(h, r, u) && !In(h, r, i, u) {
      if Free(h, r, u) && !In(h, r, i, u) {
        var j: nat :| j < |r| && In(h, r, j, u);
        assert In(h', r', if j < i then j else j - 1, u);
      }
      if Free(h', r', u) {
        var k: nat :| k < |r'| && In(h', r', k, u);
        var j := if k < i then k else k + 1;
        assert In(h, r, j, u);
        if In(h, r, i, u) { Alone(h, r, i, j, u); }
      }
    }
  }

  // The heap after the first n units of block c are cut off it; p is the block before.
  function Cut(h: Heap, p: nat, c: nat, n: nat): Heap
    requires Known(h, c) && n < h.units[c]
  {
    Heap(h.next[p := c + n][c + n := h.next[c]], h.units[c + n := h.units[c] - n][c := n])
  }

  /** Cutting the first units off a block. */
  lemma Shorten(h: Heap, r: seq<nat>, i: nat, n: nat)
    requires Ring(h, r) && |r| >= 2 && i < |r| && Known(h, r[i]) && 0 < n < h.units[r[i]]
    ensures Ring(Cut(h, Before(r, i), r[i], n), r[i := r[i] + n])
    ensures var h' := Cut(h, Before(r, i), r[i], n);
            forall u: nat :: Free(h', r[i := r[i] + n], u) <==> Free(h, r, u) && !(r[i] <= u < r[i] + n)
  {
    var c := r[i];
    var r', h' := r[i := c + n], Cut(h, Before(r, i), c, n);
    forall k: nat | k < |r| ensures LinkOk(h', r', k) { ShortenAt(h, r, i, n, k); }
    hide Cut;
    forall u: nat ensures Free(h', r', u) <==> Free(h, r, u) && !(c <= u < c + n) {
      if Free(h, r, u) {
        var j: nat :| j < |r| && In(h, r, j, u);
        ShortenAt(h, r, i, n, j);
        ShortenIn(h, r, i, n, j, u);
      }
      if Free(h', r', u) {
        var j: nat :| j < |r'| && In(h', r', j, u);
        ShortenAt(h, r, i, n, j);
        ShortenIn(h, r, i, n, j, u);
      }
    }
  }

  lemma ShortenAt(h: Heap, r: seq<nat>, i: nat, n: nat, k: nat)
    requires Ring(h, r) && |r| >= 2 && i < |r| && Known(h, r[i]) && 0 < n < h.units[r[i]] && k < |r|
    ensures var h' := Cut(h, Before(r, i), r[i], n);
            && LinkOk(h', r[i := r[i] + n], k) && Known(h, r[k])
            && (k == i ==> h'.units[r[i] + n] == h.units[r[i]] - n) && (k != i ==> h'.units[r[k]] == h.units[r[k]])
  {
    assert LinkOk(h, r, i) && LinkOk(h, r, k);
    RingAt(h, r, k, i);
    RingAt(h, r, k, if i == 0 then |r| - 1 else i - 1);
    RingAt(h, r, i, if i == 0 then |r| - 1 else i - 1);
    if k < i { RingOrder(h, r, k, i); } else if i < k { RingOrder(h, r, i, k); }
    hide Ring;
  }

  lemma ShortenIn(h: Heap, r: seq<nat>, i: nat, n: nat, j: nat, u: nat)
    requires Ring(h, r) && i < |r| && Known(h, r[i]) && 0 < n < h.units[r[i]] && j < |r| && Known(h, r[j])
    requires var h' := Cut(h, Before(r, i), r[i], n);
             && r[i] + n in h'.units && r[j] in h'.units
             && (j == i ==> h'.units[r[i] + n] == h.units[r[i]] - n) && (j != i ==> h'.units[r[j]] == h.units[r[j]])
    ensures In(Cut(h, Before(r, i), r[i], n), r[i := r[i] + n], j, u) <==> In(h, r, j, u) && !(r[i] <= u < r[i] + n)
  {
    if j < i { RingOrder(h, r, j, i); } else if i < j { RingOrder(h, r, i, j); }
    hide Ring;
  }

  // ---- giving back ----------------------------------------------------------------------------

  function Follow(r: seq<nat>, i: nat): nat
    requires i < |r|
  { if i + 1 < |r| then i + 1 else 0 }

  /** The n units at b lie between block i and the next one, or beyond both ends of the ring. */
  predicate Fits(h: Heap, r: seq<nat>, i: nat, b: nat, n: nat)
    requires i < |r| && r[i] in h.units
  {
    && n > 0
    && (if i + 1 < |r| then End(h, r[i]) <= b && b + n <= r[i + 1] else End(h, r[i]) <= b || b + n <= r[0])
  }

  predicate TouchesNext(r: seq<nat>, i: nat, b: nat, n: nat)
    requires i < |r|
  { b + n == r[Follow(r, i)] }

  predicate TouchesPrevious(h: Heap, r: seq<nat>, i: nat, b: nat)
    requires i < |r| && r[i] in h.units
  { End(h, r[i]) == b }

  /** The heap after slob_free has linked the block at b in behind `cur`. */
  function Linked(h: Heap, cur: nat, b: nat, n: nat): Heap
    requires Known(h, cur) && Known(h, h.next[cur])
  {
    var nxt := h.next[cur];
    var ub, nb := if b + n == nxt then n + h.units[nxt] else n, if b + n == nxt then h.next[nxt] else nxt;
    if End(h, cur) == b then Heap(h.next[b := nb][cur := nb], h.units[b := ub][cur := h.units[cur] + ub])
    else Heap(h.next[b := nb][cur := b], h.units[b := ub])
  }

  function LinkedRing(h: Heap, r: seq<nat>, i: nat, b: nat, n: nat): seq<nat>
    requires i < |r| && r[i] in h.units
  {
    var k := Follow(r, i);
    if TouchesNext(r, i, b, n) then (if TouchesPrevious(h, r, i, b) then Without(r, k) else r[k := b])
    else if TouchesPrevious(h, r, i, b) then r
    else if i + 1 == |r| && b < r[0] then [b] + r
    else r[..i + 1] + [b] + r[i + 1..]
  }

  ghost predicate Placeable(h: Heap, r: seq<nat>, i: nat, b: nat, n: nat) {
    && Ring(h, r) && i < |r| && Known(h, r[i]) && Known(h, After(r, i)) && h.next[r[i]] == After(r, i)
        && Fits(h, r, i, b, n)
    && (|r| == 1 ==> !TouchesNext(r, i, b, n) && !TouchesPrevious(h, r, i, b))
  }

  // The new block is not one of the others, and lies before or after each.
  lemma Position(h: Heap, r: seq<nat>, i: nat, b: nat, n: nat, k: nat)
    requires Placeable(h, r, i, b, n) && k < |r|
    ensures Known(h, r[k]) && r[k] != b
    ensures if k <= i && (i + 1 < |r| || End(h, r[i]) <= b) then End(h, r[k]) <= b else b + n <= r[k]
  {
    assert LinkOk(h, r, k);
    if k < i { RingOrder(h, r, k, i); }
    if i + 1 < k { RingOrder(h, r, i + 1, k); }
    if 0 < k { RingOrder(h, r, 0, k); }
  }

  lemma PlainAt(h: Heap, r: seq<nat>, i: nat, b: nat, n: nat, k: nat)
    requires Placeable(h, r, i, b, n) && !TouchesNext(r, i, b, n) && !TouchesPrevious(h, r, i, b)
    requires k < |LinkedRing(h, r, i, b, n)|
    ensures LinkOk(Linked(h, r[i], b, n), LinkedRing(h, r, i, b, n), k)
  {
    var front := i + 1 == |r| && b < r[0];
    var at := if front then 0 else i + 1;
    assert LinkOk(h, r, i);
    Position(h, r, i, b, n, i);
    Position(h, r, i, b, n, Follow(r, i));
    Position(h, r, i, b, n, 0);
    if k != at {
      var j := if k < at then k else k - 1;
      assert LinkOk(h, r, j);
      Position(h, r, i, b, n, j);
      RingAt(h, r, j, i);
    }
    hide Ring;
  }

  lemma FrontAt(h: Heap, r: seq<nat>, i: nat, b: nat, n: nat, k: nat)
    requires Placeable(h, r, i, b, n) && TouchesNext(r, i, b, n) && !TouchesPrevious(h, r, i, b) && k < |r|
    ensures LinkOk(Linked(h, r[i], b, n), LinkedRing(h, r, i, b, n), k)
  {
    var f := Follow(r, i);
    assert LinkOk(h, r, i) && LinkOk(h, r, k) && LinkOk(h, r, f);
    Position(h, r, i, b, n, k);
    Position(h, r, i, b, n, f);
    RingAt(h, r, k, i);
    RingAt(h, r, k, f);
    if k + 1 < |r| { Position(h, r, i, b, n, k + 1); }
    Position(h, r, i, b, n, i);
    hide Ring;
  }

  lemma BackAt(h: Heap, r: seq<nat>, i: nat, b: nat, n: nat, k: nat)
    requires Placeable(h, r, i, b, n) && !TouchesNext(r, i, b, n) && TouchesPrevious(h, r, i, b) && k < |r|
    ensures LinkOk(Linked(h, r[i], b, n), LinkedRing(h, r, i, b, n), k)
  {
    assert LinkOk(h, r, i) && LinkOk(h, r, k);
    Position(h, r, i, b, n, k);
    RingAt(h, r, k, i);
    hide Ring;
  }

  lemma BridgeAt(h: Heap, r: seq<nat>, i: nat, b: nat, n: nat, k: nat)
    requires Placeable(h, r, i, b, n) && TouchesNext(r, i, b, n) && TouchesPrevious(h, r, i, b)
    requires k < |LinkedRing(h, r, i, b, n)|
    ensures LinkOk(Linked(h, r[i], b, n), LinkedRing(h, r, i, b, n), k)
  {
    var f := Follow(r, i);
    Position(h, r, i, b, n, f);
    Position(h, r, i, b, n, i);
    assert f == i + 1;
    var j := if k < f then k else k + 1;
    assert LinkOk(h, r, i) && LinkOk(h, r, j) && LinkOk(h, r, f);
    Position(h, r, i, b, n, j);
    RingAt(h, r, j, i);
    hide Ring;
  }

  /** Linking a block in, with merging on either side, keeps the ring. */
  lemma LinkKeeps(h: Heap, r: seq<nat>, i: nat, b: nat, n: nat)
    requires Placeable(h, r, i, b, n)
    ensures Ring(Linked(h, r[i], b, n), LinkedRing(h, r, i, b, n))
  {
    var h', r' := Linked(h, r[i], b, n), LinkedRing(h, r, i, b, n);
    forall k: nat | k < |r'| ensures LinkOk(h', r', k) {
      if TouchesNext(r, i, b, n) {
        if TouchesPrevious(h, r, i, b) { BridgeAt(h, r, i, b, n, k); } else { FrontAt(h, r, i, b, n, k); }
      } else {
        if TouchesPrevious(h, r, i, b) { BackAt(h, r, i, b, n, k); } else { PlainAt(h, r, i, b, n, k); }
      }
    }
    hide Linked, LinkOk;
    if TouchesNext(r, i, b, n) && |r| == 1 { assert false; }
  }

  // Where a block, or the new units, are found after linking.
  function NewIndex(h: Heap, r: seq<nat>, i: nat, b: nat, n: nat, j: nat): nat
    requires i < |r| && r[i] in h.units
  {
    if TouchesNext(r, i, b, n) then
      if TouchesPrevious(h, r, i, b) then (if j < Follow(r, i) || j == 0 then j else j - 1) else j
    else if TouchesPrevious(h, r, i, b) then j
    else if i + 1 == |r| && b < r[0] then j + 1
    else if j <= i then j else j + 1
  }

  function OwnIndex(h: Heap, r: seq<nat>, i: nat, b: nat, n: nat): nat
    requires i < |r| && r[i] in h.units
  {
    if TouchesPrevious(h, r, i, b) then i
    else if TouchesNext(r, i, b, n) then Follow(r, i)
    else if i + 1 == |r| && b < r[0] then 0 else i + 1
  }

  lemma KeepsUnits(h: Heap, r: seq<nat>, i: nat, b: nat, n: nat, j: nat, u: nat)
    requires Placeable(h, r, i, b, n) && j < |r| && In(h, r, j, u)
    ensures var k := NewIndex(h, r, i, b, n, j);
            k < |LinkedRing(h, r, i, b, n)| && In(Linked(h, r[i], b, n), LinkedRing(h, r, i, b, n), k, u)
  {
    var f := Follow(r, i);
    Position(h, r, i, b, n, j);
    Position(h, r, i, b, n, i);
    Position(h, r, i, b, n, f);
    RingAt(h, r, j, i);
    RingAt(h, r, j, f);
    RingAt(h, r, i, f);
    hide Ring;
  }

  lemma GetsUnits(h: Heap, r: seq<nat>, i: nat, b: nat, n: nat, u: nat)
    requires Placeable(h, r, i, b, n) && b <= u < b + n
    ensures var k := OwnIndex(h, r, i, b, n);
            k < |LinkedRing(h, r, i, b, n)| && In(Linked(h, r[i], b, n), LinkedRing(h, r, i, b, n), k, u)
  {
    Position(h, r, i, b, n, i);
    Position(h, r, i, b, n, Follow(r, i));
    hide Ring;
  }

  // Every unit of a block after linking was free before or is new.
  lemma ComesFrom(h: Heap, r: seq<nat>, i: nat, b: nat, n: nat, k: nat, u: nat)
    requires Placeable(h, r, i, b, n) && k < |LinkedRing(h, r, i, b, n)|
    requires In(Linked(h, r[i], b, n), LinkedRing(h, r, i, b, n), k, u)
    ensures Free(h, r, u) || b <= u < b + n
  {
    var f := Follow(r, i);
    Position(h, r, i, b, n, i);
    Position(h, r, i, b, n, f);
    var right, left := TouchesNext(r, i, b, n), TouchesPrevious(h, r, i, b);
    var front := !right && !left && i + 1 == |r| && b < r[0];
    var at := if front then 0 else i + 1;
    var j := if right && left then (if k < f then k else k + 1)
             else if right || left then k else if k < at then k else if k == at then i else k - 1;
    Position(h, r, i, b, n, j);
    RingAt(h, r, j, i);
    RingAt(h, r, j, f);
    RingAt(h, r, i, f);
    hide Ring;
    assert In(h, r, j, u) || In(h, r, f, u) || b <= u < b + n;
  }

  /** Linking makes exactly the new units free. */
  lemma LinkFree(h: Heap, r: seq<nat>, i: nat, b: nat, n: nat)
    requires Placeable(h, r, i, b, n)
    ensures forall u: nat :: Free(Linked(h, r[i], b, n), LinkedRing(h, r, i, b, n), u) <==>
        Free(h, r, u) || b <= u < b + n
  {
    var h', r' := Linked(h, r[i], b, n), LinkedRing(h, r, i, b, n);
    hide Linked, LinkedRing, Ring, In;
    forall u: nat ensures Free(h', r', u) <==> Free(h, r, u) || b <= u < b + n {
      if Free(h', r', u) { var k: nat :| k < |r'| && In(h', r', k, u); ComesFrom(h, r, i, b, n, k, u); }
      if Free(h, r, u) { var j: nat :| j < |r| && In(h, r, j, u); KeepsUnits(h, r, i, b, n, j, u); }
      if b <= u < b + n { GetsUnits(h, r, i, b, n, u); }
    }
  }
}
