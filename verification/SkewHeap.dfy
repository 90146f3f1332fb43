/** The skew heap of run-queue nodes: trees of node numbers, the order that signed comparison of
    32-bit strides gives them, and merging and removal on trees. */
module SkewHeap {
  import opened Layout

  const BIG_STRIDE: nat := 0x7FFF_FFFF
  const WORD32: nat := 0x1_0000_0000

  // ---- strides --------------------------------------------------------------------------------

  /** The difference of two strides as the comparison sees it: 32-bit unsigned, then signed. */
  function Diff(x: int, y: int): int {
    var u := (x - y) % WORD32;
    if u < 0x8000_0000 then u else u - WORD32
  }

  // How far a stride is past `base`, modulo 2^32.
  function Off(x: int, base: int): (r: nat)
    ensures r < WORD32
  { (x - base) % WORD32 }

  /** Within a window of width BIG_STRIDE the signed difference is the true one. */
  lemma DiffInWindow(x: int, y: int, base: int)
    requires Off(x, base) <= BIG_STRIDE && Off(y, base) <= BIG_STRIDE
    ensures Diff(x, y) == Off(x, base) - Off(y, base)
  {
    var i, j := (x - base) / WORD32, (y - base) / WORD32;
    assert x - base == WORD32 * i + Off(x, base) && y - base == WORD32 * j + Off(y, base);
    var d := Off(x, base) - Off(y, base);
    assert x - y == WORD32 * (i - j) + d;
    assert (x - y) % WORD32 == d % WORD32;
  }

  type Strides = map<nat, int>

  ghost predicate InWindow(s: Strides, ids: set<nat>, base: int) {
    forall i | i in ids :: i in s && Off(s[i], base) <= BIG_STRIDE
  }

  // comp(a, b) == -1
  predicate Before(s: Strides, a: nat, b: nat)
    requires a in s && b in s
  { Diff(s[a], s[b]) < 0 }

  // comp(a, b) is 0 or -1
  predicate Leq(s: Strides, a: nat, b: nat)
    requires a in s && b in s
  { Diff(s[a], s[b]) <= 0 }

  /** In a window the comparison is a total preorder. */
  lemma TotalPreorder(s: Strides, ids: set<nat>, base: int, a: nat, b: nat, c: nat)
    requires InWindow(s, ids, base) && a in ids && b in ids && c in ids
    ensures Leq(s, a, b) <==> Off(s[a], base) <= Off(s[b], base)
    ensures Before(s, a, b) <==> !Leq(s, b, a)
    ensures Leq(s, a, a) && (Leq(s, a, b) || Leq(s, b, a)) && (Leq(s, a, b) && Leq(s, b, c) ==> Leq(s, a, c))
  {
    DiffInWindow(s[a], s[b], base);
    DiffInWindow(s[b], s[a], base);
    DiffInWindow(s[b], s[c], base);
    DiffInWindow(s[a], s[c], base);
    DiffInWindow(s[a], s[a], base);
    hide Diff, Off;
  }

  // ---- trees ----------------------------------------------------------------------------------

  datatype Tree = Leaf | Node(left: Tree, id: nat, right: Tree)

  function Ids(t: Tree): set<nat> { if t.Leaf? then {} else Ids(t.left) + {t.id} + Ids(t.right) }

  predicate Distinct(t: Tree) {
    t.Leaf? ||
    (t.id !in Ids(t.left) && t.id !in Ids(t.right) && Ids(t.left) !! Ids(t.right) && Distinct(t.left)
      && Distinct(t.right))
  }

  predicate Known(s: Strides, t: Tree) { forall i | i in Ids(t) :: i in s }

  predicate AtLeast(s: Strides, a: nat, t: Tree)
    requires a in s && Known(s, t)
  { t.Leaf? || (assert t.id in Ids(t); Leq(s, a, t.id)) }

  /** No node comes before its parent. */
  predicate Ordered(s: Strides, t: Tree)
    requires Known(s, t)
  {
    t.Leaf? || (AtLeast(s, t.id, t.left) && AtLeast(s, t.id, t.right) && Ordered(s, t.left) && Ordered(s, t.right))
  }

  /** skew_heap_merge */
  function Merge(s: Strides, a: Tree, b: Tree): Tree
    requires Known(s, a) && Known(s, b)
    decreases a, b
  {
    if a.Leaf? then b
    else if b.Leaf? then a
    else if Before(s, a.id, b.id) then Node(Merge(s, a.right, b), a.id, a.left)
    else Node(Merge(s, a, b.right), b.id, b.left)
  }

  lemma {:induction false} MergeIds(s: Strides, a: Tree, b: Tree)
    requires Known(s, a) && Known(s, b)
    ensures Ids(Merge(s, a, b)) == Ids(a) + Ids(b)
    ensures Distinct(a) && Distinct(b) && Ids(a) !! Ids(b) ==> Distinct(Merge(s, a, b))
    ensures Merge(s, a, b).Node? ==> (a.Node? && Merge(s, a, b).id == a.id) || (b.Node? && Merge(s, a, b).id == b.id)
    decreases a, b
  {
    if a.Node? && b.Node? {
      if Before(s, a.id, b.id) { MergeIds(s, a.right, b); } else { MergeIds(s, a, b.right); }
    }
  }

  /** Merging keeps heap order. */
  lemma {:induction false} MergeOrdered(s: Strides, base: int, a: Tree, b: Tree)
    requires InWindow(s, Ids(a) + Ids(b), base) && Known(s, a) && Known(s, b) && Ordered(s, a) && Ordered(s, b)
    ensures Ids(Merge(s, a, b)) == Ids(a) + Ids(b) && Known(s, Merge(s, a, b)) && Ordered(s, Merge(s, a, b))
    decreases a, b
  {
    MergeIds(s, a, b);
    if a.Node? && b.Node? {
      TotalPreorder(s, Ids(a) + Ids(b), base, a.id, b.id, a.id);
      TotalPreorder(s, Ids(a) + Ids(b), base, b.id, a.id, a.id);
      if Before(s, a.id, b.id) {
        MergeOrdered(s, base, a.right, b);
        MergeIds(s, a.right, b);
      } else {
        MergeOrdered(s, base, a, b.right);
        MergeIds(s, a, b.right);
      }
    }
  }

  /** skew_heap_remove: the merged children take the node's place. */
  function Remove(s: Strides, t: Tree, b: nat): Tree
    requires Known(s, t)
  {
    if t.Leaf? then Leaf
    else if t.id == b then Merge(s, t.left, t.right)
    else if b in Ids(t.left) then Node(Remove(s, t.left, b), t.id, t.right)
    else Node(t.left, t.id, Remove(s, t.right, b))
  }

  lemma {:induction false} RemoveIds(s: Strides, t: Tree, b: nat)
    requires Known(s, t) && Distinct(t)
    ensures Ids(Remove(s, t, b)) == Ids(t) - {b} && Distinct(Remove(s, t, b))
  {
    if t.Node? {
      if t.id == b { MergeIds(s, t.left, t.right); } else { RemoveIds(s, t.left, b); RemoveIds(s, t.right, b); }
    }
  }

  /** The root comes no later than any node. */
  lemma {:induction false} RootLeast(s: Strides, base: int, t: Tree, i: nat)
    requires Known(s, t) && InWindow(s, Ids(t), base) && Ordered(s, t) && i in Ids(t)
    ensures Leq(s, t.id, i)
    decreases t
  {
    TotalPreorder(s, Ids(t), base, t.id, t.id, t.id);
    if i != t.id {
      var u := if i in Ids(t.left) then t.left else t.right;
      RootLeast(s, base, u, i);
      TotalPreorder(s, Ids(t), base, t.id, u.id, i);
    }
  }

  /** Removing keeps heap order. */
  lemma {:induction false} RemoveOrdered(s: Strides, base: int, t: Tree, b: nat)
    requires Known(s, t) && Distinct(t) && InWindow(s, Ids(t), base) && Ordered(s, t)
    ensures Ids(Remove(s, t, b)) == Ids(t) - {b} && Known(s, Remove(s, t, b)) && Ordered(s, Remove(s, t, b))
    decreases t
  {
    RemoveIds(s, t, b);
    if t.Node? {
      if t.id == b {
        MergeOrdered(s, base, t.left, t.right);
      } else {
        RemoveOrdered(s, base, t.left, b);
        RemoveOrdered(s, base, t.right, b);
        var u := if b in Ids(t.left) then t.left else t.right;
        var v := Remove(s, u, b);
        if v.Node? { assert v.id in Ids(v); RootLeast(s, base, t, v.id); }
      }
    }
  }

  // ---- changing the stride of a node outside a tree -----------------------------------------------

  ghost predicate Agree(s: Strides, s': Strides, ids: set<nat>) {
    forall i | i in ids :: i in s && i in s' && s[i] == s'[i]
  }

  lemma {:induction false} OrderedSame(s: Strides, s': Strides, t: Tree)
    requires Agree(s, s', Ids(t))
    ensures Known(s, t) && Known(s', t) && (Ordered(s, t) <==> Ordered(s', t))
  {
    if t.Node? {
      OrderedSame(s, s', t.left);
      OrderedSame(s, s', t.right);
      assert (t.left.Node? ==> t.left.id in Ids(t.left)) && (t.right.Node? ==> t.right.id in Ids(t.right));
    }
  }

  lemma {:induction false} MergeSame(s: Strides, s': Strides, a: Tree, b: Tree)
    requires Agree(s, s', Ids(a) + Ids(b))
    ensures Known(s, a) && Known(s', a) && Known(s, b) && Known(s', b) && Merge(s, a, b) == Merge(s', a, b)
    decreases a, b
  {
    if a.Node? && b.Node? {
      MergeSame(s, s', a.right, b);
      MergeSame(s, s', a, b.right);
    }
  }

  /** A removal does not look at the removed node's stride. */
  lemma {:induction false} RemoveSame(s: Strides, s': Strides, t: Tree, b: nat)
    requires Distinct(t) && Agree(s, s', Ids(t) - {b}) && Known(s, t) && Known(s', t)
    ensures Remove(s, t, b) == Remove(s', t, b)
    decreases t
  {
    if t.Node? {
      if t.id == b {
        MergeSame(s, s', t.left, t.right);
        } else { RemoveSame(s, s', t.left, b);
        RemoveSame(s, s', t.right, b);
      }
    }
  }

  /** Raising a node's stride in place and then removing the node leaves the heap it would have left
      before, in order and without the node. */
  lemma RaiseThenRemove(s: Strides, base: int, t: Tree, b: nat, v: int)
    requires Known(s, t) && Distinct(t) && InWindow(s, Ids(t), base) && Ordered(s, t) && b in Ids(t)
    ensures var s' := s[b := v];
            && Known(s', t) && Ids(Remove(s', t, b)) == Ids(t) - {b} && Known(s', Remove(s', t, b))
            && Distinct(Remove(s', t, b)) && Ordered(s', Remove(s', t, b))
  {
    var s' := s[b := v];
    RemoveSame(s, s', t, b);
    RemoveIds(s, t, b);
    RemoveOrdered(s, base, t, b);
    OrderedSame(s, s', Remove(s, t, b));
  }
}
