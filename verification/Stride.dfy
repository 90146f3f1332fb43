/** Stride scheduling on the skew heap: the linked nodes, picking, and requeueing. */
module Stride {
  import opened Layout
  import opened SkewHeap

  type Ptr = Option<nat>

  // ---- linked nodes -----------------------------------------------------------------------------

  datatype Links = Links(left: map<nat, Ptr>, right: map<nat, Ptr>, parent: map<nat, Ptr>)

  function Root(t: Tree): Ptr { if t.Leaf? then None else Some(t.id) }

  predicate Has(k: Links, x: nat) { x in k.left && x in k.right && x in k.parent }

  predicate ChildOf(k: Links, t: Tree, x: nat) { t.Leaf? || (t.id in k.parent && k.parent[t.id] == Some(x)) }

  /** The links hold the tree: children both ways, and parents everywhere below the root. */
  predicate Rep(t: Tree, k: Links) {
    t.Leaf? ||
    (&& Has(k, t.id) && k.left[t.id] == Root(t.left) && k.right[t.id] == Root(t.right)
     && ChildOf(k, t.left, t.id) && ChildOf(k, t.right, t.id) && Rep(t.left, k) && Rep(t.right, k))
  }

  predicate SameChildren(k: Links, k': Links, x: nat) {
    Has(k, x) && Has(k', x) && k'.left[x] == k.left[x] && k'.right[x] == k.right[x]
  }

  predicate SameNode(k: Links, k': Links, x: nat) { SameChildren(k, k', x) && k'.parent[x] == k.parent[x] }

  lemma {:induction false} RepIds(t: Tree, k: Links)
    requires Rep(t, k)
    ensures forall x | x in Ids(t) :: Has(k, x)
  {
    if t.Node? { RepIds(t.left, k); RepIds(t.right, k); }
  }

  lemma {:induction false} RepSame(t: Tree, k: Links, k': Links)
    requires Rep(t, k) && Distinct(t)
    requires forall x | x in Ids(t) :: SameChildren(k, k', x) && (Some(x) != Root(t) ==> SameNode(k, k', x))
    ensures Rep(t, k')
  {
    if t.Node? {
      assert SameChildren(k, k', t.id);
      assert t.left.Node? ==> t.left.id in Ids(t.left) && SameNode(k, k', t.left.id);
      assert t.right.Node? ==> t.right.id in Ids(t.right) && SameNode(k, k', t.right.id);
      RepSame(t.left, k, k');
      RepSame(t.right, k, k');
    }
  }

  // Node x takes the merged tree on its left and its old left tree on its right.
  function Relinked(k: Links, x: nat, l: Ptr, r: Ptr): Links {
    Links(k.left[x := l], k.right[x := r], if l.Some? then k.parent[l.value := Some(x)] else k.parent)
  }

  lemma RelinkRep(k: Links, k1: Links, x: nat, m: Tree, r: Tree)
    requires Rep(m, k1) && Rep(r, k) && Distinct(m) && Distinct(r) && Ids(m) !! Ids(r) && x !in Ids(m) && x !in Ids(r)
    requires ChildOf(k, r, x) && Has(k, x) && SameNode(k, k1, x) && forall y | y in Ids(r) :: SameNode(k, k1, y)
    ensures Rep(Node(m, x, r), Relinked(k1, x, Root(m), Root(r)))
  {
    var k2 := Relinked(k1, x, Root(m), Root(r));
    RepIds(m, k1);
    RepIds(r, k);
    assert m.Node? ==> m.id in Ids(m);
    assert r.Node? ==> r.id in Ids(r);
    RepSame(m, k1, k2);
    RepSame(r, k, k2);
  }

  // ---- removal ----------------------------------------------------------------------------------

  function Sub(t: Tree, b: nat): Tree {
    if t.Leaf? || t.id == b then t else if b in Ids(t.left) then Sub(t.left, b) else Sub(t.right, b)
  }

  lemma {:induction false} SubIn(t: Tree, b: nat)
    requires b in Ids(t) && Distinct(t)
    ensures Sub(t, b).Node? && Sub(t, b).id == b && Ids(Sub(t, b)) <= Ids(t) && Distinct(Sub(t, b))
    ensures t.id != b ==> t.id !in Ids(Sub(t, b))
  {
    if t.id != b { if b in Ids(t.left) { SubIn(t.left, b); } else { SubIn(t.right, b); } }
  }

  lemma {:induction false} SubRep(t: Tree, b: nat, k: Links)
    requires b in Ids(t) && Distinct(t) && Rep(t, k)
    ensures Rep(Sub(t, b), k) && Has(k, b)
    ensures t.id != b ==> k.parent[b].Some? && k.parent[b].value in Ids(t) && k.parent[b].value !in Ids(Sub(t, b))
  {
    if t.id != b {
      var u := if b in Ids(t.left) then t.left else t.right;
      SubRep(u, b, k);
      SubIn(u, b);
    }
  }

  // The parent's pointer to b, whichever it is, becomes `rep`.
  function Repointed(k: Links, p: nat, b: nat, rep: Ptr): Links
    requires Has(k, p)
  {
    if k.left[p] == Some(b) then k.(left := k.left[p := rep]) else k.(right := k.right[p := rep])
  }

  lemma {:induction false} RemoveRep(s: Strides, t: Tree, b: nat, k: Links, k': Links, m: Tree)
    requires Known(s, t) && Rep(t, k) && Distinct(t) && b in Ids(t) && t.id != b && Has(k, b) && k.parent[b].Some?
    requires Known(s, Sub(t, b)) && m == Remove(s, Sub(t, b), b) && Rep(m, k') && ChildOf(k', m, k.parent[b].value)
    requires var p := k.parent[b].value;
             && Has(k, p) && Has(k', p) && k'.parent[p] == k.parent[p]
             && k'.left[p] == (if k.left[p] == Some(b) then Root(m) else k.left[p])
             && k'.right[p] == (if k.left[p] == Some(b) then k.right[p] else Root(m))
    requires forall x | x in Ids(t) && x !in Ids(Sub(t, b)) && Some(x) != k.parent[b] :: SameNode(k, k', x)
    ensures Rep(Remove(s, t, b), k') && Root(Remove(s, t, b)) == Root(t)
    decreases t
  {
    var p := k.parent[b].value;
    var u, w := if b in Ids(t.left) then t.left else t.right, if b in Ids(t.left) then t.right else t.left;
    SubIn(u, b);
    SubRep(u, b, k);
    if u.id == b {
      RepSame(w, k, k');
    } else {
      RemoveRep(s, u, b, k, k', m);
      assert SameNode(k, k', t.id);
      RepSame(w, k, k');
    }
  }

  // ---- picking ----------------------------------------------------------------------------------

  predicate Allowed(mask: bv32, cpu: int) { cpu < 0 || (cpu < 32 && mask & ((1 as bv32) << cpu) != 0) }

  type Masks = map<nat, bv32>

  // The better of a candidate and the best so far.
  function Better(s: Strides, best: Ptr, candidate: Ptr): Ptr
    requires (best.Some? ==> best.value in s) && (candidate.Some? ==> candidate.value in s)
  {
    if candidate.Some? && (best.None? || Diff(s[candidate.value], s[best.value]) < 0) then candidate else best
  }

  /** stride_find_allowed: the earliest stride among the nodes allowed on the CPU. */
  function FindAllowed(s: Strides, masks: Masks, cpu: int, t: Tree): (r: Ptr)
    requires Known(s, t) && forall i | i in Ids(t) :: i in masks
    ensures r.Some? ==> r.value in Ids(t) && Allowed(masks[r.value], cpu)
  {
    if t.Leaf? then None
    else
      var best := if Allowed(masks[t.id], cpu) then Some(t.id) else None;
      Better(s, Better(s, best, FindAllowed(s, masks, cpu, t.left)), FindAllowed(s, masks, cpu, t.right))
  }

  /** Within a window, pick finds a true minimum of the allowed nodes, and nothing only if there are
      none. */
  lemma {:induction false} FindsLeast(s: Strides, masks: Masks, cpu: int, t: Tree, base: int, i: nat)
    requires Known(s, t) && (forall i | i in Ids(t) :: i in masks) && InWindow(s, Ids(t), base)
    requires i in Ids(t) && Allowed(masks[i], cpu)
    ensures var r := FindAllowed(s, masks, cpu, t); r.Some? && Off(s[r.value], base) <= Off(s[i], base)
    decreases t
  {
    hide Diff, Off, Allowed;
    var best := if Allowed(masks[t.id], cpu) then Some(t.id) else None;
    var l, r := FindAllowed(s, masks, cpu, t.left), FindAllowed(s, masks, cpu, t.right);
    if i in Ids(t.left) { FindsLeast(s, masks, cpu, t.left, base, i); }
    if i in Ids(t.right) { FindsLeast(s, masks, cpu, t.right, base, i); }
    BetterIsLess(s, Ids(t), base, best, l);
    BetterIsLess(s, Ids(t), base, Better(s, best, l), r);
  }

  lemma BetterIsLess(s: Strides, ids: set<nat>, base: int, best: Ptr, candidate: Ptr)
    requires InWindow(s, ids, base) && (best.Some? ==> best.value in ids)
        && (candidate.Some? ==> candidate.value in ids)
    ensures var r := Better(s, best, candidate);
            && (r.None? <==> best.None? && candidate.None?) && (r.Some? ==> r.value in ids)
            && (best.Some? ==> Off(s[r.value], base) <= Off(s[best.value], base))
            && (candidate.Some? ==> Off(s[r.value], base) <= Off(s[candidate.value], base))
  {
    if best.Some? && candidate.Some? { DiffInWindow(s[candidate.value], s[best.value], base); }
    hide Diff, Off;
  }

  // ---- the stride window ------------------------------------------------------------------------

  function Pass(priority: nat): (r: nat)
    ensures r <= BIG_STRIDE
  { if priority == 0 then BIG_STRIDE else BIG_STRIDE / priority }

  function Raised(stride: int, priority: nat): int { (stride + Pass(priority)) % WORD32 }

  /** The picked node's old stride bounds a window for everyone, the picked node's new stride
      included. */
  lemma WindowMoves(s: Strides, ids: set<nat>, base: int, b: nat, priority: nat)
    requires InWindow(s, ids, base) && b in ids && forall i | i in ids :: Off(s[b], base) <= Off(s[i], base)
    ensures InWindow(s[b := Raised(s[b], priority)], ids, s[b])
  {
    var s' := s[b := Raised(s[b], priority)];
    forall i | i in ids ensures Off(s'[i], s[b]) <= BIG_STRIDE {
      if i == b {
        RaisedOff(s[b], Pass(priority));
      } else {
        DiffInWindow(s[i], s[b], base);
        assert Off(s[i], s[b]) == Off(s[i], base) - Off(s[b], base);
      }
    }
  }

  /** Raising any node keeps the strides in the same window exactly when its new place fits. */
  lemma WindowStays(s: Strides, ids: set<nat>, base: int, b: nat, priority: nat)
    requires InWindow(s, ids, base) && b in ids
    ensures InWindow(s[b := Raised(s[b], priority)], ids, base) <==> Off(s[b], base) + Pass(priority) <= BIG_STRIDE
  {
    var s', o, pass := s[b := Raised(s[b], priority)], Off(s[b], base), Pass(priority);
    var q, k := (s[b] + pass) / WORD32, (s[b] - base) / WORD32;
    assert s'[b] == s[b] + pass - WORD32 * q && s[b] - base == WORD32 * k + o;
    assert s'[b] - base == o + pass + WORD32 * (k - q);
    assert Off(s'[b], base) == o + pass;
    assert forall i | i in ids && i != b :: s'[i] == s[i];
  }

  lemma RaisedOff(x: int, pass: nat)
    requires pass <= BIG_STRIDE
    ensures Off((x + pass) % WORD32, x) == pass
  {
    var q := (x + pass) / WORD32;
    assert (x + pass) % WORD32 - x == pass + WORD32 * (-q);
  }

  function Single(b: nat): Tree { Node(Leaf, b, Leaf) }

  lemma SingleOk(s: Strides, b: nat)
    requires b in s
    ensures Single(b).Node? && Single(b).id == b && Ids(Single(b)) == {b} && Distinct(Single(b))
        && Known(s, Single(b)) && Ordered(s, Single(b))
  {
    assert Ids(Leaf) == {};
  }

  // ---- rounds -----------------------------------------------------------------------------------

  /** A queue of tasks: the heap and every task's stride and priority. */
  datatype Queue = Queue(tree: Tree, s: Strides, priority: map<nat, nat>, masks: Masks)

  predicate Complete(q: Queue) {
    Known(q.s, q.tree) && Distinct(q.tree) && forall i | i in Ids(q.tree) :: i in q.priority && i in q.masks
  }

  ghost predicate Sound(q: Queue, base: int) {
    Complete(q) && Ordered(q.s, q.tree) && InWindow(q.s, Ids(q.tree), base)
  }

  /** Pick the next task for a CPU, raise its stride, take it out and put it back. */
  function Round(q: Queue, cpu: int): (r: Queue)
    requires Complete(q)
    ensures Complete(r)
  {
    match FindAllowed(q.s, q.masks, cpu, q.tree)
    case None => q
    case Some(b) =>
      var s := q.s[b := Raised(q.s[b], q.priority[b])];
      var out := Remove(s, q.tree, b);
      RemoveIds(s, q.tree, b);
      SingleOk(s, b);
      MergeIds(s, out, Single(b));
      q.(tree := Merge(s, out, Single(b)), s := s)
  }

  ghost predicate AllAllowed(q: Queue, cpu: int) {
    forall i | i in Ids(q.tree) :: i in q.masks && Allowed(q.masks[i], cpu)
  }

  /** When every queued task may run on the CPU, the picked task has the least stride, and a round
      keeps the tasks, the heap order and the window. */
  lemma RoundKeeps(q: Queue, cpu: int, base: int)
    requires Sound(q, base) && AllAllowed(q, cpu) && q.tree.Node?
    ensures var r := FindAllowed(q.s, q.masks, cpu, q.tree);
            && r.Some? && (forall i | i in Ids(q.tree) :: Leq(q.s, r.value, i))
            && Sound(Round(q, cpu), q.s[r.value]) && Ids(Round(q, cpu).tree) == Ids(q.tree)
                && AllAllowed(Round(q, cpu), cpu)
  {
    hide Diff, Off, Allowed;
    var ids := Ids(q.tree);
    FindsLeast(q.s, q.masks, cpu, q.tree, base, q.tree.id);
    var b := FindAllowed(q.s, q.masks, cpu, q.tree).value;
    forall i | i in ids ensures Leq(q.s, b, i) && Off(q.s[b], base) <= Off(q.s[i], base) {
      FindsLeast(q.s, q.masks, cpu, q.tree, base, i);
      TotalPreorder(q.s, ids, base, b, i, i);
    }
    var v := Raised(q.s[b], q.priority[b]);
    var s := q.s[b := v];
    RaiseThenRemove(q.s, base, q.tree, b, v);
    WindowMoves(q.s, ids, base, b, q.priority[b]);
    Requeue(s, q.s[b], Remove(s, q.tree, b), b, ids);
  }

  /** A round for a CPU that not every task may run on: it picks the least of the tasks that may, keeps
      the tasks, and keeps the queue sound in its window exactly when the raised stride still fits. */
  lemma MaskedRound(q: Queue, cpu: int, base: int)
    requires Sound(q, base)
    ensures var r := FindAllowed(q.s, q.masks, cpu, q.tree);
            && (r.None? <==> forall i | i in Ids(q.tree) :: !Allowed(q.masks[i], cpu))
            && Ids(Round(q, cpu).tree) == Ids(q.tree)
            && (r.Some? ==> forall i | i in Ids(q.tree) && Allowed(q.masks[i], cpu) :: Leq(q.s, r.value, i))
            && (Sound(Round(q, cpu), base) <==>
                (r.Some? ==> Off(q.s[r.value], base) + Pass(q.priority[r.value]) <= BIG_STRIDE))
  {
    hide Diff, Off, Allowed;
    var ids, r := Ids(q.tree), FindAllowed(q.s, q.masks, cpu, q.tree);
    forall i | i in ids && Allowed(q.masks[i], cpu) ensures r.Some? && Leq(q.s, r.value, i) {
      FindsLeast(q.s, q.masks, cpu, q.tree, base, i);
      TotalPreorder(q.s, ids, base, r.value, i, i);
    }
    if r.Some? {
      var b := r.value;
      var v := Raised(q.s[b], q.priority[b]);
      var s := q.s[b := v];
      RaiseThenRemove(q.s, base, q.tree, b, v);
      SingleOk(s, b);
      MergeIds(s, Remove(s, q.tree, b), Single(b));
      WindowStays(q.s, ids, base, b, q.priority[b]);
      if InWindow(s, ids, base) { Requeue(s, base, Remove(s, q.tree, b), b, ids); }
    }
  }

  /** A task that its mask keeps off the CPU falls behind until the comparison turns round: the task
      that has just run again counts as earlier than the one that has waited. */
  lemma MaskedInverts()
    ensures var q := Queue(Node(Single(1), 0, Leaf), map[0 := 0, 1 := BIG_STRIDE], map[0 := 1, 1 := 1],
        map[0 := 1, 1 := 2]);
            && Sound(q, 0) && FindAllowed(q.s, q.masks, 1, q.tree) == Some(1)
            && Before(q.s, 0, 1) && Before(Round(q, 1).s, 1, 0)
  {
    var q := Queue(Node(Single(1), 0, Leaf), map[0 := 0, 1 := BIG_STRIDE], map[0 := 1, 1 := 1], map[0 := 1, 1 := 2]);
    SingleOk(q.s, 1);
    assert Ids(Leaf) == {} && Ids(q.tree) == {0, 1};
    assert Raised(BIG_STRIDE, 1) == WORD32 - 2;
  }

  lemma Requeue(s: Strides, base: int, t: Tree, b: nat, ids: set<nat>)
    requires Known(s, t) && Distinct(t) && Ordered(s, t) && ids == Ids(t) + {b} && b !in Ids(t)
        && InWindow(s, ids, base)
    ensures var one := Single(b);
            && Known(s, one) && Ids(Merge(s, t, one)) == ids && Known(s, Merge(s, t, one))
            && Distinct(Merge(s, t, one)) && Ordered(s, Merge(s, t, one))
  {
    hide Merge, Ordered, Ids, Distinct, Single;
    SingleOk(s, b);
    MergeOrdered(s, base, t, Single(b));
    MergeIds(s, t, Single(b));
  }

  function Rounds(q: Queue, cpu: int, n: nat): Queue
    requires Complete(q)
    decreases n
  {
    if n == 0 then q else Rounds(Round(q, cpu), cpu, n - 1)
  }

  /** Over any number of rounds of a closed set of tasks the comparison stays meaningful. */
  lemma {:induction false} RoundsKeep(q: Queue, cpu: int, base: int, n: nat) returns (base': int)
    requires Sound(q, base) && AllAllowed(q, cpu) && q.tree.Node?
    ensures Sound(Rounds(q, cpu, n), base') && Ids(Rounds(q, cpu, n).tree) == Ids(q.tree)
    decreases n
  {
    base' := base;
    if n > 0 {
      RoundKeeps(q, cpu, base);
      assert q.tree.id in Ids(q.tree);
      var b := FindAllowed(q.s, q.masks, cpu, q.tree).value;
      base' := RoundsKeep(Round(q, cpu), cpu, q.s[b], n - 1);
    }
  }

  // ---- the run queue ----------------------------------------------------------------------------

  lemma NodeParts(t: Tree, k: Links, s: Strides)
    requires t.Node? && Rep(t, k) && Distinct(t) && Known(s, t)
    ensures Has(k, t.id) && k.left[t.id] == Root(t.left) && k.right[t.id] == Root(t.right)
    ensures ChildOf(k, t.left, t.id) && ChildOf(k, t.right, t.id) && Rep(t.left, k) && Rep(t.right, k)
    ensures t.id !in Ids(t.left) && t.id !in Ids(t.right) && Ids(t.left) !! Ids(t.right) && Distinct(t.left)
        && Distinct(t.right)
    ensures Ids(t) == Ids(t.left) + {t.id} + Ids(t.right) && t.id in s && Known(s, t.left) && Known(s, t.right)
  {
    assert t.id in Ids(t);
  }

  // Outside some nodes the links are as they were.
  ghost predicate Framed(k: Links, k': Links, ids: set<nat>) {
    forall x {:trigger SameNode(k, k', x)} | x !in ids && Has(k, x) :: SameNode(k, k', x)
  }

  lemma Hung(k: Links, k1: Links, t: Tree, o: Tree, m: Tree, s: Strides)
    requires t.Node? && Rep(t, k) && Distinct(t) && Known(s, t) && Ids(t) !! Ids(o)
    requires Rep(m, k1) && Distinct(m) && Ids(m) == Ids(t.right) + Ids(o) && Framed(k, k1, Ids(t.right) + Ids(o))
    ensures var k2 := Relinked(k1, t.id, Root(m), Root(t.left));
            && Rep(Node(m, t.id, t.left), k2) && Framed(k, k2, Ids(t) + Ids(o))
            && t.id in k.parent && t.id in k2.parent && k2.parent[t.id] == k.parent[t.id]
  {
    hide Rep, Ids, Distinct, Known;
    NodeParts(t, k, s);
    RepIds(t, k);
    RepIds(m, k1);
    assert SameNode(k, k1, t.id);
    forall y | y in Ids(t.left) ensures SameNode(k, k1, y) { assert y in Ids(t); }
    RelinkRep(k, k1, t.id, m, t.left);
    var k2 := Relinked(k1, t.id, Root(m), Root(t.left));
    RootIn(m);
    forall x | x !in Ids(t) + Ids(o) && Has(k, x) ensures SameNode(k, k2, x) { assert SameNode(k, k1, x); }
  }

  lemma RootIn(t: Tree)
    ensures t.Node? ==> t.id in Ids(t)
  { }

  lemma MergeNode(s: Strides, a: Tree, b: Tree)
    requires a.Node? && b.Node? && Known(s, a) && Known(s, b) && Known(s, a.right) && Known(s, b.right) && a.id in s
        && b.id in s
    ensures Merge(s, a, b) ==
            if Before(s, a.id, b.id) then Node(Merge(s, a.right, b), a.id, a.left)
              else Node(Merge(s, a, b.right), b.id, b.left)
  { }

  /** The links hold the tree and `pool` its root, which has no parent. */
  ghost predicate Held(t: Tree, k: Links, pool: Ptr) {
    Rep(t, k) && pool == Root(t) && (t.Node? ==> t.id in k.parent && k.parent[t.id] == None)
  }

  // skew_heap_init
  function Fresh(k: Links, b: nat): Links { Links(k.left[b := None], k.right[b := None], k.parent[b := None]) }

  lemma FreshNode(t: Tree, k: Links, pool: Ptr, b: nat)
    requires Held(t, k, pool) && Distinct(t) && b !in Ids(t)
    ensures Held(t, Fresh(k, b), pool) && Rep(Single(b), Fresh(k, b)) && Fresh(k, b).parent[b] == None
  {
    RepIds(t, k);
    RootIn(t);
    RepSame(t, k, Fresh(k, b));
  }

  lemma HeldFacts(t: Tree, k: Links, pool: Ptr)
    requires Held(t, k, pool)
    ensures Rep(t, k) && pool == Root(t) && (t.Node? ==> t.id in k.parent && k.parent[t.id] == None)
  { }

  lemma MergedHeld(s: Strides, a: Tree, b: Tree, k: Links, k': Links, r: Ptr)
    requires Known(s, a) && Known(s, b) && r == Root(Merge(s, a, b)) && Rep(Merge(s, a, b), k')
    requires a.Node? ==> a.id in k.parent && k.parent[a.id] == None
    requires b.Node? ==> b.id in k.parent && k.parent[b.id] == None
    requires r.Some? ==> r.value in k.parent && r.value in k'.parent && k'.parent[r.value] == k.parent[r.value]
    ensures Held(Merge(s, a, b), k', r)
  { MergeIds(s, a, b); }

  // The links once the merged children of b, with root `rep`, hang where b did.
  function Unhung(k: Links, p: Ptr, b: nat, rep: Ptr): Links
    requires p.Some? ==> Has(k, p.value)
  {
    var k2 := if rep.Some? then k.(parent := k.parent[rep.value := p]) else k;
    if p.Some? then Repointed(k2, p.value, b, rep) else k2
  }

  lemma BothKnown(s: Strides, a: Tree, b: Tree, t: Tree)
    requires Known(s, a) && Known(s, b) && Ids(t) == Ids(a) + Ids(b)
    ensures Known(s, t)
  { }

  lemma SubKnown(s: Strides, t: Tree, sub: Tree)
    requires Known(s, t) && Ids(sub) <= Ids(t)
    ensures Known(s, sub)
  { }

  lemma RemovedHeld(k: Links, k1: Links, pool: Ptr, t: Tree, b: nat, s: Strides)
    requires Held(t, k, pool) && Distinct(t) && Known(s, t) && b in Ids(t) && Has(k, b)
    requires Sub(t, b).Node? && Known(s, Sub(t, b).left) && Known(s, Sub(t, b).right)
    requires var sub := Sub(t, b);
             Rep(Merge(s, sub.left, sub.right), k1) && Framed(k, k1, Ids(sub.left) + Ids(sub.right))
    ensures var p, rep := k.parent[b], Root(Merge(s, Sub(t, b).left, Sub(t, b).right));
            && (p.Some? ==> Has(k1, p.value))
            && Held(Remove(s, t, b), Unhung(k1, p, b, rep), if p.Some? then pool else rep)
  {
    hide Known, Merge;
    var sub := Sub(t, b);
    var m := Merge(s, sub.left, sub.right);
    SubIn(t, b);
    SubRep(t, b, k);
    SubKnown(s, t, sub);
    NodeParts(sub, k, s);
    MergeIds(s, sub.left, sub.right);
    RootIn(m);
    RepIds(m, k1);
    var k2 := if m.Node? then k1.(parent := k1.parent[m.id := k.parent[b]]) else k1;
    RepSame(m, k1, k2);
    if k.parent[b].Some? { RemovedBelow(k, k1, k2, t, b, s, m); }
  }

  // The same when b is not the root.
  lemma RemovedBelow(k: Links, k1: Links, k2: Links, t: Tree, b: nat, s: Strides, m: Tree)
    requires Held(t, k, Root(t)) && Distinct(t) && Known(s, t) && b in Ids(t) && Has(k, b) && k.parent[b].Some?
    requires Known(s, Sub(t, b)) && m == Remove(s, Sub(t, b), b) && Rep(m, k2) && Distinct(m) && Ids(m) < Ids(Sub(t, b))
    requires Framed(k, k1, Ids(m)) && k2 == if m.Node? then k1.(parent := k1.parent[m.id := k.parent[b]]) else k1
    ensures var p := k.parent[b].value;
            && Has(k1, p) && Has(k2, p)
            && Held(Remove(s, t, b), Repointed(k2, p, b, Root(m)), Root(t))
  {
    hide Known, Merge, Remove;
    var p := k.parent[b].value;
    SubIn(t, b);
    SubRep(t, b, k);
    RepIds(t, k);
    RootIn(m);
    assert SameNode(k, k1, p) && SameNode(k, k1, t.id);
    var k3 := Repointed(k2, p, b, Root(m));
    RepIds(m, k2);
    RepSame(m, k2, k3);
    forall x | x in Ids(t) && x !in Ids(Sub(t, b)) && x != p ensures SameNode(k, k3, x) { assert SameNode(k, k1, x); }
    RemoveRep(s, t, b, k, k3, m);
  }

  class StrideQueue {
    var left: map<nat, Ptr>
    var right: map<nat, Ptr>
    var parent: map<nat, Ptr>
    var pool: Ptr
    var procNum: nat
    var stride: Strides
    var priority: map<nat, nat>
    var masks: Masks
    ghost var tree: Tree

    function K(): Links
      reads this
    { Links(left, right, parent) }

    ghost function Q(): Queue
      reads this
    { Queue(tree, stride, priority, masks) }

    ghost predicate Valid()
      reads this
    {
      Held(tree, K(), pool) && Complete(Q()) && procNum == |Ids(tree)|
    }

    /** skew_heap_merge on linked nodes. */
    method MergeNodes(a: Ptr, b: Ptr, ghost ta: Tree, ghost tb: Tree) returns (r: Ptr)
      requires Rep(ta, K()) && Rep(tb, K()) && a == Root(ta) && b == Root(tb)
      requires Distinct(ta) && Distinct(tb) && Ids(ta) !! Ids(tb) && Known(stride, ta) && Known(stride, tb)
      modifies this`left, this`right, this`parent
      ensures r == Root(Merge(stride, ta, tb)) && Rep(Merge(stride, ta, tb), K())
      ensures Framed(old(K()), K(), Ids(ta) + Ids(tb))
      ensures r.Some? ==> r.value in old(parent) && r.value in parent && parent[r.value] == old(parent)[r.value]
      decreases ta, tb
    {
      if a.None? { return b; }
      if b.None? { return a; }
      hide Merge, Rep, Ids, Distinct, Known, Framed;
      ghost var k := K();
      NodeParts(ta, k, stride);
      NodeParts(tb, k, stride);
      MergeIds(stride, ta.right, tb);
      MergeIds(stride, ta, tb.right);
      MergeNode(stride, ta, tb);
      if Diff(stride[a.value], stride[b.value]) < 0 {
        var rest := left[a.value];
        var l := MergeNodes(right[a.value], b, ta.right, tb);
        Hung(k, K(), ta, tb, Merge(stride, ta.right, tb), stride);
        Relink(a.value, l, rest);
        r := a;
      } else {
        var rest := left[b.value];
        var l := MergeNodes(a, right[b.value], ta, tb.right);
        Hung(k, K(), tb, ta, Merge(stride, ta, tb.right), stride);
        Relink(b.value, l, rest);
        r := b;
      }
    }

    method Relink(x: nat, l: Ptr, r: Ptr)
      modifies this`left, this`right, this`parent
      ensures K() == Relinked(old(K()), x, l, r)
    {
      left, right := left[x := l], right[x := r];
      if l.Some? { parent := parent[l.value := Some(x)]; }
    }

    constructor (stride: Strides, priority: map<nat, nat>, masks: Masks)
      ensures Valid() && tree == Leaf && this.stride == stride && this.priority == priority && this.masks == masks
    {
      left, right, parent, pool, procNum, tree := map[], map[], map[], None, 0, Leaf;
      this.stride, this.priority, this.masks := stride, priority, masks;
    }

    /** skew_heap_insert */
    method InsertNode(b: nat)
      requires Held(tree, K(), pool) && Distinct(tree) && Known(stride, tree) && b !in Ids(tree) && b in stride
      modifies this`left, this`right, this`parent, this`pool
      ensures Known(stride, Single(b)) && Held(Merge(stride, tree, Single(b)), K(), pool)
    {
      hide Merge, Distinct, Framed, Rep, Ids, Known, Held, Single;
      FreshNode(tree, K(), pool, b);
      left, right, parent := left[b := None], right[b := None], parent[b := None];
      ghost var k := K();
      SingleOk(stride, b);
      HeldFacts(tree, k, pool);
      pool := MergeNodes(pool, Some(b), tree, Single(b));
      MergedHeld(stride, tree, Single(b), k, K(), pool);
    }

    /** stride_enqueue */
    method Enqueue(b: nat)
      requires Valid() && b !in Ids(tree) && b in stride && b in priority && b in masks
      modifies this`left, this`right, this`parent, this`pool, this`procNum, this`tree
      ensures Valid() && Known(stride, Single(b)) && tree == Merge(stride, old(tree), Single(b))
      ensures Ids(tree) == Ids(old(tree)) + {b}
    {
      hide Merge, Distinct, Ids, Known, Held, Single;
      ghost var t := tree;
      InsertNode(b);
      SingleOk(stride, b);
      MergeIds(stride, t, Single(b));
      tree := Merge(stride, t, Single(b));
      BothKnown(stride, t, Single(b), tree);
      procNum := procNum + 1;
    }

    /** skew_heap_remove: the merged children take the node's place under its parent. */
    method RemoveNode(b: nat)
      requires Held(tree, K(), pool) && Distinct(tree) && Known(stride, tree) && b in Ids(tree)
      modifies this`left, this`right, this`parent, this`pool
      ensures Held(Remove(stride, tree, b), K(), pool)
    {
      hide Merge, Remove, Framed, Rep, Ids, Distinct, Known, Sub, Held;
      ghost var k, sub := K(), Sub(tree, b);
      HeldFacts(tree, k, pool);
      SubIn(tree, b);
      SubRep(tree, b, k);
      SubKnown(stride, tree, sub);
      NodeParts(sub, k, stride);
      var p := parent[b];
      var rep := MergeNodes(left[b], right[b], sub.left, sub.right);
      RemovedHeld(k, K(), pool, tree, b, stride);
      if rep.Some? { parent := parent[rep.value := p]; }
      if p.Some? {
        if left[p.value] == Some(b) { left := left[p.value := rep]; } else { right := right[p.value := rep]; }
      } else {
        pool := rep;
      }
    }

    /** stride_dequeue */
    method Dequeue(b: nat)
      requires Valid() && b in Ids(tree)
      modifies this`left, this`right, this`parent, this`pool, this`procNum, this`tree
      ensures Valid() && tree == Remove(stride, old(tree), b) && Ids(tree) == Ids(old(tree)) - {b}
    {
      hide Remove, Distinct, Ids, Known, Held;
      ghost var t := tree;
      RemoveNode(b);
      RemoveIds(stride, t, b);
      tree := Remove(stride, t, b);
      SubKnown(stride, t, tree);
      procNum := procNum - 1;
    }

    /** stride_pick_next_for_cpu: the earliest allowed task, whose stride is raised in place. */
    method PickNext(cpu: int) returns (r: Ptr)
      requires Valid()
      modifies this`stride
      ensures Valid() && r == FindAllowed(old(stride), masks, cpu, tree)
      ensures stride == if r.Some? then old(stride)[r.value := Raised(old(stride)[r.value], priority[r.value])]
          else old(stride)
    {
      hide Held, Rep, FindAllowed, Allowed;
      HeldFacts(tree, K(), pool);
      r := Find(pool, cpu, tree);
      if r.Some? {
        var b := r.value;
        stride := stride[b := (stride[b] + (if priority[b] == 0 then BIG_STRIDE
          else BIG_STRIDE / priority[b])) % WORD32];
      }
    }

    // stride_find_allowed on linked nodes
    method Find(entry: Ptr, cpu: int, ghost t: Tree) returns (best: Ptr)
      requires Rep(t, K()) && entry == Root(t) && Known(stride, t) && forall i | i in Ids(t) :: i in masks
      ensures best == FindAllowed(stride, masks, cpu, t)
      decreases t
    {
      if entry.None? { return None; }
      var x := entry.value;
      best := if Allowed(masks[x], cpu) then Some(x) else None;
      var candidate := Find(left[x], cpu, t.left);
      if candidate.Some? && (best.None? || Diff(stride[candidate.value], stride[best.value]) < 0) { best := candidate; }
      candidate := Find(right[x], cpu, t.right);
      if candidate.Some? && (best.None? || Diff(stride[candidate.value], stride[best.value]) < 0) { best := candidate; }
    }

    /** Pick, dequeue and requeue: one round of the queue. */
    method Requeue(cpu: int) returns (r: Ptr)
      requires Valid()
      modifies this
      ensures Valid() && Q() == Round(old(Q()), cpu) && r == FindAllowed(old(stride), masks, cpu, old(tree))
    {
      hide Merge, Remove, Rep, Distinct, Allowed, FindAllowed, Raised;
      r := PickNext(cpu);
      if r.Some? {
        Dequeue(r.value);
        Enqueue(r.value);
      }
    }
  }
}
