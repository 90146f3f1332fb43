/** Requests to the memory system: what each one does, as a relation between the states before and
    after it, and what a whole run of them means to a memory that copies eagerly. */
module CowRuns {
  import opened Layout
  import opened VmaList
  import opened AddressSpaces
  import opened PageTables
  import opened CowState
  import opened CowSteps

  /** A request to the memory system, with the allocation and device outcomes it will meet.  `MoveEnd`
      is mm_brk on an existing heap area; a first heap is a `Map`, and a heap that goes altogether an
      `UnmapPages`. */
  datatype Op =
    | New(mm: nat)
    | Map(mm: nat, area: Vma)
    | Access(mm: nat, addr: nat, write: bool, tableOk: bool, ioOk: bool)
    | StoreByte(k: Key, off: nat, b: Byte)
    | ForkSpace(parent: nat, child: nat, nodes: seq<Option<nat>>, noTable: set<nat>)
    | UnmapPages(mm: nat, start: nat, end: nat, node: Option<nat>)
    | Discard(mm: nat, start: nat, end: nat)
    | ProtectPages(mm: nat, start: nat, end: nat, flags: nat, left: Option<nat>, right: Option<nat>)
    | MoveEnd(mm: nat, i: nat, end: nat)
    | PageOut(k: Key, ioOk: bool)
    | ExitSpace(mm: nat)

  // A request that the kernel accepts; a refused one does nothing.
  predicate Accepted(areas: map<nat, seq<Vma>>, op: Op) {
    match op
    case New(mm) => mm !in areas
    case Map(mm, v) => mm in areas && GoodArea(v) && v.ptr !in Ptrs(areas[mm]) && !Overlaps(areas[mm], v.start, v.end)
    case ForkSpace(parent, child, nodes, _) =>
      && parent in areas && child !in areas && |nodes| == |areas[parent]|
      && forall a, b | 0 <= a < b < |nodes| && nodes[a].Some? :: nodes[a] != nodes[b]
    case UnmapPages(mm, start, end, node) =>
      && mm in areas && start < end && Aligned(start) && Aligned(end)
      && (node.Some? ==> node.value !in Ptrs(areas[mm]))
    case Discard(mm, start, end) =>
      mm in areas && start < end && Aligned(start) && Aligned(end) && Covered(areas[mm], start, end)
    case ProtectPages(mm, start, end, flags, left, right) =>
      && mm in areas && start < end && Aligned(start) && Aligned(end) && Covered(areas[mm], start, end)
      && (left.Some? ==> left.value !in Ptrs(areas[mm]))
          && (right.Some? ==> right.value !in Ptrs(areas[mm]) && left != right)
    case MoveEnd(mm, i, end) =>
      && mm in areas && i < |areas[mm]| && Aligned(end) && areas[mm][i].start < end <= USERTOP
      && (i + 1 < |areas[mm]| ==> end <= areas[mm][i + 1].start)
    case ExitSpace(mm) => mm in areas
    case _ => true
  }

  // ---- mm_mprotect ------------------------------------------------------------------------------

  // A split that needs a structure and has none.
  predicate LeftFails(list: seq<Vma>, op: Op)
    requires op.ProtectPages?
  { op.left.None? && SplitsAt(list, op.start) }

  predicate RightFails(list: seq<Vma>, op: Op)
    requires op.ProtectPages?
  { op.right.None? && SplitsAt(list, op.end) }

  // The list after the left split.
  function LeftSplit(list: seq<Vma>, op: Op): seq<Vma>
    requires op.ProtectPages?
  { SplitAt(list, op.start, if op.left.Some? then op.left.value else Bound(list)) }

  // The list that mm_mprotect leaves when both splits go through.
  function Reprotected(list: seq<Vma>, op: Op): seq<Vma>
    requires op.ProtectPages?
  {
    var l1 := LeftSplit(list, op);
    SetFlags(SplitAt(l1, op.end, if op.right.Some? then op.right.value else Bound(l1)), op.start, op.end, op.flags)
  }

  ghost predicate Protects(list: seq<Vma>, op: Op) {
    && op.ProtectPages? && VmaList.Valid(list) && op.start < op.end && Aligned(op.start) && Aligned(op.end)
    && Covered(list, op.start, op.end) && (op.left.Some? ==> op.left.value !in Ptrs(list))
    && (op.right.Some? ==> op.right.value !in Ptrs(list) && op.left != op.right)
  }

  /** The left split alone changes no flag. */
  lemma LeftPages(list: seq<Vma>, op: Op)
    requires Protects(list, op) && !LeftFails(list, op)
    ensures var l1 := LeftSplit(list, op);
            && VmaList.Valid(l1) && SamePages(list, l1) && !SplitsAt(l1, op.start) && Covered(l1, op.start, op.end)
            && (SplitsAt(l1, op.end) <==> SplitsAt(list, op.end)) && (op.right.Some? ==> op.right.value !in Ptrs(l1))
  {
    var node := if op.left.Some? then op.left.value else Bound(list);
    SplitAtValid(list, op.start, node);
    SplitAtEdges(list, op.start, node);
    SplitKeeps(list, op.start, Some(node));
    CoveredSame(list, LeftSplit(list, op), op.start, op.end);
    SplitOther(list, op.start, op.end, node);
    if op.left.None? { SplitAtNone(list, op.start, node); }
  }

  lemma ReprotectedPages(list: seq<Vma>, op: Op)
    requires Protects(list, op) && !LeftFails(list, op) && !RightFails(list, op)
    ensures VmaList.Valid(Reprotected(list, op))
        && SetPages(list, Reprotected(list, op), op.start, op.end, Some(op.flags))
  {
    LeftPages(list, op);
    var l1 := LeftSplit(list, op);
    var node := if op.right.Some? then op.right.value else Bound(l1);
    var l2 := SplitAt(l1, op.end, node);
    SplitAtValid(l1, op.end, node);
    SplitAtEdges(l1, op.end, node);
    SplitKeeps(l1, op.end, Some(node));
    CoveredSame(l1, l2, op.start, op.end);
    SetFlagsValid(l2, op.start, op.end, op.flags);
    forall a: nat
      ensures FlagsAt(Reprotected(list, op), a) == if op.start <= a < op.end then Some(op.flags) else FlagsAt(list, a)
    {
      SetFlagsFlags(l2, op.start, op.end, op.flags, a);
    }
  }

  /** The one request whose property fails: making a page writable that has a second user without the
      copy-on-write mark. */
  predicate Leaks(m: Mem, op: Op) {
    && op.ProtectPages? && Accepted(m.areas, op) && !LeftFails(m.areas[op.mm], op) && !RightFails(m.areas[op.mm], op)
    && !Protectable(m, op.mm, op.start, op.end, op.flags)
  }

  // ---- what a request does ----------------------------------------------------------------------

  /** The eager meaning of a request, from the state before it. */
  ghost function EagerOf(m: Mem, op: Op): EagerOp {
    if !Accepted(m.areas, op) then Nothing
    else match op
      case StoreByte(k, off, b) => if k in m.ptes && m.ptes[k].Present? && m.ptes[k].w then WriteByte(k, off, b)
        else Nothing
      case ForkSpace(parent, child, nodes, noTable) =>
        if Forkable(m, parent, nodes, noTable) then CopySpace(parent, child) else Nothing
      case UnmapPages(mm, start, end, _) => ZeroRange(mm, start, end)
      case Discard(mm, start, end) => ZeroRange(mm, start, end)
      case MoveEnd(mm, i, end) => if end < m.areas[mm][i].end then ZeroRange(mm, end, m.areas[mm][i].end) else Nothing
      case ExitSpace(mm) => ZeroSpace(mm)
      case _ => Nothing
  }

  /** The area lists after an accepted request. */
  ghost predicate AreasAfter(m: Mem, op: Op, areas: map<nat, seq<Vma>>)
    requires Accepted(m.areas, op)
  {
    match op
    case New(mm) => areas == m.areas[mm := []]
    case Map(mm, v) =>
      exists k: nat {:trigger Inserted(m.areas[mm], k, v)} ::
        k <= |m.areas[mm]| && areas == m.areas[mm := Inserted(m.areas[mm], k, v)]
    case ForkSpace(parent, child, nodes, noTable) =>
      if Forkable(m, parent, nodes, noTable)
      then child in areas && areas == m.areas[child := areas[child]] && SameAreas(areas[child], m.areas[parent])
      else areas == m.areas
    case UnmapPages(mm, start, end, node) =>
      areas == if node.None? && exists v | v in m.areas[mm] :: Straddles(v, start, end) then m.areas
               else m.areas[mm := Cut(m.areas[mm], start, end, if node.Some? then node.value else Bound(m.areas[mm]))]
    case ProtectPages(mm, start, end, flags, left, right) =>
      areas == if LeftFails(m.areas[mm], op) then m.areas
               else m.areas[mm := if RightFails(m.areas[mm], op) then LeftSplit(m.areas[mm], op)
                 else Reprotected(m.areas[mm], op)]
    case MoveEnd(mm, i, end) => areas == m.areas[mm := Resized(m.areas[mm], i, end)]
    case ExitSpace(mm) => areas == m.areas - {mm}
    case _ => areas == m.areas
  }

  // A fault that is answered leaves the access permitted.
  ghost predicate Granted(m: Mem, op: Op, n: Mem) {
    op.Access? && FaultStatus(m, op.mm, op.addr, op.write, op.tableOk, op.ioOk) == Ok ==>
      var k := Key(op.mm, op.addr - op.addr % PGSIZE);
      k in n.ptes && n.ptes[k].Present? && (op.write ==> n.ptes[k].w)
  }

  /** One request: what every space reads, the area lists, and what a fault grants. */
  ghost predicate Served(m: Mem, op: Op, n: Mem) {
    && (forall k :: Read(n, k) == EagerNext(m, EagerOf(m, op), k))
    && (if Accepted(m.areas, op) then AreasAfter(m, op, n.areas) && Granted(m, op, n) else n == m)
  }

  // ---- whole runs -------------------------------------------------------------------------------

  /** The states a run goes through. */
  ghost predicate RunOf(states: seq<Mem>, ops: seq<Op>) {
    && |states| == |ops| + 1
    && (forall i {:trigger states[i]} | 0 <= i < |states| :: Inv(states[i]))
    && (forall i {:trigger ops[i]} | 0 <= i < |ops| :: Served(states[i], ops[i], states[i + 1]))
  }

  /** The eager operations that the requests of a run stand for, each in the state it meets. */
  ghost function Trace(states: seq<Mem>, ops: seq<Op>): (r: seq<EagerOp>)
    requires |states| == |ops| + 1
    ensures |r| == |ops| && forall i | 0 <= i < |ops| :: r[i] == EagerOf(states[i], ops[i])
  { seq(|ops|, i requires 0 <= i < |ops| => EagerOf(states[i], ops[i])) }

  lemma RunNext(states: seq<Mem>, ops: seq<Op>, op: Op, n: Mem)
    requires RunOf(states, ops) && Inv(n) && Served(states[|ops|], op, n)
    ensures RunOf(states + [n], ops + [op])
  {
    hide Inv, Served;
    var ss, os := states + [n], ops + [op];
    forall i | 0 <= i < |ss| ensures Inv(ss[i]) { if i < |states| { assert ss[i] == states[i]; } }
    forall i | 0 <= i < |os| ensures Served(ss[i], os[i], ss[i + 1]) {
      if i < |ops| { assert os[i] == ops[i] && Served(states[i], ops[i], states[i + 1]); }
    }
  }

  /** Lazy copying refines eager copying: after any run, every address space reads what it would read
      in a memory in which each fork copies every page at once. */
  lemma {:induction false} RunRefines(states: seq<Mem>, ops: seq<Op>)
    requires RunOf(states, ops)
    ensures Matches(states[|ops|], states[0], Trace(states, ops))
    decreases |ops|
  {
    hide Inv, Matches, EagerNext, Served, EagerOf;
    if ops == [] {
      MatchStart(states[0]);
    } else {
      var n := |ops| - 1;
      var ss, os := states[..n + 1], ops[..n];
      RunPrefix(states, ops);
      RunRefines(ss, os);
      assert Served(states[n], ops[n], states[n + 1]);
      ServedReads(states[n], ops[n], states[n + 1]);
      MatchStep(states[n], states[n + 1], states[0], Trace(ss, os), EagerOf(states[n], ops[n]));
      assert Trace(states, ops) == Trace(ss, os) + [EagerOf(states[n], ops[n])];
    }
  }

  lemma ServedReads(m: Mem, op: Op, n: Mem)
    requires Served(m, op, n)
    ensures forall k :: Read(n, k) == EagerNext(m, EagerOf(m, op), k)
  { }

  lemma RunPrefix(states: seq<Mem>, ops: seq<Op>)
    requires RunOf(states, ops) && ops != []
    ensures RunOf(states[..|ops|], ops[..|ops| - 1])
  {
    hide Inv, Served;
    var ss, os := states[..|ops|], ops[..|ops| - 1];
    forall i | 0 <= i < |ss| ensures Inv(ss[i]) { assert ss[i] == states[i]; }
    forall i | 0 <= i < |os| ensures Served(ss[i], os[i], ss[i + 1]) { assert os[i] == ops[i]; }
  }
}
