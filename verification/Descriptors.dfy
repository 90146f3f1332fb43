/** Open-file descriptions, descriptor slots and pipes, with both layers of counting: slots per
    description and per pipe end, and descriptions per pipe. */
module Descriptors {
  import opened Layout
  import opened Pipes

  type Slot = (nat, nat)

  // What a description refers to: one end of a pipe, or something else.
  datatype Target = PipeEnd(pipe: nat, writing: bool) | Plain

  // `refs` counts the slots and the operations in flight, `count` the slots.
  datatype Description = Description(refs: nat, count: nat, target: Target)

  // Descriptions and pipes are named in the order of their creation; `next` is the next name.
  datatype World = World(slots: map<Slot, nat>, descs: map<nat, Description>, pipes: map<nat, PipeRec>, next: nat)

  // ---- counting -----------------------------------------------------------------------------------

  /** The open slots of a description. */
  function Users(w: World, d: nat): set<Slot> { set k | k in w.slots && w.slots[k] == d }

  predicate IsEnd(w: World, k: Slot, p: nat, writing: bool) {
    k in w.slots && w.slots[k] in w.descs && w.descs[w.slots[k]].target == PipeEnd(p, writing)
  }

  /** The open slots of one end of a pipe. */
  function Ends(w: World, p: nat, writing: bool): set<Slot> { set k | k in w.slots && IsEnd(w, k, p, writing) }

  predicate Names(w: World, d: nat, p: nat) {
    d in w.descs && w.descs[d].target.PipeEnd? && w.descs[d].target.pipe == p
  }

  /** The descriptions of a pipe. */
  function Namers(w: World, p: nat): set<nat> { set d | d in w.descs && Names(w, d, p) }

  predicate DescOk(w: World, d: nat)
    requires d in w.descs
  {
    var e := w.descs[d];
    e.count == |Users(w, d)| && e.refs >= e.count && e.refs > 0 && (e.target.PipeEnd? ==> e.target.pipe in w.pipes)
  }

  predicate PipeOk(w: World, p: nat)
    requires p in w.pipes
  {
    var r := w.pipes[p];
    && r.readers == |Ends(w, p, false)| && r.writers == |Ends(w, p, true)| && r.refs == |Namers(w, p)| && r.refs > 0
    && r.taken + r.buffer == r.written && |r.buffer| <= CAPACITY
  }

  ghost predicate Named(w: World) {
    && (forall d {:trigger d in w.descs} | d in w.descs :: d < w.next)
    && (forall p {:trigger p in w.pipes} | p in w.pipes :: p < w.next)
  }

  ghost predicate Inv(w: World) {
    && (forall k {:trigger k in w.slots} | k in w.slots :: w.slots[k] in w.descs)
    && (forall d {:trigger DescOk(w, d)} | d in w.descs :: DescOk(w, d))
    && (forall p {:trigger PipeOk(w, p)} | p in w.pipes :: PipeOk(w, p))
    && Named(w)
  }

  // ---- opening and closing slots --------------------------------------------------------------------

  // The pipe of a target with one more or one less descriptor at its end.
  function Recounted(pipes: map<nat, PipeRec>, t: Target, more: bool): map<nat, PipeRec>
    requires t.PipeEnd? ==> t.pipe in pipes
    requires t.PipeEnd? && !more ==> if t.writing then pipes[t.pipe].writers > 0 else pipes[t.pipe].readers > 0
  { if t.Plain? then pipes else pipes[t.pipe := Counted(pipes[t.pipe], t.writing, more)] }

  function Opened(w: World, k: Slot, d: nat): World
    requires Inv(w) && d in w.descs
  {
    var e := w.descs[d];
    assert DescOk(w, d);
    w.(slots := w.slots[k := d], descs := w.descs[d := e.(refs := e.refs + 1, count := e.count + 1)],
       pipes := Recounted(w.pipes, e.target, true))
  }

  // Two worlds with the same descriptions, up to their counts.
  ghost predicate SameTargets(w: World, w': World) {
    w.descs.Keys == w'.descs.Keys
      && forall e {:trigger e in w.descs} | e in w.descs :: w'.descs[e].target == w.descs[e].target
  }

  // Opening a slot changes the slots of its description and of its pipe end by one.
  lemma MoreUsers(w: World, w': World, k: Slot, d: nat, e: nat)
    requires k !in w.slots && w'.slots == w.slots[k := d]
    ensures |Users(w', e)| == |Users(w, e)| + (if e == d then 1 else 0)
  {
    if e == d { assert Users(w', e) == Users(w, e) + {k}; } else { assert Users(w', e) == Users(w, e); }
  }

  lemma MoreEnds(w: World, w': World, k: Slot, d: nat, p: nat, b: bool)
    requires k !in w.slots && w'.slots == w.slots[k := d] && d in w.descs && SameTargets(w, w')
    ensures |Ends(w', p, b)| == |Ends(w, p, b)| + (if w.descs[d].target == PipeEnd(p, b) then 1 else 0)
  {
    forall x | x in w.slots ensures IsEnd(w', x, p, b) <==> IsEnd(w, x, p, b) {
      assert w.slots[x] in w.descs <==> w.slots[x] in w'.descs;
    }
    assert IsEnd(w', k, p, b) <==> w.descs[d].target == PipeEnd(p, b);
    hide IsEnd;
    if w.descs[d].target == PipeEnd(p, b) {
      assert Ends(w', p, b) == Ends(w, p, b) + {k};
      } else { assert Ends(w', p, b) == Ends(w, p, b);
    }
  }

  lemma SameNamers(w: World, w': World, p: nat)
    requires SameTargets(w, w')
    ensures Namers(w', p) == Namers(w, p)
  {
    forall e ensures Names(w', e, p) <==> Names(w, e, p) { assert e in w.descs <==> e in w'.descs; }
  }

  lemma SameEnds(w: World, w': World, p: nat, b: bool)
    requires SameTargets(w, w') && w'.slots == w.slots
    ensures Ends(w', p, b) == Ends(w, p, b)
  {
    forall x | x in w.slots ensures IsEnd(w', x, p, b) <==> IsEnd(w, x, p, b) {
      assert w.slots[x] in w.descs <==> w.slots[x] in w'.descs;
    }
  }

  /** open_file_get_descriptor with the slot it is for. */
  lemma OpenKeeps(w: World, k: Slot, d: nat)
    requires Inv(w) && d in w.descs && k !in w.slots
    ensures Inv(Opened(w, k, d))
  {
    var w' := Opened(w, k, d);
    assert DescOk(w, d);
    hide Users, Ends, Namers, IsEnd, Names;
    forall e | e in w'.descs ensures DescOk(w', e) { assert DescOk(w, e); MoreUsers(w, w', k, d, e); }
    forall p | p in w'.pipes ensures PipeOk(w', p) {
      assert PipeOk(w, p);
      MoreEnds(w, w', k, d, p, false);
      MoreEnds(w, w', k, d, p, true);
      SameNamers(w, w', p);
    }
  }

  // The counters that closing a slot lowers are not zero.
  predicate MayClose(w: World, k: Slot) {
    && k in w.slots && w.slots[k] in w.descs && w.descs[w.slots[k]].count > 0
    && match w.descs[w.slots[k]].target
       case Plain => true
       case PipeEnd(p, writing) => p in w.pipes && if writing then w.pipes[p].writers > 0 else w.pipes[p].readers > 0
  }

  function Closed(w: World, k: Slot): World
    requires MayClose(w, k)
  {
    var d := w.slots[k];
    var e := w.descs[d];
    w.(slots := w.slots - {k}, descs := w.descs[d := e.(count := e.count - 1)],
      pipes := Recounted(w.pipes, e.target, false))
  }

  lemma Closable(w: World, k: Slot)
    requires Inv(w) && k in w.slots
    ensures MayClose(w, k)
  {
    var d := w.slots[k];
    var e := w.descs[d];
    assert DescOk(w, d) && k in Users(w, d);
    if e.target.PipeEnd? {
      var p, b := e.target.pipe, e.target.writing;
      assert PipeOk(w, p) && IsEnd(w, k, p, b) && k in Ends(w, p, b);
    }
  }

  /** fd_array_close: the slot's reference stays with the caller. */
  lemma CloseKeeps(w: World, k: Slot)
    requires Inv(w) && k in w.slots
    ensures MayClose(w, k)
    ensures Inv(Closed(w, k)) && Closed(w, k).descs[w.slots[k]].refs > Closed(w, k).descs[w.slots[k]].count
  {
    Closable(w, k);
    var d, w' := w.slots[k], Closed(w, k);
    assert w'.slots[k := d] == w.slots;
    assert DescOk(w, d);
    hide Users, Ends, Namers, IsEnd, Names;
    forall e | e in w'.descs ensures DescOk(w', e) { assert DescOk(w, e); MoreUsers(w', w, k, d, e); }
    forall p | p in w'.pipes ensures PipeOk(w', p) {
      assert PipeOk(w, p);
      MoreEnds(w', w, k, d, p, false);
      MoreEnds(w', w, k, d, p, true);
      SameNamers(w', w, p);
    }
  }

  // ---- references -----------------------------------------------------------------------------------

  function Held(w: World, d: nat): World
    requires d in w.descs
  { w.(descs := w.descs[d := w.descs[d].(refs := w.descs[d].refs + 1)]) }

  /** open_file_put: the last reference frees the description, and the last description the pipe. */
  function Released(w: World, d: nat): World
    requires Inv(w) && d in w.descs && w.descs[d].refs > 0
  {
    var e := w.descs[d];
    if e.refs > 1 then w.(descs := w.descs[d := e.(refs := e.refs - 1)])
    else if e.target.Plain? then w.(descs := w.descs - {d})
    else
      assert DescOk(w, d);
      var p := e.target.pipe;
      assert PipeOk(w, p);
      w.(descs := w.descs - {d},
         pipes := if w.pipes[p].refs == 1 then w.pipes - {p}
           else w.pipes[p := w.pipes[p].(refs := w.pipes[p].refs - 1)])
  }

  // Only references in flight come and go.
  lemma RefsKeep(w: World, w': World)
    requires Inv(w) && SameTargets(w, w') && w'.slots == w.slots && w'.pipes == w.pipes && w'.next == w.next
    requires forall e | e in w.descs ::
        w'.descs[e].count == w.descs[e].count && w'.descs[e].refs >= w.descs[e].count && w'.descs[e].refs > 0
    ensures Inv(w')
  {
    hide Ends, Namers, IsEnd, Names;
    forall e | e in w'.descs ensures DescOk(w', e) { assert DescOk(w, e); assert Users(w', e) == Users(w, e); }
    forall p | p in w'.pipes ensures PipeOk(w', p) {
      assert PipeOk(w, p);
      SameEnds(w, w', p, false);
      SameEnds(w, w', p, true);
      SameNamers(w, w', p);
    }
  }

  lemma HoldKeeps(w: World, d: nat)
    requires Inv(w) && d in w.descs
    ensures Inv(Held(w, d))
  {
    var w' := Held(w, d);
    forall e | e in w.descs ensures w'.descs[e].refs >= w.descs[e].count && w'.descs[e].refs > 0 {
      assert DescOk(w, e);
    }
    RefsKeep(w, w');
  }

  // Removing a description that no slot names.
  lemma DropEnds(w: World, w': World, d: nat, p: nat, b: bool)
    requires w'.slots == w.slots && w'.descs == w.descs - {d} && forall k | k in w.slots :: w.slots[k] != d
    ensures Ends(w', p, b) == Ends(w, p, b)
  {
    forall x | x in w.slots ensures IsEnd(w', x, p, b) <==> IsEnd(w, x, p, b) { assert w.slots[x] != d; }
  }

  lemma DropNamers(w: World, w': World, d: nat, p: nat)
    requires d in w.descs && w'.descs == w.descs - {d}
    ensures |Namers(w', p)| == |Namers(w, p)| - (if Names(w, d, p) then 1 else 0)
  {
    forall e | e != d ensures Names(w', e, p) <==> Names(w, e, p) { }
    assert !Names(w', d, p);
    if Names(w, d, p) { assert Namers(w, p) == Namers(w', p) + {d}; } else { assert Namers(w, p) == Namers(w', p); }
  }

  lemma ReleaseKeeps(w: World, d: nat)
    requires Inv(w) && d in w.descs && w.descs[d].refs > w.descs[d].count
    ensures Inv(Released(w, d))
  {
    var w', e := Released(w, d), w.descs[d];
    assert DescOk(w, d);
    if e.refs > 1 {
      forall x | x in w.descs ensures w'.descs[x].refs >= w.descs[x].count && w'.descs[x].refs > 0 {
        assert DescOk(w, x);
      }
      RefsKeep(w, w');
    } else {
      LastKeeps(w, d);
    }
  }

  lemma LastKeeps(w: World, d: nat)
    requires Inv(w) && d in w.descs && w.descs[d].refs == 1 && w.descs[d].count == 0
    ensures Inv(Released(w, d))
  {
    var w', e := Released(w, d), w.descs[d];
    assert DescOk(w, d) && Users(w, d) == {};
    assert forall k | k in w.slots && w.slots[k] == d :: k in Users(w, d);
    assert e.target.PipeEnd? ==> PipeOk(w, e.target.pipe);
    NoOthers(w, d);
    hide Ends, Namers, IsEnd;
    forall x | x in w'.descs ensures DescOk(w', x) { assert DescOk(w, x); assert Users(w', x) == Users(w, x); }
    forall p | p in w'.pipes ensures PipeOk(w', p) {
      assert PipeOk(w, p);
      DropEnds(w, w', d, p, false);
      DropEnds(w, w', d, p, true);
      DropNamers(w, w', d, p);
    }
  }

  // When a pipe has one description, no other one names it.
  lemma NoOthers(w: World, d: nat)
    requires Inv(w) && d in w.descs
    ensures w.descs[d].target.PipeEnd? ==> w.descs[d].target.pipe in w.pipes
    ensures w.descs[d].target.PipeEnd? && w.pipes[w.descs[d].target.pipe].refs == 1 ==>
              forall e | e in w.descs && e != d :: !Names(w, e, w.descs[d].target.pipe)
  {
    assert DescOk(w, d);
    if w.descs[d].target.PipeEnd? && w.pipes[w.descs[d].target.pipe].refs == 1 {
      var p := w.descs[d].target.pipe;
      assert PipeOk(w, p) && Names(w, d, p) && d in Namers(w, p);
      forall e | e in w.descs && e != d ensures !Names(w, e, p) {
        if Names(w, e, p) { Pair(Namers(w, p), d, e); }
      }
    }
  }

  lemma Pair(s: set<nat>, d: nat, e: nat)
    requires d in s && e in s && d != e
    ensures |s| >= 2
  {
    assert {d, e} <= s;
    assert |s| == |s - {d}| + 1 && e in s - {d};
  }

  // ---- a new pipe -----------------------------------------------------------------------------------

  // A pipe with its two descriptions, before any slot is open.
  function Bare(w: World): World {
    World(w.slots, w.descs[w.next + 1 := Description(1, 0, PipeEnd(w.next, false))][w.next + 2 := Description(1, 0,
      PipeEnd(w.next, true))],
          w.pipes[w.next := PipeRec(0, 0, 2, [], [], [])], w.next + 3)
  }

  lemma BareKeeps(w: World)
    requires Inv(w)
    ensures Inv(Bare(w))
  {
    var w' := Bare(w);
    forall e | e in w'.descs ensures DescOk(w', e) {
      assert Users(w', e) == Users(w, e);
      if e in w.descs { assert DescOk(w, e); } else { assert Users(w, e) == {}; }
    }
    forall q | q in w'.pipes ensures PipeOk(w', q) {
      BareSets(w, q);
      if q != w.next { assert PipeOk(w, q); }
    }
  }

  lemma BareSets(w: World, q: nat)
    requires Inv(w)
    ensures var w' := Bare(w);
            if q == w.next then Ends(w', q, false) == {} && Ends(w', q, true) == {} && |Namers(w', q)| == 2
            else
              && Ends(w', q, false) == Ends(w, q, false) && Ends(w', q, true) == Ends(w, q, true)
              && Namers(w', q) == Namers(w, q)
  {
    var w', p := Bare(w), w.next;
    forall x, b | x in w.slots ensures IsEnd(w', x, q, b) <==> IsEnd(w, x, q, b) && q != p {
      assert DescOk(w, w.slots[x]);
    }
    forall e | e in w.descs ensures Names(w', e, q) <==> Names(w, e, q) && q != p { assert DescOk(w, e); }
    assert Names(w', p + 1, q) == Names(w', p + 2, q) == (q == p);
    hide IsEnd, Names;
    if q == p { assert Namers(w', q) == {p + 1, p + 2}; } else { assert Namers(w', q) == Namers(w, q); }
  }

  /** file_pipe's result: two slots, one at each end of a new pipe. */
  function Piped(w: World, k: Slot, l: Slot): World {
    World(w.slots[k := w.next + 1][l := w.next + 2],
          w.descs[w.next + 1 := Description(1, 1, PipeEnd(w.next, false))][w.next + 2 := Description(1, 1,
            PipeEnd(w.next, true))],
          w.pipes[w.next := PipeRec(1, 1, 2, [], [], [])], w.next + 3)
  }

  // The creator's reference becomes the slot's.
  function Installed(w: World, k: Slot, d: nat): World
    requires d in w.descs && (w.descs[d].target.PipeEnd? ==> w.descs[d].target.pipe in w.pipes)
  {
    w.(slots := w.slots[k := d], descs := w.descs[d := w.descs[d].(count := w.descs[d].count + 1)],
       pipes := Recounted(w.pipes, w.descs[d].target, true))
  }

  lemma InstallKeeps(w: World, k: Slot, d: nat)
    requires Inv(w) && d in w.descs && k !in w.slots && w.descs[d].refs > w.descs[d].count
    requires w.descs[d].target.PipeEnd? ==> w.descs[d].target.pipe in w.pipes
    ensures Inv(Installed(w, k, d))
  {
    OpenKeeps(w, k, d);
    ReleaseKeeps(Opened(w, k, d), d);
    assert Released(Opened(w, k, d), d) == Installed(w, k, d);
  }

  lemma PipeKeeps(w: World, k: Slot, l: Slot)
    requires Inv(w) && k !in w.slots && l !in w.slots && k != l
    ensures Inv(Piped(w, k, l))
  {
    hide Inv;
    BareKeeps(w);
    InstallKeeps(Bare(w), k, w.next + 1);
    InstallKeeps(Installed(Bare(w), k, w.next + 1), l, w.next + 2);
    assert Installed(Installed(Bare(w), k, w.next + 1), l, w.next + 2) == Piped(w, k, l);
  }

  // ---- the stream -----------------------------------------------------------------------------------

  // Changing only the bytes of a pipe.
  lemma StreamKeeps(w: World, p: nat, r: PipeRec)
    requires Inv(w) && p in w.pipes && r == w.pipes[p].(buffer := r.buffer, written := r.written, taken := r.taken)
    requires r.taken + r.buffer == r.written && |r.buffer| <= CAPACITY
    ensures Inv(w.(pipes := w.pipes[p := r]))
  {
    var w' := w.(pipes := w.pipes[p := r]);
    forall d | d in w'.descs ensures DescOk(w', d) { assert DescOk(w, d); assert Users(w', d) == Users(w, d); }
    forall q | q in w'.pipes ensures PipeOk(w', q) {
      assert PipeOk(w, q);
      SameEnds(w, w', q, false);
      SameEnds(w, w', q, true);
      SameNamers(w, w', q);
    }
  }

  /** The count of an end is zero exactly when no open slot of any process is at that end. */
  lemma NoEnd(w: World, p: nat, writing: bool)
    requires Inv(w) && p in w.pipes
    ensures (if writing then w.pipes[p].writers else w.pipes[p].readers) == 0 <==>
            forall k | k in w.slots :: !IsEnd(w, k, p, writing)
  {
    assert PipeOk(w, p);
    var e := Ends(w, p, writing);
    forall k | k in w.slots ensures k in e <==> IsEnd(w, k, p, writing) { }
    if e != {} { var k :| k in e; assert IsEnd(w, k, p, writing); }
  }
}
