/** Whole runs of descriptor operations on pipes: what each operation does to the tables and the
    byte streams, and what the streams are after any interleaving. */
module Streams {
  import opened Layout
  import opened Pipes
  import opened Descriptors

  /** Operations as their critical sections: a read or write acquires its description, does one or
      more rounds, and releases it; anything may happen in between. */
  datatype Event =
    | Acquire(t: nat, fd: nat)
    | ReadRound(d: nat, len: nat)
    | WriteRound(d: nat, data: seq<Byte>)
    | Release(d: nat)
    | Dup(t: nat, fd1: nat, fd2: Option<nat>)
    | DupFrom(t: nat, fd: nat, least: nat)
    | MakePipe(t: nat, memory: bool)
    | ForkTable(parent: nat, child: nat)
    | CloseFd(t: nat, fd: nat)
    | CloseFrom(t: nat, first: nat)

  // What a round moved, and on which pipe.
  datatype Outcome = Quiet | Out(p: nat, got: Got) | In(p: nat, data: seq<Byte>, gave: Gave)

  // ---- the tables ---------------------------------------------------------------------------------

  /** The lowest free slot of table t from `first` on. */
  function FreeFrom(slots: map<Slot, nat>, t: nat, first: nat, limit: nat): (r: Option<nat>)
    ensures r.Some? ==> first <= r.value < limit && (t, r.value) !in slots
    ensures r.Some? ==> forall x | first <= x < r.value :: (t, x) in slots
    ensures r.None? ==> forall x | first <= x < limit :: (t, x) in slots
    decreases limit - first
  {
    if first >= limit then None else if (t, first) !in slots then Some(first) else FreeFrom(slots, t, first + 1, limit)
  }

  // Slot (t, x), if there is such an x, names what slot (t, fd) names.
  function Renamed(slots: map<Slot, nat>, t: nat, fd: nat, x: Option<nat>): map<Slot, nat> {
    if (t, fd) in slots && x.Some? then slots[(t, x.value) := slots[(t, fd)]] else slots
  }

  function DupSlots(slots: map<Slot, nat>, limit: nat, t: nat, fd1: nat, fd2: Option<nat>): map<Slot, nat> {
    if fd2.None? then Renamed(slots, t, fd1, FreeFrom(slots, t, 0, limit))
    else if fd2.value >= limit then slots
    else Renamed(slots, t, fd1, fd2)
  }

  ghost predicate ForkSlots(slots: map<Slot, nat>, parent: nat, child: nat, slots': map<Slot, nat>) {
    && (forall t, fd :: (t, fd) in slots' <==> (t, fd) in slots || (t == child && (parent, fd) in slots))
    && (forall k | k in slots :: k in slots' && slots'[k] == slots[k])
    && (forall fd | (parent, fd) in slots && (child, fd) !in slots :: slots'[(child, fd)] == slots[(parent, fd)])
  }

  ghost predicate CloseSlots(slots: map<Slot, nat>, t: nat, first: nat, slots': map<Slot, nat>) {
    && (forall k :: k in slots' <==> k in slots && !(k.0 == t && k.1 >= first))
    && (forall k | k in slots' :: slots'[k] == slots[k])
  }

  predicate NoTable(slots: map<Slot, nat>, t: nat) { forall k | k in slots :: k.0 != t }

  // ---- one operation ------------------------------------------------------------------------------

  // No byte moves; pipes go only when nothing names them any more, as `Inv` says.
  ghost predicate SameStreams(w: World, w': World) {
    && w'.next == w.next
    && forall p {:trigger p in w'.pipes} | p in w'.pipes :: p in w.pipes && SameBytes(w.pipes[p], w'.pipes[p])
  }

  predicate SameBytes(q: PipeRec, q': PipeRec) {
    q'.buffer == q.buffer && q'.written == q.written && q'.taken == q.taken
  }

  // Somebody holds a reference to description d for an operation on one end of a pipe.
  predicate Holds(w: World, d: nat, writing: bool) {
    && d in w.descs && w.descs[d].refs > w.descs[d].count
    && w.descs[d].target.PipeEnd? && w.descs[d].target.writing == writing && w.descs[d].target.pipe in w.pipes
  }

  /** What each operation does, for tables of `limit` slots. */
  ghost predicate Effect(w: World, limit: nat, e: Event, o: Outcome, w': World) {
    match e
    case Acquire(t, fd) =>
      o == Quiet && w' == if (t, fd) in w.slots && w.slots[(t, fd)] in w.descs then Held(w, w.slots[(t, fd)]) else w
    case ReadRound(d, len) =>
      if Holds(w, d, false) && len > 0 then
        var p := w.descs[d].target.pipe;
        o == Out(p, GotOf(w.pipes[p], len)) && w' == w.(pipes := w.pipes[p := Pulled(w.pipes[p], len)])
      else o == Quiet && w' == w
    case WriteRound(d, data) =>
      if Holds(w, d, true) && data != [] then
        var p := w.descs[d].target.pipe;
        o == In(p, data, GaveOf(w.pipes[p], data)) && w' == w.(pipes := w.pipes[p := Pushed(w.pipes[p], data)])
      else o == Quiet && w' == w
    case Release(d) => o == Quiet && w'.slots == w.slots && SameStreams(w, w')
    case Dup(t, fd1, fd2) => o == Quiet && w'.slots == DupSlots(w.slots, limit, t, fd1, fd2) && SameStreams(w, w')
    case DupFrom(t, fd, least) =>
      o == Quiet && w'.slots == Renamed(w.slots, t, fd, FreeFrom(w.slots, t, least, limit)) && SameStreams(w, w')
    case MakePipe(t, memory) =>
      var a := FreeFrom(w.slots, t, 0, limit);
      var b := if a.Some? then FreeFrom(w.slots, t, a.value + 1, limit) else None;
      o == Quiet && w' == if memory && b.Some? then Piped(w, (t, a.value), (t, b.value)) else w
    case ForkTable(parent, child) =>
      && o == Quiet && SameStreams(w, w')
      && if parent != child && NoTable(w.slots, child) then ForkSlots(w.slots, parent, child, w'.slots) else w' == w
    case CloseFd(t, fd) => o == Quiet && w'.slots == w.slots - {(t, fd)} && SameStreams(w, w')
    case CloseFrom(t, first) => o == Quiet && CloseSlots(w.slots, t, first, w'.slots) && SameStreams(w, w')
  }

  // ---- whole runs ---------------------------------------------------------------------------------

  function DeliveredBy(o: Outcome, p: nat): seq<Byte> { if o.Out? && o.p == p && o.got.Bytes? then o.got.data else [] }

  function AcceptedBy(o: Outcome, p: nat): seq<Byte> {
    if o.In? && o.p == p && o.gave.Wrote? && o.gave.count <= |o.data| then o.data[..o.gave.count] else []
  }

  /** All bytes that the reads of a run returned from pipe p, in order. */
  function Delivered(os: seq<Outcome>, p: nat): seq<Byte> {
    if os == [] then [] else Delivered(os[..|os| - 1], p) + DeliveredBy(os[|os| - 1], p)
  }

  /** All bytes that the writes of a run put into pipe p, in order. */
  function Accepted(os: seq<Outcome>, p: nat): seq<Byte> {
    if os == [] then [] else Accepted(os[..|os| - 1], p) + AcceptedBy(os[|os| - 1], p)
  }

  ghost predicate Run(ws: seq<World>, limit: nat, es: seq<Event>, os: seq<Outcome>) {
    && |ws| == |es| + 1 && |os| == |es|
    && (forall i {:trigger ws[i]} | 0 <= i < |ws| :: Inv(ws[i]))
    && (forall i {:trigger es[i]} | 0 <= i < |es| :: Effect(ws[i], limit, es[i], os[i], ws[i + 1]))
  }

  // What a pipe of world w had seen in world v; one that v does not have had seen nothing.
  function Written(v: World, p: nat): seq<Byte> { if p in v.pipes then v.pipes[p].written else [] }
  function TakenOut(v: World, p: nat): seq<Byte> { if p in v.pipes then v.pipes[p].taken else [] }

  /** One operation: names are never used again, and each stream grows by what the outcome says. */
  lemma StepStreams(w: World, limit: nat, e: Event, o: Outcome, w': World, p: nat)
    requires Inv(w) && Inv(w') && Effect(w, limit, e, o, w')
    ensures w.next <= w'.next && (p in w.pipes ==> p < w.next)
    ensures p >= w.next ==> DeliveredBy(o, p) == [] && AcceptedBy(o, p) == []
    ensures p in w'.pipes ==> p in w.pipes || p >= w.next
    ensures p in w'.pipes ==> w'.pipes[p].written == Written(w, p) + AcceptedBy(o, p)
    ensures p in w'.pipes ==> w'.pipes[p].taken == TakenOut(w, p) + DeliveredBy(o, p)
  {
    assert Named(w);
    if p in w'.pipes && p in w.pipes && !e.ReadRound? && !e.WriteRound? && !e.MakePipe? && !e.Acquire? {
      assert SameStreams(w, w') && SameBytes(w.pipes[p], w'.pipes[p]);
    }
  }

  lemma {:induction false} RunStreams(ws: seq<World>, limit: nat, es: seq<Event>, os: seq<Outcome>, n: nat, p: nat)
    requires Run(ws, limit, es, os) && n <= |es|
    ensures ws[0].next <= ws[n].next
    ensures p >= ws[n].next ==> Delivered(os[..n], p) == [] && Accepted(os[..n], p) == []
    ensures p in ws[n].pipes ==> p in ws[0].pipes || p >= ws[0].next
    ensures p in ws[n].pipes ==> ws[n].pipes[p].written == Written(ws[0], p) + Accepted(os[..n], p)
    ensures p in ws[n].pipes ==> ws[n].pipes[p].taken == TakenOut(ws[0], p) + Delivered(os[..n], p)
  {
    hide Inv, Effect;
    if n == 0 {
      OldName(ws[0], p);
    } else {
      var i := n - 1;
      RunStreams(ws, limit, es, os, i, p);
      assert Inv(ws[i]) && Inv(ws[n]) && Effect(ws[i], limit, es[i], os[i], ws[i + 1]);
      OldName(ws[0], p);
      StepStreams(ws[i], limit, es[i], os[i], ws[n], p);
      assert os[..n][..i] == os[..i] && os[..n][i] == os[i];
      hide Run, DeliveredBy, AcceptedBy;
      Regroup(Written(ws[0], p), Accepted(os[..i], p), AcceptedBy(os[i], p));
      Regroup(TakenOut(ws[0], p), Delivered(os[..i], p), DeliveredBy(os[i], p));
    }
  }

  lemma OldName(w: World, p: nat)
    requires Inv(w)
    ensures p in w.pipes ==> p < w.next
  { assert Named(w); }

  /** The stream law over every run: for each pipe that is left, the bytes read so far and the bytes
      in the ring are the bytes written so far, and what was written and read during the run is
      exactly what the run's writes accepted and its reads returned, in order. */
  lemma StreamLaw(ws: seq<World>, limit: nat, es: seq<Event>, os: seq<Outcome>, p: nat)
    requires Run(ws, limit, es, os) && p in ws[|es|].pipes
    ensures var q := ws[|es|].pipes[p];
            && q.taken + q.buffer == q.written && |q.buffer| <= CAPACITY
            && q.written == Written(ws[0], p) + Accepted(os, p) && q.taken == TakenOut(ws[0], p) + Delivered(os, p)
            && (p !in ws[0].pipes ==> Delivered(os, p) + q.buffer == Accepted(os, p))
            && q.readers == |Ends(ws[|es|], p, false)| && q.writers == |Ends(ws[|es|], p, true)|
  {
    assert Inv(ws[|es|]) && PipeOk(ws[|es|], p);
    RunStreams(ws, limit, es, os, |es|, p);
    assert os[..|es|] == os;
    hide Inv, Effect;
    assert p !in ws[0].pipes ==> [] + Accepted(os, p) == Accepted(os, p) && [] + Delivered(os, p) == Delivered(os, p);
  }

  /** A read says end of file exactly when the ring is empty and no open descriptor of any process
      can write; a write says broken pipe exactly when none can read. */
  lemma EndsOfFile(ws: seq<World>, limit: nat, es: seq<Event>, os: seq<Outcome>, i: nat)
    requires Run(ws, limit, es, os) && i < |es|
    ensures os[i].Out? ==>
      && os[i].p in ws[i].pipes
      && (os[i].got == Eof <==>
          ws[i].pipes[os[i].p].buffer == [] && forall k | k in ws[i].slots :: !IsEnd(ws[i], k, os[i].p, true))
    ensures os[i].In? ==>
      && os[i].p in ws[i].pipes
      && (os[i].gave == NoReaders <==> forall k | k in ws[i].slots :: !IsEnd(ws[i], k, os[i].p, false))
  {
    assert Inv(ws[i]) && Effect(ws[i], limit, es[i], os[i], ws[i + 1]);
    if os[i].Out? { NoEnd(ws[i], os[i].p, true); }
    if os[i].In? { NoEnd(ws[i], os[i].p, false); }
  }
}
