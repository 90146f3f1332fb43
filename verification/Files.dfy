/** Descriptor tables: opening pipes, duplicating, forking and closing descriptors, and reading and
    writing through them. */
module Files {
  import opened Layout
  import opened Pipes
  import opened Descriptors
  import opened Streams

  datatype FileError = BadFd | TooMany | Reserved | OutOfMemory | Denied

  datatype Answer<T> = Done(value: T) | Error(error: FileError)

  predicate Taken(slots: map<Slot, nat>, reserved: set<Slot>, k: Slot) { k in slots || k in reserved }

  // The lowest free slot of table t from `first` on.
  ghost predicate Lowest(slots: map<Slot, nat>, reserved: set<Slot>, t: nat, first: nat, fd: nat) {
    first <= fd && !Taken(slots, reserved, (t, fd)) && forall x | first <= x < fd :: Taken(slots, reserved, (t, x))
  }

  ghost predicate AllTaken(slots: map<Slot, nat>, reserved: set<Slot>, t: nat, first: nat, limit: nat) {
    forall x | first <= x < limit :: Taken(slots, reserved, (t, x))
  }

  /** The tables of all processes, slot (t, fd) of table t, with the descriptions and pipes they name. */
  class FileTables {
    var slots: map<Slot, nat>
    // Slots an open in progress has reserved.
    var reserved: set<Slot>
    var descs: map<nat, Description>
    var pipes: map<nat, Pipe>
    var next: nat
    const limit: nat

    ghost function Pool(): (s: set<object>)
      reads this`pipes
      ensures this !in s
    { (set p | p in pipes :: pipes[p]) + (set p | p in pipes :: pipes[p].buffer) }

    lemma PoolKnown()
      ensures forall x | x in Pool() :: allocated(x)
    { }

    // The pipes are sound rings that share nothing.
    ghost predicate Shaped()
      reads this`pipes, Pool()
    {
      && (forall p {:trigger pipes[p]} | p in pipes :: pipes[p].Valid())
      && (forall p, q {:trigger pipes[p], pipes[q]} | p in pipes && q in pipes && p != q ::
            pipes[p] != pipes[q] && pipes[p].buffer != pipes[q].buffer)
    }

    ghost function Recs(): map<nat, PipeRec>
      reads this`pipes, Pool()
    { map p | p in pipes :: pipes[p].Rec() }

    ghost function W(): World
      reads this, Pool()
    { World(slots, descs, Recs(), next) }

    ghost predicate Valid()
      reads this, Pool()
    {
      Shaped() && Inv(W()) && (forall k | k in slots :: k.1 < limit) && forall k | k in reserved :: k !in slots
    }

    constructor (limit: nat)
      ensures Valid() && slots == map[] && reserved == {} && this.limit == limit && Pool() == {}
    {
      this.limit := limit;
      slots, reserved, descs, pipes, next := map[], {}, map[], map[], 0;
    }

    // ---- one pipe among the others ------------------------------------------------------------

    method CountEnd(t: Target, more: bool)
      requires Shaped() && (t.PipeEnd? ==> t.pipe in Recs())
      requires t.PipeEnd? && !more ==> if t.writing then Recs()[t.pipe].writers > 0 else Recs()[t.pipe].readers > 0
      modifies Pool()
      ensures Shaped() && Recs() == Recounted(old(Recs()), t, more)
    {
      hide Ring, Wrapped, Pipe.Contents, Pipe.Valid;
      if t.PipeEnd? {
        pipes[t.pipe].CountEnd(t.writing, more);
        assert forall q | q in pipes && q != t.pipe :: pipes[q].Rec() == old(pipes[q].Rec());
      }
    }

    // pipe_put
    method PutPipe(p: nat)
      requires Shaped() && p in Recs() && Recs()[p].refs > 0
      modifies this`pipes, Pool()
      ensures Shaped() && Pool() <= old(Pool())
      ensures Recs() == if old(Recs())[p].refs == 1 then old(Recs()) - {p}
                        else old(Recs())[p := old(Recs())[p].(refs := old(Recs())[p].refs - 1)]
    {
      var refs := CountRef(p);
      hide FileTables.Shaped, FileTables.Recs, FileTables.Pool;
      if refs == 0 { DropPipe(p); }
    }

    method DropPipe(p: nat)
      requires Shaped() && p in Recs()
      modifies this`pipes
      ensures Shaped() && Pool() <= old(Pool()) && Recs() == old(Recs()) - {p}
    {
      hide Ring, Wrapped, Pipe.Contents, Pipe.Valid, Pipe.Rec;
      pipes := pipes - {p};
      assert forall q | q in pipes :: pipes[q].Rec() == old(pipes[q].Rec());
    }

    method CountRef(p: nat) returns (refs: nat)
      requires Shaped() && p in Recs() && Recs()[p].refs > 0
      modifies Pool()
      ensures Shaped() && Recs() == old(Recs())[p := old(Recs())[p].(refs := old(Recs())[p].refs - 1)]
      ensures refs == old(Recs())[p].refs - 1
    {
      hide Ring, Wrapped, Pipe.Contents, Pipe.Valid;
      pipes[p].CountRef(false);
      refs := pipes[p].refs;
      assert forall q | q in pipes && q != p :: pipes[q].Rec() == old(pipes[q].Rec());
    }

    method Pull(p: nat, len: nat) returns (r: Got)
      requires Shaped() && p in Recs() && len > 0
      modifies Pool()
      ensures Shaped() && r == GotOf(old(Recs())[p], len) && Recs() == old(Recs())[p := Pulled(old(Recs())[p], len)]
    {
      hide Ring, Wrapped, Pulled, GotOf, Pipe.Contents, Pipe.Valid, Pipe.Rec;
      r := pipes[p].Read(len);
      assert forall q | q in pipes && q != p :: pipes[q].Rec() == old(pipes[q].Rec());
    }

    method Push(p: nat, data: seq<Byte>) returns (r: Gave)
      requires Shaped() && p in Recs()
      modifies Pool()
      ensures Shaped() && r == GaveOf(old(Recs())[p], data) && Recs() == old(Recs())[p := Pushed(old(Recs())[p], data)]
    {
      hide Ring, Wrapped, Pushed, GaveOf, Pipe.Contents, Pipe.Valid, Pipe.Rec;
      r := pipes[p].Write(data);
      assert forall q | q in pipes && q != p :: pipes[q].Rec() == old(pipes[q].Rec());
    }

    // A new pipe under the next name.
    method AddPipe()
      requires Shaped() && next !in Recs()
      modifies this`pipes
      ensures Shaped() && fresh(Pool() - old(Pool())) && Recs() == old(Recs())[next := PipeRec(1, 1, 2, [], [], [])]
    {
      hide Ring, Wrapped, Pipe.Contents, Pipe.Valid, Pipe.Rec;
      var pipe := NewPipe();
      pipes := pipes[next := pipe];
      assert forall q | q in old(pipes) :: q != next && pipes[q].Rec() == old(pipes[q].Rec());
      assert pipes[next].Rec() == PipeRec(1, 1, 2, [], [], []);
    }

    // pipe_create with a reference for each description and a descriptor at each end
    static method NewPipe() returns (pipe: Pipe)
      ensures fresh(pipe) && fresh(pipe.buffer) && pipe.Valid() && pipe.Rec() == PipeRec(1, 1, 2, [], [], [])
    {
      pipe := new Pipe();
      pipe.CountRef(true);
      pipe.CountRef(true);
      pipe.CountEnd(false, true);
      pipe.CountEnd(true, true);
      pipe.CountRef(false);
    }

    // ---- slots and references -----------------------------------------------------------------

    /** fd_array_alloc without a wish: the lowest free slot from `first` on. */
    method FreeSlot(t: nat, first: nat) returns (r: Option<nat>)
      ensures r.Some? ==> r.value < limit && Lowest(slots, reserved, t, first, r.value)
      ensures r.None? ==> AllTaken(slots, reserved, t, first, limit)
    {
      var fd := first;
      while fd < limit
        invariant first <= fd && AllTaken(slots, reserved, t, first, fd)
      {
        if !Taken(slots, reserved, (t, fd)) { return Some(fd); }
        fd := fd + 1;
      }
      r := None;
    }

    /** open_file_get_descriptor for a slot. */
    method Open(k: Slot, d: nat)
      requires Valid() && d in descs && k !in slots && k !in reserved && k.1 < limit
      modifies this`slots, this`descs, Pool()
      ensures Valid() && W() == Opened(old(W()), k, d) && slots == old(slots)[k := d]
      ensures SameStreams(old(W()), W()) && descs.Keys == old(descs.Keys)
    {
      hide Inv, FileTables.Shaped, FileTables.Recs, FileTables.Pool;
      OpenKeeps(W(), k, d);
      DescPipe(W(), d);
      var e := descs[d];
      CountEnd(e.target, true);
      descs := descs[d := e.(refs := e.refs + 1, count := e.count + 1)];
      slots := slots[k := d];
      assert W() == Opened(old(W()), k, d);
    }

    /** fd_array_close: the slot is closed; its reference is still to be put. */
    method CloseSlot(k: Slot) returns (d: nat)
      requires Valid() && k in slots
      modifies this`slots, this`descs, Pool()
      ensures Valid() && slots == old(slots) - {k} && d == old(slots)[k] && d in descs && descs[d].refs > descs[d].count
      ensures MayClose(old(W()), k) && W() == Closed(old(W()), k) && SameStreams(old(W()), W())
    {
      hide Inv, FileTables.Shaped, FileTables.Recs, FileTables.Pool;
      CloseKeeps(W(), k);
      d := slots[k];
      var e := descs[d];
      CountEnd(e.target, false);
      descs := descs[d := e.(count := e.count - 1)];
      slots := slots - {k};
      assert W() == Closed(old(W()), k);
    }

    /** open_file_put: the last reference frees the description, and the last description the pipe. */
    method Put(d: nat)
      requires Valid() && d in descs && descs[d].refs > descs[d].count
      modifies this`descs, this`pipes, Pool()
      ensures Valid() && Pool() <= old(Pool()) && W() == Released(old(W()), d) && SameStreams(old(W()), W())
    {
      hide Inv, FileTables.Shaped, FileTables.Recs, FileTables.Pool;
      ReleaseKeeps(W(), d);
      DescPipe(W(), d);
      var e := descs[d];
      if e.refs > 1 {
        descs := descs[d := e.(refs := e.refs - 1)];
      } else {
        descs := descs - {d};
        if e.target.PipeEnd? { PutPipe(e.target.pipe); }
      }
      assert W() == Released(old(W()), d);
    }

    // ---- operations ---------------------------------------------------------------------------

    /** file_close */
    method Close(t: nat, fd: nat) returns (r: Answer<nat>)
      requires Valid()
      modifies this`slots, this`descs, this`pipes, Pool()
      ensures Valid() && Pool() <= old(Pool()) && (r.Error? <==> (t, fd) !in old(slots))
          && slots == old(slots) - {(t, fd)}
      ensures SameStreams(old(W()), W()) && (r.Error? ==> W() == old(W()))
      ensures r.Done? ==>
        && MayClose(old(W()), (t, fd)) && Inv(Closed(old(W()), (t, fd)))
        && Closed(old(W()), (t, fd)).descs[old(slots)[(t, fd)]].refs > 0
        && W() == Released(Closed(old(W()), (t, fd)), old(slots)[(t, fd)])
    {
      if (t, fd) !in slots {
        SelfStreams(W());
        return Error(BadFd);
      }
      var d := CloseSlot((t, fd));
      Put(d);
      r := Done(fd);
    }

    /** file_dup: to the lowest free slot, or to a given one, which is closed first.  No byte moves. */
    method Dup(t: nat, fd1: nat, fd2: Option<nat>) returns (r: Answer<nat>)
      requires Valid()
      modifies this`slots, this`descs, this`pipes, Pool()
      ensures Valid() && Pool() <= old(Pool()) && SameStreams(old(W()), W()) && (r.Error? ==> W() == old(W()))
      ensures r.Done? ==>
        && (t, fd1) in old(slots) && slots == old(slots)[(t, r.value) := old(slots)[(t, fd1)]]
        && if fd2.Some? then r.value == fd2.value else Lowest(old(slots), reserved, t, 0, r.value)
      ensures r.Error? <==>
        || (t, fd1) !in old(slots)
        || (fd2.None? && AllTaken(old(slots), reserved, t, 0, limit))
        || (fd2.Some? && fd2.value != fd1 && (fd2.value >= limit || (t, fd2.value) in reserved))
    {
      SelfStreams(W());
      if (t, fd1) !in slots { return Error(BadFd); }
      if fd2 == Some(fd1) { return Done(fd1); }
      var to;
      if fd2.None? {
        var free := FreeSlot(t, 0);
        if free.None? { return Error(TooMany); }
        to := free.value;
      } else {
        to := fd2.value;
        if to >= limit { return Error(BadFd); }
        if (t, to) in reserved { return Error(Reserved); }
      }
      Replace(t, fd1, to);
      r := Done(to);
    }

    // The second slot is closed if it is open, and made to name the first one's description.
    method Replace(t: nat, fd1: nat, to: nat)
      requires Valid() && (t, fd1) in slots && to != fd1 && to < limit && (t, to) !in reserved
      modifies this`slots, this`descs, this`pipes, Pool()
      ensures Valid() && Pool() <= old(Pool()) && slots == old(slots)[(t, to) := old(slots)[(t, fd1)]]
      ensures SameStreams(old(W()), W())
    {
      hide Inv, FileTables.Shaped, FileTables.Recs, FileTables.Pool;
      var replaced := None;
      SelfStreams(W());
      if (t, to) in slots {
        var d := CloseSlot((t, to));
        replaced := Some(d);
      }
      SlotNamed(W(), (t, fd1));
      var d := slots[(t, fd1)];
      Open((t, to), d);
      if replaced.Some? { Put(replaced.value); }
    }

    /** F_DUPFD: the lowest free slot from `least` on.  No byte moves. */
    method DupFrom(t: nat, fd: nat, least: nat) returns (r: Answer<nat>)
      requires Valid()
      modifies this`slots, this`descs, Pool()
      ensures Valid() && SameStreams(old(W()), W()) && (r.Error? ==> W() == old(W()))
      ensures r.Error? <==> least >= limit || (t, fd) !in old(slots) || AllTaken(old(slots), reserved, t, least, limit)
      ensures r.Done? ==>
        && (t, fd) in old(slots) && least <= r.value < limit && slots == old(slots)[(t, r.value) := old(slots)[(t, fd)]]
        && Lowest(old(slots), reserved, t, least, r.value)
    {
      SelfStreams(W());
      if least >= limit || (t, fd) !in slots { return Error(BadFd); }
      var free := FreeSlot(t, least);
      if free.None? { return Error(TooMany); }
      SlotNamed(W(), (t, fd));
      Open((t, free.value), slots[(t, fd)]);
      r := Done(free.value);
    }

    /** file_pipe: two slots are reserved first; every failure gives them back. */
    method MakePipe(t: nat, memory: bool) returns (r: Answer<(nat, nat)>)
      requires Valid()
      modifies this
      ensures Valid() && fresh(Pool() - old(Pool())) && reserved == old(reserved)
      ensures r.Error? ==> W() == old(W())
      ensures r.Error? && memory ==>
        AllTaken(slots, reserved, t, 0, limit) ||
        exists x: nat :: Lowest(slots, reserved, t, 0, x) && AllTaken(slots, reserved, t, x + 1, limit)
      ensures r.Done? ==>
        && memory && r.value.0 < r.value.1 < limit
        && Lowest(old(slots), reserved, t, 0, r.value.0) && Lowest(old(slots), reserved, t, r.value.0 + 1, r.value.1)
        && W() == Piped(old(W()), (t, r.value.0), (t, r.value.1))
    {
      hide FileTables.Valid, FileTables.W, Inv, Piped;
      var first := Reserve(t);
      if first.None? { return Error(TooMany); }
      var k: Slot := (t, first.value);
      var second := Reserve(t);
      if second.None? {
        assert forall x | first.value < x < limit :: Taken(slots, reserved, (t, x)) && (t, x) != k;
        assert AllTaken(slots, old(reserved), t, first.value + 1, limit);
        Cancel({k});
        assert reserved == old(reserved);
        return Error(TooMany);
      }
      var l: Slot := (t, second.value);
      assert forall x | first.value < x < second.value :: Taken(slots, reserved, (t, x)) && (t, x) != k;
      assert Lowest(slots, old(reserved), t, first.value + 1, second.value);
      assert reserved - {k, l} == old(reserved);
      if memory {
        Install(k, l);
        r := Done((first.value, second.value));
      } else {
        Cancel({k, l});
        r := Error(OutOfMemory);
      }
    }

    // fd_array_alloc
    method Reserve(t: nat) returns (r: Option<nat>)
      requires Valid()
      modifies this`reserved
      ensures Valid() && W() == old(W()) && Pool() == old(Pool())
      ensures r.None? ==> AllTaken(slots, reserved, t, 0, limit) && reserved == old(reserved)
      ensures r.Some? ==>
        r.value < limit && Lowest(slots, old(reserved), t, 0, r.value) && reserved == old(reserved) + {(t, r.value)}
    {
      hide Inv, FileTables.Shaped, FileTables.Recs, FileTables.Pool;
      PoolKnown();
      assert this !in Pool();
      r := FreeSlot(t, 0);
      if r.Some? { reserved := reserved + {(t, r.value)}; }
    }

    // fd_array_cancel
    method Cancel(ks: set<Slot>)
      requires Valid()
      modifies this`reserved
      ensures Valid() && W() == old(W()) && Pool() == old(Pool()) && reserved == old(reserved) - ks
    {
      hide Inv, FileTables.Shaped, FileTables.Recs, FileTables.Pool;
      assert this !in Pool();
      reserved := reserved - ks;
    }

    // The pipe and its two descriptions go into the reserved slots.
    method Install(k: Slot, l: Slot)
      requires Valid() && k !in slots && l !in slots && k != l && k.1 < limit && l.1 < limit
      modifies this
      ensures Valid() && fresh(Pool() - old(Pool())) && W() == Piped(old(W()), k, l)
          && reserved == old(reserved) - {k, l}
    {
      hide Inv, FileTables.Shaped, FileTables.Recs, FileTables.Pool;
      PipeKeeps(W(), k, l);
      NextName(W());
      AddPipe();
      descs := descs[next + 1 := Description(1, 1, PipeEnd(next, false))][next + 2 := Description(1, 1,
        PipeEnd(next, true))];
      slots := slots[k := next + 1][l := next + 2];
      next := next + 3;
      reserved := reserved - {k, l};
      assert W() == Piped(old(W()), k, l);
    }

    /** dup_fs: the child's table names the same descriptions as the parent's.  No byte moves. */
    method Fork(parent: nat, child: nat)
      requires Valid() && parent != child && NoTable(slots, child) && forall k | k in reserved :: k.0 != child
      modifies this`slots, this`descs, Pool()
      ensures Valid() && SameStreams(old(W()), W()) && ForkSlots(old(slots), parent, child, slots)
    {
      hide Inv, FileTables.Shaped, FileTables.Recs, FileTables.Pool;
      SelfStreams(W());
      var fd := 0;
      while fd < limit
        invariant 0 <= fd <= limit && Valid() && SameStreams(old(W()), W())
        invariant forall t, x :: (t, x) in slots <==>
            (t, x) in old(slots) || (t == child && x < fd && (parent, x) in old(slots))
        invariant forall k | k in old(slots) :: slots[k] == old(slots)[k]
        invariant forall x | x < fd && (parent, x) in old(slots) :: slots[(child, x)] == old(slots)[(parent, x)]
      {
        if (parent, fd) in slots {
          SlotNamed(W(), (parent, fd));
          Open((child, fd), slots[(parent, fd)]);
        }
        fd := fd + 1;
      }
    }

    /** files_closeall and files_destroy: every slot from `first` on is closed.  The bytes of the pipes
        that are left do not move. */
    method CloseFrom(t: nat, first: nat)
      requires Valid()
      modifies this`slots, this`descs, this`pipes, Pool()
      ensures Valid() && Pool() <= old(Pool()) && SameStreams(old(W()), W()) && CloseSlots(old(slots), t, first, slots)
    {
      hide Inv, FileTables.Shaped, FileTables.Recs, FileTables.Pool;
      SelfStreams(W());
      var fd := first;
      while fd < limit
        invariant first <= fd && Valid() && Pool() <= old(Pool()) && SameStreams(old(W()), W())
        invariant forall k :: k in slots <==> k in old(slots) && !(k.0 == t && first <= k.1 < fd)
        invariant forall k | k in slots :: slots[k] == old(slots)[k]
      {
        if (t, fd) in slots {
          var d := CloseSlot((t, fd));
          Put(d);
        }
        fd := fd + 1;
      }
    }

    /** fd_acquire: an operation in flight keeps the description alive. */
    method Acquire(t: nat, fd: nat) returns (r: Answer<nat>)
      requires Valid()
      modifies this`descs
      ensures Valid() && (r.Error? <==> (t, fd) !in slots) && (r.Error? ==> W() == old(W()))
      ensures r.Done? ==> r.value == slots[(t, fd)] && r.value in old(descs) && W() == Held(old(W()), r.value)
    {
      hide Inv, FileTables.Shaped, FileTables.Recs, FileTables.Pool;
      assert this !in Pool();
      if (t, fd) !in slots { return Error(BadFd); }
      var d := slots[(t, fd)];
      SlotNamed(W(), (t, fd));
      HoldKeeps(W(), d);
      descs := descs[d := descs[d].(refs := descs[d].refs + 1)];
      assert W() == Held(old(W()), d);
      r := Done(d);
    }

    /** One round of a read through an acquired description: the oldest bytes, at most `len`, and end of
        file exactly when the ring is empty and no descriptor can write. */
    method Read(d: nat, len: nat) returns (r: Answer<Got>)
      requires Valid() && d in descs && len > 0
      modifies Pool()
      ensures Valid() && (r.Error? <==> !(descs[d].target.PipeEnd? && !descs[d].target.writing))
          && (r.Error? ==> W() == old(W()))
      ensures r.Done? ==>
        var p := descs[d].target.pipe;
        && p in old(Recs()) && r.value == GotOf(old(Recs())[p], len)
        && W() == old(W()).(pipes := old(Recs())[p := Pulled(old(Recs())[p], len)])
        && (r.value == Eof <==> old(Recs())[p].buffer == [] && forall k | k in slots :: !IsEnd(old(W()), k, p, true))
    {
      hide Inv, FileTables.Shaped, FileTables.Recs, FileTables.Pool;
      if !(descs[d].target.PipeEnd? && !descs[d].target.writing) { return Error(Denied); }
      var p := descs[d].target.pipe;
      DescPipe(W(), d);
      NoEnd(W(), p, true);
      PulledKeeps(W(), p, len);
      var got := Pull(p, len);
      r := Done(got);
    }

    /** One round of a write through an acquired description: as many bytes as the ring has room for, and
        a broken pipe exactly when no descriptor can read. */
    method Write(d: nat, data: seq<Byte>) returns (r: Answer<Gave>)
      requires Valid() && d in descs && data != []
      modifies Pool()
      ensures Valid() && (r.Error? <==> !(descs[d].target.PipeEnd? && descs[d].target.writing))
          && (r.Error? ==> W() == old(W()))
      ensures r.Done? ==>
        var p := descs[d].target.pipe;
        && p in old(Recs()) && r.value == GaveOf(old(Recs())[p], data)
        && W() == old(W()).(pipes := old(Recs())[p := Pushed(old(Recs())[p], data)])
        && (r.value == NoReaders <==> forall k | k in slots :: !IsEnd(old(W()), k, p, false))
    {
      hide Inv, FileTables.Shaped, FileTables.Recs, FileTables.Pool;
      if !(descs[d].target.PipeEnd? && descs[d].target.writing) { return Error(Denied); }
      var p := descs[d].target.pipe;
      DescPipe(W(), d);
      NoEnd(W(), p, false);
      PushedKeeps(W(), p, data);
      var gave := Push(p, data);
      r := Done(gave);
    }

    // ---- whole runs ---------------------------------------------------------------------------

    /** Any one operation, as a step of a run. */
    method Serve(e: Event) returns (o: Outcome)
      requires Valid() && reserved == {}
      modifies this, Pool()
      ensures Valid() && reserved == {} && fresh(Pool() - old(Pool())) && Effect(old(W()), limit, e, o, W())
    {
      hide Inv, FileTables.Shaped, FileTables.Recs, FileTables.Pool;
      o := Quiet;
      SelfStreams(W());
      match e {
        case Acquire(t, fd) =>
          if (t, fd) in slots { SlotNamed(W(), (t, fd)); }
          var r := Acquire(t, fd);
        case ReadRound(d, len) => o := ServeRead(d, len);
        case WriteRound(d, data) => o := ServeWrite(d, data);
        case Release(d) => if d in descs && descs[d].refs > descs[d].count { Put(d); }
        case Dup(t, fd1, fd2) =>
          ghost var s := slots;
          var r := Dup(t, fd1, fd2);
          DupIs(s, limit, t, fd1, fd2, r, slots);
        case DupFrom(t, fd, least) =>
          ghost var s := slots;
          var r := DupFrom(t, fd, least);
          if r.Done? { FreeIs(s, t, least, limit, r.value); }
        case MakePipe(t, memory) =>
          ghost var s := slots;
          var r := MakePipe(t, memory);
          PipeSlots(s, limit, t, memory, r);
        case ForkTable(parent, child) =>
          if parent != child && NoTable(slots, child) { Fork(parent, child); }
        case CloseFd(t, fd) => var r := Close(t, fd);
        case CloseFrom(t, first) => CloseFrom(t, first);
      }
    }

    method ServeRead(d: nat, len: nat) returns (o: Outcome)
      requires Valid()
      modifies Pool()
      ensures Valid() && Effect(old(W()), limit, ReadRound(d, len), o, W())
    {
      hide Inv, FileTables.Shaped, FileTables.Recs, FileTables.Pool;
      o := Quiet;
      if d in descs {
        DescPipe(W(), d);
        if descs[d].refs > descs[d].count && len > 0 {
          var r := Read(d, len);
          if r.Done? { o := Out(descs[d].target.pipe, r.value); }
        }
      }
    }

    method ServeWrite(d: nat, data: seq<Byte>) returns (o: Outcome)
      requires Valid()
      modifies Pool()
      ensures Valid() && Effect(old(W()), limit, WriteRound(d, data), o, W())
    {
      hide Inv, FileTables.Shaped, FileTables.Recs, FileTables.Pool;
      o := Quiet;
      if d in descs {
        DescPipe(W(), d);
        if descs[d].refs > descs[d].count && data != [] {
          var r := Write(d, data);
          if r.Done? { o := In(descs[d].target.pipe, data, r.value); }
        }
      }
    }

    /** Every interleaving of reads, writes, duplications, forks and closes, with the worlds it goes
        through: the bytes that came out and the bytes in the ring are the bytes that went in, and the
        counts of both ends are the open descriptors. */
    method Drive(es: seq<Event>) returns (os: seq<Outcome>, ghost ws: seq<World>)
      requires Valid() && reserved == {}
      modifies this, Pool()
      ensures Valid() && Run(ws, limit, es, os) && ws[0] == old(W()) && ws[|es|] == W()
      ensures forall p {:trigger Recs()[p]} | p in Recs() ::
        var q := Recs()[p];
        && q.taken + q.buffer == q.written
        && q.written == Written(old(W()), p) + Accepted(os, p) && q.taken == TakenOut(old(W()), p) + Delivered(os, p)
        && q.readers == |Ends(W(), p, false)| && q.writers == |Ends(W(), p, true)|
    {
      hide Inv, Effect;
      os, ws := [], [W()];
      var i := 0;
      while i < |es|
        invariant 0 <= i <= |es| && Valid() && reserved == {} && fresh(Pool() - old(Pool()))
        invariant Run(ws, limit, es[..i], os) && ws[0] == old(W()) && ws[i] == W()
      {
        ghost var w := W();
        var o := Serve(es[i]);
        RunNext(ws, limit, es[..i], os, es[i], o, W());
        assert es[..i] + [es[i]] == es[..i + 1];
        os, ws := os + [o], ws + [W()];
        i := i + 1;
      }
      assert es[..i] == es;
      forall p | p in Recs()
        ensures var q := Recs()[p];
                && q.taken + q.buffer == q.written
                && q.written == Written(old(W()), p) + Accepted(os, p)
                    && q.taken == TakenOut(old(W()), p) + Delivered(os, p)
                && q.readers == |Ends(W(), p, false)| && q.writers == |Ends(W(), p, true)|
      { StreamLaw(ws, limit, es, os, p); }
    }
  }

  lemma RunNext(ws: seq<World>, limit: nat, es: seq<Event>, os: seq<Outcome>, e: Event, o: Outcome, w: World)
    requires Run(ws, limit, es, os) && Inv(w) && Effect(ws[|es|], limit, e, o, w)
    ensures Run(ws + [w], limit, es + [e], os + [o])
  {
    hide Inv, Effect;
    var ws', es', os' := ws + [w], es + [e], os + [o];
    forall i | 0 <= i < |ws'| ensures Inv(ws'[i]) { if i < |ws| { assert ws'[i] == ws[i]; } }
    forall i | 0 <= i < |es'| ensures Effect(ws'[i], limit, es'[i], os'[i], ws'[i + 1]) {
      if i < |es| { assert es'[i] == es[i] && Effect(ws[i], limit, es[i], os[i], ws[i + 1]); }
    }
  }

  // ---- facts about the tables ---------------------------------------------------------------------

  lemma SelfStreams(w: World)
    ensures SameStreams(w, w)
  { }

  lemma FreeIs(slots: map<Slot, nat>, t: nat, first: nat, limit: nat, fd: nat)
    requires fd < limit && Lowest(slots, {}, t, first, fd)
    ensures FreeFrom(slots, t, first, limit) == Some(fd)
  {
    assert !Taken(slots, {}, (t, fd));
    assert forall x | first <= x < fd :: Taken(slots, {}, (t, x));
  }

  lemma NoneFree(slots: map<Slot, nat>, t: nat, first: nat, limit: nat)
    requires AllTaken(slots, {}, t, first, limit)
    ensures FreeFrom(slots, t, first, limit).None?
  {
    assert forall x | first <= x < limit :: Taken(slots, {}, (t, x));
  }

  lemma DupIs(s: map<Slot, nat>, limit: nat, t: nat, fd1: nat, fd2: Option<nat>, r: Answer<nat>, s': map<Slot, nat>)
    requires forall k | k in s :: k.1 < limit
    requires r.Error? ==> s' == s
    requires r.Done? ==>
      && (t, fd1) in s && s' == s[(t, r.value) := s[(t, fd1)]]
      && if fd2.Some? then r.value == fd2.value else r.value < limit && Lowest(s, {}, t, 0, r.value)
    requires r.Error? <==>
      || (t, fd1) !in s || (fd2.None? && AllTaken(s, {}, t, 0, limit))
          || (fd2.Some? && fd2.value != fd1 && fd2.value >= limit)
    ensures s' == DupSlots(s, limit, t, fd1, fd2)
  {
    if r.Done? && fd2.None? { FreeIs(s, t, 0, limit, r.value); }
    if r.Error? && fd2.None? && (t, fd1) in s { NoneFree(s, t, 0, limit); }
  }

  // The two slots that a new pipe gets.
  lemma PipeSlots(s: map<Slot, nat>, limit: nat, t: nat, memory: bool, r: Answer<(nat, nat)>)
    requires r.Error? && memory ==>
      AllTaken(s, {}, t, 0, limit) ||
      exists x: nat :: Lowest(s, {}, t, 0, x) && AllTaken(s, {}, t, x + 1, limit)
    requires r.Done? ==>
      memory && r.value.0 < r.value.1 < limit && Lowest(s, {}, t, 0, r.value.0)
        && Lowest(s, {}, t, r.value.0 + 1, r.value.1)
    ensures var a := FreeFrom(s, t, 0, limit);
            var b := if a.Some? then FreeFrom(s, t, a.value + 1, limit) else None;
            if r.Done? then a == Some(r.value.0) && b == Some(r.value.1) else memory ==> b.None?
  {
    if r.Done? {
      FreeIs(s, t, 0, limit, r.value.0);
      FreeIs(s, t, r.value.0 + 1, limit, r.value.1);
    } else if memory {
      if AllTaken(s, {}, t, 0, limit) {
        NoneFree(s, t, 0, limit);
      } else {
        var x: nat :| Lowest(s, {}, t, 0, x) && AllTaken(s, {}, t, x + 1, limit);
        if x < limit { FreeIs(s, t, 0, limit, x); NoneFree(s, t, x + 1, limit); }
      }
    }
  }

  lemma DescPipe(w: World, d: nat)
    requires Inv(w) && d in w.descs
    ensures w.descs[d].target.PipeEnd? ==> w.descs[d].target.pipe in w.pipes && w.pipes[w.descs[d].target.pipe].refs > 0
  {
    assert DescOk(w, d);
    assert w.descs[d].target.PipeEnd? ==> PipeOk(w, w.descs[d].target.pipe);
  }

  lemma NextName(w: World)
    requires Inv(w)
    ensures w.next !in w.pipes
  { assert Named(w); }

  lemma PulledKeeps(w: World, p: nat, len: nat)
    requires Inv(w) && p in w.pipes
    ensures Inv(w.(pipes := w.pipes[p := Pulled(w.pipes[p], len)]))
  {
    assert PipeOk(w, p);
    RoundsStream(w.pipes[p], len, []);
    StreamKeeps(w, p, Pulled(w.pipes[p], len));
  }

  lemma PushedKeeps(w: World, p: nat, data: seq<Byte>)
    requires Inv(w) && p in w.pipes
    ensures Inv(w.(pipes := w.pipes[p := Pushed(w.pipes[p], data)]))
  {
    assert PipeOk(w, p);
    RoundsStream(w.pipes[p], 0, data);
    StreamKeeps(w, p, Pushed(w.pipes[p], data));
  }

  lemma SlotNamed(w: World, k: Slot)
    requires Inv(w) && k in w.slots
    ensures w.slots[k] in w.descs
  { }
}
