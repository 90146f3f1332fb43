/** The sending half of a TCP socket, from the established connection on: the queue of
    unacknowledged segments, the congestion window, and the FIN.  Sequence numbers are unbounded,
    as a run without wrap-around sees them. */
module Tcp {
  import opened Layout

  const MSS: nat := 1400
  const MAX_WINDOW: nat := 65535
  const INITIAL_CWND: nat := 2 * MSS
  const INITIAL_SSTHRESH: nat := 16 * MSS
  const RETRY_LIMIT: nat := 3

  datatype State = Established | CloseWait | FinWait1 | FinWait2 | Closing | LastAck | Closed

  datatype Segment = Segment(sequence: nat, data: seq<Byte>, retries: nat)

  datatype Outcome = Sent(count: nat) | Wait | Pipe | Invalid

  datatype FinResult = Started | Busy | BadProc | DeviceError

  // What a retransmission puts on the wire.
  datatype Resent = Nothing | Data(sequence: nat, data: seq<Byte>) | Fin(sequence: nat)

  // ---- the queue --------------------------------------------------------------------------------

  function End(g: Segment): nat { g.sequence + |g.data| }

  /** The segments follow one another from `from` to `to`, none of them empty. */
  predicate Contiguous(q: seq<Segment>, from: nat, to: nat) {
    if q == [] then from == to
    else q[0].sequence == from && q[0].data != [] && Contiguous(q[1..], End(q[0]), to)
  }

  function Bytes(q: seq<Segment>): seq<Byte> { if q == [] then [] else q[0].data + Bytes(q[1..]) }

  lemma {:induction false} AppendSegment(q: seq<Segment>, from: nat, to: nat, g: Segment)
    requires Contiguous(q, from, to) && g.sequence == to && g.data != []
    ensures Contiguous(q + [g], from, End(g)) && Bytes(q + [g]) == Bytes(q) + g.data
    decreases q
  {
    if q == [] {
      assert [g][1..] == [] && q + [g] == [g];
      assert g.data + [] == g.data && [] + g.data == g.data;
    } else {
      AppendSegment(q[1..], End(q[0]), to, g);
      assert (q + [g])[1..] == q[1..] + [g];
    }
  }

  lemma {:induction false} SpanLength(q: seq<Segment>, from: nat, to: nat)
    requires Contiguous(q, from, to)
    ensures |Bytes(q)| == to - from
    decreases q
  {
    if q != [] { SpanLength(q[1..], End(q[0]), to); }
  }

  // What a cumulative acknowledgement leaves in the queue.
  function Unacked(q: seq<Segment>, ack: nat): seq<Segment> {
    if q == [] || End(q[0]) > ack then q else Unacked(q[1..], ack)
  }

  function AckedBytes(q: seq<Segment>, ack: nat): nat {
    if q == [] || End(q[0]) > ack then 0 else |q[0].data| + AckedBytes(q[1..], ack)
  }

  /** Where the sender stands: what is queued lies between `una` and `nxt`, and a FIN comes after
      everything. */
  predicate Standing(q: seq<Segment>, una: nat, nxt: nat, fin: Option<nat>) {
    match fin
    case Some(f) => q == [] && nxt == f + 1 && f <= una <= nxt
    case None =>
      if q == [] then una == nxt
      else q[0].sequence <= una < End(q[0]) && Contiguous(q, q[0].sequence, nxt)
  }

  /** After an acknowledgement the queue is what was not acknowledged, and still stands. */
  lemma {:induction false} AckStands(q: seq<Segment>, from: nat, una: nat, nxt: nat, ack: nat)
    requires Contiguous(q, from, nxt) && from <= una < ack <= nxt
    requires q != [] ==> una < End(q[0])
    ensures Standing(Unacked(q, ack), ack, nxt, None)
    ensures exists k: nat :: k <= |q| && Unacked(q, ack) == q[k..]
    decreases q
  {
    if q == [] || End(q[0]) > ack {
      assert q == q[0..];
    } else if End(q[0]) == ack && q[1..] == [] {
      assert q[1..] == q[1..];
    } else if ack == End(q[0]) {
      assert Unacked(q[1..], ack) == q[1..];
    } else {
      AckStands(q[1..], End(q[0]), End(q[0]), nxt, ack);
      var k: nat :| k <= |q[1..]| && Unacked(q[1..], ack) == q[1..][k..];
      assert q[1..][k..] == q[k + 1..];
    }
  }

  // ---- windows ----------------------------------------------------------------------------------

  function WindowOf(wnd: nat, cwnd: nat): (r: nat)
    ensures r <= MAX_WINDOW && r <= wnd && (cwnd != 0 ==> r <= cwnd)
  {
    var w := if wnd > MAX_WINDOW then MAX_WINDOW else wnd;
    if cwnd != 0 && w > cwnd then cwnd else w
  }

  function Grown(cwnd: nat, ssthresh: nat): (r: nat)
    requires MSS <= cwnd <= MAX_WINDOW
    ensures cwnd <= r <= MAX_WINDOW && (cwnd < MAX_WINDOW ==> cwnd < r)
  {
    var step := MSS * MSS / cwnd;
    var increase := if cwnd < ssthresh then MSS else if step == 0 then 1 else step;
    if cwnd > MAX_WINDOW - increase then MAX_WINDOW else cwnd + increase
  }

  /** One growth step per MSS of acknowledged bytes, the last one for what remains. */
  function GrownBy(cwnd: nat, ssthresh: nat, acked: nat): (r: nat)
    requires MSS <= cwnd <= MAX_WINDOW
    ensures cwnd <= r <= MAX_WINDOW && (acked > 0 && cwnd < MAX_WINDOW ==> cwnd < r)
    decreases acked
  {
    if acked == 0 then cwnd
    else GrownBy(Grown(cwnd, ssthresh), ssthresh, if acked > MSS then acked - MSS else 0)
  }

  function Rearmed(q: seq<Segment>, retries: nat): seq<Segment> {
    if q == [] then [] else [q[0].(retries := retries)] + q[1..]
  }

  // The oldest segment of an established connection has waited long enough.
  predicate DataDue(closed: bool, st: State, q: seq<Segment>, due: bool) {
    !closed && st == Established && q != [] && due
  }

  function Least(a: nat, b: nat): nat { if a < b then a else b }

  function Halved(cwnd: nat): nat { if cwnd / 2 < 2 * MSS then 2 * MSS else cwnd / 2 }

  // ---- the sender -------------------------------------------------------------------------------

  predicate CanFin(st: State) { st == Established || st == CloseWait }

  predicate FinStates(st: State) { st == FinWait1 || st == FinWait2 || st == Closing || st == LastAck }

  predicate FinFits(st: State, fin: Option<nat>) {
    (fin.Some? ==> FinStates(st) || st == Closed) && (FinStates(st) ==> fin.Some?)
  }

  /** The queue stands, and holds the end of the byte stream. */
  ghost predicate Holds(q: seq<Segment>, una: nat, nxt: nat, fin: Option<nat>, base: nat, stream: seq<Byte>) {
    && Standing(q, una, nxt, fin) && base + |stream| == (if fin.Some? then fin.value else nxt) && base <= una
    && |Bytes(q)| <= |stream| && Bytes(q) == stream[|stream| - |Bytes(q)|..]
  }

  lemma HoldsMore(q: seq<Segment>, una: nat, nxt: nat, base: nat, stream: seq<Byte>, data: seq<Byte>)
    requires Holds(q, una, nxt, None, base, stream) && data != []
    ensures Holds(q + [Segment(nxt, data, 0)], una, nxt + |data|, None, base, stream + data)
  {
    var g := Segment(nxt, data, 0);
    AppendSegment(q, if q == [] then nxt else q[0].sequence, nxt, g);
    assert q != [] ==> (q + [g])[0] == q[0];
    var n := |stream| - |Bytes(q)|;
    assert (stream + data)[n..] == stream[n..] + data;
  }

  lemma HoldsFacts(q: seq<Segment>, una: nat, nxt: nat, fin: Option<nat>, base: nat, stream: seq<Byte>)
    requires Holds(q, una, nxt, fin, base, stream)
    ensures una <= nxt && (fin.Some? ==>
        q == [] && nxt == fin.value + 1 && fin.value <= una && fin.value == base + |stream|)
    ensures fin.None? && q == [] ==> una == nxt
  {
    if fin.None? && q != [] { SpanLength(q[1..], End(q[0]), nxt); }
  }

  // Everything is acknowledged exactly when nothing is queued, unless a FIN is out.
  lemma NoneLeft(q: seq<Segment>, una: nat, nxt: nat, fin: Option<nat>, base: nat, stream: seq<Byte>)
    requires Holds(q, una, nxt, fin, base, stream)
    ensures fin.None? ==> (q == [] <==> una == nxt)
  {
    if fin.None? && q != [] { SpanLength(q[1..], End(q[0]), nxt); }
  }

  lemma HoldsFin(una: nat, base: nat, stream: seq<Byte>)
    requires Holds([], una, una, None, base, stream)
    ensures Holds([], una, una + 1, Some(una), base, stream)
  { }

  lemma HoldsAcked(q: seq<Segment>, una: nat, nxt: nat, fin: Option<nat>, base: nat, stream: seq<Byte>, ack: nat)
    requires Holds(q, una, nxt, fin, base, stream) && una < ack <= nxt
    ensures Holds(Unacked(q, ack), ack, nxt, fin, base, stream)
  {
    if fin.None? { AckKeeps(q, una, nxt, ack, stream); }
  }

  lemma HoldsRearmed(q: seq<Segment>, una: nat, nxt: nat, fin: Option<nat>, base: nat, stream: seq<Byte>, retries: nat)
    requires Holds(q, una, nxt, fin, base, stream) && q != []
    ensures var q' := [q[0].(retries := retries)] + q[1..];
            Holds(q', una, nxt, fin, base, stream) && Bytes(q') == Bytes(q)
  {
    var q' := [q[0].(retries := retries)] + q[1..];
    assert q'[1..] == q[1..];
  }

  class TcpSender {
    var state: State
    var closed: bool
    var sndUna: nat
    var sndNxt: nat
    var sndWnd: nat
    var cwnd: nat
    var ssthresh: nat
    var maxseg: nat
    var queue: seq<Segment>
    var txCount: nat
    var dupAcks: nat
    var writeShutdown: bool
    var finSent: bool
    var finPending: bool
    var lastTxFin: bool
    var lastTxSeq: nat
    var retryCount: nat
    // The first data sequence number, every byte accepted so far, and the FIN's sequence number.
    ghost var base: nat
    ghost var stream: seq<Byte>
    ghost var fin: Option<nat>

    ghost predicate Valid()
      reads this
    {
      && Holds(queue, sndUna, sndNxt, fin, base, stream) && txCount == |queue| && MSS <= cwnd <= MAX_WINDOW
      && FinFits(state, fin) && (finSent ==> fin == Some(sndUna) && state != FinWait2)
      && (state == FinWait2 ==> sndUna == sndNxt)
      && (finPending ==> writeShutdown && fin.None?) && (lastTxFin ==> fin == Some(lastTxSeq))
    }

    // The connection right after the handshake.
    constructor (iss: nat, window: nat)
      ensures Valid() && state == Established && sndUna == sndNxt == base == iss && stream == [] && queue == []
      ensures !closed && !writeShutdown && fin == None && maxseg > 0 && WindowOf(sndWnd, cwnd) > 0
    {
      state, closed, sndUna, sndNxt, sndWnd := Established, false, iss, iss, if window == 0 then MSS else window;
      cwnd, ssthresh, maxseg, queue, txCount, dupAcks := INITIAL_CWND, INITIAL_SSTHRESH, MSS, [], 0, 0;
      writeShutdown, finSent, finPending, lastTxFin, lastTxSeq, retryCount := false, false, false, false, 0, 0;
      base, stream, fin := iss, [], None;
    }

    /** One round of net_socket_send: as much of the data as a segment and the window take. */
    method SendChunk(data: seq<Byte>) returns (r: Outcome)
      requires Valid() && data != []
      modifies this
      ensures Valid() && base == old(base) && fin == old(fin) && sndUna == old(sndUna) && state == old(state)
      ensures !r.Sent? ==> unchanged(this)
      ensures r.Sent? ==>
        && 0 < r.count <= |data| && r.count <= maxseg && old(fin) == None && !writeShutdown && CanFin(state)
        && queue == old(queue) + [Segment(old(sndNxt), data[..r.count], 0)]
        && sndNxt == old(sndNxt) + r.count && stream == old(stream) + data[..r.count]
        && sndNxt - sndUna <= WindowOf(sndWnd, cwnd)
      ensures var room := WindowOf(sndWnd, cwnd) - (old(sndNxt) - sndUna);
              && (r == Invalid <==> maxseg == 0)
              && (r == Pipe <==> maxseg != 0 && (closed || !CanFin(state) || writeShutdown))
              && (r == Wait <==> r != Invalid && r != Pipe && room <= 0)
              && (r.Sent? ==> r.count == Least(Least(|data|, maxseg), room))
    {
      hide Holds;
      HoldsFacts(queue, sndUna, sndNxt, fin, base, stream);
      if maxseg == 0 { return Invalid; }
      var chunk := if |data| > maxseg then maxseg else |data|;
      if closed || (state != Established && state != CloseWait) || writeShutdown { return Pipe; }
      if sndWnd == 0 { return Wait; }
      var inflight, available := sndNxt - sndUna, WindowOf(sndWnd, cwnd);
      if available <= inflight { return Wait; }
      if chunk > available - inflight { chunk := available - inflight; }
      HoldsMore(queue, sndUna, sndNxt, base, stream, data[..chunk]);
      queue := queue + [Segment(sndNxt, data[..chunk], 0)];
      sndNxt := sndNxt + chunk;
      txCount := txCount + 1;
      stream := stream + data[..chunk];
      r := Sent(chunk);
    }

    // net_tcp_ack_segments_locked
    method AckSegments(ack: nat) returns (acked: nat)
      requires txCount == |queue|
      modifies this`queue, this`txCount
      ensures queue == Unacked(old(queue), ack) && acked == AckedBytes(old(queue), ack) && txCount == |queue|
    {
      acked := 0;
      while queue != []
        invariant Unacked(old(queue), ack) == Unacked(queue, ack) && txCount == |queue|
        invariant AckedBytes(old(queue), ack) == acked + AckedBytes(queue, ack)
        decreases |queue|
      {
        if End(queue[0]) > ack { break; }
        acked := acked + |queue[0].data|;
        queue := queue[1..];
        if txCount != 0 { txCount := txCount - 1; }
      }
    }

    // One congestion step per MSS acknowledged.
    method Congestion(acknowledged: nat)
      requires MSS <= cwnd <= MAX_WINDOW
      modifies this`cwnd
      ensures cwnd == GrownBy(old(cwnd), ssthresh, acknowledged)
    {
      var left := acknowledged;
      while left != 0
        invariant MSS <= cwnd <= MAX_WINDOW && left >= 0
        invariant GrownBy(old(cwnd), ssthresh, acknowledged) == GrownBy(cwnd, ssthresh, left)
      {
        cwnd := Grown(cwnd, ssthresh);
        left := if left > MSS then left - MSS else 0;
      }
    }

    // An acknowledgement of new data or of the FIN.
    method NewAck(ack: nat)
      requires Valid() && sndUna < ack <= sndNxt && state != Closed
      modifies this`sndUna, this`dupAcks, this`queue, this`txCount, this`cwnd, this`finSent, this`state, this`lastTxFin
      ensures Valid() && sndUna == ack && queue == Unacked(old(queue), ack) && dupAcks == 0
      ensures cwnd == GrownBy(old(cwnd), ssthresh, AckedBytes(old(queue), ack))
      ensures state == (if !old(finSent) then old(state) else if old(state) == FinWait1 then FinWait2 else Closed)
    {
      hide Holds;
      HoldsFacts(queue, sndUna, sndNxt, fin, base, stream);
      HoldsAcked(queue, sndUna, sndNxt, fin, base, stream, ack);
      sndUna := ack;
      dupAcks := 0;
      var acked := AckSegments(ack);
      Congestion(acked);
      if finSent && ack >= sndNxt {
        finSent := false;
        if state == FinWait1 { state := FinWait2; } else if state == Closing || state == LastAck { state := Closed; }
        lastTxFin := false;
      }
    }

    // The third duplicate acknowledgement.
    method DuplicateAck()
      requires Valid()
      modifies this`dupAcks, this`ssthresh, this`cwnd, this`queue
      ensures Valid() && |queue| == |old(queue)| && Bytes(queue) == Bytes(old(queue))
      ensures if old(dupAcks) + 1 < 3
              then dupAcks == old(dupAcks) + 1 && ssthresh == old(ssthresh) && cwnd == old(cwnd) && queue == old(queue)
              else
                && dupAcks == 0 && ssthresh == Halved(old(cwnd)) && cwnd == ssthresh + 3 * MSS
                && queue == Rearmed(old(queue), 0)
    {
      hide Holds;
      dupAcks := dupAcks + 1;
      if dupAcks >= 3 {
        ssthresh := Halved(cwnd);
        cwnd := ssthresh + 3 * MSS;
        dupAcks := 0;
        if queue != [] { Rearm(0); }
      }
    }

    // The retry count of the oldest segment.
    method Rearm(retries: nat)
      requires Valid() && queue != []
      modifies this`queue
      ensures Valid() && Bytes(queue) == Bytes(old(queue)) && |queue| == |old(queue)|
      ensures queue == Rearmed(old(queue), retries)
    {
      hide Holds;
      HoldsRearmed(queue, sndUna, sndNxt, fin, base, stream, retries);
      queue := [queue[0].(retries := retries)] + queue[1..];
    }

    /** The ACK part of a received segment; `start` says that a waiting FIN can go now. */
    method ReceiveAck(ack: nat, window: nat) returns (start: bool)
      requires Valid() && !closed && state != Closed
      modifies this`sndUna, this`dupAcks, this`queue, this`txCount, this`cwnd, this`finSent, this`state, this`lastTxFin,
               this`sndWnd, this`ssthresh, this`finPending
      ensures Valid() && sndWnd == if window == 0 then MSS else window
      ensures sndUna == (if old(sndUna) < ack <= sndNxt then ack else old(sndUna))
      ensures if sndUna != old(sndUna) then queue == Unacked(old(queue), ack) else Bytes(queue) == Bytes(old(queue))
      ensures state == (if sndUna != old(sndUna)
          && old(finSent) then (if old(state) == FinWait1 then FinWait2 else Closed) else old(state))
      ensures cwnd < old(cwnd) ==> ack == old(sndUna) && old(dupAcks) >= 2 && cwnd == Halved(old(cwnd)) + 3 * MSS
      ensures start <==> old(finPending) && old(sndUna) < ack == sndNxt
      ensures finPending <==> old(finPending) && !start
      ensures start ==> CanFin(state) && queue == [] && sndUna == sndNxt
    {
      hide Holds;
      HoldsFacts(queue, sndUna, sndNxt, fin, base, stream);
      start := false;
      sndWnd := if window == 0 then MSS else window;
      if sndUna < ack <= sndNxt {
        NewAck(ack);
        HoldsFacts(queue, sndUna, sndNxt, fin, base, stream);
        NoneLeft(queue, sndUna, sndNxt, fin, base, stream);
        if finPending && txCount == 0 && sndNxt == sndUna {
          finPending := false;
          start := true;
        }
      } else if ack == sndUna && txCount != 0 {
        DuplicateAck();
      }
    }

    /** A received segment: its ACK, then its FIN, then a FIN of our own that waited for the ACK.  That
        FIN goes exactly when the segment acknowledges everything, and the state it leads to depends on
        whether the peer has sent a FIN, with this segment or before. */
    method ReceiveSegment(ack: Option<(nat, nat)>, peerFin: bool, finGoes: bool)
      requires Valid()
      modifies this
      ensures Valid() && base == old(base) && stream == old(stream) && closed == old(closed)
      ensures closed || old(state) == Closed ==> unchanged(this)
      ensures old(sndUna) <= sndUna && (old(fin).Some? ==> fin == old(fin) && sndNxt == old(sndNxt))
      ensures fin != old(fin) <==>
        !closed && old(state) != Closed && old(finPending) && finGoes && ack.Some?
          && old(sndUna) < ack.value.0 == old(sndNxt)
      ensures ack.None? ==> queue == old(queue) && sndUna == old(sndUna) && sndNxt == old(sndNxt)
      ensures fin == None && !closed && old(state) != Closed ==> state == if peerFin then CloseWait else old(state)
      ensures fin != old(fin) ==>
        fin == Some(old(sndNxt)) && state == if peerFin || old(state) == CloseWait then LastAck else FinWait1
    {
      hide Holds;
      HoldsFacts(queue, sndUna, sndNxt, fin, base, stream);
      if closed || state == Closed { return; }
      var start := false;
      if ack.Some? { start := ReceiveAck(ack.value.0, ack.value.1); }
      if peerFin { ReceiveFin(); }
      if start { var started := StartFin(finGoes); }
    }

    /** net_tcp_start_fin: a FIN takes one sequence number, once all data is acknowledged; when the
        device refuses it everything is as before. */
    method StartFin(goes: bool) returns (r: FinResult)
      requires Valid()
      modifies this`finPending, this`lastTxFin, this`lastTxSeq, this`retryCount, this`fin, this`sndNxt, this`finSent,
        this`state
      ensures Valid()
      ensures fin != old(fin) ==>
        && r == Started && goes && old(fin) == None && fin == Some(old(sndNxt)) && sndNxt == old(sndNxt) + 1
        && queue == [] && sndUna == old(sndNxt)
        && state == (if old(state) == Established then FinWait1 else LastAck)
      ensures fin == old(fin) ==> sndNxt == old(sndNxt) && state == old(state) && finSent == old(finSent)
      ensures fin != old(fin) <==> goes && !closed && CanFin(old(state)) && txCount == 0 && sndUna == old(sndNxt)
      ensures r == Busy <==> !closed && CanFin(old(state)) && (txCount != 0 || sndUna != old(sndNxt))
      ensures r == Busy ==> unchanged(this) && !finSent
    {
      hide Holds;
      HoldsFacts(queue, sndUna, sndNxt, fin, base, stream);
      if closed { return BadProc; }
      if finSent || state == FinWait2 || state == Closing || state == LastAck { return Started; }
      if state != Established && state != CloseWait { return BadProc; }
      if txCount != 0 || sndNxt != sndUna { return Busy; }
      if !goes {
        finPending, lastTxFin := false, false;
        return DeviceError;
      }
      HoldsFin(sndUna, base, stream);
      lastTxFin, lastTxSeq, retryCount := true, sndNxt, 0;
      fin := Some(sndNxt);
      sndNxt := sndNxt + 1;
      finSent, finPending := true, false;
      state := if state == Established then FinWait1 else LastAck;
      r := Started;
    }

    /** net_socket_shutdown for writing: no more data, and a FIN now or once everything is acknowledged.
        The last descriptor polls instead of leaving the FIN to later. */
    method Shutdown(goes: bool, last: bool) returns (r: FinResult)
      requires Valid()
      modifies this`writeShutdown, this`finPending, this`lastTxFin, this`lastTxSeq, this`retryCount, this`fin,
        this`sndNxt,
               this`finSent, this`state
      ensures Valid() && (closed ==> unchanged(this) && r == BadProc) && (!closed ==> writeShutdown)
      ensures fin == old(fin) ==> sndNxt == old(sndNxt) && state == old(state)
      ensures fin != old(fin) ==> old(fin) == None && fin == Some(old(sndNxt)) && queue == [] && sndUna == old(sndNxt)
      ensures fin != old(fin) <==> goes && !closed && CanFin(old(state)) && txCount == 0 && sndUna == old(sndNxt)
      ensures r == Busy <==> !closed && CanFin(old(state)) && (txCount != 0 || sndUna != old(sndNxt))
      ensures r == Busy && !last ==> finPending
    {
      hide Holds;
      if closed { return BadProc; }
      writeShutdown := true;
      r := StartFin(goes);
      if r == Busy && !last && !finSent { finPending := true; }
    }

    /** net_socket_close_descriptor for the last descriptor. */
    method Close()
      requires Valid()
      modifies this`closed
      ensures Valid() && closed
    { closed := true; }

    /** net_tcp_retransmit for this socket: the oldest segment, or the FIN, is sent again unchanged. */
    method Retransmit(due: bool, memory: bool, finDue: bool) returns (r: Resent)
      requires Valid()
      modifies this`queue, this`cwnd, this`ssthresh, this`state, this`finSent, this`lastTxFin, this`retryCount
      ensures Valid() && Bytes(queue) == Bytes(old(queue)) && |queue| == |old(queue)|
      ensures r.Data? ==>
        && r.sequence <= sndUna < r.sequence + |r.data| && base <= r.sequence
            && r.sequence + |r.data| <= base + |stream|
        && r.data == stream[r.sequence - base..r.sequence - base + |r.data|]
      ensures r.Fin? ==> fin == Some(r.sequence) && retryCount == old(retryCount) + 1 <= RETRY_LIMIT
      ensures r.Data? <==> DataDue(closed, old(state), old(queue), due) && memory && old(queue)[0].retries < RETRY_LIMIT
      ensures r.Data? ==> queue == Rearmed(old(queue), old(queue)[0].retries + 1) && cwnd == old(cwnd)
      ensures DataDue(closed, old(state), old(queue), due) && old(queue)[0].retries >= RETRY_LIMIT ==>
        queue == Rearmed(old(queue), 0) && cwnd == MSS && ssthresh == Halved(old(cwnd))
      ensures state != old(state) ==>
          state == Closed && FinStates(old(state)) && old(retryCount) >= RETRY_LIMIT && finDue
    {
      hide Holds;
      r := Nothing;
      if DataDue(closed, state, queue, due) { r := ResendData(memory); }
      if r == Nothing && !closed && lastTxFin && (state == FinWait1 || state == Closing || state == LastAck) && finDue {
        if retryCount >= RETRY_LIMIT {
          state, finSent, lastTxFin := Closed, false, false;
        } else {
          r := Fin(lastTxSeq);
          retryCount := retryCount + 1;
        }
      }
    }

    // The oldest segment, or the end of its retries.
    method ResendData(memory: bool) returns (r: Resent)
      requires Valid() && state == Established && queue != []
      modifies this`queue, this`cwnd, this`ssthresh
      ensures Valid() && Bytes(queue) == Bytes(old(queue)) && |queue| == |old(queue)|
      ensures r == if old(queue)[0].retries < RETRY_LIMIT
          && memory then Data(old(queue)[0].sequence, old(queue)[0].data) else Nothing
      ensures r.Data? ==>
        && r.sequence <= sndUna < r.sequence + |r.data| && base <= r.sequence
            && r.sequence + |r.data| <= base + |stream|
        && r.data == stream[r.sequence - base..r.sequence - base + |r.data|]
      ensures r.Data? ==> queue == Rearmed(old(queue), old(queue)[0].retries + 1) && cwnd == old(cwnd)
      ensures old(queue)[0].retries >= RETRY_LIMIT ==>
        queue == Rearmed(old(queue), 0) && cwnd == MSS && ssthresh == Halved(old(cwnd))
    {
      hide Holds;
      r := Nothing;
      if queue[0].retries >= RETRY_LIMIT {
        ssthresh := Halved(cwnd);
        cwnd := MSS;
        Rearm(0);
      } else if memory {
        OldestBytes(queue, sndUna, sndNxt, base, stream);
        r := Data(queue[0].sequence, queue[0].data);
        Rearm(queue[0].retries + 1);
      }
    }

    // A reset.
    method ReceiveReset()
      requires Valid()
      modifies this`state, this`finSent
      ensures Valid() && state == Closed
    {
      state, finSent := Closed, false;
    }

    /** The peer's FIN, in order. */
    method ReceiveFin()
      requires Valid()
      modifies this`state
      ensures Valid() && (state == Closed <==> old(state) == FinWait2 || old(state) == Closed)
      ensures state != Closed ==> state == if fin.None? then CloseWait else Closing
    {
      if state == FinWait2 { state := Closed; }
      else if state == FinWait1 || state == Closing || state == LastAck { state := Closing; }
      else if state != Closed { state := CloseWait; }
    }

    /** Any event of the connection. */
    method Serve(e: Event)
      requires Valid()
      modifies this
      ensures Valid() && Later(base, old(base), stream, old(stream), sndUna, old(sndUna), fin, old(fin))
      ensures old(fin).Some? ==> sndNxt == old(sndNxt)
    {
      hide Holds;
      match e {
        case Write(data) => if data != [] { var sent := SendChunk(data); }
        case Received(ack, peerFin, finGoes) => ReceiveSegment(ack, peerFin, finGoes);
        case ShutdownWrite(finGoes, last) => var r := Shutdown(finGoes, last);
        case CloseLast => Close();
        case Reset => if !closed { ReceiveReset(); }
        case Timer(due, memory, finDue) => var r := Retransmit(due, memory, finDue);
      }
      HoldsFacts(queue, sndUna, sndNxt, fin, base, stream);
    }

    /** Every run of sends, acknowledgements, retransmissions, shutdowns and FINs. */
    method Drive(events: seq<Event>)
      requires Valid()
      modifies this
      ensures Valid() && Later(base, old(base), stream, old(stream), sndUna, old(sndUna), fin, old(fin))
    {
      var k := 0;
      while k < |events|
        invariant 0 <= k <= |events| && Valid()
        invariant Later(base, old(base), stream, old(stream), sndUna, old(sndUna), fin, old(fin))
      {
        Serve(events[k]);
        k := k + 1;
      }
    }
  }

  datatype Event =
    | Write(data: seq<Byte>)
    | Received(ack: Option<(nat, nat)>, peerFin: bool, finGoes: bool)
    | ShutdownWrite(finGoes: bool, last: bool)
    | CloseLast
    | Reset
    | Timer(due: bool, memory: bool, finDue: bool)

  /** What any run does: the stream only grows, acknowledgements only advance, a FIN is placed once,
      right after the last byte and after every byte is acknowledged, and no byte follows it. */
  predicate Later(base: nat, base0: nat, stream: seq<Byte>, stream0: seq<Byte>, una: nat, una0: nat,
      fin: Option<nat>, fin0: Option<nat>) {
    && base == base0 && stream0 <= stream && una0 <= una
    && (fin0.Some? ==> fin == fin0 && stream == stream0)
    && (fin.Some? && fin0.None? ==> fin.value == base + |stream| && una >= fin.value)
  }

  lemma AckKeeps(q: seq<Segment>, una: nat, nxt: nat, ack: nat, stream: seq<Byte>)
    requires Standing(q, una, nxt, None) && una < ack <= nxt
    requires |Bytes(q)| <= |stream| && Bytes(q) == stream[|stream| - |Bytes(q)|..]
    ensures var u := Unacked(q, ack);
            Standing(u, ack, nxt, None) && |Bytes(u)| <= |stream| && Bytes(u) == stream[|stream| - |Bytes(u)|..]
  {
    AckStands(q, q[0].sequence, una, nxt, ack);
    UnackedBytes(q, ack);
    var n, m := |Bytes(q)|, |Bytes(Unacked(q, ack))|;
    assert Bytes(Unacked(q, ack)) == Bytes(q)[n - m..] == stream[|stream| - n..][n - m..] == stream[|stream| - m..];
  }

  lemma {:induction false} UnackedBytes(q: seq<Segment>, ack: nat)
    ensures var u := Unacked(q, ack); |Bytes(u)| <= |Bytes(q)| && Bytes(u) == Bytes(q)[|Bytes(q)| - |Bytes(u)|..]
  {
    if q == [] || End(q[0]) > ack {
    } else {
      UnackedBytes(q[1..], ack);
      var b, r := Bytes(Unacked(q[1..], ack)), Bytes(q[1..]);
      assert (q[0].data + r)[|q[0].data| + |r| - |b|..] == r[|r| - |b|..];
    }
  }

  // The oldest segment carries the stream's bytes at its sequence number.
  lemma OldestBytes(q: seq<Segment>, una: nat, nxt: nat, base: nat, stream: seq<Byte>)
    requires q != [] && Holds(q, una, nxt, None, base, stream)
    ensures var g := q[0];
            && g.sequence <= una < End(g) && base <= g.sequence && End(g) <= base + |stream|
            && g.data == stream[g.sequence - base..End(g) - base]
  {
    SpanLength(q, q[0].sequence, nxt);
    var at := |stream| - |Bytes(q)|;
    assert q[0].data == Bytes(q)[..|q[0].data|] == stream[at..][..|q[0].data|] == stream[at..at + |q[0].data|];
  }

  /** Data that is still queued when the peer's FIN arrives is not sent again in CLOSE_WAIT, however
      often the timer runs out. */
  method CloseWaitNeverResends(iss: nat, window: nat, data: seq<Byte>, timers: seq<bool>)
      returns (s: TcpSender, sent: seq<Resent>)
    requires data != []
    ensures s.Valid() && s.state == CloseWait && s.queue != [] && s.sndUna < s.sndNxt
    ensures |sent| == |timers| && forall i | 0 <= i < |sent| :: sent[i] == Nothing
  {
    hide Holds;
    s := new TcpSender(iss, window);
    var out := s.SendChunk(data);
    s.ReceiveSegment(None, true, true);
    sent := [];
    var i := 0;
    while i < |timers|
      invariant 0 <= i <= |timers| && fresh(s) && s.Valid() && s.state == CloseWait && s.queue != [] && s.fin == None
          && s.sndUna < s.sndNxt
      invariant |sent| == i && forall j | 0 <= j < i :: sent[j] == Nothing
    {
      var r := s.Retransmit(true, true, timers[i]);
      sent := sent + [r];
      i := i + 1;
    }
  }
}
