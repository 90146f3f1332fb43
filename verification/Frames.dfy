/** Ethernet frames that carry UDP and TCP: building, parsing, and the round trip. */
module Frames {
  import opened Layout
  import opened Checksum

  const ETH_LEN: nat := 14
  const IP_LEN: nat := 20
  const UDP_LEN: nat := 8
  const TCP_LEN: nat := 20
  const IPV4: nat := 0x0800
  const UDP: Byte := 17
  const TCP: Byte := 6
  const DEFAULT_TTL: Byte := 64

  // Addresses and ports are kept as the bytes that go on the wire.
  type Mac = m: seq<Byte> | |m| == 6 witness [0, 0, 0, 0, 0, 0]
  type Ip = a: seq<Byte> | |a| == 4 witness [0, 0, 0, 0]
  const ANY: Ip := [0, 0, 0, 0]

  type Word = w: nat | w < 65536
  type Long = w: nat | w < 0x1_0000_0000

  function Be16(w: Word): (r: seq<Byte>)
    ensures |r| == 2
  { [w / 256, w % 256] }

  function U16(s: seq<Byte>, i: nat): Word
    requires i + 1 < |s|
  { 256 * (s[i] as nat) + s[i + 1] }

  function Be32(w: Long): (r: seq<Byte>)
    ensures |r| == 4
  { Be16(w / 65536) + Be16(w % 65536) }

  function U32(s: seq<Byte>, i: nat): Long
    requires i + 3 < |s|
  { 65536 * (U16(s, i) as nat) + U16(s, i + 2) }

  lemma Be16Back(s: seq<Byte>, i: nat, w: Word)
    requires i + 1 < |s| && s[i..i + 2] == Be16(w)
    ensures U16(s, i) == w
  { assert s[i] == s[i..i + 2][0] && s[i + 1] == s[i..i + 2][1]; }

  lemma Be32Back(s: seq<Byte>, i: nat, w: Long)
    requires i + 3 < |s| && s[i..i + 4] == Be32(w)
    ensures U32(s, i) == w
  {
    assert s[i..i + 2] == s[i..i + 4][..2] == Be16(w / 65536);
    assert s[i + 2..i + 4] == s[i..i + 4][2..] == Be16(w % 65536);
    Be16Back(s, i, w / 65536);
    Be16Back(s, i + 2, w % 65536);
  }

  // ---- headers ----------------------------------------------------------------------------------

  function EthHeader(source: Mac, destination: Mac): (r: seq<Byte>)
    ensures |r| == ETH_LEN
  { destination + source + Be16(IPV4) }

  // The IP header with a given checksum field.
  function IpWith(total: Word, id: Word, ttl: Byte, protocol: Byte, source: Ip, destination: Ip,
      checksum: Word): (r: seq<Byte>)
    ensures |r| == IP_LEN
  {
    [0x45, 0] + Be16(total) + Be16(id) + [0, 0, if ttl == 0 then DEFAULT_TTL
      else ttl, protocol] + Be16(checksum) + source + destination
  }

  function IpHeader(total: Word, id: Word, ttl: Byte, protocol: Byte, source: Ip, destination: Ip): (r: seq<Byte>)
    ensures |r| == IP_LEN
  {
    IpWith(total, id, ttl, protocol, source, destination,
      Complement(WordSum(IpWith(total, id, ttl, protocol, source, destination, 0))))
  }

  function Pseudo(source: Ip, destination: Ip, protocol: Byte, length: Word): seq<Byte> {
    source + destination + [0, protocol] + Be16(length)
  }

  // The checksum over pseudo header, header and payload, sent as 0xFFFF when it is zero.
  function Transport(source: Ip, destination: Ip, protocol: Byte, header: seq<Byte>, payload: seq<Byte>): Word
    requires |header| + |payload| < 65536
  {
    var c := Complement(WordSum(Pseudo(source, destination, protocol,
      |header| + |payload|)) + WordSum(header) + WordSum(payload));
    if c == 0 then 0xFFFF else c
  }

  /** net_udp_checksum and net_tcp_checksum: three passes over one accumulator, then the fold. */
  method ComputeTransport(source: Ip, destination: Ip, protocol: Byte, header: seq<Byte>, payload: seq<Byte>)
      returns (r: Word)
    requires |header| <= 60 && |header| + |payload| < 65536
    ensures r == Transport(source, destination, protocol, header, payload)
  {
    var sum := Accumulate(Pseudo(source, destination, protocol, |header| + |payload|), 0);
    SumBound(Pseudo(source, destination, protocol, |header| + |payload|));
    SumBound(header);
    sum := Accumulate(header, sum);
    sum := Accumulate(payload, sum);
    sum := Fold(sum);
    r := if 65535 - sum == 0 then 0xFFFF else 65535 - sum;
  }

  function UdpWith(sport: Word, dport: Word, length: Word, checksum: Word): (r: seq<Byte>)
    ensures |r| == UDP_LEN
  { Be16(sport) + Be16(dport) + Be16(length) + Be16(checksum) }

  function TcpWith(sport: Word, dport: Word, sequence: Long, ack: Long, flags: Byte, window: Word,
      checksum: Word): (r: seq<Byte>)
    ensures |r| == TCP_LEN
  {
    Be16(sport) + Be16(dport) + Be32(sequence) + Be32(ack) + [0x50, flags] + Be16(window) + Be16(checksum) + [0, 0]
  }

  // ---- building -----------------------------------------------------------------------------------

  datatype Udp = Udp(sip: Ip, dip: Ip, sport: Word, dport: Word, payload: seq<Byte>)

  datatype Tcp = Tcp(sip: Ip, dip: Ip, sport: Word, dport: Word, sequence: Long, ack: Long, flags: Byte,
    window: Word, payload: seq<Byte>)

  datatype Parsed<T> = Good(value: T) | Invalid | NotForUs

  /** net_build_udp_frame; ports and window are in network order. */
  function BuildUdp(capacity: nat, smac: Mac, dmac: Mac, u: Udp, id: Word, ttl: Byte): Option<seq<Byte>> {
    var n := |u.payload|;
    if n == 0 || n > 0xFFFF - UDP_LEN || IP_LEN + UDP_LEN + n > 0xFFFF
      || ETH_LEN + IP_LEN + UDP_LEN + n > capacity then None
    else
      var checksum := Transport(u.sip, u.dip, UDP, UdpWith(u.sport, u.dport, UDP_LEN + n, 0), u.payload);
      Some(EthHeader(smac, dmac) + IpHeader(IP_LEN + UDP_LEN + n, id, ttl, UDP, u.sip, u.dip)
           + UdpWith(u.sport, u.dport, UDP_LEN + n, checksum) + u.payload)
  }

  /** net_build_tcp_frame */
  function BuildTcp(capacity: nat, smac: Mac, dmac: Mac, t: Tcp, id: Word, ttl: Byte): Option<seq<Byte>> {
    var n := |t.payload|;
    if n > 0xFFFF - TCP_LEN || IP_LEN + TCP_LEN + n > 0xFFFF || ETH_LEN + IP_LEN + TCP_LEN + n > capacity then None
    else
      var checksum := Transport(t.sip, t.dip, TCP,
        TcpWith(t.sport, t.dport, t.sequence, t.ack, t.flags, t.window, 0), t.payload);
      Some(EthHeader(smac, dmac) + IpHeader(IP_LEN + TCP_LEN + n, id, ttl, TCP, t.sip, t.dip)
           + TcpWith(t.sport, t.dport, t.sequence, t.ack, t.flags, t.window, checksum) + t.payload)
  }

  // ---- parsing ------------------------------------------------------------------------------------

  // The checks both parsers make before they look past the IP header: the IP header's length.
  function CheckIp(frame: seq<Byte>, local: Ip, protocol: Byte, minimum: nat): Parsed<nat>
    ensures var r := CheckIp(frame, local, protocol, minimum);
            r.Good? ==> 20 <= r.value <= 60 && ETH_LEN + r.value + minimum <= |frame|
                        && r.value + minimum <= U16(frame, 16) <= |frame| - ETH_LEN
  {
    if |frame| < ETH_LEN + IP_LEN + minimum || U16(frame, 12) != IPV4 then Invalid
    else if frame[14] / 16 != 4 || frame[14] % 16 < 5 || frame[23] != protocol then Invalid
    else
      var ihl: nat := (frame[14] % 16) as nat * 4;
      if |frame| < ETH_LEN + ihl || Complement(WordSum(frame[14..14 + ihl])) != 0 then Invalid
      else if U16(frame, 16) < ihl + minimum || U16(frame, 16) > |frame| - ETH_LEN
        || (local != ANY && frame[30..34] != local) then NotForUs
      else Good(ihl)
  }

  /** net_parse_udp_frame */
  function ParseUdp(frame: seq<Byte>, local: Ip): Parsed<Udp> {
    match CheckIp(frame, local, UDP, UDP_LEN)
    case Invalid => Invalid
    case NotForUs => NotForUs
    case Good(ihl) =>
      var at, total := ETH_LEN + ihl, U16(frame, 16);
      var length := U16(frame, at + 4);
      if length < UDP_LEN || length > total - ihl then Invalid
      else
        var sport, dport, received := U16(frame, at), U16(frame, at + 2), U16(frame, at + 6);
        var sip, dip, payload := frame[26..30], frame[30..34], frame[at + UDP_LEN..at + length];
        if received != 0 && received != Transport(sip, dip, UDP, UdpWith(sport, dport, length, 0), payload) then Invalid
        else Good(Udp(sip, dip, sport, dport, payload))
  }

  /** net_parse_tcp_frame */
  function ParseTcp(frame: seq<Byte>, local: Ip): Parsed<Tcp> {
    match CheckIp(frame, local, TCP, TCP_LEN)
    case Invalid => Invalid
    case NotForUs => NotForUs
    case Good(ihl) =>
      var at, total := ETH_LEN + ihl, U16(frame, 16);
      var header: nat := (frame[at + 12] / 16) as nat * 4;
      if header < TCP_LEN || header > total - ihl then Invalid
      else
        var sip, dip, payload := frame[26..30], frame[30..34], frame[at + header..ETH_LEN + total];
        var bytes := frame[at..at + 16] + [0, 0] + frame[at + 18..at + header];
        if U16(frame, at + 16) != Transport(sip, dip, TCP, bytes, payload) then Invalid
        else
          Good(Tcp(sip, dip, U16(frame, at), U16(frame, at + 2), U32(frame, at + 4), U32(frame, at + 8),
            frame[at + 13], U16(frame, at + 14), payload))
  }

  // ---- round trips --------------------------------------------------------------------------------

  // Where the parts of a frame lie.
  lemma Layers(e: seq<Byte>, i: seq<Byte>, h: seq<Byte>, p: seq<Byte>, pad: seq<Byte>)
    requires |e| == ETH_LEN && |i| == IP_LEN
    ensures var f := e + i + h + p + pad;
            && f[..14] == e && f[14..34] == i && f[34..34 + |h|] == h && f[34 + |h|..34 + |h| + |p|] == p
            && |f| == 34 + |h| + |p| + |pad|
  { }

  lemma Within(f: seq<Byte>, at: nat, part: seq<Byte>, i: nat, j: nat)
    requires at + |part| <= |f| && f[at..at + |part|] == part && i <= j <= |part|
    ensures f[at + i..at + j] == part[i..j] && (i < |part| ==> f[at + i] == part[i])
  {
    var g := f[at..at + |part|];
    assert forall k | 0 <= k < |part| :: g[k] == f[at + k];
    assert forall k | 0 <= k < j - i :: f[at + i..at + j][k] == g[i..j][k];
    assert f[at + i..at + j] == g[i..j];
    if i < |part| { assert f[at + i] == f[at..at + |part|][i]; }
  }

  lemma EthType(source: Mac, destination: Mac)
    ensures EthHeader(source, destination)[12..14] == Be16(IPV4)
  { }

  lemma IpFields(total: Word, id: Word, ttl: Byte, protocol: Byte, source: Ip, destination: Ip, checksum: Word)
    ensures var h := IpWith(total, id, ttl, protocol, source, destination, checksum);
            && h[0] == 0x45 && h[9] == protocol && h[2..4] == Be16(total) && h[12..16] == source
                && h[16..20] == destination
  { }

  // The sum of an IP header, by its checksum field.
  lemma IpSum(total: Word, id: Word, ttl: Byte, protocol: Byte, source: Ip, destination: Ip, checksum: Word)
    ensures WordSum(IpWith(total, id, ttl, protocol, source, destination, checksum)) ==
            WordSum(IpWith(total, id, ttl, protocol, source, destination, 0)) + checksum
    ensures WordSum(IpWith(total, id, ttl, protocol, source, destination, 0)) > 0
  {
    var a := [0x45, 0] + Be16(total) + Be16(id) + [0, 0, if ttl == 0 then DEFAULT_TTL else ttl, protocol];
    var b := source + destination;
    assert forall c: Word :: IpWith(total, id, ttl, protocol, source, destination, c) == a + (Be16(c) + b);
    assert forall c: Word :: WordSum(Be16(c)) == c;
    assert |a| == 10;
    SumConcat(a, Be16(checksum) + b);
    SumConcat(Be16(checksum), b);
    SumConcat(a, Be16(0) + b);
    SumConcat(Be16(0), b);
    assert a[0] == 0x45;
  }

  /** A built IP header checks out. */
  lemma IpChecks(total: Word, id: Word, ttl: Byte, protocol: Byte, source: Ip, destination: Ip)
    ensures Complement(WordSum(IpHeader(total, id, ttl, protocol, source, destination))) == 0
  {
    var sum := WordSum(IpWith(total, id, ttl, protocol, source, destination, 0));
    IpSum(total, id, ttl, protocol, source, destination, Complement(sum));
    hide IpWith, WordSum;
    SelfCheck(sum);
  }

  /** A built frame passes the parsers' common checks, whatever padding follows it. */
  lemma PassesIp(e: seq<Byte>, total: Word, id: Word, ttl: Byte, protocol: Byte, source: Ip, destination: Ip,
      h: seq<Byte>, p: seq<Byte>, pad: seq<Byte>, local: Ip)
    requires |e| == ETH_LEN && e[12..14] == Be16(IPV4) && total == IP_LEN + |h| + |p|
        && (local == ANY || local == destination)
    ensures var f := e + IpHeader(total, id, ttl, protocol, source, destination) + h + p + pad;
            && CheckIp(f, local, protocol, |h|) == Good(IP_LEN) && U16(f, 16) == total
            && f[26..30] == source && f[30..34] == destination
  {
    var i := IpHeader(total, id, ttl, protocol, source, destination);
    var f := e + i + h + p + pad;
    IpFields(total, id, ttl, protocol, source, destination,
      Complement(WordSum(IpWith(total, id, ttl, protocol, source, destination, 0))));
    IpChecks(total, id, ttl, protocol, source, destination);
    hide IpHeader, WordSum, Complement, Be16;
    Layers(e, i, h, p, pad);
    Within(f, 0, e, 12, 14);
    Be16Back(f, 12, IPV4);
    Within(f, 14, i, 0, 0);
    Within(f, 14, i, 9, 9);
    Within(f, 14, i, 2, 4);
    Within(f, 14, i, 12, 16);
    Within(f, 14, i, 16, 20);
    Be16Back(f, 16, total);
  }

  lemma UdpFields(f: seq<Byte>, at: nat, sport: Word, dport: Word, length: Word, checksum: Word)
    requires at + UDP_LEN <= |f| && f[at..at + UDP_LEN] == UdpWith(sport, dport, length, checksum)
    ensures U16(f, at) == sport && U16(f, at + 2) == dport && U16(f, at + 4) == length && U16(f, at + 6) == checksum
  {
    var h := UdpWith(sport, dport, length, checksum);
    assert h[0..2] == Be16(sport) && h[2..4] == Be16(dport) && h[4..6] == Be16(length) && h[6..8] == Be16(checksum);
    hide UdpWith, Be16, U16;
    Within(f, at, h, 0, 2);
    Within(f, at, h, 2, 4);
    Within(f, at, h, 4, 6);
    Within(f, at, h, 6, 8);
    Be16Back(f, at, sport);
    Be16Back(f, at + 2, dport);
    Be16Back(f, at + 4, length);
    Be16Back(f, at + 6, checksum);
  }

  /** Parsing a built UDP frame gives back every field and the payload, with any padding after it. */
  lemma UdpRoundTrip(capacity: nat, smac: Mac, dmac: Mac, u: Udp, id: Word, ttl: Byte, pad: seq<Byte>, local: Ip)
    requires BuildUdp(capacity, smac, dmac, u, id, ttl).Some? && (local == ANY || local == u.dip)
    ensures ParseUdp(BuildUdp(capacity, smac, dmac, u, id, ttl).value + pad, local) == Good(u)
  {
    var n := |u.payload|;
    var c := Transport(u.sip, u.dip, UDP, UdpWith(u.sport, u.dport, UDP_LEN + n, 0), u.payload);
    var e, h := EthHeader(smac, dmac), UdpWith(u.sport, u.dport, UDP_LEN + n, c);
    var i := IpHeader(IP_LEN + UDP_LEN + n, id, ttl, UDP, u.sip, u.dip);
    var f := e + i + h + u.payload + pad;
    hide EthHeader, UdpWith, IpHeader, Transport, CheckIp, U16;
    EthType(smac, dmac);
    PassesIp(e, IP_LEN + UDP_LEN + n, id, ttl, UDP, u.sip, u.dip, h, u.payload, pad, local);
    Layers(e, i, h, u.payload, pad);
    UdpFields(f, 34, u.sport, u.dport, UDP_LEN + n, c);
  }

  lemma TcpFields(f: seq<Byte>, at: nat, t: Tcp, checksum: Word)
    requires at + TCP_LEN <= |f|
        && f[at..at + TCP_LEN] == TcpWith(t.sport, t.dport, t.sequence, t.ack, t.flags, t.window, checksum)
    ensures U16(f, at) == t.sport && U16(f, at + 2) == t.dport && U32(f, at + 4) == t.sequence
        && U32(f, at + 8) == t.ack
    ensures f[at + 12] == 0x50 && f[at + 13] == t.flags && U16(f, at + 14) == t.window && U16(f, at + 16) == checksum
    ensures f[at..at + 16] + [0, 0] + f[at + 18..at + 20] ==
        TcpWith(t.sport, t.dport, t.sequence, t.ack, t.flags, t.window, 0)
  {
    var h := TcpWith(t.sport, t.dport, t.sequence, t.ack, t.flags, t.window, checksum);
    TcpParts(t, checksum);
    hide TcpWith, Be16, U16, Be32, U32;
    Within(f, at, h, 0, 2);
    Within(f, at, h, 2, 4);
    Within(f, at, h, 4, 8);
    Within(f, at, h, 8, 12);
    Within(f, at, h, 12, 12);
    Within(f, at, h, 13, 13);
    Within(f, at, h, 14, 16);
    Within(f, at, h, 16, 18);
    Within(f, at, h, 0, 16);
    Within(f, at, h, 18, 20);
    Be16Back(f, at, t.sport);
    Be16Back(f, at + 2, t.dport);
    Be32Back(f, at + 4, t.sequence);
    Be32Back(f, at + 8, t.ack);
    Be16Back(f, at + 14, t.window);
    Be16Back(f, at + 16, checksum);
  }

  lemma TcpParts(t: Tcp, checksum: Word)
    ensures var h := TcpWith(t.sport, t.dport, t.sequence, t.ack, t.flags, t.window, checksum);
            && h[0..2] == Be16(t.sport) && h[2..4] == Be16(t.dport) && h[4..8] == Be32(t.sequence)
                && h[8..12] == Be32(t.ack)
            && h[12] == 0x50 && h[13] == t.flags && h[14..16] == Be16(t.window) && h[16..18] == Be16(checksum)
            && h[0..16] + [0, 0] + h[18..20] == TcpWith(t.sport, t.dport, t.sequence, t.ack, t.flags, t.window, 0)
  { hide Be32; }

  /** Parsing a built TCP frame gives back every field and the payload, with any padding after it. */
  lemma TcpRoundTrip(capacity: nat, smac: Mac, dmac: Mac, t: Tcp, id: Word, ttl: Byte, pad: seq<Byte>, local: Ip)
    requires BuildTcp(capacity, smac, dmac, t, id, ttl).Some? && (local == ANY || local == t.dip)
    ensures ParseTcp(BuildTcp(capacity, smac, dmac, t, id, ttl).value + pad, local) == Good(t)
  {
    var n := |t.payload|;
    var c := Transport(t.sip, t.dip, TCP, TcpWith(t.sport, t.dport, t.sequence, t.ack, t.flags, t.window, 0),
      t.payload);
    var e, h := EthHeader(smac, dmac), TcpWith(t.sport, t.dport, t.sequence, t.ack, t.flags, t.window, c);
    var i := IpHeader(IP_LEN + TCP_LEN + n, id, ttl, TCP, t.sip, t.dip);
    var f := e + i + h + t.payload + pad;
    hide EthHeader, TcpWith, IpHeader, Transport, CheckIp, U16, U32, ParseTcp;
    EthType(smac, dmac);
    PassesIp(e, IP_LEN + TCP_LEN + n, id, ttl, TCP, t.sip, t.dip, h, t.payload, pad, local);
    Layers(e, i, h, t.payload, pad);
    TcpFields(f, 34, t, c);
    TcpReads(f, local, t, c);
  }

  // What net_parse_tcp_frame makes of a frame whose header it finds at byte 34.
  lemma TcpReads(f: seq<Byte>, local: Ip, t: Tcp, c: Word)
    requires CheckIp(f, local, TCP, TCP_LEN) == Good(IP_LEN) && |t.payload| + 40 < 65536 && 54 + |t.payload| <= |f|
    requires U16(f, 16) == 40 + |t.payload| && f[26..30] == t.sip && f[30..34] == t.dip
        && f[54..54 + |t.payload|] == t.payload
    requires U16(f, 34) == t.sport && U16(f, 36) == t.dport && U32(f, 38) == t.sequence && U32(f, 42) == t.ack
    requires f[46] == 0x50 && f[47] == t.flags && U16(f, 48) == t.window && U16(f, 50) == c
    requires f[34..50] + [0, 0] + f[52..54] == TcpWith(t.sport, t.dport, t.sequence, t.ack, t.flags, t.window, 0)
    requires c == Transport(t.sip, t.dip, TCP, TcpWith(t.sport, t.dport, t.sequence, t.ack, t.flags, t.window, 0),
        t.payload)
    ensures ParseTcp(f, local) == Good(t)
  {
    hide CheckIp, U16, U32, TcpWith, Transport;
  }
}
