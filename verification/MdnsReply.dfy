/**
 * A responder's records, its announcements and replies as Ethernet frames, and
 * the querier's reading of them.
 */
module MdnsReply {
  import opened Bytes
  import opened Checksum
  import opened MdnsNames
  import opened MdnsRecords
  import opened MdnsMessage

  const MDNS_PORT := 5353
  const TTL_HOST := 120
  const TTL_OTHER := 4500
  const T_ANY := 255
  const MAX_QUESTIONS := 8
  const DNS_HEADER := 12

  const NO_IP: seq<byte> := [0, 0, 0, 0]
  const GROUP_IP: seq<byte> := [224, 0, 0, 251]
  const GROUP_MAC: seq<byte> := [0x01, 0x00, 0x5E, 0x00, 0x00, 0xFB]

  const LOCAL: Label := [108, 111, 99, 97, 108]
  const TCP: Label := [95, 116, 99, 112]
  const UDP: Label := [95, 117, 100, 112]
  const SERVICES: Label := [95, 115, 101, 114, 118, 105, 99, 101, 115]
  const DNS_SD: Label := [95, 100, 110, 115, 45, 115, 100]

  /** One advertised server. */
  datatype Offer = Offer(port: Word, kind: Label, instance: Label)

  datatype Host = Host(name: Label, ip: seq<byte>, mac: seq<byte>, offers: seq<Offer>, ipId: Word)

  predicate ProperHost(h: Host) { |h.ip| == 4 && |h.mac| == 6 }

  // ---- the records of a host ----

  function HostName(h: Host): seq<Label> { [h.name, LOCAL] }

  function TypeName(s: Offer): seq<Label> { [s.kind, TCP, LOCAL] }

  function InstanceName(s: Offer): seq<Label> { [s.instance, s.kind, TCP, LOCAL] }

  function MetaName(): seq<Label> { [SERVICES, DNS_SD, UDP, LOCAL] }

  function HostRecord(h: Host): Record { Record(HostName(h), true, TTL_HOST, Address(h.ip)) }

  function MetaRecord(s: Offer): Record { Record(MetaName(), false, TTL_OTHER, Pointer(TypeName(s))) }

  function PtrRecord(s: Offer): Record { Record(TypeName(s), false, TTL_OTHER, Pointer(InstanceName(s))) }

  function SrvRecord(h: Host, s: Offer): Record { Record(InstanceName(s), true, TTL_HOST, Service(s.port, HostName(h))) }

  function TxtRecord(s: Offer): Record { Record(InstanceName(s), true, TTL_OTHER, Text) }

  lemma WireFirst(labels: seq<Label>)
    ensures |Wire(labels)| == if labels == [] then 1 else 1 + |labels[0]| + |Wire(labels[1..])|
  {
  }

  lemma WireOfTwo(a: Label, b: Label)
    ensures |Wire([a, b])| == |a| + |b| + 3
  {
    WireFirst([a, b]);
    assert [a, b][1..] == [b] && [b][1..] == [];
    WireFirst([b]);
    WireFirst([]);
  }

  lemma WireOfThree(a: Label, b: Label, c: Label)
    ensures |Wire([a, b, c])| == |a| + |b| + |c| + 4
  {
    WireFirst([a, b, c]);
    assert [a, b, c][1..] == [b, c];
    WireOfTwo(b, c);
  }

  lemma WireOfFour(a: Label, b: Label, c: Label, d: Label)
    ensures |Wire([a, b, c, d])| == |a| + |b| + |c| + |d| + 5
  {
    WireFirst([a, b, c, d]);
    assert [a, b, c, d][1..] == [b, c, d];
    WireOfThree(b, c, d);
  }

  /** Every name of a host is short enough to be read, so its records are proper. */
  lemma RecordsAreProper(h: Host, s: Offer)
    requires ProperHost(h)
    ensures Proper(HostRecord(h)) && Proper(MetaRecord(s)) && Proper(PtrRecord(s)) && Proper(SrvRecord(h, s)) && Proper(TxtRecord(s))
  {
    WireOfTwo(h.name, LOCAL);
    WireOfThree(s.kind, TCP, LOCAL);
    WireOfFour(s.instance, s.kind, TCP, LOCAL);
    WireOfFour(SERVICES, DNS_SD, UDP, LOCAL);
  }

  // ---- frames ----

  function IpHeader(h: Host, total: nat, ip: seq<byte>): seq<byte> {
    [0x45, 0] + Word16(total) + Word16(h.ipId) + Word16(0) + [255, 17] + Word16(0) + h.ip + ip
  }

  function UdpHeader(port: nat, length: nat): (s: seq<byte>)
    ensures |s| == 8
  {
    Word16(MDNS_PORT) + Word16(port) + Word16(length) + Word16(0)
  }

  /** The Ethernet, IPv4 and UDP headers in front of a message. */
  function Wrap(h: Host, msg: seq<byte>, mac: seq<byte>, ip: seq<byte>, port: nat): seq<byte>
    requires ProperHost(h) && |ip| == 4
  {
    var iph := IpHeader(h, 28 + |msg|, ip);
    mac + h.mac + [0x08, 0x00] + SetWord(iph, 10, Cksum(iph)) + UdpHeader(port, 8 + |msg|) + msg
  }

  /** A datagram to the group or to this host, from another host, for the multicast DNS port. */
  datatype Datagram = Datagram(src: seq<byte>, sport: Word, toGroup: bool, msg: seq<byte>)

  function Receive(ip: seq<byte>, frame: seq<byte>): (r: Option<Datagram>)
    ensures r.Some? ==> |r.value.src| == 4 && |r.value.msg| >= DNS_HEADER && |frame| >= HEADERS
  {
    if ip == NO_IP || |frame| < HEADERS + DNS_HEADER || frame[12] != 0x08 || frame[13] != 0x00 then None
    else
      var ihl := frame[14] % 16 * 4;
      var total := At(frame, 16);
      if frame[14] / 16 != 4 || ihl < 20 || frame[23] != 17 || total < ihl + 20 || total > |frame| - 14
         || At(frame, 20) % 0x4000 != 0 then None
      else
        var dst, src := frame[30..34], frame[26..30];
        if (dst != GROUP_IP && dst != ip) || src == ip then None
        else
          var ulen := At(frame, 14 + ihl + 4);
          if At(frame, 14 + ihl + 2) != MDNS_PORT || ulen < 20 || ulen > total - ihl then None
          else Some(Datagram(src, At(frame, 14 + ihl), dst == GROUP_IP, frame[22 + ihl..14 + ihl + ulen]))
  }

  /** A response started on: its message and the first record's place. */
  function Response(ip: seq<byte>, frame: seq<byte>): Option<(seq<byte>, Cursor)> {
    match Receive(ip, frame)
    case None => None
    case Some(d) =>
      var flags := At(d.msg, 2);
      if d.sport != MDNS_PORT || flags / 0x800 != 0x10 || flags % 0x10 != 0 then None
      else
        match SkipQuestions(d.msg, DNS_HEADER, At(d.msg, 4))
        case None => None
        case Some(off) => Some((d.msg, Cursor(off, At(d.msg, 6) + At(d.msg, 8) + At(d.msg, 10))))
  }

  function SkipQuestions(msg: seq<byte>, off: nat, questions: nat): Option<nat>
    decreases questions
  {
    if questions == 0 then Some(off)
    else
      match NameAt(msg, off)
      case None => None
      case Some((at, _)) => if at + 4 > |msg| then None else SkipQuestions(msg, at + 4, questions - 1)
  }

  // ---- a frame is received as it was sent ----

  lemma IpHeaderParts(h: Host, total: nat, ip: seq<byte>)
    requires ProperHost(h) && |ip| == 4 && total < TWO_16
    ensures var s := IpHeader(h, total, ip);
      |s| == 20 && s[0] == 0x45 && At(s, 2) == total && At(s, 6) == 0 && s[9] == 17 && WordAt(s, 10) == 0
      && s[12..16] == h.ip && s[16..20] == ip
  {
    PairOfWord(total);
  }

  lemma ChecksumParts(s: seq<byte>)
    requires |s| == 20
    ensures var t := SetWord(s, 10, Cksum(s));
      |t| == 20 && t[0] == s[0] && At(t, 2) == At(s, 2) && At(t, 6) == At(s, 6) && t[9] == s[9]
      && t[12..16] == s[12..16] && t[16..20] == s[16..20]
  {
  }

  lemma UdpHeaderParts(port: Word, length: nat)
    requires length < TWO_16
    ensures var s := UdpHeader(port, length); At(s, 0) == MDNS_PORT && At(s, 2) == port && At(s, 4) == length
  {
    PairOfSmall(MDNS_PORT);
    PairOfSmall(port);
    PairOfSmall(length);
  }

  lemma FrameParts(eth: seq<byte>, iph: seq<byte>, udp: seq<byte>, msg: seq<byte>)
    requires |eth| == 14 && |iph| == 20 && |udp| == 8
    ensures var f := eth + iph + udp + msg;
      && |f| == HEADERS + |msg| && f[12] == eth[12] && f[13] == eth[13]
      && f[14] == iph[0] && f[23] == iph[9] && At(f, 16) == At(iph, 2) && At(f, 20) == At(iph, 6)
      && f[26..30] == iph[12..16] && f[30..34] == iph[16..20]
      && At(f, 34) == At(udp, 0) && At(f, 36) == At(udp, 2) && At(f, 38) == At(udp, 4)
      && f[42..42 + |msg|] == msg
  {
  }

  lemma ReceiveFromParts(me: seq<byte>, f: seq<byte>, n: nat, src: seq<byte>, dst: seq<byte>)
    requires |f| == HEADERS + n && DNS_HEADER <= n < 0xFF00 && f[12] == 0x08 && f[13] == 0x00
    requires f[14] == 0x45 && f[23] == 17 && At(f, 16) == 28 + n && At(f, 20) == 0
    requires f[26..30] == src && f[30..34] == dst
    requires At(f, 36) == MDNS_PORT && At(f, 38) == 8 + n
    requires me != NO_IP && me != src && (dst == me || dst == GROUP_IP)
    ensures Receive(me, f) == Some(Datagram(src, At(f, 34), dst == GROUP_IP, f[42..42 + n]))
  {
    assert f[14] % 16 * 4 == 20 && f[14] / 16 == 4;
  }

  /** An IPv4 header for n bytes of message between these two addresses. */
  ghost predicate HeaderFor(iph: seq<byte>, n: nat, src: seq<byte>, dst: seq<byte>) {
    && |iph| == 20 && iph[0] == 0x45 && iph[9] == 17 && At(iph, 2) == 28 + n && At(iph, 6) == 0
    && iph[12..16] == src && iph[16..20] == dst
  }

  lemma ChecksummedHeader(h: Host, n: nat, dst: seq<byte>)
    requires ProperHost(h) && |dst| == 4 && n <= DNS_MAX
    ensures |IpHeader(h, 28 + n, dst)| == 20
    ensures var raw := IpHeader(h, 28 + n, dst); HeaderFor(SetWord(raw, 10, Cksum(raw)), n, h.ip, dst)
  {
    IpHeaderParts(h, 28 + n, dst);
    ChecksumParts(IpHeader(h, 28 + n, dst));
  }

  lemma FrameFromParts(eth: seq<byte>, iph: seq<byte>, udp: seq<byte>, msg: seq<byte>, src: seq<byte>, dst: seq<byte>, me: seq<byte>)
    requires |eth| == 14 && eth[12] == 0x08 && eth[13] == 0x00 && DNS_HEADER <= |msg| <= DNS_MAX
    requires HeaderFor(iph, |msg|, src, dst)
    requires |udp| == 8 && At(udp, 0) == MDNS_PORT && At(udp, 2) == MDNS_PORT && At(udp, 4) == 8 + |msg|
    requires me != NO_IP && me != src && (dst == me || dst == GROUP_IP)
    ensures Receive(me, eth + iph + udp + msg) == Some(Datagram(src, MDNS_PORT, dst == GROUP_IP, msg))
  {
    FrameParts(eth, iph, udp, msg);
    ReceiveFromParts(me, eth + iph + udp + msg, |msg|, src, dst);
  }

  /** A datagram sent to the group or to one host is received there with its message. */
  lemma FrameRoundTrip(h: Host, msg: seq<byte>, mac: seq<byte>, dst: seq<byte>, me: seq<byte>)
    requires ProperHost(h) && |mac| == 6 && |dst| == 4 && DNS_HEADER <= |msg| <= DNS_MAX
    requires me != NO_IP && me != h.ip && (dst == me || dst == GROUP_IP)
    ensures Receive(me, Wrap(h, msg, mac, dst, MDNS_PORT)) == Some(Datagram(h.ip, MDNS_PORT, dst == GROUP_IP, msg))
  {
    var eth, iph, udp := WrapParts(h, msg, mac, dst);
    FrameFromParts(eth, iph, udp, msg, h.ip, dst, me);
  }

  lemma WrapParts(h: Host, msg: seq<byte>, mac: seq<byte>, dst: seq<byte>) returns (eth: seq<byte>, iph: seq<byte>, udp: seq<byte>)
    requires ProperHost(h) && |mac| == 6 && |dst| == 4 && |msg| <= DNS_MAX
    ensures Wrap(h, msg, mac, dst, MDNS_PORT) == eth + iph + udp + msg
    ensures |eth| == 14 && eth[12] == 0x08 && eth[13] == 0x00
    ensures HeaderFor(iph, |msg|, h.ip, dst)
    ensures |udp| == 8 && At(udp, 0) == MDNS_PORT && At(udp, 2) == MDNS_PORT && At(udp, 4) == 8 + |msg|
  {
    var raw := IpHeader(h, 28 + |msg|, dst);
    ChecksummedHeader(h, |msg|, dst);
    UdpHeaderParts(MDNS_PORT, 8 + |msg|);
    eth, iph, udp := mac + h.mac + [0x08, 0x00], SetWord(raw, 10, Cksum(raw)), UdpHeader(MDNS_PORT, 8 + |msg|);
  }

  lemma HeaderInFrame(eth: seq<byte>, iph: seq<byte>, rest: seq<byte>, msg: seq<byte>)
    requires |eth| == 14 && |iph| == 20
    ensures |eth + iph + rest + msg| >= 34 && (eth + iph + rest + msg)[14..34] == iph
  {
  }

  /** The header of every frame passes the internet checksum. */
  lemma HeaderPasses(h: Host, msg: seq<byte>, mac: seq<byte>, dst: seq<byte>, port: nat)
    requires ProperHost(h) && |mac| == 6 && |dst| == 4 && |msg| <= DNS_MAX
    ensures |Wrap(h, msg, mac, dst, port)| >= 34 && Cksum(Wrap(h, msg, mac, dst, port)[14..34]) == 0
  {
    var raw := IpHeader(h, 28 + |msg|, dst);
    IpHeaderParts(h, 28 + |msg|, dst);
    WrittenChecksumPasses(raw, 10);
    HeaderInFrame(mac + h.mac + [0x08, 0x00], SetWord(raw, 10, Cksum(raw)), UdpHeader(port, 8 + |msg|), msg);
  }

  // ---- messages ----

  /** The twelve bytes in front of a response's records. */
  function Header(id: nat, questions: nat, answers: nat, additional: nat): (s: seq<byte>)
    ensures |s| == DNS_HEADER
  {
    Word16(id) + Word16(0x8400) + Word16(questions) + Word16(answers) + Word16(0) + Word16(additional)
  }

  /** The message with both counts written into its header. */
  function Finished(g: Message, answers: nat, additional: nat): seq<byte>
    requires |g.bytes| >= DNS_HEADER
  {
    Patch(Patch(g.bytes, 6, answers), 10, additional)
  }

  lemma FinishedHeader(g: Message, id: nat, questions: nat, answers: nat, additional: nat, rest: seq<byte>)
    requires g.bytes == Header(id, questions, 0, 0) + rest
    ensures Finished(g, answers, additional) == Header(id, questions, answers, additional) + rest
  {
  }

  /** A response without questions is started on at its first record, with as many left as its header says. */
  lemma ResponseStarts(ip: seq<byte>, frame: seq<byte>, d: Datagram, id: Word, answers: nat, additional: nat, rest: seq<byte>)
    requires Receive(ip, frame) == Some(d) && d.sport == MDNS_PORT
    requires d.msg == Header(id, 0, answers, additional) + rest && answers + additional < TWO_16
    ensures Response(ip, frame) == Some((d.msg, Cursor(DNS_HEADER, answers + additional)))
  {
    HeaderParts(d.msg, id, answers, additional, rest);
  }

  lemma TwoWords(msg: seq<byte>, off: nat, a: Word, b: Word, rest: seq<byte>) returns (next: nat)
    requires Holds(msg, off, Word16(a) + (Word16(b) + rest))
    ensures next == off + 4 <= |msg| && At(msg, off) == a && At(msg, off + 2) == b && Holds(msg, next, rest)
  {
    HoldsWord(msg, off, a, Word16(b) + rest);
    HoldsWord(msg, off + 2, b, rest);
    next := off + 4;
  }

  lemma SixWords(msg: seq<byte>, a: Word, b: Word, c: Word, d: Word, e: Word, f: Word, rest: seq<byte>)
    requires Holds(msg, 0, Word16(a) + (Word16(b) + (Word16(c) + (Word16(d) + (Word16(e) + (Word16(f) + rest))))))
    ensures |msg| >= DNS_HEADER && At(msg, 2) == b && At(msg, 4) == c && At(msg, 6) == d && At(msg, 8) == e && At(msg, 10) == f
  {
    var last := Word16(e) + (Word16(f) + rest);
    var next := TwoWords(msg, 0, a, b, Word16(c) + (Word16(d) + last));
    next := TwoWords(msg, next, c, d, last);
    next := TwoWords(msg, next, e, f, rest);
  }

  lemma HeaderParts(msg: seq<byte>, id: Word, answers: nat, additional: nat, rest: seq<byte>)
    requires msg == Header(id, 0, answers, additional) + rest && answers + additional < TWO_16
    ensures At(msg, 2) == 0x8400 && At(msg, 4) == 0 && At(msg, 6) == answers && At(msg, 8) == 0 && At(msg, 10) == additional
  {
    HeaderChain(msg, id, answers, additional, rest);
    SixWords(msg, id, 0x8400, 0, answers, 0, additional, rest);
  }

  lemma HeaderChain(msg: seq<byte>, id: nat, answers: nat, additional: nat, rest: seq<byte>)
    requires msg == Header(id, 0, answers, additional) + rest
    ensures Holds(msg, 0, Word16(id) + (Word16(0x8400) + (Word16(0) + (Word16(answers) + (Word16(0) + (Word16(additional) + rest))))))
  {
    assert msg == Word16(id) + (Word16(0x8400) + (Word16(0) + (Word16(answers) + (Word16(0) + (Word16(additional) + rest)))));
  }
}
