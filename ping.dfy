/**
 * utils/ping.py: parse a received datagram, build the Echo Request, wait for the matching
 * Echo Reply, and run a session of `count` probes. myping/utils/ping.py has the same
 * parse_ping_packet and receive_one_ping, so those members stand for it; its own
 * send_one_ping, _ping and ping are in module Myping.
 */
module Ping {
  import opened Wrappers
  import opened Bytes
  import opened Checksum
  import opened Icmp
  import opened Ip
  import EchoRequest
  import opened Probe

  /** The triple `(ip_header, icmp_header, icmp_payload)` that parse_ping_packet returns. */
  datatype Parsed = Parsed(ip: Ipv4Header, icmp: IcmpHeader, payload: seq<Byte>)

  /** parse_ping_packet: IPv4 header in bytes 0..19, ICMP header in 20..27, the rest is payload. */
  function ParsePingPacket(packet: Operand): (r: Result<Parsed>)
    ensures packet.NotBuffer? ==> r == Err(TypeError)
    ensures packet.Buffer? ==> (r.Ok? <==> |packet.bytes| >= PAYLOAD_OFFSET)
    ensures packet.Buffer? && r.Err? ==> r.error == StructError
    ensures r.Ok? ==>
      var b := packet.bytes;
      && |b| >= PAYLOAD_OFFSET
      && r.value.ip.raw == b[..HEADER_LEN]
      && r.value.ip.Ttl() == b[TTL_OFFSET]
      && r.value.icmp == HeaderOf(Unsigned, b)
      && r.value.payload == b[PAYLOAD_OFFSET..]
  {
    match packet
    case NotBuffer => Err(TypeError)
    case Buffer(b) =>
      match UnpackIpv4(Slice(b, 0, HEADER_LEN))
      case Err(e) => Err(e)
      case Ok(ip) =>
        match Unpack(Unsigned, Slice(b, ICMP_OFFSET, PAYLOAD_OFFSET))
        case Err(e) => Err(e)
        case Ok(icmp) =>
          Ok(Parsed(ip, icmp, b[PAYLOAD_OFFSET..]))
  }

  /** The three parts parse_ping_packet returns are the whole datagram: re-packing the ICMP header gives its bytes back. */
  lemma ParsedPartsRebuild(b: seq<Byte>)
    requires |b| >= PAYLOAD_OFFSET
    ensures var parsed := ParsePingPacket(Buffer(b)).value;
      && Pack(Unsigned, parsed.icmp) == Ok(b[ICMP_OFFSET..PAYLOAD_OFFSET])
      && b == parsed.ip.raw + Pack(Unsigned, parsed.icmp).value + parsed.payload
  {
    PackUnpack(Unsigned, b[ICMP_OFFSET..PAYLOAD_OFFSET]);
    assert b == b[..HEADER_LEN] + b[ICMP_OFFSET..PAYLOAD_OFFSET] + b[PAYLOAD_OFFSET..];
  }

  /**
   * generate_ping_ip_payload with 'BBHHH': ValueError below the minimum size, struct.error
   * for an id or seq id outside 0..65535, IndexError for an odd payload size (the
   * checksum reads past the end); otherwise an Echo Request whose checksum verifies.
   */
  function GeneratePingIpPayload(pid: int, seqId: int, payloadSize: int, stamp: Timestamp): (r: Result<seq<Byte>>)
    ensures r == Err(ValueError) <==> payloadSize < EchoRequest.MIN_PAYLOAD_SIZE
    ensures r.Ok? <==> payloadSize >= EchoRequest.MIN_PAYLOAD_SIZE && payloadSize % 2 == 0
                       && 0 <= pid <= 0xffff && 0 <= seqId <= 0xffff
    ensures r.Ok? ==> IsProbe(Unsigned, pid, payloadSize, seqId, r.value) && IcmpChecksum(r.value) == Ok(0)
    ensures r.Ok? ==> r.value[8..16] == stamp
  {
    if EchoRequest.Build(Unsigned, pid, seqId, payloadSize, stamp).Ok? then
      EchoRequest.BuildLayout(Unsigned, pid, seqId, payloadSize, stamp);
      EchoRequest.BuildChecksumVerifies(Unsigned, pid, seqId, payloadSize, stamp);
      EchoRequest.Build(Unsigned, pid, seqId, payloadSize, stamp)
    else
      EchoRequest.Build(Unsigned, pid, seqId, payloadSize, stamp)
  }

  /**
   * receive_one_ping over the stream of what each wait yields. The wait's duration is
   * deducted before the datagram is looked at, as in the source.
   */
  method ReceiveOnePing(events: seq<Event>, pid: int, timeout: int) returns (r: Result<EchoReply>)
    ensures r == ReplySpec(Unsigned, events, pid, timeout)
  {
    var timeLeft := timeout;
    var stream := events;
    while timeLeft > 0
      invariant ReplySpec(Unsigned, stream, pid, timeLeft) == ReplySpec(Unsigned, events, pid, timeout)
      decreases |stream|
    {
      if stream == [] || stream[0].Silence? {
        r := Err(TimeoutError);
        return;
      }
      var e := stream[0];
      ghost var before, leftBefore := stream, timeLeft;
      timeLeft := timeLeft - e.waited;
      stream := stream[1..];
      var parsed := ParsePingPacket(Buffer(e.packet));
      if parsed.Err? {
        r := Err(parsed.error);
        return;
      }
      var icmp := parsed.value.icmp;
      if Function(icmp) == ECHO_REPLY && icmp.id == pid {
        var timeSent := Slice(parsed.value.payload, 0, 8);
        if |timeSent| != 8 {
          r := Err(StructError);
          return;
        }
        assert |e.packet| >= STAMP_END && timeSent == e.packet[PAYLOAD_OFFSET..STAMP_END];
        var ipPayloadSize := |e.packet| - |parsed.value.ip.raw|;
        r := Ok(EchoReply(ipPayloadSize, e.addr, icmp.seqNum, parsed.value.ip.Ttl(), timeSent));
        return;
      }
      assert |e.packet| >= PAYLOAD_OFFSET && !Answers(Unsigned, e.packet, pid);
      ReplySkip(Unsigned, before, pid, leftBefore);
    }
    r := Err(TimeoutError);
  }

  /**
   * One iteration of ping's loop: `_ping` opens a socket, sends and waits, and ping's
   * handlers meet its outcome (a reply or a timeout is logged, PermissionError is logged
   * and ends the loop, anything else escapes).
   */
  method PingOnce(id: int, timeout: int, payloadSize: int, socket: Socket, seqId: int) returns (step: Step)
    ensures step == ProbeStep(Unsigned, id, timeout, payloadSize, socket, seqId)
  {
    if socket.Denied? {
      return Stop(PingRun([], [MustBeSuperuser], None));
    }
    var packet := GeneratePingIpPayload(id, seqId, payloadSize, StampAt(socket.stamps, 0));
    if packet.Err? {
      return Stop(PingRun([], [], Some(packet.error)));
    }
    var reply := ReceiveOnePing(socket.events, id, timeout);
    if reply.Ok? {
      step := Continue(packet.value, Replied(reply.value));
    } else if reply.error == TimeoutError {
      step := Continue(packet.value, TimedOut);
    } else {
      step := Stop(PingRun([packet.value], [], Some(reply.error)));
    }
  }

  /**
   * ping after the name lookup: seq ids 1..count, each probed with its own socket,
   * until a probe stops the loop.
   */
  method Ping(dest: Option<Address>, pid: nat, timeout: int, count: int, payloadSize: int,
              sockets: seq<Socket>) returns (run: PingRun)
    ensures run == PingSpec(Unsigned, dest, pid, timeout, count, payloadSize, sockets)
  {
    if dest.None? {
      return PingRun([], [ResolveFailed], None);
    }
    var id := pid % 0x10000;
    ghost var steps := Probes(Unsigned, id, timeout, payloadSize, sockets, count);
    var sent: seq<seq<Byte>> := [];
    var lines: seq<PingLine> := [];
    var seqId := 1;
    while seqId <= count
      invariant 1 <= seqId <= |steps| + 1
      invariant Then(sent, lines, RunOf(steps[seqId - 1..])) == RunOf(steps)
      decreases count - seqId
    {
      var step := PingOnce(id, timeout, payloadSize, SocketAt(sockets, seqId - 1), seqId);
      assert step == steps[seqId - 1];
      RunOfAt(steps, seqId - 1);
      if step.Stop? {
        return Then(sent, lines, step.last);
      }
      ThenThen(sent, lines, [step.packet], [step.line], RunOf(steps[seqId..]));
      sent, lines := sent + [step.packet], lines + [step.line];
      seqId := seqId + 1;
    }
    assert steps[seqId - 1..] == [];
    run := PingRun(sent, lines, None);
  }
}
