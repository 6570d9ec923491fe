/**
 * myping/utils/ping.py. Its send_one_ping builds the Echo Request inline instead of calling
 * generate_ping_ip_payload, and its _ping opens the socket with `const.ICMP_PROTO`, which
 * myping/constants.py does not define. get_icmp_checksum and receive_one_ping are the code
 * of utils/ping.py with the 'BBHHH' header, so Checksum.GetIcmpChecksum and
 * Ping.ReceiveOnePing stand for them.
 */
module Myping {
  import opened Wrappers
  import opened Bytes
  import opened Checksum
  import opened Icmp
  import EchoRequest
  import opened Probe
  import Utils = Ping

  /**
   * The datagram send_one_ping passes to sendto. ValueError is raised before anything is
   * built; the checksum is the one computed over the packet with the field zeroed.
   */
  function SendOnePing(id: int, seqId: int, payloadSize: int, stamp: Timestamp): (r: Result<seq<Byte>>)
    ensures payloadSize < EchoRequest.MIN_PAYLOAD_SIZE ==> r == Err(ValueError)
    ensures r.Ok? <==> payloadSize >= EchoRequest.MIN_PAYLOAD_SIZE && payloadSize % 2 == 0
                       && 0 <= id <= 0xffff && 0 <= seqId <= 0xffff
    ensures r.Ok? ==>
      var p := r.value;
      && |p| == Len(Unsigned) + payloadSize
      && Unpack(Unsigned, p[..8]) == Ok(IcmpHeader(ECHO_REQUEST.0, ECHO_REQUEST.1, Unpack(Unsigned, p[..8]).value.checksum, id, seqId))
      && Ok(Unpack(Unsigned, p[..8]).value.checksum) == IcmpChecksum(WithChecksum(p, 0))
      && WithChecksum(p, 0)[8..] == Ljust(stamp, payloadSize)
  {
    if EchoRequest.Build(Unsigned, id, seqId, payloadSize, stamp).Ok? then
      EchoRequest.BuildLayout(Unsigned, id, seqId, payloadSize, stamp);
      EchoRequest.BuildChecksumVerifies(Unsigned, id, seqId, payloadSize, stamp);
      EchoRequest.BuildSteps(Unsigned, id, seqId, payloadSize, stamp);
      EchoRequest.Build(Unsigned, id, seqId, payloadSize, stamp)
    else
      EchoRequest.Build(Unsigned, id, seqId, payloadSize, stamp)
  }

  /**
   * What `const.ICMP_PROTO` evaluates to in _ping: myping/constants.py defines the three
   * message types and MIN_PAYLOAD_SIZE but no ICMP_PROTO, so the lookup raises AttributeError.
   * This takes the module's import of IPv4Header to succeed, as the stand-in decoder of
   * module Ip assumes.
   */
  const ICMP_PROTO: Result<int> := Err(AttributeError)

  /** The protocol number _ping evidently means, socket.IPPROTO_ICMP. */
  const IPPROTO_ICMP := 1

  /**
   * One _ping with ping's handlers, given what the protocol argument evaluates to. The
   * argument is evaluated before the socket is created, and neither handler of ping
   * catches AttributeError, so a failed lookup escapes before anything is sent.
   */
  function StepWith(proto: Result<int>, id: int, timeout: int, payloadSize: int, socket: Socket, seqId: int): Step
  {
    if proto.Err? then Stop(PingRun([], [], Some(proto.error)))
    else ProbeStep(Unsigned, id, timeout, payloadSize, socket, seqId)
  }

  /** ping as written: the probe loop of utils/ping.py with the step above, over `const.ICMP_PROTO`. */
  function PingAsWritten(dest: Option<Address>, pid: nat, timeout: int, count: int, payloadSize: int,
                         sockets: seq<Socket>): PingRun
  {
    if dest.None? then PingRun([], [ResolveFailed], None)
    else RunOf(seq(if count > 0 then count else 0,
                   i requires 0 <= i => StepWith(ICMP_PROTO, Identifier(pid), timeout, payloadSize, SocketAt(sockets, i), i + 1)))
  }

  /** As written, every session that resolves its destination and has a probe to make escapes with AttributeError, having sent nothing. */
  lemma AsWrittenNeverProbes(dest: Address, pid: nat, timeout: int, count: int, payloadSize: int, sockets: seq<Socket>)
    requires count >= 1
    ensures PingAsWritten(Some(dest), pid, timeout, count, payloadSize, sockets) == PingRun([], [], Some(AttributeError))
  {
  }

  /**
   * One probe on a socket that receives nothing: as written, AttributeError escapes and no
   * packet leaves; with IPPROTO_ICMP the Echo Request is sent and its timeout logged.
   */
  lemma ProtocolDiscrepancy(dest: Address)
    ensures PingAsWritten(Some(dest), 1, 1, 1, 56, []) == PingRun([], [], Some(AttributeError))
    ensures var run := PingSpec(Unsigned, Some(dest), 1, 1, 1, 56, []);
      run.crash == None && |run.sent| == 1 && run.lines == [TimedOut]
  {
    AsWrittenNeverProbes(dest, 1, 1, 1, 56, []);
    assert EchoRequest.IdsFit(Unsigned, Identifier(1), 1);
    assert ReplySpec(Unsigned, [], Identifier(1), 1) == Err(TimeoutError);
    TimeoutsAreNotFatal(Unsigned, dest, 1, 1, 1, 56, []);
  }

  /**
   * _ping with `const.ICMP_PROTO` taken as IPPROTO_ICMP, together with ping's handlers:
   * the inline build, then the receive; PermissionError is logged and ends the loop.
   */
  method PingOnce(id: int, timeout: int, payloadSize: int, socket: Socket, seqId: int) returns (step: Step)
    ensures step == StepWith(Ok(IPPROTO_ICMP), id, timeout, payloadSize, socket, seqId)
    ensures step == ProbeStep(Unsigned, id, timeout, payloadSize, socket, seqId)
  {
    if socket.Denied? {
      return Stop(PingRun([], [MustBeSuperuser], None));
    }
    var packet := SendOnePing(id, seqId, payloadSize, StampAt(socket.stamps, 0));
    if packet.Err? {
      return Stop(PingRun([], [], Some(packet.error)));
    }
    var reply := Utils.ReceiveOnePing(socket.events, id, timeout);
    if reply.Ok? {
      step := Continue(packet.value, Replied(reply.value));
    } else if reply.error == TimeoutError {
      step := Continue(packet.value, TimedOut);
    } else {
      step := Stop(PingRun([packet.value], [], Some(reply.error)));
    }
  }

  /** ping of myping/utils/ping.py after the name lookup, with IPPROTO_ICMP as the protocol. */
  method Ping(dest: Option<Address>, pid: nat, timeout: int, count: int, payloadSize: int,
              sockets: seq<Socket>) returns (run: PingRun)
    ensures run == PingSpec(Unsigned, dest, pid, timeout, count, payloadSize, sockets)
  {
    if dest.None? {
      return PingRun([], [ResolveFailed], None);
    }
    var id := pid % 0x10000;
    ghost var steps := Probes(Unsigned, id, timeout, payloadSize, sockets, count);
    var sent: seq<seq<Byte>> := [];
    var lines: seq<PingLine> := [];
    var seqId := 1;
    while seqId <= count
      invariant 1 <= seqId <= |steps| + 1
      invariant Then(sent, lines, RunOf(steps[seqId - 1..])) == RunOf(steps)
      decreases count - seqId
    {
      var step := PingOnce(id, timeout, payloadSize, SocketAt(sockets, seqId - 1), seqId);
      assert step == steps[seqId - 1];
      RunOfAt(steps, seqId - 1);
      if step.Stop? {
        return Then(sent, lines, step.last);
      }
      ThenThen(sent, lines, [step.packet], [step.line], RunOf(steps[seqId..]));
      sent, lines := sent + [step.packet], lines + [step.line];
      seqId := seqId + 1;
    }
    assert steps[seqId - 1..] == [];
    run := PingRun(sent, lines, None);
  }
}
