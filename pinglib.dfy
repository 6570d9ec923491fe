/**
 * pinglib.py: the same ping session as utils/ping.py, with the header format 'bbHHh'
 * (signed type, code and sequence number), the ICMP header read at the fixed offset 20
 * of the datagram, and the TTL read with get_ttl.
 */
module PingLib {
  import opened Wrappers
  import opened Bytes
  import opened Checksum
  import opened Icmp
  import opened Ip
  import EchoRequest
  import opened Probe

  /**
   * The packet send_one_ping builds: ValueError below the minimum size; struct.error for
   * an identifier outside 0..65535 or a seq id outside -32768..32767; IndexError for an
   * odd payload size; otherwise an Echo Request whose checksum verifies.
   */
  function SendOnePing(identifier: int, seqId: int, payloadSize: int, stamp: Timestamp): (r: Result<seq<Byte>>)
    ensures r == Err(ValueError) <==> payloadSize < EchoRequest.MIN_PAYLOAD_SIZE
    ensures r.Ok? <==> payloadSize >= EchoRequest.MIN_PAYLOAD_SIZE && payloadSize % 2 == 0
                       && 0 <= identifier <= 0xffff && -0x8000 <= seqId < 0x8000
    ensures payloadSize >= EchoRequest.MIN_PAYLOAD_SIZE && seqId >= 0x8000 ==> r == Err(StructError)
    ensures r.Ok? ==> IsProbe(Signed, identifier, payloadSize, seqId, r.value) && IcmpChecksum(r.value) == Ok(0)
  {
    if EchoRequest.Build(Signed, identifier, seqId, payloadSize, stamp).Ok? then
      EchoRequest.BuildLayout(Signed, identifier, seqId, payloadSize, stamp);
      EchoRequest.BuildChecksumVerifies(Signed, identifier, seqId, payloadSize, stamp);
      EchoRequest.Build(Signed, identifier, seqId, payloadSize, stamp)
    else
      EchoRequest.Build(Signed, identifier, seqId, payloadSize, stamp)
  }

  /** receive_one_ping: header at bytes 20..27, timestamp at 28..35, TTL by get_ttl. */
  method ReceiveOnePing(events: seq<Event>, identifier: int, timeout: int) returns (r: Result<EchoReply>)
    ensures r == ReplySpec(Signed, events, identifier, timeout)
  {
    var timeLeft := timeout;
    var stream := events;
    while timeLeft > 0
      invariant ReplySpec(Signed, stream, identifier, timeLeft) == ReplySpec(Signed, events, identifier, timeout)
      decreases |stream|
    {
      if stream == [] || stream[0].Silence? {
        r := Err(TimeoutError);
        return;
      }
      var e := stream[0];
      ghost var before, leftBefore := stream, timeLeft;
      timeLeft := timeLeft - e.waited;
      stream := stream[1..];
      var header := Unpack(Signed, Slice(e.packet, 20, 28));
      if header.Err? {
        r := Err(header.error);
        return;
      }
      var h := header.value;
      if (h.icmpType, h.code) == ECHO_REPLY && h.id == identifier {
        var timeSent := Slice(e.packet, 28, 36);
        if |timeSent| != 8 {
          r := Err(StructError);
          return;
        }
        var ipPayloadSize := |e.packet| - 20;
        var ttl := GetTtl(Buffer(e.packet));
        r := Ok(EchoReply(ipPayloadSize, e.addr, h.seqNum, ttl.value, timeSent));
        return;
      }
      assert |e.packet| >= PAYLOAD_OFFSET && !Answers(Signed, e.packet, identifier);
      ReplySkip(Signed, before, identifier, leftBefore);
    }
    r := Err(TimeoutError);
  }

  /** `_ping` and the handlers in ping that meet its outcome. */
  method PingOnce(identifier: int, timeout: int, payloadSize: int, socket: Socket, seqId: int) returns (step: Step)
    ensures step == ProbeStep(Signed, identifier, timeout, payloadSize, socket, seqId)
  {
    if socket.Denied? {
      return Stop(PingRun([], [MustBeSuperuser], None));
    }
    var packet := SendOnePing(identifier, seqId, payloadSize, StampAt(socket.stamps, 0));
    if packet.Err? {
      return Stop(PingRun([], [], Some(packet.error)));
    }
    var reply := ReceiveOnePing(socket.events, identifier, timeout);
    if reply.Ok? {
      step := Continue(packet.value, Replied(reply.value));
    } else if reply.error == TimeoutError {
      step := Continue(packet.value, TimedOut);
    } else {
      step := Stop(PingRun([packet.value], [], Some(reply.error)));
    }
  }

  /** ping after the name lookup: seq ids 1..count until a probe stops the loop. */
  method Ping(dest: Option<Address>, pid: nat, timeout: int, count: int, payloadSize: int,
              sockets: seq<Socket>) returns (run: PingRun)
    ensures run == PingSpec(Signed, dest, pid, timeout, count, payloadSize, sockets)
  {
    if dest.None? {
      return PingRun([], [ResolveFailed], None);
    }
    var identifier := pid % 0x10000;
    ghost var steps := Probes(Signed, identifier, timeout, payloadSize, sockets, count);
    var sent: seq<seq<Byte>> := [];
    var lines: seq<PingLine> := [];
    var seqId := 1;
    while seqId <= count
      invariant 1 <= seqId <= |steps| + 1
      invariant Then(sent, lines, RunOf(steps[seqId - 1..])) == RunOf(steps)
      decreases count - seqId
    {
      var step := PingOnce(identifier, timeout, payloadSize, SocketAt(sockets, seqId - 1), seqId);
      assert step == steps[seqId - 1];
      RunOfAt(steps, seqId - 1);
      if step.Stop? {
        return Then(sent, lines, step.last);
      }
      ThenThen(sent, lines, [step.packet], [step.line], RunOf(steps[seqId..]));
      sent, lines := sent + [step.packet], lines + [step.line];
      seqId := seqId + 1;
    }
    assert steps[seqId - 1..] == [];
    run := PingRun(sent, lines, None);
  }

  /**
   * With the signed sequence field a session longer than 32767 probes cannot finish:
   * if the first 32767 probes go on, the build for seq id 32768 raises struct.error,
   * which escapes ping.
   */
  lemma LongSessionCrashes(dest: Address, pid: nat, timeout: int, count: int, payloadSize: int,
                           sockets: seq<Socket>)
    requires count > 0x7fff && payloadSize >= EchoRequest.MIN_PAYLOAD_SIZE
    requires forall i :: 0 <= i < 0x7fff ==> StepAt(Signed, Identifier(pid), timeout, payloadSize, sockets, i).Continue?
    requires SocketAt(sockets, 0x7fff).Opened?
    ensures var run := PingSpec(Signed, Some(dest), pid, timeout, count, payloadSize, sockets);
      && run.crash == Some(StructError)
      && |run.lines| == |run.sent| == 0x7fff
  {
    var steps := Probes(Signed, Identifier(pid), timeout, payloadSize, sockets, count);
    RunPrefix(steps, 0x7fff);
    assert steps[0x7fff..][0] == steps[0x7fff];
    assert steps[0x7fff] == Stop(PingRun([], [], Some(StructError)));
  }
}
