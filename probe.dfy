/**
 * What one ping round trip and one ping session do, independent of the file that
 * implements them. The socket is replaced by the stream of what each readiness wait
 * (`select`) yields: either nothing (the wait ran out) or one datagram together with
 * the time the wait took, in integer ticks. A stream that is used up behaves as a
 * socket on which nothing more arrives.
 */
module Probe {
  import opened Wrappers
  import opened Bytes
  import opened Icmp
  import EchoRequest

  /** The dotted address string that `recvfrom` reports. */
  type Address = string

  datatype Event =
    | Silence                                                  // select returned nothing readable
    | Datagram(packet: seq<Byte>, addr: Address, waited: nat)  // recvfrom after `waited` ticks

  /** `(ip_payload_size, getfqdn(addr), addr, seq_num, ttl, time_spent)`; the name lookup and
      the elapsed time are not modelled, the embedded send timestamp is kept instead. */
  datatype EchoReply = EchoReply(ipPayloadSize: int, addr: Address, seqNum: int, ttl: Byte, sentStamp: seq<Byte>)

  /** Offsets in a received datagram: IPv4 header, ICMP header, ICMP payload. */
  const ICMP_OFFSET := 20
  const PAYLOAD_OFFSET := 28
  const STAMP_END := 36

  /** The ICMP header at bytes 20..27, decoded with the file's format. */
  function HeaderOf(fmt: Format, p: seq<Byte>): IcmpHeader
    requires |p| >= PAYLOAD_OFFSET
  {
    Unpack(fmt, p[ICMP_OFFSET..PAYLOAD_OFFSET]).value
  }

  /** The datagram is an Echo Reply carrying the caller's identifier. */
  predicate Answers(fmt: Format, p: seq<Byte>, id: int)
    requires |p| >= PAYLOAD_OFFSET
  {
    Function(HeaderOf(fmt, p)) == ECHO_REPLY && HeaderOf(fmt, p).id == id
  }

  /** The reply reported for an answering datagram. */
  function ReplyOf(fmt: Format, e: Event): EchoReply
    requires e.Datagram? && |e.packet| >= STAMP_END
  {
    EchoReply(|e.packet| - ICMP_OFFSET, e.addr, HeaderOf(fmt, e.packet).seqNum, e.packet[8],
              e.packet[PAYLOAD_OFFSET..STAMP_END])
  }

  /**
   * receive_one_ping: while time is left, wait; on silence give up; otherwise decode the
   * datagram (a short one raises struct.error, which is not caught) and return if it
   * answers, else deduct the wait and go on.
   */
  function ReplySpec(fmt: Format, events: seq<Event>, id: int, timeLeft: int): Result<EchoReply>
    decreases |events|
  {
    if timeLeft <= 0 || events == [] || events[0].Silence? then Err(TimeoutError)
    else
      var p := events[0].packet;
      if |p| < PAYLOAD_OFFSET then Err(StructError)
      else if Answers(fmt, p, id) then
        if |p| < STAMP_END then Err(StructError) else Ok(ReplyOf(fmt, events[0]))
      else ReplySpec(fmt, events[1..], id, timeLeft - events[0].waited)
  }

  /** Total ticks the waits of these events took. */
  function Waited(events: seq<Event>): nat
  {
    if events == [] then 0
    else (if events[0].Datagram? then events[0].waited else 0) + Waited(events[1..])
  }

  lemma WaitedCons(events: seq<Event>, k: nat)
    requires 0 < k <= |events| && events[0].Datagram?
    ensures Waited(events[..k]) == events[0].waited + Waited(events[1..][..k - 1])
  {
    assert events[..k][1..] == events[1..][..k - 1];
  }

  /** A datagram the loop skips: well-formed, but not an Echo Reply for this identifier. */
  predicate Skips(fmt: Format, e: Event, id: int)
  {
    e.Datagram? && |e.packet| >= PAYLOAD_OFFSET && !Answers(fmt, e.packet, id)
  }

  /** Every event before k is skipped, and the time they took leaves budget for event k. */
  predicate Reaches(fmt: Format, events: seq<Event>, id: int, timeLeft: int, k: nat)
  {
    && k <= |events|
    && (forall j :: 0 <= j < k ==> Skips(fmt, events[j], id))
    && Waited(events[..k]) < timeLeft
  }

  /** Event k is the first one that answers, and arrives while budget is left. */
  predicate FirstAnswer(fmt: Format, events: seq<Event>, id: int, timeLeft: int, k: nat)
  {
    && Reaches(fmt, events, id, timeLeft, k)
    && k < |events|
    && events[k].Datagram? && |events[k].packet| >= STAMP_END && Answers(fmt, events[k].packet, id)
  }

  /** A well-formed datagram that does not answer is skipped: the loop goes on with the rest of the stream, its wait deducted. */
  lemma ReplySkip(fmt: Format, events: seq<Event>, id: int, timeLeft: int)
    requires timeLeft > 0 && 0 < |events| && events[0].Datagram?
    requires |events[0].packet| >= PAYLOAD_OFFSET && !Answers(fmt, events[0].packet, id)
    ensures ReplySpec(fmt, events, id, timeLeft) == ReplySpec(fmt, events[1..], id, timeLeft - events[0].waited)
  {
  }

  /** Skipping a first datagram moves every position after it down by one. */
  lemma SkipShift(fmt: Format, events: seq<Event>, id: int, timeLeft: int, k: nat)
    requires 0 < k && 0 < |events| && Skips(fmt, events[0], id)
    ensures Reaches(fmt, events, id, timeLeft, k) <==> Reaches(fmt, events[1..], id, timeLeft - events[0].waited, k - 1)
    ensures FirstAnswer(fmt, events, id, timeLeft, k) <==> FirstAnswer(fmt, events[1..], id, timeLeft - events[0].waited, k - 1)
    ensures GivesUp(fmt, events, id, timeLeft, k) <==> GivesUp(fmt, events[1..], id, timeLeft - events[0].waited, k - 1)
  {
    if k <= |events| {
      WaitedCons(events, k);
    }
    assert forall j :: 0 <= j < |events| - 1 ==> events[1..][j] == events[j + 1];
  }

  /** Only the first answering datagram is returned. */
  lemma {:induction false} ReplyIsFirstAnswer(fmt: Format, events: seq<Event>, id: int, timeLeft: int)
    requires ReplySpec(fmt, events, id, timeLeft).Ok?
    ensures exists k: nat :: FirstAnswer(fmt, events, id, timeLeft, k)
                             && ReplySpec(fmt, events, id, timeLeft).value == ReplyOf(fmt, events[k])
    decreases |events|
  {
    var e := events[0];
    if Answers(fmt, e.packet, id) {
      assert events[..0] == [];
      assert FirstAnswer(fmt, events, id, timeLeft, 0);
    } else {
      var rest, left := events[1..], timeLeft - e.waited;
      assert Skips(fmt, e, id);
      assert ReplySpec(fmt, events, id, timeLeft) == ReplySpec(fmt, rest, id, left);
      ReplyIsFirstAnswer(fmt, rest, id, left);
      var k: nat :| FirstAnswer(fmt, rest, id, left, k) && ReplySpec(fmt, rest, id, left).value == ReplyOf(fmt, rest[k]);
      var k' := k + 1;
      SkipShift(fmt, events, id, timeLeft, k');
      assert k' - 1 == k;
      assert rest[k] == events[k'];
      assert FirstAnswer(fmt, events, id, timeLeft, k');
    }
  }

  /** The first answering datagram that arrives within budget is returned. */
  lemma {:induction false} FirstAnswerIsReturned(fmt: Format, events: seq<Event>, id: int, timeLeft: int, k: nat)
    requires FirstAnswer(fmt, events, id, timeLeft, k)
    ensures ReplySpec(fmt, events, id, timeLeft) == Ok(ReplyOf(fmt, events[k]))
    decreases k
  {
    if k > 0 {
      assert Skips(fmt, events[0], id);
      SkipShift(fmt, events, id, timeLeft, k);
      FirstAnswerIsReturned(fmt, events[1..], id, timeLeft - events[0].waited, k - 1);
      assert events[1..][k - 1] == events[k];
    } else {
      assert events[..0] == [];
    }
  }

  /** Why the loop gives up at event k: the stream ended, the wait was silent, or the budget is spent. */
  predicate GivesUp(fmt: Format, events: seq<Event>, id: int, timeLeft: int, k: nat)
  {
    && k <= |events|
    && (forall j :: 0 <= j < k ==> Skips(fmt, events[j], id))
    && (k == |events| || events[k].Silence? || Waited(events[..k]) >= timeLeft)
  }

  /** TimeoutError is raised exactly when only skipped datagrams arrive before silence or the end of the budget. */
  lemma {:induction false} TimeoutIffGivesUp(fmt: Format, events: seq<Event>, id: int, timeLeft: int)
    ensures ReplySpec(fmt, events, id, timeLeft) == Err(TimeoutError)
            <==> exists k: nat :: GivesUp(fmt, events, id, timeLeft, k)
    decreases |events|
  {
    assert events[..0] == [];
    if timeLeft <= 0 || events == [] || events[0].Silence? {
      assert GivesUp(fmt, events, id, timeLeft, 0);
    } else {
      var e := events[0];
      var rest, left := events[1..], timeLeft - e.waited;
      if Skips(fmt, e, id) {
        assert ReplySpec(fmt, events, id, timeLeft) == ReplySpec(fmt, rest, id, left);
        TimeoutIffGivesUp(fmt, rest, id, left);
        if ReplySpec(fmt, events, id, timeLeft) == Err(TimeoutError) {
          var k: nat :| GivesUp(fmt, rest, id, left, k);
          var k' := k + 1;
          SkipShift(fmt, events, id, timeLeft, k');
          assert k' - 1 == k;
          assert GivesUp(fmt, events, id, timeLeft, k');
        }
        if exists k: nat :: GivesUp(fmt, events, id, timeLeft, k) {
          var k: nat :| GivesUp(fmt, events, id, timeLeft, k);
          assert k > 0;
          SkipShift(fmt, events, id, timeLeft, k);
          assert GivesUp(fmt, rest, id, left, k - 1);
        }
      } else {
        assert forall k: nat :: !GivesUp(fmt, events, id, timeLeft, k);
      }
    }
  }

  /** A short datagram reached before any answer makes the exception escape the loop. */
  lemma {:induction false} ShortDatagramRaises(fmt: Format, events: seq<Event>, id: int, timeLeft: int, k: nat)
    requires Reaches(fmt, events, id, timeLeft, k) && k < |events|
    requires events[k].Datagram? && |events[k].packet| < PAYLOAD_OFFSET
    ensures ReplySpec(fmt, events, id, timeLeft) == Err(StructError)
    decreases k
  {
    if k > 0 {
      assert Skips(fmt, events[0], id);
      WaitedCons(events, k);
      assert forall j :: 0 <= j < k - 1 ==> events[1..][j] == events[j + 1];
      ShortDatagramRaises(fmt, events[1..], id, timeLeft - events[0].waited, k - 1);
    } else {
      assert events[..0] == [];
    }
  }

  /** A raw socket opened for one probe (or per hop): the clock readings taken when sending, and the stream. */
  datatype Socket = Denied | Opened(stamps: seq<Timestamp>, events: seq<Event>)

  /** Socket i of the run; sockets beyond the given ones receive nothing. */
  function SocketAt(sockets: seq<Socket>, i: nat): Socket
  {
    if i < |sockets| then sockets[i] else Opened([], [])
  }

  /** Clock reading i; readings beyond the given ones are all zero bytes. */
  function StampAt(stamps: seq<Timestamp>, i: nat): Timestamp
  {
    if i < |stamps| then stamps[i] else [0, 0, 0, 0, 0, 0, 0, 0]
  }

  /** `os.getpid() & 0xFFFF`. */
  function Identifier(pid: nat): (id: int)
    ensures 0 <= id <= 0xffff
    ensures id == pid <==> pid <= 0xffff
  {
    pid % 0x10000
  }

  /** One line that a ping session logs. */
  datatype PingLine =
    | Replied(reply: EchoReply)  // '%d bytes from %s (%s): icmp_seq=%d ttl=%d time=%0.1f ms'
    | TimedOut                   // the TimeoutError message
    | ResolveFailed              // the gaierror, logged once
    | MustBeSuperuser            // the PermissionError message

  /** What a session did: the packets it sent, the lines it logged, and the exception that escaped it, if any. */
  datatype PingRun = PingRun(sent: seq<seq<Byte>>, lines: seq<PingLine>, crash: Option<PyError>)

  function Then(sent: seq<seq<Byte>>, lines: seq<PingLine>, rest: PingRun): PingRun
  {
    PingRun(sent + rest.sent, lines + rest.lines, rest.crash)
  }

  /** The line logged for one probe's receive outcome, when the outcome is not fatal. */
  function LineOf(r: Result<EchoReply>): PingLine
  {
    if r.Ok? then Replied(r.value) else TimedOut
  }

  /** What one probe leads to: the session goes on after logging a line, or it stops here. */
  datatype Step = Continue(packet: seq<Byte>, line: PingLine) | Stop(last: PingRun)

  /**
   * One iteration of the probe loop: open a socket (PermissionError ends the run with a
   * message), build and send the Echo Request (its errors escape), then wait for the
   * reply (a timeout is logged, other errors escape).
   */
  function ProbeStep(fmt: Format, id: int, timeout: int, payloadSize: int, socket: Socket, seqId: int): Step
  {
    match socket
    case Denied => Stop(PingRun([], [MustBeSuperuser], None))
    case Opened(stamps, events) =>
      match EchoRequest.Build(fmt, id, seqId, payloadSize, StampAt(stamps, 0))
      case Err(e) => Stop(PingRun([], [], Some(e)))
      case Ok(packet) =>
        var r := ReplySpec(fmt, events, id, timeout);
        if r.Ok? || r.error == TimeoutError then Continue(packet, LineOf(r))
        else Stop(PingRun([packet], [], Some(r.error)))
  }

  /** Probe i of the run (seq id i + 1) uses socket i. */
  function StepAt(fmt: Format, id: int, timeout: int, payloadSize: int, sockets: seq<Socket>, i: nat): Step
  {
    ProbeStep(fmt, id, timeout, payloadSize, SocketAt(sockets, i), i + 1)
  }

  /** The steps of `for seq_id in range(1, count + 1)`. */
  function Probes(fmt: Format, id: int, timeout: int, payloadSize: int, sockets: seq<Socket>, count: int): (steps: seq<Step>)
    ensures |steps| == if count > 0 then count else 0
  {
    seq(if count > 0 then count else 0, i requires 0 <= i => StepAt(fmt, id, timeout, payloadSize, sockets, i))
  }

  /** The control flow of the probe loop: go on after each Continue, end at the first Stop. */
  function RunOf(steps: seq<Step>): PingRun
    decreases |steps|
  {
    if steps == [] then PingRun([], [], None)
    else match steps[0]
      case Continue(packet, line) => Then([packet], [line], RunOf(steps[1..]))
      case Stop(last) => last
  }

  /** RunOf unfolded at position i. */
  lemma RunOfAt(steps: seq<Step>, i: nat)
    requires i < |steps|
    ensures RunOf(steps[i..]) == if steps[i].Continue?
                                 then Then([steps[i].packet], [steps[i].line], RunOf(steps[i + 1..]))
                                 else steps[i].last
  {
    assert steps[i..][0] == steps[i];
    assert steps[i..][1..] == steps[i + 1..];
  }

  lemma ThenThen(sent: seq<seq<Byte>>, lines: seq<PingLine>, sent': seq<seq<Byte>>, lines': seq<PingLine>, rest: PingRun)
    ensures Then(sent, lines, Then(sent', lines', rest)) == Then(sent + sent', lines + lines', rest)
  {
    assert sent + (sent' + rest.sent) == sent + sent' + rest.sent;
    assert lines + (lines' + rest.lines) == lines + lines' + rest.lines;
  }

  /** `ping`: resolve once (gaierror is logged and ends the run), then probe seq ids 1..count. */
  function PingSpec(fmt: Format, dest: Option<Address>, pid: nat, timeout: int, count: int,
                    payloadSize: int, sockets: seq<Socket>): PingRun
  {
    if dest.None? then PingRun([], [ResolveFailed], None)
    else RunOf(Probes(fmt, Identifier(pid), timeout, payloadSize, sockets, count))
  }

  /** The packets a probe step sends. */
  function StepSent(step: Step): seq<seq<Byte>>
  {
    if step.Continue? then [step.packet] else step.last.sent
  }

  /** An Echo Request of the given size with the identifier and this seq id in its header. */
  predicate IsProbe(fmt: Format, id: int, payloadSize: int, seqId: int, p: seq<Byte>)
  {
    && |p| >= 8
    && |p| == 8 + payloadSize
    && Unpack(fmt, p[..8]).Ok?
    && Function(Unpack(fmt, p[..8]).value) == ECHO_REQUEST
    && Unpack(fmt, p[..8]).value.id == id
    && Unpack(fmt, p[..8]).value.seqNum == seqId
  }

  /** A probe sends at most one packet, the Echo Request for its own seq id. */
  lemma StepSendsProbe(fmt: Format, id: int, timeout: int, payloadSize: int, socket: Socket, seqId: int)
    ensures var sent := StepSent(ProbeStep(fmt, id, timeout, payloadSize, socket, seqId));
      && |sent| <= 1
      && forall i :: 0 <= i < |sent| ==> IsProbe(fmt, id, payloadSize, seqId, sent[i])
  {
    SentByStep(fmt, id, timeout, payloadSize, socket, seqId);
    if socket.Opened? {
      var stamp := StampAt(socket.stamps, 0);
      if EchoRequest.Build(fmt, id, seqId, payloadSize, stamp).Ok? {
        EchoRequest.BuildLayout(fmt, id, seqId, payloadSize, stamp);
      }
    }
  }

  /** The packet a step sends is the one it built, and nothing is sent when the socket or the build fails. */
  lemma SentByStep(fmt: Format, id: int, timeout: int, payloadSize: int, socket: Socket, seqId: int)
    ensures StepSent(ProbeStep(fmt, id, timeout, payloadSize, socket, seqId))
            == if socket.Opened? && EchoRequest.Build(fmt, id, seqId, payloadSize, StampAt(socket.stamps, 0)).Ok?
               then [EchoRequest.Build(fmt, id, seqId, payloadSize, StampAt(socket.stamps, 0)).value]
               else []
  {
    match socket
    case Denied =>
    case Opened(stamps, events) =>
      var build := EchoRequest.Build(fmt, id, seqId, payloadSize, StampAt(stamps, 0));
      if build.Ok? {
        var r := ReplySpec(fmt, events, id, timeout);
        assert StepSent(ProbeStep(fmt, id, timeout, payloadSize, socket, seqId)) == [build.value];
      }
  }

  /** Each step that sends one packet contributes it in order, and the run sends nothing else. */
  lemma {:induction false} RunSent(steps: seq<Step>)
    requires forall i :: 0 <= i < |steps| ==> |StepSent(steps[i])| <= 1
    ensures |RunOf(steps).sent| <= |steps|
    ensures forall i :: 0 <= i < |RunOf(steps).sent| ==> StepSent(steps[i]) == [RunOf(steps).sent[i]]
    decreases |steps|
  {
    if steps != [] && steps[0].Continue? {
      var rest := steps[1..];
      assert forall i :: 0 <= i < |rest| ==> rest[i] == steps[i + 1];
      RunSent(rest);
      var run := RunOf(steps);
      assert run.sent == [steps[0].packet] + RunOf(rest).sent;
      forall i | 0 <= i < |run.sent|
        ensures StepSent(steps[i]) == [run.sent[i]]
      {
        if i > 0 {
          assert run.sent[i] == RunOf(rest).sent[i - 1];
        }
      }
    } else if steps != [] {
      assert StepSent(steps[0]) == RunOf(steps).sent;
    }
  }

  /**
   * While steps go on, the run goes on: after k steps that all continue, their lines
   * have been logged in order, and the rest of the run is that of the remaining steps.
   */
  lemma {:induction false} RunPrefix(steps: seq<Step>, k: nat)
    requires k <= |steps|
    requires forall i :: 0 <= i < k ==> steps[i].Continue?
    ensures var run, tail := RunOf(steps), RunOf(steps[k..]);
      && |run.sent| == k + |tail.sent|
      && |run.lines| == k + |tail.lines|
      && run.lines[k..] == tail.lines
      && run.crash == tail.crash
      && forall i :: 0 <= i < k ==> run.lines[i] == steps[i].line
    decreases k
  {
    if k > 0 {
      var rest := steps[1..];
      assert forall i :: 0 <= i < |rest| ==> rest[i] == steps[i + 1];
      assert rest[k - 1..] == steps[k..];
      RunPrefix(rest, k - 1);
      var run, next := RunOf(steps), RunOf(rest);
      assert run.lines == [steps[0].line] + next.lines;
      assert run.lines[k..] == next.lines[k - 1..];
      forall i | 0 <= i < k
        ensures run.lines[i] == steps[i].line
      {
        if i > 0 {
          assert run.lines[i] == next.lines[i - 1];
        }
      }
    } else {
      assert steps[0..] == steps;
    }
  }

  /**
   * Packet i of a session is the Echo Request for seq id i + 1: probes go out in
   * increasing order, one per seq id, never more than count.
   */
  lemma ProbesInOrder(fmt: Format, dest: Address, pid: nat, timeout: int, count: int,
                      payloadSize: int, sockets: seq<Socket>)
    ensures var run := PingSpec(fmt, Some(dest), pid, timeout, count, payloadSize, sockets);
      && |run.sent| <= (if count > 0 then count else 0)
      && forall i :: 0 <= i < |run.sent| ==> IsProbe(fmt, Identifier(pid), payloadSize, i + 1, run.sent[i])
  {
    var id := Identifier(pid);
    var steps := Probes(fmt, id, timeout, payloadSize, sockets, count);
    forall i | 0 <= i < |steps|
      ensures |StepSent(steps[i])| <= 1
      ensures forall j :: 0 <= j < |StepSent(steps[i])| ==> IsProbe(fmt, id, payloadSize, i + 1, StepSent(steps[i])[j])
    {
      StepSendsProbe(fmt, id, timeout, payloadSize, SocketAt(sockets, i), i + 1);
    }
    RunSent(steps);
    var run := RunOf(steps);
    forall i | 0 <= i < |run.sent|
      ensures IsProbe(fmt, id, payloadSize, i + 1, run.sent[i])
    {
      assert StepSent(steps[i]) == [run.sent[i]];
      assert StepSent(steps[i])[0] == run.sent[i];
    }
  }

  /** A probe whose socket opens, whose packet builds, and whose receive does not fail logs its outcome and goes on. */
  lemma ProbeGoesOn(fmt: Format, id: int, timeout: int, payloadSize: int, socket: Socket, seqId: int)
    requires socket.Opened?
    requires payloadSize >= EchoRequest.MIN_PAYLOAD_SIZE && payloadSize % 2 == 0 && EchoRequest.IdsFit(fmt, id, seqId)
    requires ReplySpec(fmt, socket.events, id, timeout).Ok? || ReplySpec(fmt, socket.events, id, timeout) == Err(TimeoutError)
    ensures ProbeStep(fmt, id, timeout, payloadSize, socket, seqId)
            == Continue(EchoRequest.Build(fmt, id, seqId, payloadSize, StampAt(socket.stamps, 0)).value,
                        LineOf(ReplySpec(fmt, socket.events, id, timeout)))
  {
  }

  /**
   * A TimeoutError is logged and the loop goes on: a run in which every probe replies or
   * times out logs exactly count lines, one per seq id in order, and ends normally.
   */
  lemma TimeoutsAreNotFatal(fmt: Format, dest: Address, pid: nat, timeout: int, count: nat,
                            payloadSize: int, sockets: seq<Socket>)
    requires payloadSize >= EchoRequest.MIN_PAYLOAD_SIZE && payloadSize % 2 == 0
    requires forall s :: 1 <= s <= count ==> EchoRequest.IdsFit(fmt, Identifier(pid), s)
    requires forall i :: 0 <= i < count ==> SocketAt(sockets, i).Opened?
    requires forall i :: 0 <= i < count ==>
               var r := ReplySpec(fmt, SocketAt(sockets, i).events, Identifier(pid), timeout);
               r.Ok? || r == Err(TimeoutError)
    ensures var run := PingSpec(fmt, Some(dest), pid, timeout, count, payloadSize, sockets);
      && run.crash == None
      && |run.sent| == |run.lines| == count
      && forall i :: 0 <= i < count ==>
           run.lines[i] == LineOf(ReplySpec(fmt, SocketAt(sockets, i).events, Identifier(pid), timeout))
  {
    var id := Identifier(pid);
    var steps := Probes(fmt, id, timeout, payloadSize, sockets, count);
    forall i | 0 <= i < count
      ensures steps[i].Continue?
      ensures steps[i].line == LineOf(ReplySpec(fmt, SocketAt(sockets, i).events, id, timeout))
    {
      var socket := SocketAt(sockets, i);
      assert EchoRequest.IdsFit(fmt, id, i + 1);
      assert steps[i] == ProbeStep(fmt, id, timeout, payloadSize, socket, i + 1);
      ProbeGoesOn(fmt, id, timeout, payloadSize, socket, i + 1);
    }
    RunPrefix(steps, count);
    assert steps[count..] == [];
    assert RunOf(steps[count..]) == PingRun([], [], None);
  }

  /** PermissionError on the socket of probe k ends the whole run after one message. */
  lemma PermissionEndsRun(fmt: Format, dest: Address, pid: nat, timeout: int, count: int,
                          payloadSize: int, sockets: seq<Socket>, k: nat)
    requires k < count
    requires forall i :: 0 <= i < k ==> StepAt(fmt, Identifier(pid), timeout, payloadSize, sockets, i).Continue?
    requires SocketAt(sockets, k).Denied?
    ensures var run := PingSpec(fmt, Some(dest), pid, timeout, count, payloadSize, sockets);
      && run.crash == None
      && |run.sent| == k
      && |run.lines| == k + 1
      && run.lines[k] == MustBeSuperuser
  {
    var steps := Probes(fmt, Identifier(pid), timeout, payloadSize, sockets, count);
    RunPrefix(steps, k);
    assert steps[k..][0] == steps[k];
  }
}
