/**
 * utils/tracert.py: for each ttl from first_ttl to max_hops one socket is opened and
 * three Echo Requests are sent on it; a Time Exceeded message names the router at that
 * distance, an Echo Reply carrying the caller's identifier ends the trace. The three
 * sub-probes of a hop read one socket, so each receive goes on with the stream that the
 * previous one left.
 */
module Tracert {
  import opened Wrappers
  import opened Bytes
  import opened Icmp
  import opened Probe
  import EchoRequest
  import Ping

  /** `payload_size = 60`. */
  const PAYLOAD_SIZE := 60

  /** `range(1, 4)`: sub-probes per hop. */
  const SUB_PROBES := 3

  /** `(getfqdn(addr), addr, time_spent, trace_end)`, with the embedded send timestamp in place of time_spent. */
  datatype HopReply = HopReply(addr: Address, stamp: Option<seq<Byte>>, traceEnd: bool)

  predicate TimeExceeded(p: seq<Byte>)
    requires |p| >= PAYLOAD_OFFSET
  {
    Function(HeaderOf(Unsigned, p)) == TTL_EXCEEDED
  }

  /** receive_one_tracert returns for any Time Exceeded message, and for an Echo Reply with this identifier. */
  predicate Accepts(p: seq<Byte>, pid: int)
    requires |p| >= PAYLOAD_OFFSET
  {
    TimeExceeded(p) || Answers(Unsigned, p, pid)
  }

  /** The 8 bytes after an ICMP header of a quoted packet, when the quote is long enough to hold them. */
  function StampOfQuote(quote: seq<Byte>): Option<seq<Byte>>
  {
    if |quote| >= STAMP_END then Some(quote[PAYLOAD_OFFSET..STAMP_END]) else None
  }

  /**
   * The timestamp of the probe quoted in a Time Exceeded message: the quote is parsed as
   * a ping packet and its first 8 payload bytes are read; struct.error gives None.
   */
  function QuotedStamp(quote: seq<Byte>): (s: Option<seq<Byte>>)
    ensures s == StampOfQuote(quote)
  {
    match Ping.ParsePingPacket(Buffer(quote))
    case Err(_) => None
    case Ok(parsed) =>
      var timeSent := Slice(parsed.payload, 0, 8);
      assert parsed.payload == quote[PAYLOAD_OFFSET..];
      if |timeSent| == 8 then
        assert timeSent == quote[PAYLOAD_OFFSET..STAMP_END];
        Some(timeSent)
      else None
  }

  /** The tuple returned for an accepted datagram. */
  function HopReplyOf(e: Event, pid: int): HopReply
    requires e.Datagram? && |e.packet| >= PAYLOAD_OFFSET
    requires TimeExceeded(e.packet) || |e.packet| >= STAMP_END
  {
    if TimeExceeded(e.packet) then HopReply(e.addr, StampOfQuote(e.packet[PAYLOAD_OFFSET..]), false)
    else HopReply(e.addr, Some(e.packet[PAYLOAD_OFFSET..STAMP_END]), true)
  }

  /**
   * receive_one_tracert over the stream, together with what is left of the stream.
   * Time Exceeded is tested before Echo Reply; a short datagram raises struct.error.
   */
  function TracertSpec(events: seq<Event>, pid: int, timeLeft: int): (Result<HopReply>, seq<Event>)
    decreases |events|
  {
    if timeLeft <= 0 then (Err(TimeoutError), events)
    else if events == [] then (Err(TimeoutError), [])
    else if events[0].Silence? then (Err(TimeoutError), events[1..])
    else
      var e := events[0];
      var p := e.packet;
      if |p| < PAYLOAD_OFFSET then (Err(StructError), events[1..])
      else if TimeExceeded(p) then (Ok(HopReplyOf(e, pid)), events[1..])
      else if Answers(Unsigned, p, pid) then
        if |p| < STAMP_END then (Err(StructError), events[1..]) else (Ok(HopReplyOf(e, pid)), events[1..])
      else TracertSpec(events[1..], pid, timeLeft - e.waited)
  }

  /** receive_one_tracert: the same loop as receive_one_ping with the two tests of utils/tracert.py. */
  method ReceiveOneTracert(events: seq<Event>, pid: int, timeout: int) returns (r: Result<HopReply>, rest: seq<Event>)
    ensures (r, rest) == TracertSpec(events, pid, timeout)
  {
    var timeLeft := timeout;
    var k := 0;
    while timeLeft > 0
      invariant 0 <= k <= |events|
      invariant TracertSpec(events[k..], pid, timeLeft) == TracertSpec(events, pid, timeout)
      decreases |events| - k
    {
      if k == |events| {
        return Err(TimeoutError), [];
      }
      assert events[k..][1..] == events[k + 1..];
      if events[k].Silence? {
        return Err(TimeoutError), events[k + 1..];
      }
      var e := events[k];
      timeLeft := timeLeft - e.waited;
      k := k + 1;
      var parsed := Ping.ParsePingPacket(Buffer(e.packet));
      if parsed.Err? {
        return Err(parsed.error), events[k..];
      }
      var icmp := parsed.value.icmp;
      if Function(icmp) == TTL_EXCEEDED {
        return Ok(HopReply(e.addr, QuotedStamp(parsed.value.payload), false)), events[k..];
      }
      if Function(icmp) == ECHO_REPLY && pid == icmp.id {
        var timeSent := Slice(parsed.value.payload, 0, 8);
        if |timeSent| != 8 {
          return Err(StructError), events[k..];
        }
        assert |e.packet| >= STAMP_END && timeSent == e.packet[PAYLOAD_OFFSET..STAMP_END];
        return Ok(HopReply(e.addr, Some(timeSent), true)), events[k..];
      }
    }
    r, rest := Err(TimeoutError), events[k..];
  }

  /** A datagram the tracert loop skips: well-formed, neither Time Exceeded nor an Echo Reply for pid. */
  predicate TraceSkips(e: Event, pid: int)
  {
    e.Datagram? && |e.packet| >= PAYLOAD_OFFSET && !Accepts(e.packet, pid)
  }

  /** Event k is the first accepted datagram, it arrives within budget, and it is long enough to be returned. */
  predicate FirstAccepted(events: seq<Event>, pid: int, timeLeft: int, k: nat)
  {
    && k < |events|
    && (forall j :: 0 <= j < k ==> TraceSkips(events[j], pid))
    && Waited(events[..k]) < timeLeft
    && events[k].Datagram? && |events[k].packet| >= PAYLOAD_OFFSET && Accepts(events[k].packet, pid)
    && (TimeExceeded(events[k].packet) || |events[k].packet| >= STAMP_END)
  }

  /** A skipped datagram leaves the receive to the rest of the stream, its wait deducted. */
  lemma TraceSkip(events: seq<Event>, pid: int, timeLeft: int)
    requires timeLeft > 0 && 0 < |events| && TraceSkips(events[0], pid)
    ensures TracertSpec(events, pid, timeLeft) == TracertSpec(events[1..], pid, timeLeft - events[0].waited)
  {
  }

  /** Skipping a first datagram moves the first accepted one down by one place. */
  lemma FirstAcceptedShift(events: seq<Event>, pid: int, timeLeft: int, k: nat)
    requires 0 < k && 0 < |events| && TraceSkips(events[0], pid)
    ensures FirstAccepted(events, pid, timeLeft, k) <==> FirstAccepted(events[1..], pid, timeLeft - events[0].waited, k - 1)
  {
    if k <= |events| {
      WaitedCons(events, k);
    }
    assert forall j :: 0 <= j < |events| - 1 ==> events[1..][j] == events[j + 1];
  }

  /** The first accepted datagram within budget is returned, and the stream goes on after it. */
  lemma {:induction false} FirstAcceptedIsReturned(events: seq<Event>, pid: int, timeLeft: int, k: nat)
    requires FirstAccepted(events, pid, timeLeft, k)
    ensures TracertSpec(events, pid, timeLeft) == (Ok(HopReplyOf(events[k], pid)), events[k + 1..])
    decreases k
  {
    if k > 0 {
      assert TraceSkips(events[0], pid);
      FirstAcceptedShift(events, pid, timeLeft, k);
      FirstAcceptedIsReturned(events[1..], pid, timeLeft - events[0].waited, k - 1);
      assert events[1..][k - 1] == events[k];
      assert events[1..][k - 1 + 1..] == events[k + 1..];
    } else {
      assert events[..0] == [];
    }
  }

  /** Only the first accepted datagram is returned: a reply ends the trace exactly when it is an Echo Reply for pid. */
  lemma {:induction false} ReplyIsFirstAccepted(events: seq<Event>, pid: int, timeLeft: int)
    requires TracertSpec(events, pid, timeLeft).0.Ok?
    ensures exists k: nat :: FirstAccepted(events, pid, timeLeft, k)
                             && TracertSpec(events, pid, timeLeft).0.value == HopReplyOf(events[k], pid)
                             && TracertSpec(events, pid, timeLeft).1 == events[k + 1..]
    decreases |events|
  {
    var e := events[0];
    if Accepts(e.packet, pid) {
      assert events[..0] == [];
      assert FirstAccepted(events, pid, timeLeft, 0);
    } else {
      var rest, left := events[1..], timeLeft - e.waited;
      assert TraceSkips(e, pid);
      TraceSkip(events, pid, timeLeft);
      ReplyIsFirstAccepted(rest, pid, left);
      var k: nat :| FirstAccepted(rest, pid, left, k) && TracertSpec(rest, pid, left).0.value == HopReplyOf(rest[k], pid)
                    && TracertSpec(rest, pid, left).1 == rest[k + 1..];
      var k' := k + 1;
      FirstAcceptedShift(events, pid, timeLeft, k');
      assert k' - 1 == k;
      assert rest[k] == events[k'];
      assert rest[k + 1..] == events[k' + 1..];
      assert FirstAccepted(events, pid, timeLeft, k');
    }
  }

  /** Every event before k is skipped by the tracert loop, and the time they took leaves budget for event k. */
  predicate TraceReaches(events: seq<Event>, pid: int, timeLeft: int, k: nat)
  {
    && k <= |events|
    && (forall j :: 0 <= j < k ==> TraceSkips(events[j], pid))
    && Waited(events[..k]) < timeLeft
  }

  /** Why the tracert loop gives up at event k: the stream ended, the wait was silent, or the budget is spent. */
  predicate TraceGivesUp(events: seq<Event>, pid: int, timeLeft: int, k: nat)
  {
    && k <= |events|
    && (forall j :: 0 <= j < k ==> TraceSkips(events[j], pid))
    && (k == |events| || events[k].Silence? || Waited(events[..k]) >= timeLeft)
  }

  /** Skipping a first datagram moves every position after it down by one. */
  lemma TraceSkipShift(events: seq<Event>, pid: int, timeLeft: int, k: nat)
    requires 0 < k && 0 < |events| && TraceSkips(events[0], pid)
    ensures TraceReaches(events, pid, timeLeft, k) <==> TraceReaches(events[1..], pid, timeLeft - events[0].waited, k - 1)
    ensures TraceGivesUp(events, pid, timeLeft, k) <==> TraceGivesUp(events[1..], pid, timeLeft - events[0].waited, k - 1)
  {
    if k <= |events| {
      WaitedCons(events, k);
    }
    assert forall j :: 0 <= j < |events| - 1 ==> events[1..][j] == events[j + 1];
  }

  /** TimeoutError is raised exactly when only skipped datagrams arrive before silence, the end of the stream or the end of the budget. */
  lemma {:induction false} TracertTimeoutIffGivesUp(events: seq<Event>, pid: int, timeLeft: int)
    ensures TracertSpec(events, pid, timeLeft).0 == Err(TimeoutError)
            <==> exists k: nat :: TraceGivesUp(events, pid, timeLeft, k)
    decreases |events|
  {
    assert events[..0] == [];
    if timeLeft <= 0 || events == [] || events[0].Silence? {
      assert TraceGivesUp(events, pid, timeLeft, 0);
    } else {
      var e := events[0];
      var rest, left := events[1..], timeLeft - e.waited;
      if TraceSkips(e, pid) {
        TraceSkip(events, pid, timeLeft);
        TracertTimeoutIffGivesUp(rest, pid, left);
        if TracertSpec(events, pid, timeLeft).0 == Err(TimeoutError) {
          var k: nat :| TraceGivesUp(rest, pid, left, k);
          var k' := k + 1;
          TraceSkipShift(events, pid, timeLeft, k');
          assert k' - 1 == k;
          assert TraceGivesUp(events, pid, timeLeft, k');
        }
        if exists k: nat :: TraceGivesUp(events, pid, timeLeft, k) {
          var k: nat :| TraceGivesUp(events, pid, timeLeft, k);
          assert k > 0;
          TraceSkipShift(events, pid, timeLeft, k);
          assert TraceGivesUp(rest, pid, left, k - 1);
        }
      } else {
        assert forall k: nat :: !TraceGivesUp(events, pid, timeLeft, k);
      }
    }
  }

  /** A datagram too short to parse, reached before any accepted one, makes struct.error escape; the stream goes on after it. */
  lemma {:induction false} TracertShortDatagramRaises(events: seq<Event>, pid: int, timeLeft: int, k: nat)
    requires TraceReaches(events, pid, timeLeft, k) && k < |events|
    requires events[k].Datagram? && |events[k].packet| < PAYLOAD_OFFSET
    ensures TracertSpec(events, pid, timeLeft) == (Err(StructError), events[k + 1..])
    decreases k
  {
    if k > 0 {
      assert TraceSkips(events[0], pid);
      TraceSkipShift(events, pid, timeLeft, k);
      TracertShortDatagramRaises(events[1..], pid, timeLeft - events[0].waited, k - 1);
      assert events[1..][k - 1] == events[k];
      assert events[1..][k - 1 + 1..] == events[k + 1..];
    } else {
      assert events[..0] == [];
    }
  }

  /** Time Exceeded messages are taken without an identifier check: with no Echo Reply in the stream, pid changes nothing. */
  lemma {:induction false} PidOnlyMattersForEchoReplies(events: seq<Event>, pid: int, pid': int, timeLeft: int)
    requires forall j :: 0 <= j < |events| && events[j].Datagram? && |events[j].packet| >= PAYLOAD_OFFSET ==>
               Function(HeaderOf(Unsigned, events[j].packet)) != ECHO_REPLY
    ensures TracertSpec(events, pid, timeLeft) == TracertSpec(events, pid', timeLeft)
    decreases |events|
  {
    if timeLeft > 0 && events != [] && events[0].Datagram? {
      assert forall j :: 0 <= j < |events| - 1 ==> events[1..][j] == events[j + 1];
      PidOnlyMattersForEchoReplies(events[1..], pid, pid', timeLeft - events[0].waited);
    }
  }

  /** A receive consumes a prefix of the stream. */
  lemma {:induction false} TracertConsumes(events: seq<Event>, pid: int, timeLeft: int)
    ensures var rest := TracertSpec(events, pid, timeLeft).1;
      |rest| <= |events| && rest == events[|events| - |rest|..]
    decreases |events|
  {
    if timeLeft > 0 && events != [] && events[0].Datagram? {
      TracertConsumes(events[1..], pid, timeLeft - events[0].waited);
    }
  }

  /** One entry of `latency`: '%0.1f ms', '?' when time_spent is None, '*' on timeout. */
  datatype Latency = Measured(stamp: seq<Byte>) | Unknown | NoReply

  /** The variables of _traceroute, the packets sent, the rest of the stream, and the exception that escaped. */
  datatype HopState = HopState(sent: seq<seq<Byte>>, source: Option<Address>, latency: seq<Latency>,
                               traceEnd: bool, events: seq<Event>, crash: Option<PyError>)

  function LatencyOf(stamp: Option<seq<Byte>>): Latency
  {
    if stamp.Some? then Measured(stamp.value) else Unknown
  }

  /** The packet send_one_tracert builds for sub-probe i + 1 (send_one_ping of utils/ping.py). */
  function SubProbe(pid: int, stamps: seq<Timestamp>, i: nat): Result<seq<Byte>>
  {
    Ping.GeneratePingIpPayload(pid, i + 1, PAYLOAD_SIZE, StampAt(stamps, i))
  }

  /** The packets for sub-probes 1, 2, 3. */
  function SubProbes(pid: int, stamps: seq<Timestamp>): (builds: seq<Result<seq<Byte>>>)
    ensures |builds| == SUB_PROBES
  {
    seq(SUB_PROBES, i requires 0 <= i => SubProbe(pid, stamps, i))
  }

  /** One iteration of the _traceroute loop: send the sub-probe built as `build`, then receive. */
  function HopProbe(st: HopState, pid: int, timeout: int, build: Result<seq<Byte>>): HopState
  {
    match build
    case Err(e) => st.(crash := Some(e))
    case Ok(packet) =>
      var (r, rest) := TracertSpec(st.events, pid, timeout);
      var st' := st.(sent := st.sent + [packet], events := rest);
      if r.Ok? then
        st'.(source := Some(r.value.addr), latency := st.latency + [LatencyOf(r.value.stamp)], traceEnd := r.value.traceEnd)
      else if r.error == TimeoutError then st'.(latency := st.latency + [NoReply])
      else st'.(crash := Some(r.error))
  }

  /** The state of _traceroute after its first n sub-probes; an escaped exception ends the loop. */
  function HopAfter(pid: int, timeout: int, builds: seq<Result<seq<Byte>>>, events: seq<Event>, n: nat): HopState
    requires n <= |builds|
    decreases n
  {
    if n == 0 then HopState([], None, [], false, events, None)
    else
      var st := HopAfter(pid, timeout, builds, events, n - 1);
      if st.crash.Some? then st else HopProbe(st, pid, timeout, builds[n - 1])
  }

  /** Once an exception has escaped, further sub-probes change nothing. */
  lemma CrashStep(pid: int, timeout: int, builds: seq<Result<seq<Byte>>>, events: seq<Event>, n: nat, next: nat)
    requires next == n + 1 && next <= |builds| && HopAfter(pid, timeout, builds, events, n).crash.Some?
    ensures HopAfter(pid, timeout, builds, events, next) == HopAfter(pid, timeout, builds, events, n)
  {
  }

  lemma {:induction false} CrashSticks(pid: int, timeout: int, builds: seq<Result<seq<Byte>>>, events: seq<Event>, n: nat, m: nat)
    requires n <= m <= |builds| && HopAfter(pid, timeout, builds, events, n).crash.Some?
    ensures HopAfter(pid, timeout, builds, events, m) == HopAfter(pid, timeout, builds, events, n)
    decreases m
  {
    if n < m {
      var k := m - 1;
      CrashSticks(pid, timeout, builds, events, n, k);
      CrashStep(pid, timeout, builds, events, k, m);
    }
  }

  /** The state _traceroute ends in on a socket: all its sub-probes, unless one escapes. */
  function HopOf(pid: int, timeout: int, stamps: seq<Timestamp>, events: seq<Event>): HopState
  {
    var builds := SubProbes(pid, stamps);
    HopAfter(pid, timeout, builds, events, |builds|)
  }

  /** _traceroute on the hop's socket: three sub-probes, seq ids 1, 2, 3. */
  method TraceHop(pid: int, timeout: int, stamps: seq<Timestamp>, events: seq<Event>) returns (st: HopState)
    ensures st == HopOf(pid, timeout, stamps, events)
  {
    ghost var builds := SubProbes(pid, stamps);
    var source: Option<Address> := None;
    var latency: seq<Latency> := [];
    var traceEnd := false;
    var sent: seq<seq<Byte>> := [];
    var rest := events;
    var i := 0;
    while i < 3
      invariant 0 <= i <= 3
      invariant HopAfter(pid, timeout, builds, events, i) == HopState(sent, source, latency, traceEnd, rest, None)
    {
      var seqId := i + 1;
      var packet := Ping.GeneratePingIpPayload(pid, seqId, PAYLOAD_SIZE, StampAt(stamps, i));
      assert packet == SubProbe(pid, stamps, i) == builds[i];
      ghost var prev := HopState(sent, source, latency, traceEnd, rest, None);
      var next := i + 1;
      HopStep(pid, timeout, builds, events, i, next);
      if packet.Err? {
        st := HopState(sent, source, latency, traceEnd, rest, Some(packet.error));
        CrashSticks(pid, timeout, builds, events, next, |builds|);
        return;
      }
      sent := sent + [packet.value];
      var r, rest' := ReceiveOneTracert(rest, pid, timeout);
      rest := rest';
      if r.Ok? {
        source := Some(r.value.addr);
        latency := latency + [if r.value.stamp.Some? then Measured(r.value.stamp.value) else Unknown];
        traceEnd := r.value.traceEnd;
      } else if r.error == TimeoutError {
        latency := latency + [NoReply];
      } else {
        st := HopState(sent, source, latency, traceEnd, rest, Some(r.error));
        assert HopAfter(pid, timeout, builds, events, next) == st;
        CrashSticks(pid, timeout, builds, events, next, |builds|);
        return;
      }
      assert HopProbe(prev, pid, timeout, packet) == HopState(sent, source, latency, traceEnd, rest, None);
      i := next;
    }
    st := HopState(sent, source, latency, traceEnd, rest, None);
  }

  /** Reference definitions: the receive outcomes of n sub-probes threaded through one stream. */
  function Outcomes(pid: int, timeout: int, events: seq<Event>, n: nat): (seq<Result<HopReply>>, seq<Event>)
    decreases n
  {
    if n == 0 then ([], events)
    else
      var (rs, rest) := Outcomes(pid, timeout, events, n - 1);
      var (r, rest') := TracertSpec(rest, pid, timeout);
      (rs + [r], rest')
  }

  /** The last reply among the outcomes, if any. */
  function LastReply(rs: seq<Result<HopReply>>): (last: Option<HopReply>)
    ensures last.None? <==> forall i :: 0 <= i < |rs| ==> rs[i].Err?
    ensures last.Some? ==> exists i :: 0 <= i < |rs| && rs[i] == Ok(last.value)
    ensures forall i :: 0 <= i < |rs| && rs[i].Ok? && FailedAfter(rs, i) ==> last == Some(rs[i].value)
    decreases |rs|
  {
    if rs == [] then None
    else if rs[|rs| - 1].Ok? then Some(rs[|rs| - 1].value)
    else
      var init := rs[..|rs| - 1];
      assert forall i :: 0 <= i < |init| && FailedAfter(rs, i) ==> FailedAfter(init, i);
      LastReply(init)
  }

  /** Every outcome after position i failed. */
  predicate FailedAfter(rs: seq<Result<HopReply>>, i: nat)
  {
    forall j :: i < j < |rs| ==> rs[j].Err?
  }

  function LatencyFor(r: Result<HopReply>): Latency
  {
    if r.Ok? then LatencyOf(r.value.stamp) else NoReply
  }

  /**
   * What _traceroute's variables hold after the receive outcomes rs: one latency entry
   * per outcome ('*' for a timeout), no other error among them, and source and
   * trace_end taken from the last reply (None and False when there was none).
   */
  predicate Aggregated(st: HopState, rs: seq<Result<HopReply>>)
  {
    && |st.latency| == |rs| && |st.sent| == |rs|
    && (forall i :: 0 <= i < |rs| ==> rs[i].Ok? || rs[i] == Err(TimeoutError))
    && (forall i :: 0 <= i < |rs| ==> st.latency[i] == LatencyFor(rs[i]))
    && st.source == (if LastReply(rs).Some? then Some(LastReply(rs).value.addr) else None)
    && st.traceEnd == (LastReply(rs).Some? && LastReply(rs).value.traceEnd)
  }

  /** One more receive outcome r, recorded as the loop body records it, keeps the variables aggregated. */
  lemma AggregatedStep(prev: HopState, st: HopState, prs: seq<Result<HopReply>>, r: Result<HopReply>)
    requires Aggregated(prev, prs)
    requires r.Ok? || r == Err(TimeoutError)
    requires |st.sent| == |prev.sent| + 1
    requires st.latency == prev.latency + [LatencyFor(r)]
    requires st.source == (if r.Ok? then Some(r.value.addr) else prev.source)
    requires st.traceEnd == (if r.Ok? then r.value.traceEnd else prev.traceEnd)
    ensures Aggregated(st, prs + [r])
  {
    var rs := prs + [r];
    assert rs[..|rs| - 1] == prs;
    assert LastReply(rs) == if r.Ok? then Some(r.value) else LastReply(prs);
    forall i | 0 <= i < |rs|
      ensures rs[i].Ok? || rs[i] == Err(TimeoutError)
      ensures st.latency[i] == LatencyFor(rs[i])
    {
      if i < |prs| {
        assert rs[i] == prs[i];
        assert st.latency[i] == prev.latency[i];
      }
    }
  }

  /** HopAfter one sub-probe further, with the successor index given. */
  lemma HopStep(pid: int, timeout: int, builds: seq<Result<seq<Byte>>>, events: seq<Event>, n: nat, next: nat)
    requires next == n + 1 && next <= |builds|
    ensures var prev := HopAfter(pid, timeout, builds, events, n);
      HopAfter(pid, timeout, builds, events, next) == if prev.crash.Some? then prev else HopProbe(prev, pid, timeout, builds[n])
  {
  }

  /** A sub-probe that builds and whose receive does not escape sends its packet and records the outcome. */
  lemma ProbeRecords(st: HopState, pid: int, timeout: int, build: Result<seq<Byte>>)
    requires build.Ok? && HopProbe(st, pid, timeout, build).crash.None?
    ensures var r := TracertSpec(st.events, pid, timeout).0;
            var st' := HopProbe(st, pid, timeout, build);
      && (r.Ok? || r == Err(TimeoutError))
      && st'.sent == st.sent + [build.value]
      && st'.latency == st.latency + [LatencyFor(r)]
      && st'.source == (if r.Ok? then Some(r.value.addr) else st.source)
      && st'.traceEnd == (if r.Ok? then r.value.traceEnd else st.traceEnd)
      && st'.events == TracertSpec(st.events, pid, timeout).1
  {
  }

  /** Outcomes one receive further, with the successor index given. */
  lemma OutcomesStep(pid: int, timeout: int, events: seq<Event>, n: nat, next: nat)
    requires next == n + 1
    ensures var (rs, rest) := Outcomes(pid, timeout, events, n);
      Outcomes(pid, timeout, events, next) == (rs + [TracertSpec(rest, pid, timeout).0], TracertSpec(rest, pid, timeout).1)
  {
  }

  /**
   * Hop aggregation: without an escaped exception, n sub-probes give n packets and n
   * latency entries, one per outcome; source and trace_end are those of the last reply
   * (None and False when there was none).
   */
  lemma {:induction false} HopAggregates(pid: int, timeout: int, builds: seq<Result<seq<Byte>>>, events: seq<Event>, n: nat)
    requires n <= |builds| && HopAfter(pid, timeout, builds, events, n).crash.None?
    ensures var st := HopAfter(pid, timeout, builds, events, n);
            var (rs, rest) := Outcomes(pid, timeout, events, n);
      |rs| == n && Aggregated(st, rs) && st.events == rest
    decreases n
  {
    if n > 0 {
      var k := n - 1;
      HopStep(pid, timeout, builds, events, k, n);
      var prev := HopAfter(pid, timeout, builds, events, k);
      var st := HopAfter(pid, timeout, builds, events, n);
      assert prev.crash.None?;
      assert builds[k].Ok?;
      HopAggregates(pid, timeout, builds, events, k);
      ProbeRecords(prev, pid, timeout, builds[k]);
      OutcomesStep(pid, timeout, events, k, n);
      var r := TracertSpec(prev.events, pid, timeout).0;
      AggregatedStep(prev, st, Outcomes(pid, timeout, events, k).0, r);
    }
  }

  /** A hop prints '* * *' exactly when all of its sub-probes timed out. */
  lemma SourceNoneIffAllTimedOut(pid: int, timeout: int, builds: seq<Result<seq<Byte>>>, events: seq<Event>, n: nat)
    requires n <= |builds| && HopAfter(pid, timeout, builds, events, n).crash.None?
    ensures var st := HopAfter(pid, timeout, builds, events, n);
      st.source.None? <==> forall i :: 0 <= i < |st.latency| ==> st.latency[i] == NoReply
    ensures HopAfter(pid, timeout, builds, events, n).traceEnd ==> HopAfter(pid, timeout, builds, events, n).source.Some?
  {
    HopAggregates(pid, timeout, builds, events, n);
    var st := HopAfter(pid, timeout, builds, events, n);
    var rs := Outcomes(pid, timeout, events, n).0;
    assert forall i :: 0 <= i < n ==> (st.latency[i] == NoReply <==> rs[i].Err?);
  }

  /** A sub-probe sends its packet exactly when it builds, and it can only end without an escape if it builds. */
  lemma ProbeSends(st: HopState, pid: int, timeout: int, build: Result<seq<Byte>>)
    ensures HopProbe(st, pid, timeout, build).sent == if build.Ok? then st.sent + [build.value] else st.sent
    ensures HopProbe(st, pid, timeout, build).crash.None? ==> build.Ok?
  {
  }

  /** Appending the packet of build k to the packets of builds 0..k-1 keeps them in step with the builds. */
  lemma SentByBuilds(builds: seq<Result<seq<Byte>>>, before: seq<seq<Byte>>, after: seq<seq<Byte>>, k: nat)
    requires k < |builds| && |before| == k
    requires forall i :: 0 <= i < k ==> builds[i] == Ok(before[i])
    requires after == if builds[k].Ok? then before + [builds[k].value] else before
    ensures |after| <= k + 1 && (builds[k].Ok? ==> |after| == k + 1)
    ensures forall i :: 0 <= i < |after| ==> builds[i] == Ok(after[i])
  {
  }

  /** Sub-probe i sends the packet built for it, and nothing else is sent. */
  lemma {:induction false} HopSendsBuilds(pid: int, timeout: int, builds: seq<Result<seq<Byte>>>, events: seq<Event>, n: nat)
    requires n <= |builds|
    ensures var st := HopAfter(pid, timeout, builds, events, n);
      && |st.sent| <= n
      && (st.crash.None? ==> |st.sent| == n)
      && forall i :: 0 <= i < |st.sent| ==> builds[i] == Ok(st.sent[i])
    decreases n
  {
    if n > 0 {
      var k := n - 1;
      HopSendsBuilds(pid, timeout, builds, events, k);
      HopStep(pid, timeout, builds, events, k, n);
      var prev := HopAfter(pid, timeout, builds, events, k);
      if prev.crash.None? {
        ProbeSends(prev, pid, timeout, builds[k]);
        SentByBuilds(builds, prev.sent, HopAfter(pid, timeout, builds, events, n).sent, k);
      }
    }
  }

  /** The sub-probes of a hop are the Echo Requests for seq ids 1, 2, 3 with the 60-byte payload. */
  lemma HopProbesInOrder(pid: int, timeout: int, stamps: seq<Timestamp>, events: seq<Event>)
    ensures var st := HopOf(pid, timeout, stamps, events);
      && |st.sent| <= SUB_PROBES
      && forall i :: 0 <= i < |st.sent| ==> IsProbe(Unsigned, pid, PAYLOAD_SIZE, i + 1, st.sent[i])
  {
    var builds := SubProbes(pid, stamps);
    HopSendsBuilds(pid, timeout, builds, events, |builds|);
    var st := HopAfter(pid, timeout, builds, events, |builds|);
    forall i | 0 <= i < |st.sent|
      ensures IsProbe(Unsigned, pid, PAYLOAD_SIZE, i + 1, st.sent[i])
    {
      SubProbeIsProbe(pid, stamps, i, st.sent[i]);
    }
  }

  /** A sub-probe that builds is the Echo Request for its seq id. */
  lemma SubProbeIsProbe(pid: int, stamps: seq<Timestamp>, i: int, p: seq<Byte>)
    requires 0 <= i < SUB_PROBES && SubProbes(pid, stamps)[i] == Ok(p)
    ensures IsProbe(Unsigned, pid, PAYLOAD_SIZE, i + 1, p)
  {
    var build := Ping.GeneratePingIpPayload(pid, i + 1, PAYLOAD_SIZE, StampAt(stamps, i));
    assert SubProbes(pid, stamps)[i] == build;
    assert build.Ok? ==> IsProbe(Unsigned, pid, PAYLOAD_SIZE, i + 1, build.value);
  }

  /** When every sub-probe builds, only a short datagram can escape a hop. */
  lemma {:induction false} HopCrashIsShortDatagram(pid: int, timeout: int, builds: seq<Result<seq<Byte>>>, events: seq<Event>, n: nat)
    requires n <= |builds| && forall i :: 0 <= i < |builds| ==> builds[i].Ok?
    ensures var st := HopAfter(pid, timeout, builds, events, n);
      st.crash.Some? ==> st.crash == Some(StructError)
    decreases n
  {
    if n > 0 {
      HopCrashIsShortDatagram(pid, timeout, builds, events, n - 1);
      var prev := HopAfter(pid, timeout, builds, events, n - 1);
      if prev.crash.None? {
        TracertErrors(prev.events, pid, timeout);
      }
    }
  }

  /** With the identifier of the process, every sub-probe of traceroute builds. */
  lemma SubProbesBuild(id: int, stamps: seq<Timestamp>)
    requires 0 <= id <= 0xffff
    ensures forall i :: 0 <= i < SUB_PROBES ==> SubProbes(id, stamps)[i].Ok?
  {
    forall i | 0 <= i < SUB_PROBES
      ensures SubProbes(id, stamps)[i].Ok?
    {
      SubProbeBuilds(id, stamps, i);
    }
  }

  lemma SubProbeBuilds(id: int, stamps: seq<Timestamp>, i: int)
    requires 0 <= id <= 0xffff && 0 <= i < SUB_PROBES
    ensures SubProbes(id, stamps)[i].Ok?
  {
    var build := SubProbe(id, stamps, i);
    assert SubProbes(id, stamps)[i] == build;
    assert build.Ok? <==> PAYLOAD_SIZE >= EchoRequest.MIN_PAYLOAD_SIZE && PAYLOAD_SIZE % 2 == 0
                          && 0 <= id <= 0xffff && 0 <= i + 1 <= 0xffff;
  }

  /** receive_one_tracert raises only TimeoutError or struct.error. */
  lemma {:induction false} TracertErrors(events: seq<Event>, pid: int, timeLeft: int)
    ensures var r := TracertSpec(events, pid, timeLeft).0;
      r.Err? ==> r.error == TimeoutError || r.error == StructError
    decreases |events|
  {
    if timeLeft > 0 && events != [] && events[0].Datagram? {
      TracertErrors(events[1..], pid, timeLeft - events[0].waited);
    }
  }

  /** One line of the trace: '%2d  * * *' or '%2d  %s (%s)  %s  %s  %s'. */
  datatype HopLine = Stars(ttl: int) | Hop(ttl: int, addr: Address, latency: seq<Latency>)

  /** What one hop leads to. */
  datatype HopOutcome = Next(line: HopLine) | End(line: HopLine) | Crash(error: PyError)

  datatype Trace = Trace(lines: seq<HopLine>, crash: Option<PyError>)

  /**
   * What traceroute makes of _traceroute's result for one ttl: the exception that escaped,
   * or the line it prints ('* * *' when no source answered) and whether the loop breaks.
   */
  function OutcomeOf(st: HopState, ttl: int): (o: HopOutcome)
    ensures o.Crash? <==> st.crash.Some?
    ensures o.Crash? ==> o.error == st.crash.value
    ensures o.End? <==> st.crash.None? && st.traceEnd
    ensures !o.Crash? ==> o.line.ttl == ttl && (o.line.Stars? <==> st.source.None?)
    ensures !o.Crash? && o.line.Hop? ==> o.line.addr == st.source.value && o.line.latency == st.latency
  {
    if st.crash.Some? then Crash(st.crash.value)
    else
      var line := if st.source.None? then Stars(ttl) else Hop(ttl, st.source.value, st.latency);
      if st.traceEnd then End(line) else Next(line)
  }

  /** Iteration i of traceroute's loop, for ttl first_ttl + i, on a fresh socket (PermissionError escapes). */
  function HopOutcomeAt(pid: int, timeout: int, sockets: seq<Socket>, firstTtl: int, i: nat): HopOutcome
  {
    match SocketAt(sockets, i)
    case Denied => Crash(PermissionError)
    case Opened(stamps, events) => OutcomeOf(HopOf(pid, timeout, stamps, events), firstTtl + i)
  }

  /** The hops of `for ttl in range(first_ttl, max_hops + 1)`, hop i on socket i. */
  function Hops(pid: int, timeout: int, sockets: seq<Socket>, firstTtl: int, maxHops: int): (hops: seq<HopOutcome>)
    ensures |hops| == if maxHops >= firstTtl then maxHops - firstTtl + 1 else 0
  {
    seq(if maxHops >= firstTtl then maxHops - firstTtl + 1 else 0,
        i requires 0 <= i => HopOutcomeAt(pid, timeout, sockets, firstTtl, i))
  }

  /** Hop k of the sweep is iteration k of the loop. */
  lemma HopAt(pid: int, timeout: int, sockets: seq<Socket>, firstTtl: int, maxHops: int, k: nat)
    requires firstTtl + k <= maxHops
    ensures k < |Hops(pid, timeout, sockets, firstTtl, maxHops)|
    ensures Hops(pid, timeout, sockets, firstTtl, maxHops)[k] == HopOutcomeAt(pid, timeout, sockets, firstTtl, k)
  {
  }

  /** The control flow of the sweep: go on after Next, break after End, stop at Crash. */
  function TraceOf(hops: seq<HopOutcome>): Trace
    decreases |hops|
  {
    if hops == [] then Trace([], None)
    else match hops[0]
      case Next(line) => var rest := TraceOf(hops[1..]); Trace([line] + rest.lines, rest.crash)
      case End(line) => Trace([line], None)
      case Crash(e) => Trace([], Some(e))
  }

  /** traceroute: resolve (gaierror escapes), then sweep the ttls. */
  function TracerouteSpec(dest: Option<Address>, pid: nat, firstTtl: int, maxHops: int, timeout: int,
                          sockets: seq<Socket>): Trace
  {
    if dest.None? then Trace([], Some(GaiError))
    else TraceOf(Hops(Identifier(pid), timeout, sockets, firstTtl, maxHops))
  }

  /** The body of traceroute's loop for ttl first_ttl + i. */
  method TraceOnce(pid: int, timeout: int, sockets: seq<Socket>, firstTtl: int, i: nat) returns (outcome: HopOutcome)
    ensures outcome == HopOutcomeAt(pid, timeout, sockets, firstTtl, i)
  {
    var socket := SocketAt(sockets, i);
    if socket.Denied? {
      return Crash(PermissionError);
    }
    var st := TraceHop(pid, timeout, socket.stamps, socket.events);
    outcome := OutcomeOf(st, firstTtl + i);
  }

  /** The trace of a sweep resumed at hop k with `lines` already printed. */
  function Resume(lines: seq<HopLine>, hops: seq<HopOutcome>, k: nat): Trace
    requires k <= |hops|
  {
    var rest := TraceOf(hops[k..]);
    Trace(lines + rest.lines, rest.crash)
  }

  lemma ResumeAt(lines: seq<HopLine>, hops: seq<HopOutcome>, k: nat, next: nat)
    requires k < |hops| && next == k + 1
    ensures Resume(lines, hops, k) == match hops[k]
      case Next(line) => Resume(lines + [line], hops, next)
      case End(line) => Trace(lines + [line], None)
      case Crash(e) => Trace(lines, Some(e))
  {
    assert hops[k..][0] == hops[k];
    assert hops[k..][1..] == hops[next..];
    if hops[k].Next? {
      var tail := TraceOf(hops[next..]).lines;
      assert lines + ([hops[k].line] + tail) == (lines + [hops[k].line]) + tail;
    }
  }

  /** traceroute: resolve, then sweep the ttls with the identifier of the process. */
  method Traceroute(dest: Option<Address>, pid: nat, firstTtl: int, maxHops: int, timeout: int,
                    sockets: seq<Socket>) returns (trace: Trace)
    ensures trace == TracerouteSpec(dest, pid, firstTtl, maxHops, timeout, sockets)
  {
    if dest.None? {
      return Trace([], Some(GaiError));
    }
    trace := Sweep(pid % 0x10000, firstTtl, maxHops, timeout, sockets);
  }

  /** The loop `for ttl in range(first_ttl, max_hops + 1)` of traceroute. */
  method Sweep(id: int, firstTtl: int, maxHops: int, timeout: int, sockets: seq<Socket>) returns (trace: Trace)
    ensures trace == TraceOf(Hops(id, timeout, sockets, firstTtl, maxHops))
  {
    ghost var hops := Hops(id, timeout, sockets, firstTtl, maxHops);
    var lines: seq<HopLine> := [];
    var ttl := firstTtl;
    var k: nat := 0;
    assert hops[0..] == hops;
    while ttl <= maxHops
      invariant ttl == firstTtl + k && k <= |hops|
      invariant Resume(lines, hops, k) == TraceOf(hops)
      decreases maxHops - ttl
    {
      var outcome := TraceOnce(id, timeout, sockets, firstTtl, k);
      HopAt(id, timeout, sockets, firstTtl, maxHops, k);
      var next := k + 1;
      ResumeAt(lines, hops, k, next);
      match outcome
      case Crash(e) =>
        return Trace(lines, Some(e));
      case End(line) =>
        return Trace(lines + [line], None);
      case Next(line) =>
        lines := lines + [line];
        ttl := ttl + 1;
        k := next;
    }
    assert hops[k..] == [];
    trace := Trace(lines, None);
  }

  /**
   * The sweep goes ttl by ttl: line i is for ttl first_ttl + i, and there are never more
   * lines than ttls in first_ttl..max_hops (none when first_ttl > max_hops).
   */
  lemma TtlsInOrder(dest: Address, pid: nat, firstTtl: int, maxHops: int, timeout: int, sockets: seq<Socket>)
    ensures var trace := TracerouteSpec(Some(dest), pid, firstTtl, maxHops, timeout, sockets);
      && |trace.lines| <= (if maxHops >= firstTtl then maxHops - firstTtl + 1 else 0)
      && forall i :: 0 <= i < |trace.lines| ==> trace.lines[i].ttl == firstTtl + i
  {
    var hops := Hops(Identifier(pid), timeout, sockets, firstTtl, maxHops);
    forall i | 0 <= i < |hops| && !hops[i].Crash?
      ensures hops[i].line.ttl == firstTtl + i
    {
      assert hops[i] == HopOutcomeAt(Identifier(pid), timeout, sockets, firstTtl, i);
    }
    LinesFollowHops(hops);
  }

  /** Each line of a sweep is the line of the hop at the same position. */
  lemma {:induction false} LinesFollowHops(hops: seq<HopOutcome>)
    ensures |TraceOf(hops).lines| <= |hops|
    ensures forall i :: 0 <= i < |TraceOf(hops).lines| ==> !hops[i].Crash? && TraceOf(hops).lines[i] == hops[i].line
    decreases |hops|
  {
    if hops != [] && hops[0].Next? {
      var rest := hops[1..];
      LinesFollowHops(rest);
      var lines := TraceOf(hops).lines;
      assert lines == [hops[0].line] + TraceOf(rest).lines;
      forall i | 0 <= i < |lines|
        ensures !hops[i].Crash? && lines[i] == hops[i].line
      {
        if i > 0 {
          assert lines[i] == TraceOf(rest).lines[i - 1];
          assert hops[i] == rest[i - 1];
        }
      }
    }
  }

  /**
   * The sweep stops after the first hop whose trace_end is set: if hops 0..k-1 go on and
   * hop k ends the trace, exactly k + 1 lines are printed and nothing escapes.
   */
  lemma {:induction false} StopsAtFirstEnd(hops: seq<HopOutcome>, k: nat)
    requires k < |hops| && hops[k].End?
    requires forall i :: 0 <= i < k ==> hops[i].Next?
    ensures TraceOf(hops).crash == None
    ensures |TraceOf(hops).lines| == k + 1
    ensures forall i :: 0 <= i <= k ==> TraceOf(hops).lines[i] == hops[i].line
    decreases k
  {
    if k > 0 {
      var rest := hops[1..];
      assert forall i :: 0 <= i < k - 1 ==> rest[i] == hops[i + 1];
      StopsAtFirstEnd(rest, k - 1);
      var lines := TraceOf(hops).lines;
      assert lines == [hops[0].line] + TraceOf(rest).lines;
      forall i | 0 <= i <= k
        ensures lines[i] == hops[i].line
      {
        if i > 0 {
          assert lines[i] == TraceOf(rest).lines[i - 1];
        }
      }
    }
  }

  /** A sweep in which no hop ends the trace or escapes prints one line per ttl. */
  lemma {:induction false} RunsAllHops(hops: seq<HopOutcome>)
    requires forall i :: 0 <= i < |hops| ==> hops[i].Next?
    ensures TraceOf(hops).crash == None && |TraceOf(hops).lines| == |hops|
    decreases |hops|
  {
    if hops != [] {
      assert forall i :: 0 <= i < |hops| - 1 ==> hops[1..][i] == hops[i + 1];
      RunsAllHops(hops[1..]);
    }
  }
}
