# ICMP ping and traceroute engine

This project models the packet engine of icmp-utils, a pure-Python ping and traceroute.

**Byte level**
- The `struct`-packed ICMP header: format `BBHHH`, and `bbHHh` in pinglib.py.
- The RFC 1071 Internet checksum, as `get_icmp_checksum` computes it (little-endian 16-bit words, end-around carry, one's complement, no padding).
- The Echo Request builder: header with a zero checksum, 8-byte timestamp padded with zeros, checksum, re-pack.
- `parse_ping_packet`'s split of a datagram at 20 and 28.
- `get_ttl`, which reads octet 8 of the IPv4 header (section 3.1 of RFC 791).

**Control logic**
- The receive loops that wait for the matching reply while `time_left` shrinks.
- The ping session over seq ids `1..count`.
- `_traceroute`'s three sub-probes per hop and the `source`, `latency` and `trace_end` it aggregates.
- `traceroute`'s sweep over ttls, which stops at the first hop that reached the destination.

**How it is modelled**
- Every loop of the source is a `method` with a `while` loop, proved equal to a recursive specification function. The lemmas state the source's promises about those functions.
- Expression-only code is written as functions.
- A socket is a stream of events. Each event is what one `select` yields: `Silence`, or a `Datagram` with the bytes and address `recvfrom` returns and the integer ticks the wait took.
- A socket that cannot be opened is `Denied` (PermissionError).
- Exceptions are values of `Result<T>`, and a session records the exception that escaped it.

Modules, one concept each:

- `Wrappers`: `Option`, `Result` and the Python exceptions that occur (`TypeError`, `ValueError`, `IndexError`, `struct.error`, `TimeoutError`, `PermissionError`, `gaierror`, `AttributeError`).
- `Bytes`: bytes, slicing with Python's clamping, `ljust`.
- `Checksum`: `get_icmp_checksum` and the RFC 1071 algebra behind it.
- `Icmp`: `struct` fields, the header codec for both formats, and the message-type constants (8, 0), (0, 0) and (11, 0).
- `Ip`: `get_ttl` and the 20-byte IPv4 header decoder.
- `EchoRequest`: the Echo Request builder that all three ping files share.
- `Probe`: the receive loop's specification, the socket and event model, and the ping session's specification. It is shared by utils/ping.py and pinglib.py through a `Format` parameter.
- `Ping`: utils/ping.py.
  - myping/utils/ping.py has the same `get_icmp_checksum`, `parse_ping_packet` and `receive_one_ping` (with the field named `id`), so `Checksum.GetIcmpChecksum`, `Ping.ParsePingPacket` and `Ping.ReceiveOnePing` stand for those; its `IcmpHeader` is the `Icmp` codec.
- `Myping`: `send_one_ping`, `_ping` and `ping` of myping/utils/ping.py.
  - Its `send_one_ping` builds the Echo Request inline.
  - Its `_ping` opens the socket with `const.ICMP_PROTO`, which myping/constants.py does not define (see "## Findings").
  - `Myping.PingOnce` and `Myping.Ping` take that protocol to be `IPPROTO_ICMP`.
- `PingLib`: pinglib.py.
- `Tracert`: utils/tracert.py.

The specification functions carry the source's control flow, and the lemmas in the table are about them:

- `Probe.ReplySpec` follows `receive_one_ping`, utils/ping.py:91-112 (pinglib.py:71-93 in the signed format).
- `Probe.ProbeStep` follows one `_ping` and the handlers of `ping` that meet its outcome, utils/ping.py:115-121 and 136-146.
- `Probe.PingSpec` follows `ping` after logging is set up, utils/ping.py:129-146.
- `Tracert.TracertSpec` follows `receive_one_tracert`, utils/tracert.py:19-48.
- `Tracert.HopOf` follows `_traceroute`, utils/tracert.py:51-67.
- `Tracert.TraceOf` follows the ttl loop of `traceroute`, utils/tracert.py:76-86.
- `Tracert.TracerouteSpec` follows `traceroute`, utils/tracert.py:70-86.

## Model

| member | source | states |
|---|---|---|
| Bytes.Slice | utils/ping.py:66-68 | Python slicing: the exact subsequence when the end is in range, otherwise the whole rest of the sequence from the start index, or nothing when the start is past the end |
| Bytes.Ljust | utils/ping.py:77 | `ljust(n, b'\x00')` keeps the data as a prefix, pads it with zero bytes to length n, and never shortens it |
| Bytes.U16 | utils/ping.py:58 | a little-endian word `lo + (hi << 8)` is at most 0xffff |
| Checksum.CarryAroundAdd | utils/ping.py:52-54 | for 16-bit inputs the result stays in 16 bits, equals a + b minus 0xffff per carry, and is 0 only when both inputs are 0 |
| Checksum.IcmpChecksum | utils/ping.py:51-60 | raises IndexError exactly for odd-length data (no padding), otherwise gives a value in 0..0xffff |
| Checksum.GetIcmpChecksum | utils/ping.py:56-60 | the accumulator loop (the same code is at myping/utils/ping.py:47-51 and pinglib.py:49-53) keeps `s` equal to the ones'-complement sum of the words read so far, hence in 0..0xffff, and returns `0xffff - s` or IndexError |
| Checksum.OnesSumFolds | utils/ping.py:52-59 | the end-around-carry sum is congruent to the plain word total modulo 0xffff |
| Checksum.OnesSumZero | utils/ping.py:52-59 | the running sum is 0 exactly when every word is 0 |
| Checksum.WordTotalAppend | utils/ping.py:57-59 | the word total of two even-length blocks is the sum of their totals |
| Checksum.ChecksumComplementsSum | utils/ping.py:60 | checksum plus word total is a multiple of 0xffff; the checksum is 0xffff exactly for all-zero data |
| Checksum.WithChecksumStores | utils/ping.py:80-82 | the checksum placed at bytes 2..3 reads back as the same little-endian word |
| Checksum.WithChecksumOverride | utils/ping.py:76-80 | storing a second checksum replaces the first; storing 0 over a zero field changes nothing |
| Checksum.WithChecksumAppend | utils/ping.py:79-82 | storing the checksum in the header and then appending the payload is the same as storing it in the whole packet |
| Checksum.ChecksumVerifies | utils/ping.py:79-82 | section 1 of RFC 1071: checksumming data whose field was zero and now holds its own checksum gives 0 |
| Icmp.EncodeField | utils/ping.py:36-37 | a field that fits its `struct` code packs to that code's width |
| Icmp.DecodeField | utils/ping.py:40-41 | unpacking a field always yields a value in the code's range |
| Icmp.DecodeEncodeField | utils/ping.py:36-41 | unpack(pack(v)) == v for each of B, b, H, h in range |
| Icmp.EncodeDecodeField | utils/ping.py:36-41 | pack(unpack(bs)) == bs for each code |
| Icmp.Len | utils/ping.py:43-44 | `calcsize` of both formats is 8 |
| Icmp.Pack | utils/ping.py:36-37 | packing succeeds exactly when every field fits its code, raising struct.error otherwise, and gives 8 bytes |
| Icmp.Unpack | utils/ping.py:39-41 | unpacking succeeds exactly on 8 bytes (struct.error otherwise), and every field is in its code's range |
| Icmp.UnpackPack | utils/ping.py:33-48 | unpack(pack(h)) == h for every header whose fields fit the format |
| Icmp.PackUnpack | utils/ping.py:33-48 | pack(unpack(bs)) == bs for every 8-byte header |
| Icmp.PackWithChecksum | utils/ping.py:79-80 | re-packing with a new checksum changes only bytes 2..3 |
| Icmp.PackedFunction | utils/ping.py:46-48 | `function` is (type, code), stored in the first two bytes |
| Icmp.SignedSeqRange | pinglib.py:30-41 | with 'bbHHh' a header packs only if seq_num is in -32768..32767; a larger seq_num raises struct.error |
| Ip.GetTtl | myping/utils/ip.py:34-37 | TypeError for a non-bytes argument, IndexError for fewer than 9 bytes, otherwise the octet at index 8, a value in 0..255 |
| Ip.GetTtlReadsOnlyTtlOctet | myping/utils/ip.py:37 | two headers with the same octet 8 give the same TTL |
| Ip.UnpackIpv4 | utils/ping.py:66 | the IPv4 header decoder accepts exactly 20 bytes (struct.error otherwise) and keeps them |
| Ip.DecodedTtlIsGetTtl | pinglib.py:89 | the decoded header's ttl, which utils/ping.py:111 uses, is `get_ttl` of the datagram |
| EchoRequest.Build | utils/ping.py:71-82 | ValueError exactly when payload_size < 8; otherwise struct.error for ids that do not fit and IndexError for an odd size; the packet is 8 + payload_size bytes |
| EchoRequest.BuildLayout | utils/ping.py:76-82 | bytes 0..1 are (8, 0); the header carries the id and seq id as given; bytes 8..15 hold the stamp; every later byte is 0 |
| EchoRequest.StoredChecksumVerifies | utils/ping.py:79-82 | a header whose zero field is replaced by the checksum of header + payload verifies to 0 |
| EchoRequest.ZeroedChecksumField | utils/ping.py:79-80 | zeroing the stored field gives back the data the checksum was computed on |
| EchoRequest.BuildChecksumVerifies | utils/ping.py:76-82 | the stored checksum is that of the packet with the field zeroed, and the checksum of the finished packet is 0 |
| Ping.ParsePingPacket | utils/ping.py:63-68 | TypeError for non-bytes input; struct.error for fewer than 28 bytes; otherwise the IP header is bytes 0..19 with the ttl at byte 8, the ICMP header is the unsigned reading of bytes 20..27 and the payload is bytes 28.. |
| Ping.ParsedPartsRebuild | utils/ping.py:63-68 | the three parts re-assemble the datagram, and re-packing the parsed ICMP header gives bytes 20..27 back |
| Ping.GeneratePingIpPayload | utils/ping.py:71-82 | ValueError exactly when payload_size < 8; otherwise success exactly for an even size and 16-bit pid and seq_id; the result is an Echo Request for (pid, seq_id) whose checksum verifies and that carries the stamp |
| Ping.ReceiveOnePing | utils/ping.py:91-112 | the `time_left` loop returns what the receive specification gives for the event stream |
| Ping.PingOnce | utils/ping.py:115-121 | one `_ping` plus ping's handlers equals one step of the session specification |
| Ping.Ping | utils/ping.py:124-146 | the seq loop produces exactly the session specification's sent packets, logged lines and escaped exception |
| Myping.SendOnePing | myping/utils/ping.py:62-74 | ValueError before anything is built; otherwise success exactly for an even size and 16-bit ids; the packet is 8 + payload_size bytes with an Echo Request header for (id, seq_id), a checksum of the zero-field packet, and the padded stamp |
| Myping.AsWrittenNeverProbes | myping/utils/ping.py:101-131 | as written, a session that resolves its destination and has at least one probe escapes with AttributeError before sending anything; this takes the import of `IPv4Header` at line 12 to succeed, as the IPv4 header stand-in under "## Left out" assumes |
| Myping.ProtocolDiscrepancy | myping/utils/ping.py:104 | on one probe with a silent socket, the as-written session escapes with AttributeError, while the session with IPPROTO_ICMP sends one Echo Request and logs its timeout |
| Myping.PingOnce | myping/utils/ping.py:101-106 | one `_ping` with `IPPROTO_ICMP`, together with the handlers of `ping`, equals the step of the session specification |
| Myping.Ping | myping/utils/ping.py:109-131 | the seq loop produces exactly the session specification's sent packets, logged lines and escaped exception |
| PingLib.SendOnePing | pinglib.py:56-68 | ValueError exactly when payload_size < 8; struct.error when seq_id > 32767; otherwise an Echo Request whose checksum verifies |
| PingLib.ReceiveOnePing | pinglib.py:71-93 | the fixed-offset loop (header from bytes 20..27, ttl via get_ttl, size len - 20) returns what the receive specification gives in the signed format |
| PingLib.PingOnce | pinglib.py:96-102 | one `_ping` plus ping's handlers equals one step of the session specification |
| PingLib.Ping | pinglib.py:105-126 | the seq loop produces exactly the session specification in the signed format |
| PingLib.LongSessionCrashes | pinglib.py:117-120 | a session of more than 32767 probes that gets that far ends with struct.error at seq id 32768, after 32767 sent probes and logged lines |
| Probe.Identifier | utils/ping.py:117 | `os.getpid() & 0xFFFF` is always a 16-bit id, equal to the pid exactly when the pid fits |
| Probe.ReplyIsFirstAnswer | utils/ping.py:94-111 | a reply is returned only for a datagram reached while time was left, and it is the first Echo Reply (0, 0) with the caller's id; every earlier datagram was skipped |
| Probe.FirstAnswerIsReturned | utils/ping.py:94-111 | conversely, the first such datagram is the one returned |
| Probe.TimeoutIffGivesUp | utils/ping.py:94-112 | TimeoutError exactly when, after skipping well-formed non-matching datagrams (whose waits are deducted), silence, the end of the stream, or `time_left <= 0` is met |
| Probe.ShortDatagramRaises | utils/ping.py:105 | a datagram shorter than 28 bytes reached by the loop raises struct.error out of receive_one_ping |
| Probe.Probes | utils/ping.py:135 | `range(1, count + 1)` has count steps, none when count <= 0 |
| Probe.StepSendsProbe | utils/ping.py:115-121 | a probe sends at most one packet, the Echo Request for its own seq id |
| Probe.RunSent | utils/ping.py:135-142 | the session's packets are those of its steps, in step order |
| Probe.RunPrefix | utils/ping.py:135-142 | after k non-fatal probes the session has logged their k lines in order and goes on as the remaining steps do |
| Probe.ProbesInOrder | utils/ping.py:135-137 | packet i sent is the Echo Request with seq id i + 1, and at most count are sent |
| Probe.TimeoutsAreNotFatal | utils/ping.py:135-142 | when every probe is answered or times out, all count probes run and the i-th line is probe i's outcome |
| Probe.PermissionEndsRun | utils/ping.py:145-146 | a socket refused at probe k ends the run after k probes with 'Must be superuser' and nothing escaping |
| Tracert.QuotedStamp | utils/tracert.py:34-41 | parsing the quoted datagram yields the 8 bytes at offset 28 when it has them; any struct.error gives None |
| Tracert.ReceiveOneTracert | utils/tracert.py:19-48 | the `time_left` loop returns what the traceroute receive specification gives, together with the events it did not read |
| Tracert.FirstAcceptedIsReturned | utils/tracert.py:21-47 | the first accepted datagram (any Time Exceeded, tested first, or an Echo Reply with the caller's pid) is returned: trace_end False with the quoted stamp or None for Time Exceeded, trace_end True with its own stamp for the Echo Reply |
| Tracert.ReplyIsFirstAccepted | utils/tracert.py:21-47 | conversely, a returned reply is the first accepted datagram, and the loop goes on with the events after it |
| Tracert.PidOnlyMattersForEchoReplies | utils/tracert.py:33-43 | without Echo Replies in the stream, the pid has no effect: Time Exceeded is accepted whatever pid it quotes |
| Tracert.TracertConsumes | utils/tracert.py:19-48 | the receive reads a prefix of the socket's stream and leaves the rest for the next sub-probe |
| Tracert.TracertTimeoutIffGivesUp | utils/tracert.py:19-48 | TimeoutError exactly when, after skipping well-formed datagrams that are neither Time Exceeded nor an Echo Reply for pid (whose waits are deducted), silence, the end of the stream, or `time_left <= 0` is met |
| Tracert.TracertShortDatagramRaises | utils/tracert.py:30-32 | a datagram shorter than 28 bytes reached by the loop raises struct.error out of receive_one_tracert, and the stream goes on after it |
| Tracert.TracertErrors | utils/tracert.py:19-48 | the receive fails only with TimeoutError or struct.error |
| Tracert.SubProbes | utils/tracert.py:56-58 | exactly three sub-probes are built |
| Tracert.CrashSticks | utils/tracert.py:56-66 | once an exception escapes the sub-probe loop, the hop's state no longer changes |
| Tracert.TraceHop | utils/tracert.py:51-67 | the sub-probe loop ends in the hop specification's state (sent packets, source, latency, trace_end, unread events, escaped exception) |
| Tracert.LastReply | utils/tracert.py:59 | `*source, ..., trace_end =` keeps the last reply: none exactly when every receive failed, otherwise a reply after which every outcome failed |
| Tracert.HopAggregates | utils/tracert.py:53-67 | without an escape, n sub-probes give n latencies, each '*' for a timeout, '?' when the stamp is missing, or the measurement; source and trace_end are the last responder's (None and False when none answered) |
| Tracert.SourceNoneIffAllTimedOut | utils/tracert.py:53-66 | source is None exactly when every latency is '*', and trace_end implies a source |
| Tracert.HopSendsBuilds | utils/tracert.py:56-58 | the hop sends the built sub-probes in order: all of them when nothing escapes |
| Tracert.HopProbesInOrder | utils/tracert.py:56-58 | at most three packets are sent on a hop's socket, the i-th the Echo Request with seq id i + 1 and payload size 60 |
| Tracert.SubProbeIsProbe | utils/tracert.py:58 | a built sub-probe i is the Echo Request for seq id i + 1 |
| Tracert.HopCrashIsShortDatagram | utils/tracert.py:56-66 | when all sub-probes build, the only exception that escapes a hop is struct.error from a datagram too short to parse |
| Tracert.SubProbesBuild | utils/tracert.py:52-58 | with `pid & 0xFFFF` every sub-probe builds |
| Tracert.OutcomeOf | utils/tracert.py:79-86 | an escaped exception ends the sweep; otherwise the line for this ttl is '* * *' exactly when there is no source, or else it shows the source and the latencies; the loop breaks exactly on trace_end |
| Tracert.Hops | utils/tracert.py:76 | `range(first_ttl, max_hops + 1)` has max_hops - first_ttl + 1 hops, none when first_ttl > max_hops |
| Tracert.TraceOnce | utils/tracert.py:77-86 | one iteration of the ttl loop on a fresh socket equals the hop outcome of the specification |
| Tracert.Sweep | utils/tracert.py:76-86 | the ttl loop produces exactly the specification's lines and escaped exception |
| Tracert.Traceroute | utils/tracert.py:70-86 | gaierror escapes when resolution fails; otherwise the sweep runs with the identifier `pid & 0xFFFF` |
| Tracert.TtlsInOrder | utils/tracert.py:76-84 | the printed lines are for ttl first_ttl, first_ttl + 1, ... in order, never beyond max_hops |
| Tracert.LinesFollowHops | utils/tracert.py:76-86 | line i of the trace is hop i's line, and no line follows an escaped exception |
| Tracert.StopsAtFirstEnd | utils/tracert.py:85-86 | the sweep stops right after the first hop with trace_end, having printed exactly that many lines |
| Tracert.RunsAllHops | utils/tracert.py:76-86 | when no hop ends the trace or fails, every ttl up to max_hops is printed |

## Left out

- Sockets: `socket.socket`, `sendto`, `recvfrom`, `select` and `setsockopt(IP_TTL)` are not modelled as I/O.
  - Each socket is a stream of events. Each sent packet is recorded instead of being sent.
  - Sockets beyond those given are opened and receive nothing.
  - The destination of `sendto` and the ttl option are not represented.
- Clocks and floating point: `time.clock()`, the float that `struct 'd'` packs, and `(ended_select - time_sent) * 100000` are not modelled.
  - Each send's timestamp is an opaque 8-byte value; readings beyond those given are zero bytes.
  - `time_left` and the waits are integer ticks.
  - A reply carries the quoted 8 timestamp bytes instead of the elapsed time.
- Name resolution: `gethostbyname` is an optional resolved address (absent means gaierror). `getfqdn` is not modelled, so the reply carries the address only.
- Logging: the log text, the log format strings, `log_to_file` and `FileHandler` are not modelled. The per-probe lines and the error lines are datatype values.
- The header lines are not modelled: `PING host (addr) size(frame) bytes of data.` (utils/ping.py:131-133, myping/utils/ping.py:119-120, pinglib.py:115) and `traceroute to host (addr), N hops max, 60 byte packets` (utils/tracert.py:73-74). They only echo the arguments and the resolved address. The message of utils/ping.py's TimeoutError lacks its f-prefix; that is message text and is not modelled.
- The IPv4 header class: utils/ip.py is not part of this model, and myping/utils/ip.py has the class commented out. It is modelled as a decoder of exactly 20 bytes whose ttl is octet 8, so myping/utils/ping.py's import of `IPv4Header` (line 12) is taken to succeed.
- `struct` native byte order is taken to be little-endian, as the checksum's word reading assumes.
- `os.getpid()` is a parameter.
- Default arguments are not modelled; every argument is passed explicitly. The defaults are `payload_size=56`, `timeout=2` and `count=4` in the ping files, and `first_ttl=1`, `max_hops=30` and `timeout=0.1` in utils/tracert.py.
- The command-line front ends (myping/bin), the smurf tools and the constants modules are not modelled. The top-level constants.py that pinglib.py and utils/tracert.py import is not part of this model; pinglib.py's `const.ICMP_PROTO` is taken to be `IPPROTO_ICMP`. The constants (8, 0), (0, 0), (11, 0) and the minimum payload of 8 are transcribed into `Icmp` and `EchoRequest`.
- `send_one_tracert` is not a separate member: it only forwards to `send_one_ping`, and the model uses `Ping.GeneratePingIpPayload` directly.

## Findings

| source | as written | input that shows it | evidently intended | confidence | as-written member | corrected member |
|---|---|---|---|---|---|---|
| myping/utils/ping.py:104 | `_ping` passes `const.ICMP_PROTO` to `socket.socket`, but myping/constants.py defines no `ICMP_PROTO`; the AttributeError is caught by neither handler of `ping` (lines 128-131), so it escapes before the first packet. This takes the import of `IPv4Header` at line 12 to succeed, as the IPv4 header stand-in under "## Left out" assumes | any resolvable host with count >= 1, e.g. one probe with pid 1, payload 56 and a silent socket (Myping.ProtocolDiscrepancy) | the socket is opened with `IPPROTO_ICMP`, as utils/ping.py:118 does, and the probes run | not executed | Myping.PingAsWritten | Myping.Ping |
