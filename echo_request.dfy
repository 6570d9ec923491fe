/**
 * Building an ICMP Echo Request: `generate_ping_ip_payload` in utils/ping.py, and the
 * same steps written inline in `send_one_ping` of myping/utils/ping.py and pinglib.py.
 * A header with checksum 0 is packed, the 8-byte timestamp is zero-padded to
 * payload_size, the checksum of the two is computed and the header is packed again
 * with it.
 */
module EchoRequest {
  import opened Wrappers
  import opened Bytes
  import opened Checksum
  import opened Icmp

  /** `MIN_PAYLOAD_SIZE = struct.calcsize("d")`. */
  const MIN_PAYLOAD_SIZE := 8

  /** The identifier and sequence number fit the format's fields. */
  predicate IdsFit(fmt: Format, id: int, seqId: int)
  {
    Fits(UShort, id) && Fits(SeqField(fmt), seqId)
  }

  function Build(fmt: Format, id: int, seqId: int, payloadSize: int, stamp: Timestamp): (r: Result<seq<Byte>>)
    ensures r == Err(ValueError) <==> payloadSize < MIN_PAYLOAD_SIZE
    ensures r.Ok? <==> payloadSize >= MIN_PAYLOAD_SIZE && payloadSize % 2 == 0 && IdsFit(fmt, id, seqId)
    ensures payloadSize >= MIN_PAYLOAD_SIZE && !IdsFit(fmt, id, seqId) ==> r == Err(StructError)
    ensures payloadSize >= MIN_PAYLOAD_SIZE && IdsFit(fmt, id, seqId) && payloadSize % 2 == 1 ==>
              r == Err(IndexError)
    ensures r.Ok? ==> |r.value| == Len(fmt) + payloadSize
  {
    if payloadSize < MIN_PAYLOAD_SIZE then Err(ValueError)
    else
      var dummy := IcmpHeader(ECHO_REQUEST.0, ECHO_REQUEST.1, 0, id, seqId);
      match Pack(fmt, dummy)
      case Err(e) => Err(e)
      case Ok(dummyBytes) =>
        var payload := Ljust(stamp, payloadSize);
        ParityShift(payloadSize, |dummyBytes|);
        match IcmpChecksum(dummyBytes + payload)
        case Err(e) => Err(e)
        case Ok(c) =>
          match Pack(fmt, dummy.(checksum := c))
          case Err(e) => Err(e)
          case Ok(header) => Ok(header + payload)
  }

  /** The Echo Request header that is packed first, with checksum 0. */
  function DummyHeader(id: int, seqId: int): IcmpHeader
  {
    IcmpHeader(ECHO_REQUEST.0, ECHO_REQUEST.1, 0, id, seqId)
  }

  /** The steps Build takes on its success path. */
  lemma BuildSteps(fmt: Format, id: int, seqId: int, payloadSize: int, stamp: Timestamp)
    requires Build(fmt, id, seqId, payloadSize, stamp).Ok?
    ensures HeaderFits(fmt, DummyHeader(id, seqId))
    ensures |Ljust(stamp, payloadSize)| == payloadSize && payloadSize % 2 == 0
    ensures var data := Pack(fmt, DummyHeader(id, seqId)).value + Ljust(stamp, payloadSize);
      && IcmpChecksum(data).Ok?
      && Build(fmt, id, seqId, payloadSize, stamp).value
         == Pack(fmt, DummyHeader(id, seqId).(checksum := IcmpChecksum(data).value)).value
            + Ljust(stamp, payloadSize)
  {
  }

  /**
   * The layout of a built packet: an Echo Request header carrying id and seqId, the
   * timestamp at bytes 8..15, and zeros from byte 16 on.
   */
  lemma {:induction false} BuildLayout(fmt: Format, id: int, seqId: int, payloadSize: int, stamp: Timestamp)
    requires Build(fmt, id, seqId, payloadSize, stamp).Ok?
    ensures var p := Build(fmt, id, seqId, payloadSize, stamp).value;
      && p[..2] == [ECHO_REQUEST.0, ECHO_REQUEST.1]
      && Unpack(fmt, p[..8]).Ok?
      && Function(Unpack(fmt, p[..8]).value) == ECHO_REQUEST
      && Unpack(fmt, p[..8]).value.id == id
      && Unpack(fmt, p[..8]).value.seqNum == seqId
      && p[8..16] == stamp
      && forall i :: 16 <= i < |p| ==> p[i] == 0
  {
    BuildSteps(fmt, id, seqId, payloadSize, stamp);
    var dummy := DummyHeader(id, seqId);
    var payload := Ljust(stamp, payloadSize);
    var c := IcmpChecksum(Pack(fmt, dummy).value + payload).value;
    var h := dummy.(checksum := c);
    var header := Pack(fmt, h).value;
    var p := Build(fmt, id, seqId, payloadSize, stamp).value;
    assert p == header + payload;
    assert p[..8] == header;
    UnpackPack(fmt, h);
    PackedFunction(fmt, h);
    assert p[8..16] == payload[..8];
  }

  /** A header whose checksum field is zero, followed by an even-length payload, verifies once its checksum is stored. */
  lemma {:induction false} StoredChecksumVerifies(header: seq<Byte>, payload: seq<Byte>)
    requires |header| == 8 && header[2] == 0 && header[3] == 0 && |payload| % 2 == 0
    ensures IcmpChecksum(header + payload).Ok?
    ensures IcmpChecksum(WithChecksum(header, IcmpChecksum(header + payload).value) + payload) == Ok(0)
  {
    ParityShift(|payload|, |header|);
    WithChecksumAppend(header, payload, IcmpChecksum(header + payload).value);
    ChecksumVerifies(header + payload);
  }

  /** Zeroing the checksum field of a packet built from a zero-checksum header gives back the bytes that were summed. */
  lemma ZeroedChecksumField(header: seq<Byte>, payload: seq<Byte>, c: nat)
    requires |header| == 8 && header[2] == 0 && header[3] == 0 && c <= 0xffff
    ensures WithChecksum(WithChecksum(header, c) + payload, 0) == header + payload
  {
    WithChecksumAppend(header, payload, c);
    WithChecksumOverride(header + payload, c, 0);
  }

  /**
   * The checksum field holds the checksum of the packet with that field zeroed, and the
   * checksum of the finished packet is 0 (section 1 of RFC 1071).
   */
  lemma {:induction false} BuildChecksumVerifies(fmt: Format, id: int, seqId: int, payloadSize: int, stamp: Timestamp)
    requires Build(fmt, id, seqId, payloadSize, stamp).Ok?
    ensures var p := Build(fmt, id, seqId, payloadSize, stamp).value;
      && Ok(Unpack(fmt, p[..8]).value.checksum) == IcmpChecksum(WithChecksum(p, 0))
      && IcmpChecksum(p) == Ok(0)
  {
    BuildSteps(fmt, id, seqId, payloadSize, stamp);
    var dummy := DummyHeader(id, seqId);
    var dummyBytes := Pack(fmt, dummy).value;
    var payload := Ljust(stamp, payloadSize);
    var c := IcmpChecksum(dummyBytes + payload).value;
    var h := dummy.(checksum := c);
    var p := Build(fmt, id, seqId, payloadSize, stamp).value;
    PackWithChecksum(fmt, dummy, c);
    PackWithChecksum(fmt, dummy, 0);
    assert dummy.(checksum := 0) == dummy;
    assert dummyBytes[2] == 0 && dummyBytes[3] == 0 by {
      assert WithChecksum(dummyBytes, 0)[2..4] == [0, 0];
    }
    StoredChecksumVerifies(dummyBytes, payload);
    ZeroedChecksumField(dummyBytes, payload, c);
    assert p == WithChecksum(dummyBytes, c) + payload;
    assert p[..8] == Pack(fmt, h).value;
    UnpackPack(fmt, h);
  }
}
