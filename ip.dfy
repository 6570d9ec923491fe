/**
 * myping/utils/ip.py: `get_ttl`, and the IPv4 header that parse_ping_packet decodes.
 * The IPv4Header class itself is not part of this model (its module is not shown and
 * the copy in myping/utils/ip.py is commented out); it is kept as an opaque 20-byte
 * header that exposes only its TTL.
 */
module Ip {
  import opened Wrappers
  import opened Bytes

  /** Offset of the Time to Live octet, section 3.1 of RFC 791. */
  const TTL_OFFSET := 8

  /** Length of an IPv4 header without options. */
  const HEADER_LEN := 20

  /** `get_ttl`: the octet at offset 8 of a bytes or bytearray object. */
  function GetTtl(ipHeader: Operand): (r: Result<Byte>)
    ensures ipHeader.NotBuffer? ==> r == Err(TypeError)
    ensures ipHeader.Buffer? ==> (r.Ok? <==> |ipHeader.bytes| > TTL_OFFSET)
    ensures ipHeader.Buffer? && r.Err? ==> r.error == IndexError
    ensures r.Ok? ==> r.value == ipHeader.bytes[TTL_OFFSET]
  {
    match ipHeader
    case NotBuffer => Err(TypeError)
    case Buffer(b) => if |b| <= TTL_OFFSET then Err(IndexError) else Ok(b[TTL_OFFSET])
  }

  /** The result depends on octet 8 alone. */
  lemma GetTtlReadsOnlyTtlOctet(a: seq<Byte>, b: seq<Byte>)
    requires |a| > TTL_OFFSET && |b| > TTL_OFFSET && a[TTL_OFFSET] == b[TTL_OFFSET]
    ensures GetTtl(Buffer(a)) == GetTtl(Buffer(b))
  {
  }

  type HeaderBytes = s: seq<Byte> | |s| == HEADER_LEN
    witness [0, 0, 0, 0, 0, 0, 0, 0, 0, 0, 0, 0, 0, 0, 0, 0, 0, 0, 0, 0]

  /** The decoded IPv4 header, kept as its raw octets. */
  datatype Ipv4Header = Ipv4Header(raw: HeaderBytes)
  {
    function Ttl(): Byte
    {
      raw[TTL_OFFSET]
    }
  }

  /** `IPv4Header.unpack`, assumed to raise struct.error unless given exactly 20 bytes. */
  function UnpackIpv4(bs: seq<Byte>): (r: Result<Ipv4Header>)
    ensures r.Ok? <==> |bs| == HEADER_LEN
    ensures r.Err? ==> r.error == StructError
    ensures r.Ok? ==> r.value.raw == bs
  {
    if |bs| == HEADER_LEN then Ok(Ipv4Header(bs)) else Err(StructError)
  }

  /** The TTL of the decoded header is what get_ttl reads from the whole datagram. */
  lemma DecodedTtlIsGetTtl(packet: seq<Byte>)
    requires |packet| >= HEADER_LEN
    ensures UnpackIpv4(packet[..HEADER_LEN]).value.Ttl() == GetTtl(Buffer(packet)).value
  {
  }
}
