/**
 * The ICMP header (RFC 792: type, code, checksum, identifier, sequence number) as the
 * IcmpHeader namedtuple packs it with `struct`. utils/ping.py and myping/utils/ping.py
 * use the format 'BBHHH'; pinglib.py uses 'bbHHh', which makes type and code signed
 * bytes and the sequence number a signed short. Native byte order is taken to be
 * little-endian; neither format has alignment padding, so both are 8 bytes long.
 */
module Icmp {
  import opened Wrappers
  import opened Bytes
  import Checksum

  /** The (type, code) pairs of myping/constants.py. */
  const ECHO_REQUEST: (int, int) := (8, 0)
  const ECHO_REPLY: (int, int) := (0, 0)
  const TTL_EXCEEDED: (int, int) := (11, 0)

  /** One `struct` field code: B, b, H or h. */
  datatype Field = UByte | SByte | UShort | SShort

  function Width(f: Field): nat
  {
    match f
    case UByte => 1
    case SByte => 1
    case UShort => 2
    case SShort => 2
  }

  function Modulus(f: Field): nat
  {
    if Width(f) == 1 then 0x100 else 0x10000
  }

  predicate SignedCode(f: Field)
  {
    f == SByte || f == SShort
  }

  /** The range that `struct.pack` accepts for the field; any other value raises struct.error. */
  predicate Fits(f: Field, v: int)
  {
    if SignedCode(f) then -(Modulus(f) / 2) <= v < Modulus(f) / 2 else 0 <= v < Modulus(f)
  }

  /** Little-endian, two's complement for the signed codes. */
  function EncodeField(f: Field, v: int): (bs: seq<Byte>)
    requires Fits(f, v)
    ensures |bs| == Width(f)
  {
    var u := if v < 0 then v + Modulus(f) else v;
    if Width(f) == 1 then [u] else [u % 256, u / 256]
  }

  function DecodeField(f: Field, bs: seq<Byte>): (v: int)
    requires |bs| == Width(f)
    ensures Fits(f, v)
  {
    var u := if |bs| == 1 then bs[0] as int else U16(bs[0], bs[1]);
    if SignedCode(f) && u >= Modulus(f) / 2 then u - Modulus(f) else u
  }

  lemma DecodeEncodeField(f: Field, v: int)
    requires Fits(f, v)
    ensures DecodeField(f, EncodeField(f, v)) == v
  {
  }

  lemma EncodeDecodeField(f: Field, bs: seq<Byte>)
    requires |bs| == Width(f)
    ensures EncodeField(f, DecodeField(f, bs)) == bs
  {
  }

  /** The two header formats: 'BBHHH' and 'bbHHh'. */
  datatype Format = Unsigned | Signed

  function ByteField(fmt: Format): Field
  {
    if fmt == Unsigned then UByte else SByte
  }

  function SeqField(fmt: Format): Field
  {
    if fmt == Unsigned then UShort else SShort
  }

  /** `__len__`: `struct.calcsize` of the format. */
  function Len(fmt: Format): (n: nat)
    ensures n == 8
  {
    2 * Width(ByteField(fmt)) + 2 * Width(UShort) + Width(SeqField(fmt))
  }

  datatype IcmpHeader = IcmpHeader(icmpType: int, code: int, checksum: int, id: int, seqNum: int)

  /** The `function` property: the (type, code) pair that tells message kinds apart. */
  function Function(h: IcmpHeader): (int, int)
  {
    (h.icmpType, h.code)
  }

  /** Every field is in the range its format code accepts. */
  predicate HeaderFits(fmt: Format, h: IcmpHeader)
  {
    && Fits(ByteField(fmt), h.icmpType)
    && Fits(ByteField(fmt), h.code)
    && Fits(UShort, h.checksum)
    && Fits(UShort, h.id)
    && Fits(SeqField(fmt), h.seqNum)
  }

  /** `IcmpHeader.pack`: `struct.pack(fmt, *self)`. */
  function Pack(fmt: Format, h: IcmpHeader): (r: Result<seq<Byte>>)
    ensures r.Ok? <==> HeaderFits(fmt, h)
    ensures r.Err? ==> r.error == StructError
    ensures r.Ok? ==> |r.value| == Len(fmt)
  {
    if HeaderFits(fmt, h) then
      Ok(EncodeField(ByteField(fmt), h.icmpType) + EncodeField(ByteField(fmt), h.code)
         + EncodeField(UShort, h.checksum) + EncodeField(UShort, h.id)
         + EncodeField(SeqField(fmt), h.seqNum))
    else
      Err(StructError)
  }

  /** `IcmpHeader.unpack`: `struct.unpack` demands a buffer of exactly calcsize(fmt) bytes. */
  function Unpack(fmt: Format, bs: seq<Byte>): (r: Result<IcmpHeader>)
    ensures r.Ok? <==> |bs| == Len(fmt)
    ensures r.Err? ==> r.error == StructError
    ensures r.Ok? ==> HeaderFits(fmt, r.value)
  {
    if |bs| != Len(fmt) then Err(StructError)
    else
      Ok(IcmpHeader(DecodeField(ByteField(fmt), bs[0..1]), DecodeField(ByteField(fmt), bs[1..2]),
                    DecodeField(UShort, bs[2..4]), DecodeField(UShort, bs[4..6]),
                    DecodeField(SeqField(fmt), bs[6..8])))
  }

  /** unpack(pack(h)) == h for every header whose fields fit the format. */
  lemma {:induction false} UnpackPack(fmt: Format, h: IcmpHeader)
    requires HeaderFits(fmt, h)
    ensures Unpack(fmt, Pack(fmt, h).value) == Ok(h)
  {
    var bs := Pack(fmt, h).value;
    var bf, sf := ByteField(fmt), SeqField(fmt);
    assert bs[0..1] == EncodeField(bf, h.icmpType);
    assert bs[1..2] == EncodeField(bf, h.code);
    assert bs[2..4] == EncodeField(UShort, h.checksum);
    assert bs[4..6] == EncodeField(UShort, h.id);
    assert bs[6..8] == EncodeField(sf, h.seqNum);
    DecodeEncodeField(bf, h.icmpType);
    DecodeEncodeField(bf, h.code);
    DecodeEncodeField(UShort, h.checksum);
    DecodeEncodeField(UShort, h.id);
    DecodeEncodeField(sf, h.seqNum);
  }

  /** pack(unpack(b)) == b for every 8-byte buffer: the codec loses nothing. */
  lemma {:induction false} PackUnpack(fmt: Format, bs: seq<Byte>)
    requires |bs| == Len(fmt)
    ensures Pack(fmt, Unpack(fmt, bs).value) == Ok(bs)
  {
    var bf, sf := ByteField(fmt), SeqField(fmt);
    EncodeDecodeField(bf, bs[0..1]);
    EncodeDecodeField(bf, bs[1..2]);
    EncodeDecodeField(UShort, bs[2..4]);
    EncodeDecodeField(UShort, bs[4..6]);
    EncodeDecodeField(sf, bs[6..8]);
    assert bs == bs[0..1] + bs[1..2] + bs[2..4] + bs[4..6] + bs[6..8];
  }

  /**
   * Re-packing with another checksum changes only bytes 2..3, which then hold the
   * checksum little-endian.
   */
  lemma PackWithChecksum(fmt: Format, h: IcmpHeader, c: nat)
    requires HeaderFits(fmt, h) && c <= 0xffff
    ensures Pack(fmt, h.(checksum := c)) == Ok(Checksum.WithChecksum(Pack(fmt, h).value, c))
  {
    var v := Pack(fmt, h).value;
    var front := EncodeField(ByteField(fmt), h.icmpType) + EncodeField(ByteField(fmt), h.code);
    var back := EncodeField(UShort, h.id) + EncodeField(SeqField(fmt), h.seqNum);
    assert v == front + EncodeField(UShort, h.checksum) + back;
    assert v[..2] == front && v[4..] == back;
    assert Pack(fmt, h.(checksum := c)).value == front + EncodeField(UShort, c) + back;
  }

  /** Type and code codes in 0..127 are stored as themselves in bytes 0 and 1, in both formats. */
  lemma PackedFunction(fmt: Format, h: IcmpHeader)
    requires HeaderFits(fmt, h) && 0 <= h.icmpType < 128 && 0 <= h.code < 128
    ensures Pack(fmt, h).value[..2] == [h.icmpType, h.code]
  {
  }

  /** With 'bbHHh' a sequence number outside -32768..32767 makes pack raise struct.error. */
  lemma SignedSeqRange(h: IcmpHeader)
    ensures Pack(Signed, h).Ok? ==> -32768 <= h.seqNum <= 32767
    ensures h.seqNum > 32767 ==> Pack(Signed, h) == Err(StructError)
  {
  }
}
