/** Byte strings as the Python code handles them. */
module Bytes {

  type Byte = b: int | 0 <= b < 256

  /** A Python argument that is either a bytes/bytearray object or something else. */
  datatype Operand = Buffer(bytes: seq<Byte>) | NotBuffer

  /** The 8-byte image of `struct.pack('d', time.clock())`; its meaning is not modelled. */
  type Timestamp = s: seq<Byte> | |s| == 8 witness [0, 0, 0, 0, 0, 0, 0, 0]

  /** The 16-bit value of two bytes read little-endian (`lo + (hi << 8)`). */
  function U16(lo: Byte, hi: Byte): (v: nat)
    ensures v <= 0xffff
  {
    lo as int + hi as int * 256
  }

  function Zeros(n: nat): (z: seq<Byte>)
    ensures |z| == n && forall i :: 0 <= i < n ==> z[i] == 0
  {
    if n == 0 then [] else Zeros(n - 1) + [0]
  }

  /** Python's slice `s[i:j]` for 0 <= i <= j: an end past the length is clamped. */
  function Slice(s: seq<Byte>, i: nat, j: nat): (r: seq<Byte>)
    requires i <= j
    ensures j <= |s| ==> r == s[i..j]
    ensures |s| < j ==> r == if i <= |s| then s[i..] else []
  {
    if j <= |s| then s[i..j] else if i <= |s| then s[i..] else []
  }

  /** `s.ljust(n, b'\x00')`: pads with zero bytes on the right up to length n. */
  function Ljust(s: seq<Byte>, n: int): (r: seq<Byte>)
    ensures |r| == if n <= |s| then |s| else n
    ensures r[..|s|] == s
    ensures forall i :: |s| <= i < |r| ==> r[i] == 0
  {
    if n <= |s| then s else s + Zeros(n - |s|)
  }
}
