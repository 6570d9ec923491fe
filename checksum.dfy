/**
 * get_icmp_checksum: the Internet checksum of RFC 1071 as the three ping modules
 * compute it. Words are read little-endian (`b[i] + (b[i+1] << 8)`), added with an
 * end-around carry, and the one's complement of the sum is returned. There is no
 * padding of an odd trailing byte: reading `b[i+1]` past the end raises IndexError.
 */
module Checksum {
  import opened Wrappers
  import opened Bytes

  /** carry_around_add: `c = a + b; (c & 0xffff) + (c >> 16)`, for non-negative a, b. */
  function CarryAroundAdd(a: nat, b: nat): (r: nat)
    ensures a <= 0xffff && b <= 0xffff ==> r <= 0xffff
    ensures a <= 0xffff && b <= 0xffff ==> r + 0xffff * Carry(a, b) == a + b
    ensures a <= 0xffff && b <= 0xffff ==> (r == 0 <==> a == 0 && b == 0)
  {
    var c := a + b;
    c % 0x10000 + c / 0x10000
  }

  /** The carry that CarryAroundAdd folds back into the low 16 bits. */
  function Carry(a: nat, b: nat): nat
  {
    (a + b) / 0x10000
  }

  /** The little-endian 16-bit word at offset i. */
  function Word(data: seq<Byte>, i: nat): (w: nat)
    requires i + 1 < |data|
    ensures w <= 0xffff
  {
    U16(data[i], data[i + 1])
  }

  /** The running sum `s` once the loop has consumed all of an even-length input. */
  function OnesSum(data: seq<Byte>): (s: nat)
    requires |data| % 2 == 0
    ensures s <= 0xffff
    decreases |data|
  {
    if data == [] then 0
    else CarryAroundAdd(OnesSum(data[..|data| - 2]), Word(data, |data| - 2))
  }

  /** Reference definition: the plain (unbounded) sum of the 16-bit words. */
  function WordTotal(data: seq<Byte>): nat
    requires |data| % 2 == 0
    decreases |data|
  {
    if data == [] then 0 else WordTotal(data[..|data| - 2]) + Word(data, |data| - 2)
  }

  /** How many carries OnesSum folded back; it links OnesSum to WordTotal. */
  function Folds(data: seq<Byte>): nat
    requires |data| % 2 == 0
    decreases |data|
  {
    if data == [] then 0
    else Folds(data[..|data| - 2]) + Carry(OnesSum(data[..|data| - 2]), Word(data, |data| - 2))
  }

  /** What get_icmp_checksum returns or raises for `data`. */
  function IcmpChecksum(data: seq<Byte>): (r: Result<nat>)
    ensures r.Err? <==> |data| % 2 == 1
    ensures r.Err? ==> r.error == IndexError
    ensures r.Ok? ==> r.value <= 0xffff
  {
    if |data| % 2 == 1 then Err(IndexError) else Ok(0xffff - OnesSum(data))
  }

  /**
   * The loop of get_icmp_checksum. Each step reads the word at i; on an odd length the
   * last step finds no byte at i + 1 and raises IndexError.
   */
  method GetIcmpChecksum(data: seq<Byte>) returns (r: Result<nat>)
    ensures r == IcmpChecksum(data)
  {
    var s := 0;
    var i := 0;
    while i + 1 < |data|
      invariant 0 <= i <= |data| && i % 2 == 0
      invariant s == OnesSum(data[..i])
    {
      var w := U16(data[i], data[i + 1]);
      OnesSumStep(data, i);
      s := CarryAroundAdd(s, w);
      i := i + 2;
    }
    LoopExit(data, i);
    if i < |data| {
      r := Err(IndexError);
    } else {
      r := Ok(0xffff - s);
    }
  }

  /** One iteration of the loop: the word at i is added to the sum of the bytes before it. */
  lemma OnesSumStep(data: seq<Byte>, i: nat)
    requires i % 2 == 0 && i + 1 < |data|
    ensures (i + 2) % 2 == 0
    ensures OnesSum(data[..i + 2]) == CarryAroundAdd(OnesSum(data[..i]), U16(data[i], data[i + 1]))
  {
    var next := data[..i + 2];
    assert next[..|next| - 2] == data[..i];
    assert Word(next, |next| - 2) == U16(data[i], data[i + 1]);
  }

  /** Where the loop stops: one byte short of the end (odd length) or at the end. */
  lemma LoopExit(data: seq<Byte>, i: nat)
    requires i % 2 == 0 && i <= |data| && i + 1 >= |data|
    ensures i < |data| ==> IcmpChecksum(data) == Err(IndexError)
    ensures i == |data| ==> data[..i] == data && IcmpChecksum(data) == Ok(0xffff - OnesSum(data[..i]))
  {
    if i < |data| {
      assert |data| == i + 1;
      Parity(i);
    } else {
      assert data[..i] == data;
    }
  }

  /** The end-around-carry sum differs from the plain sum by a multiple of 0xffff. */
  lemma {:induction false} OnesSumFolds(data: seq<Byte>)
    requires |data| % 2 == 0
    ensures OnesSum(data) + 0xffff * Folds(data) == WordTotal(data)
    decreases |data|
  {
    if data != [] {
      OnesSumFolds(data[..|data| - 2]);
    }
  }

  /** The end-around-carry sum is zero exactly when every word is zero. */
  lemma {:induction false} OnesSumZero(data: seq<Byte>)
    requires |data| % 2 == 0
    ensures OnesSum(data) == 0 <==> WordTotal(data) == 0
    decreases |data|
  {
    if data != [] {
      OnesSumZero(data[..|data| - 2]);
    }
  }

  /** WordTotal is additive over concatenation at an even boundary. */
  lemma {:induction false} WordTotalAppend(a: seq<Byte>, b: seq<Byte>)
    requires |a| % 2 == 0 && |b| % 2 == 0
    ensures WordTotal(a + b) == WordTotal(a) + WordTotal(b)
    decreases |b|
  {
    if b == [] {
      assert a + b == a;
    } else {
      var b' := b[..|b| - 2];
      assert (a + b)[..|a + b| - 2] == a + b';
      assert Word(a + b, |a + b| - 2) == Word(b, |b| - 2);
      WordTotalAppend(a, b');
    }
  }

  /**
   * The checksum is the one's complement of the sum of the words: adding it to the
   * plain sum gives a multiple of 0xffff (0xffff is the one's-complement zero).
   */
  lemma ChecksumComplementsSum(data: seq<Byte>)
    requires |data| % 2 == 0
    ensures (IcmpChecksum(data).value + WordTotal(data)) % 0xffff == 0
    ensures IcmpChecksum(data).value == 0xffff <==> WordTotal(data) == 0
  {
    OnesSumFolds(data);
    OnesSumZero(data);
    assert IcmpChecksum(data).value == 0xffff - OnesSum(data);
    ComplementOfFolded(OnesSum(data), Folds(data), WordTotal(data));
  }

  /** A 16-bit value s that is t minus f multiples of 0xffff has a complement 0xffff - s that tops t up to a multiple of 0xffff. */
  lemma ComplementOfFolded(s: nat, f: nat, t: nat)
    requires s <= 0xffff && s + 0xffff * f == t
    ensures ((0xffff - s) + t) % 0xffff == 0
  {
    assert (0xffff - s) + t == 0xffff * (1 + f);
    MultipleMod(1 + f);
  }

  lemma Parity(i: nat)
    requires i % 2 == 0
    ensures (i + 1) % 2 == 1 && (i + 2) % 2 == 0
  {
  }

  /** A prefix of even length does not change the parity of a length. */
  lemma ParityShift(n: int, k: int)
    requires k % 2 == 0
    ensures (k + n) % 2 == n % 2
  {
  }

  lemma MultipleMod(m: nat)
    ensures (0xffff * m) % 0xffff == 0
  {
  }

  /** Stores the 16-bit value c little-endian at bytes 2..3 of data. */
  function WithChecksum(data: seq<Byte>, c: nat): (r: seq<Byte>)
    requires |data| >= 4 && c <= 0xffff
    ensures |r| == |data| && r[..2] == data[..2] && r[4..] == data[4..]
  {
    data[..2] + [c % 256, c / 256] + data[4..]
  }

  /** Bytes 2..3 then read back, little-endian, as c. */
  lemma WithChecksumStores(data: seq<Byte>, c: nat)
    requires |data| >= 4 && c <= 0xffff
    ensures U16(WithChecksum(data, c)[2], WithChecksum(data, c)[3]) == c
  {
  }

  /** A second store overrides the first; storing the value already there changes nothing. */
  lemma WithChecksumOverride(data: seq<Byte>, c: nat, c': nat)
    requires |data| >= 4 && c <= 0xffff && c' <= 0xffff
    ensures WithChecksum(WithChecksum(data, c), c') == WithChecksum(data, c')
    ensures data[2] == 0 && data[3] == 0 ==> WithChecksum(data, 0) == data
  {
    if data[2] == 0 && data[3] == 0 {
      assert data == data[..2] + [0, 0] + data[4..];
    }
  }

  /** Storing the checksum in a header and then appending a payload commute. */
  lemma WithChecksumAppend(a: seq<Byte>, b: seq<Byte>, c: nat)
    requires |a| >= 4 && c <= 0xffff
    ensures WithChecksum(a, c) + b == WithChecksum(a + b, c)
  {
    assert (a + b)[..2] == a[..2];
    assert (a + b)[4..] == a[4..] + b;
  }

  /**
   * Section 1 of RFC 1071: once the checksum computed with the checksum field at zero
   * is stored in that field, the checksum of the whole message is 0.
   */
  lemma {:induction false} ChecksumVerifies(data: seq<Byte>)
    requires |data| % 2 == 0 && |data| >= 4 && data[2] == 0 && data[3] == 0
    ensures IcmpChecksum(WithChecksum(data, IcmpChecksum(data).value)) == Ok(0)
  {
    var c := IcmpChecksum(data).value;
    var filled := WithChecksum(data, c);
    var head, tail := data[..2], data[4..];
    assert data == head + data[2..4] + tail;
    assert filled == head + filled[2..4] + tail;
    assert WordTotal(data[2..4]) == 0 by {
      assert data[2..4][..0] == [];
    }
    assert WordTotal(filled[2..4]) == c by {
      WithChecksumStores(data, c);
      assert filled[2..4][..0] == [];
    }
    WordTotalAppend(head, data[2..4]);
    WordTotalAppend(head + data[2..4], tail);
    WordTotalAppend(head, filled[2..4]);
    WordTotalAppend(head + filled[2..4], tail);
    assert WordTotal(filled) == WordTotal(data) + c;
    OnesSumFolds(data);
    OnesSumFolds(filled);
    OnesSumZero(data);
    OnesSumZero(filled);
    var n := 1 + Folds(data) - Folds(filled);
    assert OnesSum(filled) == 0xffff * n;
    assert OnesSum(filled) != 0;
    assert n == 1;
  }
}
