/** Little-endian fixed-width reads and writes over a byte string, as `struct` does them. */
module Bytes {

  type byte = n: int | 0 <= n < 256

  const TWO16: int := 0x1_0000
  const TWO32: int := 0x1_0000_0000

  function U16(raw: seq<byte>, o: nat): (n: nat)
    requires o + 2 <= |raw|
    ensures n < TWO16
  {
    raw[o] as int + 256 * raw[o + 1] as int
  }

  function U32(raw: seq<byte>, o: nat): (n: nat)
    requires o + 4 <= |raw|
    ensures n < TWO32
  {
    U16(raw, o) + TWO16 * U16(raw, o + 2)
  }

  /** Byte `i` of a number of at most four bytes, the lowest first. */
  function ByteOf(n: nat, i: nat): byte {
    if i == 0 then n % 256
    else if i == 1 then n / 256 % 256
    else if i == 2 then n / 65_536 % 256
    else n / 16_777_216 % 256
  }

  function Put16(n: nat): (s: seq<byte>)
    requires n < TWO16
    ensures |s| == 2
  {
    seq(2, i requires 0 <= i < 2 => ByteOf(n, i))
  }

  function Put32(n: nat): (s: seq<byte>)
    requires n < TWO32
    ensures |s| == 4
  {
    seq(4, i requires 0 <= i < 4 => ByteOf(n, i))
  }

  function Zeros(n: nat): (s: seq<byte>)
    ensures |s| == n
  {
    seq(n, _ => 0)
  }

  /** The bytes `s` stand in `raw` at offset `o`. */
  ghost predicate At(raw: seq<byte>, o: nat, s: seq<byte>) {
    o + |s| <= |raw| && forall i {:trigger s[i]} :: 0 <= i < |s| ==> raw[o + i] == s[i]
  }

  lemma AtSplit(raw: seq<byte>, o: nat, a: seq<byte>, b: seq<byte>)
    requires At(raw, o, a + b)
    ensures At(raw, o, a)
    ensures At(raw, o + |a|, b)
  {
    forall i | 0 <= i < |a| ensures raw[o + i] == a[i] {
      assert (a + b)[i] == a[i];
    }
    forall i | 0 <= i < |b| ensures raw[o + |a| + i] == b[i] {
      assert (a + b)[|a| + i] == b[i];
    }
  }

  lemma AtSlice(raw: seq<byte>, o: nat, s: seq<byte>)
    ensures At(raw, o, s) <==> o + |s| <= |raw| && raw[o..o + |s|] == s
  {
    if At(raw, o, s) {
      assert forall i :: 0 <= i < |s| ==> raw[o..o + |s|][i] == s[i];
    }
  }

  lemma ReadPut16(raw: seq<byte>, o: nat, n: nat)
    requires n < TWO16 && At(raw, o, Put16(n))
    ensures U16(raw, o) == n
  {
    assert raw[o] == Put16(n)[0] && raw[o + 1] == Put16(n)[1];
  }

  lemma FourBytes(n: nat)
    requires n < TWO32
    ensures ByteOf(n, 0) + 256 * ByteOf(n, 1) + TWO16 * (ByteOf(n, 2) + 256 * ByteOf(n, 3)) == n
  {
    var a := n / 256;
    var b := a / 256;
    assert n / 65_536 == b && n / 16_777_216 == b / 256;
  }

  lemma ReadPut32(raw: seq<byte>, o: nat, n: nat)
    requires n < TWO32 && At(raw, o, Put32(n))
    ensures U32(raw, o) == n
  {
    var s := Put32(n);
    assert raw[o] == s[0] && raw[o + 1] == s[1] && raw[o + 2] == s[2] && raw[o + 3] == s[3];
    FourBytes(n);
  }

  /** Read one word and step over it. */
  lemma Word16(raw: seq<byte>, o: nat, n: nat, rest: seq<byte>)
    requires n < TWO16 && At(raw, o, Put16(n) + rest)
    ensures o + 2 <= |raw| && U16(raw, o) == n && At(raw, o + 2, rest)
  {
    AtSplit(raw, o, Put16(n), rest);
    ReadPut16(raw, o, n);
  }

  lemma Word32(raw: seq<byte>, o: nat, n: nat, rest: seq<byte>)
    requires n < TWO32 && At(raw, o, Put32(n) + rest)
    ensures o + 4 <= |raw| && U32(raw, o) == n && At(raw, o + 4, rest)
  {
    AtSplit(raw, o, Put32(n), rest);
    ReadPut32(raw, o, n);
  }
}
