/** MD5 digests and their lowercase hexadecimal rendering (`hexdigest()`).
    The MD5 function itself is not modelled: it is a parameter of the model
    (see `Fetch.Env`); only the shape of its result, 16 bytes, is fixed here. */
module Digest {

  type byte = x: int | 0 <= x < 256

  /** A 16-byte MD5 digest. */
  type Md5 = d: seq<byte> | |d| == 16 witness seq(16, _ => 0)

  predicate IsLowerHex(c: char) {
    '0' <= c <= '9' || 'a' <= c <= 'f'
  }

  /** The hexadecimal digit for a nibble, lower case as `hexdigest()` writes it. */
  function HexDigit(n: int): (c: char)
    requires 0 <= n < 16
    ensures IsLowerHex(c)
    ensures c == "0123456789abcdef"[n]
  {
    if n < 10 then ('0' as int + n) as char else ('a' as int + n - 10) as char
  }

  /** Two hex digits per byte, high nibble first. */
  function HexByte(b: byte): (r: string)
    ensures |r| == 2 && IsLowerHex(r[0]) && IsLowerHex(r[1])
  {
    [HexDigit(b / 16), HexDigit(b % 16)]
  }

  /** `hexdigest()`: every byte of the digest as two lowercase hex digits. */
  function HexDigest(d: seq<byte>): (r: string)
    ensures |r| == 2 * |d|
    ensures forall i :: 0 <= i < |r| ==> IsLowerHex(r[i])
  {
    if d == [] then [] else HexByte(d[0]) + HexDigest(d[1..])
  }

  lemma HexByteInjective(a: byte, b: byte)
    requires HexByte(a) == HexByte(b)
    ensures a == b
  {
  }

  /** Comparing hex digests compares the digests themselves. */
  lemma {:induction false} HexDigestInjective(a: seq<byte>, b: seq<byte>)
    requires HexDigest(a) == HexDigest(b)
    ensures a == b
  {
    if a != [] {
      var ha, hb := HexDigest(a), HexDigest(b);
      assert |b| == |a|;
      assert ha[..2] == HexByte(a[0]) && hb[..2] == HexByte(b[0]);
      HexByteInjective(a[0], b[0]);
      assert ha[2..] == HexDigest(a[1..]) && hb[2..] == HexDigest(b[1..]);
      HexDigestInjective(a[1..], b[1..]);
      assert a == [a[0]] + a[1..] && b == [b[0]] + b[1..];
    }
  }
}
