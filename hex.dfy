/** Lower-case hexadecimal text, as Python's `hexdigest()` and `str(uuid4())`
    write it. */
module Hex {

  /** The hexadecimal digit of a nibble, in lower case as `hexdigest()`
      writes it. */
  function HexChar(n: int): (c: char)
    requires 0 <= n < 16
    ensures IsHexDigit(c) && HexValue(c) == n
  {
    if n < 10 then ('0' as int + n) as char else ('a' as int + n - 10) as char
  }

  predicate IsHexDigit(c: char)
  {
    '0' <= c <= '9' || 'a' <= c <= 'f'
  }

  /** The nibble a lower-case hexadecimal digit stands for. */
  function HexValue(c: char): (n: int)
    requires IsHexDigit(c)
    ensures 0 <= n < 16
  {
    if c <= '9' then c as int - '0' as int else c as int - 'a' as int + 10
  }

  /** `hexdigest()`: two lower-case digits per byte, high nibble first. */
  function HexDigest(d: seq<bv8>): (s: string)
    ensures |s| == 2 * |d|
    ensures forall i :: 0 <= i < |s| ==> IsHexDigit(s[i])
  {
    if d == [] then []
    else [HexChar(d[0] as int / 16), HexChar(d[0] as int % 16)] + HexDigest(d[1..])
  }

  /** Reading a hexadecimal string back into bytes. */
  function UnHex(s: string): (d: seq<bv8>)
    requires |s| % 2 == 0 && forall i :: 0 <= i < |s| ==> IsHexDigit(s[i])
    ensures 2 * |d| == |s|
  {
    if s == [] then []
    else [(HexValue(s[0]) * 16 + HexValue(s[1])) as bv8] + UnHex(s[2..])
  }

  /** Reading the hex digest back gives the digest: the encoding loses
      nothing. */
  lemma {:induction false} UnHexHexDigest(d: seq<bv8>)
    ensures UnHex(HexDigest(d)) == d
  {
    if d != [] {
      var b := d[0] as int;
      var s := HexDigest(d);
      assert s[2..] == HexDigest(d[1..]);
      UnHexHexDigest(d[1..]);
      assert HexValue(s[0]) * 16 + HexValue(s[1]) == b;
      assert (b as bv8) == d[0];
    }
  }

  /** Different digests have different hex digests. */
  lemma HexDigestInjective(a: seq<bv8>, b: seq<bv8>)
    ensures HexDigest(a) == HexDigest(b) ==> a == b
  {
    UnHexHexDigest(a);
    UnHexHexDigest(b);
  }
}
