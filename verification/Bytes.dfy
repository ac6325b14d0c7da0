/** Bytes and little-endian fields. */
module Bytes {
  type Byte = b: int | 0 <= b < 256

  function Le(n: nat, w: nat): (bs: seq<Byte>)
    ensures |bs| == w
  {
    if w == 0 then [] else [n % 256] + Le(n / 256, w - 1)
  }

  function UnLe(bs: seq<Byte>): nat { if bs == [] then 0 else bs[0] + 256 * UnLe(bs[1..]) }

  /** The first byte is the lowest. */
  lemma LittleEndian(a: Byte, b: Byte, c: Byte, d: Byte)
    ensures UnLe([a, b, c, d]) == a + 256 * b + 65536 * c + 16777216 * d
  {
    var s: seq<Byte> := [a, b, c, d];
    assert s[1..] == [b, c, d] && s[1..][1..] == [c, d] && s[1..][1..][1..] == [d] && s[1..][1..][1..][1..] == [];
    assert UnLe(s[1..][1..]) == c + 256 * UnLe(s[1..][1..][1..]);
  }

  /** The values a field of w bytes can hold. */
  function Cap(w: nat): nat { if w == 0 then 1 else 256 * Cap(w - 1) }

  lemma {:induction false} LeRoundTrip(n: nat, w: nat)
    requires n < Cap(w)
    ensures UnLe(Le(n, w)) == n
  {
    if w > 0 {
      LeRoundTrip(n / 256, w - 1);
      assert Le(n, w)[1..] == Le(n / 256, w - 1);
    }
  }

  lemma {:induction false} UnLeRoundTrip(bs: seq<Byte>)
    ensures UnLe(bs) < Cap(|bs|) && Le(UnLe(bs), |bs|) == bs
  {
    if bs != [] {
      UnLeRoundTrip(bs[1..]);
      assert UnLe(bs) / 256 == UnLe(bs[1..]);
    }
  }
}
