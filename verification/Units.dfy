/** Bytes, 16-bit characters, and the numbers and texts little-endian bytes hold. */
module Units {
  type byte = x: int | 0 <= x < 0x100
  type wchar = x: int | 0 <= x < 0x1_0000
  type uint32 = x: int | 0 <= x < 0x1_0000_0000
  type Text = seq<wchar>

  function Min(a: nat, b: nat): nat { if a < b then a else b }

  /** What a 32-bit result keeps of a number. */
  function Low32(n: nat): nat { n % 0x1_0000_0000 }

  function Power256(n: nat): nat { if n == 0 then 1 else 256 * Power256(n - 1) }

  /** The number of the first bytes, the least significant one first. */
  function Number(d: seq<byte>, size: nat): (n: nat)
    requires size <= |d|
    ensures n < Power256(size)
    decreases size
  {
    if size == 0 then 0 else var low: int := d[0]; low + 256 * Number(d[1..], size - 1)
  }

  function Little(n: nat, size: nat): (d: seq<byte>)
    ensures |d| == size
  {
    if size == 0 then [] else [n % 256] + Little(n / 256, size - 1)
  }

  lemma {:induction false} NumberOfLittle(n: nat, size: nat, rest: seq<byte>)
    requires n < Power256(size)
    ensures Number(Little(n, size) + rest, size) == n
  {
    if size > 0 {
      NumberOfLittle(n / 256, size - 1, rest);
      assert (Little(n, size) + rest)[1..] == Little(n / 256, size - 1) + rest;
    }
  }

  lemma Powers()
    ensures Power256(2) == 0x1_0000 && Power256(4) == 0x1_0000_0000 && Power256(8) == 0x1_0000_0000_0000_0000
  {
    assert Power256(0) == 1 && Power256(1) == 0x100 && Power256(3) == 0x100_0000;
    assert Power256(5) == 0x100_0000_0000 && Power256(6) == 0x1_0000_0000_0000 && Power256(7) == 0x100_0000_0000_0000;
  }

  lemma TwoBytes(n: nat, rest: seq<byte>)
    requires n < 0x1_0000
    ensures Number(Little(n, 2) + rest, 2) == n
  {
    Powers();
    NumberOfLittle(n, 2, rest);
  }

  lemma FourBytes(n: nat, rest: seq<byte>)
    requires n < 0x1_0000_0000
    ensures Number(Little(n, 4) + rest, 4) == n
  {
    Powers();
    NumberOfLittle(n, 4, rest);
  }

  lemma EightBytes(n: nat, rest: seq<byte>)
    requires n < 0x1_0000_0000_0000_0000
    ensures Number(Little(n, 8) + rest, 8) == n
  {
    Powers();
    NumberOfLittle(n, 8, rest);
  }

  lemma {:induction false} SameNumber(d: seq<byte>, size: nat)
    requires size <= |d|
    ensures Number(d[..size], size) == Number(d, size)
    decreases size
  {
    if size > 0 {
      SameNumber(d[1..], size - 1);
      assert d[..size][1..] == d[1..][..size - 1];
    }
  }

  /** A character's two bytes. */
  function Two(d: seq<byte>): wchar
    requires |d| >= 2
  {
    var low: int, high: int := d[0], d[1];
    low + 256 * high
  }

  /** The characters in bytes; an odd last byte is none. */
  function Wide(d: seq<byte>): (t: Text)
    ensures |t| == |d| / 2
  {
    if |d| < 2 then [] else [Two(d)] + Wide(d[2..])
  }

  function Split(c: wchar): (d: seq<byte>)
    ensures |d| == 2
  {
    [c % 256, c / 256]
  }

  function Encoded(t: Text): (d: seq<byte>)
    ensures |d| == 2 * |t|
  {
    if t == [] then [] else Split(t[0]) + Encoded(t[1..])
  }

  lemma WideMore(c: wchar, d: seq<byte>)
    ensures Wide(Split(c) + d) == [c] + Wide(d)
  {
    assert (Split(c) + d)[2..] == d;
    TwoOf(c, Split(c) + d);
    hide Two, Split;
  }

  lemma TwoOf(c: wchar, d: seq<byte>)
    requires Split(c) <= d
    ensures Two(d) == c
  {}

  lemma {:induction false} WideOfEncoded(t: Text, rest: seq<byte>)
    ensures Wide(Encoded(t) + rest) == t + Wide(rest)
  {
    hide Wide, Split;
    if t == [] {
      assert Encoded(t) + rest == rest && t + Wide(rest) == Wide(rest);
    } else {
      WideOfEncoded(t[1..], rest);
      WideMore(t[0], Encoded(t[1..]) + rest);
      assert Encoded(t) + rest == Split(t[0]) + (Encoded(t[1..]) + rest);
      assert t + Wide(rest) == [t[0]] + (t[1..] + Wide(rest));
    }
  }

  /** wcsnlen: the text before its first NUL. */
  function BeforeNul(t: Text): (r: Text)
    ensures r <= t && 0 !in r && (|r| < |t| ==> t[|r|] == 0)
  {
    if t == [] || t[0] == 0 then [] else [t[0]] + BeforeNul(t[1..])
  }

  lemma {:induction false} BeforeNulIs(t: Text, rest: Text)
    requires 0 !in t && (rest == [] || rest[0] == 0)
    ensures BeforeNul(t + rest) == t
  {
    if t == [] {
      assert t + rest == rest;
    } else {
      assert (t + rest)[1..] == t[1..] + rest;
      BeforeNulIs(t[1..], rest);
    }
  }
}
