/** Bytes, and numbers in network byte order. */
module Bytes {
  import opened Arithmetic

  newtype byte = x: int | 0 <= x < 256

  /** 256 to the power of width: how many values that many bytes have. */
  function Values(width: nat): (v: nat)
    ensures v > 0
  {
    if width == 0 then 1 else 256 * Values(width - 1)
  }

  /** n in `width` bytes, the most significant first. */
  function Big(n: nat, width: nat): (s: seq<byte>)
    requires n < Values(width)
    ensures |s| == width
  {
    if width == 0 then [] else Big(n / 256, width - 1) + [(n % 256) as byte]
  }

  function FromBig(s: seq<byte>): nat {
    if s == [] then 0 else 256 * FromBig(s[..|s| - 1]) + s[|s| - 1] as nat
  }

  /** Network order: byte 0 is the most significant, and each later one the next digit. */
  lemma {:induction false} BigAt(n: nat, width: nat, i: nat)
    requires n < Values(width) && i < width
    ensures Big(n, width)[i] as nat == n / Values(width - 1 - i) % 256
  {
    if i < width - 1 {
      BigAt(n / 256, width - 1, i);
      DivTwice(n, Values(width - 2 - i));
    }
  }

  lemma DivTwice(n: nat, v: nat)
    requires v > 0
    ensures n / 256 / v == n / (256 * v)
  {
    var a, b := n / 256, n % 256;
    var q, r := a / v, a % v;
    assert n == 256 * a + b && a == v * q + r;
    assert n == (256 * v) * q + (256 * r + b);
    assert 256 * r + b < 256 * v;
    DivModIs(256 * v, n, q, 256 * r + b);
  }

  /** And what the bytes of a number mean, whoever wrote them. */
  lemma {:induction false} FromBigFirst(s: seq<byte>)
    requires s != []
    ensures FromBig(s) == s[0] as nat * Values(|s| - 1) + FromBig(s[1..])
    decreases |s|
  {
    var n := |s| - 1;
    if n == 0 {
      assert s[..0] == [] && s[1..] == [];
    } else {
      var front, last := s[..n], s[n] as nat;
      FromBigFirst(front);
      assert s[1..][..n - 1] == front[1..];
      assert FromBig(s[1..]) == 256 * FromBig(front[1..]) + last;
      Times256(s[0] as nat, Values(n - 1), FromBig(front[1..]));
    }
  }

  lemma Times256(a: nat, v: nat, b: nat)
    ensures 256 * (a * v + b) == a * (256 * v) + 256 * b
  {
  }

  lemma {:induction false} FromBigOfBig(n: nat, width: nat)
    requires n < Values(width)
    ensures FromBig(Big(n, width)) == n
  {
    if width > 0 {
      FromBigOfBig(n / 256, width - 1);
      var s := Big(n, width);
      assert s[..|s| - 1] == Big(n / 256, width - 1);
    }
  }

  /** A signed number kept in that many bytes as two's complement. */
  function Unsigned(x: int, width: nat): (n: nat)
    ensures n < Values(width)
  {
    x % Values(width)
  }

  function Signed(n: nat, width: nat): int {
    if 2 * n < Values(width) then n else n - Values(width)
  }

  lemma SmallValues()
    ensures Values(2) == 0x1_0000 && Values(4) == 0x1_0000_0000 && Values(8) == 0x1_0000_0000_0000_0000
  {
    assert Values(1) == 256 && Values(2) == 0x1_0000 && Values(3) == 0x100_0000 && Values(4) == 0x1_0000_0000;
    assert Values(5) == 0x100_0000_0000 && Values(6) == 0x1_0000_0000_0000 && Values(7) == 0x100_0000_0000_0000;
  }

  /** Two's complement loses nothing within its range. */
  lemma SignedOfUnsigned(x: int, width: nat)
    requires 0 <= 2 * x + Values(width) < 2 * Values(width)
    ensures Signed(Unsigned(x, width), width) == x
  {
    var v := Values(width);
    if x >= 0 {
      ModSmall(x, v);
    } else {
      ModSmall(x + v, v);
      ModShift(x, v);
    }
  }

  lemma ModSmall(n: nat, v: nat)
    requires n < v
    ensures n % v == n
  {
    DivModUnique(v, 0, n);
  }

  lemma ModShift(x: int, v: nat)
    requires v > 0 && 0 <= x + v < v
    ensures x % v == (x + v) % v
  {
    ModSmall(x + v, v);
  }
}
