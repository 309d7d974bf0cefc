// Numbers of a fixed width in a file, least significant byte first.

module LittleEndian {
  import opened Basics

  /** The low bytes of a number, least significant first. */
  function Le(n: nat, width: nat): (r: seq<Byte>)
    ensures |r| == width
  {
    if width == 0 then [] else [n % 256] + Le(n / 256, width - 1)
  }

  function UnLe(bytes: seq<Byte>): nat {
    if bytes == [] then 0 else bytes[0] + 256 * UnLe(bytes[1..])
  }

  function Pow256(n: nat): nat {
    if n == 0 then 1 else 256 * Pow256(n - 1)
  }

  lemma {:induction false} LeRoundTrip(n: nat, width: nat)
    requires n < Pow256(width)
    ensures UnLe(Le(n, width)) == n
  {
    if width > 0 {
      LeRoundTrip(n / 256, width - 1);
      assert Le(n, width)[1..] == Le(n / 256, width - 1);
    }
  }

  lemma Widths()
    ensures Pow256(4) == 0x1_0000_0000 && Pow256(8) == 0x1_0000_0000_0000_0000
  {
    assert Pow256(2) == 0x1_0000;
    assert Pow256(4) == 0x1_0000_0000;
    assert Pow256(6) == 0x1_0000_0000_0000;
  }

  /** A number that does not fit loses its high part. */
  lemma {:induction false} LeTruncates(n: nat, width: nat)
    ensures Pow256(width) > 0 && UnLe(Le(n, width)) == n % Pow256(width)
  {
    if width > 0 {
      LeTruncates(n / 256, width - 1);
      assert Le(n, width)[1..] == Le(n / 256, width - 1);
      RemainderByParts(n, Pow256(width - 1));
    }
  }

  lemma RemainderByParts(n: nat, m: nat)
    requires m > 0
    ensures n % (256 * m) == n % 256 + 256 * ((n / 256) % m)
  {
    var q, r := n / 256, n % 256;
    var a, b := q / m, q % m;
    assert q == m * a + b;
    assert n == (256 * m) * a + (256 * b + r);
    RemainderIs(n, 256 * m, a, 256 * b + r);
  }

  lemma RemainderIs(x: int, d: nat, q: int, r: nat)
    requires d > 0 && r < d && x == d * q + r
    ensures x % d == r
  {
    var p := x / d;
    assert x == d * p + x % d;
    var k := p - q;
    assert d * k == r - x % d;
  }
}
