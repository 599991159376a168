/** Octets and big-endian words, as encoding/binary reads and writes them. */
module Bytes {
  type byte = x: int | 0 <= x < 256

  datatype Option<+T> = None | Some(value: T)

  function Pow256(width: nat): (p: nat)
    ensures p > 0
  {
    if width == 0 then 1 else 256 * Pow256(width - 1)
  }

  /** PutUint16, PutUint32 and PutUint64: the low `width` octets of n. */
  function Put(n: nat, width: nat): (b: seq<byte>)
    ensures |b| == width
  {
    if width == 0 then [] else Put(n / 256, width - 1) + [n % 256]
  }

  /** Uint16, Uint32 and Uint64. */
  function Get(b: seq<byte>): nat {
    if b == [] then 0 else Get(b[..|b| - 1]) * 256 + b[|b| - 1]
  }

  /** copy(b[at:], data). */
  function Splice(b: seq<byte>, at: nat, data: seq<byte>): (r: seq<byte>)
    requires at + |data| <= |b|
    ensures |r| == |b|
  {
    b[..at] + data + b[at + |data|..]
  }

  /** One behind the other. */
  function Concat(bs: seq<seq<byte>>): seq<byte> {
    if bs == [] then [] else bs[0] + Concat(bs[1..])
  }

  lemma {:induction false} GetBound(b: seq<byte>)
    ensures Get(b) < Pow256(|b|)
  {
    if b != [] {
      GetBound(b[..|b| - 1]);
    }
  }

  /** Reading back what was written gives the number, truncated to the width. */
  lemma {:induction false} GetPut(n: nat, width: nat)
    ensures Get(Put(n, width)) == n % Pow256(width)
  {
    if width > 0 {
      GetPut(n / 256, width - 1);
      var b := Put(n, width);
      assert b[..|b| - 1] == Put(n / 256, width - 1);
      DivModPow(n, Pow256(width - 1));
    }
  }

  lemma DivModPow(n: nat, p: nat)
    requires p > 0
    ensures (n / 256) % p * 256 + n % 256 == n % (256 * p)
  {
    var q, r := n / 256 / p, n / 256 % p;
    assert n / 256 == q * p + r;
    assert n == (q * p + r) * 256 + n % 256;
    assert n == q * (256 * p) + (r * 256 + n % 256);
    assert r * 256 + n % 256 < 256 * p by {
      assert r + 1 <= p;
      assert (r + 1) * 256 <= p * 256;
    }
    ModUnique(n, 256 * p, q, r * 256 + n % 256);
  }

  lemma ModUnique(n: nat, m: nat, q: int, r: nat)
    requires m > 0 && r < m && n == q * m + r
    ensures n % m == r && n / m == q
  {
    var d := n / m - q;
    assert d * m == r - n % m;
    NoMultipleBetween(d, m);
  }

  lemma NoMultipleBetween(d: int, m: int)
    requires 0 < m && -m < d * m < m
    ensures d == 0
  {
  }

  lemma PowValues()
    ensures Pow256(2) == 65536 && Pow256(4) == 0x1_0000_0000 && Pow256(8) == 0x1_0000_0000_0000_0000
  {
    assert Pow256(1) == 256;
    assert Pow256(2) == 65536;
    assert Pow256(3) == 0x100_0000;
    assert Pow256(4) == 0x1_0000_0000;
    assert Pow256(5) == 0x100_0000_0000;
    assert Pow256(6) == 0x1_0000_0000_0000;
    assert Pow256(7) == 0x100_0000_0000_0000;
  }

  /** A big-endian word is its first octet times 256 and its second. */
  lemma GetWord(b: seq<byte>, i: nat)
    requires i + 2 <= |b|
    ensures Get(b[i..i + 2]) == b[i] as int * 256 + b[i + 1] as int
  {
    var w := b[i..i + 2];
    assert w[..1] == [b[i]] && w[..1][..0] == [];
    assert Get(w) == Get(w[..1]) * 256 + w[1];
  }

  lemma GetPut16(n: nat)
    requires n < 65536
    ensures Get(Put(n, 2)) == n
    ensures Put(n, 2) == [n / 256, n % 256]
  {
    GetPut(n, 2);
    PowValues();
    assert Put(n / 256, 1) == Put(n / 256 / 256, 0) + [n / 256 % 256];
  }
}
