/** Bytes, optional values, and the big-endian integers every codec of the repository is built on. */
module Bytes {

  type byte = b: int | 0 <= b < 256

  type u16 = i: int | 0 <= i < 0x1_0000
  type u24 = i: int | 0 <= i < 0x100_0000
  type u32 = i: int | 0 <= i < 0x1_0000_0000

  datatype Option<+T> = None | Some(value: T)

  datatype Result<+T, +E> = Success(value: T) | Failure(error: E)

  /** 2 to the power 8n: the number of values of an n-byte unsigned integer. */
  function Pow256(n: nat): (r: nat)
    ensures r > 0
  {
    if n == 0 then 1 else 256 * Pow256(n - 1)
  }

  /** The low n bytes of v, most significant first (v is truncated to n bytes, as a cast would). */
  function BE(n: nat, v: nat): (s: seq<byte>)
    ensures |s| == n
  {
    if n == 0 then [] else BE(n - 1, v / 256) + [v % 256]
  }

  function FromBE(s: seq<byte>): nat {
    if s == [] then 0 else FromBE(s[..|s| - 1]) * 256 + s[|s| - 1]
  }

  lemma {:induction false} FromBEBound(s: seq<byte>)
    ensures FromBE(s) < Pow256(|s|)
  {
    if s != [] {
      FromBEBound(s[..|s| - 1]);
    }
  }

  /** Reading back what was written gives the value modulo 2^(8n). */
  lemma {:induction false} FromBEOfBE(n: nat, v: nat)
    ensures FromBE(BE(n, v)) == v % Pow256(n)
  {
    if n > 0 {
      var front := BE(n - 1, v / 256);
      FromBEOfBE(n - 1, v / 256);
      assert BE(n, v)[..n - 1] == front;
      ModSplit(v, Pow256(n - 1));
    }
  }

  lemma ModSplit(v: nat, m: nat)
    requires m > 0
    ensures v % (256 * m) == (v / 256) % m * 256 + v % 256
  {
    var a, b := v / 256, v % 256;
    var q, r := a / m, a % m;
    assert v == 256 * (q * m + r) + b;
    assert 256 * (q * m) == q * (256 * m);
    DivModUnique(v, 256 * m, q, 256 * r + b);
  }

  lemma DivModUnique(v: nat, m: nat, q: nat, r: nat)
    requires r < m && v == q * m + r
    ensures v / m == q && v % m == r
  {
    var q', r' := v / m, v % m;
    assert v == q' * m + r';
    assert (q - q') * m == q * m - q' * m == r' - r;
    if q' < q {
      MulMono(1, q - q', m);
    } else if q' > q {
      MulMono(1, q' - q, m);
    }
  }

  lemma MulMono(a: nat, b: nat, m: nat)
    requires a <= b
    ensures a * m <= b * m
  {
  }

  /** Within range nothing is lost. */
  lemma FromBEOfSmallBE(n: nat, v: nat)
    requires v < Pow256(n)
    ensures FromBE(BE(n, v)) == v
  {
    FromBEOfBE(n, v);
    DivModUnique(v, Pow256(n), 0, v);
  }

  /** Every byte string is the encoding of the integer it denotes. */
  lemma {:induction false} BEOfFromBE(s: seq<byte>)
    ensures BE(|s|, FromBE(s)) == s
  {
    if s != [] {
      var front := s[..|s| - 1];
      BEOfFromBE(front);
      var v := FromBE(s);
      assert v / 256 == FromBE(front) && v % 256 == s[|s| - 1];
      assert s == front + [s[|s| - 1]];
    }
  }

  /** The byte the source computes as `(v >> (8 * i)) & 0xFF`, i counted from the least significant end. */
  lemma {:induction false} BEAt(n: nat, v: nat, i: nat)
    requires i < n
    ensures BE(n, v)[n - 1 - i] == v / Pow256(i) % 256
  {
    if i > 0 {
      BEAt(n - 1, v / 256, i - 1);
      DivDiv(v, Pow256(i - 1));
    }
  }

  lemma DivDiv(v: nat, m: nat)
    requires m > 0
    ensures v / (256 * m) == v / 256 / m
  {
    var a, b := v / 256, v % 256;
    var q, r := a / m, a % m;
    assert v == 256 * (q * m + r) + b;
    assert 256 * (q * m) == q * (256 * m);
    DivModUnique(v, 256 * m, q, 256 * r + b);
  }

  /** Appending a byte is the reader's `(u << 8) | byte` step. */
  lemma FromBEAppend(s: seq<byte>, b: byte)
    ensures FromBE(s + [b]) == FromBE(s) * 256 + b
  {
    assert (s + [b])[..|s|] == s;
  }

  lemma Pow256Values()
    ensures Pow256(1) == 0x100 && Pow256(2) == 0x1_0000 && Pow256(3) == 0x100_0000
    ensures Pow256(4) == 0x1_0000_0000 && Pow256(8) == 0x1_0000_0000_0000_0000
  {
    assert Pow256(5) == 256 * Pow256(4);
    assert Pow256(6) == 256 * Pow256(5);
    assert Pow256(7) == 256 * Pow256(6);
  }

  /** `part` stands in `bs` at position `pos`. */
  predicate At(bs: seq<byte>, pos: nat, part: seq<byte>) {
    pos + |part| <= |bs| && bs[pos..pos + |part|] == part
  }

  lemma SliceJoin(bs: seq<byte>, a: nat, b: nat, c: nat)
    requires a <= b <= c <= |bs|
    ensures bs[a..c] == bs[a..b] + bs[b..c]
  {
  }

  lemma AtSplit(bs: seq<byte>, pos: nat, a: seq<byte>, b: seq<byte>)
    ensures At(bs, pos, a + b) <==> At(bs, pos, a) && At(bs, pos + |a|, b)
  {
    if At(bs, pos, a + b) {
      assert bs[pos..pos + |a|] == bs[pos..pos + |a + b|][..|a|];
      assert bs[pos + |a|..pos + |a| + |b|] == bs[pos..pos + |a + b|][|a|..];
    }
    if At(bs, pos, a) && At(bs, pos + |a|, b) {
      assert bs[pos..pos + |a + b|] == bs[pos..pos + |a|] + bs[pos + |a|..pos + |a| + |b|];
    }
  }
}
