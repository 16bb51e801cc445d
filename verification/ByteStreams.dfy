/** ByteWriter and ByteReader, the run-time support of the generated codecs. */
module ByteStreams {
  import opened Bytes
  import opened Schema
  import opened Codec

  /** A std::vector<std::uint8_t> held by reference. */
  class ByteVector {
    var data: seq<byte>

    constructor ()
      ensures data == []
    {
      data := [];
    }

    method PushBack(b: byte)
      modifies this
      ensures data == old(data) + [b]
    {
      data := data + [b];
    }

    method Insert(more: seq<byte>)
      modifies this
      ensures data == old(data) + more
    {
      data := data + more;
    }
  }

  /** memcpy into a preallocated vector. */
  method CopyInto(dst: array<byte>, at: nat, src: seq<byte>)
    requires at + |src| <= dst.Length
    modifies dst
    ensures dst[at..at + |src|] == src
    ensures dst[..at] == old(dst[..at]) && dst[at + |src|..] == old(dst[at + |src|..])
  {
    for i := 0 to |src|
      invariant dst[at..at + i] == src[..i]
      invariant dst[..at] == old(dst[..at]) && dst[at + |src|..] == old(dst[at + |src|..])
    {
      dst[at + i] := src[i];
      assert src[..i + 1] == src[..i] + [src[i]];
      assert dst[at..at + i + 1] == dst[at..at + i] + [dst[at + i]];
    }
    assert src[..|src|] == src;
  }

  class ByteWriter {
    const out: ByteVector

    constructor (out: ByteVector)
      ensures this.out == out
    {
      this.out := out;
    }

    /** Appends the two's complement representation, most significant byte first. */
    method WriteIntegralBE(p: Prim, value: int)
      requires !p.Bool? && IntInRange(p, value)
      modifies out
      ensures out.data == old(out.data) + EncPrim(p, VInt(value))
    {
      var u := ToUnsigned(p, value);
      var w := Width(p);
      ghost var before := out.data;
      var i := w;
      while i > 0
        invariant i <= w
        invariant out.data == before + BE(w, u)[..w - i]
      {
        i := i - 1;
        BEAt(w, u, i);
        out.data := out.data + [u / Pow256(i) % 256];
        assert BE(w, u)[..w - i] == BE(w, u)[..w - i - 1] + [BE(w, u)[w - 1 - i]];
      }
      assert BE(w, u)[..w] == BE(w, u);
    }

    method WriteBool(b: bool)
      modifies out
      ensures out.data == old(out.data) + EncPrim(Bool, VBool(b))
    {
      WriteIntegralBE(U8, if b then 1 else 0);
      assert BE(0, 0) == [] && BE(1, 1) == [1] && BE(1, 0) == [0];
    }

    /** Length prefix and bytes of a string, refused when the length does not fit. */
    method WriteString(lt: LenType, s: seq<byte>) returns (ok: bool)
      modifies out
      ensures ok <==> |s| <= MaxLen(lt)
      ensures ok ==> out.data == old(out.data) + (BE(LenWidth(lt), |s|) + s)
      ensures !ok ==> out.data == old(out.data)
    {
      if |s| > MaxLen(lt) {
        return false;
      }
      WriteIntegralBE(LenPrim(lt), |s|);
      out.Insert(s);
      return true;
    }
  }

  class ByteReader {
    const input: seq<byte>
    var pos: nat

    ghost predicate Valid()
      reads this
    {
      pos <= |input|
    }

    constructor (input: seq<byte>)
      ensures this.input == input && pos == 0
    {
      this.input := input;
      pos := 0;
    }

    /** Accumulates w bytes into an unsigned word of that width. */
    method ReadUnsigned(w: nat) returns (u: nat)
      requires pos + w <= |input|
      modifies this
      ensures pos == old(pos) + w <= |input|
      ensures u == FromBE(input[old(pos)..pos])
    {
      ghost var start := pos;
      u := 0;
      var i := 0;
      while i < w
        invariant i <= w && pos == start + i <= |input|
        invariant u == FromBE(input[start..pos])
      {
        ShiftIn(w, input[start..pos], input[pos]);
        assert input[start..pos + 1] == input[start..pos] + [input[pos]];
        u := (u * 256 + input[pos]) % Pow256(w);
        pos := pos + 1;
        i := i + 1;
      }
    }

    /** Reads a word and reinterprets it in the type; nothing is consumed on failure. */
    method ReadIntegralBE(p: Prim) returns (ok: bool, value: int)
      requires Valid() && !p.Bool?
      modifies this
      ensures Valid()
      ensures ok ==> IntInRange(p, value)
      ensures var d := DecPrim(p, input, old(pos));
              ok == d.Got? && (if ok then d == Got(VInt(value), pos) else pos == old(pos))
    {
      if |input| - pos < Width(p) {
        return false, 0;
      }
      ghost var start := pos;
      var u := ReadUnsigned(Width(p));
      WordValue(p, input[start..pos]);
      return true, FromUnsigned(p, u);
    }

    method ReadBytes(n: nat) returns (ok: bool, value: seq<byte>)
      requires Valid()
      modifies this
      ensures Valid()
      ensures ok <==> old(pos) + n <= |input|
      ensures if ok then pos == old(pos) + n && value == input[old(pos)..old(pos) + n] else pos == old(pos)
    {
      if |input| - pos < n {
        return false, [];
      }
      value := input[pos..pos + n];
      pos := pos + n;
      return true, value;
    }

    method ReadString(lt: LenType) returns (ok: bool, value: seq<byte>)
      requires Valid()
      modifies this
      ensures Valid()
      ensures var d := DecStr(lt, input, old(pos));
              ok == d.Got? && (ok ==> d == Got(VStr(value), pos))
    {
      var n;
      ok, n := ReadIntegralBE(LenPrim(lt));
      if !ok {
        return false, [];
      }
      ok, value := ReadBytes(n);
    }

    method FullyConsumed() returns (b: bool)
      ensures b <==> pos == |input|
    {
      b := pos == |input|;
    }
  }

  lemma WordValue(p: Prim, raw: seq<byte>)
    requires !p.Bool? && |raw| == Width(p)
    ensures IntInRange(p, FromUnsigned(p, FromBE(raw)))
  {
    FromBEBound(raw);
    ModulusIsPow(p);
    CastBack(p, FromBE(raw));
  }

  /** Shifting the next byte into a partly read word loses no bits. */
  lemma ShiftIn(w: nat, s: seq<byte>, b: byte)
    requires |s| < w
    ensures (FromBE(s) * 256 + b) % Pow256(w) == FromBE(s + [b])
  {
    FromBEAppend(s, b);
    FromBEBound(s + [b]);
    PowMono(|s + [b]|, w);
    SmallMod(FromBE(s + [b]), Pow256(w));
  }

  lemma SmallMod(v: nat, m: nat)
    requires v < m
    ensures v % m == v
  {
    DivModUnique(v, m, 0, v);
  }

  lemma {:induction false} PowMono(a: nat, b: nat)
    requires a <= b
    ensures Pow256(a) <= Pow256(b)
    decreases b
  {
    if a < b {
      PowMono(a, b - 1);
    }
  }
}
