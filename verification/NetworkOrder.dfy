/**
 Signed integers of one, two, four or eight bytes in network byte order.
 */
module NetworkOrder {
  import opened Arithmetic
  import opened Options

  type Byte = b: int | 0 <= b < 256

  function Pow256(k: nat): (p: nat)
    ensures p >= 1
  {
    if k == 0 then 1 else 256 * Pow256(k - 1)
  }

  // The `k` lowest bytes, most significant first.
  function BigEndian(u: nat, k: nat): (s: seq<Byte>)
    ensures |s| == k
  {
    if k == 0 then [] else BigEndian(u / 256, k - 1) + [u % 256]
  }

  function FromBigEndian(s: seq<Byte>): nat {
    if s == [] then 0 else 256 * FromBigEndian(s[..|s| - 1]) + s[|s| - 1]
  }

  // Two's complement.
  function Unsigned(n: int, k: nat): (u: int)
    ensures Fits(n, k) ==> 0 <= u < Pow256(k)
  {
    if n >= 0 then n else n + Pow256(k)
  }

  function Signed(u: nat, k: nat): int {
    if 2 * u < Pow256(k) then u else u - Pow256(k)
  }

  // A signed integer of `k` bytes.
  predicate Fits(n: int, k: nat) { -(Pow256(k) as int) <= 2 * n < Pow256(k) }

  function Encode(n: int, k: nat): (s: seq<Byte>)
    requires Fits(n, k)
    ensures |s| == k
  {
    BigEndian(Unsigned(n, k), k)
  }

  function Decode(s: seq<Byte>): int { Signed(FromBigEndian(s), |s|) }

  lemma {:induction false} BigEndianInverts(u: nat, k: nat)
    requires u < Pow256(k)
    ensures FromBigEndian(BigEndian(u, k)) == u
  {
    if k > 0 {
      BigEndianInverts(u / 256, k - 1);
      assert BigEndian(u, k)[..k - 1] == BigEndian(u / 256, k - 1);
    }
  }

  // The i-th byte is the i-th most significant one.
  lemma {:induction false} BigEndianAt(u: nat, k: nat, i: nat)
    requires i < k
    ensures BigEndian(u, k)[i] == u / Pow256(k - 1 - i) % 256
    decreases k
  {
    if i < k - 1 {
      BigEndianAt(u / 256, k - 1, i);
      DivDiv(u, Pow256(k - 2 - i));
    } else {
      assert Pow256(0) == 1;
    }
  }

  lemma DivDiv(u: nat, p: nat)
    requires p >= 1
    ensures u / 256 / p == u / (256 * p)
  {
    var q, r := u / 256 / p, u / 256 % p;
    assert u / 256 == q * p + r;
    assert u == q * (256 * p) + (256 * r + u % 256);
    Remainder(u, 256 * p, q, 256 * r + u % 256);
  }

  // Every integer comes back from its bytes, negative ones included.
  lemma DecodeEncode(n: int, k: nat)
    requires Fits(n, k)
    ensures Decode(Encode(n, k)) == n
  {
    BigEndianInverts(Unsigned(n, k), k);
  }

  lemma {:induction false} FromBigEndianInverts(s: seq<Byte>)
    ensures FromBigEndian(s) < Pow256(|s|) && BigEndian(FromBigEndian(s), |s|) == s
  {
    if s != [] {
      var front, last := s[..|s| - 1], s[|s| - 1];
      FromBigEndianInverts(front);
      assert s == front + [last];
    }
  }

  // And any bytes are the encoding of the integer they decode to.
  lemma EncodeDecode(s: seq<Byte>)
    ensures Fits(Decode(s), |s|) && Encode(Decode(s), |s|) == s
  {
    FromBigEndianInverts(s);
  }

  // ---------------------------------------------------------------- sequences of typed integers

  // A value with the number of bytes it is written in.
  datatype Typed = Typed(value: int, width: nat)

  predicate Width(k: nat) { k == 1 || k == 2 || k == 4 || k == 8 }

  predicate WellTyped(vs: seq<Typed>) {
    forall i :: 0 <= i < |vs| ==> Width(vs[i].width) && Fits(vs[i].value, vs[i].width)
  }

  function EncodeAll(vs: seq<Typed>): seq<Byte>
    requires WellTyped(vs)
  {
    if vs == [] then [] else Encode(vs[0].value, vs[0].width) + EncodeAll(vs[1..])
  }

  // Reading values of the given widths off the front, as far as the bytes go.
  function DecodeAll(widths: seq<nat>, s: seq<Byte>): seq<int> {
    if widths == [] || |s| < widths[0] then []
    else [Decode(s[..widths[0]])] + DecodeAll(widths[1..], s[widths[0]..])
  }

  function Widths(vs: seq<Typed>): (w: seq<nat>)
    ensures |w| == |vs| && forall i :: 0 <= i < |w| ==> w[i] == vs[i].width
  {
    seq(|vs|, i requires 0 <= i < |vs| => vs[i].width)
  }

  function Values(vs: seq<Typed>): (w: seq<int>)
    ensures |w| == |vs| && forall i :: 0 <= i < |w| ==> w[i] == vs[i].value
  {
    seq(|vs|, i requires 0 <= i < |vs| => vs[i].value)
  }

  // Written one after the other and read with the same types, all values come back, whatever
  // follows them.
  lemma {:induction false} DecodeAllInverts(vs: seq<Typed>, rest: seq<Byte>)
    requires WellTyped(vs)
    ensures DecodeAll(Widths(vs), EncodeAll(vs) + rest) == Values(vs)
  {
    if vs != [] {
      var v, first := vs[0], Encode(vs[0].value, vs[0].width);
      var s := EncodeAll(vs) + rest;
      assert s == first + (EncodeAll(vs[1..]) + rest);
      assert s[..v.width] == first && s[v.width..] == EncodeAll(vs[1..]) + rest;
      assert Widths(vs)[1..] == Widths(vs[1..]) && Values(vs) == [v.value] + Values(vs[1..]);
      DecodeEncode(v.value, v.width);
      DecodeAllInverts(vs[1..], rest);
    }
  }

  lemma {:induction false} EncodeAllConcat(a: seq<Typed>, b: seq<Typed>)
    requires WellTyped(a) && WellTyped(b)
    ensures WellTyped(a + b) && EncodeAll(a + b) == EncodeAll(a) + EncodeAll(b)
  {
    if a == [] {
      assert a + b == b;
    } else {
      assert (a + b)[1..] == a[1..] + b;
      EncodeAllConcat(a[1..], b);
    }
  }
}
