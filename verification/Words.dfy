/** Bytes and the little-endian 32-bit words every emitted structure is made of. */
module Words {
  import opened Arith

  type uint8 = x: int | 0 <= x < 256
  type uint32 = x: int | 0 <= x < WORD

  function Le32(x: uint32): (s: seq<uint8>)
    ensures |s| == 4
  {
    [x % 0x100, x / 0x100 % 0x100, x / 0x1_0000 % 0x100, x / 0x100_0000]
  }

  function FromLe32(s: seq<uint8>): (x: uint32)
    requires |s| == 4
  {
    s[0] as int + 0x100 * (s[1] as int) + 0x1_0000 * (s[2] as int) + 0x100_0000 * (s[3] as int)
  }

  lemma Le32RoundTrip(x: uint32)
    ensures FromLe32(Le32(x)) == x
  {
    var y, b0 := Divide(x, 0x100);
    var z, b1 := Divide(y, 0x100);
    var b3, b2 := Divide(z, 0x100);
    DivDiv(x, 0x100, 0x100);
    DivDiv(x, 0x1_0000, 0x100);
    assert Le32(x) == [b0, b1, b2, b3];
  }

  /** The four bytes at `at`, read as a word. */
  function WordAt(s: seq<uint8>, at: nat): (x: uint32)
    requires at + 4 <= |s|
  {
    FromLe32(s[at..at + 4])
  }

  /** Overwrites the bytes from `at` on, as `memcpy` into a buffer does. */
  function Splice(s: seq<uint8>, at: nat, data: seq<uint8>): (r: seq<uint8>)
    requires at + |data| <= |s|
    ensures |r| == |s|
    ensures r[at..at + |data|] == data
    ensures forall i :: 0 <= i < |s| && !(at <= i < at + |data|) ==> r[i] == s[i]
  {
    s[..at] + data + s[at + |data|..]
  }

  /** `data` can be read in `s` at `at`. */
  predicate ReadsAs(s: seq<uint8>, at: nat, data: seq<uint8>) {
    at + |data| <= |s| && s[at..at + |data|] == data
  }

  lemma ReadsAsAfterAppend(s: seq<uint8>, more: seq<uint8>, at: nat, data: seq<uint8>)
    requires ReadsAs(s, at, data)
    ensures ReadsAs(s + more, at, data)
  {
    assert (s + more)[at..at + |data|] == s[at..at + |data|];
  }

  lemma ReadsAsAtEnd(s: seq<uint8>, data: seq<uint8>)
    ensures ReadsAs(s + data, |s|, data)
  {
  }

  lemma ReadsAsInside(s: seq<uint8>, at: nat, x: seq<uint8>, y: seq<uint8>, z: seq<uint8>)
    requires ReadsAs(s, at, x + y + z)
    ensures ReadsAs(s, at + |x|, y)
  {
    var d := x + y + z;
    forall i | 0 <= i < |y| ensures s[at + |x|..at + |x| + |y|][i] == y[i] {
      assert s[at..at + |d|][|x| + i] == d[|x| + i];
    }
  }

  function Zeros(n: nat): (s: seq<uint8>)
    ensures |s| == n
    ensures forall i :: 0 <= i < n ==> s[i] == 0
  {
    seq(n, i => 0)
  }

  // ---------------------------------------------------------------- integers of any byte width

  function Pow256(n: nat): (p: nat)
    ensures p > 0
  {
    if n == 0 then 1 else 256 * Pow256(n - 1)
  }

  lemma Pow256Four()
    ensures Pow256(4) == WORD
  {
  }

  lemma Pow256Eight()
    ensures Pow256(8) == 0x1_0000_0000_0000_0000
  {
    Pow256Four();
    assert Pow256(8) == 256 * (256 * (256 * (256 * Pow256(4))));
  }

  /** A 32-bit value fits a word of either pointer size. */
  lemma WordFits(w: nat)
    requires w == 4 || w == 8
    ensures WORD <= Pow256(w)
  {
    Pow256Four();
    Pow256Eight();
  }

  /** The low `w` bytes of `x`, lowest first. */
  function EncodeLe(x: nat, w: nat): (s: seq<uint8>)
    ensures |s| == w
    decreases w
  {
    if w == 0 then [] else [x % 256] + EncodeLe(x / 256, w - 1)
  }

  function DecodeLe(s: seq<uint8>): nat {
    if s == [] then 0 else s[0] as int + 256 * DecodeLe(s[1..])
  }

  /** The value of the `w` bytes at `at`. */
  function PointerAt(s: seq<uint8>, at: nat, w: nat): nat
    requires at + w <= |s|
  {
    DecodeLe(s[at..at + w])
  }

  lemma {:induction false} LeRoundTrip(x: nat, w: nat)
    requires x < Pow256(w)
    ensures DecodeLe(EncodeLe(x, w)) == x
    decreases w
  {
    if w > 0 {
      LeRoundTrip(x / 256, w - 1);
    }
  }

  lemma ReadsWord(s: seq<uint8>, at: nat, w: nat, x: nat)
    requires ReadsAs(s, at, EncodeLe(x, w)) && x < Pow256(w)
    ensures at + w <= |s| && PointerAt(s, at, w) == x
  {
    hide EncodeLe, DecodeLe, Pow256;
    LeRoundTrip(x, w);
  }

  /** Byte `i` of the encoding is what the store loop computes with a shift. */
  lemma {:induction false} EncodeLeAt(x: nat, w: nat, i: nat)
    requires i < w
    ensures EncodeLe(x, w)[i] == x / Pow256(i) % 256
    decreases w
  {
    if i > 0 {
      EncodeLeAt(x / 256, w - 1, i - 1);
      DivDiv(x, 256, Pow256(i - 1));
    }
  }

  lemma DivDiv(x: nat, a: nat, b: nat)
    requires a > 0 && b > 0 && a * b > 0
    ensures x / a / b == x / (a * b)
  {
    var q, r := Divide(x, a);
    var p, s := Divide(q, b);
    RemainderBound(a, b, s, r);
    Regroup(a, b, p, s);
    assert a * q == a * (p * b + s);
    DivModUnique(x, a * b, p, a * s + r);
  }

  lemma Divide(x: nat, n: nat) returns (q: nat, r: nat)
    requires n > 0
    ensures x / n == q && x % n == r && x == n * q + r && r < n
  {
    q, r := x / n, x % n;
  }

  lemma Regroup(a: nat, b: nat, p: nat, s: nat)
    ensures a * (p * b + s) == p * (a * b) + a * s
  {
    assert a * (p * b + s) == a * (p * b) + a * s;
    assert a * (p * b) == p * (a * b);
  }

  lemma RemainderBound(a: nat, b: nat, s: nat, r: nat)
    requires r < a && s < b
    ensures a * s + r < a * b
  {
    MulLe(s + 1, b, a);
    assert (s + 1) * a == a * s + a;
    assert b * a == a * b;
  }

  /** Loading adds the next byte above those already read. */
  lemma {:induction false} DecodeLeSnoc(s: seq<uint8>, b: uint8)
    ensures DecodeLe(s + [b]) == DecodeLe(s) + (b as int) * Pow256(|s|)
  {
    if s == [] {
      assert s + [b] == [b];
    } else {
      DecodeLeSnoc(s[1..], b);
      assert (s + [b])[1..] == s[1..] + [b];
      var p := Pow256(|s| - 1);
      assert 256 * ((b as int) * p) == (b as int) * (256 * p);
    }
  }
}
