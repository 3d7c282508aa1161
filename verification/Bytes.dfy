/**
 Bytes, bitwise or, and the little-endian numbers of common/p_num.c.

 A byte is an integer below 256.  The masks of the source are all runs of bits, so they are
 written with division and remainder: `x & (2^k - 1)` is `x % 2^k`, `x & ~(2^k - 1)` is
 `x - x % 2^k`, `x >> k` is `x / 2^k`.  Bitwise or is defined exactly, because its arguments may
 overlap when a field is out of range.
 */
module Bytes {

  type byte = x: int | 0 <= x < 256
  type u16 = x: int | 0 <= x < 0x1_0000
  type u32 = x: int | 0 <= x < 0x1_0000_0000

  /** Conversion to an 8-bit number. */
  function U8(v: nat): byte {
    if v < 256 then v else v % 256
  }

  lemma Cut8(v: nat)
    ensures U8(v) == v % 256
  {
  }

  /** Bitwise or of two numbers. */
  function Or(x: nat, y: nat): nat
    decreases x + y
  {
    if x == 0 then y
    else if y == 0 then x
    else (if x % 2 == 1 || y % 2 == 1 then 1 else 0) + 2 * Or(x / 2, y / 2)
  }

  function Pow2(k: nat): (r: nat)
    ensures r > 0
  {
    if k == 0 then 1 else 2 * Pow2(k - 1)
  }

  /** A number below 2^k or-ed with a multiple of 2^k is their sum. */
  lemma {:induction false} OrDisjoint(x: nat, h: nat, k: nat)
    requires x < Pow2(k)
    ensures Or(x, h * Pow2(k)) == x + h * Pow2(k)
  {
    if k > 0 && x > 0 && h > 0 {
      var y := h * Pow2(k - 1);
      assert h * Pow2(k) == 2 * y;
      OrDisjoint(x / 2, h, k - 1);
    }
  }

  /** Or keeps numbers of k bits within k bits. */
  lemma {:induction false} OrBound(x: nat, y: nat, k: nat)
    requires x < Pow2(k) && y < Pow2(k)
    ensures Or(x, y) < Pow2(k)
  {
    if k > 0 && x > 0 && y > 0 {
      OrBound(x / 2, y / 2, k - 1);
    }
  }

  lemma OrHalves(x: nat, a: nat, b: nat)
    ensures Or(x + 2 * a, 2 * b) == x % 2 + 2 * Or(x / 2 + a, b)
  {
    assert (x + 2 * a) / 2 == x / 2 + a && (x + 2 * a) % 2 == x % 2;
    if x + 2 * a == 0 || b == 0 {
      assert Or(x / 2 + a, b) == (if b == 0 then x / 2 + a else b);
    }
  }

  lemma OrAbove2(x: nat, h: nat, g: nat)
    requires x < 2
    ensures Or(x + h * 2, g * 2) == x + Or(h, g) * 2
  {
    OrHalves(x, h, g);
  }

  lemma OrAbove4(x: nat, h: nat, g: nat)
    requires x < 4
    ensures Or(x + h * 4, g * 4) == x + Or(h, g) * 4
  {
    OrHalves(x, h * 2, g * 2);
    OrAbove2(x / 2, h, g);
  }

  lemma OrAbove8(x: nat, h: nat, g: nat)
    requires x < 8
    ensures Or(x + h * 8, g * 8) == x + Or(h, g) * 8
  {
    OrHalves(x, h * 4, g * 4);
    OrAbove4(x / 2, h, g);
  }

  /** Or-ing a multiple of 16 leaves the low four bits alone. */
  lemma OrAbove16(x: nat, h: nat, g: nat)
    requires x < 16
    ensures Or(x + h * 16, g * 16) == x + Or(h, g) * 16
  {
    OrHalves(x, h * 8, g * 8);
    OrAbove8(x / 2, h, g);
  }

  lemma Pow2Values()
    ensures Pow2(1) == 2 && Pow2(2) == 4 && Pow2(4) == 16 && Pow2(5) == 32 && Pow2(6) == 64
    ensures Pow2(7) == 128 && Pow2(8) == 256
  {
    assert Pow2(4) == 16;
    assert Pow2(6) == 64;
  }

  lemma Or2(x: nat, h: nat)
    requires x < 2
    ensures Or(x, h * 2) == x + h * 2
  {
    Pow2Values();
    OrDisjoint(x, h, 1);
  }

  lemma Or4(x: nat, h: nat)
    requires x < 4
    ensures Or(x, h * 4) == x + h * 4
  {
    Pow2Values();
    OrDisjoint(x, h, 2);
  }

  lemma Or16(x: nat, h: nat)
    requires x < 16
    ensures Or(x, h * 16) == x + h * 16
  {
    Pow2Values();
    OrDisjoint(x, h, 4);
  }

  lemma Or32(x: nat, h: nat)
    requires x < 32
    ensures Or(x, h * 32) == x + h * 32
  {
    Pow2Values();
    OrDisjoint(x, h, 5);
  }

  lemma Or64(x: nat, h: nat)
    requires x < 64
    ensures Or(x, h * 64) == x + h * 64
  {
    Pow2Values();
    OrDisjoint(x, h, 6);
  }

  lemma Or128(x: nat, h: nat)
    requires x < 128
    ensures Or(x, h * 128) == x + h * 128
  {
    Pow2Values();
    OrDisjoint(x, h, 7);
  }

  /** The lowest `n` bytes of `v`, least significant first: the buff_put_le_uint* family. */
  function ToLe(v: nat, n: nat): (r: seq<byte>)
    ensures |r| == n
  {
    if n == 0 then [] else [v % 256] + ToLe(v / 256, n - 1)
  }

  /** The number a little-endian run of bytes stands for: the buff_get_le_uint* family. */
  function FromLe(b: seq<byte>): nat {
    if b == [] then 0 else b[0] + 256 * FromLe(b[1..])
  }

  function Pow256(n: nat): nat {
    if n == 0 then 1 else 256 * Pow256(n - 1)
  }

  lemma Pow256Values()
    ensures Pow256(1) == 256 && Pow256(2) == 0x1_0000 && Pow256(3) == 0x100_0000 && Pow256(4) == 0x1_0000_0000
  {
    assert Pow256(2) == 0x1_0000;
  }

  lemma {:induction false} FromToLe(v: nat, n: nat)
    requires v < Pow256(n)
    ensures FromLe(ToLe(v, n)) == v
  {
    if n > 0 {
      FromToLe(v / 256, n - 1);
      assert ToLe(v, n)[1..] == ToLe(v / 256, n - 1);
    }
  }

  /** Byte `i` is digit `i` of the number to the base 256. */
  lemma {:induction false} ToLeAt(v: nat, n: nat, i: nat)
    requires i < n
    ensures ToLe(v, n)[i] == Shifted(v, i) % 256
    decreases i
  {
    if i > 0 {
      ToLeAt(v / 256, n - 1, i - 1);
    }
  }

  /** The number without its lowest `i` bytes. */
  function Shifted(v: nat, i: nat): nat
    decreases i
  {
    if i == 0 then v else Shifted(v / 256, i - 1)
  }

  lemma LeStep(low: byte, rest: nat)
    ensures (low + 256 * rest) % 256 == low && (low + 256 * rest) / 256 == rest
  {
  }

  lemma {:induction false} ToFromLe(b: seq<byte>)
    ensures FromLe(b) < Pow256(|b|)
    ensures ToLe(FromLe(b), |b|) == b
  {
    if b != [] {
      ToFromLe(b[1..]);
      LeStep(b[0], FromLe(b[1..]));
      assert b == [b[0]] + b[1..];
    }
  }

  /** Where the parts of a concatenation lie in a buffer. */
  lemma Cut(b: seq<byte>, off: nat, x: seq<byte>, y: seq<byte>)
    requires off <= |b| && b[off..] == x + y
    ensures off + |x| <= |b| && b[off..off + |x|] == x && b[off + |x|..] == y
  {
    assert b[off..][..|x|] == x && b[off..][|x|..] == y;
  }

  /** `s` with the bytes of `t` written over it from `off` on. */
  ghost function Splice(s: seq<byte>, off: nat, t: seq<byte>): (r: seq<byte>)
    requires off + |t| <= |s|
    ensures |r| == |s|
  {
    s[..off] + t + s[off + |t|..]
  }

  /** Writing `t` and then `u` right behind it is writing `t + u`. */
  lemma SpliceTwice(s: seq<byte>, off: nat, t: seq<byte>, u: seq<byte>)
    requires off + |t| + |u| <= |s|
    ensures Splice(Splice(s, off, t), off + |t|, u) == Splice(s, off, t + u)
  {
    var m := Splice(s, off, t);
    assert m[..off + |t|] == s[..off] + t;
    assert m[off + |t| + |u|..] == s[off + |t| + |u|..];
  }

  lemma SplicePrefix(s: seq<byte>, t: seq<byte>)
    requires |t| <= |s|
    ensures t <= Splice(s, 0, t)
  {
  }

  lemma SpliceEmpty(s: seq<byte>, off: nat)
    requires off <= |s|
    ensures Splice(s, off, []) == s
  {
  }

  /** Writes one byte. */
  method PutByte(buf: array<byte>, off: nat, v: byte)
    requires off < buf.Length
    modifies buf
    ensures buf[..] == Splice(old(buf[..]), off, [v])
  {
    buf[off] := v;
  }

  method PutThree(buf: array<byte>, off: nat, x: byte, y: byte, z: byte)
    requires off + 3 <= buf.Length
    modifies buf
    ensures buf[..] == Splice(old(buf[..]), off, [x, y, z])
  {
    buf[off] := x;
    buf[off + 1] := y;
    buf[off + 2] := z;
  }

  /** Copies a run of bytes, as memcpy does. */
  method PutBytes(buf: array<byte>, off: nat, d: seq<byte>)
    requires off + |d| <= buf.Length
    modifies buf
    ensures buf[..] == Splice(old(buf[..]), off, d)
  {
    forall i | 0 <= i < |d| {
      buf[off + i] := d[i];
    }
  }

  /** Writes the `n` low bytes of `v` at `off`, as int16tople .. int64tople do. */
  method PutLe(buf: array<byte>, off: nat, v: nat, n: nat)
    requires off + n <= buf.Length
    modifies buf
    ensures buf[..] == Splice(old(buf[..]), off, ToLe(v, n))
    decreases n
  {
    if n > 0 {
      ghost var before := buf[..];
      buf[off] := v % 256;
      assert buf[..] == Splice(before, off, [v % 256]);
      PutLe(buf, off + 1, v / 256, n - 1);
      SpliceTwice(before, off, [v % 256], ToLe(v / 256, n - 1));
    } else {
      assert buf[..] == Splice(old(buf[..]), off, []);
    }
  }

}
