/** Packed decimal numbers, least significant byte first: the BCD part of common/p_num.c. */
module Bcd {
  import opened Bytes

  type u64 = x: int | 0 <= x < 0x1_0000_0000_0000_0000

  /** Two decimal digits in one byte. */
  predicate Decimal(b: byte) {
    b % 16 < 10 && b / 16 < 10
  }

  function Value(b: byte): nat {
    b % 16 + b / 16 * 10
  }

  function Pow100(n: nat): (r: nat)
    ensures r > 0
  {
    if n == 0 then 1 else 100 * Pow100(n - 1)
  }

  /** buff_bcd_check. */
  predicate Check(b: seq<byte>) {
    forall i | 0 <= i < |b| :: Decimal(b[i])
  }

  function Num(b: seq<byte>): nat {
    if b == [] then 0 else Value(b[0]) + 100 * Num(b[1..])
  }

  /** buff_bcd_get_le_uint: more than 8 bytes, and bytes that are not decimal, read as 0. */
  function Get(b: seq<byte>): nat {
    if |b| > 8 || !Check(b) then 0 else Num(b)
  }

  /** Two digits in one byte. */
  function Join(low: nat, high: nat): (r: byte)
    requires low < 10 && high < 10
    ensures Decimal(r) && r % 16 == low && r / 16 == high
  {
    Or16(low, high);
    JoinValue(low, high, Or(low, high * 16));
    Or(low, high * 16)
  }

  lemma JoinValue(low: nat, high: nat, v: nat)
    requires low < 10 && high < 10 && v == low + high * 16
    ensures v < 256 && Decimal(v) && v % 16 == low && v / 16 == high
  {
  }

  /** The two lowest digits of a number in one byte. */
  function Pack(num: nat): (r: byte)
    ensures Decimal(r) && Value(r) == num % 100
  {
    LastTwo(num);
    Join(num % 10, num / 10 % 10)
  }

  lemma LastTwo(num: nat)
    ensures num % 100 == num % 10 + 10 * (num / 10 % 10)
  {
  }

  /** The bytes buff_bcd_put_le_uint writes; it writes none if asked for more than 8. */
  function Put(num: nat, len: nat): (r: seq<byte>)
    ensures |r| == len
  {
    if len == 0 then [] else [Pack(num)] + Put(num / 100, len - 1)
  }

  // ---------------------------------------------------------------- the two are inverse

  lemma MulSign(m: int, d: int)
    requires m > 0
    ensures d >= 1 ==> m * d >= m
    ensures d <= -1 ==> m * d <= -m
  {
  }

  lemma ModUnique(n: nat, m: nat, q: nat, r: nat)
    requires m > 0 && r < m && n == m * q + r
    ensures n % m == r
  {
    var d := n / m - q;
    assert m * d == r - n % m;
    MulSign(m, d);
  }

  lemma ModSplit(n: nat, m: nat)
    requires m > 0
    ensures n % (100 * m) == n % 100 + 100 * (n / 100 % m)
  {
    var q := n / 100;
    assert n == (100 * m) * (q / m) + (n % 100 + 100 * (q % m)) by {
      assert q == m * (q / m) + q % m;
      assert 100 * (m * (q / m)) == (100 * m) * (q / m);
    }
    ModUnique(n, 100 * m, q / m, n % 100 + 100 * (q % m));
  }

  /** What is written passes the check and is the number modulo 100^len. */
  lemma {:induction false} NumPut(num: nat, len: nat)
    ensures Check(Put(num, len)) && Num(Put(num, len)) == num % Pow100(len)
  {
    if len > 0 {
      NumPut(num / 100, len - 1);
      ModSplit(num, Pow100(len - 1));
      assert Put(num, len)[1..] == Put(num / 100, len - 1);
    }
  }

  lemma LastDigits(low: nat, high: nat, rest: nat)
    requires low < 10 && high < 10
    ensures var n := low + high * 10 + 100 * rest; n / 100 == rest && n % 10 == low && n / 10 % 10 == high
  {
    var n := low + high * 10 + 100 * rest;
    assert n / 10 == high + 10 * rest;
  }

  lemma SameByte(b: byte, r: byte)
    requires r % 16 == b % 16 && r / 16 == b / 16
    ensures r == b
  {
  }

  lemma DigitsRoundTrip(b: byte, rest: nat)
    requires Decimal(b)
    ensures var n := Value(b) + 100 * rest; n / 100 == rest && Pack(n) == b
  {
    LastDigits(b % 16, b / 16, rest);
    SameByte(b, Join(b % 16, b / 16));
  }

  lemma {:induction false} PutNum(b: seq<byte>)
    requires Check(b)
    ensures Put(Num(b), |b|) == b && Num(b) < Pow100(|b|)
  {
    if b != [] {
      PutNum(b[1..]);
      DigitsRoundTrip(b[0], Num(b[1..]));
      assert b == [b[0]] + b[1..];
    }
  }

  lemma GetPut(num: nat, len: nat)
    requires len <= 8
    ensures Check(Put(num, len)) && Get(Put(num, len)) == num % Pow100(len)
  {
    NumPut(num, len);
  }

  /** A number that fits comes back. */
  lemma GetPutFits(num: nat, len: nat)
    requires len <= 8 && num < Pow100(len)
    ensures Get(Put(num, len)) == num
  {
    GetPut(num, len);
    ModUnique(num, Pow100(len), 0, num);
  }

  /** Writing back what was read restores a buffer if and only if it was decimal. */
  lemma PutGetIff(b: seq<byte>)
    requires |b| <= 8
    ensures Put(Get(b), |b|) == b <==> Check(b)
  {
    if Check(b) {
      PutNum(b);
    } else {
      NumPut(Get(b), |b|);
    }
  }

  /** The number without its lowest `i` pairs of digits. */
  function Shifted(num: nat, i: nat): nat
    decreases i
  {
    if i == 0 then num else Shifted(num / 100, i - 1)
  }

  /** Byte `i` carries the next two decimal digits, the lower one in its low half. */
  lemma {:induction false} PutAt(num: nat, len: nat, i: nat)
    requires i < len
    ensures Put(num, len)[i] == Shifted(num, i) % 10 + 16 * (Shifted(num, i) / 10 % 10)
    decreases i
  {
    if i > 0 {
      PutAt(num / 100, len - 1, i - 1);
    } else {
      PackSpelt(num % 10, num / 10 % 10, Join(num % 10, num / 10 % 10));
    }
  }

  lemma PackSpelt(low: nat, high: nat, v: byte)
    requires low < 10 && high < 10 && v % 16 == low && v / 16 == high
    ensures v == low + 16 * high
  {
  }

  /** The decimal reading of at most eight bytes of two digits each, byte by byte; 0 for any other. */
  lemma {:induction false} NumAt(b: seq<byte>, i: nat)
    requires i < |b| && Check(b)
    ensures Shifted(Num(b), i) % 100 == b[i] % 16 + 10 * (b[i] / 16)
    decreases i
  {
    DigitsRoundTrip(b[0], Num(b[1..]));
    if i > 0 {
      NumAt(b[1..], i - 1);
    } else {
      LastPair(b[0] % 16 + 10 * (b[0] / 16), Num(b[1..]));
    }
  }

  lemma LastPair(low: nat, rest: nat)
    requires low < 100
    ensures (low + 100 * rest) % 100 == low
  {
  }

  lemma GetAt(b: seq<byte>, i: nat)
    requires i < |b|
    ensures Get(b) == 0 || Shifted(Get(b), i) % 100 == b[i] % 16 + 10 * (b[i] / 16)
    ensures |b| > 8 || b[i] % 16 > 9 || b[i] / 16 > 9 ==> Get(b) == 0
    ensures |b| <= 8 && (forall j | 0 <= j < |b| :: b[j] % 16 <= 9 && b[j] / 16 <= 9) ==>
              Shifted(Get(b), i) % 100 == b[i] % 16 + 10 * (b[i] / 16)
  {
    if |b| <= 8 && Check(b) {
      NumAt(b, i);
    }
  }

  /** No 64-bit overflow: numbers stay below 100^len, for len up to 8. */
  lemma GetBound(b: seq<byte>)
    ensures Get(b) < Pow100(|b|) && Get(b) < 10000000000000000
  {
    Pow100Eight(|b|);
    if |b| <= 8 && Check(b) {
      PutNum(b);
    }
  }

  lemma Pow100Eight(n: nat)
    ensures n <= 8 ==> Pow100(n) <= 10000000000000000
  {
    assert Pow100(4) == 100000000;
    assert Pow100(8) == 100000000 * Pow100(4);
    if n < 8 {
      Pow100Grows(n, 8);
    }
  }

  lemma {:induction false} Pow100Grows(a: nat, b: nat)
    requires a <= b
    ensures Pow100(a) <= Pow100(b)
  {
    if a < b {
      Pow100Grows(a, b - 1);
    }
  }

  // ---------------------------------------------------------------- the loops of the source

  /** buff_bcd_check. */
  method CheckBuffer(buf: array<byte>, off: nat, len: nat) returns (ok: bool)
    requires off + len <= buf.Length
    ensures ok <==> Check(buf[off..off + len])
  {
    ghost var b := buf[off..off + len];
    for i := 0 to len
      invariant Check(b[..i])
    {
      assert b[i] == buf[off + i];
      if buf[off + i] % 16 >= 10 || buf[off + i] / 16 >= 10 {
        return false;
      }
    }
    assert b[..len] == b;
    ok := true;
  }

  /** buff_bcd_get_le_uint: the running number never leaves 64 bits. */
  method GetBuffer(buf: array<byte>, off: nat, len: nat) returns (num: u64)
    requires off + len <= buf.Length
    ensures num == Get(buf[off..off + len])
  {
    if len > 8 {
      return 0;
    }
    var ok := CheckBuffer(buf, off, len);
    if !ok {
      return 0;
    }
    ghost var b := buf[off..off + len];
    num := 0;
    for i := 0 to len
      invariant num == Num(b[len - i..])
    {
      ghost var rest := b[len - i - 1..];
      assert rest[0] == buf[off + len - i - 1] && rest[1..] == b[len - i..];
      PutNum(rest);
      Pow100Eight(i + 1);
      num := num * 100;
      num := num + (buf[off + len - i - 1] % 16 + buf[off + len - i - 1] / 16 * 10);
    }
    assert b[0..] == b;
  }

  /** One more byte behind the first `i`. */
  lemma PutSplit(s: seq<byte>, off: nat, num: nat, n: nat, len: nat, i: nat)
    requires off + len <= |s| && i < len && Put(num, len)[i..] == Put(n, len - i)
    ensures var all := Put(num, len);
            && Put(n / 100, len - i - 1) == all[i + 1..]
            && Splice(Splice(s, off, all[..i]), off + i, [Pack(n)]) == Splice(s, off, all[..i + 1])
  {
    var all := Put(num, len);
    assert all[i] == all[i..][0];
    assert all[i + 1..] == all[i..][1..];
    SpliceTwice(s, off, all[..i], [all[i]]);
    assert all[..i + 1] == all[..i] + [all[i]];
  }

  /** One pass of the loop. */
  method PutNext(buf: array<byte>, off: nat, num: nat, n: nat, len: nat, i: nat, ghost s: seq<byte>) returns (rest: nat)
    requires off + len <= buf.Length == |s| && i < len && Put(num, len)[i..] == Put(n, len - i)
    requires buf[..] == Splice(s, off, Put(num, len)[..i])
    modifies buf
    ensures buf[..] == Splice(s, off, Put(num, len)[..i + 1]) && Put(num, len)[i + 1..] == Put(rest, len - i - 1)
    ensures rest == n / 100
  {
    PutSplit(s, off, num, n, len, i);
    PutByte(buf, off + i, Pack(n));
    rest := n / 100;
  }

  /** buff_bcd_put_le_uint. */
  method PutBuffer(buf: array<byte>, off: nat, num: u64, len: nat)
    requires off + len <= buf.Length
    modifies buf
    ensures buf[..] == if len > 8 then old(buf[..]) else Splice(old(buf[..]), off, Put(num, len))
  {
    if len > 8 {
      return;
    }
    var n: nat := num;
    ghost var s := buf[..];
    ghost var all := Put(num, len);
    SpliceEmpty(s, off);
    for i := 0 to len
      invariant buf[..] == Splice(s, off, all[..i])
      invariant all[i..] == Put(n, len - i)
    {
      n := PutNext(buf, off, num, n, len, i, s);
    }
    assert all[..len] == all;
  }

}
