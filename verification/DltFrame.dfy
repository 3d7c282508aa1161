/** DL/T 645 frames: unitlinks/src/dlt_frame.c. */
module DltFrame {
  import opened Prelude
  import opened Bytes
  import opened Scanning
  import opened Checksum
  import Bcd

  const STOP: byte := 0x16
  const LEN_MIN := 12
  const ADR_LEN: nat := 6

  /** Longer data makes the checksum run over more bytes than its loop can count. */
  const DATA_MAX := 245

  type u48 = x: int | 0 <= x < 0x1_0000_0000_0000

  /** `adr` is the decimal address, `adrHex` the same six bytes read as a number. */
  datatype Frame = Frame(adr: u16, adrHex: u48, fnc: byte, sseq: byte, err: byte, dir: byte, data: seq<byte>)

  /** Response code, new offset and frame; or the source does not return. */
  datatype Parsed = Done(res: Res, next: nat, frame: Option<Frame>) | Hangs

  // ---------------------------------------------------------------- building

  function Ctrl(f: Frame): byte {
    U8(Or(Or(Or(f.fnc, f.sseq * 32), f.err * 64), f.dir * 128))
  }

  /** The six address bytes: the number if there is one, else the decimal address. */
  function Address(f: Frame): (r: seq<byte>)
    ensures |r| == 6
  {
    if f.adrHex > 0 then ToLe(f.adrHex, 6) else Bcd.Put(f.adr, ADR_LEN)
  }

  function Up33(v: byte): byte {
    (v as int + 0x33) % 256
  }

  function Down33(v: byte): byte {
    (v as int - 0x33) % 256
  }

  function Add33(d: seq<byte>): (r: seq<byte>)
    ensures |r| == |d| && forall i | 0 <= i < |d| :: r[i] == Up33(d[i])
  {
    seq(|d|, i requires 0 <= i < |d| => Up33(d[i]))
  }

  function Sub33(d: seq<byte>): (r: seq<byte>)
    ensures |r| == |d| && forall i | 0 <= i < |d| :: r[i] == Down33(d[i])
  {
    seq(|d|, i requires 0 <= i < |d| => Down33(d[i]))
  }

  /** Start bytes, address, control field and data length. */
  function Head(f: Frame): (r: seq<byte>)
    requires |f.data| < 256
    ensures |r| == 10
  {
    [START] + Address(f) + [START, Ctrl(f), |f.data|]
  }

  /** Everything before the checksum. */
  function Body(f: Frame): (r: seq<byte>)
    requires |f.data| < 256
    ensures |r| == 10 + |f.data|
  {
    Head(f) + Add33(f.data)
  }

  /** dlt_frame_buff_build. */
  function Build(f: Frame): (r: seq<byte>)
    requires |f.data| <= DATA_MAX
    ensures |r| == 12 + |f.data|
  {
    Body(f) + [Fcs(Body(f)), STOP]
  }

  // ---------------------------------------------------------------- parsing

  /** The fields of a frame whose address starts at `s` and whose checksum stands at `e`. */
  function Fields(b: seq<byte>, s: nat, e: nat): Frame
    requires s + 9 <= e <= |b|
  {
    ToFromLe(b[s..s + 6]);
    Pow48();
    Frame(Bcd.Get(b[s..s + 6]) % 0x1_0000, FromLe(b[s..s + 6]),
          b[s + 7] % 32, b[s + 7] / 32 % 2, b[s + 7] / 64 % 2, b[s + 7] / 128, Sub33(b[s + 9..e]))
  }

  lemma Pow48()
    ensures Pow256(6) == 0x1_0000_0000_0000
  {
    Pow256Values();
    assert Pow256(5) == 256 * Pow256(4);
  }

  /** Checksum and stop byte. */
  function Finish(b: seq<byte>, s: nat, e: nat): Parsed
    requires 1 <= s && s + 9 <= e && e + 2 <= |b|
  {
    if Fcs(b[s - 1..e]) != b[e] then Done(FcsIncorrect, e, None)
    else if b[e + 1] != STOP then Done(Incorrect, e + 1, None)
    else Done(Success, e + 2, Some(Fields(b, s, e)))
  }

  /** dlt_frame_buff_parse. */
  function Parse(b: seq<byte>, off: nat): Parsed
    requires off <= |b|
  {
    var s := Scan(b, off);
    if |b| - s + 1 < LEN_MIN then Done(LenInvalid, s, None)
    else if b[s + 6] != START then Done(Incorrect, s, None)
    else
      var n := b[s + 8];
      if n > 0 && |b| - (s + 9) < n + 2 then Done(LenInvalid, |b|, None)
      else if n > DATA_MAX then Hangs
      else Finish(b, s, s + 9 + n)
  }

  /** dlt_frame_buff_parse, on the first `len` bytes of a buffer. */
  method ParseBuffer(buf: array<byte>, len: nat, off: nat) returns (res: Res, next: nat, frame: Option<Frame>)
    requires off <= len <= buf.Length && Parse(buf[..len], off) != Hangs
    ensures Done(res, next, frame) == Parse(buf[..len], off)
  {
    next := FindStart(buf, len, off);
    res, next, frame := ParseBehind(buf, len, off, next);
  }

  method ParseBehind(buf: array<byte>, len: nat, ghost off: nat, s: nat) returns (res: Res, next: nat, frame: Option<Frame>)
    requires off <= len <= buf.Length && s == Scan(buf[..len], off) && Parse(buf[..len], off) != Hangs
    ensures Done(res, next, frame) == Parse(buf[..len], off)
  {
    next := s;
    // without a start byte `next` is `len`, so this test also catches that case
    if len - next + 1 < LEN_MIN {
      return LenInvalid, next, None;
    }
    if buf[next + 6] != START {
      return Incorrect, next, None;
    }
    var n := buf[next + 8];
    if n > 0 && len - (next + 9) < n as int + 2 {
      return LenInvalid, len, None;
    }
    res, next, frame := FinishBuffer(buf, len, next, n);
  }

  method FinishBuffer(buf: array<byte>, len: nat, s: nat, n: byte) returns (res: Res, next: nat, frame: Option<Frame>)
    requires 1 <= s && n <= DATA_MAX && s + 9 + n as int + 2 <= len <= buf.Length
    ensures Done(res, next, frame) == Finish(buf[..len], s, s + 9 + n)
  {
    ghost var b := buf[..len];
    var e := s + 9 + n;
    var fcs := GetFcs(buf, s - 1, 10 + n);
    assert b[s - 1..e] == buf[s - 1..e];
    if fcs != buf[e] {
      return FcsIncorrect, e, None;
    }
    if buf[e + 1] != STOP {
      return Incorrect, e + 1, None;
    }
    var f := GetFields(buf, len, s, e);
    return Success, e + 2, Some(f);
  }

  method GetFields(buf: array<byte>, len: nat, s: nat, e: nat) returns (f: Frame)
    requires s + 9 <= e <= len <= buf.Length
    ensures f == Fields(buf[..len], s, e)
  {
    var adr := Bcd.GetBuffer(buf, s, 6);
    assert buf[..len][s..s + 6] == buf[s..s + 6];
    assert buf[..len][s + 9..e] == buf[s + 9..e];
    ToFromLe(buf[s..s + 6]);
    Pow48();
    var c := buf[s + 7];
    f := Frame(adr % 0x1_0000, FromLe(buf[s..s + 6]), c % 32, c / 32 % 2, c / 64 % 2, c / 128, Sub33(buf[s + 9..e]));
  }

  method PutHead(buf: array<byte>, f: Frame)
    requires |f.data| < 256 && buf.Length >= 10
    modifies buf
    ensures buf[..] == Splice(old(buf[..]), 0, Head(f))
  {
    ghost var s0 := buf[..];
    PutByte(buf, 0, START);
    PutAddress(buf, 1, f);
    SpliceTwice(s0, 0, [START], Address(f));
    PutThree(buf, 7, START, Ctrl(f), |f.data|);
    SpliceTwice(s0, 0, [START] + Address(f), [START, Ctrl(f), |f.data|]);
  }

  method PutAddress(buf: array<byte>, off: nat, f: Frame)
    requires off + 6 <= buf.Length
    modifies buf
    ensures buf[..] == Splice(old(buf[..]), off, Address(f))
  {
    if f.adrHex > 0 {
      PutLe(buf, off, f.adrHex, 6);
    } else {
      Bcd.PutBuffer(buf, off, f.adr, ADR_LEN);
    }
  }

  /** The copy loop. */
  method PutData(buf: array<byte>, off: nat, d: seq<byte>)
    requires off + |d| <= buf.Length
    modifies buf
    ensures buf[..] == Splice(old(buf[..]), off, Add33(d))
  {
    for i := 0 to |d|
      invariant buf[..off] == old(buf[..off]) && buf[off + |d|..] == old(buf[off + |d|..])
      invariant buf[off..off + i] == Add33(d)[..i]
    {
      buf[off + i] := Up33(d[i]);
    }
    assert buf[..] == buf[..off] + buf[off..off + |d|] + buf[off + |d|..];
    assert Add33(d)[..|d|] == Add33(d);
  }

  /** dlt_frame_buff_build. */
  method BuildBuffer(f: Frame) returns (buf: array<byte>)
    requires |f.data| <= DATA_MAX
    ensures fresh(buf) && buf[..] == Build(f)
  {
    buf := new byte[10 + |f.data| + 2];
    ghost var s0 := buf[..];
    PutHead(buf, f);
    PutData(buf, 10, f.data);
    SpliceTwice(s0, 0, Head(f), Add33(f.data));
    PutTail(buf, Body(f));
  }

  /** Checksum and stop byte behind the body. */
  method PutTail(buf: array<byte>, ghost body: seq<byte>)
    requires |body| <= 255 && buf.Length == |body| + 2 && buf[..|body|] == body
    modifies buf
    ensures buf[..] == body + [Fcs(body), STOP]
  {
    var n := buf.Length - 2;
    assert buf[0..n] == body;
    var fcs := GetFcs(buf, 0, n);
    buf[n] := fcs;
    buf[n + 1] := STOP;
  }

  // ---------------------------------------------------------------- round trip

  /** Fields that fit their places on the wire. */
  predicate Fits(f: Frame) {
    f.fnc < 32 && f.sseq < 2 && f.err < 2 && f.dir < 2 && |f.data| <= DATA_MAX
  }

  /** What a receiver sees: both readings of the address bytes. */
  function Received(f: Frame): Frame {
    ReadAs(f, Address(f))
  }

  function ReadAs(f: Frame, a: seq<byte>): Frame
    requires |a| == 6
  {
    ToFromLe(a);
    Pow48();
    f.(adr := Bcd.Get(a) % 0x1_0000, adrHex := FromLe(a))
  }

  /** The verdict on the bytes of one frame standing at `at`. */
  function Judge(x: seq<byte>, at: nat): Parsed
    requires |x| >= 12
  {
    var e := |x| - 2;
    if x[7] != START then Done(Incorrect, at + 1, None)
    else if Fcs(x[..e]) != x[e] then Done(FcsIncorrect, at + e, None)
    else if x[e + 1] != STOP then Done(Incorrect, at + e + 1, None)
    else Done(Success, at + e + 2, Some(Fields(x, 1, e)))
  }

  lemma FinishWindow(b: seq<byte>, at: nat, x: seq<byte>)
    requires |x| >= 12 && x[7] == START && at + |x| <= |b| && b[at..at + |x|] == x
    ensures Finish(b, at + 1, at + |x| - 2) == Judge(x, at)
  {
    var e := |x| - 2;
    assert forall i | 0 <= i < |x| :: b[at + i] == x[i];
    WindowPart(b, at, x, 0, e);
    WindowPart(b, at, x, 1, 7);
    WindowPart(b, at, x, 10, e);
  }

  /** Bytes that start like a frame and have its length are judged alone, whatever surrounds them. */
  lemma ParseWindow(b: seq<byte>, off: nat, at: nat, x: seq<byte>)
    requires |x| >= 12 && |x| == 12 + x[9] as int && x[9] <= DATA_MAX && x[0] == START
    requires off <= at && at + |x| <= |b| && NoStart(b[off..at]) && b[at..at + |x|] == x
    ensures Parse(b, off) == Judge(x, at)
  {
    assert b[at] == x[0] && b[at + 7] == x[7] && b[at + 9] == x[9];
    ScanSkips(b, off, at);
    if x[7] == START {
      FinishWindow(b, at, x);
    }
  }

  lemma WindowPart(b: seq<byte>, at: nat, x: seq<byte>, i: nat, j: nat)
    requires at + |x| <= |b| && b[at..at + |x|] == x && i <= j <= |x|
    ensures b[at + i..at + j] == x[i..j]
  {
    assert forall k | 0 <= k < |x| :: b[at + k] == x[k];
  }

  lemma CtrlSum(a: nat, b: nat, c: nat, d: nat)
    requires a < 32 && b < 2 && c < 2 && d < 2
    ensures Or(Or(Or(a, b * 32), c * 64), d * 128) == a + b * 32 + c * 64 + d * 128
  {
    Or32(a, b);
    Or64(a + b * 32, c);
    Or128(a + b * 32 + c * 64, d);
  }

  lemma CtrlBits(a: nat, b: nat, c: nat, d: nat)
    requires a < 32 && b < 2 && c < 2 && d < 2
    ensures var v := a + b * 32 + c * 64 + d * 128;
            v < 256 && v % 32 == a && v / 32 % 2 == b && v / 64 % 2 == c && v / 128 == d
  {
  }

  lemma CtrlOr(a: nat, b: nat, c: nat, d: nat, v: nat)
    requires a < 32 && b < 2 && c < 2 && d < 2 && v == Or(Or(Or(a, b * 32), c * 64), d * 128)
    ensures v < 256 && v % 32 == a && v / 32 % 2 == b && v / 64 % 2 == c && v / 128 == d
  {
    CtrlSum(a, b, c, d);
    CtrlBits(a, b, c, d);
  }

  lemma CtrlRoundTrip(f: Frame)
    requires Fits(f)
    ensures var c := Ctrl(f); c % 32 == f.fnc && c / 32 % 2 == f.sseq && c / 64 % 2 == f.err && c / 128 == f.dir
  {
    CtrlOr(f.fnc, f.sseq, f.err, f.dir, Or(Or(Or(f.fnc, f.sseq * 32), f.err * 64), f.dir * 128));
  }

  lemma DataRoundTrip(d: seq<byte>)
    ensures Sub33(Add33(d)) == d
  {
    forall i | 0 <= i < |d| ensures Down33(Up33(d[i])) == d[i] {
    }
  }

  /** Where the parts of a built frame stand. */
  lemma BuiltParts(f: Frame)
    requires |f.data| <= DATA_MAX
    ensures var x := Build(f);
            var e := |x| - 2;
            && x[0] == x[7] == START && x[1..7] == Address(f) && x[8] == Ctrl(f) && x[9] == |f.data|
            && x[10..e] == Add33(f.data) && x[..e] == Body(f) && x[e] == Fcs(Body(f)) && x[e + 1] == STOP
  {
  }

  lemma BuiltFields(f: Frame)
    requires Fits(f)
    ensures var x := Build(f); Fields(x, 1, |x| - 2) == Received(f)
  {
    BuiltParts(f);
    CtrlRoundTrip(f);
    DataRoundTrip(f.data);
  }

  /** A built frame, behind start-free garbage and in front of anything, parses back to its fields. */
  lemma ParseUndoesBuild(b: seq<byte>, off: nat, at: nat, f: Frame)
    requires Fits(f) && off <= at && at + 12 + |f.data| <= |b|
    requires NoStart(b[off..at]) && b[at..at + 12 + |f.data|] == Build(f)
    ensures Parse(b, off) == Done(Success, at + 12 + |f.data|, Some(Received(f)))
  {
    BuiltParts(f);
    ParseWindow(b, off, at, Build(f));
    BuiltFields(f);
  }

  /** The address that was set comes back: the number if there is one, else the decimal address. */
  lemma AddressReceived(f: Frame)
    ensures if f.adrHex > 0 then Received(f).adrHex == f.adrHex else Received(f).adr == f.adr
  {
    if f.adrHex > 0 {
      NumberAddress(f.adrHex, Address(f));
    } else {
      DecimalAddress(f.adr, Address(f));
      ReadDecimal(f, Address(f));
    }
  }

  lemma ReadDecimal(f: Frame, a: seq<byte>)
    requires |a| == 6 && Bcd.Get(a) == f.adr
    ensures ReadAs(f, a).adr == f.adr
  {
  }

  lemma NumberAddress(n: u48, a: seq<byte>)
    requires a == ToLe(n, 6)
    ensures FromLe(a) == n
  {
    Pow48();
    FromToLe(n, 6);
  }

  lemma DecimalAddress(adr: u16, a: seq<byte>)
    requires a == Bcd.Put(adr, ADR_LEN)
    ensures Bcd.Get(a) == adr
  {
    Pow100Six();
    Bcd.GetPutFits(adr, ADR_LEN);
  }

  lemma Pow100Six()
    ensures Bcd.Pow100(ADR_LEN) == 1000000000000
  {
    assert Bcd.Pow100(3) == 1000000;
    assert Bcd.Pow100(6) == 1000000 * Bcd.Pow100(3);
  }

  // ---------------------------------------------------------------- the bytes spelt out

  /** The six address bytes as a number. */
  function HexOf(w: seq<byte>): nat
    requires |w| >= 7
  {
    w[1] as int + 256 * w[2] as int + 65536 * w[3] as int + 16777216 * w[4] as int
    + 4294967296 * w[5] as int + 1099511627776 * w[6] as int
  }

  function TwoDigits(v: byte): nat {
    v % 16 + 10 * (v / 16)
  }

  /** The six address bytes as twelve decimal digits; 0 if one of them is none. */
  function DecOf(w: seq<byte>): nat
    requires |w| >= 7
  {
    if exists i :: 1 <= i <= 6 && (w[i] % 16 > 9 || w[i] / 16 > 9) then 0
    else TwoDigits(w[1]) + 100 * TwoDigits(w[2]) + 10000 * TwoDigits(w[3]) + 1000000 * TwoDigits(w[4])
         + 100000000 * TwoDigits(w[5]) + 10000000000 * TwoDigits(w[6])
  }

  /**
   A frame byte by byte: start, address, start, control byte, length, data with 0x33 added to each byte,
   the sum of all that, and the stop byte.
   */
  predicate Spells(w: seq<byte>, f: Frame) {
    var e := 10 + |f.data|;
    && |w| == e + 2 && w[0] == 0x68 && w[7] == 0x68 && w[9] == |f.data| && Carries(w, e, f)
    && w[e] == Sum(w[..e]) % 256 && w[e + 1] == 0x16
  }

  /** The address, the control byte and the data up to `e`. */
  predicate Carries(w: seq<byte>, e: nat, f: Frame)
    requires |w| >= 10
  {
    && e == 10 + |f.data| <= |w| && f.adrHex == HexOf(w) && f.adr == DecOf(w) % 65536
    && f.fnc < 32 && f.sseq < 2 && f.err < 2 && f.dir < 2 && w[8] == f.fnc + 32 * f.sseq + 64 * f.err + 128 * f.dir
    && forall i | 0 <= i < |f.data| :: w[10 + i] == (f.data[i] as int + 0x33) % 256
  }

  lemma HexRead(w: seq<byte>)
    requires |w| >= 7
    ensures FromLe(w[1..7]) == HexOf(w)
  {
    HexStep(w, 6);
    HexStep(w, 5);
    HexStep(w, 4);
    HexStep(w, 3);
    HexStep(w, 2);
    HexStep(w, 1);
  }

  lemma HexStep(w: seq<byte>, i: nat)
    requires 1 <= i < 7 <= |w|
    ensures FromLe(w[i..7]) == w[i] as int + 256 * FromLe(w[i + 1..7]) && FromLe(w[7..7]) == 0
  {
    assert w[i..7][1..] == w[i + 1..7];
  }

  lemma DecStep(w: seq<byte>, i: nat)
    requires 1 <= i < 7 <= |w|
    ensures Bcd.Num(w[i..7]) == TwoDigits(w[i]) + 100 * Bcd.Num(w[i + 1..7]) && Bcd.Num(w[7..7]) == 0
  {
    assert w[i..7][1..] == w[i + 1..7];
  }

  lemma DecRead(w: seq<byte>)
    requires |w| >= 7
    ensures Bcd.Get(w[1..7]) == DecOf(w)
  {
    assert forall i | 1 <= i <= 6 :: w[1..7][i - 1] == w[i];
    DecNum(w);
  }

  lemma DecNum(w: seq<byte>)
    requires |w| >= 7
    ensures Bcd.Num(w[1..7]) == TwoDigits(w[1]) + 100 * TwoDigits(w[2]) + 10000 * TwoDigits(w[3]) + 1000000 * TwoDigits(w[4])
                                + 100000000 * TwoDigits(w[5]) + 10000000000 * TwoDigits(w[6])
  {
    DecStep(w, 6);
    DecStep(w, 5);
    DecStep(w, 4);
    DecStep(w, 3);
    DecStep(w, 2);
    DecStep(w, 1);
  }

  lemma CtrlRead(v: byte, fnc: byte, sseq: byte, err: byte, dir: byte)
    ensures v % 32 == fnc && v / 32 % 2 == sseq && v / 64 % 2 == err && v / 128 == dir <==>
              fnc < 32 && sseq < 2 && err < 2 && dir < 2 && v == fnc + 32 * sseq + 64 * err + 128 * dir
  {
  }

  lemma DataRead(d: seq<byte>, data: seq<byte>)
    ensures Sub33(d) == data <==> |d| == |data| && forall i | 0 <= i < |data| :: d[i] == (data[i] as int + 0x33) % 256
  {
    if Sub33(d) == data {
      forall i | 0 <= i < |data| ensures d[i] == (data[i] as int + 0x33) % 256 {
        assert data[i] == Down33(d[i]);
      }
    }
  }

  /** A window that is accepted is the frame it spells. */
  lemma JudgeIff(x: seq<byte>, at: nat, next: nat, f: Frame)
    requires |x| >= 12 && |x| == 12 + x[9] as int && x[0] == 0x68
    ensures Judge(x, at) == Done(Success, next, Some(f)) <==> Spells(x, f) && next == at + |x|
  {
    if x[7] == 0x68 {
      FieldsIff(x, |x| - 2, f);
    }
  }

  lemma FieldsIff(x: seq<byte>, e: nat, f: Frame)
    requires 10 <= e <= |x|
    ensures Fields(x, 1, e) == f <==> Carries(x, e, f)
  {
    HexRead(x);
    DecRead(x);
    CtrlRead(x[8], f.fnc, f.sseq, f.err, f.dir);
    DataAt(x, e, f.data);
  }

  lemma DataAt(x: seq<byte>, e: nat, data: seq<byte>)
    requires 10 <= e <= |x|
    ensures Sub33(x[10..e]) == data <==>
              e == 10 + |data| && forall i | 0 <= i < |data| :: x[10 + i] == (data[i] as int + 0x33) % 256
  {
    DataRead(x[10..e], data);
    assert forall i | 0 <= i < e - 10 :: x[10..e][i] == x[10 + i];
  }

  /** The scan stops at the first start byte. */
  lemma {:induction false} ScanFirst(b: seq<byte>, off: nat)
    requires off <= |b| && Scan(b, off) < |b|
    ensures var s := Scan(b, off) - 1; off <= s && b[s] == 0x68 && NoStart(b[off..s])
    decreases |b| - off
  {
    if b[off] != START {
      ScanFirst(b, off + 1);
      var s := Scan(b, off) - 1;
      assert b[off..s] == [b[off]] + b[off + 1..s];
    }
  }

  predicate SpeltAt(b: seq<byte>, off: nat, s: nat, next: nat, f: Frame) {
    off <= s && s + 12 <= next <= |b| && NoStart(b[off..s]) && Spells(b[s..next], f) && |f.data| <= 245
  }

  lemma SpeltParses(b: seq<byte>, off: nat, s: nat, next: nat, f: Frame)
    requires off <= |b| && SpeltAt(b, off, s, next, f)
    ensures Parse(b, off) == Done(Success, next, Some(f))
  {
    ParseWindow(b, off, s, b[s..next]);
    JudgeIff(b[s..next], s, next, f);
  }

  /** A parse that succeeds has found a start byte and enough behind it. */
  lemma ParsedWindow(b: seq<byte>, off: nat) returns (s: nat, end: nat)
    requires off <= |b| && Parse(b, off).Done? && Parse(b, off).res == Success
    ensures off <= s && s + 12 <= end <= |b| && NoStart(b[off..s]) && b[s] == 0x68 && end == s + 12 + b[s + 9] && b[s + 9] <= 245
  {
    ScanFirst(b, off);
    s := Scan(b, off) - 1;
    end := s + 12 + b[s + 9];
  }

  lemma ParsedSpells(b: seq<byte>, off: nat, next: nat, f: Frame) returns (s: nat)
    requires off <= |b| && Parse(b, off) == Done(Success, next, Some(f))
    ensures SpeltAt(b, off, s, next, f)
  {
    var end;
    s, end := ParsedWindow(b, off);
    assert Spells(b[s..end], f) && next == end by {
      var p := ParsedJudge(b, off, s, end, b[s..end]);
      JudgedSpells(b[s..end], s, p, next, f);
    }
    WindowSpelt(b, off, s, end, b[s..end], f);
  }

  lemma WindowSpelt(b: seq<byte>, off: nat, s: nat, end: nat, x: seq<byte>, f: Frame)
    requires off <= s && s + 12 <= end <= |b| && x == b[s..end] && Spells(x, f) && x[9] <= 245 && NoStart(b[off..s])
    ensures SpeltAt(b, off, s, end, f)
  {
  }

  /** The verdict on the window is the verdict on the buffer. */
  lemma ParsedJudge(b: seq<byte>, off: nat, s: nat, end: nat, x: seq<byte>) returns (p: Parsed)
    requires off <= s && s + 12 <= end <= |b| && x == b[s..end] && |x| == 12 + x[9] as int && x[9] <= 245 && x[0] == 0x68 && NoStart(b[off..s])
    ensures p == Parse(b, off) == Judge(x, s)
  {
    p := Parse(b, off);
    ParseWindow(b, off, s, x);
  }

  lemma JudgedSpells(x: seq<byte>, s: nat, p: Parsed, next: nat, f: Frame)
    requires |x| >= 12 && |x| == 12 + x[9] as int && x[0] == 0x68 && p == Judge(x, s) == Done(Success, next, Some(f))
    ensures Spells(x, f) && next == s + |x|
  {
    JudgeIff(x, s, next, f);
  }

  /**
   The parser accepts exactly the bytes that spell a frame of at most 245 bytes of data behind bytes none of
   which is a start byte, and delivers this frame and the offset behind it.
   */
  lemma ParsedIff(b: seq<byte>, off: nat, next: nat, f: Frame)
    requires off <= |b|
    ensures Parse(b, off) == Done(Success, next, Some(f)) <==> exists s :: SpeltAt(b, off, s, next, f)
  {
    if Parse(b, off) == Done(Success, next, Some(f)) {
      var s := ParsedSpells(b, off, next, f);
    }
    if s :| SpeltAt(b, off, s, next, f) {
      SpeltParses(b, off, s, next, f);
    }
  }

  /** What is built spells the frame, its address in the reading it was set in. */
  lemma BuildSpells(f: Frame)
    requires Fits(f)
    ensures Spells(Build(f), Received(f)) && |Received(f).data| == |f.data|
    ensures if f.adrHex > 0 then HexOf(Build(f)) == f.adrHex else DecOf(Build(f)) == f.adr
    ensures Received(f).(adr := f.adr, adrHex := f.adrHex) == f
  {
    BuiltParts(f);
    BuiltAddress(f, Build(f));
    BuiltJudged(f, Build(f));
    JudgeIff(Build(f), 0, |Build(f)|, Received(f));
  }

  lemma BuiltJudged(f: Frame, x: seq<byte>)
    requires Fits(f) && x == Build(f)
    ensures |x| == 12 + |f.data| && x[0] == START && x[9] == |f.data| && Judge(x, 0) == Done(Success, |x|, Some(Received(f)))
  {
    BuiltParts(f);
    ParseUndoesBuild(x, 0, 0, f);
    ParseWindow(x, 0, 0, x);
  }

  lemma BuiltAddress(f: Frame, x: seq<byte>)
    requires |x| >= 7 && x[1..7] == Address(f)
    ensures if f.adrHex > 0 then HexOf(x) == f.adrHex else DecOf(x) == f.adr
  {
    if f.adrHex > 0 {
      HexRead(x);
      NumberAddress(f.adrHex, Address(f));
    } else {
      DecRead(x);
      DecimalAddress(f.adr, Address(f));
    }
  }

  // ---------------------------------------------------------------- corruption and truncation

  /**
   Changing one byte of a built frame - any but the first start byte and the length byte - makes
   the parser refuse it.
   */
  lemma CorruptionDetected(b: seq<byte>, off: nat, at: nat, f: Frame, k: nat, v: byte)
    requires |f.data| <= DATA_MAX && off <= at && at + 12 + |f.data| <= |b|
    requires k < 12 + |f.data| && k != 0 && k != 9 && v != Build(f)[k]
    requires NoStart(b[off..at]) && b[at..at + 12 + |f.data|] == Build(f)[k := v]
    ensures Parse(b, off).Done? && Parse(b, off).frame == None
    ensures Parse(b, off).res == if k == 7 || k == 11 + |f.data| then Incorrect else FcsIncorrect
  {
    var x := Build(f);
    var y := x[k := v];
    var e := |x| - 2;
    BuiltParts(f);
    ParseWindow(b, off, at, y);
    if k < e {
      assert y[..e] == Body(f)[k := v];
      FcsUpdate(Body(f), k, v);
    } else {
      assert y[..e] == Body(f);
    }
  }

  /** `w` with byte `k` changed, behind `g` and in front of `rest`. */
  function Changed(g: seq<byte>, w: seq<byte>, k: nat, v: byte, rest: seq<byte>): seq<byte>
    requires k < |w|
  {
    g + w[k := v] + rest
  }

  predicate Refused(b: seq<byte>) {
    Parse(b, 0).Done? && Parse(b, 0).frame == None
  }

  /** Byte `k` of a frame cannot be changed unnoticed, whatever the frame and what surrounds it. */
  ghost predicate Protected(k: nat) {
    forall g, f: Frame, v, rest |
      NoStart(g) && |f.data| <= DATA_MAX && k < 12 + |f.data| && v != Build(f)[k] :: Refused(Changed(g, Build(f), k, v, rest))
  }

  /** Any bytes that start like a frame, completed by checksum and stop byte. */
  lemma Completed(g: seq<byte>, x: seq<byte>)
    requires NoStart(g) && |x| >= 10 && |x| == 10 + x[9] as int && x[9] <= DATA_MAX && x[0] == x[7] == START
    ensures Parse(g + (x + [Fcs(x), STOP]), 0) == Done(Success, |g| + |x| + 2, Some(Fields(x, 1, |x|)))
  {
    var y := x + [Fcs(x), STOP];
    var b := g + y;
    assert b[0..|g|] == g && b[|g|..|g| + |y|] == y;
    ParseWindow(b, 0, |g|, y);
    assert y[..|x|] == x;
    SameFields(y, x);
  }

  lemma SameFields(y: seq<byte>, x: seq<byte>)
    requires x <= y && |x| >= 10
    ensures Fields(y, 1, |x|) == Fields(x, 1, |x|)
  {
    assert y[1..7] == x[1..7] && y[10..|x|] == x[10..|x|];
  }

  /** The length byte is not protected: two more take in checksum and stop byte, and what follows may end the frame. */
  lemma LengthUnprotected(g: seq<byte>, f: Frame)
    requires NoStart(g) && |f.data| <= DATA_MAX - 2
    ensures var x := Build(f)[9 := |f.data| + 2];
            Parse(Changed(g, Build(f), 9, |f.data| + 2, [Fcs(x), STOP]), 0)
              == Done(Success, |g| + |x| + 2, Some(Fields(x, 1, |x|)))
  {
    BuiltParts(f);
    var x := Build(f)[9 := |f.data| + 2];
    Completed(g, x);
    assert g + x + [Fcs(x), STOP] == g + (x + [Fcs(x), STOP]);
  }

  /** Nor is the first start byte: the second one may start another frame with what follows. */
  lemma StartUnprotected(g: seq<byte>, f: Frame, v: byte)
    requires NoStart(g) && f.data == [] && NoStart(Address(f)) && v != START
    ensures var x := Build(f)[7..] + [0, 0, START, 0, 0];
            Parse(Changed(g, Build(f), 0, v, [0, 0, START, 0, 0] + [Fcs(x), STOP]), 0)
              == Done(Success, |g| + 19, Some(Fields(x, 1, 10)))
  {
    var tail := [0, 0, START, 0, 0];
    var x := Build(f)[7..] + tail;
    var skipped := g + ([v] + Address(f));
    BuiltParts(f);
    Completed(skipped, x);
    Skipped(g, Build(f), v, Address(f), tail, [Fcs(x), STOP]);
  }

  lemma Skipped(g: seq<byte>, w: seq<byte>, v: byte, adr: seq<byte>, tail: seq<byte>, end: seq<byte>)
    requires |w| >= 7 && w[1..7] == adr
    ensures g + w[0 := v] + (tail + end) == g + ([v] + adr) + (w[7..] + tail + end)
  {
    assert w[0 := v] == [v] + adr + w[7..];
  }

  /** Exactly the first start byte and the length byte can be changed unnoticed. */
  lemma ProtectedIff(k: nat)
    ensures Protected(k) <==> k != 0 && k != 9
  {
    if k != 0 && k != 9 {
      forall g, f: Frame, v, rest |
        NoStart(g) && |f.data| <= DATA_MAX && k < 12 + |f.data| && v != Build(f)[k]
        ensures Refused(Changed(g, Build(f), k, v, rest))
      {
        var b := Changed(g, Build(f), k, v, rest);
        assert b[0..|g|] == g && b[|g|..|g| + 12 + |f.data|] == Build(f)[k := v];
        CorruptionDetected(b, 0, |g|, f, k, v);
      }
    } else {
      Unprotected(k);
    }
  }

  lemma Unprotected(k: nat)
    requires k == 0 || k == 9
    ensures !Protected(k)
  {
    var f := Frame(0, 1, 0, 0, 0, 0, []);
    BuiltParts(f);
    if k == 0 {
      AddressOfOne(f);
      var x := Build(f)[7..] + [0, 0, START, 0, 0];
      StartUnprotected([], f, 0);
      Unnoticed([], f, 0, 0, [0, 0, START, 0, 0] + [Fcs(x), STOP]);
    } else {
      LengthUnprotected([], f);
      Unnoticed([], f, 9, 2, [Fcs(Build(f)[9 := 2]), STOP]);
    }
  }

  lemma AddressOfOne(f: Frame)
    requires f.adrHex == 1
    ensures NoStart(Address(f))
  {
    assert ToLe(1, 6) == [1, 0, 0, 0, 0, 0];
  }

  lemma Unnoticed(g: seq<byte>, f: Frame, k: nat, v: byte, rest: seq<byte>)
    requires NoStart(g) && |f.data| <= DATA_MAX && k < 12 + |f.data| && v != Build(f)[k]
    requires !Refused(Changed(g, Build(f), k, v, rest))
    ensures !Protected(k)
  {
  }

  /** No proper prefix of a frame, with start-free bytes before it, parses: the length is short. */
  lemma PrefixRefused(g: seq<byte>, f: Frame, j: nat)
    requires |f.data| <= DATA_MAX && NoStart(g) && j < 12 + |f.data|
    ensures var p := Parse(g + Build(f)[..j], 0); p.Done? && p.res == LenInvalid && p.frame == None
  {
    BuiltParts(f);
    var b := g + Build(f)[..j];
    assert b[0..|g|] == g;
    ScanSkips(b, 0, |g|);
    if j >= 12 {
      assert b[|g| + 7] == START && b[|g| + 9] == |f.data|;
    }
  }

}
