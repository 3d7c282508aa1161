/** FT1.2 frames of IEC 60870-5-101 (format class of IEC 60870-5-1): unitlinks/src/lpdu_frame.c. */
module LpduFrame {
  import opened Prelude
  import opened Bytes
  import opened Checksum

  const START_VAR: byte := 0x68
  const START_FIX: byte := 0x10
  const STOP: byte := 0x16
  const SC_ACK: byte := 0xE5
  const SC_NACK: byte := 0xA2

  datatype Type = VarLen | FixLen | SingleChar

  datatype Control = Control(fnc: byte, prm: byte, fcv: byte, fcb: byte, dfc: byte, acd: byte, dir: byte)

  const NO_CONTROL := Control(0, 0, 0, 0, 0, 0, 0)

  datatype Frame = Frame(typ: Type, ctrl: Control, sc: byte, adr: u16, data: seq<byte>)

  /** Link address field lengths of the standard; 0 stands for balanced links without one. */
  type AdrLen = n: int | 0 <= n <= 2

  /** Bytes of an address that is to take `a`: of any length above 2 none is read or written. */
  function AdrPart(a: byte): (r: nat)
    ensures r <= a && r <= 2
  {
    if a <= 2 then a else 0
  }

  /** Bytes that are counted and not there. */
  function Slack(a: byte): byte {
    if a <= 2 then 0 else a
  }

  /**
   Response code, new offset and frame.  Undefined: the source reads before or behind the buffer, or
   its user data length wraps around, or the checksum loop never ends.
   */
  datatype Parsed = Done(res: Res, next: nat, frame: Option<Frame>) | Undefined

  // ---------------------------------------------------------------- building

  /** Bits 4 and 5 mean different things from a primary and from a secondary station. */
  function Bit4(c: Control): byte {
    if c.prm == 1 then c.fcv else c.dfc
  }

  function Bit5(c: Control): byte {
    if c.prm == 1 then c.fcb else c.acd
  }

  function Pack(fnc: nat, prm: nat, x: nat, y: nat, dir: nat): nat {
    Or(Or(Or(fnc, prm * 64), Or(x * 16, y * 32)), dir * 128)
  }

  function ControlByte(c: Control): byte {
    var v := Pack(c.fnc, c.prm, Bit4(c), Bit5(c), c.dir);
    U8(v)
  }

  /** What the checksum covers. */
  function UserData(f: Frame, a: byte): (r: seq<byte>)
    ensures |r| == 1 + AdrPart(a) + |f.data|
  {
    [ControlByte(f.ctrl)] + ToLe(f.adr, AdrPart(a)) + f.data
  }

  function Tail(u: seq<byte>): (r: seq<byte>)
    ensures |r| == 2
  {
    [Fcs(u), STOP]
  }

  /** The checksum loop counts in one byte. */
  predicate Buildable(f: Frame, a: byte) {
    1 + AdrPart(a) + |f.data| <= 255
  }

  /** The user data length as the frame states it. */
  function Length(f: Frame, a: byte): byte {
    U8(1 + a as int + |f.data|)
  }

  /** lpdu_frame_buff_build_ft12: variable frames need data, and single characters exactly one byte of it. */
  function Build(f: Frame, a: byte): Option<seq<byte>>
    requires Buildable(f, a)
  {
    match f.typ
    case VarLen =>
      if f.data == [] then None
      else Some([START_VAR, Length(f, a), Length(f, a), START_VAR] + UserData(f, a) + Tail(UserData(f, a)))
    case FixLen => Some([START_FIX] + UserData(f.(data := []), a) + Tail(UserData(f.(data := []), a)))
    case SingleChar => if |f.data| == 1 then Some([f.sc]) else None
  }

  // ---------------------------------------------------------------- parsing

  function ParseControl(b: byte): Control {
    if b / 64 % 2 == 1 then Control(b % 16, 1, b / 16 % 2, b / 32 % 2, 0, 0, b / 128)
    else Control(b % 16, 0, 0, 0, b / 16 % 2, b / 32 % 2, b / 128)
  }

  /** The frame of type `t` whose user data stand from `s` to `e`. */
  function Fields(t: Type, b: seq<byte>, s: nat, e: nat, a: byte): Frame
    requires s + 1 + AdrPart(a) <= e <= |b|
  {
    var at := s + 1 + AdrPart(a);
    ToFromLe(b[s + 1..at]);
    AdrFits(AdrPart(a));
    Frame(t, ParseControl(b[s]), 0, FromLe(b[s + 1..at]), b[at..e])
  }

  lemma AdrFits(a: AdrLen)
    ensures Pow256(a) <= 0x1_0000
  {
    Pow256Values();
  }

  /**
   Checksum and stop byte behind user data that stand from `s` to `e`; the checksum is taken over as
   many bytes before `s` as are missing behind it.
   */
  function Finish(t: Type, b: seq<byte>, s: nat, e: nat, a: byte): Parsed
    requires s + 1 + AdrPart(a) <= e && e + 2 <= |b|
  {
    if a > 2 && (s < a || e - s + a > 255) then Undefined
    else if Fcs(if a <= 2 then b[s..e] else b[s - a..e]) != b[e] then Done(FcsIncorrect, e, None)
    else if b[e + 1] != STOP then Done(Incorrect, e + 1, None)
    else Done(Success, e + 2, Some(Fields(t, b, s, e, a)))
  }

  /** The variable length branch of lpdu_frame_buff_parse_ft12. */
  function ParseVar(b: seq<byte>, off: nat, a: byte): Parsed
    requires off < |b|
  {
    if off + 2 >= |b| then Undefined
    else if b[off + 1] != b[off + 2] then Done(LenInvalid, off + 2, None)
    else if off + 3 >= |b| then Undefined
    else if b[off + 3] != START_VAR then Done(Incorrect, off + 3, None)
    else
      var n := b[off + 1];
      if |b| - (off + 4) < n + 2 then Done(LenInvalid, |b|, None)
      else if n < 1 + a then Undefined
      else Finish(VarLen, b, off + 4, off + 4 + n - Slack(a), a)
  }

  /** lpdu_frame_buff_parse_ft12. */
  function ParseFt12(b: seq<byte>, off: nat, a: byte): Parsed
    requires off <= |b|
  {
    if off == |b| then Done(Incorrect, off, None)
    else if b[off] == START_VAR then ParseVar(b, off, a)
    else if b[off] == START_FIX then
      if |b| - (off + 1) < 1 + a + 2 then Done(LenInvalid, off + 1, None)
      else Finish(FixLen, b, off + 1, off + 2 + AdrPart(a), a)
    else if b[off] == SC_ACK || b[off] == SC_NACK then
      Done(Success, off + 1, Some(Frame(SingleChar, NO_CONTROL, b[off], 0, [])))
    else Done(Unknown, off + 1, None)
  }

  predicate Starts(v: byte) {
    v == START_VAR || v == START_FIX || v == SC_ACK || v == SC_NACK
  }

  /** First bytes of formats the parser knows of but does not support. */
  predicate Foreign(v: byte) {
    v in {0x27, 0x14, 0x05, 0x64, 0x12, 0x30}
  }

  /** lpdu_frame_buff_parse; with nothing left to read its response code is never set. */
  function Parse(b: seq<byte>, off: nat, a: byte): Parsed
    requires off <= |b|
    decreases |b| - off
  {
    if off == |b| then Undefined
    else if Starts(b[off]) then ParseFt12(b, off, a)
    else if off + 1 == |b| then Done(if Foreign(b[off]) then Unsupported else Unknown, |b|, None)
    else Parse(b, off + 1, a)
  }

  // ---------------------------------------------------------------- the methods of the source

  /** lpdu_frame_buff_parse. */
  method ParseBuffer(buf: array<byte>, off: nat, a: byte) returns (res: Res, next: nat, frame: Option<Frame>)
    requires off <= buf.Length && Parse(buf[..], off, a) != Undefined
    ensures Done(res, next, frame) == Parse(buf[..], off, a)
  {
    next := off;
    res, frame := Unknown, None;
    while next < buf.Length
      invariant off <= next <= buf.Length && frame == None
      invariant next < buf.Length ==> Parse(buf[..], off, a) == Parse(buf[..], next, a)
      invariant next == buf.Length ==> Done(res, next, frame) == Parse(buf[..], off, a)
    {
      if Starts(buf[next]) {
        res, next, frame := Ft12Buffer(buf, next, a);
        return;
      }
      res := if Foreign(buf[next]) then Unsupported else Unknown;
      next := next + 1;
    }
  }

  method Ft12Buffer(buf: array<byte>, off: nat, a: byte) returns (res: Res, next: nat, frame: Option<Frame>)
    requires off < buf.Length && ParseFt12(buf[..], off, a) != Undefined
    ensures Done(res, next, frame) == ParseFt12(buf[..], off, a)
  {
    var start := buf[off];
    if start == START_VAR {
      var n := buf[off + 1];
      if n != buf[off + 2] {
        return LenInvalid, off + 2, None;
      }
      if buf[off + 3] != START_VAR {
        return Incorrect, off + 3, None;
      }
      if buf.Length - (off + 4) < n as int + 2 {
        return LenInvalid, buf.Length, None;
      }
      res, next, frame := FinishBuffer(VarLen, buf, off + 4, n, off + 4 + n - Slack(a), a);
    } else if start == START_FIX {
      if buf.Length - (off + 1) < 1 + a as int + 2 {
        return LenInvalid, off + 1, None;
      }
      res, next, frame := FinishBuffer(FixLen, buf, off + 1, 1 + a as int, off + 2 + AdrPart(a), a);
    } else if start == SC_ACK || start == SC_NACK {
      res, next, frame := Success, off + 1, Some(Frame(SingleChar, NO_CONTROL, start, 0, []));
    } else {
      res, next, frame := Unknown, off + 1, None;
    }
  }

  method FinishBuffer(t: Type, buf: array<byte>, s: nat, n: nat, e: nat, a: byte) returns (res: Res, next: nat, frame: Option<Frame>)
    requires 1 + a as int <= n <= 256 && (a <= 2 ==> n <= 255)
    requires s + n + 2 <= buf.Length && e == s + n - Slack(a) && Finish(t, buf[..], s, e, a) != Undefined
    ensures Done(res, next, frame) == Finish(t, buf[..], s, e, a)
  {
    var fcs := GetFcs(buf, s - Slack(a), n);
    if fcs != buf[e] {
      return FcsIncorrect, e, None;
    }
    if buf[e + 1] != STOP {
      return Incorrect, e + 1, None;
    }
    res, next, frame := Success, e + 2, Some(Fields(t, buf[..], s, e, a));
  }

  /** Control field, address, data, checksum and stop byte behind the first `s` bytes. */
  method PutUserData(buf: array<byte>, s: nat, f: Frame, a: byte)
    requires Buildable(f, a) && buf.Length >= s + |UserData(f, a)| + 2
    modifies buf
    ensures old(buf[..s]) + UserData(f, a) + Tail(UserData(f, a)) <= buf[..]
  {
    var e := s + 1 + AdrPart(a) + |f.data|;
    PutParts(buf, s, ControlByte(f.ctrl), f.adr, AdrPart(a), f.data);
    assert buf[s..e] == UserData(f, a);
    PutTail(buf, s, e, UserData(f, a));
  }

  method PutParts(buf: array<byte>, s: nat, c: byte, adr: u16, a: AdrLen, d: seq<byte>)
    requires s + 1 + a + |d| <= buf.Length
    modifies buf
    ensures buf[..] == Splice(old(buf[..]), s, [c] + ToLe(adr, a) + d)
  {
    ghost var s0 := buf[..];
    PutByte(buf, s, c);
    PutLe(buf, s + 1, adr, a);
    SpliceTwice(s0, s, [c], ToLe(adr, a));
    PutBytes(buf, s + 1 + a, d);
    SpliceTwice(s0, s, [c] + ToLe(adr, a), d);
  }

  method PutTail(buf: array<byte>, s: nat, e: nat, ghost u: seq<byte>)
    requires |u| <= 255 && e == s + |u| && e + 2 <= buf.Length && buf[s..e] == u
    modifies buf
    ensures old(buf[..s]) + u + Tail(u) <= buf[..]
  {
    var fcs := GetFcs(buf, s, e - s);
    buf[e] := fcs;
    buf[e + 1] := STOP;
    assert buf[s..e] == u;
    assert buf[..e + 2] == buf[..s] + buf[s..e] + [fcs, STOP];
  }

  /** lpdu_frame_buff_build_ft12; for addresses of more than 2 bytes the end of the buffer is left unset. */
  method BuildBuffer(f: Frame, a: byte) returns (res: Res, buf: array<byte>)
    requires Buildable(f, a)
    ensures fresh(buf)
    ensures match Build(f, a)
            case None => res == Incorrect && buf.Length == 0
            case Some(bytes) =>
              res == Success && bytes <= buf[..] && buf.Length == |bytes| + if f.typ == SingleChar then 0 else Slack(a)
  {
    res, buf := Success, new byte[0];
    match f.typ
    case VarLen =>
      if f.data == [] {
        return Incorrect, buf;
      }
      buf := new byte[5 + a as int + |f.data| + 2];
      var n := Length(f, a);
      buf[0], buf[1], buf[2], buf[3] := START_VAR, n, n, START_VAR;
      assert buf[..4] == [START_VAR, n, n, START_VAR];
      PutUserData(buf, 4, f, a);
    case FixLen =>
      buf := new byte[2 + a as int + 2];
      buf[0] := START_FIX;
      assert buf[..1] == [START_FIX];
      PutUserData(buf, 1, f.(data := []), a);
    case SingleChar =>
      if |f.data| != 1 {
        return Incorrect, buf;
      }
      buf := new byte[1];
      buf[0] := f.sc;
  }

  // ---------------------------------------------------------------- round trip

  predicate ControlFits(c: Control) {
    && c.fnc < 16 && c.prm < 2 && c.fcv < 2 && c.fcb < 2 && c.dfc < 2 && c.acd < 2 && c.dir < 2
    && (if c.prm == 1 then c.dfc == c.acd == 0 else c.fcv == c.fcb == 0)
  }

  /** Fields that fit their places on the wire, and nothing set that the type does not carry. */
  predicate Fits(f: Frame, a: AdrLen) {
    && Buildable(f, a)
    && match f.typ
       case VarLen => ControlFits(f.ctrl) && f.adr < Pow256(a) && f.data != [] && f.sc == 0
       case FixLen => ControlFits(f.ctrl) && f.adr < Pow256(a) && f.data == [] && f.sc == 0
       case SingleChar => f.ctrl == NO_CONTROL && f.adr == 0 && |f.data| == 1 && (f.sc == SC_ACK || f.sc == SC_NACK)
  }

  /** A single character is built from one byte of data, and parses without any. */
  function Received(f: Frame): Frame {
    if f.typ == SingleChar then f.(data := []) else f
  }

  lemma Or4Bits(m: nat, p: nat)
    requires m < 4 && p < 2
    ensures Or(p * 4, m) == p * 4 + m
  {
    if m > 0 && p == 1 {
      assert Or(2, m / 2) == 2 + m / 2;
    }
  }

  lemma ModeSum(fnc: nat, prm: nat, mode: nat)
    requires fnc < 16 && prm < 2 && mode < 4
    ensures Or(fnc + prm * 64, mode * 16) == fnc + mode * 16 + prm * 64
  {
    assert prm * 64 == prm * 4 * 16;
    OrAbove16(fnc, prm * 4, mode);
    Or4Bits(mode, prm);
  }

  lemma ControlSum(fnc: nat, prm: nat, x: nat, y: nat, dir: nat)
    requires fnc < 16 && prm < 2 && x < 2 && y < 2 && dir < 2
    ensures Pack(fnc, prm, x, y, dir) == fnc + x * 16 + y * 32 + prm * 64 + dir * 128
  {
    var mode := Or(x * 16, y * 32);
    ModeBits(x, y);
    Or64(fnc, prm);
    ModeSum(fnc, prm, x + y * 2);
    assert Or(Or(fnc, prm * 64), mode) == fnc + (x + y * 2) * 16 + prm * 64;
    Or128(fnc + (x + y * 2) * 16 + prm * 64, dir);
  }

  lemma ModeBits(x: nat, y: nat)
    requires x < 2 && y < 2
    ensures Or(x * 16, y * 32) == (x + y * 2) * 16
  {
    Or32(x * 16, y);
  }

  lemma ControlBits(fnc: nat, prm: nat, x: nat, y: nat, dir: nat)
    requires fnc < 16 && prm < 2 && x < 2 && y < 2 && dir < 2
    ensures var v := fnc + x * 16 + y * 32 + prm * 64 + dir * 128;
            v < 256 && v % 16 == fnc && v / 16 % 2 == x && v / 32 % 2 == y && v / 64 % 2 == prm && v / 128 == dir
  {
  }

  lemma BitsParse(c: Control, v: byte)
    requires ControlFits(c)
    requires v % 16 == c.fnc && v / 16 % 2 == Bit4(c) && v / 32 % 2 == Bit5(c) && v / 64 % 2 == c.prm && v / 128 == c.dir
    ensures ParseControl(v) == c
  {
  }

  lemma PackBits(fnc: nat, prm: nat, x: nat, y: nat, dir: nat, v: nat)
    requires fnc < 16 && prm < 2 && x < 2 && y < 2 && dir < 2 && v == Pack(fnc, prm, x, y, dir)
    ensures v < 256 && v % 16 == fnc && v / 16 % 2 == x && v / 32 % 2 == y && v / 64 % 2 == prm && v / 128 == dir
  {
    ControlSum(fnc, prm, x, y, dir);
    ControlBits(fnc, prm, x, y, dir);
  }

  lemma ControlBack(c: Control, v: nat)
    requires ControlFits(c) && v == Pack(c.fnc, c.prm, Bit4(c), Bit5(c), c.dir)
    ensures v < 256 && ParseControl(v) == c
  {
    PackBits(c.fnc, c.prm, Bit4(c), Bit5(c), c.dir, v);
    BitsParse(c, v);
  }

  lemma ControlRoundTrip(c: Control)
    requires ControlFits(c)
    ensures ParseControl(ControlByte(c)) == c
  {
    ControlBack(c, Pack(c.fnc, c.prm, Bit4(c), Bit5(c), c.dir));
  }

  /** The verdict on user data `u` with checksum and stop byte behind them. */
  function Judge(t: Type, u: seq<byte>, fcs: byte, stop: byte, e: nat, a: AdrLen): Parsed
    requires |u| >= 1 + a
  {
    if Fcs(u) != fcs then Done(FcsIncorrect, e, None)
    else if stop != STOP then Done(Incorrect, e + 1, None)
    else Done(Success, e + 2, Some(Fields(t, u, 0, |u|, a)))
  }

  /** With the address lengths of the standard nothing is missing. */
  lemma StandardFinish(t: Type, b: seq<byte>, s: nat, e: nat, a: AdrLen)
    requires s + 1 + a <= e <= s + 255 && e + 2 <= |b|
    ensures Finish(t, b, s, e, a)
              == if Fcs(b[s..e]) != b[e] then Done(FcsIncorrect, e, None)
                 else if b[e + 1] != STOP then Done(Incorrect, e + 1, None)
                 else Done(Success, e + 2, Some(Fields(t, b, s, e, a)))
  {
  }

  lemma StandardVar(b: seq<byte>, at: nat, n: byte, a: AdrLen)
    requires n >= 1 + a && at + 6 + n as int <= |b| && b[at + 1] == n
    ensures ParseVar(b, at, a)
              == if b[at + 2] != n then Done(LenInvalid, at + 2, None)
                 else if b[at + 3] != START_VAR then Done(Incorrect, at + 3, None)
                 else Finish(VarLen, b, at + 4, at + 4 + n, a)
  {
  }

  lemma VarStart(b: seq<byte>, at: nat, a: AdrLen)
    requires at < |b| && b[at] == START_VAR
    ensures ParseFt12(b, at, a) == ParseVar(b, at, a)
  {
  }

  lemma StandardFix(b: seq<byte>, at: nat, a: AdrLen)
    requires at + 4 + a <= |b| && b[at] == START_FIX
    ensures ParseFt12(b, at, a) == Finish(FixLen, b, at + 1, at + 2 + a, a)
  {
  }

  lemma StandardBuild(f: Frame, a: AdrLen, u: seq<byte>)
    requires Buildable(f, a) && f.typ == VarLen && f.data != [] && u == UserData(f, a)
    ensures Build(f, a) == Some([START_VAR, |u|, |u|, START_VAR] + u + [Fcs(u), STOP])
  {
  }

  /** The same user data in another place. */
  lemma WindowFields(t: Type, b: seq<byte>, s: nat, e: nat, u: seq<byte>, a: AdrLen)
    requires |u| >= 1 + a && e == s + |u| <= |b| && b[s..e] == u
    ensures Fields(t, b, s, e, a) == Fields(t, u, 0, |u|, a)
  {
    assert b[s] == b[s..e][0];
    PartAt(b, s, u, 1, 1 + a);
    PartAt(b, s, u, 1 + a, |u|);
  }

  lemma PartAt(b: seq<byte>, s: nat, x: seq<byte>, i: nat, j: nat)
    requires i <= j <= |x| && s + |x| <= |b| && b[s..s + |x|] == x
    ensures b[s + i..s + j] == x[i..j]
  {
    assert forall k | i <= k < j :: b[s + k] == x[k];
  }

  /** Bytes `u`, checksum and stop byte standing at `s` are judged alone. */
  lemma FinishWindow(t: Type, b: seq<byte>, s: nat, u: seq<byte>, fcs: byte, stop: byte, a: AdrLen)
    requires 1 + a <= |u| <= 255 && s + |u| + 2 <= |b| && b[s..s + |u| + 2] == u + [fcs, stop]
    ensures Finish(t, b, s, s + |u|, a) == Judge(t, u, fcs, stop, s + |u|, a)
  {
    var e := s + |u|;
    var x := u + [fcs, stop];
    assert x[|u|] == fcs && x[|u| + 1] == stop && b[s..e + 2][|u|] == b[e] && b[s..e + 2][|u| + 1] == b[e + 1];
    PartAt(b, s, x, 0, |u|);
    assert x[0..|u|] == u;
    WindowFields(t, b, s, e, u, a);
    StandardFinish(t, b, s, e, a);
  }

  lemma UserDataFields(f: Frame, a: AdrLen)
    requires Fits(f, a) && f.typ != SingleChar
    ensures var u := UserData(f, a); Fields(f.typ, u, 0, |u|, a) == f
  {
    var u := UserData(f, a);
    ControlRoundTrip(f.ctrl);
    FromToLe(f.adr, a);
    assert u[1..1 + a] == ToLe(f.adr, a) && u[1 + a..] == f.data;
  }

  /** Bytes before a frame that no frame starts with. */
  predicate NoStart(b: seq<byte>) {
    forall i | 0 <= i < |b| :: !Starts(b[i])
  }

  lemma {:induction false} ParseSkips(b: seq<byte>, off: nat, at: nat, a: AdrLen)
    requires off <= at < |b| && NoStart(b[off..at]) && Starts(b[at])
    ensures Parse(b, off, a) == ParseFt12(b, at, a)
    decreases at - off
  {
    if off < at {
      assert b[off] == b[off..at][0];
      assert b[off + 1..at] == b[off..at][1..];
      ParseSkips(b, off + 1, at, a);
    }
  }

  /** Where the parts of a variable frame stand. */
  predicate VarAt(b: seq<byte>, at: nat, n: byte, m: byte, second: byte, u: seq<byte>, fcs: byte, stop: byte) {
    at + 6 + |u| <= |b| && b[at..at + 6 + |u|] == [START_VAR, n, m, second] + u + [fcs, stop]
  }

  lemma VarBytes(b: seq<byte>, at: nat, u: seq<byte>, n: byte, m: byte, second: byte, fcs: byte, stop: byte)
    requires VarAt(b, at, n, m, second, u, fcs, stop)
    ensures b[at] == START_VAR && b[at + 1] == n && b[at + 2] == m && b[at + 3] == second
    ensures b[at + 4..at + 6 + |u|] == u + [fcs, stop]
  {
    var x := [START_VAR, n, m, second] + u + [fcs, stop];
    var y := b[at..at + 6 + |u|];
    assert y == x && y[0] == b[at] && y[1] == b[at + 1] && y[2] == b[at + 2] && y[3] == b[at + 3];
    assert b[at + 4..at + 6 + |u|] == y[4..] && x[4..] == u + [fcs, stop];
  }

  lemma VarWindow(b: seq<byte>, at: nat, u: seq<byte>, n: byte, m: byte, second: byte, fcs: byte, stop: byte, a: AdrLen)
    requires |u| >= 1 + a && n == |u| && VarAt(b, at, n, m, second, u, fcs, stop)
    ensures b[at] == START_VAR
    ensures ParseFt12(b, at, a)
              == if n != m then Done(LenInvalid, at + 2, None)
                 else if second != START_VAR then Done(Incorrect, at + 3, None)
                 else Judge(VarLen, u, fcs, stop, at + 4 + |u|, a)
  {
    VarBytes(b, at, u, n, m, second, fcs, stop);
    VarStart(b, at, a);
    VarJudged(b, at, u, n, fcs, stop, a);
  }

  lemma VarJudged(b: seq<byte>, at: nat, u: seq<byte>, n: byte, fcs: byte, stop: byte, a: AdrLen)
    requires |u| >= 1 + a && n == |u| && at + 6 + |u| <= |b| && b[at + 1] == n && b[at + 4..at + 6 + |u|] == u + [fcs, stop]
    ensures ParseVar(b, at, a)
              == if b[at + 2] != n then Done(LenInvalid, at + 2, None)
                 else if b[at + 3] != START_VAR then Done(Incorrect, at + 3, None)
                 else Judge(VarLen, u, fcs, stop, at + 4 + |u|, a)
  {
    StandardVar(b, at, n, a);
    FinishWindow(VarLen, b, at + 4, u, fcs, stop, a);
  }

  lemma FixWindow(b: seq<byte>, at: nat, u: seq<byte>, fcs: byte, stop: byte, a: AdrLen)
    requires |u| == 1 + a && at + 3 + |u| <= |b| && b[at..at + 3 + |u|] == [START_FIX] + u + [fcs, stop]
    ensures b[at] == START_FIX && ParseFt12(b, at, a) == Judge(FixLen, u, fcs, stop, at + 1 + |u|, a)
  {
    var x := [START_FIX] + u + [fcs, stop];
    assert forall i | 0 <= i < |x| :: b[at + i] == x[i];
    assert b[at + 1..at + 3 + |u|] == u + [fcs, stop];
    StandardFix(b, at, a);
    FinishWindow(FixLen, b, at + 1, u, fcs, stop, a);
  }

  /** A built frame, behind start-free garbage and in front of anything, parses back to its fields. */
  lemma ParseUndoesBuild(b: seq<byte>, off: nat, at: nat, f: Frame, a: AdrLen)
    requires Fits(f, a) && off <= at <= |b| && NoStart(b[off..at])
    requires var w := Build(f, a).value; at + |w| <= |b| && b[at..at + |w|] == w
    ensures Parse(b, off, a) == Done(Success, at + |Build(f, a).value|, Some(Received(f)))
  {
    var w := Build(f, a).value;
    var u := UserData(f, a);
    assert b[at] == w[0];
    ParseSkips(b, off, at, a);
    match f.typ
    case VarLen =>
      VarBack(b, at, f, a, u);
    case FixLen => FixBack(b, at, f, a, u);
    case SingleChar =>
  }

  lemma FixBack(b: seq<byte>, at: nat, f: Frame, a: AdrLen, u: seq<byte>)
    requires Fits(f, a) && f.typ == FixLen && u == UserData(f, a)
    requires var w := Build(f, a).value; at + |w| <= |b| && b[at..at + |w|] == w
    ensures |Build(f, a).value| == 3 + |u| && ParseFt12(b, at, a) == Done(Success, at + 3 + |u|, Some(f))
  {
    FixParts(f, a, u);
    FixWindow(b, at, u, Fcs(u), STOP, a);
    UserDataFields(f, a);
  }

  lemma VarBack(b: seq<byte>, at: nat, f: Frame, a: AdrLen, u: seq<byte>)
    requires Fits(f, a) && f.typ == VarLen && u == UserData(f, a)
    requires var w := Build(f, a).value; at + |w| <= |b| && b[at..at + |w|] == w
    ensures |Build(f, a).value| == 6 + |u| && ParseFt12(b, at, a) == Done(Success, at + 6 + |u|, Some(f))
  {
    StandardBuild(f, a, u);
    VarWindow(b, at, u, |u|, |u|, START_VAR, Fcs(u), STOP, a);
    UserDataFields(f, a);
  }

  // ---------------------------------------------------------------- the bytes spelt out

  /** The control field: bits 4 and 5 are FCV and FCB from a primary station, DFC and ACD from a secondary one. */
  predicate SpellsControl(v: byte, c: Control) {
    && c.fnc < 16 && c.prm < 2 && c.fcv < 2 && c.fcb < 2 && c.dfc < 2 && c.acd < 2 && c.dir < 2
    && (if c.prm == 1 then c.dfc == c.acd == 0 else c.fcv == c.fcb == 0)
    && v == c.fnc + 64 * c.prm + 128 * c.dir + (if c.prm == 1 then 16 * c.fcv + 32 * c.fcb else 16 * c.dfc + 32 * c.acd)
  }

  /** Control field, address and data. */
  predicate SpellsUser(u: seq<byte>, f: Frame, a: AdrLen) {
    && |u| == 1 + a + |f.data| && SpellsControl(u[0], f.ctrl) && u[1 + a..] == f.data
    && f.adr == if a == 0 then 0 else if a == 1 then u[1] as int else u[1] as int + 256 * u[2] as int
  }

  /** A frame byte by byte: variable and fixed length with the sum of the user data and the stop byte, or one character. */
  predicate Spells(w: seq<byte>, f: Frame, a: AdrLen) {
    match f.typ
    case VarLen =>
      var n := 1 + a + |f.data|;
      && f.sc == 0 && n <= 255 && |w| == n + 6 && w[0] == 0x68 && w[1] == w[2] == n && w[3] == 0x68
      && SpellsUser(w[4..4 + n], f, a) && w[4 + n] == Sum(w[4..4 + n]) % 256 && w[5 + n] == 0x16
    case FixLen =>
      && f.sc == 0 && f.data == [] && |w| == a + 4 && w[0] == 0x10
      && SpellsUser(w[1..2 + a], f, a) && w[2 + a] == Sum(w[1..2 + a]) % 256 && w[3 + a] == 0x16
    case SingleChar =>
      w == [f.sc] && (f.sc == 0xE5 || f.sc == 0xA2) && f.ctrl == NO_CONTROL && f.adr == 0 && f.data == []
  }

  lemma ControlRead(v: byte, c: Control)
    ensures ParseControl(v) == c <==> SpellsControl(v, c)
  {
    BitsSum(v);
    if SpellsControl(v, c) {
      ControlBits(c.fnc, c.prm, Bit4(c), Bit5(c), c.dir);
      BitsParse(c, v);
    }
  }

  lemma BitsSum(v: byte)
    ensures v == v % 16 + 64 * (v / 64 % 2) + 128 * (v / 128) + 16 * (v / 16 % 2) + 32 * (v / 32 % 2)
    ensures v / 128 < 2
  {
  }

  lemma AddressRead(u: seq<byte>, a: AdrLen)
    requires |u| >= 1 + a
    ensures FromLe(u[1..1 + a]) == if a == 0 then 0 else if a == 1 then u[1] as int else u[1] as int + 256 * u[2] as int
  {
    if a == 2 {
      assert [u[2]][1..] == [] && FromLe([u[2]]) == u[2];
      assert u[1..3][1..] == [u[2]];
    } else if a == 1 {
      assert u[1..2][1..] == [];
    }
  }

  lemma FieldsIff(t: Type, u: seq<byte>, a: AdrLen, f: Frame)
    requires |u| >= 1 + a
    ensures Fields(t, u, 0, |u|, a) == f <==> f.typ == t && f.sc == 0 && SpellsUser(u, f, a)
  {
    ControlRead(u[0], f.ctrl);
    AddressRead(u, a);
    assert u[1 + a..|u|] == u[1 + a..];
  }

  /** Accepted user data are what they spell. */
  lemma JudgeIff(t: Type, u: seq<byte>, fcs: byte, stop: byte, e: nat, a: AdrLen, next: nat, f: Frame)
    requires |u| >= 1 + a
    ensures Judge(t, u, fcs, stop, e, a) == Done(Success, next, Some(f)) <==>
              f.typ == t && f.sc == 0 && SpellsUser(u, f, a) && fcs == Sum(u) % 256 && stop == 0x16 && next == e + 2
  {
    FieldsIff(t, u, a, f);
  }

  /** The offset of the first byte that may start a frame. */
  lemma {:induction false} ParseFirst(b: seq<byte>, off: nat, a: AdrLen) returns (s: nat)
    requires off <= |b| && Parse(b, off, a).Done? && Parse(b, off, a).res == Success
    ensures off <= s < |b| && NoStart(b[off..s]) && Starts(b[s]) && Parse(b, off, a) == ParseFt12(b, s, a)
    decreases |b| - off
  {
    if Starts(b[off]) {
      s := off;
    } else {
      s := ParseFirst(b, off + 1, a);
      assert b[off..s] == [b[off]] + b[off + 1..s];
    }
  }

  /** Bytes none of which may start a frame. */
  predicate Skippable(g: seq<byte>) {
    forall i | 0 <= i < |g| :: g[i] != 0x68 && g[i] != 0x10 && g[i] != 0xE5 && g[i] != 0xA2
  }

  predicate SpeltAt(b: seq<byte>, off: nat, s: nat, next: nat, f: Frame, a: AdrLen) {
    off <= s < next <= |b| && Skippable(b[off..s]) && Spells(b[s..next], f, a)
  }

  lemma VarSpelt(b: seq<byte>, s: nat, next: nat, f: Frame, a: AdrLen)
    requires s < next <= |b| && Spells(b[s..next], f, a) && f.typ == VarLen
    ensures ParseFt12(b, s, a) == Done(Success, next, Some(f))
  {
    var w := b[s..next];
    var u := w[4..5 + a + |f.data|];
    assert w == [0x68, |u|, |u|, 0x68] + u + [w[|w| - 2], w[|w| - 1]];
    VarWindow(b, s, u, |u|, |u|, 0x68, w[|w| - 2], w[|w| - 1], a);
    JudgeIff(VarLen, u, w[|w| - 2], w[|w| - 1], s + 4 + |u|, a, next, f);
  }

  lemma FixSpelt(b: seq<byte>, s: nat, next: nat, f: Frame, a: AdrLen)
    requires s < next <= |b| && Spells(b[s..next], f, a) && f.typ == FixLen
    ensures ParseFt12(b, s, a) == Done(Success, next, Some(f))
  {
    var w := b[s..next];
    var u := w[1..2 + a];
    assert w == [0x10] + u + [w[2 + a], w[3 + a]];
    FixWindow(b, s, u, w[2 + a], w[3 + a], a);
    JudgeIff(FixLen, u, w[2 + a], w[3 + a], s + 1 + |u|, a, next, f);
  }

  lemma SpeltParses(b: seq<byte>, off: nat, s: nat, next: nat, f: Frame, a: AdrLen)
    requires SpeltAt(b, off, s, next, f, a)
    ensures Parse(b, off, a) == Done(Success, next, Some(f))
  {
    assert b[s..next][0] == b[s];
    ParseSkips(b, off, s, a);
    match f.typ
    case VarLen => VarSpelt(b, s, next, f, a);
    case FixLen => FixSpelt(b, s, next, f, a);
    case SingleChar => assert |b[s..next]| == next - s;
  }

  lemma VarParsed(b: seq<byte>, s: nat, next: nat, f: Frame, a: AdrLen)
    requires s < |b| && b[s] == 0x68 && ParseFt12(b, s, a) == Done(Success, next, Some(f))
    ensures s < next <= |b| && Spells(b[s..next], f, a)
  {
    var n := b[s + 1];
    var u, x := b[s + 4..s + 4 + n], b[s..s + 6 + n];
    assert x == [0x68, n, n, 0x68] + u + [b[s + 4 + n], b[s + 5 + n]];
    VarWindow(b, s, u, n, n, 0x68, b[s + 4 + n], b[s + 5 + n], a);
    JudgeIff(VarLen, u, b[s + 4 + n], b[s + 5 + n], s + 4 + n, a, next, f);
    assert x[4..4 + n] == u;
  }

  lemma FixParsed(b: seq<byte>, s: nat, next: nat, f: Frame, a: AdrLen)
    requires s < |b| && b[s] == 0x10 && ParseFt12(b, s, a) == Done(Success, next, Some(f))
    ensures s < next <= |b| && Spells(b[s..next], f, a)
  {
    var u, x := b[s + 1..s + 2 + a], b[s..s + 4 + a];
    assert x == [0x10] + u + [b[s + 2 + a], b[s + 3 + a]];
    FixWindow(b, s, u, b[s + 2 + a], b[s + 3 + a], a);
    JudgeIff(FixLen, u, b[s + 2 + a], b[s + 3 + a], s + 1 + |u|, a, next, f);
    assert x[1..2 + a] == u;
  }

  lemma ParsedSpells(b: seq<byte>, off: nat, next: nat, f: Frame, a: AdrLen) returns (s: nat)
    requires off <= |b| && Parse(b, off, a) == Done(Success, next, Some(f))
    ensures SpeltAt(b, off, s, next, f, a)
  {
    s := ParseFirst(b, off, a);
    if b[s] == 0x68 {
      VarParsed(b, s, next, f, a);
    } else if b[s] == 0x10 {
      FixParsed(b, s, next, f, a);
    } else {
      assert b[s..s + 1] == [b[s]];
    }
  }

  /**
   The parser accepts exactly the bytes that spell a frame behind bytes none of which may start one, and
   delivers this frame and the offset behind it.
   */
  lemma ParsedIff(b: seq<byte>, off: nat, next: nat, f: Frame, a: AdrLen)
    requires off <= |b|
    ensures Parse(b, off, a) == Done(Success, next, Some(f)) <==> exists s :: SpeltAt(b, off, s, next, f, a)
  {
    if Parse(b, off, a) == Done(Success, next, Some(f)) {
      var s := ParsedSpells(b, off, next, f, a);
    }
    if s :| SpeltAt(b, off, s, next, f, a) {
      SpeltParses(b, off, s, next, f, a);
    }
  }

  /** What is built spells the frame. */
  lemma BuildSpells(f: Frame, a: AdrLen)
    requires Fits(f, a)
    ensures Build(f, a).Some? && Spells(Build(f, a).value, Received(f), a)
  {
    var w := Build(f, a).value;
    assert w[0..] == w && w[..|w|] == w;
    ParseUndoesBuild(w, 0, 0, f, a);
    var s := ParsedSpells(w, 0, |w|, Received(f), a);
    OnlyAtStart(w, s, f, a);
  }

  /** A built frame starts at its start. */
  lemma OnlyAtStart(w: seq<byte>, s: nat, f: Frame, a: AdrLen)
    requires Fits(f, a) && w == Build(f, a).value && s <= |w|
    ensures Skippable(w[0..s]) <==> s == 0
  {
    if s > 0 {
      assert w[0..s][0] == w[0];
    }
  }

  /**
   Without a byte that may start a frame the last one decides: the first bytes of FT2 and FT3 frames are known
   but not supported; with no byte at all the response code is never set.
   */
  lemma {:induction false} NoneStarts(b: seq<byte>, off: nat, a: byte)
    requires off <= |b| && forall i | off <= i < |b| :: b[i] != 0x68 && b[i] != 0x10 && b[i] != 0xE5 && b[i] != 0xA2
    ensures Parse(b, off, a)
              == if off == |b| then Undefined
                 else var last := b[|b| - 1];
                      Done(if last == 0x27 || last == 0x14 || last == 0x05 || last == 0x64 || last == 0x12 || last == 0x30
                           then Unsupported else Unknown, |b|, None)
    decreases |b| - off
  {
    if off + 1 < |b| {
      NoneStarts(b, off + 1, a);
    }
  }

  /** The same of the function behind the scan, which is not called then. */
  lemma NoStartByte(b: seq<byte>, off: nat, a: byte)
    requires off <= |b|
    ensures off == |b| ==> ParseFt12(b, off, a) == Done(Incorrect, off, None)
    ensures off < |b| && b[off] != 0x68 && b[off] != 0x10 && b[off] != 0xE5 && b[off] != 0xA2 ==>
              ParseFt12(b, off, a) == Done(Unknown, off + 1, None)
  {
  }

  /** A fixed frame carries no data, whatever the frame has. */
  lemma FixedWithoutData(f: Frame, a: byte)
    requires f.typ == FixLen && Buildable(f, a)
    ensures Build(f, a) == Build(f.(data := []), a)
  {
  }

  /**
   Of an address of more than 2 bytes nothing is read: the frame ends that much earlier, and its checksum is
   taken from that much before the control field - from outside the buffer, if there is less.
   */
  lemma LongAddress(b: seq<byte>, s: nat, n: nat, a: byte)
    requires a > 2 && s < |b|
    requires if b[s] == 0x10 then n == 1 + a as int && |b| >= s + 3 + n
             else b[s] == 0x68 && |b| > s + 3 && b[s + 1] == b[s + 2] == n && b[s + 3] == 0x68 && n > a as int && |b| >= s + 6 + n
    ensures var u := if b[s] == 0x10 then s + 1 else s + 4;
            var e := u + n - a;
            ParseFt12(b, s, a)
              == if u < a as int || n > 255 then Undefined
                 else if Sum(b[u - a..e]) % 256 != b[e] then Done(FcsIncorrect, e, None)
                 else if b[e + 1] != 0x16 then Done(Incorrect, e + 1, None)
                 else Done(Success, e + 2, Some(Frame(if b[s] == 0x10 then FixLen else VarLen, ParseControl(b[u]), 0, 0, b[u + 1..e])))
  {
  }

  /** The head of a variable frame, byte by byte: where the source stops, with which code, and where it runs off its buffer. */
  lemma VarHead(b: seq<byte>, s: nat, a: byte)
    requires s < |b| && b[s] == 0x68
    ensures |b| <= s + 2 ==> ParseFt12(b, s, a) == Undefined
    ensures |b| > s + 2 && b[s + 1] != b[s + 2] ==> ParseFt12(b, s, a) == Done(LenInvalid, s + 2, None)
    ensures |b| == s + 3 && b[s + 1] == b[s + 2] ==> ParseFt12(b, s, a) == Undefined
    ensures |b| > s + 3 && b[s + 1] == b[s + 2] && b[s + 3] != 0x68 ==> ParseFt12(b, s, a) == Done(Incorrect, s + 3, None)
    ensures |b| > s + 3 && b[s + 1] == b[s + 2] && b[s + 3] == 0x68 && |b| < s + 6 + b[s + 1] ==>
              ParseFt12(b, s, a) == Done(LenInvalid, |b|, None)
    ensures |b| > s + 3 && b[s + 1] == b[s + 2] && b[s + 3] == 0x68 && |b| >= s + 6 + b[s + 1] && b[s + 1] as int <= a ==>
              ParseFt12(b, s, a) == Undefined
  {
  }

  /**
   A frame that is cut off: of a variable frame the source reads behind its buffer if fewer than four bytes are
   there and answers LenInvalid otherwise; a fixed frame is always answered with LenInvalid.
   */
  lemma PrefixTaken(g: seq<byte>, f: Frame, a: AdrLen, j: nat)
    requires Fits(f, a) && f.typ != SingleChar && NoStart(g) && 1 <= j < |Build(f, a).value|
    ensures Parse(g + Build(f, a).value[..j], 0, a)
              == if f.typ == FixLen then Done(LenInvalid, |g| + 1, None)
                 else if j < 4 then Undefined else Done(LenInvalid, |g| + j, None)
  {
    var w := Build(f, a).value;
    var b := g + w[..j];
    assert b[0..|g|] == g && b[|g|] == w[0];
    assert forall i | 0 <= i < j :: b[|g| + i] == w[i];
    ParseSkips(b, 0, |g|, a);
    if f.typ == VarLen {
      StandardBuild(f, a, UserData(f, a));
      VarHead(b, |g|, a);
    }
  }

  // ---------------------------------------------------------------- corruption

  lemma VarParts(f: Frame, a: AdrLen, k: nat, v: byte)
    requires Fits(f, a) && f.typ == VarLen && 1 <= k < |Build(f, a).value|
    ensures var w := Build(f, a).value;
            var u := UserData(f, a);
            var x := w[k := v];
            && |w| == 6 + |u|
            && x == [START_VAR, x[1], x[2], x[3]] + (if 4 <= k < 4 + |u| then u[k - 4 := v] else u) + [x[4 + |u|], x[5 + |u|]]
            && w[1] == w[2] == |u| && w[3] == START_VAR && w[4 + |u|] == Fcs(u) && w[5 + |u|] == STOP
            && forall i | 0 <= i < |u| :: w[4 + i] == u[i]
  {
    StandardBuild(f, a, UserData(f, a));
  }

  /** Changing any byte but the first of a variable frame makes the parser refuse it. */
  lemma VarCorruptionDetected(b: seq<byte>, off: nat, at: nat, f: Frame, a: AdrLen, k: nat, v: byte)
    requires Fits(f, a) && f.typ == VarLen && off <= at <= |b| && NoStart(b[off..at])
    requires var w := Build(f, a).value;
             1 <= k < |w| && v != w[k] && at + |w| <= |b| && b[at..at + |w|] == w[k := v]
    ensures Refusal(Parse(b, off, a), if k <= 2 then LenInvalid
                                      else if k == 3 || k == |Build(f, a).value| - 1 then Incorrect else FcsIncorrect)
  {
    var x := Build(f, a).value[k := v];
    assert b[at] == x[0];
    ParseSkips(b, off, at, a);
    VarCorrupted(b, at, f, a, k, v, x);
  }

  lemma VarCorrupted(b: seq<byte>, at: nat, f: Frame, a: AdrLen, k: nat, v: byte, x: seq<byte>)
    requires Fits(f, a) && f.typ == VarLen
    requires var w := Build(f, a).value; 1 <= k < |w| && v != w[k] && x == w[k := v]
    requires at + |x| <= |b| && b[at..at + |x|] == x
    ensures Refusal(ParseFt12(b, at, a), if k <= 2 then LenInvalid else if k == 3 || k == |x| - 1 then Incorrect else FcsIncorrect)
  {
    VarParts(f, a, k, v);
    VarChanged(b, at, UserData(f, a), Build(f, a).value, x, a, k, v);
  }

  lemma VarChanged(b: seq<byte>, at: nat, u: seq<byte>, w: seq<byte>, x: seq<byte>, a: AdrLen, k: nat, v: byte)
    requires 1 + a <= |u| <= 255 && |w| == 6 + |u| && 1 <= k < |w| && x == w[k := v] && v != w[k]
    requires at + |x| <= |b| && b[at..at + |x|] == x
    requires x == [START_VAR, x[1], x[2], x[3]] + (if 4 <= k < 4 + |u| then u[k - 4 := v] else u) + [x[4 + |u|], x[5 + |u|]]
    requires w[1] == w[2] == |u| && w[3] == START_VAR && w[4 + |u|] == Fcs(u) && w[5 + |u|] == STOP
    requires forall i | 0 <= i < |u| :: w[4 + i] == u[i]
    ensures Refusal(ParseFt12(b, at, a), if k <= 2 then LenInvalid else if k == 3 || k == |x| - 1 then Incorrect else FcsIncorrect)
  {
    var u' := if 4 <= k < 4 + |u| then u[k - 4 := v] else u;
    if 4 <= k < 4 + |u| {
      assert w[4 + (k - 4)] == u[k - 4];
      FcsUpdate(u, k - 4, v);
    }
    VarRefused(b, at, u, u', x, a, k);
  }

  lemma VarRefused(b: seq<byte>, at: nat, u: seq<byte>, u': seq<byte>, x: seq<byte>, a: AdrLen, k: nat)
    requires |u| == |u'| >= 1 + a && |u| <= 255 && |x| == 6 + |u| && at + |x| <= |b| && b[at..at + |x|] == x
    requires x == [START_VAR, x[1], x[2], x[3]] + u' + [x[4 + |u|], x[5 + |u|]]
    requires 1 <= k < |x|
    requires k != 1 ==> x[1] == |u|
    requires k == 1 || k == 2 ==> x[1] != x[2]
    requires k > 2 ==> x[2] == |u|
    requires k == 3 <==> x[3] != START_VAR
    requires k > 3 && k < |x| - 1 ==> Fcs(u') != x[4 + |u|]
    requires k == |x| - 1 ==> Fcs(u') == x[4 + |u|] && x[5 + |u|] != STOP
    ensures Refusal(ParseFt12(b, at, a), if k <= 2 then LenInvalid else if k == 3 || k == |x| - 1 then Incorrect else FcsIncorrect)
  {
    if k <= 2 {
      assert b[at] == x[0] && b[at + 1] == x[1] && b[at + 2] == x[2];
    } else {
      VarWindow(b, at, u', x[1], x[2], x[3], x[4 + |u|], x[5 + |u|], a);
    }
  }

  predicate Refusal(p: Parsed, res: Res) {
    p.Done? && p.frame == None && p.res == res
  }

  /** Changing any byte but the first of a fixed frame makes the parser refuse it. */
  lemma FixCorruptionDetected(b: seq<byte>, off: nat, at: nat, f: Frame, a: AdrLen, k: nat, v: byte)
    requires Fits(f, a) && f.typ == FixLen && off <= at <= |b| && NoStart(b[off..at])
    requires var w := Build(f, a).value;
             1 <= k < |w| && v != w[k] && at + |w| <= |b| && b[at..at + |w|] == w[k := v]
    ensures Refusal(Parse(b, off, a), if k == |Build(f, a).value| - 1 then Incorrect else FcsIncorrect)
  {
    var x := Build(f, a).value[k := v];
    FixParts(f, a, UserData(f, a));
    ParseSkips(b, off, at, a) by { assert b[at] == x[0]; }
    FixChanged(b, at, UserData(f, a), Build(f, a).value, x, a, k, v);
  }

  lemma FixParts(f: Frame, a: AdrLen, u: seq<byte>)
    requires Fits(f, a) && f.typ == FixLen && u == UserData(f, a)
    ensures |u| == 1 + a && Build(f, a) == Some([START_FIX] + u + [Fcs(u), STOP])
  {
    assert f.(data := []) == f;
  }

  lemma FixChanged(b: seq<byte>, at: nat, u: seq<byte>, w: seq<byte>, x: seq<byte>, a: AdrLen, k: nat, v: byte)
    requires |u| == 1 + a && w == [START_FIX] + u + [Fcs(u), STOP]
    requires 1 <= k < |w| && v != w[k] && x == w[k := v] && at + |x| <= |b| && b[at..at + |x|] == x
    ensures Refusal(ParseFt12(b, at, a), if k == |w| - 1 then Incorrect else FcsIncorrect)
  {
    var e := 1 + |u|;
    var u' := if k < e then u[k - 1 := v] else u;
    if k < e {
      FcsUpdate(u, k - 1, v);
    }
    assert x == [START_FIX] + u' + [x[e], x[e + 1]];
    FixWindow(b, at, u', x[e], x[e + 1], a);
  }

  /** `w` with byte `k` changed, behind `g` and in front of `rest`. */
  function Changed(g: seq<byte>, w: seq<byte>, k: nat, v: byte, rest: seq<byte>): seq<byte>
    requires k < |w|
  {
    g + w[k := v] + rest
  }

  predicate Refused(b: seq<byte>, a: AdrLen) {
    var p := Parse(b, 0, a);
    p.Done? && p.frame == None
  }

  /** With its first byte changed to 0xE5 any frame is a positive acknowledgement. */
  lemma FirstByteUnprotected(g: seq<byte>, w: seq<byte>, rest: seq<byte>, a: AdrLen)
    requires w != [] && NoStart(g)
    ensures Parse(Changed(g, w, 0, SC_ACK, rest), 0, a)
              == Done(Success, |g| + 1, Some(Frame(SingleChar, NO_CONTROL, SC_ACK, 0, [])))
  {
    var b := Changed(g, w, 0, SC_ACK, rest);
    assert b[0..|g|] == g && b[|g|] == SC_ACK;
    ParseSkips(b, 0, |g|, a);
  }

  /** Every change of byte `k` of a variable or fixed frame is refused if and only if it is not the first byte. */
  lemma ChangesRefusedIff(g: seq<byte>, f: Frame, a: AdrLen, k: nat, rest: seq<byte>)
    requires Fits(f, a) && f.typ != SingleChar && NoStart(g) && k < |Build(f, a).value|
    ensures (forall v | v != Build(f, a).value[k] :: Refused(Changed(g, Build(f, a).value, k, v, rest), a)) <==> k >= 1
  {
    var w := Build(f, a).value;
    if k == 0 {
      FirstByteUnprotected(g, w, rest, a);
      assert w[0] != SC_ACK && !Refused(Changed(g, w, 0, SC_ACK, rest), a);
    } else {
      forall v | v != w[k] ensures Refused(Changed(g, w, k, v, rest), a) {
        var b := Changed(g, w, k, v, rest);
        assert b[0..|g|] == g && b[|g|..|g| + |w|] == w[k := v];
        if f.typ == VarLen {
          VarCorruptionDetected(b, 0, |g|, f, a, k, v);
        } else {
          FixCorruptionDetected(b, 0, |g|, f, a, k, v);
        }
      }
    }
  }

  /** A single character frame that was parsed cannot be built again: it has lost the data byte build asks for. */
  lemma ParsedSingleNotBuilt(b: seq<byte>, off: nat, a: AdrLen)
    requires off <= |b| && var p := Parse(b, off, a); p.Done? && p.frame.Some? && p.frame.value.typ == SingleChar
    ensures var f := Parse(b, off, a).frame.value; Buildable(f, a) && Build(f, a) == None
    decreases |b| - off
  {
    if !Starts(b[off]) && off + 1 < |b| {
      ParsedSingleNotBuilt(b, off + 1, a);
    }
  }

}
