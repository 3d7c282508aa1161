/** APCI framing of IEC 60870-5-104 (section 5 of IEC 60870-5-104): unitlinks/src/apdu_frame.c. */
module ApduFrame {
  import opened Prelude
  import opened Bytes
  import opened Scanning

  /** The shortest frame, start byte included. */
  const LEN_MIN := 6

  /** Frame data; the source keeps their length in 16 bits. */
  type Data = d: seq<byte> | |d| < 0x1_0000

  /** A frame: numbered information, supervisory or unnumbered. */
  datatype Frame =
    | I(sendNum: u16, recvNum: u16, data: Data)
    | S(recvNum: u16)
    | U(cmd: byte)

  /** The four control field bytes. */
  function ControlField(f: Frame): (r: seq<byte>)
    ensures |r| == 4
  {
    match f
    case I(sendNum, recvNum, _) => ToLe(sendNum * 2, 2) + ToLe(recvNum * 2, 2)
    case S(recvNum) => ToLe(1, 2) + ToLe(recvNum * 2, 2)
    case U(cmd) => [cmd - cmd % 4 + 3] + ToLe(0, 3)
  }

  function DataOf(f: Frame): Data {
    if f.I? then f.data else []
  }

  /** The bytes of a frame; an information frame without data is refused. */
  function Build(f: Frame): Option<seq<byte>> {
    if f.I? && |f.data| == 0 then None
    else Some([START, (6 + |DataOf(f)| - 2) % 256] + ControlField(f) + DataOf(f))
  }

  /** Response code, offset behind what was read, and the frame. */
  datatype Parsed = Parsed(res: Res, next: nat, frame: Option<Frame>)

  function Le16(b: seq<byte>, off: nat): u16
    requires off + 2 <= |b|
  {
    b[off] as int + 256 * b[off + 1] as int
  }

  /** Reads one frame; numbers lose the lowest bit, and types 0 and 2 both mean I format. */
  function Parse(b: seq<byte>, off: nat): Parsed
    requires off <= |b|
  {
    var s := Scan(b, off);
    if |b| - s + 1 < LEN_MIN then Parsed(LenInvalid, s, None)
    else
      var dataLen := (b[s] as int - 4) % 0x1_0000;
      var c := s + 1;
      match b[c] % 4
      case 1 => Parsed(Success, c + 4, Some(S(Le16(b, c + 2) / 2)))
      case 3 => Parsed(Success, c + 4, Some(U(b[c] - 3)))
      case _ =>
        if dataLen > 0 && |b| - (c + 4) >= dataLen then
          Parsed(Success, c + 4 + dataLen, Some(I(Le16(b, c) / 2, Le16(b, c + 2) / 2, b[c + 4..c + 4 + dataLen])))
        else Parsed(LenInvalid, |b|, None)
  }

  /** Every call makes progress and stays within the buffer, whatever the bytes. */
  lemma ParseAdvances(b: seq<byte>, off: nat)
    requires off < |b|
    ensures off < Parse(b, off).next <= |b|
  {
  }

  /** apdu_frame_buff_parse. */
  method ParseBuffer(buf: array<byte>, off: nat) returns (res: Res, next: nat, frame: Option<Frame>)
    requires off <= buf.Length
    ensures Parsed(res, next, frame) == Parse(buf[..], off)
  {
    assert buf[..buf.Length] == buf[..];
    next := FindStart(buf, buf.Length, off);
    // without a start byte `next` is the end of the buffer, so this test also catches that case
    if buf.Length - next + 1 < LEN_MIN {
      return LenInvalid, next, None;
    }
    var dataLen := (buf[next] as int - 4) % 0x1_0000;
    next := next + 1;
    var kind := buf[next] % 4;
    if kind == 2 {
      kind := 0;
    }
    var first := buf[next] as int + 256 * buf[next + 1] as int;
    var second := buf[next + 2] as int + 256 * buf[next + 3] as int;
    var cmd := buf[next] - kind;
    next := next + 4;
    if kind == 0 {
      if dataLen > 0 && buf.Length - next >= dataLen {
        frame := Some(I(first / 2, second / 2, buf[next..next + dataLen]));
        res, next := Success, next + dataLen;
      } else {
        res, next, frame := LenInvalid, buf.Length, None;
      }
    } else if kind == 1 {
      res, frame := Success, Some(S(second / 2));
    } else {
      res, frame := Success, Some(U(cmd));
    }
  }

  /** apdu_frame_buff_build_ctrl_field. */
  method PutControl(buf: array<byte>, f: Frame)
    requires buf.Length >= 6
    modifies buf
    ensures buf[..] == Splice(old(buf[..]), 2, ControlField(f))
  {
    ghost var s0 := buf[..];
    match f
    case I(sendNum, recvNum, _) =>
      PutLe(buf, 2, sendNum * 2, 2);
      PutLe(buf, 4, recvNum * 2, 2);
      SpliceTwice(s0, 2, ToLe(sendNum * 2, 2), ToLe(recvNum * 2, 2));
    case S(recvNum) =>
      PutLe(buf, 2, 1, 2);
      PutLe(buf, 4, recvNum * 2, 2);
      SpliceTwice(s0, 2, ToLe(1, 2), ToLe(recvNum * 2, 2));
    case U(cmd) =>
      PutByte(buf, 2, cmd - cmd % 4 + 3);
      PutLe(buf, 3, 0, 3);
      SpliceTwice(s0, 2, [cmd - cmd % 4 + 3], ToLe(0, 3));
  }

  /** A buffer whose parts were written one after the other. */
  lemma Filled(s: seq<byte>, n: byte, c: seq<byte>, d: seq<byte>, b: seq<byte>)
    requires |c| == 4 && |s| == 6 + |d| && b == Splice(Splice(s[0 := START][1 := n], 2, c), 6, d)
    ensures b == [START, n] + c + d
  {
  }

  /** apdu_frame_buff_build: the source takes the data length modulo 2^16. */
  method BuildBuffer(f: Frame) returns (res: Res, buf: array<byte>)
    ensures fresh(buf)
    ensures match Build(f)
            case None => res == Incorrect && buf.Length == 0
            case Some(bytes) => res == Success && buf[..] == bytes
  {
    if f.I? && |f.data| == 0 {
      buf := new byte[0];
      return Incorrect, buf;
    }
    var data := DataOf(f);
    buf := new byte[6 + |data|];
    ghost var s0 := buf[..];
    buf[0] := START;
    buf[1] := (buf.Length - 2) % 256;
    PutControl(buf, f);
    PutBytes(buf, 6, data);
    Filled(s0, (6 + |data| - 2) % 256, ControlField(f), data, buf[..]);
    res := Success;
  }

  // ---------------------------------------------------------------- round trip

  /** Numbers and command fit their places, whatever the data. */
  predicate InPlace(f: Frame) {
    match f
    case I(sendNum, recvNum, _) => sendNum < 32768 && recvNum < 32768
    case S(recvNum) => recvNum < 32768
    case U(cmd) => cmd % 4 == 0
  }

  /** Frames whose fields fit their places on the wire. */
  predicate Fits(f: Frame) {
    InPlace(f) && (f.I? ==> 1 <= |f.data| <= 251)
  }

  function Wire(f: Frame): (r: seq<byte>)
    requires Fits(f)
    ensures |r| >= LEN_MIN && r[0] == START
  {
    Build(f).value
  }

  lemma ToLeTwo(v: u16)
    requires v < 32768
    ensures ToLe(v * 2, 2) == [v * 2 % 256, v * 2 / 256]
  {
    assert ToLe(v * 2 / 256, 1) == [v * 2 / 256] + ToLe(v * 2 / 256 / 256, 0);
  }

  /** The bytes of a fitting frame spelt out. */
  predicate Spells(w: seq<byte>, f: Frame) {
    && |w| == 6 + |DataOf(f)| && w[0] == START && w[1] == |DataOf(f)| + 4 && w[6..] == DataOf(f)
    && (f.I? ==> w[2] % 2 == 0 && Le16(w, 2) == f.sendNum * 2)
    && (f.S? ==> w[2] % 4 == 1)
    && (!f.U? ==> Le16(w, 4) == f.recvNum * 2)
    && (f.U? ==> w[2] == f.cmd + 3)
  }

  lemma ControlBytes(f: Frame)
    requires Fits(f)
    ensures var c := ControlField(f);
            && (f.I? ==> c[0] % 2 == 0 && c[0] as int + 256 * c[1] as int == f.sendNum * 2)
            && (f.S? ==> c[0] % 4 == 1)
            && (!f.U? ==> c[2] as int + 256 * c[3] as int == f.recvNum * 2)
            && (f.U? ==> c[0] == f.cmd + 3)
  {
    match f
    case I(sendNum, recvNum, data) =>
      ToLeTwo(sendNum);
      ToLeTwo(recvNum);
    case S(recvNum) =>
      ToLeTwo(recvNum);
    case U(_) =>
  }

  lemma Assembled(w: seq<byte>, n: byte, c: seq<byte>, d: seq<byte>)
    requires |c| == 4 && w == [START, n] + c + d
    ensures |w| == 6 + |d| && w[0] == START && w[1] == n && w[6..] == d && w[2..6] == c
    ensures w[2] == c[0] && w[3] == c[1] && w[4] == c[2] && w[5] == c[3]
  {
  }

  lemma WireBytes(f: Frame)
    requires Fits(f)
    ensures Spells(Wire(f), f)
  {
    ControlBytes(f);
    Assembled(Wire(f), (6 + |DataOf(f)| - 2) % 256, ControlField(f), DataOf(f));
  }

  /** What parsing gives once the start byte is found behind `s`. */
  lemma ParseBehind(b: seq<byte>, off: nat, s: nat)
    requires off < s < |b| && Scan(b, off) == s && |b| - s + 1 >= LEN_MIN
    ensures b[s + 1] % 4 == 1 ==> Parse(b, off) == Parsed(Success, s + 5, Some(S(Le16(b, s + 3) / 2)))
    ensures b[s + 1] % 4 == 3 ==> Parse(b, off) == Parsed(Success, s + 5, Some(U(b[s + 1] - 3)))
    ensures b[s + 1] % 2 == 0 && 4 < b[s] && s + 1 + b[s] as int <= |b| ==>
              Parse(b, off) == Parsed(Success, s + 1 + b[s], Some(I(Le16(b, s + 1) / 2, Le16(b, s + 3) / 2, b[s + 5..s + 1 + b[s]])))
  {
  }

  lemma SpeltParses(b: seq<byte>, off: nat, at: nat, f: Frame, w: seq<byte>)
    requires Fits(f) && Spells(w, f) && off <= at && at + |w| <= |b|
    requires NoStart(b[off..at]) && b[at..at + |w|] == w
    ensures Parse(b, off) == Parsed(Success, at + |w|, Some(f))
  {
    assert forall i | 0 <= i < |w| :: b[at + i] == w[i];
    ScanSkips(b, off, at);
    ParseBehind(b, off, at + 1);
    SpeltData(b, at, w);
  }

  lemma SpeltData(b: seq<byte>, at: nat, w: seq<byte>)
    requires at + |w| <= |b| && b[at..at + |w|] == w && |w| >= 6
    ensures b[at + 6..at + |w|] == w[6..]
  {
    assert b[at..at + |w|][6..] == b[at + 6..at + |w|];
  }

  /** A built frame, behind start-free garbage and in front of anything, parses back to itself. */
  lemma ParseUndoesBuild(b: seq<byte>, off: nat, at: nat, f: Frame)
    requires Fits(f) && off <= at && at + |Wire(f)| <= |b|
    requires NoStart(b[off..at]) && b[at..at + |Wire(f)|] == Wire(f)
    ensures Parse(b, off) == Parsed(Success, at + |Wire(f)|, Some(f))
  {
    WireBytes(f);
    SpeltParses(b, off, at, f, Wire(f));
  }

  // ---------------------------------------------------------------- the bytes spelt out

  /** The number in two bytes, the lower one first. */
  function Pair(low: byte, high: byte): nat {
    low as int + 256 * high as int
  }

  /**
   A received frame byte by byte, from its start byte at `s` to `next`: bits 0 and 1 of the control field are 01
   in an S frame, 11 in a U frame, and bit 0 is 0 in an I frame; the numbers are the upper 15 bits of a pair of
   bytes; the length byte counts the four bytes of the control field and the data.
   */
  predicate Reads(b: seq<byte>, s: nat, next: nat, f: Frame) {
    && s + 6 <= next <= |b| && s + 6 <= |b| && b[s] == 0x68
    && match f
       case S(recvNum) => b[s + 2] % 4 == 1 && recvNum == Pair(b[s + 4], b[s + 5]) / 2 && next == s + 6
       case U(cmd) => b[s + 2] % 4 == 3 && cmd == b[s + 2] - 3 && next == s + 6
       case I(sendNum, recvNum, data) =>
         && b[s + 2] % 2 == 0 && sendNum == Pair(b[s + 2], b[s + 3]) / 2 && recvNum == Pair(b[s + 4], b[s + 5]) / 2
         && |data| > 0 && (|data| == b[s + 1] as int - 4 || |data| == b[s + 1] as int - 4 + 65536)
         && next == s + 6 + |data| && data == b[s + 6..next]
  }

  lemma {:induction false} ScanFirst(b: seq<byte>, off: nat)
    requires off <= |b| && Scan(b, off) < |b|
    ensures var s := Scan(b, off) - 1; off <= s && b[s] == 0x68 && NoStart(b[off..s])
    decreases |b| - off
  {
    if b[off] != START {
      ScanFirst(b, off + 1);
      var s := Scan(b, off) - 1;
      assert b[off..s] == [b[off]] + b[off + 1..s];
    }
  }

  lemma ReadParses(b: seq<byte>, off: nat, s: nat, next: nat, f: Frame)
    requires off <= s && Reads(b, s, next, f) && forall i | off <= i < s :: b[i] != 0x68
    ensures Parse(b, off) == Parsed(Success, next, Some(f))
  {
    ScanFinds(b, off, s);
    LengthStated(b[s + 1]);
  }

  lemma ScanFinds(b: seq<byte>, off: nat, s: nat)
    requires off <= s < |b| && b[s] == 0x68 && forall i | off <= i < s :: b[i] != 0x68
    ensures Scan(b, off) == s + 1
  {
    assert forall i | 0 <= i < s - off :: b[off..s][i] == b[off + i];
    ScanSkips(b, off, s);
  }

  /** The data length a length byte states, in 16 bits. */
  lemma LengthStated(v: byte)
    ensures (v as int - 4) % 0x1_0000 == if v >= 4 then v as int - 4 else v as int - 4 + 65536
  {
  }

  /**
   The parser accepts exactly the bytes of a frame behind bytes none of which is a start byte, and delivers
   this frame and the offset behind it.
   */
  lemma ParsedIff(b: seq<byte>, off: nat, next: nat, f: Frame)
    requires off <= |b|
    ensures Parse(b, off) == Parsed(Success, next, Some(f)) <==>
              exists s: nat :: off <= s && Reads(b, s, next, f) && forall i | off <= i < s :: b[i] != 0x68
  {
    if Parse(b, off) == Parsed(Success, next, Some(f)) {
      ScanFirst(b, off);
      var s := Scan(b, off) - 1;
      assert forall i | off <= i < s :: b[off..s][i - off] == b[i];
      assert Reads(b, s, next, f);
    }
    if s: nat :| off <= s && Reads(b, s, next, f) && forall i | off <= i < s :: b[i] != 0x68 {
      ReadParses(b, off, s, next, f);
    }
  }

  /** Anything else is refused as too short: without a start byte, with fewer than six bytes, or with fewer data than stated. */
  lemma RefusedWith(b: seq<byte>, off: nat, s: nat)
    requires off <= s <= |b| && (forall i | off <= i < s :: b[i] != 0x68) && (s < |b| ==> b[s] == 0x68)
    ensures s == |b| ==> Parse(b, off) == Parsed(LenInvalid, |b|, None)
    ensures s < |b| < s + 6 ==> Parse(b, off) == Parsed(LenInvalid, s + 1, None)
    ensures s + 6 <= |b| && b[s + 2] % 2 == 0 ==>
              var n := if b[s + 1] >= 4 then b[s + 1] as int - 4 else b[s + 1] as int - 4 + 65536;
              n == 0 || |b| < s + 6 + n ==> Parse(b, off) == Parsed(LenInvalid, |b|, None)
  {
    assert forall i | 0 <= i < s - off :: b[off..s][i] == b[off + i];
    ScanSkips(b, off, s);
  }

  lemma TwoBytes(v: nat)
    ensures ToLe(v, 2) == [v % 256, v / 256 % 256]
  {
    assert ToLe(v / 256, 1) == [v / 256 % 256] + ToLe(v / 256 / 256, 0);
  }

  /** What is built, byte by byte, for any fields: numbers are doubled and cut to 16 bits, the length to 8. */
  lemma BuildSpells(f: Frame, w: seq<byte>)
    requires Build(f) == Some(w)
    ensures |w| == 6 + (if f.I? then |f.data| else 0) && w[0] == 0x68 && w[1] == (|w| - 2) % 256 && w[6..] == if f.I? then f.data else []
    ensures match f
            case I(sendNum, recvNum, _) =>
              w[2..6] == [2 * sendNum % 256, 2 * sendNum / 256 % 256, 2 * recvNum % 256, 2 * recvNum / 256 % 256]
            case S(recvNum) => w[2..6] == [1, 0, 2 * recvNum % 256, 2 * recvNum / 256 % 256]
            case U(cmd) => w[2..6] == [cmd / 4 * 4 + 3, 0, 0, 0]
  {
    Assembled(w, (6 + |DataOf(f)| - 2) % 256, ControlField(f), DataOf(f));
    ControlMeans(f);
  }

  lemma ControlMeans(f: Frame)
    ensures ControlField(f)
              == match f
                 case I(sendNum, recvNum, _) =>
                   [2 * sendNum % 256, 2 * sendNum / 256 % 256, 2 * recvNum % 256, 2 * recvNum / 256 % 256]
                 case S(recvNum) => [1, 0, 2 * recvNum % 256, 2 * recvNum / 256 % 256]
                 case U(cmd) => [cmd / 4 * 4 + 3, 0, 0, 0]
  {
    match f
    case I(sendNum, recvNum, _) =>
      TwoBytes(2 * sendNum);
      TwoBytes(2 * recvNum);
    case S(recvNum) =>
      TwoBytes(1);
      TwoBytes(2 * recvNum);
    case U(_) => ThreeZeros();
  }

  lemma ThreeZeros()
    ensures ToLe(0, 3) == [0, 0, 0]
  {
    assert ToLe(0, 2) == [0] + ToLe(0, 1);
  }

  // ---------------------------------------------------------------- the receive loop

  /** The frames the loop of iec104_frame_recv dispatches. */
  function ParseAll(b: seq<byte>, off: nat): seq<Frame>
    requires off <= |b|
    decreases |b| - off
  {
    if off == |b| then []
    else
      ParseAdvances(b, off);
      var p := Parse(b, off);
      (if p.res == Success then [p.frame.value] else []) + ParseAll(b, p.next)
  }

  /** Frames of a stream, each behind its garbage. */
  datatype Item = Item(garbage: seq<byte>, frame: Frame)

  predicate GoodItems(items: seq<Item>) {
    forall i | 0 <= i < |items| :: NoStart(items[i].garbage) && Fits(items[i].frame)
  }

  function Stream(items: seq<Item>): seq<byte>
    requires GoodItems(items)
  {
    if items == [] then [] else items[0].garbage + Wire(items[0].frame) + Stream(items[1..])
  }

  function ItemFrames(items: seq<Item>): seq<Frame> {
    if items == [] then [] else [items[0].frame] + ItemFrames(items[1..])
  }

  lemma ParseAllStep(b: seq<byte>, off: nat, next: nat, f: Frame)
    requires off < next <= |b| && Parse(b, off) == Parsed(Success, next, Some(f))
    ensures ParseAll(b, off) == [f] + ParseAll(b, next)
  {
  }

  lemma ParseAllTail(b: seq<byte>, off: nat)
    requires off <= |b| && NoStart(b[off..])
    ensures ParseAll(b, off) == []
  {
    assert b[off..|b|] == b[off..];
    ScanSkips(b, off, |b|);
  }

  /** The loop finds exactly the frames of a stream, in order, whatever start-free bytes surround them. */
  lemma {:induction false} ParseAllStream(b: seq<byte>, off: nat, items: seq<Item>, tail: seq<byte>)
    requires GoodItems(items) && NoStart(tail)
    requires off <= |b| && b[off..] == Stream(items) + tail
    ensures ParseAll(b, off) == ItemFrames(items)
    decreases |items|
  {
    if items == [] {
      assert b[off..] == tail;
      ParseAllTail(b, off);
    } else {
      var g, f := items[0].garbage, items[0].frame;
      StreamCons(items, tail);
      var next := ParseItem(b, off, g, f, Stream(items[1..]) + tail);
      ParseAllStream(b, next, items[1..], tail);
      ParseAllStep(b, off, next, f);
    }
  }

  lemma StreamCons(items: seq<Item>, tail: seq<byte>)
    requires GoodItems(items) && items != []
    ensures GoodItems(items[1..])
    ensures Stream(items) + tail == items[0].garbage + (Wire(items[0].frame) + (Stream(items[1..]) + tail))
  {
  }

  lemma ParseItem(b: seq<byte>, off: nat, g: seq<byte>, f: Frame, rest: seq<byte>) returns (next: nat)
    requires Fits(f) && NoStart(g) && off <= |b| && b[off..] == g + (Wire(f) + rest)
    ensures off < next <= |b| && b[next..] == rest && Parse(b, off) == Parsed(Success, next, Some(f))
  {
    var w := Wire(f);
    Cut(b, off, g, w + rest);
    Cut(b, off + |g|, w, rest);
    ParseUndoesBuild(b, off, off + |g|, f);
    next := off + |g| + |w|;
  }

  // ---------------------------------------------------------------- cutting a stream

  /** Bytes a frame takes on the wire. */
  function FrameLen(f: Frame): nat {
    6 + |DataOf(f)|
  }

  function TotalLen(fs: seq<Frame>): nat {
    if fs == [] then 0 else FrameLen(fs[0]) + TotalLen(fs[1..])
  }

  lemma ParsedTakes(b: seq<byte>, off: nat)
    requires off < |b| && Parse(b, off).res == Success
    ensures Parse(b, off).next >= off + FrameLen(Parse(b, off).frame.value)
  {
  }

  /** No byte counts for two frames. */
  lemma {:induction false} TotalLength(b: seq<byte>, off: nat)
    requires off <= |b|
    ensures TotalLen(ParseAll(b, off)) <= |b| - off
    decreases |b| - off
  {
    if off < |b| {
      ParseAdvances(b, off);
      TotalLength(b, Parse(b, off).next);
      if Parse(b, off).res == Success {
        ParsedTakes(b, off);
        ParseAllStep(b, off, Parse(b, off).next, Parse(b, off).frame.value);
      }
    }
  }

  lemma {:induction false} TotalConcat(a: seq<Frame>, b: seq<Frame>)
    ensures TotalLen(a + b) == TotalLen(a) + TotalLen(b)
  {
    if a == [] {
      assert a + b == b;
    } else {
      TotalConcat(a[1..], b);
      assert (a + b)[1..] == a[1..] + b;
    }
  }

  predicate AllFit(fs: seq<Frame>) {
    forall i | 0 <= i < |fs| :: Fits(fs[i])
  }

  /** The bytes handed to the lower layer for one frame. */
  function Segment(f: Frame): seq<byte> {
    match Build(f) case None => [] case Some(w) => w
  }

  function Segments(fs: seq<Frame>): (r: seq<seq<byte>>)
    ensures |r| == |fs| && forall i | 0 <= i < |fs| :: r[i] == Segment(fs[i])
  {
    seq(|fs|, i requires 0 <= i < |fs| => Segment(fs[i]))
  }

  lemma SegmentsAppend(a: seq<Frame>, b: seq<Frame>)
    ensures Segments(a + b) == Segments(a) + Segments(b)
  {
  }

  function Concat(ws: seq<seq<byte>>): seq<byte> {
    if ws == [] then [] else ws[0] + Concat(ws[1..])
  }

  lemma {:induction false} ConcatAppend(a: seq<seq<byte>>, b: seq<seq<byte>>)
    ensures Concat(a + b) == Concat(a) + Concat(b)
  {
    if a == [] {
      assert a + b == b;
    } else {
      ConcatAppend(a[1..], b);
      assert (a + b)[1..] == a[1..] + b && (a + b)[0] == a[0];
      AppendTwice(a[0], Concat(a[1..]), Concat(b));
    }
  }

  lemma AppendTwice(x: seq<byte>, y: seq<byte>, z: seq<byte>)
    ensures x + (y + z) == x + y + z
  {
  }

  /** Frames one behind the other, as the lower layer writes them. */
  function WireOf(fs: seq<Frame>): (r: seq<byte>) {
    Concat(Segments(fs))
  }

  lemma WireCons(fs: seq<Frame>)
    requires AllFit(fs) && fs != []
    ensures AllFit(fs[1..]) && WireOf(fs) == Wire(fs[0]) + WireOf(fs[1..])
  {
    assert Segments(fs)[1..] == Segments(fs[1..]);
  }

  lemma {:induction false} WireLength(fs: seq<Frame>)
    requires AllFit(fs)
    ensures |WireOf(fs)| == TotalLen(fs)
  {
    if fs != [] {
      WireBytes(fs[0]);
      WireCons(fs);
      WireLength(fs[1..]);
    }
  }

  lemma WireConcat(a: seq<Frame>, b: seq<Frame>)
    ensures WireOf(a + b) == WireOf(a) + WireOf(b)
  {
    SegmentsAppend(a, b);
    ConcatAppend(Segments(a), Segments(b));
  }

  /** What follows less than a whole frame at the end of a buffer is no frame. */
  lemma {:induction false} TooShort(b: seq<byte>, off: nat)
    requires off <= |b| < off + LEN_MIN
    ensures ParseAll(b, off) == []
    decreases |b| - off
  {
    if off < |b| {
      ParseAdvances(b, off);
      TooShort(b, Parse(b, off).next);
    }
  }

  /** A frame cut off is no frame. */
  lemma CutFrame(b: seq<byte>, off: nat, f: Frame)
    requires Fits(f) && off <= |b| && b[off..] <= Wire(f) && b[off..] != Wire(f)
    ensures ParseAll(b, off) == []
  {
    WireBytes(f);
    if |b| < off + LEN_MIN {
      TooShort(b, off);
    } else {
      CutData(b, off, f, Wire(f));
    }
  }

  lemma CutData(b: seq<byte>, off: nat, f: Frame, w: seq<byte>)
    requires Fits(f) && Spells(w, f) && off + LEN_MIN <= |b| && b[off..] <= w && b[off..] != w
    ensures ParseAll(b, off) == []
  {
    assert b[off] == w[0] && b[off + 1] == w[1] && b[off + 2] == w[2];
    assert Parse(b, off) == Parsed(LenInvalid, |b|, None);
  }

  /** `j` is the number of frames of `fs` that lie wholly within the first `n` bytes. */
  predicate Whole(fs: seq<Frame>, n: nat, j: nat) {
    j <= |fs| && TotalLen(fs[..j]) <= n && (j < |fs| ==> n < TotalLen(fs[..j + 1]))
  }

  lemma NoneWhole(fs: seq<Frame>, n: nat)
    requires fs != [] ==> n < FrameLen(fs[0])
    ensures Whole(fs, n, 0)
  {
    if fs != [] {
      assert fs[..1][1..] == [] && TotalLen(fs[..1]) == FrameLen(fs[0]) + TotalLen([]);
    }
  }

  lemma OneMoreWhole(fs: seq<Frame>, n: nat, k: nat)
    requires fs != [] && n >= FrameLen(fs[0]) && Whole(fs[1..], n - FrameLen(fs[0]), k)
    ensures Whole(fs, n, k + 1) && fs[..k + 1] == [fs[0]] + fs[1..][..k]
  {
    PrefixTotal(fs, k);
  }

  /** The parts of a buffer that begins with a frame. */
  lemma SplitFrame(b: seq<byte>, off: nat, w: seq<byte>, rest: seq<byte>) returns (more: seq<byte>)
    requires off + |w| <= |b| && b[off..] <= w + rest
    ensures b[off..] == [] + (w + more) && more <= rest
  {
    more := b[off + |w|..];
    assert b[off..] == (w + rest)[..|b| - off];
    assert b[off..][..|w|] == w && b[off..][|w|..] == more;
  }

  /** A stream that begins with a whole frame. */
  lemma WholeFirst(b: seq<byte>, off: nat, fs: seq<Frame>) returns (next: nat)
    requires fs != [] && AllFit(fs) && off <= |b| && b[off..] <= WireOf(fs) && |b| - off >= FrameLen(fs[0])
    ensures off < next == off + FrameLen(fs[0]) <= |b| && AllFit(fs[1..]) && b[next..] <= WireOf(fs[1..])
    ensures ParseAll(b, off) == [fs[0]] + ParseAll(b, next)
  {
    WireBytes(fs[0]);
    WireCons(fs);
    var more := SplitFrame(b, off, Wire(fs[0]), WireOf(fs[1..]));
    next := ParseItem(b, off, [], fs[0], more);
    ParseAllStep(b, off, next, fs[0]);
    assert |b[off..]| == |Wire(fs[0])| + |more|;
  }

  /** A stream that ends within its first frame. */
  lemma CutFirst(b: seq<byte>, off: nat, fs: seq<Frame>)
    requires fs != [] && AllFit(fs) && off <= |b| && b[off..] <= WireOf(fs) && |b| - off < FrameLen(fs[0])
    ensures ParseAll(b, off) == []
  {
    WireBytes(fs[0]);
    WireCons(fs);
    assert b[off..] == WireOf(fs)[..|b| - off] == Wire(fs[0])[..|b| - off];
    CutFrame(b, off, fs[0]);
  }

  /** A stream cut anywhere: exactly the frames that lie wholly before the cut are found. */
  lemma {:induction false} CutKeepsWhole(b: seq<byte>, off: nat, fs: seq<Frame>) returns (j: nat)
    requires AllFit(fs) && off <= |b| && b[off..] <= WireOf(fs)
    ensures Whole(fs, |b| - off, j) && ParseAll(b, off) == fs[..j]
    decreases |fs|
  {
    j := 0;
    if fs == [] {
      assert b[off..] == [];
      NoneWhole(fs, 0);
    } else if |b| - off < FrameLen(fs[0]) {
      CutFirst(b, off, fs);
      NoneWhole(fs, |b| - off);
    } else {
      var next := WholeFirst(b, off, fs);
      var k := CutKeepsWhole(b, next, fs[1..]);
      OneMoreWhole(fs, |b| - off, k);
      j := k + 1;
    }
  }

  lemma PrefixTotal(fs: seq<Frame>, k: nat)
    requires fs != [] && k <= |fs| - 1
    ensures fs[..k + 1] == [fs[0]] + fs[1..][..k] && TotalLen(fs[..k + 1]) == FrameLen(fs[0]) + TotalLen(fs[1..][..k])
    ensures k + 1 < |fs| ==> TotalLen(fs[..k + 2]) == FrameLen(fs[0]) + TotalLen(fs[1..][..k + 1])
  {
    assert fs[..k + 1][1..] == fs[1..][..k];
    if k + 1 < |fs| {
      assert fs[..k + 2][1..] == fs[1..][..k + 1];
    }
  }

  /** `i` lies between two frames of the stream, or at either end. */
  ghost predicate Boundary(fs: seq<Frame>, i: nat)
  {
    exists j :: 0 <= j <= |fs| && |WireOf(fs[..j])| == i
  }

  /** Received in two pieces, a stream gives the same frames if and only if it was cut between two of them. */
  lemma CutPreservesIff(fs: seq<Frame>, i: nat)
    requires AllFit(fs) && i <= |WireOf(fs)|
    ensures var b := WireOf(fs); ParseAll(b[..i], 0) + ParseAll(b[i..], 0) == fs <==> Boundary(fs, i)
  {
    var b := WireOf(fs);
    if Boundary(fs, i) {
      var j :| 0 <= j <= |fs| && |WireOf(fs[..j])| == i;
      WireConcat(fs[..j], fs[j..]);
      assert fs == fs[..j] + fs[j..];
      WireParses(fs[..j]);
      WireParses(fs[j..]);
    }
    TotalLength(b[..i], 0);
    TotalLength(b[i..], 0);
    if ParseAll(b[..i], 0) + ParseAll(b[i..], 0) == fs {
      PreservedBoundary(fs, i, ParseAll(b[..i], 0), ParseAll(b[i..], 0));
    }
  }

  lemma PreservedBoundary(fs: seq<Frame>, i: nat, x: seq<Frame>, y: seq<Frame>)
    requires AllFit(fs) && i <= |WireOf(fs)| && fs == x + y
    requires TotalLen(x) <= i && TotalLen(y) <= |WireOf(fs)| - i
    ensures Boundary(fs, i)
  {
    assert fs[..|x|] == x;
    TotalConcat(x, y);
    WireLength(fs);
    WireLength(fs[..|x|]);
  }

  function Items(fs: seq<Frame>): (items: seq<Item>)
    ensures |items| == |fs| && forall i | 0 <= i < |fs| :: items[i] == Item([], fs[i])
  {
    if fs == [] then [] else [Item([], fs[0])] + Items(fs[1..])
  }

  lemma BareItem(items: seq<Item>)
    requires items != [] && items[0].garbage == [] && Fits(items[0].frame) && GoodItems(items[1..])
    ensures GoodItems(items) && Stream(items) == Wire(items[0].frame) + Stream(items[1..])
  {
    assert forall i | 1 <= i < |items| :: items[i] == items[1..][i - 1];
    assert Stream(items) == [] + Wire(items[0].frame) + Stream(items[1..]);
    assert [] + Wire(items[0].frame) == Wire(items[0].frame);
  }

  lemma {:induction false} ItemsStream(fs: seq<Frame>)
    requires AllFit(fs)
    ensures GoodItems(Items(fs)) && Stream(Items(fs)) == WireOf(fs) && ItemFrames(Items(fs)) == fs
  {
    if fs != [] {
      WireCons(fs);
      ItemsStream(fs[1..]);
      assert Items(fs)[1..] == Items(fs[1..]);
      BareItem(Items(fs));
    }
  }

  /** The receive loop recovers the frames that were written. */
  lemma WireParses(fs: seq<Frame>)
    requires AllFit(fs)
    ensures ParseAll(WireOf(fs), 0) == fs
  {
    ItemsStream(fs);
    ParseAllStream(WireOf(fs), 0, Items(fs), []);
  }

  // ---------------------------------------------------------------- which frames survive

  /** Written and received alone, the frame is found again and nothing else is. */
  predicate Survives(f: Frame) {
    Build(f).Some? && ParseAll(Build(f).value, 0) == [f]
  }

  /** The data length the receiver takes from the length byte of `n` bytes of data. */
  function WireLen(n: nat): nat {
    ((n + 4) % 256 - 4) % 0x1_0000
  }

  /**
   The length byte counts four bytes more than the data, and the difference is taken modulo 2^16:
   it is right for 1 to 251 bytes, and again for the last four lengths 16 bits can hold.
   */
  predicate LengthFits(n: nat) {
    1 <= n <= 251 || n >= 65532
  }

  lemma WireLenIff(n: nat)
    requires 1 <= n < 0x1_0000
    ensures WireLen(n) == n <==> LengthFits(n)
  {
  }

  lemma LowBytes(v: u16)
    ensures ToLe(v * 2, 2) == [v * 2 % 256, v * 2 / 256 % 256]
    ensures (v * 2 % 256 + 256 * (v * 2 / 256 % 256)) / 2 == v % 32768 && v * 2 % 256 % 2 == 0
  {
    assert ToLe(v * 2 / 256, 1) == [v * 2 / 256 % 256] + ToLe(v * 2 / 256 / 256, 0);
  }

  /** What the receiver finds where `f` was written alone. */
  function Found(f: Frame): Parsed {
    match f
    case I(sendNum, recvNum, data) =>
      var n := WireLen(|data|);
      if 0 < n <= |data| then Parsed(Success, 6 + n, Some(I(sendNum % 32768, recvNum % 32768, data[..n])))
      else Parsed(LenInvalid, 6 + |data|, None)
    case S(recvNum) => Parsed(Success, 6, Some(S(recvNum % 32768)))
    case U(cmd) => Parsed(Success, 6, Some(U(cmd - cmd % 4)))
  }

  lemma InfoFound(w: seq<byte>, sendNum: u16, recvNum: u16, data: Data)
    requires |w| == 6 + |data| && w[0] == START && w[1] == (|data| + 4) % 256 && w[6..] == data
    requires w[2] == sendNum * 2 % 256 && w[3] == sendNum * 2 / 256 % 256
    requires w[4] == recvNum * 2 % 256 && w[5] == recvNum * 2 / 256 % 256
    ensures Parse(w, 0) == Found(I(sendNum, recvNum, data))
  {
    LowBytes(sendNum);
    LowBytes(recvNum);
    var n := WireLen(|data|);
    if n <= |data| {
      assert w[6..6 + n] == data[..n];
    }
  }

  lemma SupervisoryFound(w: seq<byte>, recvNum: u16)
    requires |w| == 6 && w[0] == START && w[2] == 1
    requires w[4] == recvNum * 2 % 256 && w[5] == recvNum * 2 / 256 % 256
    ensures Parse(w, 0) == Found(S(recvNum))
  {
    LowBytes(recvNum);
  }

  lemma UnnumberedFound(w: seq<byte>, cmd: byte)
    requires |w| == 6 && w[0] == START && w[2] == cmd - cmd % 4 + 3
    ensures Parse(w, 0) == Found(U(cmd))
  {
  }

  /** The control field spelt out, whatever the numbers. */
  predicate SpellsControl(c: seq<byte>, f: Frame) {
    && |c| == 4
    && match f
       case I(sendNum, recvNum, _) =>
         && c[0] == sendNum * 2 % 256 && c[1] == sendNum * 2 / 256 % 256
         && c[2] == recvNum * 2 % 256 && c[3] == recvNum * 2 / 256 % 256
       case S(recvNum) => c[0] == 1 && c[2] == recvNum * 2 % 256 && c[3] == recvNum * 2 / 256 % 256
       case U(cmd) => c[0] == cmd - cmd % 4 + 3
  }

  lemma ControlSpelt(f: Frame)
    ensures SpellsControl(ControlField(f), f)
  {
    match f
    case I(sendNum, recvNum, _) =>
      LowBytes(sendNum);
      LowBytes(recvNum);
    case S(recvNum) => LowBytes(recvNum);
    case U(_) =>
  }

  lemma SpeltFound(w: seq<byte>, c: seq<byte>, f: Frame)
    requires Build(f).Some? && SpellsControl(c, f) && w == [START, (DataLen(f) + 4) % 256] + c + DataOf(f)
    ensures |w| == FrameLen(f) && Parse(w, 0) == Found(f)
  {
    Assembled(w, (DataLen(f) + 4) % 256, c, DataOf(f));
    match f
    case I(sendNum, recvNum, data) => InfoFound(w, sendNum, recvNum, data);
    case S(recvNum) => SupervisoryFound(w, recvNum);
    case U(cmd) => UnnumberedFound(w, cmd);
  }

  function DataLen(f: Frame): nat {
    |DataOf(f)|
  }

  lemma ParseBuilt(f: Frame)
    requires Build(f).Some?
    ensures |Build(f).value| == FrameLen(f) && Parse(Build(f).value, 0) == Found(f)
  {
    ControlSpelt(f);
    SpeltFound(Build(f).value, ControlField(f), f);
  }

  lemma InfoIff(sendNum: u16, recvNum: u16, data: Data, n: nat)
    requires n <= |data|
    ensures I(sendNum % 32768, recvNum % 32768, data[..n]) == I(sendNum, recvNum, data) <==>
              sendNum < 32768 && recvNum < 32768 && n == |data|
  {
    assert data[..|data|] == data;
  }

  lemma FoundIff(f: Frame)
    requires Build(f).Some?
    ensures Found(f) == Parsed(Success, FrameLen(f), Some(f)) <==> InPlace(f) && (f.I? ==> LengthFits(|f.data|))
  {
    match f
    case I(sendNum, recvNum, data) =>
      WireLenIff(|data|);
      FoundInfoIff(sendNum, recvNum, data, WireLen(|data|));
    case S(_) =>
    case U(_) =>
  }

  lemma FoundInfoIff(sendNum: u16, recvNum: u16, data: Data, n: nat)
    requires n == WireLen(|data|) && data != []
    ensures Found(I(sendNum, recvNum, data)) == Parsed(Success, 6 + |data|, Some(I(sendNum, recvNum, data))) <==>
              sendNum < 32768 && recvNum < 32768 && n == |data|
  {
    if n <= |data| {
      InfoIff(sendNum, recvNum, data, n);
    }
  }

  /** Of a buffer of its length, a frame is the only one exactly if it is the first and uses it up. */
  lemma OnlyFrame(b: seq<byte>, f: Frame)
    requires |b| == FrameLen(f)
    ensures ParseAll(b, 0) == [f] <==> Parse(b, 0) == Parsed(Success, |b|, Some(f))
  {
    ParseAdvances(b, 0);
    var p := Parse(b, 0);
    var rest := ParseAll(b, p.next);
    TotalLength(b, p.next);
    if p.res == Success {
      ParsedTakes(b, 0);
      ParseAllStep(b, 0, p.next, p.frame.value);
      FirstOnly(p.frame.value, rest, f);
    } else {
      assert ParseAll(b, 0) == [] + rest == rest;
      FirstOnly(f, [], f);
    }
  }

  lemma FirstOnly(g: Frame, rest: seq<Frame>, f: Frame)
    ensures [g] + rest == [f] <==> g == f && rest == []
    ensures TotalLen([f]) == FrameLen(f)
  {
    assert ([g] + rest)[0] == g;
    assert [f][1..] == [];
    assert rest == [] ==> [g] + rest == [g];
  }

  /** Exactly which frames survive the wire. */
  lemma SurvivesIff(f: Frame)
    ensures Survives(f) <==> InPlace(f) && (f.I? ==> LengthFits(|f.data|))
  {
    if Build(f).Some? {
      ParseBuilt(f);
      OnlyFrame(Build(f).value, f);
      FoundIff(f);
    }
  }

  lemma {:induction false} LongestFrame(fs: seq<Frame>, g: Frame)
    requires g in fs
    ensures FrameLen(g) <= TotalLen(fs)
  {
    if g != fs[0] {
      LongestFrame(fs[1..], g);
    }
  }

  /**
   Data whose length the length byte cannot carry never arrive: whatever frames the receiver finds
   in the bytes written for them, none has these data.
   */
  lemma MislabelledNeverFound(f: Frame, g: Frame)
    requires f.I? && f.data != [] && !LengthFits(|f.data|)
    requires g in ParseAll(Build(f).value, 0)
    ensures !(g.I? && g.data == f.data)
  {
    var w, p := Build(f).value, Found(f);
    ParseBuilt(f);
    WireLenIff(|f.data|);
    ParseAdvances(w, 0);
    TotalLength(w, p.next);
    if g in ParseAll(w, p.next) {
      LongestFrame(ParseAll(w, p.next), g);
    }
  }

}
