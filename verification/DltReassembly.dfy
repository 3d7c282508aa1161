/**
 Reassembling a DL/T 645 answer from the chunks a serial line delivers: the first half of
 dlt645_frame_recv in unitlinks/src/dlt645.c.  The clock is a parameter.
 */
module DltReassembly {
  import opened Prelude
  import opened Bytes
  import opened Scanning
  import DltFrame

  const BUFF_SIZE := 512

  /** The request timer (0 while no answer is awaited) and the bytes received so far. */
  datatype Rx = Rx(timer: int, data: seq<byte>)

  /** A chunk, the address of the line it came from, and when it came. */
  datatype Chunk = Chunk(bytes: seq<byte>, adr: nat, now: int)

  /** The new state, the response code, and the frame if there is one; or the source does not return. */
  datatype Verdict = Verdict(rx: Rx, res: Res, frame: Option<DltFrame.Frame>) | NoReturn

  /** Too late, or too much: everything is dropped. */
  predicate Refused(rx: Rx, c: Chunk, timeout: nat) {
    c.now - rx.timer >= timeout || |rx.data| + |c.bytes| > BUFF_SIZE
  }

  /** dlt645_frame_recv up to the dispatch of the frame; `expected` is the device asked last. */
  function Receive(rx: Rx, c: Chunk, expected: nat, timeout: nat): Verdict {
    if Refused(rx, c, timeout) then Verdict(Rx(0, []), Incorrect, None)
    else if c.adr != expected then Verdict(rx, Incorrect, None)
    else
      var data := rx.data + c.bytes;
      match DltFrame.Parse(data, 0)
      case Done(Success, _, frame) => Verdict(Rx(0, []), Success, frame)
      case Done(res, _, _) => Verdict(Rx(rx.timer, data), res, None)
      case Hangs => NoReturn
  }

  /** The chunk makes the source's checksum loop run forever. */
  predicate NeverReturns(rx: Rx, c: Chunk, expected: nat, timeout: nat) {
    Receive(rx, c, expected, timeout) == NoReturn
  }

  /**
   A chunk that is late or makes more than 512 bytes drops everything; one of another device is ignored; any
   other one is kept with what came before, until they hold a frame, which ends the wait.
   */
  lemma ChunkTaken(rx: Rx, c: Chunk, expected: nat, timeout: nat)
    requires !NeverReturns(rx, c, expected, timeout)
    ensures var v := Receive(rx, c, expected, timeout);
            if c.now - rx.timer >= timeout || |rx.data| + |c.bytes| > 512 then v == Verdict(Rx(0, []), Incorrect, None)
            else if c.adr != expected then v == Verdict(rx, Incorrect, None)
            else var p := DltFrame.Parse(rx.data + c.bytes, 0);
                 p.Done? && v == Verdict(if p.res == Success then Rx(0, []) else Rx(rx.timer, rx.data + c.bytes), p.res,
                                         if p.res == Success then p.frame else None)
  {
  }

  /** It happens exactly when the bytes received so far begin with a frame of more than 245 bytes of data. */
  lemma NeverReturnsIff(rx: Rx, c: Chunk, expected: nat, timeout: nat)
    ensures var b := rx.data + c.bytes;
            NeverReturns(rx, c, expected, timeout) <==>
              !Refused(rx, c, timeout) && c.adr == expected
              && var s := Scan(b, 0);
                 |b| - s + 1 >= DltFrame.LEN_MIN && b[s + 6] == START && b[s + 8] > DltFrame.DATA_MAX
                 && |b| - (s + 9) >= b[s + 8] as int + 2
  {
  }

  class Receiver {
    const timeout: nat
    const buff: array<byte>
    var timer: int
    var len: nat

    ghost predicate Valid()
      reads this
    {
      buff.Length == BUFF_SIZE && len <= BUFF_SIZE
    }

    ghost function View(): Rx
      requires Valid()
      reads this, buff
    {
      Rx(timer, buff[..len])
    }

    constructor (timeout: nat)
      ensures Valid() && fresh(buff) && View() == Rx(0, []) && this.timeout == timeout
    {
      this.timeout := timeout;
      buff := new byte[BUFF_SIZE];
      timer, len := 0, 0;
    }

    method Append(bytes: seq<byte>)
      requires Valid() && len + |bytes| <= BUFF_SIZE
      modifies this`len, buff
      ensures Valid() && View() == Rx(timer, old(View().data) + bytes)
    {
      forall i | 0 <= i < |bytes| {
        buff[len + i] := bytes[i];
      }
      len := len + |bytes|;
    }

    /** dlt645_frame_recv. */
    method FrameRecv(c: Chunk, expected: nat) returns (res: Res, frame: Option<DltFrame.Frame>)
      requires Valid() && !NeverReturns(View(), c, expected, timeout)
      modifies this, buff
      ensures Valid() && Verdict(View(), res, frame) == Receive(old(View()), c, expected, timeout)
    {
      if c.now - timer >= timeout || len + |c.bytes| > BUFF_SIZE {
        timer, len := 0, 0;
        return Incorrect, None;
      }
      if c.adr != expected {
        return Incorrect, None;
      }
      Append(c.bytes);
      var next;
      res, next, frame := DltFrame.ParseBuffer(buff, len, 0);
      if res == Success {
        timer, len := 0, 0;
      } else {
        frame := None;
      }
    }
  }

  // ---------------------------------------------------------------- chunking

  function Joined(cs: seq<Chunk>): seq<byte> {
    if cs == [] then [] else Joined(cs[..|cs| - 1]) + cs[|cs| - 1].bytes
  }

  /** The verdict on the last chunk, all of them received one after the other. */
  function ReceiveAll(rx: Rx, cs: seq<Chunk>, expected: nat, timeout: nat): Verdict
    requires cs != []
    decreases |cs|, 0
  {
    match RxAfter(rx, cs[..|cs| - 1], expected, timeout)
    case None => NoReturn
    case Some(before) => Receive(before, cs[|cs| - 1], expected, timeout)
  }

  /** The state after a run of chunks, if the source returns from all of them. */
  function RxAfter(rx: Rx, cs: seq<Chunk>, expected: nat, timeout: nat): Option<Rx>
    decreases |cs|, 1
  {
    if cs == [] then Some(rx)
    else
      match ReceiveAll(rx, cs, expected, timeout)
      case NoReturn => None
      case Verdict(after, _, _) => Some(after)
  }

  /** Chunks of one answer: in time, and from the device that was asked. */
  predicate Timely(rx: Rx, cs: seq<Chunk>, expected: nat, timeout: nat) {
    forall i | 0 <= i < |cs| :: cs[i].now - rx.timer < timeout && cs[i].adr == expected
  }

  /** Bytes that are less than start-free garbage and a frame are kept and answered with LenInvalid. */
  lemma {:induction false} PartialKept(rx: Rx, cs: seq<Chunk>, expected: nat, timeout: nat,
                                       g: seq<byte>, f: DltFrame.Frame)
    requires rx.data == [] && Timely(rx, cs, expected, timeout) && NoStart(g)
    requires |f.data| <= DltFrame.DATA_MAX && |g| + 12 + |f.data| <= BUFF_SIZE
    requires Joined(cs) <= g + DltFrame.Build(f) && Joined(cs) != g + DltFrame.Build(f)
    ensures RxAfter(rx, cs, expected, timeout) == Some(Rx(rx.timer, Joined(cs)))
    ensures cs != [] ==> ReceiveAll(rx, cs, expected, timeout) == Verdict(Rx(rx.timer, Joined(cs)), LenInvalid, None)
  {
    if cs != [] {
      var before, c := cs[..|cs| - 1], cs[|cs| - 1];
      var w := DltFrame.Build(f);
      assert Joined(before) <= Joined(cs);
      PartialKept(rx, before, expected, timeout, g, f);
      PrefixLenInvalid(Joined(cs), g, f);
      assert RxAfter(rx, before, expected, timeout).value.data + c.bytes == Joined(cs);
    }
  }

  lemma PrefixLenInvalid(b: seq<byte>, g: seq<byte>, f: DltFrame.Frame)
    requires |f.data| <= DltFrame.DATA_MAX && NoStart(g)
    requires b <= g + DltFrame.Build(f) && b != g + DltFrame.Build(f)
    ensures DltFrame.Parse(b, 0).Done? && DltFrame.Parse(b, 0).res == LenInvalid
  {
    PrefixParts(b, g, DltFrame.Build(f));
    if |b| < |g| {
      GarbageLenInvalid(b);
    } else {
      DltFrame.PrefixRefused(g, f, |b| - |g|);
    }
  }

  lemma PrefixParts(b: seq<byte>, g: seq<byte>, w: seq<byte>)
    requires b <= g + w && b != g + w
    ensures if |b| < |g| then b <= g else |b| - |g| < |w| && b == g + w[..|b| - |g|]
  {
    assert b == (g + w)[..|b|];
  }

  lemma GarbageLenInvalid(b: seq<byte>)
    requires NoStart(b)
    ensures DltFrame.Parse(b, 0).Done? && DltFrame.Parse(b, 0).res == LenInvalid
  {
    assert b[0..|b|] == b;
    ScanSkips(b, 0, |b|);
  }

  /**
   Chunking does not matter: however garbage without start bytes and a built frame are cut into
   chunks, every chunk before the one that completes the frame gets LenInvalid and is kept, and the
   completing one - whatever follows the frame in it - delivers the frame and ends the wait.
   */
  lemma AnySplitDelivers(rx: Rx, cs: seq<Chunk>, expected: nat, timeout: nat,
                         g: seq<byte>, f: DltFrame.Frame, tail: seq<byte>)
    requires rx.data == [] && Timely(rx, cs, expected, timeout) && NoStart(g) && DltFrame.Fits(f)
    requires cs != [] && Joined(cs) == g + DltFrame.Build(f) + tail && |Joined(cs)| <= BUFF_SIZE
    requires |Joined(cs[..|cs| - 1])| < |g| + |DltFrame.Build(f)|
    ensures ReceiveAll(rx, cs, expected, timeout) == Verdict(Rx(0, []), Success, Some(DltFrame.Received(f)))
    ensures forall i | 1 <= i < |cs| ::
              ReceiveAll(rx, cs[..i], expected, timeout) == Verdict(Rx(rx.timer, Joined(cs[..i])), LenInvalid, None)
  {
    var w := DltFrame.Build(f);
    var n := |cs| - 1;
    var b := Joined(cs);
    forall i | 0 <= i <= n ensures Joined(cs[..i]) <= g + w && Joined(cs[..i]) != g + w {
      JoinedPrefix(cs, i, n);
      assert Joined(cs[..n]) == b[..|Joined(cs[..n])|];
    }
    forall i | 0 <= i <= n ensures Timely(rx, cs[..i], expected, timeout) {
    }
    PartialKept(rx, cs[..n], expected, timeout, g, f);
    assert b[0..|g|] == g && b[|g|..|g| + |w|] == w;
    DltFrame.ParseUndoesBuild(b, 0, |g|, f);
    forall i | 1 <= i < |cs|
      ensures ReceiveAll(rx, cs[..i], expected, timeout) == Verdict(Rx(rx.timer, Joined(cs[..i])), LenInvalid, None)
    {
      PartialKept(rx, cs[..i], expected, timeout, g, f);
    }
  }

  lemma {:induction false} JoinedPrefix(cs: seq<Chunk>, i: nat, j: nat)
    requires i <= j <= |cs|
    ensures Joined(cs[..i]) <= Joined(cs[..j])
    decreases j - i
  {
    if i < j {
      JoinedPrefix(cs, i, j - 1);
      assert cs[..j][..j - 1] == cs[..j - 1];
    }
  }

}
