/**
 The ring buffer of common/multififo.c: readchannel fills it from a pipe, getframefromring takes
 frames out of it.  Pointers into the ring are offsets from its start; the one behind its end counts.
 */
module RingFifo {
  import opened Prelude
  import opened Bytes

  /** LENRINGBUF */
  const LEN := 32768

  type Cells = s: seq<byte> | |s| == LEN witness seq(LEN, _ => 0)

  /** The ring and its three pointers `bgnframe`, `bgnring` and `endring`. */
  datatype Ring = Ring(cells: Cells, frame: nat, begin: nat, end: nat)

  predicate Good(r: Ring) {
    r.frame <= LEN && r.begin <= LEN && r.end <= LEN
  }

  /** initchannelstruct; calloc is not used, so the cells hold anything. */
  function Init(cells: Cells): Ring {
    Ring(cells, 0, 0, 0)
  }

  /** Bytes the first read of readchannel asks for. */
  function Tail(r: Ring): nat
    requires Good(r)
  {
    if r.begin > r.end then r.begin - r.end else LEN - r.end
  }

  function NotRead(r: Ring): nat
    requires Good(r)
  {
    if r.begin > r.end then r.end + LEN - r.begin else r.end - r.begin
  }

  /** What a read of `count` bytes can bring: an error, or between one byte and all of them. */
  predicate CanRead(x: Option<seq<byte>>, count: nat) {
    x.Some? ==> |x.value| <= count && (x.value == [] <==> count == 0)
  }

  /** What the two reads of one readchannel call bring; the second one happens only if the first is complete. */
  datatype Input = Input(first: Option<seq<byte>>, second: Option<seq<byte>>)

  predicate Possible(r: Ring, i: Input)
    requires Good(r)
  {
    && CanRead(i.first, Tail(r)) && CanRead(i.second, r.frame)
    && (Tail(r) == 0 ==> i.first.Some?)
    && (i.first == None || |i.first.value| < Tail(r) ==> i.second == None)
  }

  function BytesOf(i: Input): seq<byte> {
    (if i.first.Some? then i.first.value else []) + (if i.second.Some? then i.second.value else [])
  }

  predicate Overflow(r: Ring) {
    r.frame == r.end && r.begin != r.end
  }

  datatype ReadResult = ReadResult(ring: Ring, count: int)

  /** readchannel. */
  ghost function Read(r: Ring, i: Input): ReadResult
    requires Good(r) && Possible(r, i)
  {
    if Overflow(r) then ReadResult(r, -2)
    else if i.first == None then ReadResult(r, -1)
    else
      var one := r.(cells := Splice(r.cells, r.end, i.first.value), end := r.end + |i.first.value|);
      if i.second == None then ReadResult(one, |i.first.value| + NotRead(r))
      else
        ReadResult(one.(cells := Splice(one.cells, 0, i.second.value), end := |i.second.value|),
                   |i.first.value| + |i.second.value| + NotRead(r))
  }

  /** The ring behind a taken frame, and the frame; none stands for the result -1. */
  datatype GetResult = GetResult(ring: Ring, frame: Option<seq<byte>>)

  /** getframefromring. */
  function Get(r: Ring, n: nat): GetResult
    requires Good(r)
  {
    if n > LEN then GetResult(r, None)
    else if r.frame + n < LEN then
      if r.end < r.frame + n then GetResult(r, None)
      else GetResult(r.(frame := r.frame + n, begin := r.frame + n), Some(r.cells[r.frame..r.frame + n]))
    else
      var rest := n - (LEN - r.frame);
      if r.end < rest then GetResult(r, None)
      else
        var f := if rest > 0 then rest else LEN;
        GetResult(r.(frame := f, begin := f), Some(r.cells[r.frame..] + r.cells[..rest]))
  }

  // ---------------------------------------------------------------- the object

  class Channel {
    const ring: array<byte>
    var bgnframe: nat
    var bgnring: nat
    var endring: nat

    ghost predicate Valid()
      reads this
    {
      ring.Length == LEN && bgnframe <= LEN && bgnring <= LEN && endring <= LEN
    }

    ghost function View(): (r: Ring)
      requires Valid()
      reads this, ring
      ensures Good(r)
    {
      Ring(ring[..], bgnframe, bgnring, endring)
    }

    constructor ()
      ensures Valid() && fresh(ring) && View() == Init(ring[..])
    {
      ring := new byte[LEN];
      bgnframe, bgnring, endring := 0, 0, 0;
    }

    /** What read does with its buffer. */
    method Store(off: nat, x: seq<byte>)
      requires Valid() && off + |x| <= LEN
      modifies ring
      ensures ring[..] == Splice(old(ring[..]), off, x)
    {
      forall k | 0 <= k < |x| {
        ring[off + k] := x[k];
      }
    }

    method ReadChannel(i: Input) returns (count: int)
      requires Valid() && Possible(View(), i)
      modifies this`endring, ring
      ensures Valid() && ReadResult(View(), count) == Read(old(View()), i)
    {
      if bgnframe == endring && bgnring != endring {
        return -2;
      }
      var tail, notRead;
      if bgnring > endring {
        tail, notRead := bgnring - endring, endring + LEN - bgnring;
      } else {
        tail, notRead := LEN - endring, endring - bgnring;
      }
      if i.first == None {
        return -1;
      }
      Store(endring, i.first.value);
      var got := |i.first.value|;
      endring := endring + got;
      if got == tail && i.second.Some? {
        Store(0, i.second.value);
        endring := |i.second.value|;
        got := got + |i.second.value|;
      }
      count := got + notRead;
    }

    method GetFrame(n: nat) returns (frame: Option<seq<byte>>)
      requires Valid()
      modifies this`bgnframe, this`bgnring
      ensures Valid() && GetResult(View(), frame) == Get(old(View()), n)
    {
      if n > LEN {
        return None;
      }
      var len1, len2 := n, 0;
      if bgnframe + n < LEN {
        if endring < bgnframe + n {
          return None;
        }
      } else {
        len1 := LEN - bgnframe;
        len2 := n - len1;
        if endring < len2 {
          return None;
        }
      }
      frame := Some(ring[bgnframe..bgnframe + len1] + ring[..len2]);
      assert ring[bgnframe..bgnframe + len1] == ring[..][bgnframe..bgnframe + len1];
      assert ring[..][..len2] == ring[..len2];
      assert len2 == 0 ==> frame.value == ring[bgnframe..bgnframe + len1];
      assert ring[..][bgnframe..] == ring[..][bgnframe..LEN];
      bgnframe := if len2 > 0 then len2 else bgnframe + len1;
      bgnring := bgnframe;
    }
  }

  // ---------------------------------------------------------------- a faithful FIFO

  /** Everything read has been taken; a frame that ends with the ring may leave `end` at its start. */
  predicate Ready(r: Ring) {
    Good(r) && r.frame == r.begin && (r.end == r.frame || (r.frame == LEN && r.end == 0))
  }

  lemma NoWrap(r: Ring, x: seq<byte>)
    requires Ready(r) && r.end == r.frame && x != [] && r.end + |x| <= LEN
    ensures var s := r.(cells := Splice(r.cells, r.end, x), end := r.end + |x|);
            var g := Get(s, |x|);
            g.frame == Some(x) && Ready(g.ring)
  {
    var c := Splice(r.cells, r.end, x);
    assert c[r.frame..r.frame + |x|] == x;
    if r.frame + |x| == LEN {
      assert c[r.frame..] + c[..0] == x;
    }
  }

  lemma Wrap(r: Ring, x: seq<byte>, y: seq<byte>)
    requires Good(r) && |x| == LEN - r.frame && |y| <= r.frame
    ensures var c := Splice(Splice(r.cells, r.frame, x), 0, y);
            var g := Get(Ring(c, r.frame, r.begin, |y|), |x| + |y|);
            g.frame == Some(x + y) && g.ring.frame == g.ring.begin == if |y| > 0 then |y| else LEN
  {
    var c := Splice(Splice(r.cells, r.frame, x), 0, y);
    assert c[r.frame..] == x && c[..|y|] == y;
  }

  /** A frame at the start of the ring, the pointers being at its end. */
  lemma FromStart(r: Ring, x: seq<byte>)
    requires r.frame == LEN && r.begin == LEN && x != [] && |x| <= LEN
    ensures var s := r.(cells := Splice(r.cells, 0, x), end := |x|);
            var g := Get(s, |x|);
            g.frame == Some(x) && Ready(g.ring)
  {
    var c := Splice(r.cells, 0, x);
    assert c[LEN..] + c[..|x|] == x;
  }

  /** The first read alone brings everything. */
  lemma OneRead(r: Ring, i: Input, x: seq<byte>)
    requires Ready(r) && Possible(r, i) && i == Input(Some(x), None)
    ensures Read(r, i) == ReadResult(r.(cells := Splice(r.cells, r.end, x), end := r.end + |x|), |x|)
  {
  }

  /** Both reads bring something. */
  lemma TwoReads(r: Ring, i: Input, x: seq<byte>, y: seq<byte>)
    requires Ready(r) && r.end == r.frame && Possible(r, i) && i == Input(Some(x), Some(y))
    ensures |x| == LEN - r.frame && |y| <= r.frame && (y == [] ==> r.frame == 0)
    ensures Read(r, i) == ReadResult(Ring(Splice(Splice(r.cells, r.end, x), 0, y), r.frame, r.begin, |y|), |x| + |y|)
  {
  }

  /** With the pointers at both ends of the ring, a second read would return too much. */
  lemma NoSecondRead(r: Ring, i: Input)
    requires Ready(r) && r.end != r.frame && Possible(r, i) && Read(r, i).count <= LEN
    ensures i.second == None
  {
  }

  /**
   From a ready ring, a call of readchannel that returns n in 1..LEN followed by taking n bytes
   yields exactly the bytes read, across the end of the ring too, and leaves the ring ready.
   */
  lemma ReadThenGet(r: Ring, i: Input)
    requires Ready(r) && Possible(r, i) && 0 < Read(r, i).count <= 32768
    ensures var read := Read(r, i);
            var g := Get(read.ring, read.count);
            read.count == |BytesOf(i)| && g.frame == Some(BytesOf(i)) && Ready(g.ring)
  {
    var x := i.first.value;
    assert x + [] == x;
    if r.end != r.frame {
      NoSecondRead(r, i);
      OneRead(r, i, x);
      FromStart(r, x);
    } else if i.second == None {
      OneRead(r, i, x);
      NoWrap(r, x);
    } else {
      TwoReads(r, i, x, i.second.value);
      Wrap(r, x, i.second.value);
    }
  }

  /** The last frame filled the whole ring, and more bytes wait in the pipe than the ring holds. */
  predicate Overfull(r: Ring, i: Input) {
    r.frame == LEN && r.end == 0 && i.second.Some?
  }

  /** Exactly then one call returns more than LEN, and what it returned is refused. */
  lemma TooMuchIff(r: Ring, i: Input)
    requires Ready(r) && Possible(r, i)
    ensures Read(r, i).count > LEN <==> Overfull(r, i)
    ensures Overfull(r, i) ==> Get(Read(r, i).ring, Read(r, i).count).frame == None
  {
  }

  /** A call that returns nothing changes nothing. */
  lemma NothingRead(r: Ring, i: Input)
    requires Ready(r) && Possible(r, i) && Read(r, i).count <= 0
    ensures BytesOf(i) == [] && Read(r, i).ring == r
  {
    if i.first.Some? {
      assert Splice(r.cells, r.end, []) == r.cells;
    }
  }

  /** The ring after one readchannel call and the taking of what it returned. */
  ghost function Taken(r: Ring, i: Input): (g: GetResult)
    requires Ready(r) && Possible(r, i)
    ensures g.frame.Some? ==> Ready(g.ring) && g.frame.value == BytesOf(i)
    ensures g.frame == None <==> Overfull(r, i)
  {
    TooMuchIff(r, i);
    var read := Read(r, i);
    if read.count <= 0 then NothingRead(r, i); GetResult(read.ring, Some([]))
    else
      if read.count <= LEN then ReadThenGet(r, i); Get(read.ring, read.count)
      else Get(read.ring, read.count)
  }

  /** Every input is possible when it arrives, until one is refused. */
  ghost predicate Feasible(r: Ring, inputs: seq<Input>)
    requires Ready(r)
    decreases |inputs|
  {
    inputs == [] ||
    (Possible(r, inputs[0]) &&
     var g := Taken(r, inputs[0]);
     g.frame == None || Feasible(g.ring, inputs[1..]))
  }

  /** No call finds more bytes waiting than the ring holds right after a frame that filled it. */
  ghost predicate NeverOverfull(r: Ring, inputs: seq<Input>)
    requires Ready(r) && Feasible(r, inputs)
    decreases |inputs|
  {
    inputs == [] ||
    (!Overfull(r, inputs[0]) && NeverOverfull(Taken(r, inputs[0]).ring, inputs[1..]))
  }

  /** What a run of calls delivers, every result taken at once; None once something was refused. */
  ghost function Deliver(r: Ring, inputs: seq<Input>): Option<seq<byte>>
    requires Ready(r) && Feasible(r, inputs)
    decreases |inputs|
  {
    if inputs == [] then Some([])
    else
      var g := Taken(r, inputs[0]);
      if g.frame == None then None
      else
        match Deliver(g.ring, inputs[1..])
        case None => None
        case Some(rest) => Some(g.frame.value + rest)
  }

  function AllBytes(inputs: seq<Input>): seq<byte> {
    if inputs == [] then [] else BytesOf(inputs[0]) + AllBytes(inputs[1..])
  }

  /**
   The ring is a faithful byte FIFO as long as no call finds it overfull: then the bytes taken are
   the bytes read, in order, across any number of wraps; otherwise a frame is refused.
   */
  lemma {:induction false} FaithfulIff(r: Ring, inputs: seq<Input>)
    requires Ready(r) && Feasible(r, inputs)
    ensures Deliver(r, inputs) == if NeverOverfull(r, inputs) then Some(AllBytes(inputs)) else None
    decreases |inputs|
  {
    if inputs != [] && !Overfull(r, inputs[0]) {
      FaithfulIff(Taken(r, inputs[0]).ring, inputs[1..]);
    }
  }

  lemma FreshRing(cells: Cells)
    ensures Ready(Init(cells)) && Init(cells).frame == 0
  {
  }

  /** It does happen: from any ready ring without a last frame, LEN bytes at once and then at least one more than LEN. */
  lemma OverfullReached(r: Ring, x: seq<byte>, y: seq<byte>, z: seq<byte>) returns (inputs: seq<Input>)
    requires Ready(r) && r.frame == 0 && |x| == |y| == LEN && 1 <= |z| <= LEN
    ensures inputs == [Input(Some(x), Some([])), Input(Some(y), Some(z))]
    ensures Feasible(r, inputs) && Deliver(r, inputs) == None
  {
    var first, second := Input(Some(x), Some([])), Input(Some(y), Some(z));
    inputs := [first, second];
    FillRing(r, first, x);
    FullRing(Taken(r, first).ring, second, y, z);
    SecondRefused(r, first, second);
  }

  lemma SecondRefused(r: Ring, first: Input, second: Input)
    requires Ready(r) && Possible(r, first) && !Overfull(r, first)
    requires var full := Taken(r, first).ring; Possible(full, second) && Overfull(full, second)
    ensures Feasible(r, [first, second]) && Deliver(r, [first, second]) == None
  {
    var full := Taken(r, first).ring;
    assert [first, second][1..] == [second];
    assert Feasible(full, [second]) && Deliver(full, [second]) == None;
  }

  lemma FullRing(r: Ring, i: Input, y: seq<byte>, z: seq<byte>)
    requires Ready(r) && r.frame == LEN && r.end == 0 && |y| == LEN && 1 <= |z| <= LEN && i == Input(Some(y), Some(z))
    ensures Possible(r, i) && Overfull(r, i)
  {
  }

  /** A frame that fills the ring leaves `end` at the start. */
  lemma FillRing(r: Ring, i: Input, x: seq<byte>)
    requires Ready(r) && r.frame == 0 && |x| == LEN && i == Input(Some(x), Some([]))
    ensures Possible(r, i) && !Overfull(r, i) && Taken(r, i).ring.frame == LEN && Taken(r, i).ring.end == 0
  {
    TwoReads(r, i, x, []);
  }

  // ---------------------------------------------------------------- frames that stay in the ring

  /** Frames are taken whole: the frame pointer and the ring pointer agree. */
  predicate Steady(r: Ring) {
    Good(r) && r.frame == r.begin
  }

  /** The bytes in the ring, oldest first; with both pointers equal there are none. */
  function Queue(r: Ring): seq<byte>
    requires Good(r)
  {
    if r.begin <= r.end then r.cells[r.begin..r.end] else r.cells[r.begin..] + r.cells[..r.end]
  }

  /** The error codes, which change nothing. */
  lemma ReadRefused(r: Ring, i: Input)
    requires Good(r) && Possible(r, i)
    ensures r.frame == r.end && r.begin != r.end ==> Read(r, i) == ReadResult(r, -2)
    ensures !(r.frame == r.end && r.begin != r.end) && i.first == None ==> Read(r, i) == ReadResult(r, -1)
  {
  }

  /** The first read is asked to end just before the oldest byte, or with the ring; it overwrites nothing. */
  lemma TailFree(r: Ring)
    requires Good(r)
    ensures r.end + Tail(r) == if r.end < r.begin then r.begin else 32768
  {
  }

  /** The result of readchannel counts from the ring pointer on, wherever the frame starts. */
  lemma ReadCounts(r: Ring, i: Input)
    requires Good(r) && Possible(r, i) && !(r.frame == r.end && r.begin != r.end) && i.first.Some?
    ensures Read(r, i).count == |BytesOf(i)| + if r.end < r.begin then r.end + 32768 - r.begin else r.end - r.begin
  {
  }

  /** A frame is taken from the frame pointer on, whatever has been looked at ahead of it. */
  lemma GetFromFrame(r: Ring, ahead: nat, n: nat)
    requires Good(r) && ahead <= 32768 && Get(r, n).frame.Some?
    ensures Get(r.(begin := ahead), n) == Get(r, n)
  {
  }

  /** The bytes read fit, or end with the ring behind a queue that starts with it. */
  predicate Fits(r: Ring, i: Input)
    requires Steady(r) && Possible(r, i)
  {
    |Queue(r)| + |BytesOf(i)| < 32768 || (r.begin == 0 && i.second == None)
  }

  lemma OneReadQueues(r: Ring, x: seq<byte>)
    requires Steady(r) && r.end + |x| <= (if r.begin > r.end then r.begin - 1 else LEN)
    ensures var s := r.(cells := Splice(r.cells, r.end, x), end := r.end + |x|);
            Queue(s) == Queue(r) + x && |Queue(r)| + |x| == |x| + NotRead(r)
  {
    var c := Splice(r.cells, r.end, x);
    assert c[r.end..r.end + |x|] == x && c[..r.end] == r.cells[..r.end];
    if r.begin <= r.end {
      assert c[r.begin..r.end + |x|] == c[r.begin..r.end] + x;
      assert c[r.begin..r.end] == r.cells[r.begin..r.end];
    } else {
      assert c[..r.end + |x|] == c[..r.end] + x;
      assert c[r.begin..] == r.cells[r.begin..];
      assert r.cells[r.begin..] + (r.cells[..r.end] + x) == r.cells[r.begin..] + r.cells[..r.end] + x;
    }
  }

  lemma TwoReadsQueue(r: Ring, x: seq<byte>, y: seq<byte>)
    requires Steady(r) && r.begin <= r.end && |x| == LEN - r.end && |y| < r.begin
    ensures var c := Splice(Splice(r.cells, r.end, x), 0, y);
            var s := Ring(c, r.frame, r.begin, |y|);
            Queue(s) == Queue(r) + (x + y) && |Queue(r)| + |x + y| == |x| + |y| + NotRead(r)
  {
    var c := Splice(Splice(r.cells, r.end, x), 0, y);
    Written(r.cells, r.begin, r.end, x, y, c);
    var q := r.cells[r.begin..r.end];
    assert q + x + y == q + (x + y);
  }

  lemma Written(cells: Cells, begin: nat, end: nat, x: seq<byte>, y: seq<byte>, c: seq<byte>)
    requires |y| < begin <= end <= LEN && |x| == LEN - end && c == Splice(Splice(cells, end, x), 0, y)
    ensures |c| == LEN && c[..|y|] == y && c[begin..] == cells[begin..end] + x
  {
    var one := Splice(cells, end, x);
    assert one[..end] == cells[..end] && one[end..] == x;
    assert c[begin..] == one[begin..] && one[begin..] == one[begin..end] + one[end..];
    assert one[begin..end] == cells[begin..end];
  }

  /** Bytes that fit are appended to those in the ring, and the result counts them all. */
  lemma ReadQueues(r: Ring, i: Input)
    requires Steady(r) && Possible(r, i) && i.first.Some? && Fits(r, i)
    ensures var read := Read(r, i);
            Steady(read.ring) && Queue(read.ring) == Queue(r) + BytesOf(i) && read.count == |Queue(r)| + |BytesOf(i)|
  {
    var x := i.first.value;
    assert x + [] == x;
    if i.second == None {
      OneReadQueues(r, x);
    } else {
      TwoReadsQueue(r, x, i.second.value);
    }
  }

  /** They are if and only if they fit: otherwise bytes are overwritten, or the queue looks empty. */
  lemma ReadQueuesIff(r: Ring, i: Input)
    requires Steady(r) && Possible(r, i) && i.first.Some?
    ensures Queue(Read(r, i).ring) == Queue(r) + BytesOf(i) <==> Fits(r, i)
  {
    if Fits(r, i) {
      ReadQueues(r, i);
    }
  }

  /**
   A frame of bytes in the ring is taken, and leaves the rest, if and only if it does not stand in front of
   the end of a ring that has wrapped; then it is refused although it is there.
   */
  lemma GetTakesIff(r: Ring, n: nat)
    requires Steady(r) && n <= |Queue(r)|
    ensures var g := Get(r, n);
            if r.begin <= r.end || r.begin + n >= 32768 then
              g.frame == Some(Queue(r)[..n]) && Steady(g.ring) && Queue(g.ring) == Queue(r)[n..]
            else g == GetResult(r, None)
  {
    if r.begin <= r.end {
      TakeStraight(r, n);
    } else if r.begin + n >= LEN {
      TakeAcross(r, n, n - (LEN - r.begin));
    }
  }

  lemma TakeStraight(r: Ring, n: nat)
    requires Steady(r) && r.begin <= r.end && n <= r.end - r.begin
    ensures var g := Get(r, n); g.frame == Some(Queue(r)[..n]) && Steady(g.ring) && Queue(g.ring) == Queue(r)[n..]
  {
    var q := Queue(r);
    assert q[..n] == r.cells[r.begin..r.begin + n] && q[n..] == r.cells[r.begin + n..r.end];
    assert r.cells[r.begin..] + r.cells[..0] == r.cells[r.begin..LEN];
  }

  lemma TakeAcross(r: Ring, n: nat, rest: nat)
    requires Steady(r) && r.begin > r.end && n == LEN - r.begin + rest && rest <= r.end
    ensures var g := Get(r, n); g.frame == Some(Queue(r)[..n]) && Steady(g.ring) && Queue(g.ring) == Queue(r)[n..]
  {
    var q := Queue(r);
    assert q[..n] == r.cells[r.begin..] + r.cells[..rest];
    assert q[n..] == r.cells[rest..r.end];
    assert r.cells[LEN..] + r.cells[..r.end] == r.cells[0..r.end];
  }

  /**
   A frame longer than what is in the ring is refused, unless the end of the ring hides that: then bytes that
   were taken before come out again.
   */
  lemma GetBeyondIff(r: Ring, n: nat)
    requires Steady(r) && n > |Queue(r)|
    ensures Get(r, n) == GetResult(r, None) <==>
              r.begin > r.end || n > 32768 || r.begin + n < 32768 || r.begin + n - 32768 > r.end
  {
  }

}
