/**
 The DL/T 645 master as a whole: dlt645_frame_recv puts an answer together from the chunks of the serial
 line and, once it is complete, goes on with the collection.  Request timer and receive buffer are
 shared by the two.
 */
module DltMaster {
  import opened Prelude
  import opened Bytes
  import opened Scanning
  import DltFrame
  import opened DltReassembly
  import opened DltCollector

  /** The collector, the bytes received since the last request, and whether every call so far has returned. */
  datatype Master = Master(col: Col, data: seq<byte>, alive: bool)

  datatype MasterEvent =
    | Line(bytes: seq<byte>, adr: nat)   // a chunk from the line of device `adr`
    | Clock                              // the alarm

  datatype Timed = Timed(ev: MasterEvent, env: Env)

  /** The master afterwards and the requests sent. */
  datatype MasterStep = MasterStep(master: Master, sent: seq<Request>)

  /** The address of the device asked last; the source reads it from the current slot. */
  function Expected(c: Col, eps: Slots): nat {
    if 0 <= c.epIdx < MAXEP && eps[c.epIdx].Some? then eps[c.epIdx].value.adr else 0
  }

  function RxOf(m: Master): Rx {
    Rx(m.col.timerRecv, m.data)
  }

  /** What dlt645_frame_recv makes of a chunk. */
  function VerdictOf(m: Master, bytes: seq<byte>, adr: nat, eps: Slots, cfg: Config, env: Env): Verdict {
    Receive(RxOf(m), DltReassembly.Chunk(bytes, adr, env.now), Expected(m.col, eps), cfg.timeout)
  }

  /** dlt645_frame_recv, and dlt645_catch_alarm with the receive buffer, which a request empties. */
  function React(m: Master, t: Timed, eps: Slots, cfg: Config): MasterStep
    requires Good(m.col)
  {
    if !m.alive then MasterStep(m, [])
    else
      match t.ev
      case Line(bytes, adr) =>
        (match VerdictOf(m, bytes, adr, eps, cfg, t.env)
         case NoReturn => MasterStep(m.(alive := false), [])
         case Verdict(rx, res, _) => Took(m, rx, res, eps, cfg, t.env))
      case Clock =>
        var s := Handle(m.col, Alarm, eps, cfg, t.env);
        var emptied := Expired(m.col, cfg, t.env) || s.col.timerRecv != m.col.timerRecv;
        MasterStep(Master(s.col, if emptied then [] else m.data, true), s.sent)
  }

  /** A chunk that was taken leaves the receiver in state `rx`; a complete frame goes on with the collection. */
  function Took(m: Master, rx: Rx, res: Res, eps: Slots, cfg: Config, env: Env): MasterStep
    requires Good(m.col)
  {
    var col := m.col.(timerRecv := if rx.timer == 0 then 0 else m.col.timerRecv);
    if res == Success && !col.stopped then
      var s := Collect(col, eps, cfg, env);
      MasterStep(Master(s.col, rx.data, true), s.sent)
    else MasterStep(Master(col, rx.data, true), [])
  }

  const FNC_READ_DATA := 0x11
  const FNC_READ_ADDRESS := 0x13
  const FNC_SET_BAUD_RATE := 0x17

  datatype Handler = ReadDataRecv | ReadAddressRecv | SetBaudRateRecv

  /** What a received frame leads to: a response code, and the handler that gets it. */
  datatype Outcome = Outcome(res: Res, handler: Option<Handler>)

  /** dlt645_get_ep_ext by link address: the first slot that has it. */
  function FindLink(eps: Slots, hex: nat, i: nat): (r: Option<Device>)
    requires i <= MAXEP
    decreases MAXEP - i
  {
    if i == MAXEP then None
    else if eps[i].Some? && eps[i].value.adrHex == hex then eps[i]
    else FindLink(eps, hex, i + 1)
  }

  /** The second half of dlt645_frame_recv: the frame must come from the device that was asked. */
  function Dispatch(f: DltFrame.Frame, eps: Slots, expected: nat): Outcome {
    match FindLink(eps, f.adrHex, 0)
    case None => Outcome(Incorrect, None)
    case Some(d) =>
      if d.adr != expected then Outcome(Incorrect, None)
      else if f.fnc == FNC_READ_DATA then Outcome(Success, Some(ReadDataRecv))
      else if f.fnc == FNC_READ_ADDRESS then Outcome(Success, Some(ReadAddressRecv))
      else if f.fnc == FNC_SET_BAUD_RATE then Outcome(Success, Some(SetBaudRateRecv))
      else Outcome(Unknown, None)
  }

  /** What dlt645_frame_recv returns, and which handler it calls. */
  function OutcomeOf(v: Verdict, eps: Slots, expected: nat): Outcome
    requires v.Verdict?
  {
    match v.frame
    case None => Outcome(v.res, None)
    case Some(f) => Dispatch(f, eps, expected)
  }

  // ---------------------------------------------------------------- the object

  /** The source follows the current slot when a chunk is neither late nor too long. */
  predicate KnowsDevice(m: Master, bytes: seq<byte>, eps: Slots, cfg: Config, env: Env) {
    DltReassembly.Refused(RxOf(m), DltReassembly.Chunk(bytes, 0, env.now), cfg.timeout)
    || (0 <= m.col.epIdx < MAXEP && eps[m.col.epIdx].Some?)
  }

  class Station {
    const collector: Collector
    const receiver: Receiver

    ghost predicate Valid()
      reads this, collector, receiver
    {
      receiver.Valid() && receiver.timer == collector.timerRecv && receiver.timeout == collector.cfg.timeout
      && Good(collector.View()) && (collector.timerRecv == 0 ==> receiver.len == 0)
    }

    ghost function View(): Master
      requires Valid()
      reads this, collector, receiver, receiver.buff
    {
      Master(collector.View(), receiver.View().data, true)
    }

    /** The static initialisation of dlt645.c: nothing asked, nothing received. */
    constructor (collector: Collector, receiver: Receiver)
      requires receiver.Valid() && receiver.timer == collector.timerRecv && receiver.timeout == collector.cfg.timeout
      requires Good(collector.View()) && (collector.timerRecv == 0 ==> receiver.len == 0)
      ensures Valid() && View() == Master(collector.View(), receiver.View().data, true)
      ensures this.collector == collector && this.receiver == receiver
    {
      this.collector, this.receiver := collector, receiver;
    }

    /** dlt645_frame_recv. */
    method FrameRecv(bytes: seq<byte>, adr: nat, env: Env) returns (res: Res, handler: Option<Handler>)
      requires Valid() && KnowsDevice(View(), bytes, collector.eps, collector.cfg, env)
      requires VerdictOf(View(), bytes, adr, collector.eps, collector.cfg, env) != NoReturn
      requires env.now >= collector.cfg.timeout
      modifies collector, receiver, receiver.buff
      ensures Valid() && collector.eps == old(collector.eps)
      ensures var s := React(old(View()), Timed(Line(bytes, adr), env), old(collector.eps), collector.cfg);
              View() == s.master && collector.wire == old(collector.wire) + s.sent
      ensures Outcome(res, handler) == OutcomeOf(VerdictOf(old(View()), bytes, adr, old(collector.eps), collector.cfg, env),
                                                 old(collector.eps), Expected(old(collector.View()), old(collector.eps)))
    {
      var expected := 0;
      if 0 <= collector.epIdx && collector.eps[collector.epIdx].Some? {
        expected := collector.eps[collector.epIdx].value.adr;
      }
      var received, frame := receiver.FrameRecv(DltReassembly.Chunk(bytes, adr, env.now), expected);
      res, handler := received, None;
      if frame.Some? {
        var outcome := Dispatch(frame.value, collector.eps, expected);
        res, handler := outcome.res, outcome.handler;
      }
      collector.timerRecv := receiver.timer;
      if received == Success && !collector.stopped {
        CollectGood(collector.View(), collector.eps, collector.cfg, env);
        collector.CollectData(env);
        receiver.timer := collector.timerRecv;
      }
    }

    /** dlt645_catch_alarm, which empties the receive buffer if a device did not answer or is asked. */
    method CatchAlarm(env: Env)
      requires Valid()
      modifies collector, receiver
      ensures Valid() && collector.eps == old(collector.eps)
      ensures var s := React(old(View()), Timed(Clock, env), old(collector.eps), collector.cfg);
              View() == s.master && collector.wire == old(collector.wire) + s.sent
    {
      var expired := collector.timerRecv > 0 && env.now - collector.timerRecv >= collector.cfg.timeout;
      var before := collector.timerRecv;
      HandleGood(collector.View(), Alarm, collector.eps, collector.cfg, env);
      collector.CatchAlarm(env);
      if expired || collector.timerRecv != before {
        receiver.len := 0;
      }
      receiver.timer := collector.timerRecv;
    }
  }

  // ---------------------------------------------------------------- the collector's view

  /** What the collector makes of the event. */
  function TickOf(m: Master, t: Timed, eps: Slots): Tick {
    match t.ev
    case Line(bytes, adr) =>
      Tick(DltCollector.Chunk(|m.data| + |bytes| <= BUFF_SIZE,
                              adr == Expected(m.col, eps) && DltFrame.Parse(m.data + bytes, 0).Done?
                              && DltFrame.Parse(m.data + bytes, 0).res == Success),
           t.env)
    case Clock => Tick(Alarm, t.env)
  }

  /** The source is still running after the event. */
  predicate Returns(m: Master, t: Timed, eps: Slots, cfg: Config) {
    m.alive && (t.ev.Line? ==> VerdictOf(m, t.ev.bytes, t.ev.adr, eps, cfg, t.env) != NoReturn)
  }

  /** The master does what the collector does on the tick, as long as the source is running. */
  lemma ReactRefines(m: Master, t: Timed, eps: Slots, cfg: Config)
    requires Good(m.col)
    ensures var s := React(m, t, eps, cfg);
            var tick := TickOf(m, t, eps);
            && Good(s.master.col) && s.master.alive == Returns(m, t, eps, cfg)
            && Step(s.master.col, s.sent)
                 == if Returns(m, t, eps, cfg) then Handle(m.col, tick.ev, eps, cfg, tick.env) else Step(m.col, [])
  {
    HandleGood(m.col, TickOf(m, t, eps).ev, eps, cfg, t.env);
  }

  /** Everything the master does on a sequence of events. */
  function Feed(m: Master, ts: seq<Timed>, eps: Slots, cfg: Config): (r: MasterStep)
    requires Good(m.col)
    ensures Good(r.master.col)
    decreases |ts|
  {
    if ts == [] then MasterStep(m, [])
    else
      ReactRefines(m, ts[0], eps, cfg);
      var s := React(m, ts[0], eps, cfg);
      var r := Feed(s.master, ts[1..], eps, cfg);
      MasterStep(r.master, s.sent + r.sent)
  }

  /** What the collector sees: the events up to the one from which the source does not return. */
  function TicksOf(m: Master, ts: seq<Timed>, eps: Slots, cfg: Config): seq<Tick>
    requires Good(m.col)
    decreases |ts|
  {
    if ts == [] || !Returns(m, ts[0], eps, cfg) then []
    else
      ReactRefines(m, ts[0], eps, cfg);
      [TickOf(m, ts[0], eps)] + TicksOf(React(m, ts[0], eps, cfg).master, ts[1..], eps, cfg)
  }

  /** Every run of the master, whatever bytes arrive, is a run of the collector. */
  lemma {:induction false} FeedRefines(m: Master, ts: seq<Timed>, eps: Slots, cfg: Config)
    requires Good(m.col)
    ensures var r := Feed(m, ts, eps, cfg);
            Step(r.master.col, r.sent) == Ticks(m.col, TicksOf(m, ts, eps, cfg), eps, cfg)
    decreases |ts|
  {
    if ts != [] {
      var s := React(m, ts[0], eps, cfg);
      var tick := TickOf(m, ts[0], eps);
      ReactRefines(m, ts[0], eps, cfg);
      if Returns(m, ts[0], eps, cfg) {
        FeedRefines(s.master, ts[1..], eps, cfg);
        TicksCons(m.col, tick, TicksOf(s.master, ts[1..], eps, cfg), eps, cfg);
      } else {
        HungForever(s.master, ts[1..], eps, cfg);
      }
    }
  }

  /** After a call that does not return nothing happens any more. */
  lemma {:induction false} HungForever(m: Master, ts: seq<Timed>, eps: Slots, cfg: Config)
    requires Good(m.col) && !m.alive
    ensures Feed(m, ts, eps, cfg) == MasterStep(m, [])
    decreases |ts|
  {
    if ts != [] {
      assert React(m, ts[0], eps, cfg) == MasterStep(m, []);
      HungForever(m, ts[1..], eps, cfg);
    }
  }

  /** A run hangs exactly if one of its chunks does, the ones before it received. */
  lemma {:induction false} HangsIff(m: Master, ts: seq<Timed>, eps: Slots, cfg: Config)
    requires Good(m.col) && m.alive
    ensures !Feed(m, ts, eps, cfg).master.alive <==>
              exists i | 0 <= i < |ts| :: Hangs(Feed(m, ts[..i], eps, cfg).master, ts[i], eps, cfg)
    decreases |ts|
  {
    if ts != [] {
      var before, t := ts[..|ts| - 1], ts[|ts| - 1];
      var r := Feed(m, before, eps, cfg);
      assert ts == before + [t];
      FeedLast(m, before, t, eps, cfg);
      ReactRefines(r.master, t, eps, cfg);
      HangsIff(m, before, eps, cfg);
      assert forall i | 0 <= i < |before| :: ts[..i] == before[..i] && ts[i] == before[i];
    }
  }

  /** The chunk is the one from which the source does not return. */
  predicate Hangs(m: Master, t: Timed, eps: Slots, cfg: Config) {
    m.alive && t.ev.Line?
    && NeverReturns(RxOf(m), DltReassembly.Chunk(t.ev.bytes, t.ev.adr, t.env.now), Expected(m.col, eps), cfg.timeout)
  }

  /** Start, address, start, control, and a length of 246 with all its data: one chunk hangs a master that waits for an answer. */
  const TooLong: seq<byte> := [START, 0, 0, 0, 0, 0, 0, START, 0, 246] + seq(248, _ => 0)

  lemma HangReached(m: Master, env: Env, ts: seq<Timed>, eps: Slots, cfg: Config)
    requires m.alive && Waiting(m.col, eps) && m.data == [] && env.now < m.col.timerRecv + cfg.timeout
    ensures var t := Timed(Line(TooLong, Expected(m.col, eps)), env);
            && Hangs(m, t, eps, cfg)
            && Feed(m, [t] + ts, eps, cfg) == MasterStep(m.(alive := false), [])
  {
    var t := Timed(Line(TooLong, Expected(m.col, eps)), env);
    assert [] + TooLong == TooLong;
    assert Scan(TooLong, 0) == 1;
    DltReassembly.NeverReturnsIff(RxOf(m), DltReassembly.Chunk(TooLong, Expected(m.col, eps), env.now), Expected(m.col, eps), cfg.timeout);
    HungForever(m.(alive := false), ts, eps, cfg);
    assert ([t] + ts)[1..] == ts;
  }

  lemma TicksCons(c: Col, t: Tick, ts: seq<Tick>, eps: Slots, cfg: Config)
    requires Good(c)
    ensures var s := Handle(c, t.ev, eps, cfg, t.env);
            Good(s.col) && Ticks(c, [t] + ts, eps, cfg) == Step(Ticks(s.col, ts, eps, cfg).col, s.sent + Ticks(s.col, ts, eps, cfg).sent)
  {
    HandleGood(c, t.ev, eps, cfg, t.env);
    assert ([t] + ts)[1..] == ts;
  }

  function After(a: MasterStep, b: MasterStep): MasterStep {
    MasterStep(b.master, a.sent + b.sent)
  }

  lemma {:induction false} FeedLast(m: Master, ts: seq<Timed>, t: Timed, eps: Slots, cfg: Config)
    requires Good(m.col)
    ensures var r := Feed(m, ts, eps, cfg);
            Feed(m, ts + [t], eps, cfg) == After(r, React(r.master, t, eps, cfg))
    decreases |ts|
  {
    if ts == [] {
      assert [] + [t] == [t];
      FeedOne(m, t, eps, cfg);
    } else {
      var first := React(m, ts[0], eps, cfg);
      ReactRefines(m, ts[0], eps, cfg);
      FeedLast(first.master, ts[1..], t, eps, cfg);
      var r := Feed(first.master, ts[1..], eps, cfg);
      AfterTwice(first, r, React(r.master, t, eps, cfg));
      assert (ts + [t])[1..] == ts[1..] + [t];
    }
  }

  lemma AfterTwice(a: MasterStep, b: MasterStep, c: MasterStep)
    ensures After(a, After(b, c)) == After(After(a, b), c)
  {
  }

  lemma FeedOne(m: Master, t: Timed, eps: Slots, cfg: Config)
    requires Good(m.col)
    ensures Feed(m, [t], eps, cfg) == React(m, t, eps, cfg)
    ensures [] + React(m, t, eps, cfg).sent == React(m, t, eps, cfg).sent
  {
    ReactRefines(m, t, eps, cfg);
    assert Feed(React(m, t, eps, cfg).master, [], eps, cfg) == MasterStep(React(m, t, eps, cfg).master, []);
    assert React(m, t, eps, cfg).sent + [] == React(m, t, eps, cfg).sent;
  }

  // ---------------------------------------------------------------- whose answer, and with which bytes

  /** With no answer awaited a collecting step starts the request timer exactly if it sends a request, of the slot it has come to. */
  lemma {:induction false} CollectSends(c: Col, eps: Slots, cfg: Config, env: Env)
    requires Good(c) && c.timerRecv == 0 && env.now > 0
    ensures var s := Collect(c, eps, cfg, env);
            && s.col.timerRecv == (if s.sent == [] then 0 else env.now) && |s.sent| <= 1
            && (s.sent != [] ==> s.col.timerDcoll == 0 && Expected(s.col, eps) == s.sent[0].adr)
    decreases Measure(c)
  {
    if !c.stopped && c.timerDcoll == 0 {
      var slot := Slot(c, eps);
      if slot < MAXEP && eps[slot].Some? && (!eps[slot].value.ready || c.dataIdx + 1 >= |eps[slot].value.ids|) {
        CollectSends(c.(epIdx := slot, dataIdx := -1), eps, cfg, env);
      }
    }
  }

  /** While an answer is awaited a round is on, and the current slot holds the device with address `adr`. */
  predicate Expects(c: Col, eps: Slots, adr: nat) {
    c.timerRecv > 0 ==> c.timerDcoll == 0 && Expected(c, eps) == adr
  }

  /** The time, and positive timeouts and periods. */
  predicate Running(cfg: Config, env: Env) {
    env.now > cfg.period && cfg.timeout > 0 && env.now >= cfg.timeout
  }

  lemma StepExpects(c: Col, ev: Event, eps: Slots, cfg: Config, env: Env, adr: nat)
    requires Good(c) && Expects(c, eps, adr) && Running(cfg, env) && cfg.period > 0
    ensures var s := Handle(c, ev, eps, cfg, env);
            |s.sent| <= 1 && Expects(s.col, eps, if s.sent == [] then adr else s.sent[0].adr)
            && (ev.Alarm? && !Expired(c, cfg, env) ==> (s.sent == [] <==> s.col.timerRecv == c.timerRecv))
  {
    match ev
    case Chunk(_, _) => CollectSends(c.(timerRecv := 0), eps, cfg, env);
    case Alarm =>
      AlarmExpects(c, eps, cfg, env, adr);
      var s := BeforeSync(c, eps, cfg, env);
      SyncKeeps(s.col, eps, cfg, env, 0);
      if s.col.timerRecv > 0 {
        WaitingNoSync(s.col, eps, cfg, env, 0);
      }
  }

  lemma AlarmExpects(c: Col, eps: Slots, cfg: Config, env: Env, adr: nat)
    requires Good(c) && Expects(c, eps, adr) && Running(cfg, env) && cfg.period > 0
    ensures var s := BeforeSync(c, eps, cfg, env);
            && |s.sent| <= 1 && Good(s.col) && Expects(s.col, eps, if s.sent == [] then adr else s.sent[0].adr)
            && (s.col.timerRecv > 0 ==> env.now - s.col.timerRecv < cfg.timeout)
            && (!Expired(c, cfg, env) ==> (s.sent == [] <==> s.col.timerRecv == c.timerRecv))
  {
    CollectGood(c.(timerRecv := 0, dataIdx := -1), eps, cfg, env);
    if Expired(c, cfg, env) {
      var d := c.(timerRecv := 0, dataIdx := -1);
      var first := GiveUp(c, eps, cfg, env);
      CollectSends(d, eps, cfg, env);
      GaveUp(d, eps, cfg, env);
      NotDue(first.col, eps, cfg, env);
      assert first.sent + [] == first.sent;
    } else if c.timerDcoll > 0 && env.now - c.timerDcoll >= cfg.period {
      OnlyStarts(c, env, eps, cfg);
      CollectGood(c.(timerDcoll := 0), eps, cfg, env);
      CollectSends(c.(timerDcoll := 0), eps, cfg, env);
    } else {
      assert BeforeSync(c, eps, cfg, env) == Step(c, []);
    }
  }

  /** The last of the requests `sent`, or `adr`. */
  function LastAsked(sent: seq<Request>, adr: nat): nat {
    if sent == [] then adr else sent[|sent| - 1].adr
  }

  /** Nothing is kept for an answer that is not awaited. */
  predicate Clean(m: Master) {
    m.col.timerRecv == 0 ==> m.data == []
  }

  /** The alarm drops the bytes received so far exactly if a request goes out or its answer has not come in time. */
  lemma ClockDrops(m: Master, env: Env, eps: Slots, cfg: Config, adr: nat)
    requires m.alive && Good(m.col) && Expects(m.col, eps, adr) && Clean(m) && Running(cfg, env) && cfg.period > 0
    ensures var r := React(m, Timed(Clock, env), eps, cfg);
            && r.master.data == (if r.sent != [] || (m.col.timerRecv > 0 && env.now - m.col.timerRecv >= cfg.timeout) then [] else m.data)
            && Clean(r.master) && |r.sent| <= 1 && (r.sent != [] ==> r.master.data == [])
  {
    StepExpects(m.col, Alarm, eps, cfg, env, adr);
  }

  lemma ReactExpects(m: Master, t: Timed, eps: Slots, cfg: Config, adr: nat)
    requires Good(m.col) && Expects(m.col, eps, adr) && Clean(m) && Running(cfg, t.env) && cfg.period > 0
    ensures var r := React(m, t, eps, cfg);
            && Good(r.master.col) && Expects(r.master.col, eps, LastAsked(r.sent, adr)) && Clean(r.master)
            && (r.sent != [] ==> r.master.data == [])
  {
    ReactRefines(m, t, eps, cfg);
    StepExpects(m.col, TickOf(m, t, eps).ev, eps, cfg, t.env, adr);
    if m.alive && t.ev.Clock? {
      ClockDrops(m, t.env, eps, cfg, adr);
    }
  }

  /**
   In every run, whatever bytes arrive: while an answer is awaited, the one device whose bytes are kept is the
   one asked last, and every request goes out with nothing kept from before.
   */
  lemma {:induction false} RunExpects(m: Master, ts: seq<Timed>, eps: Slots, cfg: Config, adr: nat)
    requires Good(m.col) && Expects(m.col, eps, adr) && Clean(m) && cfg.period > 0
    requires forall i | 0 <= i < |ts| :: Running(cfg, ts[i].env)
    ensures var r := Feed(m, ts, eps, cfg); Expects(r.master.col, eps, LastAsked(r.sent, adr)) && Clean(r.master)
    decreases |ts|
  {
    if ts != [] {
      var s := React(m, ts[0], eps, cfg);
      ReactExpects(m, ts[0], eps, cfg, adr);
      RunExpects(s.master, ts[1..], eps, cfg, LastAsked(s.sent, adr));
    }
  }

  // ---------------------------------------------------------------- a round driven by bytes

  /** All bytes of a run of chunks. */
  function AllBytes(cs: seq<Timed>): seq<byte>
    requires forall i | 0 <= i < |cs| :: cs[i].ev.Line?
  {
    if cs == [] then [] else AllBytes(cs[..|cs| - 1]) + cs[|cs| - 1].ev.bytes
  }

  /** Chunks in time, from the device that was asked. */
  predicate FromDevice(m: Master, cs: seq<Timed>, eps: Slots, cfg: Config) {
    forall i | 0 <= i < |cs| ::
      cs[i].ev.Line? && cs[i].ev.adr == Expected(m.col, eps) && 0 < cs[i].env.now < m.col.timerRecv + cfg.timeout && cs[i].env.taken
  }

  /** The answer `cs` is a frame `f`, behind start-free garbage and in front of `tail`, that its last chunk completes. */
  predicate AnswerOf(m: Master, cs: seq<Timed>, eps: Slots, cfg: Config, g: seq<byte>, f: DltFrame.Frame, tail: seq<byte>) {
    && cs != [] && FromDevice(m, cs, eps, cfg) && NoStart(g) && DltFrame.Fits(f)
    && AllBytes(cs) == g + DltFrame.Build(f) + tail && |AllBytes(cs)| <= BUFF_SIZE
    && |AllBytes(cs[..|cs| - 1])| < |g| + |DltFrame.Build(f)|
  }

  ghost predicate Answer(m: Master, cs: seq<Timed>, eps: Slots, cfg: Config) {
    exists g, f, tail :: AnswerOf(m, cs, eps, cfg, g, f, tail)
  }

  lemma SplitLast(m: Master, cs: seq<Timed>, eps: Slots, cfg: Config)
    requires cs != [] && FromDevice(m, cs, eps, cfg)
    ensures var before, t := cs[..|cs| - 1], cs[|cs| - 1];
            && cs == before + [t] && FromDevice(m, before, eps, cfg) && FromDevice(m, [t], eps, cfg)
            && t.ev.Line? && AllBytes(cs) == AllBytes(before) + t.ev.bytes
  {
  }

  lemma PartOf(a: seq<byte>, x: seq<byte>, w: seq<byte>)
    requires a + x <= w && a + x != w
    ensures a <= w && a != w && |a| + |x| <= |w|
  {
    assert a == w[..|a|];
  }

  /** No two devices share a link address. */
  predicate LinksDiffer(eps: Slots) {
    forall i, j | 0 <= i < j < MAXEP && eps[i].Some? && eps[j].Some? :: eps[i].value.adrHex != eps[j].value.adrHex
  }

  lemma {:induction false} FindsLink(eps: Slots, i: nat, k: nat)
    requires LinksDiffer(eps) && i <= k < MAXEP && eps[k].Some?
    ensures FindLink(eps, eps[k].value.adrHex, i) == eps[k]
    decreases k - i
  {
    if i < k {
      FindsLink(eps, i + 1, k);
    }
  }

  lemma {:induction false} FindsNone(eps: Slots, hex: nat, i: nat)
    requires i <= MAXEP && forall k | i <= k < MAXEP && eps[k].Some? :: eps[k].value.adrHex != hex
    ensures FindLink(eps, hex, i) == None
    decreases MAXEP - i
  {
    if i < MAXEP {
      FindsNone(eps, hex, i + 1);
    }
  }

  /** A frame of the device that was asked gets to the handler of its function, one of any other device to none. */
  lemma DispatchIff(f: DltFrame.Frame, eps: Slots, k: nat, expected: nat)
    requires LinksDiffer(eps) && k < 128 && eps[k].Some? && f.adrHex == eps[k].value.adrHex
    ensures Dispatch(f, eps, expected)
              == if eps[k].value.adr != expected then Outcome(Incorrect, None)
                 else if f.fnc == 0x11 then Outcome(Success, Some(ReadDataRecv))
                 else if f.fnc == 0x13 then Outcome(Success, Some(ReadAddressRecv))
                 else if f.fnc == 0x17 then Outcome(Success, Some(SetBaudRateRecv))
                 else Outcome(Unknown, None)
  {
    FindsLink(eps, 0, k);
  }

  /** A frame of no known device is refused. */
  lemma StrangerRefused(f: DltFrame.Frame, eps: Slots, expected: nat)
    requires forall k | 0 <= k < 128 && eps[k].Some? :: eps[k].value.adrHex != f.adrHex
    ensures Dispatch(f, eps, expected) == Outcome(Incorrect, None)
  {
    FindsNone(eps, f.adrHex, 0);
  }

  /** A chunk that does not complete the frame is kept. */
  lemma KeepsPart(m: Master, t: Timed, eps: Slots, cfg: Config, p: DltFrame.Parsed)
    requires m.alive && Waiting(m.col, eps) && FromDevice(m, [t], eps, cfg)
    requires t.ev.Line? && |m.data| + |t.ev.bytes| <= BUFF_SIZE
    requires p == DltFrame.Parse(m.data + t.ev.bytes, 0) && p.Done? && p.res == LenInvalid
    ensures React(m, t, eps, cfg) == MasterStep(Master(m.col, m.data + t.ev.bytes, true), [])
  {
    assert [t][0] == t;
  }

  lemma {:induction false} KeepsParts(m: Master, cs: seq<Timed>, eps: Slots, cfg: Config, g: seq<byte>, f: DltFrame.Frame)
    requires m.alive && Waiting(m.col, eps) && m.data == [] && FromDevice(m, cs, eps, cfg) && NoStart(g) && |f.data| <= DltFrame.DATA_MAX
    requires |g| + |DltFrame.Build(f)| <= BUFF_SIZE
    requires AllBytes(cs) <= g + DltFrame.Build(f) && AllBytes(cs) != g + DltFrame.Build(f)
    ensures Feed(m, cs, eps, cfg) == MasterStep(Master(m.col, AllBytes(cs), true), [])
  {
    if cs != [] {
      var before, t := cs[..|cs| - 1], cs[|cs| - 1];
      SplitLast(m, cs, eps, cfg);
      PartOf(AllBytes(before), t.ev.bytes, g + DltFrame.Build(f));
      KeepsParts(m, before, eps, cfg, g, f);
      LastPart(m, before, t, eps, cfg, g, f, AllBytes(before));
    }
  }

  lemma LastPart(m: Master, before: seq<Timed>, t: Timed, eps: Slots, cfg: Config, g: seq<byte>, f: DltFrame.Frame, data: seq<byte>)
    requires m.alive && Waiting(m.col, eps) && FromDevice(m, [t], eps, cfg) && NoStart(g) && |f.data| <= DltFrame.DATA_MAX
    requires t.ev.Line? && |data| + |t.ev.bytes| <= BUFF_SIZE
    requires var b := data + t.ev.bytes; b <= g + DltFrame.Build(f) && b != g + DltFrame.Build(f)
    requires Feed(m, before, eps, cfg) == MasterStep(Master(m.col, data, true), [])
    ensures Feed(m, before + [t], eps, cfg) == MasterStep(Master(m.col, data + t.ev.bytes, true), [])
  {
    assert [t][0] == t;
    FeedLast(m, before, t, eps, cfg);
    PrefixLenInvalid(data + t.ev.bytes, g, f);
    KeepsPart(Master(m.col, data, true), t, eps, cfg, DltFrame.Parse(data + t.ev.bytes, 0));
  }

  /** The completing chunk goes on with the collection. */
  lemma Completes(m: Master, t: Timed, eps: Slots, cfg: Config, g: seq<byte>, f: DltFrame.Frame, tail: seq<byte>)
    requires m.alive && Waiting(m.col, eps) && FromDevice(m, [t], eps, cfg) && NoStart(g) && DltFrame.Fits(f)
    requires t.ev.Line? && m.data + t.ev.bytes == g + DltFrame.Build(f) + tail && |m.data| + |t.ev.bytes| <= BUFF_SIZE
    ensures var s := Collect(m.col.(timerRecv := 0), eps, cfg, t.env);
            React(m, t, eps, cfg) == MasterStep(Master(s.col, [], true), s.sent)
  {
    var b, w := m.data + t.ev.bytes, DltFrame.Build(f);
    assert [t][0] == t;
    assert b[0..|g|] == g && b[|g|..|g| + |w|] == w;
    DltFrame.ParseUndoesBuild(b, 0, |g|, f);
  }

  /** An answer, in whatever chunks, is one step of the collection. */
  lemma AnswerCollects(m: Master, cs: seq<Timed>, eps: Slots, cfg: Config)
    requires m.alive && Waiting(m.col, eps) && m.data == [] && Answer(m, cs, eps, cfg)
    ensures var s := Collect(m.col.(timerRecv := 0), eps, cfg, cs[|cs| - 1].env);
            cs != [] && Feed(m, cs, eps, cfg) == MasterStep(Master(s.col, [], true), s.sent)
  {
    var g, f, tail :| AnswerOf(m, cs, eps, cfg, g, f, tail);
    var before, t := cs[..|cs| - 1], cs[|cs| - 1];
    SplitLast(m, cs, eps, cfg);
    BeforeLast(AllBytes(before), t.ev.bytes, g + DltFrame.Build(f), tail);
    KeepsParts(m, before, eps, cfg, g, f);
    LastCompletes(m, before, t, eps, cfg, g, f, tail, AllBytes(before));
  }

  lemma BeforeLast(a: seq<byte>, x: seq<byte>, w: seq<byte>, tail: seq<byte>)
    requires a + x == w + tail && |a| < |w|
    ensures a <= w && a != w
  {
    assert a == (w + tail)[..|a|] == w[..|a|];
  }

  lemma LastCompletes(m: Master, before: seq<Timed>, t: Timed, eps: Slots, cfg: Config,
                      g: seq<byte>, f: DltFrame.Frame, tail: seq<byte>, data: seq<byte>)
    requires m.alive && Waiting(m.col, eps) && FromDevice(m, [t], eps, cfg) && NoStart(g) && DltFrame.Fits(f)
    requires t.ev.Line? && data + t.ev.bytes == g + DltFrame.Build(f) + tail && |data| + |t.ev.bytes| <= BUFF_SIZE
    requires Feed(m, before, eps, cfg) == MasterStep(Master(m.col, data, true), [])
    ensures var s := Collect(m.col.(timerRecv := 0), eps, cfg, t.env);
            Feed(m, before + [t], eps, cfg) == MasterStep(Master(s.col, [], true), s.sent)
  {
    assert [t][0] == t;
    FeedLast(m, before, t, eps, cfg);
    Completes(Master(m.col, data, true), t, eps, cfg, g, f, tail);
  }

  /** Answers one after the other. */
  function FeedAll(m: Master, answers: seq<seq<Timed>>, eps: Slots, cfg: Config): (r: MasterStep)
    requires Good(m.col)
    ensures Good(r.master.col)
    decreases |answers|
  {
    if answers == [] then MasterStep(m, [])
    else
      var s := Feed(m, answers[0], eps, cfg);
      var r := FeedAll(s.master, answers[1..], eps, cfg);
      MasterStep(r.master, s.sent + r.sent)
  }

  ghost predicate AllAnswers(m: Master, answers: seq<seq<Timed>>, eps: Slots, cfg: Config)
    requires Good(m.col)
    decreases |answers|
  {
    answers == [] ||
    (Answer(m, answers[0], eps, cfg) && AllAnswers(Feed(m, answers[0], eps, cfg).master, answers[1..], eps, cfg))
  }

  lemma AnswerTaken(m: Master, cs: seq<Timed>, eps: Slots, cfg: Config)
    requires Answer(m, cs, eps, cfg)
    ensures cs != [] && cs[|cs| - 1].env.taken && cs[|cs| - 1].env.now > 0
  {
  }

  lemma CollectShrinks(c: Col, eps: Slots, cfg: Config, env: Env)
    requires Waiting(c, eps) && env.taken && env.now > 0
    ensures var s := Collect(c.(timerRecv := 0), eps, cfg, env);
            if s.col.timerDcoll > 0 then Idle(s.col) && s.sent == [] == Left(c, eps)
            else Waiting(s.col, eps) && Left(c, eps) == s.sent + Left(s.col, eps) && |s.sent| == 1
  {
    CollectTakes(c.(timerRecv := 0), eps, cfg, env);
    GroupsNonEmpty(eps, c.epIdx + 1);
    LeftShrinks(c, Collect(c.(timerRecv := 0), eps, cfg, env), eps, env);
  }

  /** One answer takes the next request, or ends the round. */
  lemma AnswerTakes(m: Master, cs: seq<Timed>, eps: Slots, cfg: Config)
    requires m.alive && Waiting(m.col, eps) && m.data == [] && Answer(m, cs, eps, cfg)
    ensures var r := Feed(m, cs, eps, cfg);
            && r.master.alive && r.master.data == []
            && if r.master.col.timerDcoll > 0 then Idle(r.master.col) && r.sent == [] == Left(m.col, eps)
               else Waiting(r.master.col, eps) && Left(m.col, eps) == r.sent + Left(r.master.col, eps) && |r.sent| == 1
  {
    AnswerCollects(m, cs, eps, cfg);
    AnswerTaken(m, cs, eps, cfg);
    CollectShrinks(m.col, eps, cfg, cs[|cs| - 1].env);
  }

  /** As many answers as there are requests left, and one, end the round with all of them sent. */
  lemma {:induction false} Drains(m: Master, answers: seq<seq<Timed>>, eps: Slots, cfg: Config)
    requires m.alive && Waiting(m.col, eps) && m.data == [] && AllAnswers(m, answers, eps, cfg) && |answers| == |Left(m.col, eps)| + 1
    ensures var r := FeedAll(m, answers, eps, cfg);
            Idle(r.master.col) && r.master.data == [] && r.sent == Left(m.col, eps)
    decreases |answers|
  {
    var s := Feed(m, answers[0], eps, cfg);
    AnswerTakes(m, answers[0], eps, cfg);
    if s.master.col.timerDcoll > 0 {
      assert answers[1..] == [];
      assert FeedAll(m, answers, eps, cfg) == MasterStep(s.master, []);
    } else {
      Drains(s.master, answers[1..], eps, cfg);
    }
  }

  /**
   A whole round on the level of bytes: the alarm opens it, and each request is answered by a frame
   in any chunks, in time.  Exactly the requests of all ready devices are sent, in slot order, each
   once, and the master is idle again with nothing left in its buffer.
   */
  lemma RoundOfBytes(m: Master, env: Env, answers: seq<seq<Timed>>, eps: Slots, cfg: Config)
    requires m.alive && Idle(m.col) && m.data == [] && Due(m.col, cfg, env) && env.taken && cfg.period > 0
    requires var s := React(m, Timed(Clock, env), eps, cfg);
             Good(s.master.col) && AllAnswers(s.master, answers, eps, cfg) && |answers| == |AllRequests(eps)|
    ensures var s := React(m, Timed(Clock, env), eps, cfg);
            var r := FeedAll(s.master, answers, eps, cfg);
            Idle(r.master.col) && r.master.data == [] && s.sent + r.sent == AllRequests(eps)
  {
    var s := React(m, Timed(Clock, env), eps, cfg);
    var step := Handle(m.col, Alarm, eps, cfg, env);
    BeginTakes(m.col, env, eps, cfg);
    GroupsNonEmpty(eps, 0);
    if step.col.timerDcoll == 0 {
      FirstOfAll(step, Groups(eps, 0), eps, env);
      Drains(s.master, answers, eps, cfg);
    }
  }

}
