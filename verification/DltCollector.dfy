/**
 The round-robin data collector of the DL/T 645 master: dlt645_collect_data, dlt645_catch_alarm with
 the time synchronisation it starts, and the request timer of dlt645_frame_recv in
 unitlinks/src/dlt645.c.
 */
module DltCollector {
  import opened Prelude

  const MAXEP := 128

  /**
   A device: its address here, its address on the line, whether it is connected, what it is asked
   for, and its time synchronisation period.
   */
  datatype Device = Device(adr: nat, adrHex: nat, ready: bool, ids: seq<nat>, tSync: nat)

  type Slots = s: seq<Option<Device>> | |s| == MAXEP witness seq(MAXEP, _ => None)

  datatype Request = Request(adr: nat, id: nat)

  type Timers = s: seq<nat> | |s| == MAXEP witness seq(MAXEP, _ => 0)

  /** The collector's globals and the time synchronisation timer of each slot; a timer is 0 while it is off. */
  datatype Col = Col(stopped: bool, timerDcoll: nat, epIdx: int, dataIdx: int, timerRecv: nat, sync: Timers)

  /** The request timeout and the collection period. */
  datatype Config = Config(timeout: nat, period: nat)

  /** The new globals and the requests handed to the lower layer. */
  datatype Step = Step(col: Col, sent: seq<Request>)

  /** The clock, and whether the lower layer takes a request. */
  datatype Env = Env(now: nat, taken: bool)

  predicate Good(c: Col) {
    -1 <= c.epIdx < MAXEP && -1 <= c.dataIdx && (c.dataIdx >= 0 ==> c.epIdx >= 0)
  }

  /** The next used slot from `i` on. */
  function NextSlot(eps: Slots, i: nat): (r: nat)
    requires i <= MAXEP
    ensures i <= r <= MAXEP && (r < MAXEP ==> eps[r].Some?) && forall j | i <= j < r :: eps[j].None?
    decreases MAXEP - i
  {
    if i == MAXEP || eps[i].Some? then i else NextSlot(eps, i + 1)
  }

  /** dlt645_read_data_send: refused while an answer is awaited. */
  function Ask(c: Col, r: Request, cfg: Config, env: Env): Step {
    if c.timerRecv > 0 && env.now - c.timerRecv < cfg.timeout then Step(c, [])
    else if env.taken then Step(c.(timerRecv := env.now), [r])
    else Step(c.(timerRecv := 0), [])
  }

  function Measure(c: Col): int {
    2 * (MAXEP - c.epIdx) + if c.dataIdx != -1 then 1 else 0
  }

  /** dlt645_collect_data. */
  function Collect(c: Col, eps: Slots, cfg: Config, env: Env): Step
    requires Good(c)
    decreases Measure(c)
  {
    if c.stopped || c.timerDcoll > 0 then Step(c, [])
    else
      var slot := if c.dataIdx == -1 then NextSlot(eps, c.epIdx + 1) else c.epIdx;
      if slot == MAXEP then Step(c.(epIdx := -1, timerDcoll := env.now), [])
      else
        match eps[slot]
        case None => Step(c, [])
        case Some(d) =>
          if !d.ready || c.dataIdx + 1 >= |d.ids| then Collect(c.(epIdx := slot, dataIdx := -1), eps, cfg, env)
          else
            Ask(c.(epIdx := slot, dataIdx := c.dataIdx + 1), Request(d.adr, d.ids[c.dataIdx + 1]), cfg, env)
  }

  datatype Event =
    | Chunk(fits: bool, completes: bool)   // dlt645_frame_recv; `fits` the buffer, `completes` a frame
    | Alarm                                // dlt645_catch_alarm

  predicate Expired(c: Col, cfg: Config, env: Env) {
    c.timerRecv > 0 && env.now - c.timerRecv >= cfg.timeout
  }

  /** The first branch of dlt645_catch_alarm: give up the device. */
  function GiveUp(c: Col, eps: Slots, cfg: Config, env: Env): Step
    requires Good(c)
  {
    if !Expired(c, cfg, env) then Step(c, [])
    else if !c.stopped && c.timerDcoll == 0 then Collect(c.(timerRecv := 0, dataIdx := -1), eps, cfg, env)
    else Step(c.(timerRecv := 0), [])
  }

  /** The second branch: start a round. */
  function StartDue(c: Col, eps: Slots, cfg: Config, env: Env): Step
    requires Good(c)
  {
    if c.timerDcoll > 0 && env.now - c.timerDcoll >= cfg.period then Collect(c.(timerDcoll := 0), eps, cfg, env)
    else Step(c, [])
  }

  /** The device in slot `i` is to be told the time. */
  predicate SyncDue(c: Col, eps: Slots, env: Env, i: nat)
    requires i < MAXEP
  {
    eps[i].Some? && c.sync[i] > 0 && env.now - c.sync[i] >= eps[i].value.tSync
  }

  /** The collection timer a time synchronisation leaves: it is remembered in 8 bits, and 0 means a round was on. */
  function Restored(timer: nat, cfg: Config, env: Env): nat {
    if timer % 256 != 0 then timer % 256
    else if env.now > cfg.period then env.now - cfg.period else 0
  }

  /** dlt645_time_sync_send, whether or not the lower layer takes the frame; refused while an answer is awaited. */
  function TimeSync(c: Col, cfg: Config, env: Env, i: nat): Col
    requires i < MAXEP
  {
    if c.timerRecv > 0 && env.now - c.timerRecv < cfg.timeout then c
    else c.(timerDcoll := if c.stopped then 0 else Restored(c.timerDcoll, cfg, env), sync := c.sync[i := env.now])
  }

  /** The third branch: the loop over the devices from slot `i` on. */
  function SyncAll(c: Col, eps: Slots, cfg: Config, env: Env, i: nat): Col
    requires i <= MAXEP
    decreases MAXEP - i
  {
    if i == MAXEP then c
    else SyncAll(if SyncDue(c, eps, env, i) then TimeSync(c, cfg, env, i) else c, eps, cfg, env, i + 1)
  }

  /** dlt645_catch_alarm up to the loop over the devices. */
  function BeforeSync(c: Col, eps: Slots, cfg: Config, env: Env): Step
    requires Good(c)
  {
    CollectGood(c.(timerRecv := 0, dataIdx := -1), eps, cfg, env);
    var first := GiveUp(c, eps, cfg, env);
    var second := StartDue(first.col, eps, cfg, env);
    Step(second.col, first.sent + second.sent)
  }

  /** A late or oversized chunk stops the request timer and does nothing else. */
  function Handle(c: Col, ev: Event, eps: Slots, cfg: Config, env: Env): Step
    requires Good(c)
  {
    match ev
    case Chunk(fits, completes) =>
      if env.now - c.timerRecv >= cfg.timeout || !fits then Step(c.(timerRecv := 0), [])
      else if !completes then Step(c, [])
      else if c.stopped then Step(c.(timerRecv := 0), [])
      else Collect(c.(timerRecv := 0), eps, cfg, env)
    case Alarm =>
      var s := BeforeSync(c, eps, cfg, env);
      Step(SyncAll(s.col, eps, cfg, env, 0), s.sent)
  }

  /** EP_MSG_DCOLL_START: a stopped collection begins at once. */
  function Start(c: Col, eps: Slots, cfg: Config, env: Env): Step
    requires Good(c)
  {
    if c.stopped then Collect(c.(stopped := false), eps, cfg, env) else Step(c, [])
  }

  /** EP_MSG_DCOLL_STOP; an answer that is awaited still is. */
  function Stop(c: Col): Col {
    c.(stopped := true, timerDcoll := 0, epIdx := -1, dataIdx := -1)
  }

  /** The slots once the device in slot `i` is connected. */
  function Connected(eps: Slots, i: nat): Slots
    requires i < MAXEP && eps[i].Some?
  {
    eps[i := Some(eps[i].value.(ready := true))]
  }

  lemma {:induction false} CollectGood(c: Col, eps: Slots, cfg: Config, env: Env)
    requires Good(c)
    ensures Good(Collect(c, eps, cfg, env).col)
    decreases Measure(c)
  {
    if !c.stopped && c.timerDcoll == 0 {
      var slot := if c.dataIdx == -1 then NextSlot(eps, c.epIdx + 1) else c.epIdx;
      if slot < MAXEP && eps[slot].Some? && (!eps[slot].value.ready || c.dataIdx + 1 >= |eps[slot].value.ids|) {
        CollectGood(c.(epIdx := slot, dataIdx := -1), eps, cfg, env);
      }
    }
  }

  lemma HandleGood(c: Col, ev: Event, eps: Slots, cfg: Config, env: Env)
    requires Good(c)
    ensures Good(Handle(c, ev, eps, cfg, env).col)
  {
    match ev
    case Chunk(_, _) => CollectGood(c.(timerRecv := 0), eps, cfg, env);
    case Alarm =>
      CollectGood(c.(timerRecv := 0, dataIdx := -1), eps, cfg, env);
      var first := GiveUp(c, eps, cfg, env);
      CollectGood(first.col.(timerDcoll := 0), eps, cfg, env);
      SyncKeeps(StartDue(first.col, eps, cfg, env).col, eps, cfg, env, 0);
  }

  /** Time synchronisation leaves all but the collection timer and its own timers alone. */
  lemma {:induction false} SyncKeeps(c: Col, eps: Slots, cfg: Config, env: Env, i: nat)
    requires i <= MAXEP
    ensures var d := SyncAll(c, eps, cfg, env, i); d == c.(timerDcoll := d.timerDcoll, sync := d.sync)
    decreases MAXEP - i
  {
    if i < MAXEP {
      SyncKeeps(if SyncDue(c, eps, env, i) then TimeSync(c, cfg, env, i) else c, eps, cfg, env, i + 1);
    }
  }

  // ---------------------------------------------------------------- the object

  class Collector {
    const cfg: Config
    var eps: Slots
    var stopped: bool
    var timerDcoll: nat
    var epIdx: int
    var dataIdx: int
    var timerRecv: nat
    var sync: Timers
    var wire: seq<Request>

    ghost function View(): Col
      reads this
    {
      Col(stopped, timerDcoll, epIdx, dataIdx, timerRecv, sync)
    }

    /** The static initialisation of dlt645.c. */
    constructor (cfg: Config, eps: Slots)
      ensures View() == Col(true, 0, -1, -1, 0, seq(MAXEP, _ => 0)) && wire == [] && this.cfg == cfg && this.eps == eps
    {
      this.cfg, this.eps := cfg, eps;
      stopped, timerDcoll, epIdx, dataIdx, timerRecv, wire := true, 0, -1, -1, 0, [];
      sync := seq(MAXEP, _ => 0);
    }

    method ReadDataSend(r: Request, env: Env)
      modifies this
      ensures var s := Ask(old(View()), r, cfg, env);
              View() == s.col && wire == old(wire) + s.sent && eps == old(eps)
    {
      if timerRecv > 0 && env.now - timerRecv < cfg.timeout {
        return;
      }
      timerRecv := 0;
      if env.taken {
        wire := wire + [r];
        timerRecv := env.now;
      }
    }

    /** The search loop: the next used slot, or the end of the round. */
    method NextDevice(env: Env) returns (d: Option<Device>)
      requires Good(View()) && dataIdx == -1
      modifies this`epIdx, this`timerDcoll
      ensures var slot := NextSlot(eps, old(epIdx) + 1);
              if slot == MAXEP then d == None && View() == old(View()).(epIdx := -1, timerDcoll := env.now)
              else d == eps[slot] && View() == old(View()).(epIdx := slot)
    {
      d := None;
      while d == None
        invariant old(epIdx) <= epIdx < MAXEP && timerDcoll == old(timerDcoll)
        invariant d == None ==> NextSlot(eps, old(epIdx) + 1) == NextSlot(eps, epIdx + 1)
        invariant d != None ==> epIdx == NextSlot(eps, old(epIdx) + 1) && d == eps[epIdx]
        decreases MAXEP - epIdx
      {
        epIdx := epIdx + 1;
        if epIdx >= MAXEP {
          epIdx := -1;
          timerDcoll := env.now;
          return;
        }
        d := eps[epIdx];
      }
    }

    method CollectData(env: Env)
      requires Good(View())
      modifies this
      ensures var s := Collect(old(View()), old(eps), cfg, env);
              View() == s.col && wire == old(wire) + s.sent && eps == old(eps)
      decreases Measure(View())
    {
      if stopped || timerDcoll > 0 {
        return;
      }
      var d: Option<Device>;
      if dataIdx == -1 {
        d := NextDevice(env);
      } else {
        d := eps[epIdx];
      }
      if d == None {
        return;
      }
      dataIdx := dataIdx + 1;
      if !d.value.ready || dataIdx >= |d.value.ids| {
        dataIdx := -1;
        CollectData(env);
      } else {
        ReadDataSend(Request(d.value.adr, d.value.ids[dataIdx]), env);
      }
    }

    method CatchRequestTimer(env: Env)
      requires Good(View())
      modifies this
      ensures var s := GiveUp(old(View()), old(eps), cfg, env);
              View() == s.col && wire == old(wire) + s.sent && eps == old(eps)
    {
      if timerRecv > 0 && env.now - timerRecv >= cfg.timeout {
        timerRecv := 0;
        if !stopped && timerDcoll == 0 {
          dataIdx := -1;
          CollectData(env);
        }
      }
    }

    method CatchCollectTimer(env: Env)
      requires Good(View())
      modifies this
      ensures var s := StartDue(old(View()), old(eps), cfg, env);
              View() == s.col && wire == old(wire) + s.sent && eps == old(eps)
    {
      if timerDcoll > 0 && env.now - timerDcoll >= cfg.period {
        timerDcoll := 0;
        CollectData(env);
      }
    }

    /** dlt645_time_sync_send; the saved collection timer is a variable of 8 bits. */
    method TimeSyncSend(i: nat, env: Env)
      requires i < MAXEP
      modifies this`stopped, this`timerDcoll, this`sync
      ensures View() == TimeSync(old(View()), cfg, env, i)
    {
      if timerRecv > 0 && env.now - timerRecv < cfg.timeout {
        return;
      }
      var stoppedOld, timerOld := stopped, timerDcoll % 256;
      stopped, timerDcoll := true, 0;
      if !stoppedOld {
        stopped := false;
        timerDcoll := if timerOld != 0 then timerOld else if env.now > cfg.period then env.now - cfg.period else 0;
      }
      sync := sync[i := env.now];
    }

    method CatchSyncTimers(env: Env)
      modifies this`stopped, this`timerDcoll, this`sync
      ensures View() == SyncAll(old(View()), eps, cfg, env, 0)
    {
      for i := 0 to MAXEP
        invariant SyncAll(old(View()), eps, cfg, env, 0) == SyncAll(View(), eps, cfg, env, i)
      {
        if eps[i].Some? && sync[i] > 0 && env.now - sync[i] >= eps[i].value.tSync {
          TimeSyncSend(i, env);
        }
      }
    }

    /** EP_MSG_CONNECT_ACK: the device is ready, and told the time if no answer is awaited. */
    method ConnectAck(i: nat, env: Env)
      requires i < MAXEP && eps[i].Some?
      modifies this`eps, this`stopped, this`timerDcoll, this`sync
      ensures eps == Connected(old(eps), i)
      ensures View() == TimeSync(old(View()).(sync := old(sync)[i := 0]), cfg, env, i)
    {
      eps := eps[i := Some(eps[i].value.(ready := true))];
      sync := sync[i := 0];
      TimeSyncSend(i, env);
    }

    method StartCollection(env: Env)
      requires Good(View())
      modifies this
      ensures var s := Start(old(View()), old(eps), cfg, env);
              View() == s.col && wire == old(wire) + s.sent && eps == old(eps)
    {
      if stopped {
        stopped := false;
        CollectData(env);
      }
    }

    method StopCollection()
      modifies this`stopped, this`timerDcoll, this`epIdx, this`dataIdx
      ensures View() == Stop(old(View()))
    {
      stopped, timerDcoll := true, 0;
      epIdx, dataIdx := -1, -1;
    }

    method CatchTimers(env: Env)
      requires Good(View())
      modifies this
      ensures var s := BeforeSync(old(View()), old(eps), cfg, env);
              View() == s.col && wire == old(wire) + s.sent && eps == old(eps)
    {
      CollectGood(View().(timerRecv := 0, dataIdx := -1), eps, cfg, env);
      CatchRequestTimer(env);
      CatchCollectTimer(env);
    }

    /** dlt645_catch_alarm. */
    method CatchAlarm(env: Env)
      requires Good(View())
      modifies this
      ensures var s := Handle(old(View()), Alarm, old(eps), cfg, env);
              View() == s.col && wire == old(wire) + s.sent && eps == old(eps)
    {
      CatchTimers(env);
      CatchSyncTimers(env);
    }

    /** The request timer part of dlt645_frame_recv. */
    method FrameRecv(fits: bool, completes: bool, env: Env)
      requires Good(View())
      modifies this
      ensures var s := Handle(old(View()), Chunk(fits, completes), old(eps), cfg, env);
              View() == s.col && wire == old(wire) + s.sent && eps == old(eps)
    {
      if env.now - timerRecv >= cfg.timeout || !fits {
        timerRecv := 0;
        return;
      }
      if completes {
        timerRecv := 0;
        if !stopped {
          CollectData(env);
        }
      }
    }
  }

  // ---------------------------------------------------------------- what is left of a round

  function Requests(d: Device): (r: seq<Request>)
    ensures |r| == |d.ids| && forall i | 0 <= i < |r| :: r[i] == Request(d.adr, d.ids[i])
  {
    seq(|d.ids|, i requires 0 <= i < |d.ids| => Request(d.adr, d.ids[i]))
  }

  /** The requests of every ready device with identifiers from slot `i` on, device by device. */
  function Groups(eps: Slots, i: nat): seq<seq<Request>>
    requires i <= MAXEP
    decreases MAXEP - i
  {
    if i == MAXEP then []
    else
      (if eps[i].Some? && eps[i].value.ready && eps[i].value.ids != [] then [Requests(eps[i].value)] else [])
      + Groups(eps, i + 1)
  }

  /** What the current device has not been asked for yet. */
  function Current(c: Col, eps: Slots): seq<Request>
    requires Good(c)
  {
    if c.dataIdx == -1 || eps[c.epIdx].None? || !eps[c.epIdx].value.ready || c.dataIdx >= |eps[c.epIdx].value.ids| then []
    else Requests(eps[c.epIdx].value)[c.dataIdx + 1..]
  }

  function Later(c: Col, eps: Slots): seq<seq<Request>>
    requires Good(c)
  {
    Groups(eps, c.epIdx + 1)
  }

  predicate NonEmpty(groups: seq<seq<Request>>) {
    forall i | 0 <= i < |groups| :: groups[i] != []
  }

  lemma {:induction false} GroupsNonEmpty(eps: Slots, i: nat)
    requires i <= MAXEP
    ensures NonEmpty(Groups(eps, i))
    decreases MAXEP - i
  {
    if i < MAXEP {
      GroupsNonEmpty(eps, i + 1);
    }
  }

  /** Unused slots have no group. */
  lemma {:induction false} GroupsSkip(eps: Slots, i: nat)
    requires i <= MAXEP
    ensures Groups(eps, i) == Groups(eps, NextSlot(eps, i))
    decreases MAXEP - i
  {
    if i < MAXEP && eps[i].None? {
      GroupsSkip(eps, i + 1);
    }
  }

  /** A request is awaited. */
  predicate Waiting(c: Col, eps: Slots) {
    Good(c) && !c.stopped && c.timerDcoll == 0 && c.timerRecv > 0 && c.dataIdx >= 0 && eps[c.epIdx].Some?
  }

  /** No timer runs: neither the request timer nor the collection timer. */
  predicate Stalled(c: Col) {
    Good(c) && !c.stopped && c.timerDcoll == 0 && c.timerRecv == 0
  }

  /** Between two rounds: the collection timer runs, and no answer is awaited. */
  predicate Idle(c: Col) {
    !c.stopped && c.epIdx == c.dataIdx == -1 && c.timerDcoll > 0 && c.timerRecv == 0
  }

  /** Request `r` is handed over: if the lower layer takes it an answer is awaited, else no timer runs. */
  ghost predicate Asked(s: Step, r: Request, eps: Slots, env: Env) {
    if env.taken then s.sent == [r] && Waiting(s.col, eps) && s.col.timerRecv == env.now else s.sent == [] && Stalled(s.col)
  }

  /** Collecting takes the next request off what is left, or ends the round. */
  ghost predicate Takes(s: Step, eps: Slots, cur: seq<Request>, later: seq<seq<Request>>, env: Env) {
    Good(s.col) &&
    if cur != [] then
      Asked(s, cur[0], eps, env) && Current(s.col, eps) == cur[1..] && Later(s.col, eps) == later
    else if later != [] && later[0] != [] then
      Asked(s, later[0][0], eps, env) && Current(s.col, eps) == later[0][1..] && Later(s.col, eps) == later[1..]
    else Idle(s.col) && s.sent == []
  }

  /** The slot the collector looks at. */
  function Slot(c: Col, eps: Slots): nat
    requires Good(c)
  {
    if c.dataIdx == -1 then NextSlot(eps, c.epIdx + 1) else c.epIdx
  }

  /** The groups from the next used slot on. */
  lemma LaterFrom(c: Col, eps: Slots, slot: nat, d: Device)
    requires Good(c) && c.dataIdx == -1 && slot == Slot(c, eps) < MAXEP && eps[slot] == Some(d)
    ensures Later(c, eps) == (if d.ready && d.ids != [] then [Requests(d)] else []) + Groups(eps, slot + 1)
  {
    GroupsSkip(eps, c.epIdx + 1);
    GroupsAt(eps, slot, d);
  }

  lemma GroupsAt(eps: Slots, i: nat, d: Device)
    requires i < MAXEP && eps[i] == Some(d)
    ensures Groups(eps, i) == (if d.ready && d.ids != [] then [Requests(d)] else []) + Groups(eps, i + 1)
  {
  }

  /** A device that is not ready or has been asked everything leaves the rest as it is. */
  lemma SkipDevice(c: Col, eps: Slots, slot: nat, d: Device)
    requires Good(c) && slot == Slot(c, eps) < MAXEP && eps[slot] == Some(d)
    requires !d.ready || c.dataIdx + 1 >= |d.ids|
    ensures var c' := c.(epIdx := slot, dataIdx := -1);
            Current(c, eps) == [] == Current(c', eps) && Later(c, eps) == Later(c', eps)
  {
    if c.dataIdx == -1 {
      LaterFrom(c, eps, slot, d);
    }
  }

  /** The current device has more identifiers: the next request stands first in what is left of it. */
  lemma SameDevice(c: Col, eps: Slots, d: Device, timer: nat)
    requires Good(c) && c.dataIdx >= 0 && eps[c.epIdx] == Some(d) && d.ready && c.dataIdx + 1 < |d.ids|
    ensures var i := c.dataIdx + 1;
            var c' := c.(dataIdx := i, timerRecv := timer);
            && Current(c, eps) == [Request(d.adr, d.ids[i])] + Current(c', eps) && Later(c', eps) == Later(c, eps)
  {
  }

  /** The next device: its first request stands first in the first group left. */
  lemma OtherDevice(c: Col, eps: Slots, slot: nat, d: Device, timer: nat)
    requires Good(c) && c.dataIdx == -1 && slot == Slot(c, eps) < MAXEP && eps[slot] == Some(d) && d.ready && d.ids != []
    ensures var c' := c.(epIdx := slot, dataIdx := 0, timerRecv := timer);
            && Current(c, eps) == [] && Later(c, eps) == [Requests(d)] + Later(c', eps)
            && Requests(d) == [Request(d.adr, d.ids[0])] + Current(c', eps)
  {
    LaterFrom(c, eps, slot, d);
  }

  lemma AskTakes(c: Col, eps: Slots, slot: nat, d: Device, cfg: Config, env: Env)
    requires Good(c) && !c.stopped && c.timerDcoll == 0 && c.timerRecv == 0 && env.now > 0
    requires slot == Slot(c, eps) < MAXEP && eps[slot] == Some(d) && d.ready && c.dataIdx + 1 < |d.ids|
    ensures var i := c.dataIdx + 1;
            Takes(Ask(c.(epIdx := slot, dataIdx := i), Request(d.adr, d.ids[i]), cfg, env), eps, Current(c, eps), Later(c, eps), env)
  {
    var i := c.dataIdx + 1;
    var timer := if env.taken then env.now else 0;
    var r := Request(d.adr, d.ids[i]);
    var s := Ask(c.(epIdx := slot, dataIdx := i), r, cfg, env);
    assert s == Step(c.(epIdx := slot, dataIdx := i, timerRecv := timer), if env.taken then [r] else []);
    assert Asked(s, r, eps, env);
    if c.dataIdx >= 0 {
      SameDevice(c, eps, d, timer);
    } else {
      OtherDevice(c, eps, slot, d, timer);
    }
  }

  /** No used slot is left: the round ends. */
  lemma EndTakes(c: Col, eps: Slots, cfg: Config, env: Env)
    requires Good(c) && Stalled(c) && c.dataIdx == -1 && Slot(c, eps) == MAXEP && env.now > 0
    ensures Takes(Collect(c, eps, cfg, env), eps, Current(c, eps), Later(c, eps), env)
  {
    GroupsSkip(eps, c.epIdx + 1);
    assert Current(c, eps) == [] && Later(c, eps) == [];
  }

  /** One level of the recursion. */
  lemma CollectUnfolds(c: Col, eps: Slots, slot: nat, d: Device, cfg: Config, env: Env)
    requires Stalled(c) && slot == Slot(c, eps) < MAXEP && eps[slot] == Some(d)
    ensures Collect(c, eps, cfg, env)
              == if !d.ready || c.dataIdx + 1 >= |d.ids| then Collect(c.(epIdx := slot, dataIdx := -1), eps, cfg, env)
                 else Ask(c.(epIdx := slot, dataIdx := c.dataIdx + 1), Request(d.adr, d.ids[c.dataIdx + 1]), cfg, env)
  {
  }

  lemma {:induction false} CollectTakes(c: Col, eps: Slots, cfg: Config, env: Env)
    requires Good(c) && !c.stopped && c.timerDcoll == 0 && c.timerRecv == 0 && env.now > 0
    requires c.dataIdx >= 0 ==> eps[c.epIdx].Some?
    ensures Takes(Collect(c, eps, cfg, env), eps, Current(c, eps), Later(c, eps), env)
    decreases Measure(c), 1
  {
    var slot := Slot(c, eps);
    if slot == MAXEP {
      EndTakes(c, eps, cfg, env);
    } else {
      var d := eps[slot].value;
      CollectUnfolds(c, eps, slot, d, cfg, env);
      if !d.ready || c.dataIdx + 1 >= |d.ids| {
        SkipTakes(c, eps, slot, d, cfg, env);
      } else {
        AskTakes(c, eps, slot, d, cfg, env);
      }
    }
  }

  /** A device that has nothing to be asked for is skipped. */
  lemma {:induction false} SkipTakes(c: Col, eps: Slots, slot: nat, d: Device, cfg: Config, env: Env)
    requires Stalled(c) && env.now > 0 && slot == Slot(c, eps) < MAXEP && eps[slot] == Some(d)
    requires !d.ready || c.dataIdx + 1 >= |d.ids|
    ensures Takes(Collect(c.(epIdx := slot, dataIdx := -1), eps, cfg, env), eps, Current(c, eps), Later(c, eps), env)
    decreases Measure(c), 0
  {
    SkipDevice(c, eps, slot, d);
    CollectTakes(c.(epIdx := slot, dataIdx := -1), eps, cfg, env);
  }

  // ---------------------------------------------------------------- rounds

  datatype Tick = Tick(ev: Event, env: Env)

  /** A chunk that is late or does not fit the receive buffer. */
  predicate Refused(c: Col, t: Tick, cfg: Config) {
    t.ev.Chunk? && (!t.ev.fits || t.env.now - c.timerRecv >= cfg.timeout)
  }

  /** The clock, which counts seconds since 1970, is further on than a period and what fits 8 bits. */
  predicate Clock(cfg: Config, env: Env) {
    env.now >= cfg.period + 256 && cfg.period > 0 && cfg.timeout > 0
  }

  /** No late or oversized chunk, and the lower layer takes requests. */
  predicate Orderly(c: Col, t: Tick, cfg: Config) {
    t.env.taken && Clock(cfg, t.env) && !Refused(c, t, cfg)
  }

  /** The device is given up. */
  predicate TimesOut(c: Col, t: Tick, cfg: Config) {
    t.ev.Alarm? && c.timerRecv > 0 && t.env.now >= c.timerRecv + cfg.timeout
  }

  /** The device has answered, or is given up. */
  predicate Effective(c: Col, t: Tick, cfg: Config) {
    TimesOut(c, t, cfg) || (t.ev.Chunk? && t.ev.completes)
  }

  /** Everything that happens until the round is over or the ticks run out. */
  function Round(c: Col, ts: seq<Tick>, eps: Slots, cfg: Config): Step
    requires Good(c)
    decreases |ts|
  {
    if ts == [] || c.timerDcoll > 0 then Step(c, [])
    else
      HandleGood(c, ts[0].ev, eps, cfg, ts[0].env);
      var s := Handle(c, ts[0].ev, eps, cfg, ts[0].env);
      var r := Round(s.col, ts[1..], eps, cfg);
      Step(r.col, s.sent + r.sent)
  }

  predicate AllOrderly(c: Col, ts: seq<Tick>, eps: Slots, cfg: Config)
    requires Good(c)
    decreases |ts|
  {
    ts == [] || c.timerDcoll > 0 ||
    (HandleGood(c, ts[0].ev, eps, cfg, ts[0].env);
     Orderly(c, ts[0], cfg) && AllOrderly(Handle(c, ts[0].ev, eps, cfg, ts[0].env).col, ts[1..], eps, cfg))
  }

  /** No request of the round times out. */
  predicate AllAnswered(c: Col, ts: seq<Tick>, eps: Slots, cfg: Config)
    requires Good(c)
    decreases |ts|
  {
    ts == [] || c.timerDcoll > 0 ||
    (HandleGood(c, ts[0].ev, eps, cfg, ts[0].env);
     !TimesOut(c, ts[0], cfg) && AllAnswered(Handle(c, ts[0].ev, eps, cfg, ts[0].env).col, ts[1..], eps, cfg))
  }

  /** How many answers and timeouts the round sees. */
  function Effects(c: Col, ts: seq<Tick>, eps: Slots, cfg: Config): nat
    requires Good(c)
    decreases |ts|
  {
    if ts == [] || c.timerDcoll > 0 then 0
    else
      HandleGood(c, ts[0].ev, eps, cfg, ts[0].env);
      (if Effective(c, ts[0], cfg) then 1 else 0) + Effects(Handle(c, ts[0].ev, eps, cfg, ts[0].env).col, ts[1..], eps, cfg)
  }

  /** The event without the time synchronisation an alarm may end with. */
  function Main(c: Col, t: Tick, eps: Slots, cfg: Config): Step
    requires Good(c)
  {
    if t.ev.Alarm? then BeforeSync(c, eps, cfg, t.env) else Handle(c, t.ev, eps, cfg, t.env)
  }

  /** An answer takes the next request; a timeout drops the rest of the device first. */
  lemma HandleTakes(c: Col, t: Tick, eps: Slots, cfg: Config)
    requires Waiting(c, eps) && !Refused(c, t, cfg) && t.env.now > 0 && cfg.period > 0
    ensures var s := Main(c, t, eps, cfg);
            if Effective(c, t, cfg) then
              Takes(s, eps, if t.ev.Alarm? then [] else Current(c, eps), Later(c, eps), t.env)
            else s == Step(c, [])
    ensures Main(c, t, eps, cfg).col.sync == c.sync
  {
    match t.ev
    case Chunk(_, _) =>
      CollectTakes(c.(timerRecv := 0), eps, cfg, t.env);
      CollectKeepsSync(c.(timerRecv := 0), eps, cfg, t.env);
    case Alarm => AlarmTakes(c, eps, cfg, t.env);
  }

  lemma {:induction false} CollectKeepsSync(c: Col, eps: Slots, cfg: Config, env: Env)
    requires Good(c)
    ensures Collect(c, eps, cfg, env).col.sync == c.sync
    decreases Measure(c)
  {
    if !c.stopped && c.timerDcoll == 0 {
      var slot := Slot(c, eps);
      if slot < MAXEP && eps[slot].Some? && (!eps[slot].value.ready || c.dataIdx + 1 >= |eps[slot].value.ids|) {
        CollectKeepsSync(c.(epIdx := slot, dataIdx := -1), eps, cfg, env);
      }
    }
  }

  lemma AlarmTakes(c: Col, eps: Slots, cfg: Config, env: Env)
    requires Waiting(c, eps) && env.now > 0 && cfg.period > 0
    ensures var s := BeforeSync(c, eps, cfg, env);
            if Expired(c, cfg, env) then Takes(s, eps, [], Later(c, eps), env) else s == Step(c, [])
    ensures BeforeSync(c, eps, cfg, env).col.sync == c.sync
  {
    var d := c.(timerRecv := 0, dataIdx := -1);
    CollectTakes(d, eps, cfg, env);
    CollectKeepsSync(d, eps, cfg, env);
    CollectGood(d, eps, cfg, env);
    var first := GiveUp(c, eps, cfg, env);
    GaveUp(d, eps, cfg, env);
    NotDue(first.col, eps, cfg, env);
    assert first.sent + [] == first.sent;
  }

  /** A collection step leaves the collection timer off or sets it to the present. */
  lemma {:induction false} GaveUp(c: Col, eps: Slots, cfg: Config, env: Env)
    requires Good(c) && c.timerDcoll == 0
    ensures var t := Collect(c, eps, cfg, env).col.timerDcoll; t == 0 || t == env.now
    decreases Measure(c)
  {
    if !c.stopped {
      var slot := Slot(c, eps);
      if slot < MAXEP && eps[slot].Some? && (!eps[slot].value.ready || c.dataIdx + 1 >= |eps[slot].value.ids|) {
        GaveUp(c.(epIdx := slot, dataIdx := -1), eps, cfg, env);
      }
    }
  }

  /** Neither while a round is on nor right after it has ended is the next one due. */
  lemma NotDue(c: Col, eps: Slots, cfg: Config, env: Env)
    requires Good(c) && (c.timerDcoll == 0 || c.timerDcoll == env.now) && cfg.period > 0
    ensures StartDue(c, eps, cfg, env) == Step(c, [])
  {
  }

  // ---------------------------------------------------------------- time synchronisation

  /** While an answer is awaited no device is told the time. */
  lemma {:induction false} WaitingNoSync(c: Col, eps: Slots, cfg: Config, env: Env, i: nat)
    requires i <= MAXEP && c.timerRecv > 0 && env.now - c.timerRecv < cfg.timeout
    ensures SyncAll(c, eps, cfg, env, i) == c
    decreases MAXEP - i
  {
    if i < MAXEP {
      WaitingNoSync(c, eps, cfg, env, i + 1);
    }
  }

  /** A running collection timer is left running. */
  lemma {:induction false} SyncKeepsArmed(c: Col, eps: Slots, cfg: Config, env: Env, i: nat)
    requires i <= MAXEP && !c.stopped && c.timerDcoll > 0 && Clock(cfg, env)
    ensures SyncAll(c, eps, cfg, env, i).timerDcoll > 0
    decreases MAXEP - i
  {
    if i < MAXEP {
      SyncKeepsArmed(if SyncDue(c, eps, env, i) then TimeSync(c, cfg, env, i) else c, eps, cfg, env, i + 1);
    }
  }

  /** Time synchronisation does not disturb a round whose request was taken, nor the end of one. */
  lemma SyncTakes(s: Step, eps: Slots, cfg: Config, env: Env, cur: seq<Request>, later: seq<seq<Request>>)
    requires Takes(s, eps, cur, later, env) && env.taken && Clock(cfg, env)
    ensures Takes(Step(SyncAll(s.col, eps, cfg, env, 0), s.sent), eps, cur, later, env)
  {
    if s.col.timerRecv > 0 {
      WaitingNoSync(s.col, eps, cfg, env, 0);
    } else {
      SyncKeeps(s.col, eps, cfg, env, 0);
      SyncKeepsArmed(s.col, eps, cfg, env, 0);
    }
  }

  /** An orderly event during a round, time synchronisation included. */
  lemma TickTakes(c: Col, t: Tick, eps: Slots, cfg: Config)
    requires Waiting(c, eps) && Orderly(c, t, cfg)
    ensures var s := Handle(c, t.ev, eps, cfg, t.env);
            if Effective(c, t, cfg) then
              Takes(s, eps, if t.ev.Alarm? then [] else Current(c, eps), Later(c, eps), t.env)
            else s == Step(c, [])
  {
    HandleTakes(c, t, eps, cfg);
    if t.ev.Alarm? {
      if Effective(c, t, cfg) {
        SyncTakes(BeforeSync(c, eps, cfg, t.env), eps, cfg, t.env, [], Later(c, eps));
      } else {
        WaitingNoSync(c, eps, cfg, t.env, 0);
      }
    }
  }

  function Flat(groups: seq<seq<Request>>): seq<Request> {
    if groups == [] then [] else groups[0] + Flat(groups[1..])
  }

  /** A nonempty beginning of each of the first groups. */
  predicate Covers(groups: seq<seq<Request>>, lens: seq<nat>) {
    |lens| <= |groups| && forall i | 0 <= i < |lens| :: 1 <= lens[i] <= |groups[i]|
  }

  function Taken(groups: seq<seq<Request>>, lens: seq<nat>): seq<Request>
    requires Covers(groups, lens)
  {
    if lens == [] then [] else groups[0][..lens[0]] + Taken(groups[1..], lens[1..])
  }

  /** `sent` is a beginning of `cur` and then nonempty beginnings of the next groups; all of them once `over`. */
  ghost predicate Visits(sent: seq<Request>, cur: seq<Request>, later: seq<seq<Request>>, n: nat, lens: seq<nat>, over: bool) {
    && n <= |cur| && Covers(later, lens) && sent == cur[..n] + Taken(later, lens)
    && (over ==> |lens| == |later|)
  }

  lemma VisitsStay(first: Request, sent: seq<Request>, cur: seq<Request>, later: seq<seq<Request>>, n: nat, lens: seq<nat>, over: bool)
    requires cur != [] && first == cur[0] && Visits(sent, cur[1..], later, n, lens, over)
    ensures Visits([first] + sent, cur, later, n + 1, lens, over)
  {
    assert cur[..n + 1] == [first] + cur[1..][..n];
  }

  lemma VisitsMove(first: Request, sent: seq<Request>, cur: seq<Request>, later: seq<seq<Request>>, n: nat, lens: seq<nat>, over: bool)
    requires later != [] && later[0] != [] && first == later[0][0]
    requires Visits(sent, later[0][1..], later[1..], n, lens, over)
    ensures Visits([first] + sent, cur, later, 0, [n + 1] + lens, over)
  {
    var all := [n + 1] + lens;
    assert all[1..] == lens;
    assert Covers(later, all) by {
      forall i | 0 <= i < |all| ensures 1 <= all[i] <= |later[i]| {
        if i > 0 {
          assert lens[i - 1] == all[i] && later[1..][i - 1] == later[i];
        }
      }
    }
    assert later[0][..n + 1] == [first] + later[0][1..][..n];
    assert cur[..0] == [];
  }

  /** What a round from `c` has sent, `k` answers and timeouts along. */
  ghost predicate Progress(c: Col, r: Step, k: nat, eps: Slots, n: nat, lens: seq<nat>)
    requires Good(c)
  {
    && Visits(r.sent, Current(c, eps), Later(c, eps), n, lens, r.col.timerDcoll > 0)
    && (if r.col.timerDcoll > 0 then Idle(r.col) && k == |r.sent| + 1
        else Waiting(r.col, eps) && k == |r.sent|)
  }

  /** One answer or timeout in front of what follows. */
  lemma ProgressGrows(c: Col, timeout: bool, s: Step, r: Step, k: nat, eps: Slots, env: Env, n: nat, lens: seq<nat>)
    returns (n': nat, lens': seq<nat>)
    requires Waiting(c, eps) && env.taken && env.now > 0 && NonEmpty(Later(c, eps)) && Good(s.col)
    requires Takes(s, eps, if timeout then [] else Current(c, eps), Later(c, eps), env)
    requires if s.col.timerDcoll > 0 then r == Step(s.col, []) && k == 0 else Progress(s.col, r, k, eps, n, lens)
    ensures Progress(c, Step(r.col, s.sent + r.sent), k + 1, eps, n', lens')
  {
    var cur, later := Current(c, eps), Later(c, eps);
    if s.col.timerDcoll > 0 {
      n', lens' := 0, [];
    } else if !timeout && cur != [] {
      VisitsStay(cur[0], r.sent, cur, later, n, lens, r.col.timerDcoll > 0);
      n', lens' := n + 1, lens;
    } else {
      VisitsMove(later[0][0], r.sent, cur, later, n, lens, r.col.timerDcoll > 0);
      n', lens' := 0, [n + 1] + lens;
    }
  }

  /**
   Any mix of answers and timeouts: the current device and each later one are asked for a beginning
   of what is left, a nonempty one for the later ones; every answer or timeout but the one that ends
   the round sends exactly one request.
   */
  lemma {:induction false} RoundProgress(c: Col, ts: seq<Tick>, eps: Slots, cfg: Config) returns (n: nat, lens: seq<nat>)
    requires Waiting(c, eps) && AllOrderly(c, ts, eps, cfg) && cfg.period > 0
    ensures Progress(c, Round(c, ts, eps, cfg), Effects(c, ts, eps, cfg), eps, n, lens)
    decreases |ts|
  {
    n, lens := 0, [];
    if ts != [] {
      var s := Handle(c, ts[0].ev, eps, cfg, ts[0].env);
      FirstTick(c, ts, s, eps, cfg);
      if s.col.timerDcoll == 0 {
        n, lens := RoundProgress(s.col, ts[1..], eps, cfg);
      }
      n, lens := ProgressStep(c, ts[0], s, Round(s.col, ts[1..], eps, cfg), Effects(s.col, ts[1..], eps, cfg), eps, cfg, n, lens);
    }
  }

  lemma ProgressStep(c: Col, t: Tick, s: Step, r: Step, k: nat, eps: Slots, cfg: Config, n: nat, lens: seq<nat>)
    returns (n': nat, lens': seq<nat>)
    requires Waiting(c, eps) && Good(s.col) && t.env.taken && t.env.now > 0
    requires if Effective(c, t, cfg) then Takes(s, eps, if t.ev.Alarm? then [] else Current(c, eps), Later(c, eps), t.env)
             else s == Step(c, [])
    requires if s.col.timerDcoll > 0 then r == Step(s.col, []) && k == 0 else Progress(s.col, r, k, eps, n, lens)
    ensures Progress(c, Step(r.col, s.sent + r.sent), (if Effective(c, t, cfg) then 1 else 0) + k, eps, n', lens')
  {
    n', lens' := n, lens;
    if Effective(c, t, cfg) {
      GroupsNonEmpty(eps, c.epIdx + 1);
      n', lens' := ProgressGrows(c, t.ev.Alarm?, s, r, k, eps, t.env, n, lens);
    } else {
      assert s.sent + r.sent == r.sent;
    }
  }

  /** What the first tick of a round does, and what follows. */
  lemma FirstTick(c: Col, ts: seq<Tick>, s: Step, eps: Slots, cfg: Config)
    requires Waiting(c, eps) && AllOrderly(c, ts, eps, cfg) && cfg.period > 0 && ts != []
    requires s == Handle(c, ts[0].ev, eps, cfg, ts[0].env)
    ensures Good(s.col) && Orderly(c, ts[0], cfg) && AllOrderly(s.col, ts[1..], eps, cfg)
    ensures Round(c, ts, eps, cfg) == Step(Round(s.col, ts[1..], eps, cfg).col, s.sent + Round(s.col, ts[1..], eps, cfg).sent)
    ensures Effects(c, ts, eps, cfg) == (if Effective(c, ts[0], cfg) then 1 else 0) + Effects(s.col, ts[1..], eps, cfg)
    ensures AllAnswered(c, ts, eps, cfg) <==> !TimesOut(c, ts[0], cfg) && AllAnswered(s.col, ts[1..], eps, cfg)
    ensures s.col.timerDcoll > 0 ==> Round(s.col, ts[1..], eps, cfg) == Step(s.col, []) && Effects(s.col, ts[1..], eps, cfg) == 0
    ensures if Effective(c, ts[0], cfg) then
              Takes(s, eps, if ts[0].ev.Alarm? then [] else Current(c, eps), Later(c, eps), ts[0].env)
            else s == Step(c, [])
    ensures s.col.timerDcoll == 0 ==> Waiting(s.col, eps)
  {
    HandleGood(c, ts[0].ev, eps, cfg, ts[0].env);
    TickTakes(c, ts[0], eps, cfg);
  }

  /** What is left, as one list. */
  function Left(c: Col, eps: Slots): seq<Request>
    requires Good(c)
  {
    Current(c, eps) + Flat(Later(c, eps))
  }

  /** An answer takes the first of what is left. */
  lemma LeftShrinks(c: Col, s: Step, eps: Slots, env: Env)
    requires Waiting(c, eps) && env.taken && env.now > 0 && NonEmpty(Later(c, eps)) && Good(s.col)
    requires Takes(s, eps, Current(c, eps), Later(c, eps), env)
    ensures if s.col.timerDcoll > 0 then s.sent == [] == Left(c, eps) else Left(c, eps) == s.sent + Left(s.col, eps)
  {
    var cur, later := Current(c, eps), Later(c, eps);
    if cur != [] {
      assert cur == [cur[0]] + cur[1..];
    } else if later != [] {
      FlatFirst(later);
    }
  }

  lemma {:induction false} AnsweredProgress(c: Col, ts: seq<Tick>, eps: Slots, cfg: Config)
    requires Waiting(c, eps) && AllOrderly(c, ts, eps, cfg) && AllAnswered(c, ts, eps, cfg) && cfg.period > 0
    ensures Answers(c, Round(c, ts, eps, cfg), eps)
    decreases |ts|
  {
    if ts != [] {
      var s := Handle(c, ts[0].ev, eps, cfg, ts[0].env);
      FirstTick(c, ts, s, eps, cfg);
      if s.col.timerDcoll == 0 {
        AnsweredProgress(s.col, ts[1..], eps, cfg);
      }
      AnswersStep(c, ts[0], s, Round(s.col, ts[1..], eps, cfg), eps, cfg);
    }
  }

  /** A round without timeouts has sent a beginning of what was left, and all of it once over. */
  predicate Answers(c: Col, r: Step, eps: Slots)
    requires Good(c)
  {
    r.sent <= Left(c, eps) && (r.col.timerDcoll > 0 ==> r.sent == Left(c, eps))
  }

  lemma AnswersStep(c: Col, t: Tick, s: Step, r: Step, eps: Slots, cfg: Config)
    requires Waiting(c, eps) && Good(s.col) && t.env.taken && t.env.now > 0 && !TimesOut(c, t, cfg)
    requires if Effective(c, t, cfg) then Takes(s, eps, Current(c, eps), Later(c, eps), t.env) else s == Step(c, [])
    requires if s.col.timerDcoll > 0 then r == Step(s.col, []) else Answers(s.col, r, eps)
    ensures Answers(c, Step(r.col, s.sent + r.sent), eps)
  {
    if Effective(c, t, cfg) {
      GroupsNonEmpty(eps, c.epIdx + 1);
      LeftShrinks(c, s, eps, t.env);
    } else {
      assert s.sent + r.sent == r.sent;
    }
  }

  // ---------------------------------------------------------------- main results

  predicate Due(c: Col, cfg: Config, env: Env) {
    Clock(cfg, env) && env.now - c.timerDcoll >= cfg.period
  }

  /** A whole round: the alarm that starts it, and then `ts`. */
  function FullRound(c: Col, env: Env, ts: seq<Tick>, eps: Slots, cfg: Config): Step
    requires Idle(c)
  {
    HandleGood(c, Alarm, eps, cfg, env);
    var s := Handle(c, Alarm, eps, cfg, env);
    var r := Round(s.col, ts, eps, cfg);
    Step(r.col, s.sent + r.sent)
  }

  function Begun(c: Col, env: Env, eps: Slots, cfg: Config): (r: Col)
    requires Idle(c)
    ensures Good(r)
  {
    HandleGood(c, Alarm, eps, cfg, env);
    Handle(c, Alarm, eps, cfg, env).col
  }

  /** What is left depends on the indices only. */
  lemma SameLeft(c: Col, d: Col, eps: Slots)
    requires Good(c) && d.epIdx == c.epIdx && d.dataIdx == c.dataIdx
    ensures Good(d) && Current(d, eps) == Current(c, eps) && Later(d, eps) == Later(c, eps)
  {
  }

  /** An alarm at which the collection timer is due takes the next request of what is left. */
  lemma DueTakes(c: Col, env: Env, eps: Slots, cfg: Config)
    requires Good(c) && !c.stopped && c.timerRecv == 0 && c.timerDcoll > 0 && Due(c, cfg, env)
    requires c.dataIdx >= 0 ==> eps[c.epIdx].Some?
    ensures var s := BeforeSync(c, eps, cfg, env);
            Takes(s, eps, Current(c, eps), Later(c, eps), env) && s.col.sync == c.sync
  {
    var d := c.(timerDcoll := 0);
    OnlyStarts(c, env, eps, cfg);
    SameLeft(c, d, eps);
    CollectTakes(d, eps, cfg, env);
    CollectKeepsSync(d, eps, cfg, env);
  }

  lemma DueTaken(c: Col, env: Env, eps: Slots, cfg: Config)
    requires Good(c) && !c.stopped && c.timerRecv == 0 && c.timerDcoll > 0 && Due(c, cfg, env) && env.taken
    requires c.dataIdx >= 0 ==> eps[c.epIdx].Some?
    ensures Takes(Handle(c, Alarm, eps, cfg, env), eps, Current(c, eps), Later(c, eps), env)
  {
    DueTakes(c, env, eps, cfg);
    SyncTakes(BeforeSync(c, eps, cfg, env), eps, cfg, env, Current(c, eps), Later(c, eps));
  }

  /** With no answer awaited, a due alarm does nothing but collect. */
  lemma OnlyStarts(c: Col, env: Env, eps: Slots, cfg: Config)
    requires Good(c) && c.timerRecv == 0 && c.timerDcoll > 0 && env.now - c.timerDcoll >= cfg.period
    ensures BeforeSync(c, eps, cfg, env) == Collect(c.(timerDcoll := 0), eps, cfg, env)
  {
    var s := Collect(c.(timerDcoll := 0), eps, cfg, env);
    assert GiveUp(c, eps, cfg, env) == Step(c, []);
    assert [] + s.sent == s.sent;
  }

  /** A round begins with all groups left. */
  lemma BeginTakes(c: Col, env: Env, eps: Slots, cfg: Config)
    requires Idle(c) && Due(c, cfg, env)
    ensures var s := BeforeSync(c, eps, cfg, env); Takes(s, eps, [], Groups(eps, 0), env) && s.col.sync == c.sync
    ensures env.taken ==> Takes(Handle(c, Alarm, eps, cfg, env), eps, [], Groups(eps, 0), env)
  {
    DueTakes(c, env, eps, cfg);
    if env.taken {
      DueTaken(c, env, eps, cfg);
    }
  }

  /** The requests of all ready devices, in slot order. */
  function AllRequests(eps: Slots): seq<Request> {
    Flat(Groups(eps, 0))
  }

  /** Request `r` asks the ready device in slot `i` of 128 for its identifier number `k`. */
  predicate Asks(eps: Slots, i: nat, k: nat, r: Request) {
    i < 128 && eps[i].Some? && eps[i].value.ready && k < |eps[i].value.ids| && r == Request(eps[i].value.adr, eps[i].value.ids[k])
  }

  lemma FlatCons(g: seq<Request>, groups: seq<seq<Request>>)
    ensures Flat([g] + groups) == g + Flat(groups)
  {
  }

  lemma {:induction false} AskedFor(eps: Slots, i: nat, r: Request) returns (j: nat, k: nat)
    requires i <= MAXEP && r in Flat(Groups(eps, i))
    ensures Asks(eps, j, k, r)
    decreases MAXEP - i
  {
    var d := eps[i];
    if d.Some? && d.value.ready && d.value.ids != [] {
      FlatCons(Requests(d.value), Groups(eps, i + 1));
      if r in Requests(d.value) {
        k :| 0 <= k < |Requests(d.value)| && Requests(d.value)[k] == r;
        j := i;
        return;
      }
    }
    assert [] + Groups(eps, i + 1) == Groups(eps, i + 1);
    j, k := AskedFor(eps, i + 1, r);
  }

  lemma {:induction false} AskedOf(eps: Slots, i: nat, j: nat, k: nat, r: Request)
    requires i <= j && Asks(eps, j, k, r)
    ensures r in Flat(Groups(eps, i))
    decreases j - i
  {
    var d := eps[i];
    if d.Some? && d.value.ready && d.value.ids != [] {
      FlatCons(Requests(d.value), Groups(eps, i + 1));
    }
    if i < j {
      assert [] + Groups(eps, i + 1) == Groups(eps, i + 1);
      AskedOf(eps, i + 1, j, k, r);
    } else {
      assert Requests(d.value)[k] == r;
    }
  }

  /** The requests of a round ask each ready device of the 128 slots for each of its identifiers, and nothing else. */
  lemma AskedIff(eps: Slots, r: Request)
    ensures r in AllRequests(eps) <==> exists i: nat, k: nat :: Asks(eps, i, k, r)
  {
    if r in AllRequests(eps) {
      var i, k := AskedFor(eps, 0, r);
    }
    if i: nat, k: nat :| Asks(eps, i, k, r) {
      AskedOf(eps, 0, i, k, r);
    }
  }

  /**
   One round under any mix of answers and timeouts: every ready device with identifiers, in slot
   order, is asked for a nonempty beginning of its identifiers and nothing is asked twice; a round
   that is not over has sent one request more than it has seen answers and timeouts; and once
   over, the collector is idle again.
   */
  lemma MixedRound(c: Col, env: Env, ts: seq<Tick>, eps: Slots, cfg: Config) returns (lens: seq<nat>)
    requires Idle(c) && Due(c, cfg, env) && env.taken && cfg.period > 0 && AllOrderly(Begun(c, env, eps, cfg), ts, eps, cfg)
    ensures var r := FullRound(c, env, ts, eps, cfg);
            var k := Effects(Begun(c, env, eps, cfg), ts, eps, cfg);
            var groups := Groups(eps, 0);
            && Covers(groups, lens) && r.sent == Taken(groups, lens)
            && (if r.col.timerDcoll > 0 then Idle(r.col) && |lens| == |groups| && k == |r.sent|
                else |r.sent| == k + 1)
  {
    var s := Handle(c, Alarm, eps, cfg, env);
    BeginTakes(c, env, eps, cfg);
    HandleGood(c, Alarm, eps, cfg, env);
    GroupsNonEmpty(eps, 0);
    if s.col.timerDcoll > 0 {
      lens := [];
    } else {
      var groups := Groups(eps, 0);
      var n, more := RoundProgress(s.col, ts, eps, cfg);
      VisitsMove(groups[0][0], Round(s.col, ts, eps, cfg).sent, [], groups, n, more, Round(s.col, ts, eps, cfg).col.timerDcoll > 0);
      lens := [n + 1] + more;
    }
  }

  lemma {:induction false} TakenLength(groups: seq<seq<Request>>, lens: seq<nat>)
    requires Covers(groups, lens)
    ensures |Taken(groups, lens)| <= |Flat(groups)|
  {
    if lens != [] {
      TakenLength(groups[1..], lens[1..]);
    }
  }

  /** As many answers and timeouts as there are requests end the round. */
  lemma RoundEnds(c: Col, env: Env, ts: seq<Tick>, eps: Slots, cfg: Config)
    requires Idle(c) && Due(c, cfg, env) && env.taken && cfg.period > 0 && AllOrderly(Begun(c, env, eps, cfg), ts, eps, cfg)
    requires Effects(Begun(c, env, eps, cfg), ts, eps, cfg) >= |AllRequests(eps)|
    ensures Idle(FullRound(c, env, ts, eps, cfg).col)
  {
    var lens := MixedRound(c, env, ts, eps, cfg);
    TakenLength(Groups(eps, 0), lens);
  }

  lemma AnsweredSends(c: Col, env: Env, ts: seq<Tick>, eps: Slots, cfg: Config)
    requires Idle(c) && Due(c, cfg, env) && env.taken && cfg.period > 0
    requires AllOrderly(Begun(c, env, eps, cfg), ts, eps, cfg) && AllAnswered(Begun(c, env, eps, cfg), ts, eps, cfg)
    ensures var r := FullRound(c, env, ts, eps, cfg);
            r.sent <= AllRequests(eps) && (r.col.timerDcoll > 0 ==> r.sent == AllRequests(eps))
  {
    var s := Handle(c, Alarm, eps, cfg, env);
    BeginTakes(c, env, eps, cfg);
    HandleGood(c, Alarm, eps, cfg, env);
    GroupsNonEmpty(eps, 0);
    if s.col.timerDcoll == 0 {
      AnsweredProgress(s.col, ts, eps, cfg);
      FirstOfAll(s, Groups(eps, 0), eps, env);
    }
  }

  /** With every request answered, exactly the requests of all ready devices are sent, in slot order, each once. */
  lemma AnsweredRound(c: Col, env: Env, ts: seq<Tick>, eps: Slots, cfg: Config)
    requires Idle(c) && Due(c, cfg, env) && env.taken && cfg.period > 0
    requires AllOrderly(Begun(c, env, eps, cfg), ts, eps, cfg) && AllAnswered(Begun(c, env, eps, cfg), ts, eps, cfg)
    ensures var r := FullRound(c, env, ts, eps, cfg);
            && r.sent <= AllRequests(eps)
            && (Idle(r.col) <==> Effects(Begun(c, env, eps, cfg), ts, eps, cfg) >= |AllRequests(eps)|)
            && (Idle(r.col) ==> r.sent == AllRequests(eps))
  {
    var lens := MixedRound(c, env, ts, eps, cfg);
    AnsweredSends(c, env, ts, eps, cfg);
  }

  lemma FirstOfAll(s: Step, groups: seq<seq<Request>>, eps: Slots, env: Env)
    requires Takes(s, eps, [], groups, env) && s.col.timerDcoll == 0 && env.taken && env.now > 0 && Good(s.col)
    ensures Flat(groups) == s.sent + Left(s.col, eps)
  {
    FlatFirst(groups);
  }

  lemma FlatFirst(groups: seq<seq<Request>>)
    requires groups != [] && groups[0] != []
    ensures Flat(groups) == [groups[0][0]] + (groups[0][1..] + Flat(groups[1..]))
  {
    var first, rest, flat := [groups[0][0]], groups[0][1..], Flat(groups[1..]);
    assert groups[0] == first + rest;
    assert (first + rest) + flat == first + (rest + flat);
  }

  function Ticks(c: Col, ts: seq<Tick>, eps: Slots, cfg: Config): Step
    requires Good(c)
    decreases |ts|
  {
    if ts == [] then Step(c, [])
    else
      HandleGood(c, ts[0].ev, eps, cfg, ts[0].env);
      var s := Handle(c, ts[0].ev, eps, cfg, ts[0].env);
      var r := Ticks(s.col, ts[1..], eps, cfg);
      Step(r.col, s.sent + r.sent)
  }

  /** A device that connects is asked for all its identifiers from the next round on, and no other one is more or less. */
  lemma ConnectedAsked(eps: Slots, i: nat, r: Request)
    requires i < 128 && eps[i].Some?
    ensures r in AllRequests(Connected(eps, i)) <==> r in AllRequests(eps) || r in Requests(eps[i].value)
  {
    var after := Connected(eps, i);
    AskedIff(eps, r);
    AskedIff(after, r);
    if j: nat, k: nat :| Asks(after, j, k, r) {
      assert j != i ==> Asks(eps, j, k, r);
      assert j == i ==> Requests(eps[i].value)[k] == r;
    }
    if j: nat, k: nat :| Asks(eps, j, k, r) {
      assert Asks(after, j, k, r);
    }
    if r in Requests(eps[i].value) {
      var k :| 0 <= k < |eps[i].value.ids| && Requests(eps[i].value)[k] == r;
      assert Asks(after, i, k, r);
    }
  }

  // ---------------------------------------------------------------- stopping and starting

  lemma StoppedTick(c: Col, t: Tick, eps: Slots, cfg: Config)
    requires Good(c) && c.stopped && c.timerDcoll == 0
    ensures var s := Handle(c, t.ev, eps, cfg, t.env);
            var over := match t.ev
                        case Alarm => c.timerRecv > 0 && t.env.now >= c.timerRecv + cfg.timeout
                        case Chunk(fits, completes) => !fits || completes || t.env.now >= c.timerRecv + cfg.timeout;
            s.sent == [] && s.col == c.(timerRecv := if over then 0 else c.timerRecv, sync := s.col.sync)
  {
    if t.ev.Alarm? {
      var d := BeforeSync(c, eps, cfg, t.env);
      StoppedSync(d.col, eps, cfg, t.env, 0);
    }
  }

  lemma {:induction false} StoppedSync(c: Col, eps: Slots, cfg: Config, env: Env, i: nat)
    requires i <= MAXEP && c.stopped && c.timerDcoll == 0
    ensures var d := SyncAll(c, eps, cfg, env, i); d == c.(sync := d.sync)
    decreases MAXEP - i
  {
    if i < MAXEP {
      StoppedSync(if SyncDue(c, eps, env, i) then TimeSync(c, cfg, env, i) else c, eps, cfg, env, i + 1);
    }
  }

  /**
   Telling the time is refused while an answer is awaited; otherwise it restarts the timer of the device, and
   the collection timer keeps its lowest 8 bits, or is due at once if these are 0.
   */
  lemma SyncTimers(c: Col, cfg: Config, env: Env, i: nat)
    requires i < 128
    ensures var d := TimeSync(c, cfg, env, i);
            if c.timerRecv > 0 && env.now < c.timerRecv + cfg.timeout then d == c
            else
              && d == c.(timerDcoll := d.timerDcoll, sync := c.sync[i := env.now])
              && d.timerDcoll == if c.stopped then 0
                                 else if c.timerDcoll % 256 > 0 then c.timerDcoll % 256
                                 else if env.now > cfg.period then env.now - cfg.period else 0
  {
  }

  /** While the collection is stopped nothing is asked, whatever happens. */
  lemma {:induction false} StoppedSilent(c: Col, ts: seq<Tick>, eps: Slots, cfg: Config)
    requires Good(c) && c.stopped && c.timerDcoll == 0
    ensures var r := Ticks(c, ts, eps, cfg);
            r.sent == [] && r.col.stopped && r.col.timerDcoll == 0 && r.col.epIdx == c.epIdx && r.col.dataIdx == c.dataIdx
    decreases |ts|
  {
    if ts != [] {
      StoppedTick(c, ts[0], eps, cfg);
      HandleGood(c, ts[0].ev, eps, cfg, ts[0].env);
      StoppedSilent(Handle(c, ts[0].ev, eps, cfg, ts[0].env).col, ts[1..], eps, cfg);
    }
  }

  /** A collecting step asks nothing while an answer is awaited, but goes on to the next request all the same. */
  lemma {:induction false} CollectAwaiting(c: Col, eps: Slots, cfg: Config, env: Env)
    requires Good(c) && !c.stopped && c.timerDcoll == 0 && c.timerRecv > 0 && env.now - c.timerRecv < cfg.timeout
    ensures var d := Collect(c.(timerRecv := 0), eps, cfg, env.(taken := true));
            Collect(c, eps, cfg, env) == Step(d.col.(timerRecv := c.timerRecv), [])
    decreases Measure(c)
  {
    var slot := Slot(c, eps);
    if slot < MAXEP && eps[slot].Some? && (!eps[slot].value.ready || c.dataIdx + 1 >= |eps[slot].value.ids|) {
      CollectAwaiting(c.(epIdx := slot, dataIdx := -1), eps, cfg, env);
    }
  }

  /** An answer that has not come in time does not hold a request up. */
  lemma {:induction false} CollectLate(c: Col, eps: Slots, cfg: Config, env: Env)
    requires Good(c) && !c.stopped && c.timerDcoll == 0 && c.timerRecv > 0 && env.now - c.timerRecv >= cfg.timeout
    requires c.dataIdx >= 0 ==> eps[c.epIdx].Some?
    ensures var d := Collect(c.(timerRecv := 0), eps, cfg, env);
            d.col.timerDcoll == 0 && d.col.dataIdx >= 0 ==> Collect(c, eps, cfg, env) == d
    decreases Measure(c)
  {
    var slot := Slot(c, eps);
    if slot < MAXEP && eps[slot].Some? && (!eps[slot].value.ready || c.dataIdx + 1 >= |eps[slot].value.ids|) {
      CollectLate(c.(epIdx := slot, dataIdx := -1), eps, cfg, env);
    }
  }

  /** With requests to send, a collecting step from the start comes to the first of them. */
  lemma FirstReached(s: Step, eps: Slots, groups: seq<seq<Request>>, env: Env)
    requires Takes(s, eps, [], groups, env) && NonEmpty(groups) && Flat(groups) != []
    ensures s.col.timerDcoll == 0 && Asked(s, Flat(groups)[0], eps, env) && Flat(groups) == [Flat(groups)[0]] + Left(s.col, eps)
  {
    FlatFirst(groups);
  }

  lemma StartLate(c: Col, env: Env, eps: Slots, cfg: Config)
    requires Good(c) && env.now > 0 && c.timerRecv > 0 && env.now - c.timerRecv >= cfg.timeout && AllRequests(eps) != []
    ensures var s := Start(Stop(c), eps, cfg, env);
            Good(s.col) && (env.taken ==> s.sent == [AllRequests(eps)[0]] && AllRequests(eps) == s.sent + Left(s.col, eps))
  {
    var d := Stop(c).(stopped := false, timerRecv := 0);
    GroupsNonEmpty(eps, 0);
    CollectGood(Stop(c).(stopped := false), eps, cfg, env);
    CollectTakes(d, eps, cfg, env);
    FirstReached(Collect(d, eps, cfg, env), eps, Groups(eps, 0), env);
    if env.taken {
      CollectLate(d.(timerRecv := c.timerRecv), eps, cfg, env);
    }
  }

  /** A request that is not taken stops the request timer, even one that has run out. */
  lemma NotTaken(c: Col, r: Request, cfg: Config, env: Env)
    requires !env.taken && (c.timerRecv == 0 || env.now >= c.timerRecv + cfg.timeout)
    ensures Ask(c, r, cfg, env) == Step(c.(timerRecv := 0), [])
  {
  }

  /**
   Stopped and started again, a collection begins with the first request of the first ready device - unless
   an answer is still awaited: then this request is passed over, and the round goes on behind it.
   */
  lemma StartBegins(c: Col, env: Env, eps: Slots, cfg: Config)
    requires Good(c) && env.now > 0 && (c.timerRecv > 0 ==> env.now - c.timerRecv < cfg.timeout)
    ensures var s := Start(Stop(c), eps, cfg, env);
            && Good(s.col)
            && (c.timerRecv == 0 ==> Takes(s, eps, [], Groups(eps, 0), env))
            && (c.timerRecv > 0 ==>
                  && s.sent == [] && s.col.timerRecv == c.timerRecv
                  && (AllRequests(eps) != [] ==>
                        Waiting(s.col, eps) && AllRequests(eps) == [AllRequests(eps)[0]] + Left(s.col, eps)))
  {
    var d := Stop(c).(stopped := false, timerRecv := 0);
    var e := env.(taken := true);
    GroupsNonEmpty(eps, 0);
    if c.timerRecv == 0 {
      CollectTakes(d, eps, cfg, env);
    } else {
      CollectAwaiting(d.(timerRecv := c.timerRecv), eps, cfg, env);
      CollectTakes(d, eps, cfg, e);
      if AllRequests(eps) != [] {
        FlatFirst(Groups(eps, 0));
        SameLeft(Collect(d, eps, cfg, e).col, Collect(d, eps, cfg, e).col.(timerRecv := c.timerRecv), eps);
      }
    }
  }

  // ---------------------------------------------------------------- stalls, and what ends them

  /** Some device is to be told the time. */
  ghost predicate AnySyncDue(c: Col, eps: Slots, env: Env) {
    SyncDueFrom(c, eps, env, 0)
  }

  ghost predicate SyncDueFrom(c: Col, eps: Slots, env: Env, i: nat) {
    exists j | i <= j < 128 :: eps[j].Some? && c.sync[j] > 0 && env.now >= c.sync[j] + eps[j].value.tSync
  }

  /** The collection timer runs and will be due at any later alarm. */
  predicate Armed(c: Col, cfg: Config, env: Env) {
    !c.stopped && c.timerRecv == 0 && 0 < c.timerDcoll <= env.now - cfg.period
  }

  /** A synchronisation arms the collection timer, whatever it was before. */
  lemma TimeSyncArms(c: Col, cfg: Config, env: Env, i: nat)
    requires i < MAXEP && !c.stopped && c.timerRecv == 0 && Clock(cfg, env)
    ensures var d := TimeSync(c, cfg, env, i);
            Armed(d, cfg, env) && d == c.(timerDcoll := d.timerDcoll, sync := c.sync[i := env.now])
  {
  }

  /** An alarm arms the collection timer exactly if some device is to be told the time. */
  lemma {:induction false} SyncArms(c: Col, eps: Slots, cfg: Config, env: Env, i: nat)
    requires i <= MAXEP && !c.stopped && c.timerRecv == 0 && Clock(cfg, env)
    ensures var d := SyncAll(c, eps, cfg, env, i);
            if SyncDueFrom(c, eps, env, i) then Armed(d, cfg, env) else d == c
    decreases MAXEP - i
  {
    if i < MAXEP {
      if SyncDue(c, eps, env, i) {
        TimeSyncArms(c, cfg, env, i);
        SyncArms(TimeSync(c, cfg, env, i), eps, cfg, env, i + 1);
      } else {
        SyncArms(c, eps, cfg, env, i + 1);
      }
    }
  }

  /** With no timer running, just a synchronisation changes anything; then the collection timer is armed. */
  lemma StalledTick(c: Col, t: Tick, eps: Slots, cfg: Config)
    requires Stalled(c) && Clock(cfg, t.env) && t.env.now >= cfg.timeout
    ensures var s := Handle(c, t.ev, eps, cfg, t.env);
            if t.ev.Alarm? && AnySyncDue(c, eps, t.env) then
              s.sent == [] && Armed(s.col, cfg, t.env) && s.col == c.(timerDcoll := s.col.timerDcoll, sync := s.col.sync)
            else s == Step(c, [])
  {
    if t.ev.Alarm? {
      assert BeforeSync(c, eps, cfg, t.env) == Step(c, []);
      SyncArms(c, eps, cfg, t.env, 0);
      SyncKeeps(c, eps, cfg, t.env, 0);
    }
  }

  /** No alarm among `ts` finds a device that is to be told the time. */
  ghost predicate Quiet(c: Col, ts: seq<Tick>, eps: Slots, cfg: Config) {
    forall i | 0 <= i < |ts| ::
      Clock(cfg, ts[i].env) && ts[i].env.now >= cfg.timeout && (ts[i].ev.Alarm? ==> !AnySyncDue(c, eps, ts[i].env))
  }

  lemma {:induction false} StalledWhileQuiet(c: Col, ts: seq<Tick>, eps: Slots, cfg: Config)
    requires Stalled(c) && Quiet(c, ts, eps, cfg)
    ensures Ticks(c, ts, eps, cfg) == Step(c, [])
  {
    if ts != [] {
      StalledTick(c, ts[0], eps, cfg);
      StalledWhileQuiet(c, ts[1..], eps, cfg);
    }
  }

  /**
   A stalled collection stands still until the first alarm at which a device is to be told the time.
   That alarm sends nothing but arms the collection timer, and the alarm after it takes the next
   request of what was left, or ends the round.
   */
  lemma StalledUntilSync(c: Col, ts: seq<Tick>, first: Env, next: Env, eps: Slots, cfg: Config)
    requires Stalled(c) && Quiet(c, ts, eps, cfg) && (c.dataIdx >= 0 ==> eps[c.epIdx].Some?)
    requires Clock(cfg, first) && first.now >= cfg.timeout && AnySyncDue(c, eps, first) && next.now >= first.now
    ensures Ticks(c, ts, eps, cfg) == Step(c, [])
    ensures var s := Handle(c, Alarm, eps, cfg, first);
            s.sent == [] && GoesOnFrom(c, s.col, next, eps, cfg)
  {
    StalledWhileQuiet(c, ts, eps, cfg);
    StalledTick(c, Tick(Alarm, first), eps, cfg);
    ArmedTakes(c, Handle(c, Alarm, eps, cfg, first).col, first, next, eps, cfg);
  }

  /** A device that connects ends a stall just as well: the next alarm takes the next request. */
  lemma ConnectResumes(c: Col, i: nat, env: Env, next: Env, eps: Slots, cfg: Config)
    requires Stalled(c) && i < MAXEP && eps[i].Some? && (c.dataIdx >= 0 ==> eps[c.epIdx].Some?)
    requires Clock(cfg, env) && next.now >= env.now
    ensures GoesOnFrom(c, TimeSync(c.(sync := c.sync[i := 0]), cfg, env, i), next, Connected(eps, i), cfg)
  {
    var d := c.(sync := c.sync[i := 0]);
    TimeSyncArms(d, cfg, env, i);
    ArmedTakes(c, TimeSync(d, cfg, env, i), env, next, Connected(eps, i), cfg);
  }

  /** `next` is an alarm, and its main part takes the next of what was left at `c`; all of it does, if the request is taken. */
  ghost predicate GoesOnFrom(c: Col, d: Col, next: Env, eps: Slots, cfg: Config)
    requires Good(c)
  {
    && Good(d) && Takes(BeforeSync(d, eps, cfg, next), eps, Current(c, eps), Later(c, eps), next)
    && (next.taken ==> Takes(Handle(d, Alarm, eps, cfg, next), eps, Current(c, eps), Later(c, eps), next))
  }

  lemma ArmedTakes(c: Col, d: Col, env: Env, next: Env, eps: Slots, cfg: Config)
    requires Stalled(c) && (c.dataIdx >= 0 ==> eps[c.epIdx].Some?) && Clock(cfg, env) && next.now >= env.now
    requires Armed(d, cfg, env) && d.epIdx == c.epIdx && d.dataIdx == c.dataIdx
    ensures GoesOnFrom(c, d, next, eps, cfg)
  {
    SameLeft(c, d, eps);
    DueTakes(d, next, eps, cfg);
    if next.taken {
      DueTaken(d, next, eps, cfg);
    }
  }

  /** With no synchronisation timer running either, nothing ever changes again but by a connection. */
  lemma StalledForever(c: Col, ts: seq<Tick>, eps: Slots, cfg: Config)
    requires Stalled(c) && forall i | 0 <= i < MAXEP :: eps[i].Some? ==> c.sync[i] == 0
    requires forall i | 0 <= i < |ts| :: Clock(cfg, ts[i].env) && ts[i].env.now >= cfg.timeout
    ensures Ticks(c, ts, eps, cfg) == Step(c, [])
  {
    StalledWhileQuiet(c, ts, eps, cfg);
  }

  /**
   Between two rounds a synchronisation cuts the saved collection timer to 8 bits: the next round
   starts at the next alarm, however much of the period is left.
   */
  lemma SyncStartsEarly(c: Col, env: Env, next: Env, eps: Slots, cfg: Config)
    requires Idle(c) && Clock(cfg, env) && env.now - c.timerDcoll < cfg.period && next.now >= env.now
    ensures var s := Handle(c, Alarm, eps, cfg, env);
            && s.sent == [] && Good(s.col)
            && if AnySyncDue(c, eps, env) then Idle(s.col) && Due(s.col, cfg, next) else s == Step(c, [])
  {
    assert BeforeSync(c, eps, cfg, env) == Step(c, []);
    SyncArms(c, eps, cfg, env, 0);
    SyncKeeps(c, eps, cfg, env, 0);
  }

  /** A request is left that the event goes on to. */
  predicate GoesOn(c: Col, t: Tick, eps: Slots, cfg: Config)
    requires Good(c)
  {
    Effective(c, t, cfg) && ((t.ev.Chunk? && Current(c, eps) != []) || Later(c, eps) != [])
  }

  /** What stalls a round is undone in the same alarm if a device is to be told the time. */
  lemma SyncStalls(s: Step, eps: Slots, cfg: Config, env: Env, cur: seq<Request>, later: seq<seq<Request>>)
    requires Takes(s, eps, cur, later, env) && Clock(cfg, env)
    ensures Stalled(SyncAll(s.col, eps, cfg, env, 0)) <==> Stalled(s.col) && !AnySyncDue(s.col, eps, env)
  {
    if s.col.timerRecv > 0 {
      WaitingNoSync(s.col, eps, cfg, env, 0);
    } else {
      SyncArms(s.col, eps, cfg, env, 0);
      if s.col.timerDcoll > 0 {
        SyncKeepsArmed(s.col, eps, cfg, env, 0);
      }
    }
  }

  lemma ChunkStallsIff(c: Col, t: Tick, eps: Slots, cfg: Config)
    requires Waiting(c, eps) && Clock(cfg, t.env) && t.ev.Chunk?
    ensures Stalled(Handle(c, t.ev, eps, cfg, t.env).col) <==>
              Refused(c, t, cfg) || (!t.env.taken && GoesOn(c, t, eps, cfg))
  {
    if Refused(c, t, cfg) {
      assert Handle(c, t.ev, eps, cfg, t.env) == Step(c.(timerRecv := 0), []);
    } else {
      HandleTakes(c, t, eps, cfg);
      GroupsNonEmpty(eps, c.epIdx + 1);
    }
  }

  lemma AlarmStallsIff(c: Col, eps: Slots, cfg: Config, env: Env)
    requires Waiting(c, eps) && Clock(cfg, env)
    ensures Stalled(Handle(c, Alarm, eps, cfg, env).col) <==>
              !env.taken && Expired(c, cfg, env) && Later(c, eps) != [] && !AnySyncDue(c, eps, env)
  {
    AlarmTakes(c, eps, cfg, env);
    GroupsNonEmpty(eps, c.epIdx + 1);
    if Expired(c, cfg, env) {
      var s := BeforeSync(c, eps, cfg, env);
      SyncStalls(s, eps, cfg, env, [], Later(c, eps));
      SameDue(c, s.col, eps, env);
    } else {
      WaitingNoSync(c, eps, cfg, env, 0);
    }
  }

  lemma SameDue(c: Col, d: Col, eps: Slots, env: Env)
    requires c.sync == d.sync
    ensures AnySyncDue(c, eps, env) <==> AnySyncDue(d, eps, env)
  {
    assert forall j | 0 <= j < MAXEP :: SyncDue(c, eps, env, j) <==> SyncDue(d, eps, env, j);
  }

  /**
   While an answer is awaited, exactly two things stall the round: a chunk that is late or too long,
   and a next request that the lower layer does not take - unless the alarm that finds this goes on
   to tell a device the time.
   */
  lemma StallsIff(c: Col, t: Tick, eps: Slots, cfg: Config)
    requires Waiting(c, eps) && Clock(cfg, t.env)
    ensures Stalled(Handle(c, t.ev, eps, cfg, t.env).col) <==>
              Refused(c, t, cfg)
              || (!t.env.taken && GoesOn(c, t, eps, cfg) && (t.ev.Alarm? ==> !AnySyncDue(c, eps, t.env)))
  {
    match t.ev
    case Chunk(_, _) => ChunkStallsIff(c, t, eps, cfg);
    case Alarm => AlarmStallsIff(c, eps, cfg, t.env);
  }

  /** The alarm that opens a round stalls it exactly if there is a request, it is not taken, and no device is to be told the time. */
  lemma OpeningStallsIff(c: Col, env: Env, eps: Slots, cfg: Config)
    requires Idle(c) && Due(c, cfg, env)
    ensures Stalled(Handle(c, Alarm, eps, cfg, env).col) <==>
              !env.taken && AllRequests(eps) != [] && !AnySyncDue(c, eps, env)
  {
    BeginTakes(c, env, eps, cfg);
    GroupsNonEmpty(eps, 0);
    SyncStalls(BeforeSync(c, eps, cfg, env), eps, cfg, env, [], Groups(eps, 0));
    SameDue(c, BeforeSync(c, eps, cfg, env).col, eps, env);
  }

}
