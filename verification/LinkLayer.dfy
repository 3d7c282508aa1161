/**
 One end point of the IEC 60870-5-104 link layer: the frame handlers of unitlinks/src/iec104.c.

 The functions say what one handler does to the end point's counters and which frames it hands to
 the lower layer; class `EndPoint` carries the same fields as `iec104_ep_ext` and its methods, which
 update them in place, are proved against those functions.  The C timers are not kept: an expiry
 is an event that may happen at any moment.
 */
module LinkLayer {
  import opened Prelude
  import opened Bytes
  import opened ApduFrame

  /** Sequence numbers count modulo 2^15. */
  const MODULUS: nat := 32768

  const STARTDT_ACT: byte := 0x04
  const STARTDT_CON: byte := 0x08
  const STOPDT_ACT: byte := 0x10
  const STOPDT_CON: byte := 0x20
  const TESTFR_ACT: byte := 0x40
  const TESTFR_CON: byte := 0x80

  datatype Host = Master | Slave

  type Payload = Data

  /** What parsing a received payload as an ASDU leads to. */
  datatype Kind = Unparsed(error: Res) | Interrogation | ClockSync | Process

  /**
   The protocol fields of `iec104_ep_ext`.  `ackS` and `ackR` are the source's `as` and `ar`: the
   last own frame the peer acknowledged, and the last peer frame this end acknowledged.
   */
  datatype Ep = Ep(host: Host, uCmd: byte, vs: u16, vr: u16, ackS: u16, ackR: u16, k: u16, w: u16)

  /** Whether each hand-over to the lower layer succeeds, and the ASDU built as a reply, if any. */
  datatype Env = Env(okI: bool, okS: bool, okU: bool, reply: Option<Payload>)

  /** Messages to the upper level. */
  datatype Up = Online | GeneralInterrogation | TimeSync | Asdu(data: Payload)

  /**
   What a handler did: the new fields, the frames sent (never more than one of each format, in
   this order), messages to the upper level, the payload whose number was accepted, whether a
   re-connect was requested, and the response code.
   */
  datatype Out = Out(ep: Ep, i: Option<Frame>, s: Option<Frame>, u: Option<Frame>, up: seq<Up>,
                     accepted: Option<Payload>, reconnect: bool, res: Res)

  function Silent(ep: Ep, res: Res): Out {
    Out(ep, None, None, None, [], None, false, res)
  }

  function Opt(f: Option<Frame>): seq<Frame> {
    match f case None => [] case Some(v) => [v]
  }

  /** The frames of a handler in the order they reach the lower layer. */
  function Frames(o: Out): seq<Frame> {
    Opt(o.i) + Opt(o.s) + Opt(o.u)
  }

  /** The remainder of C, which takes the sign of the dividend. */
  function CRem(x: int, m: int): int
    requires m > 0
  {
    if x >= 0 then x % m else -((-x) % m)
  }

  /** (x - y + 32768) % 32768 as C computes it. */
  function Ahead(x: u16, y: u16): int {
    CRem(x - y + MODULUS, MODULUS)
  }

  predicate CheckSendNum(ep: Ep, sendNum: u16) {
    sendNum == ep.vr
  }

  predicate CheckRecvNum(ep: Ep, recvNum: u16) {
    Ahead(recvNum, ep.ackS) <= Ahead(ep.vs, ep.ackS)
  }

  /** Only a slave waits for the start of data transfer before it sends. */
  predicate MaySend(ep: Ep) {
    ep.host == Slave ==> ep.uCmd == STARTDT_CON
  }

  /** iec104_init_ep_ext. */
  function Init(ep: Ep): Ep {
    ep.(uCmd := STOPDT_CON, vs := 0, vr := 0, ackS := 0, ackR := 0)
  }

  /** iec104_frame_s_send. */
  function SSend(ep: Ep, ok: bool): Out {
    if !MaySend(ep) || ep.ackR == ep.vr || !ok then Silent(ep, Incorrect)
    else Silent(ep.(ackR := ep.vr), Success).(s := Some(S(ep.vr)))
  }

  /** iec104_frame_i_send; `asdu` is the outcome of building the ASDU.  A frame without data is not built. */
  function ISend(ep: Ep, asdu: Option<Payload>, ok: bool): Out {
    if !MaySend(ep) then Silent(ep, Incorrect)
    else if asdu.None? then Silent(ep, MemAlloc)
    else if Ahead(ep.vs, ep.ackS) > ep.k || asdu.value == [] || !ok then Silent(ep, Incorrect)
    else Silent(ep.(vs := (ep.vs + 1) % MODULUS), Success).(i := Some(I(ep.vs, ep.vr, asdu.value)))
  }

  /** iec104_frame_u_send. */
  function USend(ep: Ep, cmd: byte, env: Env): Out {
    var o := if cmd == STOPDT_ACT || cmd == STOPDT_CON then SSend(ep, env.okS) else Silent(ep, Success);
    if env.okU then o.(u := Some(U(cmd)), res := Success) else o.(res := Incorrect)
  }

  /** iec104_frame_u_recv. */
  function URecv(ep: Ep, cmd: byte, env: Env): Out {
    if cmd == STARTDT_ACT then
      if ep.host == Master then Silent(ep, Success)
      else
        var o := USend(ep.(uCmd := STARTDT_ACT), STARTDT_CON, env);
        o.(ep := if o.res == Success then o.ep.(uCmd := STARTDT_CON) else o.ep, up := [Online], res := Success)
    else if cmd == STARTDT_CON then
      if ep.host == Slave then Silent(ep, Success)
      else ISend(ep.(uCmd := STARTDT_CON), env.reply, env.okI).(up := [Online], res := Success)
    else if cmd == STOPDT_ACT then
      if ep.host == Master then Silent(ep, Success)
      else
        var o := USend(ep.(uCmd := STOPDT_ACT), STOPDT_CON, env);
        o.(ep := if o.res == Success then o.ep.(uCmd := STOPDT_CON) else o.ep, res := Success)
    else if cmd == STOPDT_CON then
      if ep.host == Slave then Silent(ep, Success) else Silent(ep.(uCmd := STOPDT_CON), Success)
    else if cmd == TESTFR_ACT then USend(ep, TESTFR_CON, env).(res := Success)
    else if cmd == TESTFR_CON then Silent(ep, Success)
    else Silent(ep, Incorrect)
  }

  /** iec104_frame_s_recv. */
  function SRecv(ep: Ep, recvNum: u16): Out {
    if CheckRecvNum(ep, recvNum) then Silent(ep.(ackS := recvNum), Success) else Silent(ep, Incorrect)
  }

  /** The end of iec104_frame_i_recv: acknowledge once `w` frames are unacknowledged. */
  function AckIfDue(o: Out, ok: bool): Out {
    if Ahead(o.ep.vr, o.ep.ackR) >= o.ep.w then
      var a := SSend(o.ep, ok);
      o.(ep := a.ep, s := a.s)
    else o
  }

  /** The middle of iec104_frame_i_recv: take the payload and answer commands. */
  function Take(ep: Ep, data: Payload, kind: Kind, env: Env): Out {
    var next := ep.(vr := (ep.vr + 1) % MODULUS);
    match kind
    case Unparsed(error) => Silent(ep, error)
    case Process => Silent(next, Success).(up := [Asdu(data)], accepted := Some(data))
    case _ =>
      if ep.host == Master then Silent(next, Success).(accepted := Some(data))
      else ISend(next, env.reply, env.okI).(
           up := [if kind.Interrogation? then GeneralInterrogation else TimeSync],
           accepted := Some(data), res := Success)
  }

  /** iec104_frame_i_recv; `kind` is the outcome of parsing the payload. */
  function IRecv(ep: Ep, f: Frame, kind: Kind, env: Env): Out
    requires f.I?
  {
    if !CheckRecvNum(ep, f.recvNum) then SSend(ep, env.okS).(reconnect := true, res := Incorrect)
    else
      var acked := ep.(ackS := f.recvNum);
      if !CheckSendNum(acked, f.sendNum) then SSend(acked, env.okS).(reconnect := true, res := Incorrect)
      else AckIfDue(Take(acked, f.data, kind, env), env.okS)
  }

  /** The dispatch of iec104_frame_recv. */
  function Recv(ep: Ep, f: Frame, parse: Payload -> Kind, env: Env): Out {
    match f
    case I(_, _, data) => IRecv(ep, f, parse(data), env)
    case S(recvNum) => SRecv(ep, recvNum)
    case U(cmd) => URecv(ep, cmd, env)
  }

  /** Everything that can happen to an end point. */
  datatype Event =
    | Connected                      // EP_MSG_CONNECT_ACK
    | Disconnected                   // EP_MSG_CONNECT_NACK, EP_MSG_CONNECT_LOST
    | Reconnect(ok: bool)            // timers t0, t1 or rc
    | Close                          // EP_MSG_CONNECT_CLOSE
    | Quit(byMaster: bool)           // EP_MSG_QUIT, addressed to a master or not
    | AckTimer                       // timer t2
    | TestTimer                      // timer t3
    | Send(asdu: Option<Payload>)    // user data, interrogation, clock synchronisation
    | Receive(frame: Frame)

  function StopRequest(ep: Ep, env: Env): Out {
    var o := USend(ep, STOPDT_ACT, env);
    o.(ep := o.ep.(uCmd := STOPDT_ACT))
  }

  /** The handler each event runs. */
  function Step(ep: Ep, ev: Event, parse: Payload -> Kind, env: Env): Out {
    match ev
    case Connected =>
      if ep.host == Slave then Silent(Init(ep), Success)
      else
        var o := USend(Init(ep), STARTDT_ACT, env);
        o.(ep := o.ep.(uCmd := STARTDT_ACT))
    case Disconnected => Silent(Init(ep), Success)
    case Reconnect(ok) => if ok then Silent(Init(ep), Success) else Silent(ep, Incorrect)
    case Close => if ep.host == Master then StopRequest(ep, env) else Silent(ep, Success)
    case Quit(byMaster) => if byMaster then StopRequest(ep, env) else Silent(ep, Success)
    case AckTimer => SSend(ep, env.okS)
    case TestTimer => USend(ep, TESTFR_ACT, env)
    case Send(asdu) => ISend(ep, asdu, env.okI)
    case Receive(f) => Recv(ep, f, parse, env)
  }

  /**
   The end point object; `wire` is what it handed to the lower layer, in order: the bytes of one
   frame each.  `sent` are these frames.
   */
  class EndPoint {
    const host: Host
    const k: u16
    const w: u16
    var uCmd: byte
    var vs: u16
    var vr: u16
    var ackS: u16
    var ackR: u16
    var wire: seq<seq<byte>>
    ghost var sent: seq<Frame>

    ghost predicate Valid()
      reads this
    {
      wire == Segments(sent)
    }

    ghost function View(): Ep
      reads this
    {
      Ep(host, uCmd, vs, vr, ackS, ackR, k, w)
    }

    /** iec104_add_ep_ext, with the window parameters of the configuration file. */
    constructor (host: Host, k: u16, w: u16)
      ensures Valid() && View() == Ep(host, STOPDT_CON, 0, 0, 0, 0, k, w) && wire == [] && sent == []
    {
      this.host, this.k, this.w := host, k, w;
      uCmd := STOPDT_CON;
      vs, vr, ackS, ackR := 0, 0, 0, 0;
      wire, sent := [], [];
    }

    method Reset()
      modifies this
      ensures View() == Init(old(View())) && wire == old(wire) && sent == old(sent)
    {
      uCmd := STOPDT_CON;
      vs, vr, ackS, ackR := 0, 0, 0, 0;
    }

    /** iec104_frame_send: the frame is built, and on the wire when the lower layer takes its bytes. */
    method FrameSend(f: Frame, ok: bool) returns (res: Res)
      requires Valid()
      modifies this`wire, this`sent
      ensures Valid() && (res == Success <==> ok && Build(f).Some?) && (res != Success ==> res == Incorrect)
      ensures if res == Success then wire == old(wire) + [Build(f).value] && sent == old(sent) + [f]
              else wire == old(wire) && sent == old(sent)
    {
      var buf;
      res, buf := BuildBuffer(f);
      if res == Success && ok {
        SegmentsAppend(sent, [f]);
        wire, sent := wire + [buf[..]], sent + [f];
      } else {
        res := Incorrect;
      }
    }

    method FrameSSend(env: Env) returns (res: Res)
      requires Valid()
      modifies this
      ensures Valid()
      ensures var o := SSend(old(View()), env.okS);
              View() == o.ep && sent == old(sent) + Frames(o) && res == o.res
    {
      if host == Slave && uCmd != STARTDT_CON {
        return Incorrect;
      }
      if ackR == vr {
        return Incorrect;
      }
      res := FrameSend(S(vr), env.okS);
      if res == Success {
        ackR := vr;
      }
    }

    method FrameISend(asdu: Option<Payload>, env: Env) returns (res: Res)
      requires Valid()
      modifies this
      ensures Valid()
      ensures var o := ISend(old(View()), asdu, env.okI);
              View() == o.ep && sent == old(sent) + Frames(o) && res == o.res
    {
      if host == Slave && uCmd != STARTDT_CON {
        return Incorrect;
      }
      if asdu.None? {
        return MemAlloc;
      }
      if Ahead(vs, ackS) <= k {
        res := FrameSend(I(vs, vr, asdu.value), env.okI);
      } else {
        res := Incorrect;
      }
      if res == Success {
        vs := (vs + 1) % MODULUS;
      }
    }

    method FrameUSend(cmd: byte, env: Env) returns (res: Res)
      requires Valid()
      modifies this
      ensures Valid()
      ensures var o := USend(old(View()), cmd, env);
              View() == o.ep && sent == old(sent) + Frames(o) && res == o.res
    {
      if cmd == STOPDT_ACT || cmd == STOPDT_CON {
        var _ := FrameSSend(env);
      }
      res := FrameSend(U(cmd), env.okU);
    }

    method FrameURecv(cmd: byte, env: Env) returns (res: Res, up: seq<Up>)
      requires Valid()
      modifies this
      ensures Valid()
      ensures var o := URecv(old(View()), cmd, env);
              View() == o.ep && sent == old(sent) + Frames(o) && res == o.res && up == o.up
    {
      up := [];
      res := Success;
      if cmd == STARTDT_ACT {
        if host == Master {
          return;
        }
        up := [Online];
        uCmd := STARTDT_ACT;
        var sent := FrameUSend(STARTDT_CON, env);
        if sent == Success {
          uCmd := STARTDT_CON;
        }
      } else if cmd == STARTDT_CON {
        if host == Slave {
          return;
        }
        up := [Online];
        uCmd := STARTDT_CON;
        var _ := FrameISend(env.reply, env);
      } else if cmd == STOPDT_ACT {
        if host == Master {
          return;
        }
        uCmd := STOPDT_ACT;
        var sent := FrameUSend(STOPDT_CON, env);
        if sent == Success {
          uCmd := STOPDT_CON;
        }
      } else if cmd == STOPDT_CON {
        if host == Slave {
          return;
        }
        uCmd := STOPDT_CON;
      } else if cmd == TESTFR_ACT {
        var _ := FrameUSend(TESTFR_CON, env);
      } else if cmd != TESTFR_CON {
        res := Incorrect;
      }
    }

    method FrameSRecv(recvNum: u16) returns (res: Res)
      requires Valid()
      modifies this
      ensures Valid()
      ensures var o := SRecv(old(View()), recvNum);
              View() == o.ep && sent == old(sent) && res == o.res
    {
      if Ahead(recvNum, ackS) <= Ahead(vs, ackS) {
        ackS := recvNum;
        return Success;
      }
      return Incorrect;
    }

    method FrameIRecv(f: Frame, kind: Kind, env: Env) returns (res: Res, up: seq<Up>, reconnect: bool)
      requires f.I?
      requires Valid()
      modifies this
      ensures Valid()
      ensures var o := IRecv(old(View()), f, kind, env);
              View() == o.ep && sent == old(sent) + Frames(o) && res == o.res && up == o.up && reconnect == o.reconnect
    {
      up := [];
      reconnect := false;
      if Ahead(f.recvNum, ackS) > Ahead(vs, ackS) {
        var _ := FrameSSend(env);
        return Incorrect, [], true;
      }
      ackS := f.recvNum;
      if f.sendNum != vr {
        var _ := FrameSSend(env);
        return Incorrect, [], true;
      }
      res, up := TakeAndAck(f.data, kind, env);
    }

    method TakeAndAck(data: Payload, kind: Kind, env: Env) returns (res: Res, up: seq<Up>)
      requires Valid()
      modifies this
      ensures Valid()
      ensures var o := AckIfDue(Take(old(View()), data, kind, env), env.okS);
              View() == o.ep && sent == old(sent) + Frames(o) && res == o.res && up == o.up && !o.reconnect
    {
      ghost var ep := View();
      res, up := TakePayload(data, kind, env);
      FrameAckIfDue(Take(ep, data, kind, env), env);
    }

    method FrameAckIfDue(ghost o: Out, env: Env)
      requires View() == o.ep && o.s.None? && o.u.None?
      requires Valid()
      modifies this
      ensures Valid()
      ensures View() == AckIfDue(o, env.okS).ep
      ensures Frames(AckIfDue(o, env.okS)) == Frames(o) + Opt(AckIfDue(o, env.okS).s)
      ensures sent == old(sent) + Opt(AckIfDue(o, env.okS).s)
    {
      if Ahead(vr, ackR) >= w {
        var _ := FrameSSend(env);
      }
    }

    /** The part of iec104_frame_i_recv between the number checks and the acknowledgement. */
    method TakePayload(data: Payload, kind: Kind, env: Env) returns (res: Res, up: seq<Up>)
      requires Valid()
      modifies this
      ensures Valid()
      ensures var o := Take(old(View()), data, kind, env);
              View() == o.ep && sent == old(sent) + Frames(o) && res == o.res && up == o.up
    {
      if kind.Unparsed? {
        return kind.error, [];
      }
      vr := (vr + 1) % MODULUS;
      res, up := Success, [];
      if kind == Process {
        up := [Asdu(data)];
      } else if host == Slave {
        up := [if kind.Interrogation? then GeneralInterrogation else TimeSync];
        var _ := FrameISend(env.reply, env);
      }
    }

    /** One pass of the receive loop of iec104_frame_recv. */
    method FrameRecv(f: Frame, parse: Payload -> Kind, env: Env) returns (up: seq<Up>, reconnect: bool)
      requires Valid()
      modifies this
      ensures Valid()
      ensures var o := Recv(old(View()), f, parse, env);
              View() == o.ep && sent == old(sent) + Frames(o) && up == o.up && reconnect == o.reconnect
    {
      up := [];
      reconnect := false;
      match f
      case I(_, _, data) =>
        var _, u, r := FrameIRecv(f, parse(data), env);
        up, reconnect := u, r;
      case S(recvNum) =>
        var _ := FrameSRecv(recvNum);
      case U(cmd) =>
        var _, u := FrameURecv(cmd, env);
        up := u;
    }
  }

}
