/**
 What every handler of the link layer has in common: the numbers its frames carry and the counters
 it moves.  The proofs about runs and networks rest on these facts alone.
 */
module LinkShape {
  import opened Prelude
  import opened Bytes
  import opened ApduFrame
  import opened LinkLayer

  predicate SameParameters(a: Ep, b: Ep) {
    a.host == b.host && a.k == b.k && a.w == b.w
  }

  /** `o` sends from `ep`: every frame carries the counters of `ep` and moves just its own counter. */
  predicate SendsFrom(ep: Ep, o: Out) {
    && SameParameters(o.ep, ep) && o.ep.ackS == ep.ackS && o.ep.vr == ep.vr
    && (match o.i
        case None => o.ep.vs == ep.vs
        case Some(f) => f.I? && f.sendNum == ep.vs && f.recvNum == ep.vr && f.data != []
                        && Ahead(ep.vs, ep.ackS) <= ep.k && o.ep.vs == (ep.vs + 1) % MODULUS)
    && (match o.s
        case None => o.ep.ackR == ep.ackR
        case Some(f) => f == S(ep.vr) && o.ep.ackR == ep.vr)
    && (o.u.Some? ==> o.u.value.U?)
  }

  /** The counters once the numbers of a received frame are taken. */
  function Heard(ep: Ep, f: Frame, accepted: bool): Ep {
    var e := if !f.U? && CheckRecvNum(ep, f.recvNum) then ep.(ackS := f.recvNum) else ep;
    if accepted then e.(vr := (e.vr + 1) % MODULUS) else e
  }

  /** `o` is a lawful reaction to frame `f`. */
  predicate Reacts(ep: Ep, f: Frame, parse: Payload -> Kind, o: Out) {
    && SendsFrom(Heard(ep, f, o.accepted.Some?), o)
    && (o.accepted.Some? ==>
          && f.I? && o.accepted.value == f.data && CheckRecvNum(ep, f.recvNum) && CheckSendNum(ep, f.sendNum)
          && !parse(f.data).Unparsed?)
    && (f.I? && CheckRecvNum(ep, f.recvNum) && CheckSendNum(ep, f.sendNum) && !parse(f.data).Unparsed? ==>
          o.accepted.Some?)
    && (o.reconnect <==> f.I? && !(CheckRecvNum(ep, f.recvNum) && CheckSendNum(ep, f.sendNum)))
  }

  /** Events that restart the counters. */
  predicate Resets(ev: Event) {
    ev.Connected? || ev.Disconnected? || (ev.Reconnect? && ev.ok)
  }

  lemma USendSendsFrom(ep: Ep, cmd: byte, env: Env)
    ensures SendsFrom(ep, USend(ep, cmd, env))
    ensures var o := USend(ep, cmd, env);
            o.ep.uCmd == ep.uCmd && o.u == (if env.okU then Some(U(cmd)) else None)
            && o.i == None && (o.s.Some? ==> MaySend(ep) && (cmd == STOPDT_ACT || cmd == STOPDT_CON))
            && (o.res == Success <==> env.okU) && o.accepted == None && !o.reconnect && o.up == []
  {
  }

  lemma StartReacts(ep: Ep, cmd: byte, parse: Payload -> Kind, env: Env)
    requires cmd == STARTDT_ACT || cmd == STARTDT_CON
    ensures Reacts(ep, U(cmd), parse, URecv(ep, cmd, env))
  {
    USendSendsFrom(ep.(uCmd := STARTDT_ACT), STARTDT_CON, env);
  }

  lemma URecvReacts(ep: Ep, cmd: byte, parse: Payload -> Kind, env: Env)
    ensures Reacts(ep, U(cmd), parse, URecv(ep, cmd, env))
  {
    if cmd == STARTDT_ACT || cmd == STARTDT_CON {
      StartReacts(ep, cmd, parse, env);
    } else {
      USendSendsFrom(ep.(uCmd := STOPDT_ACT), STOPDT_CON, env);
      USendSendsFrom(ep, TESTFR_CON, env);
    }
  }

  lemma TakeSendsFrom(ep: Ep, data: Payload, kind: Kind, env: Env)
    ensures var o := Take(ep, data, kind, env);
            && SendsFrom(if o.accepted.Some? then ep.(vr := (ep.vr + 1) % MODULUS) else ep, o)
            && (o.accepted.Some? <==> !kind.Unparsed?) && (o.accepted.Some? ==> o.accepted.value == data)
            && o.s == None && o.u == None && !o.reconnect && o.ep.uCmd == ep.uCmd
            && (o.i.Some? ==> MaySend(ep))
  {
  }

  lemma AckSendsFrom(base: Ep, o: Out, ok: bool)
    requires SendsFrom(base, o) && o.s == None
    ensures var a := AckIfDue(o, ok);
            && SendsFrom(base, a) && a == o.(ep := a.ep, s := a.s) && a.ep.uCmd == o.ep.uCmd
            && (a.s.Some? ==> MaySend(o.ep))
  {
  }

  lemma IRecvReacts(ep: Ep, f: Frame, parse: Payload -> Kind, env: Env)
    requires f.I?
    ensures Reacts(ep, f, parse, IRecv(ep, f, parse(f.data), env))
    ensures var o := IRecv(ep, f, parse(f.data), env);
            o.u == None && o.ep.uCmd == ep.uCmd && (o.i.Some? || o.s.Some? ==> MaySend(ep))
  {
    var acked := ep.(ackS := f.recvNum);
    var o := Take(acked, f.data, parse(f.data), env);
    TakeSendsFrom(acked, f.data, parse(f.data), env);
    AckSendsFrom(if o.accepted.Some? then acked.(vr := (acked.vr + 1) % MODULUS) else acked, o, env.okS);
  }

  lemma RecvReacts(ep: Ep, f: Frame, parse: Payload -> Kind, env: Env)
    ensures Reacts(ep, f, parse, Recv(ep, f, parse, env))
  {
    match f
    case I(_, _, _) => IRecvReacts(ep, f, parse, env);
    case S(_) =>
    case U(cmd) => URecvReacts(ep, cmd, parse, env);
  }

  /** A local event that restarts nothing only sends. */
  lemma LocalSendsFrom(ep: Ep, ev: Event, parse: Payload -> Kind, env: Env)
    requires !ev.Receive? && !Resets(ev)
    ensures SendsFrom(ep, Step(ep, ev, parse, env))
    ensures Step(ep, ev, parse, env).accepted == None && !Step(ep, ev, parse, env).reconnect
  {
    USendSendsFrom(ep, STOPDT_ACT, env);
    USendSendsFrom(ep, TESTFR_ACT, env);
    match ev case _ =>
  }

  lemma StepKeepsParameters(ep: Ep, ev: Event, parse: Payload -> Kind, env: Env)
    ensures SameParameters(Step(ep, ev, parse, env).ep, ep)
  {
    if ev.Receive? {
      RecvReacts(ep, ev.frame, parse, env);
    } else if Resets(ev) {
      USendSendsFrom(Init(ep), STARTDT_ACT, env);
    } else {
      LocalSendsFrom(ep, ev, parse, env);
    }
  }

  /** What an accepted payload means to the upper level: the two commands concern a slave alone. */
  function Told(host: Host, d: Payload, parse: Payload -> Kind): seq<Up> {
    match parse(d)
    case Process => [Asdu(d)]
    case Interrogation => if host == Slave then [GeneralInterrogation] else []
    case ClockSync => if host == Slave then [TimeSync] else []
    case Unparsed(_) => []
  }

  /** The messages that something was received. */
  function Content(up: seq<Up>): seq<Up> {
    if up == [] then [] else (if up[0].Online? then [] else [up[0]]) + Content(up[1..])
  }

  /** At most one message up, and what an accepted payload means exactly if there is one. */
  predicate UpRight(o: Out, host: Host, parse: Payload -> Kind) {
    && |o.up| <= 1
    && Content(o.up) == match o.accepted case None => [] case Some(d) => Told(host, d, parse)
  }

  /** A payload that is sent is the given one, and a command is one of the six of IEC 60870-5-104. */
  predicate FramesRight(o: Out, given: Option<Payload>) {
    && (o.i.Some? && o.i.value.I? ==> Some(o.i.value.data) == given)
    && (o.u.Some? ==> o.u.value.U? && o.u.value.cmd % 4 == 0)
  }

  lemma StartRight(ep: Ep, cmd: byte, parse: Payload -> Kind, env: Env)
    requires cmd == STARTDT_ACT || cmd == STARTDT_CON
    ensures UpRight(URecv(ep, cmd, env), ep.host, parse) && FramesRight(URecv(ep, cmd, env), env.reply)
  {
    USendSendsFrom(ep.(uCmd := STARTDT_ACT), STARTDT_CON, env);
  }

  lemma URecvRight(ep: Ep, cmd: byte, parse: Payload -> Kind, env: Env)
    ensures UpRight(URecv(ep, cmd, env), ep.host, parse) && FramesRight(URecv(ep, cmd, env), env.reply)
  {
    if cmd == STARTDT_ACT || cmd == STARTDT_CON {
      StartRight(ep, cmd, parse, env);
    } else {
      USendSendsFrom(ep.(uCmd := STOPDT_ACT), STOPDT_CON, env);
      USendSendsFrom(ep, TESTFR_CON, env);
    }
  }

  lemma TakeRight(ep: Ep, data: Payload, parse: Payload -> Kind, env: Env)
    ensures UpRight(Take(ep, data, parse(data), env), ep.host, parse) && FramesRight(Take(ep, data, parse(data), env), env.reply)
  {
  }

  lemma AckRight(o: Out, ok: bool, host: Host, parse: Payload -> Kind, given: Option<Payload>)
    requires UpRight(o, host, parse) && FramesRight(o, given)
    ensures UpRight(AckIfDue(o, ok), host, parse) && FramesRight(AckIfDue(o, ok), given)
  {
  }

  lemma IRecvRight(ep: Ep, f: Frame, parse: Payload -> Kind, env: Env)
    requires f.I?
    ensures var o := IRecv(ep, f, parse(f.data), env); UpRight(o, ep.host, parse) && FramesRight(o, env.reply)
  {
    var acked := ep.(ackS := f.recvNum);
    TakeRight(acked, f.data, parse, env);
    AckRight(Take(acked, f.data, parse(f.data), env), env.okS, ep.host, parse, env.reply);
  }

  lemma RecvRight(ep: Ep, f: Frame, parse: Payload -> Kind, env: Env)
    ensures UpRight(Recv(ep, f, parse, env), ep.host, parse) && FramesRight(Recv(ep, f, parse, env), env.reply)
  {
    match f
    case I(_, _, _) => IRecvRight(ep, f, parse, env);
    case S(_) =>
    case U(cmd) => URecvRight(ep, cmd, parse, env);
  }

  lemma LocalRight(ep: Ep, ev: Event, parse: Payload -> Kind, env: Env)
    requires !ev.Receive?
    ensures var o := Step(ep, ev, parse, env);
            UpRight(o, ep.host, parse) && FramesRight(o, if ev.Send? then ev.asdu else env.reply)
  {
    USendSendsFrom(ep, STOPDT_ACT, env);
    USendSendsFrom(ep, TESTFR_ACT, env);
    USendSendsFrom(Init(ep), STARTDT_ACT, env);
  }

  /** A payload a handler sends is the one its event or its reply brought. */
  lemma SentOrigin(ep: Ep, ev: Event, parse: Payload -> Kind, env: Env)
    ensures var o := Step(ep, ev, parse, env);
            o.i.Some? && o.i.value.I? ==> Some(o.i.value.data) == (if ev.Send? then ev.asdu else env.reply)
  {
    match ev
    case Receive(f) => RecvRight(ep, f, parse, env);
    case _ => LocalRight(ep, ev, parse, env);
  }

  /**
   A handler sends at most one message to the upper level: an ASDU exactly if it accepted one to be
   processed, and the news of an interrogation or a clock synchronisation exactly if a slave accepted one.
   */
  lemma UpMessages(ep: Ep, ev: Event, parse: Payload -> Kind, env: Env)
    ensures var o := Step(ep, ev, parse, env);
            && |o.up| <= 1
            && Content(o.up) == (match o.accepted case None => [] case Some(d) => Told(ep.host, d, parse))
  {
    match ev
    case Receive(f) => RecvRight(ep, f, parse, env);
    case _ => LocalRight(ep, ev, parse, env);
  }

  /** Every command a handler sends is one of the six of IEC 60870-5-104. */
  lemma CommandsFit(ep: Ep, ev: Event, parse: Payload -> Kind, env: Env)
    ensures var o := Step(ep, ev, parse, env); o.u.Some? ==> o.u.value.U? && o.u.value.cmd % 4 == 0
  {
    match ev
    case Receive(f) => RecvRight(ep, f, parse, env);
    case _ => LocalRight(ep, ev, parse, env);
  }

}
