/**
 What an end point answers, with the codes of section 5.3 of IEC 60870-5-104 written out: every command it
 sends, over whole runs, and when it sends data and acknowledgements.
 */
module LinkReplies {
  import opened Prelude
  import opened Bytes
  import opened ApduFrame
  import opened LinkLayer
  import opened LinkShape
  import opened LinkRun

  // ---------------------------------------------------------------- one command

  /** A test request is answered by every end point, a test confirmation by none; nothing else happens. */
  lemma TestTaken(ep: Ep, parse: Payload -> Kind, env: Env)
    ensures var o := Recv(ep, U(0x40), parse, env);
            o.ep == ep && Frames(o) == (if env.okU then [U(0x80)] else []) && o.up == [] && o.accepted == None && !o.reconnect
    ensures var o := Recv(ep, U(0x80), parse, env);
            o.ep == ep && Frames(o) == [] && o.up == [] && o.accepted == None && !o.reconnect
  {
  }

  /** A slave confirms a start request and is started exactly if the confirmation goes out; a master ignores it. */
  lemma StartTaken(ep: Ep, parse: Payload -> Kind, env: Env)
    ensures var o := Recv(ep, U(0x04), parse, env);
            && o.accepted == None && !o.reconnect
            && (if ep.host == Master then o.ep == ep && Frames(o) == [] && o.up == []
                else o.ep == ep.(uCmd := if env.okU then 0x08 else 0x04)
                     && Frames(o) == (if env.okU then [U(0x08)] else []) && o.up == [Online])
  {
  }

  /** A slave confirms a stop request and is stopped exactly if the confirmation goes out; a master ignores it. */
  lemma StopTaken(ep: Ep, parse: Payload -> Kind, env: Env)
    ensures var o := Recv(ep, U(0x10), parse, env);
            && o.up == [] && o.accepted == None && !o.reconnect
            && (if ep.host == Master then o.ep == ep && Frames(o) == []
                else o.ep == ep.(uCmd := if env.okU then 0x20 else 0x10)
                     && Frames(o) == if env.okU then [U(0x20)] else [])
  {
  }

  /** The confirmations: a master is started, with a clock synchronisation, or stopped; a slave ignores both. */
  lemma ConfirmationTaken(ep: Ep, parse: Payload -> Kind, env: Env)
    ensures var o := Recv(ep, U(0x08), parse, env);
            if ep.host == Slave then o.ep == ep && Frames(o) == [] && o.up == []
            else var sent := ISend(ep.(uCmd := 0x08), env.reply, env.okI);
                 o.ep == sent.ep && Frames(o) == Frames(sent) && o.up == [Online]
    ensures var o := Recv(ep, U(0x20), parse, env);
            o.ep == (if ep.host == Master then ep.(uCmd := 0x20) else ep) && Frames(o) == [] && o.up == []
  {
  }

  /** Anything else is no command. */
  lemma OtherTaken(ep: Ep, cmd: byte, parse: Payload -> Kind, env: Env)
    requires cmd != 0x04 && cmd != 0x08 && cmd != 0x10 && cmd != 0x20 && cmd != 0x40 && cmd != 0x80
    ensures var o := Recv(ep, U(cmd), parse, env);
            o.ep == ep && Frames(o) == [] && o.up == [] && o.res == Incorrect
  {
  }

  /** A connection that comes up, goes down or is asked for anew restarts all counters in the stopped state. */
  lemma Restarts(ep: Ep, ev: Event, parse: Payload -> Kind, env: Env)
    requires Resets(ev)
    ensures var o := Step(ep, ev, parse, env);
            && o.ep.vs == o.ep.vr == o.ep.ackS == o.ep.ackR == 0 && SameParameters(o.ep, ep)
            && o.ep.uCmd == (if ev.Connected? && ep.host == Master then 0x04 else 0x20)
            && Frames(o) == if ev.Connected? && ep.host == Master && env.okU then [U(0x04)] else []
  {
  }

  /**
   A master that is to close, or any end point that is to quit as one, asks for the stop behind an
   acknowledgement of what it owes, and counts as stopping whether or not the request goes out.
   */
  lemma StopRequested(ep: Ep, parse: Payload -> Kind, env: Env)
    ensures var o := Step(ep, Quit(true), parse, env);
            var owing := (ep.host == Master || ep.uCmd == 0x08) && ep.ackR != ep.vr && env.okS;
            && o.ep == ep.(uCmd := 0x10, ackR := if owing then ep.vr else ep.ackR)
            && Frames(o) == (if owing then [S(ep.vr)] else []) + (if env.okU then [U(0x10)] else [])
    ensures Step(ep, Close, parse, env) == Step(ep, Quit(ep.host == Master), parse, env)
    ensures var o := Step(ep, Quit(false), parse, env); o.ep == ep && Frames(o) == []
  {
  }

  // ---------------------------------------------------------------- all commands of a run

  /** The commands among `fs`. */
  function CommandsIn(fs: seq<Frame>): seq<byte> {
    if fs == [] then [] else (if fs[0].U? then [fs[0].cmd] else []) + CommandsIn(fs[1..])
  }

  /** The command a stimulus calls for. */
  function Due(host: Host, ev: Event): seq<byte> {
    match ev
    case Connected => if host == Master then [0x04] else []
    case Close => if host == Master then [0x10] else []
    case Quit(byMaster) => if byMaster then [0x10] else []
    case TestTimer => [0x40]
    case Receive(U(cmd)) =>
      if cmd == 0x40 then [0x80]
      else if host == Slave && cmd == 0x04 then [0x08]
      else if host == Slave && cmd == 0x10 then [0x20]
      else []
    case _ => []
  }

  lemma {:induction false} CommandsAppend(a: seq<Frame>, b: seq<Frame>)
    ensures CommandsIn(a + b) == CommandsIn(a) + CommandsIn(b)
  {
    if a == [] {
      assert a + b == b;
    } else {
      CommandsAppend(a[1..], b);
      assert (a + b)[1..] == a[1..] + b;
    }
  }

  /** The commands a handler sends are those in its third place. */
  lemma FramesCommands(o: Out)
    requires (o.i.Some? ==> o.i.value.I?) && (o.s.Some? ==> o.s.value.S?) && (o.u.Some? ==> o.u.value.U?)
    ensures CommandsIn(Frames(o)) == if o.u.Some? then [o.u.value.cmd] else []
  {
    CommandsAppend(Opt(o.i) + Opt(o.s), Opt(o.u));
    CommandsAppend(Opt(o.i), Opt(o.s));
    assert forall f: Frame :: [f][1..] == [];
  }

  lemma SendsCommand(base: Ep, o: Out)
    requires SendsFrom(base, o)
    ensures CommandsIn(Frames(o)) == if o.u.Some? then [o.u.value.cmd] else []
  {
    FramesCommands(o);
  }

  lemma LocalDue(ep: Ep, ev: Event, parse: Payload -> Kind, env: Env)
    requires !ev.Receive? && !Resets(ev)
    ensures CommandsIn(Frames(Step(ep, ev, parse, env))) == if env.okU then Due(ep.host, ev) else []
  {
    LocalSendsFrom(ep, ev, parse, env);
    SendsCommand(ep, Step(ep, ev, parse, env));
    USendSendsFrom(ep, STOPDT_ACT, env);
    USendSendsFrom(ep, TESTFR_ACT, env);
  }

  lemma RecvDue(ep: Ep, f: Frame, parse: Payload -> Kind, env: Env)
    ensures CommandsIn(Frames(Recv(ep, f, parse, env))) == if env.okU then Due(ep.host, Receive(f)) else []
  {
    var o := Recv(ep, f, parse, env);
    RecvReacts(ep, f, parse, env);
    SendsCommand(Heard(ep, f, o.accepted.Some?), o);
    match f
    case I(_, _, _) => IRecvReacts(ep, f, parse, env);
    case S(_) =>
    case U(cmd) => CommandDue(ep, cmd, parse, env, o);
  }

  lemma CommandDue(ep: Ep, cmd: byte, parse: Payload -> Kind, env: Env, o: Out)
    requires o == Recv(ep, U(cmd), parse, env)
    ensures (if o.u.Some? then [o.u.value] else []) == if env.okU then (if Due(ep.host, Receive(U(cmd))) == [] then [] else [U(Due(ep.host, Receive(U(cmd)))[0])]) else []
  {
    USendSendsFrom(ep.(uCmd := STARTDT_ACT), STARTDT_CON, env);
    USendSendsFrom(ep.(uCmd := STOPDT_ACT), STOPDT_CON, env);
    USendSendsFrom(ep, TESTFR_CON, env);
  }

  /** Whatever state an end point is in, the stimulus and its host type decide which command it sends. */
  lemma StepDue(ep: Ep, ev: Event, parse: Payload -> Kind, env: Env)
    ensures CommandsIn(Frames(Step(ep, ev, parse, env))) == if env.okU then Due(ep.host, ev) else []
  {
    if ev.Receive? {
      RecvDue(ep, ev.frame, parse, env);
    } else if Resets(ev) {
      Restarts(ep, ev, parse, env);
      assert forall f: Frame :: [f][1..] == [];
    } else {
      LocalDue(ep, ev, parse, env);
    }
  }

  /** All frames of a run, in order. */
  function Sent(ep: Ep, st: seq<Stimulus>, parse: Payload -> Kind): seq<Frame> {
    if st == [] then []
    else Sent(ep, st[..|st| - 1], parse) + Frames(OutAt(ep, st, parse, |st| - 1))
  }

  /** The commands a run calls for and the lower layer takes. */
  function AllDue(host: Host, st: seq<Stimulus>): seq<byte> {
    if st == [] then []
    else AllDue(host, st[..|st| - 1]) + if st[|st| - 1].env.okU then Due(host, st[|st| - 1].ev) else []
  }

  /** In every run the commands sent are exactly those called for, in order, and none else. */
  lemma {:induction false} RunCommands(ep: Ep, st: seq<Stimulus>, parse: Payload -> Kind)
    ensures CommandsIn(Sent(ep, st, parse)) == AllDue(ep.host, st) && EpRun(ep, st, parse).host == ep.host
  {
    if st != [] {
      var n := |st| - 1;
      var e := EpRun(ep, st[..n], parse);
      RunCommands(ep, st[..n], parse);
      StepDue(e, st[n].ev, parse, st[n].env);
      StepKeepsParameters(e, st[n].ev, parse, st[n].env);
      CommandsAppend(Sent(ep, st[..n], parse), Frames(OutAt(ep, st, parse, n)));
    }
  }

  /** How often command `cmd` is received. */
  function Received(st: seq<Stimulus>, cmd: byte): nat {
    if st == [] then 0 else Received(st[..|st| - 1], cmd) + if st[|st| - 1].ev == Receive(U(cmd)) then 1 else 0
  }

  lemma {:induction false} DueCounts(host: Host, st: seq<Stimulus>)
    requires forall i | 0 <= i < |st| :: st[i].env.okU
    ensures var due := multiset(AllDue(host, st));
            && due[0x80] == Received(st, 0x40)
            && due[0x08] == (if host == Slave then Received(st, 0x04) else 0)
            && due[0x20] == (if host == Slave then Received(st, 0x10) else 0)
  {
    if st != [] {
      DueCounts(host, st[..|st| - 1]);
      OneDue(host, st[|st| - 1].ev, 0x80);
      OneDue(host, st[|st| - 1].ev, 0x08);
      OneDue(host, st[|st| - 1].ev, 0x20);
    }
  }

  lemma OneDue(host: Host, ev: Event, con: byte)
    requires con == 0x08 || con == 0x20 || con == 0x80
    ensures multiset(Due(host, ev))[con] == if ev == Receive(U(con / 2)) && (con == 0x80 || host == Slave) then 1 else 0
  {
    DueIff(host, ev, con);
    CountOne(Due(host, ev), con);
  }

  lemma DueIff(host: Host, ev: Event, con: byte)
    requires con == 0x08 || con == 0x20 || con == 0x80
    ensures |Due(host, ev)| <= 1
    ensures Due(host, ev) == [con] <==> ev == Receive(U(con / 2)) && (con == 0x80 || host == Slave)
  {
  }

  lemma CountOne(due: seq<byte>, con: byte)
    requires |due| <= 1
    ensures multiset(due)[con] == if due == [con] then 1 else 0
  {
    if |due| == 1 {
      assert due == [due[0]];
    }
  }

  /**
   Every test request is answered, in every run of either host; of start and stop requests a slave
   answers every one and a master none; and no confirmation is sent that was not asked for.
   */
  lemma RequestsAnswered(ep: Ep, st: seq<Stimulus>, parse: Payload -> Kind)
    requires forall i | 0 <= i < |st| :: st[i].env.okU
    ensures var sent := multiset(CommandsIn(Sent(ep, st, parse)));
            && sent[0x80] == Received(st, 0x40)
            && sent[0x08] == (if ep.host == Slave then Received(st, 0x04) else 0)
            && sent[0x20] == (if ep.host == Slave then Received(st, 0x10) else 0)
  {
    RunCommands(ep, st, parse);
    DueCounts(ep.host, st);
  }

  // ---------------------------------------------------------------- data and acknowledgements

  /** The distance of two numbers of 15 bits is modulo 2^15; of wider ones it may be negative, as a remainder of C is. */
  lemma Distance(x: u16, y: u16)
    ensures Ahead(x, y) == if x as int + 32768 < y then x as int + 32768 - y else (x as int - y + 32768) % 32768
  {
  }

  /** May it send data, and is the window of `k` + 1 frames open? */
  predicate Free(ep: Ep) {
    (ep.host == Master || ep.uCmd == 0x08) && (ep.vs as int - ep.ackS + 32768) % 32768 <= ep.k
  }

  /** An ASDU goes out exactly if it can, with the present counters, and then V(S) counts up. */
  lemma DataSent(ep: Ep, asdu: Option<Payload>, parse: Payload -> Kind, env: Env)
    requires Counting(ep)
    ensures var o := Step(ep, Send(asdu), parse, env);
            if Free(ep) && asdu.Some? && asdu.value != [] && env.okI then
              Frames(o) == [I(ep.vs, ep.vr, asdu.value)] && o.ep == ep.(vs := (ep.vs + 1) % 32768)
            else Frames(o) == [] && o.ep == ep
  {
  }

  /** The start confirmation makes a master send its clock synchronisation in just the same way. */
  lemma StartSynchronises(ep: Ep, parse: Payload -> Kind, env: Env)
    requires Counting(ep) && ep.host == Master
    ensures Frames(Recv(ep, U(0x08), parse, env))
              == if Free(ep) && env.reply.Some? && env.reply.value != [] && env.okI then [I(ep.vs, ep.vr, env.reply.value)] else []
  {
  }

  /** A right and parseable information frame. */
  predicate Right(ep: Ep, f: Frame, parse: Payload -> Kind) {
    && f.I? && f.sendNum == ep.vr && !parse(f.data).Unparsed?
    && (f.recvNum as int - ep.ackS + 32768) % 32768 <= (ep.vs as int - ep.ackS + 32768) % 32768
  }

  /** A slave answers an interrogation or a clock synchronisation with its reply, which acknowledges the command. */
  lemma CommandReplied(ep: Ep, f: Frame, parse: Payload -> Kind, env: Env)
    requires Counting(ep) && Numbered(f) && Right(ep, f, parse) && env.reply.Some? && env.reply.value != [] && env.okI
    ensures var o := Recv(ep, f, parse, env);
            o.i == if parse(f.data) != Process && ep.host == Slave && Free(ep.(ackS := f.recvNum))
                   then Some(I(ep.vs, (ep.vr + 1) % 32768, env.reply.value)) else None
  {
  }

  /** Frames received and not acknowledged. */
  function Unacknowledged(ep: Ep): int {
    (ep.vr as int - ep.ackR + 32768) % 32768
  }

  /** An S frame acknowledges everything, and is due once at least `w` frames, and at least one, are unacknowledged. */
  lemma AcknowledgedIff(ep: Ep, f: Frame, parse: Payload -> Kind, env: Env)
    requires Counting(ep) && Numbered(f) && Right(ep, f, parse)
    ensures var o := Recv(ep, f, parse, env);
            var next := ep.(vr := (ep.vr + 1) % 32768);
            o.s == if Unacknowledged(next) >= Max1(ep.w) && (ep.host == Master || ep.uCmd == 0x08) && env.okS
                   then Some(S(next.vr)) else None
  {
    var acked := ep.(ackS := f.recvNum);
    TakeSendsFrom(acked, f.data, parse(f.data), env);
  }

  /** The acknowledgement timer, and an information frame with a wrong number, acknowledge whatever is not yet. */
  lemma AcknowledgedNow(ep: Ep, f: Frame, parse: Payload -> Kind, env: Env)
    requires Counting(ep) && Numbered(f) && f.I?
    requires f.sendNum != ep.vr || (f.recvNum as int - ep.ackS + 32768) % 32768 > (ep.vs as int - ep.ackS + 32768) % 32768
    ensures var due := Unacknowledged(ep) > 0 && (ep.host == Master || ep.uCmd == 0x08) && env.okS;
            && Frames(Step(ep, AckTimer, parse, env)) == (if due then [S(ep.vr)] else [])
            && Frames(Recv(ep, f, parse, env)) == (if due then [S(ep.vr)] else [])
  {
  }

  // ---------------------------------------------------------------- response codes

  function Sending(sent: Option<Frame>): Res {
    if sent.Some? then Success else Incorrect
  }

  /** A request succeeds exactly if its frame goes out; no ASDU to send is an error of its own. */
  lemma RequestResult(ep: Ep, ev: Event, parse: Payload -> Kind, env: Env)
    requires !ev.Receive?
    ensures var o := Step(ep, ev, parse, env);
            o.res == match ev
                     case Send(asdu) =>
                       if asdu == None && (ep.host == Master || ep.uCmd == 0x08) then MemAlloc else Sending(o.i)
                     case AckTimer => Sending(o.s)
                     case TestTimer => Sending(o.u)
                     case Connected => if ep.host == Master then Sending(o.u) else Success
                     case Close => if ep.host == Master then Sending(o.u) else Success
                     case Quit(byMaster) => if byMaster then Sending(o.u) else Success
                     case Reconnect(ok) => if ok then Success else Incorrect
                     case _ => Success
  {
    USendSendsFrom(ep, STOPDT_ACT, env);
    USendSendsFrom(ep, TESTFR_ACT, env);
    USendSendsFrom(Init(ep), STARTDT_ACT, env);
  }

  /** What a received frame is answered with to the caller: wrong numbers, unknown commands, and why a payload does not parse. */
  lemma RecvResult(ep: Ep, f: Frame, parse: Payload -> Kind, env: Env)
    requires Counting(ep) && Numbered(f)
    ensures Recv(ep, f, parse, env).res
              == match f
                 case U(cmd) =>
                   if cmd == 0x04 || cmd == 0x08 || cmd == 0x10 || cmd == 0x20 || cmd == 0x40 || cmd == 0x80 then Success else Incorrect
                 case S(recvNum) =>
                   if (recvNum as int - ep.ackS + 32768) % 32768 <= (ep.vs as int - ep.ackS + 32768) % 32768 then Success else Incorrect
                 case I(sendNum, recvNum, data) =>
                   if sendNum != ep.vr || (recvNum as int - ep.ackS + 32768) % 32768 > (ep.vs as int - ep.ackS + 32768) % 32768 then Incorrect
                   else match parse(data) case Unparsed(error) => error case _ => Success
  {
  }

}
