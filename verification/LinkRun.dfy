/**
 Whole runs of one end point, against any sequence of events and received frames: counter bounds,
 the window bound, the acknowledgement bound, and start/stop gating of a slave.
 */
module LinkRun {
  import opened Prelude
  import opened Bytes
  import opened ApduFrame
  import opened LinkLayer
  import opened LinkShape

  datatype Stimulus = Stimulus(ev: Event, env: Env)

  /** The state after a sequence of stimuli. */
  function EpRun(ep: Ep, st: seq<Stimulus>, parse: Payload -> Kind): Ep {
    if st == [] then ep
    else Step(EpRun(ep, st[..|st| - 1], parse), st[|st| - 1].ev, parse, st[|st| - 1].env).ep
  }

  /** What the end point does on stimulus number `i`. */
  function OutAt(ep: Ep, st: seq<Stimulus>, parse: Payload -> Kind, i: nat): Out
    requires i < |st|
  {
    Step(EpRun(ep, st[..i], parse), st[i].ev, parse, st[i].env)
  }

  lemma RunNext(ep: Ep, st: seq<Stimulus>, parse: Payload -> Kind, i: nat)
    requires i < |st|
    ensures EpRun(ep, st[..i + 1], parse) == OutAt(ep, st, parse, i).ep
  {
    assert st[..i + 1][..i] == st[..i];
  }

  // ---------------------------------------------------------------- counters and windows

  /** A frame as the APCI parser delivers it: 15-bit numbers. */
  predicate Numbered(f: Frame) {
    match f
    case I(sendNum, recvNum, _) => sendNum < MODULUS && recvNum < MODULUS
    case S(recvNum) => recvNum < MODULUS
    case U(_) => true
  }

  predicate Parsed(ev: Event) {
    ev.Receive? ==> Numbered(ev.frame)
  }

  predicate Counting(ep: Ep) {
    ep.vs < MODULUS && ep.vr < MODULUS && ep.ackS < MODULUS && ep.ackR < MODULUS
  }

  /** Counters below 2^15 and at most k + 1 frames unacknowledged. */
  predicate Healthy(ep: Ep) {
    Counting(ep) && Ahead(ep.vs, ep.ackS) <= ep.k + 1
  }

  /** Moving the acknowledged number forward within the window shrinks the window. */
  lemma AheadShrinks(vs: u16, old': u16, new': u16)
    requires vs < MODULUS && old' < MODULUS && new' < MODULUS
    requires Ahead(new', old') <= Ahead(vs, old')
    ensures Ahead(vs, new') == Ahead(vs, old') - Ahead(new', old')
  {
  }

  lemma SSendHealthy(ep: Ep, ok: bool)
    requires Healthy(ep)
    ensures Healthy(SSend(ep, ok).ep)
  {
  }

  lemma ISendHealthy(ep: Ep, asdu: Option<Payload>, ok: bool)
    requires Healthy(ep)
    ensures Healthy(ISend(ep, asdu, ok).ep)
  {
  }

  lemma TakeHealthy(ep: Ep, data: Payload, kind: Kind, env: Env)
    requires Healthy(ep)
    ensures Healthy(Take(ep, data, kind, env).ep)
  {
    ISendHealthy(ep.(vr := (ep.vr + 1) % MODULUS), env.reply, env.okI);
  }

  lemma AckHealthy(o: Out, ok: bool)
    requires Healthy(o.ep)
    ensures Healthy(AckIfDue(o, ok).ep)
  {
    SSendHealthy(o.ep, ok);
  }

  lemma IRecvHealthy(ep: Ep, f: Frame, kind: Kind, env: Env)
    requires Healthy(ep) && f.I? && Numbered(f)
    ensures Healthy(IRecv(ep, f, kind, env).ep)
  {
    SSendHealthy(ep, env.okS);
    if CheckRecvNum(ep, f.recvNum) {
      var acked := ep.(ackS := f.recvNum);
      AheadShrinks(ep.vs, ep.ackS, f.recvNum);
      SSendHealthy(acked, env.okS);
      TakeHealthy(acked, f.data, kind, env);
      AckHealthy(Take(acked, f.data, kind, env), env.okS);
    }
  }

  lemma USendHealthy(ep: Ep, cmd: byte, env: Env)
    requires Healthy(ep)
    ensures Healthy(USend(ep, cmd, env).ep)
  {
  }

  lemma URecvHealthy(ep: Ep, cmd: byte, env: Env)
    requires Healthy(ep)
    ensures Healthy(URecv(ep, cmd, env).ep)
  {
    USendHealthy(ep.(uCmd := STARTDT_ACT), STARTDT_CON, env);
    USendHealthy(ep.(uCmd := STOPDT_ACT), STOPDT_CON, env);
    USendHealthy(ep, TESTFR_CON, env);
    ISendHealthy(ep.(uCmd := STARTDT_CON), env.reply, env.okI);
  }

  lemma RecvHealthy(ep: Ep, f: Frame, parse: Payload -> Kind, env: Env)
    requires Healthy(ep) && Numbered(f)
    ensures Healthy(Recv(ep, f, parse, env).ep)
  {
    match f
    case I(_, _, data) => IRecvHealthy(ep, f, parse(data), env);
    case S(recvNum) =>
      if CheckRecvNum(ep, recvNum) {
        AheadShrinks(ep.vs, ep.ackS, recvNum);
      }
    case U(cmd) => URecvHealthy(ep, cmd, env);
  }

  lemma StepHealthy(ep: Ep, ev: Event, parse: Payload -> Kind, env: Env)
    requires Healthy(ep) && Parsed(ev)
    ensures Healthy(Step(ep, ev, parse, env).ep)
  {
    match ev
    case Receive(f) => RecvHealthy(ep, f, parse, env);
    case Send(asdu) => ISendHealthy(ep, asdu, env.okI);
    case AckTimer => SSendHealthy(ep, env.okS);
    case _ =>
      USendHealthy(ep, STOPDT_ACT, env);
      USendHealthy(ep, TESTFR_ACT, env);
      USendHealthy(Init(ep), STARTDT_ACT, env);
  }

  /** Every run keeps the counters below 2^15 and the window at most k + 1. */
  lemma {:induction false} RunHealthy(ep: Ep, st: seq<Stimulus>, parse: Payload -> Kind)
    requires Healthy(ep)
    requires forall i | 0 <= i < |st| :: Parsed(st[i].ev)
    ensures Healthy(EpRun(ep, st, parse))
  {
    if st != [] {
      var n := |st| - 1;
      RunHealthy(ep, st[..n], parse);
      StepHealthy(EpRun(ep, st[..n], parse), st[n].ev, parse, st[n].env);
    }
  }

  /** Received frames not yet acknowledged. */
  function Owed(ep: Ep): int {
    Ahead(ep.vr, ep.ackR)
  }

  function Max1(w: nat): nat {
    if w == 0 then 1 else w
  }

  predicate CountingIn(ep: Ep) {
    ep.vr < MODULUS && ep.ackR < MODULUS && MaySend(ep)
  }

  lemma SSendClears(ep: Ep)
    requires CountingIn(ep)
    ensures Owed(SSend(ep, true).ep) == 0
  {
  }

  lemma AckIfDueClears(o: Out)
    requires CountingIn(o.ep)
    ensures Owed(AckIfDue(o, true).ep) < Max1(o.ep.w)
  {
    SSendClears(o.ep);
  }

  lemma TakeCounts(ep: Ep, data: Payload, kind: Kind, env: Env)
    requires CountingIn(ep)
    ensures CountingIn(Take(ep, data, kind, env).ep) && Take(ep, data, kind, env).ep.w == ep.w
  {
    TakeSendsFrom(ep, data, kind, env);
  }

  /** An I frame, accepted or not, leaves fewer than max(w, 1) frames unacknowledged. */
  lemma IRecvAcknowledges(ep: Ep, f: Frame, kind: Kind, env: Env)
    requires Counting(ep) && f.I? && MaySend(ep) && env.okS
    ensures Owed(IRecv(ep, f, kind, env).ep) < Max1(ep.w)
  {
    var acked := ep.(ackS := f.recvNum);
    SSendClears(ep);
    SSendClears(acked);
    TakeCounts(acked, f.data, kind, env);
    AckIfDueClears(Take(acked, f.data, kind, env));
  }

  lemma StepAcknowledges(ep: Ep, ev: Event, parse: Payload -> Kind, env: Env)
    requires Counting(ep) && ep.host == Master && env.okS && Owed(ep) < Max1(ep.w)
    ensures Owed(Step(ep, ev, parse, env).ep) < Max1(ep.w)
  {
    match ev
    case Receive(f) => if f.I? { IRecvAcknowledges(ep, f, parse(f.data), env); }
    case _ =>
  }

  /** A master whose S frames are always taken never owes w acknowledgements, in any run. */
  lemma {:induction false} RunAcknowledges(ep: Ep, st: seq<Stimulus>, parse: Payload -> Kind)
    requires Healthy(ep) && ep.host == Master && Owed(ep) < Max1(ep.w)
    requires forall i | 0 <= i < |st| :: Parsed(st[i].ev) && st[i].env.okS
    ensures var e := EpRun(ep, st, parse);
            e.host == Master && e.w == ep.w && Owed(e) < Max1(ep.w)
  {
    if st != [] {
      var n := |st| - 1;
      RunAcknowledges(ep, st[..n], parse);
      RunHealthy(ep, st[..n], parse);
      StepAcknowledges(EpRun(ep, st[..n], parse), st[n].ev, parse, st[n].env);
      StepKeepsParameters(EpRun(ep, st[..n], parse), st[n].ev, parse, st[n].env);
    }
  }

  // ---------------------------------------------------------------- start/stop gating

  /** A start request whose confirmation goes out. */
  predicate Confirms(ev: Event, o: Out) {
    ev == Receive(U(STARTDT_ACT)) && o.u == Some(U(STARTDT_CON))
  }

  /** The end of data transfer: a stop request, a reset, or a start that could not be confirmed. */
  predicate Ending(ev: Event, o: Out) {
    || Resets(ev)
    || (ev.Quit? && ev.byMaster)
    || ev == Receive(U(STOPDT_ACT))
    || (ev == Receive(U(STARTDT_ACT)) && o.u == None)
  }

  /** The same for a received command. */
  lemma SlaveCommand(ep: Ep, cmd: byte, env: Env)
    requires ep.host == Slave
    ensures var o := URecv(ep, cmd, env);
            && (cmd == STARTDT_ACT ==> (o.ep.uCmd == STARTDT_CON <==> o.u == Some(U(STARTDT_CON))) && o.s == None)
            && (cmd == STOPDT_ACT ==> o.ep.uCmd != STARTDT_CON && o.s == None)
            && (cmd != STARTDT_ACT && cmd != STOPDT_ACT ==> o.ep.uCmd == ep.uCmd && o.s == None)
            && (o.u == None || o.u.value.U?) && o.i == None
            && (cmd == STARTDT_ACT ==> o.u == None || o.u == Some(U(STARTDT_CON)))
  {
    USendSendsFrom(ep.(uCmd := STARTDT_ACT), STARTDT_CON, env);
    USendSendsFrom(ep.(uCmd := STOPDT_ACT), STOPDT_CON, env);
    USendSendsFrom(ep, TESTFR_CON, env);
  }

  /** How one event changes a slave's permission to send. */
  lemma SlaveStep(ep: Ep, ev: Event, parse: Payload -> Kind, env: Env)
    requires ep.host == Slave
    ensures var o := Step(ep, ev, parse, env);
            && (Confirms(ev, o) ==> o.ep.uCmd == STARTDT_CON)
            && (Ending(ev, o) ==> o.ep.uCmd != STARTDT_CON)
            && (!Confirms(ev, o) && !Ending(ev, o) ==> o.ep.uCmd == ep.uCmd)
            && (o.i.Some? || o.s.Some? ==>
                  ep.uCmd == STARTDT_CON && !Confirms(ev, o) && ev != Receive(U(STOPDT_ACT)) && !Resets(ev))
  {
    match ev
    case Receive(f) =>
      match f {
        case I(_, _, _) => IRecvReacts(ep, f, parse, env);
        case S(_) =>
        case U(cmd) => SlaveCommand(ep, cmd, env);
      }
    case _ =>
      USendSendsFrom(ep, STOPDT_ACT, env);
      USendSendsFrom(ep, TESTFR_ACT, env);
  }

  predicate Starts(ep: Ep, st: seq<Stimulus>, parse: Payload -> Kind, i: nat)
    requires i < |st|
  {
    Confirms(st[i].ev, OutAt(ep, st, parse, i))
  }

  predicate Ends(ep: Ep, st: seq<Stimulus>, parse: Payload -> Kind, i: nat)
    requires i < |st|
  {
    Ending(st[i].ev, OutAt(ep, st, parse, i))
  }

  /** Some start lies before `n`, and no end between the two. */
  ghost predicate InForce(starts: nat -> bool, ends: nat -> bool, n: nat) {
    exists j: nat | j < n :: starts(j) && forall m: nat | j < m < n :: !ends(m)
  }

  lemma InForceNext(starts: nat -> bool, ends: nat -> bool, i: nat)
    ensures InForce(starts, ends, i + 1) <==> starts(i) || (InForce(starts, ends, i) && !ends(i))
  {
    if InForce(starts, ends, i) && !ends(i) {
      var j: nat :| j < i && starts(j) && forall m: nat | j < m < i :: !ends(m);
      assert forall m: nat | j < m < i + 1 :: !ends(m);
    }
    if InForce(starts, ends, i + 1) && !starts(i) {
      var j: nat :| j < i + 1 && starts(j) && forall m: nat | j < m < i + 1 :: !ends(m);
      assert !ends(i);
      assert forall m: nat | j < m < i :: !ends(m);
    }
  }

  function StartsAt(ep: Ep, st: seq<Stimulus>, parse: Payload -> Kind): nat -> bool {
    (i: nat) => i < |st| && Starts(ep, st, parse, i)
  }

  function EndsAt(ep: Ep, st: seq<Stimulus>, parse: Payload -> Kind): nat -> bool {
    (i: nat) => i < |st| && Ends(ep, st, parse, i)
  }

  /** Before stimulus `n` there is a confirmed start that nothing has ended since. */
  ghost predicate Started(ep: Ep, st: seq<Stimulus>, parse: Payload -> Kind, n: nat) {
    InForce(StartsAt(ep, st, parse), EndsAt(ep, st, parse), n)
  }

  /** One more stimulus: a start is in force after it iff it is one, or one was and it is no end. */
  lemma StartedNext(ep: Ep, st: seq<Stimulus>, parse: Payload -> Kind, i: nat)
    requires i < |st|
    ensures Started(ep, st, parse, i + 1) <==>
              Starts(ep, st, parse, i) || (Started(ep, st, parse, i) && !Ends(ep, st, parse, i))
  {
    InForceNext(StartsAt(ep, st, parse), EndsAt(ep, st, parse), i);
  }

  /** A slave is in the started state exactly when a confirmed start is in force. */
  lemma {:induction false} SlaveStartedIff(ep: Ep, st: seq<Stimulus>, parse: Payload -> Kind, n: nat)
    requires n <= |st| && ep.host == Slave && ep.uCmd != STARTDT_CON
    ensures EpRun(ep, st[..n], parse).host == Slave
    ensures EpRun(ep, st[..n], parse).uCmd == STARTDT_CON <==> Started(ep, st, parse, n)
  {
    if n > 0 {
      var i := n - 1;
      SlaveStartedIff(ep, st, parse, i);
      RunNext(ep, st, parse, i);
      StepKeepsParameters(EpRun(ep, st[..i], parse), st[i].ev, parse, st[i].env);
      SlaveStep(EpRun(ep, st[..i], parse), st[i].ev, parse, st[i].env);
      StartedNext(ep, st, parse, i);
    }
  }

  /**
   Every I or S frame a slave emits follows a start request it confirmed, with no stop request
   received, no reset, and no unconfirmed start in between - and the emitting stimulus itself is
   neither the start, nor a stop request, nor a reset.
   */
  lemma SlaveGating(ep: Ep, st: seq<Stimulus>, parse: Payload -> Kind, i: nat)
    requires i < |st| && ep.host == Slave && ep.uCmd != STARTDT_CON
    requires OutAt(ep, st, parse, i).i.Some? || OutAt(ep, st, parse, i).s.Some?
    ensures Started(ep, st, parse, i) && !Starts(ep, st, parse, i)
    ensures st[i].ev != Receive(U(STOPDT_ACT)) && !Resets(st[i].ev)
  {
    SlaveStartedIff(ep, st, parse, i);
    SlaveStep(EpRun(ep, st[..i], parse), st[i].ev, parse, st[i].env);
  }

  // ---------------------------------------------------------------- acknowledging before a stop

  predicate StopSent(o: Out) {
    o.u == Some(U(STOPDT_ACT)) || o.u == Some(U(STOPDT_CON))
  }

  /**
   A stop command is to go out behind an acknowledgement of everything received.  It does exactly if
   nothing is owed or an end point that may send asks for the stop: a slave that confirms one has
   left the started state before it tries to acknowledge, and what it owed stays unacknowledged.
   */
  lemma StopAcknowledgesIff(ep: Ep, ev: Event, parse: Payload -> Kind, env: Env)
    requires StopSent(Step(ep, ev, parse, env)) && env.okS
    ensures var o := Step(ep, ev, parse, env);
            && o.ep.vr == ep.vr
            && (o.ep.ackR == o.ep.vr <==> ep.ackR == ep.vr || (MaySend(ep) && o.u == Some(U(STOPDT_ACT))))
            && (o.ep.ackR != ep.ackR ==> Frames(o) == [S(ep.vr), o.u.value])
  {
    USendSendsFrom(ep, STOPDT_ACT, env);
    match ev
    case Receive(f) =>
      RecvReacts(ep, f, parse, env);
      match f {
        case I(_, _, _) => IRecvReacts(ep, f, parse, env);
        case S(_) =>
        case U(cmd) =>
          USendSendsFrom(ep.(uCmd := STARTDT_ACT), STARTDT_CON, env);
          USendSendsFrom(ep.(uCmd := STOPDT_ACT), STOPDT_CON, env);
          USendSendsFrom(ep, TESTFR_CON, env);
      }
    case _ =>
  }

}
