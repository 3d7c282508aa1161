/**
 Two end points over channels that lose nothing: no genuine frame is ever refused, and what was sent
 is exactly what was accepted plus what is under way.
 */
module LinkLossless {
  import opened LinkLayer
  import opened LinkShape
  import opened LinkNetwork

  /** The payload fits a frame, and parses. */
  predicate Parses(d: Payload, parse: Payload -> Kind) {
    Sized(d) && !parse(d).Unparsed?
  }

  /** A move that loses nothing: no drop, acknowledgements go out, and the payloads fit a frame and parse. */
  predicate Lossless(m: Move, parse: Payload -> Kind) {
    match m.act
    case Drop(_) => false
    case Deliver(env) => WorkingEnv(env, parse)
    case Local(ev, env) => WorkingEnv(env, parse) && (ev.Send? && ev.asdu.Some? ==> Parses(ev.asdu.value, parse))
  }

  predicate WorkingEnv(env: Env, parse: Payload -> Kind) {
    env.okS && (env.reply.Some? ==> Parses(env.reply.value, parse))
  }

  predicate AllLossless(ms: seq<Move>, parse: Payload -> Kind) {
    forall i | 0 <= i < |ms| :: Lossless(ms[i], parse)
  }

  /** The information frames in `ch` are exactly numbers `from` up to |sent|, without a gap. */
  predicate InFlight(ch: seq<Pkt>, from: nat, sent: seq<Payload>) {
    if ch == [] then from == |sent|
    else if ch[0].frame.I? then
      ch[0].ns == from && from < |sent| && ch[0].frame.data == sent[from] && InFlight(ch[1..], from + 1, sent)
    else InFlight(ch[1..], from, sent)
  }

  predicate AllParse(ds: seq<Payload>, parse: Payload -> Kind) {
    forall i | 0 <= i < |ds| :: Parses(ds[i], parse)
  }

  predicate Gapless(n: Net, parse: Payload -> Kind) {
    && InFlight(n.pq, |n.q.got|, n.p.sent) && InFlight(n.qp, |n.p.got|, n.q.sent)
    && AllParse(n.p.sent, parse) && AllParse(n.q.sent, parse)
  }

  lemma {:induction false} InFlightAppend(ch: seq<Pkt>, from: nat, sent: seq<Payload>, k: Pkt)
    requires InFlight(ch, from, sent)
    ensures !k.frame.I? ==> InFlight(ch + [k], from, sent)
    ensures k.frame.I? && k.ns == |sent| ==> InFlight(ch + [k], from, sent + [k.frame.data])
  {
    if ch == [] {
      assert ([k])[1..] == [];
    } else {
      InFlightAppend(ch[1..], if ch[0].frame.I? then from + 1 else from, sent, k);
      assert (ch + [k])[1..] == ch[1..] + [k];
    }
  }

  /** What a handler sends extends the gapless sequence. */
  lemma SendInFlight(s: Side, o: Out, base: Ep, from: nat, got: nat, ch: seq<Pkt>)
    requires SendsFrom(base, o) && InFlight(ch, from, s.sent)
    ensures InFlight(ch + Packets(o, |s.sent|, got), from, After(s, o, 0).sent)
  {
    var i := if o.i.Some? then [Pkt(o.i.value, |s.sent|, got)] else [];
    var sup := if o.s.Some? then [Pkt(o.s.value, 0, got)] else [];
    var u := if o.u.Some? then [Pkt(o.u.value, 0, 0)] else [];
    var sent := After(s, o, 0).sent;
    if o.i.Some? {
      InFlightAppend(ch, from, s.sent, i[0]);
    } else {
      assert ch + i == ch && sent == s.sent;
    }
    if o.s.Some? {
      InFlightAppend(ch + i, from, sent, sup[0]);
    } else {
      assert ch + i + sup == ch + i;
    }
    if o.u.Some? {
      InFlightAppend(ch + i + sup, from, sent, u[0]);
    } else {
      assert ch + i + sup + u == ch + i + sup;
    }
    assert ch + Packets(o, |s.sent|, got) == ch + i + sup + u;
  }

  /** Payloads a handler sends parse. */
  lemma SentParses(ep: Ep, ev: Event, parse: Payload -> Kind, env: Env)
    requires WorkingEnv(env, parse) && (ev.Send? && ev.asdu.Some? ==> Parses(ev.asdu.value, parse))
    ensures var o := Step(ep, ev, parse, env); o.i.Some? && o.i.value.I? ==> Parses(o.i.value.data, parse)
  {
    SentOrigin(ep, ev, parse, env);
  }

  /** What a handler sends keeps both directions gapless, once what it accepted is taken off. */
  lemma EmitGapless(n: Net, o: Out, acked: nat, base: Ep, parse: Payload -> Kind)
    requires SendsFrom(base, o) && (o.i.Some? && o.i.value.I? ==> Parses(o.i.value.data, parse))
    requires InFlight(n.pq, |n.q.got|, n.p.sent) && InFlight(n.qp, |After(n.p, o, acked).got|, n.q.sent)
    requires AllParse(n.p.sent, parse) && AllParse(n.q.sent, parse)
    ensures Gapless(Emit(n, o, acked), parse)
  {
    SendInFlight(n.p, o, base, |n.q.got|, |After(n.p, o, acked).got|, n.pq);
  }

  lemma LocalGapless(n: Net, ev: Event, parse: Payload -> Kind, env: Env)
    requires Gapless(n, parse) && Lossless(Move(false, Local(ev, env)), parse)
    ensures Gapless(ActP(n, Local(ev, env), parse), parse)
  {
    if !ev.Receive? && !Resets(ev) {
      LocalSendsFrom(n.p.ep, ev, parse, env);
      SentParses(n.p.ep, ev, parse, env);
      EmitGapless(n, Step(n.p.ep, ev, parse, env), n.p.acked, n.p.ep, parse);
    }
  }

  /** The oldest packet is taken: it is the next in line, and the rest follows on. */
  lemma AcceptGapless(n: Net, parse: Payload -> Kind, env: Env)
    requires Inv(n) && Gapless(n, parse) && n.qp != []
    ensures var o := Recv(n.p.ep, n.qp[0].frame, parse, env);
            && !o.reconnect && (o.accepted.Some? <==> n.qp[0].frame.I?)
            && InFlight(n.qp[1..], |After(n.p, o, 0).got|, n.q.sent)
  {
    RecvReacts(n.p.ep, n.qp[0].frame, parse, env);
    if !n.qp[0].frame.U? {
      HeadIsGenuine(n);
    }
  }

  lemma DeliverGapless(n: Net, parse: Payload -> Kind, env: Env)
    requires Inv(n) && Gapless(n, parse) && WorkingEnv(env, parse)
    ensures Gapless(ActP(n, Deliver(env), parse), parse)
  {
    if n.qp != [] {
      var f := n.qp[0].frame;
      var o := Recv(n.p.ep, f, parse, env);
      AcceptGapless(n, parse, env);
      RecvReacts(n.p.ep, f, parse, env);
      SentParses(n.p.ep, Receive(f), parse, env);
      EmitGapless(n.(qp := n.qp[1..]), o, Acked(n.p, n.qp[0]), Heard(n.p.ep, f, o.accepted.Some?), parse);
    }
  }

  lemma SwapGapless(n: Net, parse: Payload -> Kind)
    ensures Gapless(Swap(n), parse) <==> Gapless(n, parse)
  {
  }

  lemma ApplyGapless(n: Net, m: Move, parse: Payload -> Kind)
    requires Inv(n) && Gapless(n, parse) && Lossless(m, parse)
    ensures Gapless(Apply(n, m, parse), parse)
  {
    var base := if m.atQ then Swap(n) else n;
    SwapInv(n);
    match m.act {
      case Local(ev, env) => LocalGapless(base, ev, parse, env);
      case Deliver(env) => DeliverGapless(base, parse, env);
    }
    SwapGapless(ActP(base, m.act, parse), parse);
  }

  lemma {:induction false} FreshInFlight(ch: seq<Pkt>)
    requires NoNumbers(ch)
    ensures InFlight(ch, 0, [])
  {
    if ch != [] {
      FreshInFlight(ch[1..]);
    }
  }

  lemma LosslessSized(ms: seq<Move>, parse: Payload -> Kind)
    requires AllLossless(ms, parse)
    ensures OfferedAll(ms, Sized)
  {
    forall i | 0 <= i < |ms| ensures forall d | d in Offered(ms[i]) :: Sized(d) {
      assert Lossless(ms[i], parse);
    }
  }

  lemma {:induction false} RunGapless(n: Net, ms: seq<Move>, parse: Payload -> Kind)
    requires Fresh(n) && Narrow(n.p) && Narrow(n.q) && AllLossless(ms, parse)
    ensures var r := Run(n, ms, parse); Inv(r) && Gapless(r, parse) && ChannelFits(r.pq) && ChannelFits(r.qp)
  {
    LosslessSized(ms, parse);
    RunFits(n, ms, parse);
    if ms == [] {
      FreshInFlight(n.pq);
      FreshInFlight(n.qp);
    } else {
      var i := |ms| - 1;
      RunGapless(n, ms[..i], parse);
      ApplyGapless(Run(n, ms[..i], parse), ms[i], parse);
    }
  }

  /** The payloads carried by a channel. */
  function Carried(ch: seq<Pkt>): seq<Payload> {
    if ch == [] then []
    else (if ch[0].frame.I? then [ch[0].frame.data] else []) + Carried(ch[1..])
  }

  lemma {:induction false} CarriedInFlight(ch: seq<Pkt>, from: nat, sent: seq<Payload>)
    requires InFlight(ch, from, sent)
    ensures from <= |sent| && Carried(ch) == sent[from..]
  {
    if ch != [] {
      CarriedInFlight(ch[1..], if ch[0].frame.I? then from + 1 else from, sent);
    }
  }

  /**
   In every run, however long, over channels that lose nothing: every packet under way arrives as
   the frame it was, what one end sent is what the other accepted followed by what is under way,
   and no frame that arrives is ever refused.
   */
  lemma NothingRefused(n: Net, ms: seq<Move>, parse: Payload -> Kind, env: Env)
    requires Fresh(n) && Narrow(n.p) && Narrow(n.q) && AllLossless(ms, parse) && WorkingEnv(env, parse)
    ensures var r := Run(n, ms, parse);
            && ChannelFits(r.pq) && ChannelFits(r.qp)
            && r.p.sent == r.q.got + Carried(r.pq) && r.q.sent == r.p.got + Carried(r.qp)
            && (r.qp != [] ==>
                  var o := Recv(r.p.ep, r.qp[0].frame, parse, env);
                  !o.reconnect && (r.qp[0].frame.I? ==> o.accepted.Some?))
  {
    RunGapless(n, ms, parse);
    var r := Run(n, ms, parse);
    CarriedInFlight(r.pq, |r.q.got|, r.p.sent);
    CarriedInFlight(r.qp, |r.p.got|, r.q.sent);
    assert r.p.sent == r.q.got + r.p.sent[|r.q.got|..];
    assert r.q.sent == r.p.got + r.q.sent[|r.p.got|..];
    if r.qp != [] {
      AcceptGapless(r, parse, env);
    }
  }

}
