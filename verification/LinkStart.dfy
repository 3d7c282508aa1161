/**
 How an epoch starts: a connection has come up, the master has asked for the start of data transfer,
 and the slave is still stopped.  Two deliveries later both may send.
 */
module LinkStart {
  import opened Prelude
  import opened ApduFrame
  import opened LinkLayer
  import opened LinkShape
  import opened LinkNetwork

  /** The lower layer takes everything; no reply is built. */
  const WORKING := Env(true, true, true, None)

  function NewSide(ep: Ep): Side {
    Side(ep, [], [], 0, 0)
  }

  /** Both end points have just seen EP_MSG_CONNECT_ACK; whatever they were doing before is over. */
  function Connect(p: Ep, q: Ep, parse: Payload -> Kind): Net {
    var a, b := Step(p, Connected, parse, WORKING), Step(q, Connected, parse, WORKING);
    Net(NewSide(a.ep), NewSide(b.ep), Packets(a, 0, 0), Packets(b, 0, 0))
  }

  /** The start request reaches the slave, and its confirmation the master. */
  function Startup(slaveIsQ: bool): seq<Move> {
    [Move(slaveIsQ, Deliver(WORKING)), Move(!slaveIsQ, Deliver(WORKING))]
  }

  /** The start of data transfer with empty channels. */
  predicate Open(n: Net) {
    Fresh(n) && n.pq == n.qp == [] && MaySend(n.p.ep)
  }

  function Opened(p: Ep, q: Ep): Net {
    Net(NewSide(Init(p).(uCmd := STARTDT_CON)), NewSide(Init(q).(uCmd := STARTDT_CON)), [], [])
  }

  lemma RunAppend(n: Net, ms: seq<Move>, m: Move, parse: Payload -> Kind)
    ensures Run(n, ms + [m], parse) == Apply(Run(n, ms, parse), m, parse)
  {
    assert (ms + [m])[..|ms|] == ms;
  }

  lemma RunAppendTwo(n: Net, ms: seq<Move>, r: Net, a: Move, b: Move, parse: Payload -> Kind)
    requires Run(n, ms, parse) == r
    ensures Run(n, ms + [a] + [b], parse) == Apply(Apply(r, a, parse), b, parse)
  {
    RunAppend(n, ms, a, parse);
    RunAppend(n, ms + [a], b, parse);
  }

  lemma {:induction false} RunConcat(n: Net, a: seq<Move>, b: seq<Move>, parse: Payload -> Kind)
    ensures Run(n, a + b, parse) == Run(Run(n, a, parse), b, parse)
    decreases |b|
  {
    if b == [] {
      assert a + b == a;
    } else {
      var c, m := b[..|b| - 1], b[|b| - 1];
      RunConcat(n, a, c, parse);
      LastMove(n, a, b, c, m, parse);
    }
  }

  lemma LastMove(n: Net, a: seq<Move>, b: seq<Move>, c: seq<Move>, m: Move, parse: Payload -> Kind)
    requires b == c + [m] && Run(n, a + c, parse) == Run(Run(n, a, parse), c, parse)
    ensures Run(n, a + b, parse) == Run(Run(n, a, parse), b, parse)
  {
    RunAppend(n, a + c, m, parse);
    RunAppend(Run(n, a, parse), c, m, parse);
    assert a + b == a + c + [m];
  }

  /** The same moves with the end points exchanged. */
  function Flip(ms: seq<Move>): (r: seq<Move>)
    ensures |r| == |ms| && forall i | 0 <= i < |ms| :: r[i] == Move(!ms[i].atQ, ms[i].act)
  {
    seq(|ms|, i requires 0 <= i < |ms| => Move(!ms[i].atQ, ms[i].act))
  }

  lemma {:induction false} RunFlip(n: Net, ms: seq<Move>, parse: Payload -> Kind)
    ensures Run(Swap(n), Flip(ms), parse) == Swap(Run(n, ms, parse))
  {
    if ms != [] {
      var i := |ms| - 1;
      RunFlip(n, ms[..i], parse);
      assert Flip(ms)[..i] == Flip(ms[..i]);
      assert Swap(Swap(Run(n, ms[..i], parse))) == Run(n, ms[..i], parse);
    }
  }

  lemma ConnectedEnd(ep: Ep, parse: Payload -> Kind)
    ensures var o := Step(ep, Connected, parse, WORKING);
            && o.ep == Init(ep).(uCmd := if ep.host == Master then STARTDT_ACT else STOPDT_CON)
            && Packets(o, 0, 0) == if ep.host == Master then [Pkt(U(STARTDT_ACT), 0, 0)] else []
  {
    USendSendsFrom(Init(ep), STARTDT_ACT, WORKING);
  }

  /** A connection comes up with nothing but the start request under way. */
  lemma ConnectFresh(p: Ep, q: Ep, parse: Payload -> Kind)
    ensures var n := Connect(p, q, parse);
            && Fresh(n) && SameParameters(n.p.ep, p) && SameParameters(n.q.ep, q)
            && n.pq == (if p.host == Master then [Pkt(U(STARTDT_ACT), 0, 0)] else [])
            && n.qp == (if q.host == Master then [Pkt(U(STARTDT_ACT), 0, 0)] else [])
  {
    ConnectedEnd(p, parse);
    ConnectedEnd(q, parse);
  }

  /** Delivering a start request to a slave in its initial state. */
  lemma SlaveStarts(n: Net, parse: Payload -> Kind)
    requires FreshSide(n.p) && n.p.ep.host == Slave && n.qp == [Pkt(U(STARTDT_ACT), 0, 0)]
    ensures ActP(n, Deliver(WORKING), parse)
         == Net(n.p.(ep := n.p.ep.(uCmd := STARTDT_CON)), n.q, n.pq + [Pkt(U(STARTDT_CON), 0, 0)], [])
  {
    assert n.p.sent + [] == n.p.sent && n.p.got + [] == n.p.got;
  }

  /** Delivering the confirmation to a master in its initial state. */
  lemma MasterStarts(n: Net, parse: Payload -> Kind)
    requires FreshSide(n.p) && n.p.ep.host == Master && n.qp == [Pkt(U(STARTDT_CON), 0, 0)]
    ensures ActP(n, Deliver(WORKING), parse) == Net(n.p.(ep := n.p.ep.(uCmd := STARTDT_CON)), n.q, n.pq, [])
  {
    assert n.p.sent + [] == n.p.sent && n.p.got + [] == n.p.got && n.pq + [] == n.pq;
  }

  /** A connection that has just come up. */
  predicate JustUp(n: Net) {
    && FreshSide(n.p) && FreshSide(n.q) && n.p.ep.host != n.q.ep.host
    && n.pq == (if n.p.ep.host == Master then [Pkt(U(STARTDT_ACT), 0, 0)] else [])
    && n.qp == (if n.q.ep.host == Master then [Pkt(U(STARTDT_ACT), 0, 0)] else [])
  }

  /** The net once both end points have started. */
  function BothStarted(n: Net): Net {
    Net(n.p.(ep := n.p.ep.(uCmd := STARTDT_CON)), n.q.(ep := n.q.ep.(uCmd := STARTDT_CON)), [], [])
  }

  lemma TwoMoves(n: Net, first: Move, second: Move, parse: Payload -> Kind)
    ensures Run(n, [first], parse) == Apply(n, first, parse)
    ensures Run(n, [first, second], parse) == Apply(Apply(n, first, parse), second, parse)
  {
    assert [] + [first] == [first] && [first] + [second] == [first, second];
    RunAppend(n, [], first, parse);
    RunAppend(n, [first], second, parse);
  }

  lemma StartsUp(n: Net, parse: Payload -> Kind)
    requires JustUp(n)
    ensures Run(n, Startup(n.q.ep.host == Slave), parse) == BothStarted(n)
  {
    var ms := Startup(n.q.ep.host == Slave);
    TwoMoves(n, ms[0], ms[1], parse);
    assert ms == [ms[0], ms[1]];
    if n.q.ep.host == Slave {
      SlaveStarts(Swap(n), parse);
      MasterStarts(Apply(n, ms[0], parse), parse);
    } else {
      SlaveStarts(n, parse);
      MasterStarts(Swap(Apply(n, ms[0], parse)), parse);
    }
  }

  /** What both end points are once started, from how they have come up. */
  lemma StartedEnds(p: Ep, q: Ep, parse: Payload -> Kind)
    ensures BothStarted(Connect(p, q, parse)) == Opened(p, q)
  {
    ConnectedEnd(p, parse);
    ConnectedEnd(q, parse);
  }

  lemma OpenedOpen(p: Ep, q: Ep)
    ensures Open(Opened(p, q)) && Open(Swap(Opened(p, q)))
  {
  }

  /** From connection to open in two deliveries. */
  lemma StartupOpens(p: Ep, q: Ep, parse: Payload -> Kind)
    requires p.host != q.host
    ensures Run(Connect(p, q, parse), Startup(q.host == Slave), parse) == Opened(p, q)
    ensures Open(Opened(p, q)) && Open(Swap(Opened(p, q)))
  {
    ConnectFresh(p, q, parse);
    StartsUp(Connect(p, q, parse), parse);
    StartedEnds(p, q, parse);
    OpenedOpen(p, q);
  }

}
