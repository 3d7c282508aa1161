/**
 Two end points joined by byte channels, as the processes of the gateway are: every frame is written
 as its bytes, a reader gets the bytes of any number of writes at once, and runs the receive loop over
 them.  Every run of this network is a run of the network of frames, so what is proved there holds here.
 */
module ByteNetwork {
  import opened Prelude
  import opened Bytes
  import opened ApduFrame
  import opened LinkLayer
  import opened LinkShape
  import opened LinkReceive
  import opened LinkNetwork
  import opened LinkStart
  import EndToEnd
  import IecAsdu

  /** An end point, payloads sent and accepted so far, and all messages to its upper level. */
  datatype End = End(ep: Ep, sent: seq<Payload>, got: seq<Payload>, up: seq<Up>)

  /** `pq` holds what `p` has written and `q` has not read yet, one byte string a write. */
  datatype ByteNet = ByteNet(p: End, q: End, pq: seq<seq<byte>>, qp: seq<seq<byte>>)

  datatype ByteAct =
    | Own(ev: Event, env: Env)             // an event of the end point itself
    | Read(count: nat, envs: nat -> Env)   // the next `count` writes arrive as one chunk
    | Lose(index: nat)                     // an incoming write is lost

  datatype ByteMove = ByteMove(atQ: bool, act: ByteAct)

  function Exchange(b: ByteNet): ByteNet {
    ByteNet(b.q, b.p, b.qp, b.pq)
  }

  /** The payloads of information frames. */
  function DataSent(fs: seq<Frame>): seq<Payload> {
    if fs == [] then [] else (if fs[0].I? then [fs[0].data] else []) + DataSent(fs[1..])
  }

  /** The end point `p` after a handler or a chunk. */
  function Wrote(b: ByteNet, e: Effect): ByteNet {
    b.(p := End(e.ep, b.p.sent + DataSent(e.sent), b.p.got + e.accepted, b.p.up + e.up), pq := b.pq + Segments(e.sent))
  }

  function Least(a: nat, b: nat): nat {
    if a < b then a else b
  }

  /** What `act` at the end point `p` does; a chunk goes through iec104_frame_recv. */
  function DoP(b: ByteNet, act: ByteAct, parse: Payload -> Kind): ByteNet {
    match act
    case Own(ev, env) =>
      if ev.Receive? || Resets(ev) then b else Wrote(b, EffectOf(Step(b.p.ep, ev, parse, env)))
    case Read(count, envs) =>
      var j := Least(count, |b.qp|);
      Wrote(b.(qp := b.qp[j..]), HandleAll(HandlerOf(parse, envs), b.p.ep, ParseAll(Concat(b.qp[..j]), 0), 0))
    case Lose(index) =>
      if index < |b.qp| then b.(qp := b.qp[..index] + b.qp[index + 1..]) else b
  }

  function Do(b: ByteNet, m: ByteMove, parse: Payload -> Kind): ByteNet {
    if m.atQ then Exchange(DoP(Exchange(b), m.act, parse)) else DoP(b, m.act, parse)
  }

  function ByteRun(b: ByteNet, ms: seq<ByteMove>, parse: Payload -> Kind): ByteNet {
    if ms == [] then b else Do(ByteRun(b, ms[..|ms| - 1], parse), ms[|ms| - 1], parse)
  }

  // ---------------------------------------------------------------- the same run, frame by frame

  /** `p` receives its next `j` packets. */
  function Deliveries(env: nat -> Env, j: nat): seq<Move> {
    if j == 0 then [] else Deliveries(env, j - 1) + [Move(false, Deliver(env(j - 1)))]
  }

  /** The moves of the network of frames that a byte move stands for. */
  function Moves(m: ByteMove): seq<Move> {
    var ms := match m.act
      case Own(ev, env) => [Move(false, Local(ev, env))]
      case Read(count, envs) => Deliveries(envs, count)
      case Lose(index) => [Move(false, Drop(index))];
    if m.atQ then Flip(ms) else ms
  }

  function AllMoves(ms: seq<ByteMove>): seq<Move> {
    if ms == [] then [] else AllMoves(ms[..|ms| - 1]) + Moves(ms[|ms| - 1])
  }

  function FramesOf(ch: seq<Pkt>): (fs: seq<Frame>)
    ensures |fs| == |ch| && forall i | 0 <= i < |ch| :: fs[i] == ch[i].frame
  {
    seq(|ch|, i requires 0 <= i < |ch| => ch[i].frame)
  }

  predicate SameEnd(e: End, s: Side) {
    e.ep == s.ep && e.sent == s.sent && e.got == s.got
  }

  /** The two networks are in the same state: the writes are the frames under way. */
  predicate Same(b: ByteNet, n: Net) {
    SameEnd(b.p, n.p) && SameEnd(b.q, n.q) && b.pq == Segments(FramesOf(n.pq)) && b.qp == Segments(FramesOf(n.qp))
  }

  lemma {:induction false} DataSentAppend(a: seq<Frame>, b: seq<Frame>)
    ensures DataSent(a + b) == DataSent(a) + DataSent(b)
  {
    if a == [] {
      assert a + b == b;
    } else {
      var first := if a[0].I? then [a[0].data] else [];
      DataSentAppend(a[1..], b);
      assert (a + b)[1..] == a[1..] + b;
      assert DataSent(a + b) == first + (DataSent(a[1..]) + DataSent(b));
      assert DataSent(a) == first + DataSent(a[1..]);
    }
  }

  lemma DataOfFrames(o: Out, base: Ep)
    requires SendsFrom(base, o)
    ensures DataSent(Frames(o)) == if o.i.Some? then [o.i.value.data] else []
  {
    DataSentAppend(Opt(o.i) + Opt(o.s), Opt(o.u));
    DataSentAppend(Opt(o.i), Opt(o.s));
    OneFrame(o.i);
    OneFrame(o.s);
    OneFrame(o.u);
  }

  lemma PacketFrames(o: Out, ch: seq<Pkt>, sent: nat, got: nat)
    ensures FramesOf(ch + Packets(o, sent, got)) == FramesOf(ch) + Frames(o)
  {
  }

  /** What a lawful handler sends, as packets and as frames. */
  lemma SameSent(o: Out, base: Ep, s: Side, ch: seq<Pkt>, acked: nat, got: nat)
    requires SendsFrom(base, o)
    ensures After(s, o, acked).sent == s.sent + DataSent(Frames(o))
    ensures After(s, o, acked).got == s.got + EffectOf(o).accepted
    ensures FramesOf(ch + Packets(o, |s.sent|, got)) == FramesOf(ch) + Frames(o)
  {
    DataOfFrames(o, base);
    PacketFrames(o, ch, |s.sent|, got);
  }

  lemma OneFrame(f: Option<Frame>)
    ensures DataSent(Opt(f)) == if f.Some? && f.value.I? then [f.value.data] else []
  {
    if f.Some? {
      assert [f.value][1..] == [];
    }
  }

  /** `m` is `n` after `p` received packets with effect `e`. */
  predicate Arrived(n: Net, m: Net, e: Effect, j: nat)
    requires j <= |n.qp|
  {
    && m.p.ep == e.ep && m.p.sent == n.p.sent + DataSent(e.sent) && m.p.got == n.p.got + e.accepted
    && m.qp == n.qp[j..] && m.q == n.q && FramesOf(m.pq) == FramesOf(n.pq) + e.sent
  }

  /** One delivery has the effect of one pass of the receive loop. */
  lemma DeliverHandles(n: Net, parse: Payload -> Kind, env: nat -> Env, i: nat)
    requires n.qp != []
    ensures Arrived(n, ActP(n, Deliver(env(i)), parse), HandlerOf(parse, env)(n.p.ep, n.qp[0].frame, i), 1)
  {
    var k := n.qp[0];
    var o := Recv(n.p.ep, k.frame, parse, env(i));
    var handle := HandlerOf(parse, env);
    assert handle(n.p.ep, k.frame, i) == EffectOf(o);
    RecvReacts(n.p.ep, k.frame, parse, env(i));
    SameSent(o, Heard(n.p.ep, k.frame, o.accepted.Some?), n.p, n.pq, Acked(n.p, k), |After(n.p, o, Acked(n.p, k)).got|);
  }

  lemma ArrivedTwice(n: Net, m: Net, m': Net, e: Effect, f: Effect, j: nat)
    requires j < |n.qp| && Arrived(n, m, e, j) && Arrived(m, m', f, 1)
    ensures Arrived(n, m', Then(e, f), j + 1)
  {
    DataSentAppend(e.sent, f.sent);
    assert n.p.sent + DataSent(e.sent) + DataSent(f.sent) == n.p.sent + (DataSent(e.sent) + DataSent(f.sent));
    assert n.p.got + e.accepted + f.accepted == n.p.got + (e.accepted + f.accepted);
    assert FramesOf(n.pq) + e.sent + f.sent == FramesOf(n.pq) + (e.sent + f.sent);
  }

  lemma {:induction false} HandleLast(handle: Handler, ep: Ep, fs: seq<Frame>, f: Frame, i: nat)
    ensures var e := HandleAll(handle, ep, fs, i);
            HandleAll(handle, ep, fs + [f], i) == Then(e, handle(e.ep, f, i + |fs|))
    decreases |fs|
  {
    var first := handle(ep, (fs + [f])[0], i);
    if fs == [] {
      assert fs + [f] == [f];
      assert HandleAll(handle, ep, [f], i) == Then(first, HandleAll(handle, first.ep, [], i + 1));
    } else {
      HandleLast(handle, first.ep, fs[1..], f, i + 1);
      assert (fs + [f])[1..] == fs[1..] + [f];
    }
  }

  lemma HandleNext(handle: Handler, ep: Ep, fs: seq<Frame>, j: nat)
    requires j < |fs|
    ensures var e := HandleAll(handle, ep, fs[..j], 0);
            HandleAll(handle, ep, fs[..j + 1], 0) == Then(e, handle(e.ep, fs[j], j))
  {
    assert fs[..j + 1] == fs[..j] + [fs[j]];
    HandleLast(handle, ep, fs[..j], fs[j], 0);
  }

  lemma ArrivedStep(n: Net, m: Net, parse: Payload -> Kind, env: nat -> Env, e: Effect, j: nat, handle: Handler)
    requires j < |n.qp| && Arrived(n, m, e, j) && handle == HandlerOf(parse, env)
    ensures Arrived(n, ActP(m, Deliver(env(j)), parse), Then(e, handle(e.ep, n.qp[j].frame, j)), j + 1)
  {
    DeliverHandles(m, parse, env, j);
    ArrivedTwice(n, m, ActP(m, Deliver(env(j)), parse), e, handle(e.ep, n.qp[j].frame, j), j);
  }

  lemma DeliveriesNext(n: Net, parse: Payload -> Kind, env: nat -> Env, j: nat)
    ensures Run(n, Deliveries(env, j + 1), parse) == ActP(Run(n, Deliveries(env, j), parse), Deliver(env(j)), parse)
  {
    RunAppend(n, Deliveries(env, j), Move(false, Deliver(env(j))), parse);
  }

  /** Deliveries one by one have the effect of one chunk; there is nothing to deliver from an empty channel. */
  lemma {:induction false} ChunkDelivers(n: Net, parse: Payload -> Kind, env: nat -> Env, count: nat, handle: Handler)
    requires handle == HandlerOf(parse, env)
    ensures var j := Least(count, |n.qp|);
            Arrived(n, Run(n, Deliveries(env, count), parse), HandleAll(handle, n.p.ep, FramesOf(n.qp)[..j], 0), j)
    decreases count
  {
    if count > 0 {
      var i := count - 1;
      ChunkDelivers(n, parse, env, i, handle);
      DeliveriesNext(n, parse, env, i);
      ChunkMore(n, Run(n, Deliveries(env, i), parse), parse, env, i, handle);
    } else {
      NoneArrived(n);
    }
  }

  /** One more delivery, of the next packet or of nothing. */
  lemma ChunkMore(n: Net, m: Net, parse: Payload -> Kind, env: nat -> Env, i: nat, handle: Handler)
    requires handle == HandlerOf(parse, env)
    requires var j := Least(i, |n.qp|); Arrived(n, m, HandleAll(handle, n.p.ep, FramesOf(n.qp)[..j], 0), j)
    ensures var j := Least(i + 1, |n.qp|);
            Arrived(n, ActP(m, Deliver(env(i)), parse), HandleAll(handle, n.p.ep, FramesOf(n.qp)[..j], 0), j)
  {
    if i < |n.qp| {
      HandleNext(handle, n.p.ep, FramesOf(n.qp), i);
      ArrivedStep(n, m, parse, env, HandleAll(handle, n.p.ep, FramesOf(n.qp)[..i], 0), i, handle);
    }
  }

  lemma NoneArrived(n: Net)
    ensures Arrived(n, n, NoEffect(n.p.ep), 0)
  {
    assert n.p.sent + [] == n.p.sent && n.p.got + [] == n.p.got && FramesOf(n.pq) + [] == FramesOf(n.pq);
  }

  // ---------------------------------------------------------------- simulation

  lemma OwnSame(b: ByteNet, n: Net, ev: Event, env: Env, parse: Payload -> Kind)
    requires Same(b, n)
    ensures Same(DoP(b, Own(ev, env), parse), ActP(n, Local(ev, env), parse))
  {
    if !ev.Receive? && !Resets(ev) {
      var o := Step(n.p.ep, ev, parse, env);
      LocalSendsFrom(n.p.ep, ev, parse, env);
      SameSent(o, n.p.ep, n.p, n.pq, n.p.acked, |After(n.p, o, n.p.acked).got|);
      SegmentsAppend(FramesOf(n.pq), Frames(o));
    }
  }

  /** The writes of a chunk parse to the frames they stand for. */
  lemma ChunkParses(ch: seq<Pkt>, j: nat)
    requires ChannelFits(ch) && j <= |ch|
    ensures ParseAll(Concat(Segments(FramesOf(ch))[..j]), 0) == FramesOf(ch)[..j]
  {
    var fs := FramesOf(ch)[..j];
    assert Segments(FramesOf(ch))[..j] == Segments(fs);
    WireParses(fs);
  }

  lemma ReadSame(b: ByteNet, n: Net, count: nat, envs: nat -> Env, parse: Payload -> Kind)
    requires Same(b, n) && ChannelFits(n.qp)
    ensures Same(DoP(b, Read(count, envs), parse), Run(n, Deliveries(envs, count), parse))
  {
    var j := Least(count, |n.qp|);
    var e := HandleAll(HandlerOf(parse, envs), n.p.ep, FramesOf(n.qp)[..j], 0);
    ChunkParses(n.qp, j);
    ChunkDelivers(n, parse, envs, count, HandlerOf(parse, envs));
    ReadArrived(b, n, Run(n, Deliveries(envs, count), parse), e, j);
  }

  lemma ReadArrived(b: ByteNet, n: Net, m: Net, e: Effect, j: nat)
    requires Same(b, n) && j <= |n.qp| && Arrived(n, m, e, j)
    ensures Same(Wrote(b.(qp := b.qp[j..]), e), m)
  {
    SegmentsAppend(FramesOf(n.pq), e.sent);
    assert Segments(FramesOf(n.qp))[j..] == Segments(FramesOf(n.qp[j..]));
  }

  lemma LoseSame(b: ByteNet, n: Net, index: nat, parse: Payload -> Kind)
    requires Same(b, n)
    ensures Same(DoP(b, Lose(index), parse), ActP(n, Drop(index), parse))
  {
  }

  lemma ActSame(b: ByteNet, n: Net, act: ByteAct, parse: Payload -> Kind)
    requires Same(b, n) && ChannelFits(n.qp)
    ensures Same(DoP(b, act, parse), Run(n, Moves(ByteMove(false, act)), parse))
  {
    match act
    case Own(ev, env) =>
      OwnSame(b, n, ev, env, parse);
      OneMove(n, Move(false, Local(ev, env)), parse);
    case Read(count, envs) =>
      ReadSame(b, n, count, envs, parse);
    case Lose(index) =>
      LoseSame(b, n, index, parse);
      OneMove(n, Move(false, Drop(index)), parse);
  }

  lemma OneMove(n: Net, m: Move, parse: Payload -> Kind)
    ensures Run(n, [m], parse) == Apply(n, m, parse)
  {
    assert [] + [m] == [m];
    RunAppend(n, [], m, parse);
  }

  lemma StepSame(b: ByteNet, n: Net, m: ByteMove, parse: Payload -> Kind)
    requires Same(b, n) && ChannelFits(n.qp) && ChannelFits(n.pq)
    ensures Same(Do(b, m, parse), Run(n, Moves(m), parse))
  {
    if m.atQ {
      ActSame(Exchange(b), Swap(n), m.act, parse);
      RunFlip(Swap(n), Moves(ByteMove(false, m.act)), parse);
      assert Swap(Swap(n)) == n;
    } else {
      ActSame(b, n, m.act, parse);
    }
  }

  /** Every run of the network of bytes is a run of the network of frames, if the payloads offered fit a frame. */
  lemma {:induction false} RunSame(b: ByteNet, n: Net, ms: seq<ByteMove>, parse: Payload -> Kind)
    requires Same(b, n) && Fresh(n) && Narrow(n.p) && Narrow(n.q) && OfferedAll(AllMoves(ms), Sized)
    ensures Same(ByteRun(b, ms, parse), Run(n, AllMoves(ms), parse))
    decreases |ms|
  {
    if ms != [] {
      var i := |ms| - 1;
      var before := AllMoves(ms[..i]);
      OfferedBefore(before, Moves(ms[i]));
      RunSame(b, n, ms[..i], parse);
      RunFits(n, before, parse);
      StepSame(ByteRun(b, ms[..i], parse), Run(n, before, parse), ms[i], parse);
      RunConcat(n, before, Moves(ms[i]), parse);
    }
  }

  lemma OfferedBefore(a: seq<Move>, b: seq<Move>)
    requires OfferedAll(a + b, Sized)
    ensures OfferedAll(a, Sized)
  {
    forall i | 0 <= i < |a| ensures forall d | d in Offered(a[i]) :: Sized(d) {
      assert (a + b)[i] == a[i];
    }
  }

  // ---------------------------------------------------------------- main result

  /** Two end points just connected. */
  function ByteConnect(p: Ep, q: Ep, parse: Payload -> Kind): ByteNet {
    var a, b := Step(p, Connected, parse, WORKING), Step(q, Connected, parse, WORKING);
    ByteNet(End(a.ep, [], [], []), End(b.ep, [], [], []), Segments(Frames(a)), Segments(Frames(b)))
  }

  lemma NewSame(a: Out, b: Out)
    ensures Same(ByteNet(End(a.ep, [], [], []), End(b.ep, [], [], []), Segments(Frames(a)), Segments(Frames(b))),
                 Net(NewSide(a.ep), NewSide(b.ep), Packets(a, 0, 0), Packets(b, 0, 0)))
  {
    assert FramesOf(Packets(a, 0, 0)) == Frames(a);
    assert FramesOf(Packets(b, 0, 0)) == Frames(b);
  }

  lemma ConnectSame(p: Ep, q: Ep, parse: Payload -> Kind)
    ensures Same(ByteConnect(p, q, parse), Connect(p, q, parse))
  {
    NewSame(Step(p, Connected, parse, WORKING), Step(q, Connected, parse, WORKING));
  }

  /**
   End to end over bytes that may be lost write by write and read any number of writes at a time: what
   each end point accepted parses to the first ASDUs the other one built and sent, in order, none twice -
   and to all of them, once nothing lost has left nothing to read.
   */
  lemma BytesDelivered(p: Ep, q: Ep, ms: seq<ByteMove>, l: IecAsdu.Lens)
    returns (fromP: seq<IecAsdu.Asdu>, fromQ: seq<IecAsdu.Asdu>)
    requires p.k <= 32766 && q.k <= 32766 && IecAsdu.GoodLens(l) && EndToEnd.AsdusOffered(AllMoves(ms), l)
    ensures var parse := EndToEnd.Codec(l);
            var r := ByteRun(ByteConnect(p, q, parse), ms, parse);
            && EndToEnd.BuiltFrom(r.p.sent, fromP, l) && EndToEnd.DecodesPrefix(r.q.got, fromP, l)
            && EndToEnd.BuiltFrom(r.q.sent, fromQ, l) && EndToEnd.DecodesPrefix(r.p.got, fromQ, l)
            && ((forall i | 0 <= i < |AllMoves(ms)| :: EndToEnd.Reliable(AllMoves(ms)[i])) ==>
                  (r.pq == [] ==> |r.q.got| == |fromP|) && (r.qp == [] ==> |r.p.got| == |fromQ|))
  {
    var parse := EndToEnd.Codec(l);
    ConnectSame(p, q, parse);
    ConnectFresh(p, q, parse);
    EndToEnd.AsdusSized(AllMoves(ms), l);
    RunSame(ByteConnect(p, q, parse), Connect(p, q, parse), ms, parse);
    if forall i | 0 <= i < |AllMoves(ms)| :: EndToEnd.Reliable(AllMoves(ms)[i]) {
      fromP, fromQ := EndToEnd.AllAsdusDelivered(Connect(p, q, parse), AllMoves(ms), l);
    } else {
      fromP, fromQ := EndToEnd.AsdusDelivered(Connect(p, q, parse), AllMoves(ms), l);
    }
  }

  // ---------------------------------------------------------------- messages to the upper level

  /** What accepted payloads mean to the upper level, one after the other. */
  function ToldAll(host: Host, ds: seq<Payload>, parse: Payload -> Kind): seq<Up> {
    if ds == [] then [] else Told(host, ds[0], parse) + ToldAll(host, ds[1..], parse)
  }

  lemma {:induction false} ContentAppend(a: seq<Up>, b: seq<Up>)
    ensures Content(a + b) == Content(a) + Content(b)
  {
    if a == [] {
      assert a + b == b;
    } else {
      ContentAppend(a[1..], b);
      assert (a + b)[1..] == a[1..] + b && (a + b)[0] == a[0];
      ThreeParts(if a[0].Online? then [] else [a[0]], Content(a[1..]), Content(b));
    }
  }

  lemma {:induction false} ToldAppend(host: Host, a: seq<Payload>, b: seq<Payload>, parse: Payload -> Kind)
    ensures ToldAll(host, a + b, parse) == ToldAll(host, a, parse) + ToldAll(host, b, parse)
  {
    if a == [] {
      assert a + b == b;
    } else {
      ToldAppend(host, a[1..], b, parse);
      assert (a + b)[1..] == a[1..] + b && (a + b)[0] == a[0];
      ThreeParts(Told(host, a[0], parse), ToldAll(host, a[1..], parse), ToldAll(host, b, parse));
    }
  }

  lemma ThreeParts(a: seq<Up>, b: seq<Up>, c: seq<Up>)
    ensures a + (b + c) == a + b + c
  {
  }

  /** The messages about something received are exactly what the accepted payloads mean. */
  predicate Tells(e: Effect, host: Host, parse: Payload -> Kind) {
    Content(e.up) == ToldAll(host, e.accepted, parse) && e.ep.host == host
  }

  lemma ThenTells(a: Effect, b: Effect, host: Host, parse: Payload -> Kind)
    requires Tells(a, host, parse) && Tells(b, host, parse)
    ensures Tells(Then(a, b), host, parse)
  {
    ContentAppend(a.up, b.up);
    ToldAppend(host, a.accepted, b.accepted, parse);
  }

  lemma StepTells(ep: Ep, ev: Event, parse: Payload -> Kind, env: Env)
    ensures Tells(EffectOf(Step(ep, ev, parse, env)), ep.host, parse)
  {
    UpMessages(ep, ev, parse, env);
    StepKeepsParameters(ep, ev, parse, env);
    var ds := EffectOf(Step(ep, ev, parse, env)).accepted;
    assert ds != [] ==> ds[1..] == [] && ToldAll(ep.host, ds, parse) == Told(ep.host, ds[0], parse) + [];
  }

  lemma {:induction false} HandleTells(handle: Handler, ep: Ep, fs: seq<Frame>, i: nat, parse: Payload -> Kind, env: nat -> Env)
    requires handle == HandlerOf(parse, env)
    ensures Tells(HandleAll(handle, ep, fs, i), ep.host, parse)
    decreases |fs|
  {
    if fs != [] {
      var e := handle(ep, fs[0], i);
      StepTells(ep, Receive(fs[0]), parse, env(i));
      assert e == EffectOf(Step(ep, Receive(fs[0]), parse, env(i)));
      HandleTells(handle, e.ep, fs[1..], i + 1, parse, env);
      ThenTells(e, HandleAll(handle, e.ep, fs[1..], i + 1), ep.host, parse);
    }
  }

  /**
   Of what an end point accepted, its upper level has been told exactly what it means, in order: every
   ASDU to be processed and, of a slave, every interrogation and every clock synchronisation as such.
   */
  predicate Informed(e: End, host: Host, parse: Payload -> Kind) {
    Content(e.up) == ToldAll(host, e.got, parse) && e.ep.host == host
  }

  lemma WroteInforms(b: ByteNet, e: Effect, host: Host, parse: Payload -> Kind)
    requires Informed(b.p, host, parse) && Tells(e, host, parse)
    ensures Informed(Wrote(b, e).p, host, parse)
  {
    ContentAppend(b.p.up, e.up);
    ToldAppend(host, b.p.got, e.accepted, parse);
  }

  lemma ActInforms(b: ByteNet, act: ByteAct, host: Host, parse: Payload -> Kind)
    requires Informed(b.p, host, parse)
    ensures Informed(DoP(b, act, parse).p, host, parse) && DoP(b, act, parse).q == b.q
  {
    match act
    case Own(ev, env) =>
      StepTells(b.p.ep, ev, parse, env);
      WroteInforms(b, EffectOf(Step(b.p.ep, ev, parse, env)), host, parse);
    case Read(count, envs) =>
      var j := Least(count, |b.qp|);
      var fs := ParseAll(Concat(b.qp[..j]), 0);
      HandleTells(HandlerOf(parse, envs), b.p.ep, fs, 0, parse, envs);
      WroteInforms(b.(qp := b.qp[j..]), HandleAll(HandlerOf(parse, envs), b.p.ep, fs, 0), host, parse);
    case Lose(_) =>
  }

  /** In every run, whatever is offered, written, lost and read. */
  lemma {:induction false} RunInforms(b: ByteNet, ms: seq<ByteMove>, parse: Payload -> Kind)
    requires Informed(b.p, b.p.ep.host, parse) && Informed(b.q, b.q.ep.host, parse)
    ensures var r := ByteRun(b, ms, parse); Informed(r.p, b.p.ep.host, parse) && Informed(r.q, b.q.ep.host, parse)
  {
    if ms != [] {
      var i := |ms| - 1;
      RunInforms(b, ms[..i], parse);
      var r := ByteRun(b, ms[..i], parse);
      if ms[i].atQ {
        ActInforms(Exchange(r), ms[i].act, b.q.ep.host, parse);
      } else {
        ActInforms(r, ms[i].act, b.p.ep.host, parse);
      }
    }
  }

  /**
   With the ASDU codec: an accepted ASDU of type 100 is told to the upper level of a slave as a general
   interrogation, one of type 103 as a time synchronisation, and any other one of either host as it is.
   */
  lemma ToldByType(host: Host, d: Payload, l: IecAsdu.Lens)
    requires IecAsdu.Parse(d, l).asdu.Some?
    ensures var typ := IecAsdu.Parse(d, l).asdu.value.typ;
            Told(host, d, EndToEnd.Codec(l))
              == if typ != 100 && typ != 103 then [Asdu(d)]
                 else if host == Master then []
                 else if typ == 100 then [GeneralInterrogation] else [TimeSync]
  {
    var codec := EndToEnd.Codec(l);
    EndToEnd.KindOf(d, l, IecAsdu.Parse(d, l));
  }

}
