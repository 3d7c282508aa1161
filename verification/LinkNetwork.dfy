/**
 Two end points joined by two first-in first-out channels that may drop any frames.

 Beside each 15-bit counter stands the unbounded count it abbreviates, and each packet carries the
 unbounded numbers its 15-bit fields abbreviate; the handlers never see them.  A packet arrives as
 the frame it was, which is so as long as its payload fits an information frame; ByteNetwork goes
 down to the bytes.  One epoch is modelled: it starts with both end points just reset and no
 numbered frame under way, and contains no further reset.
 */
module LinkNetwork {
  import opened Prelude
  import opened ApduFrame
  import opened LinkLayer
  import opened LinkShape

  /** A frame under way; `ns` and `nr` are its true N(S) and N(R). */
  datatype Pkt = Pkt(frame: Frame, ns: nat, nr: nat)

  /**
   An end point with its history: payloads sent and accepted so far, and the true values of its
   two acknowledgement counters.
   */
  datatype Side = Side(ep: Ep, sent: seq<Payload>, got: seq<Payload>, acked: nat, confirmed: nat)

  /** `pq` holds the packets from `p` to `q`, oldest first; `qp` those from `q` to `p`. */
  datatype Net = Net(p: Side, q: Side, pq: seq<Pkt>, qp: seq<Pkt>)

  datatype Act =
    | Local(ev: Event, env: Env)     // an event of the end point itself
    | Deliver(env: Env)              // the oldest incoming packet arrives
    | Drop(index: nat)               // an incoming packet is lost

  datatype Move = Move(atQ: bool, act: Act)

  function Swap(n: Net): Net {
    Net(n.q, n.p, n.qp, n.pq)
  }

  /** The packets a handler sends: N(S) counts the payloads sent, N(R) those accepted. */
  function Packets(o: Out, sent: nat, got: nat): seq<Pkt> {
    (if o.i.Some? then [Pkt(o.i.value, sent, got)] else []) +
    (if o.s.Some? then [Pkt(o.s.value, 0, got)] else []) +
    (if o.u.Some? then [Pkt(o.u.value, 0, 0)] else [])
  }

  /** The side after a handler, `acked` being the true number it last heard acknowledged. */
  function After(s: Side, o: Out, acked: nat): Side {
    var got := s.got + (if o.accepted.Some? then [o.accepted.value] else []);
    Side(o.ep,
         s.sent + (if o.i.Some? && o.i.value.I? then [o.i.value.data] else []),
         got,
         acked,
         if o.s.Some? then |got| else s.confirmed)
  }

  /** The true acknowledgement number once `s` has handled packet `k`. */
  function Acked(s: Side, k: Pkt): nat {
    if !k.frame.U? && CheckRecvNum(s.ep, k.frame.recvNum) then k.nr else s.acked
  }

  function Emit(n: Net, o: Out, acked: nat): Net {
    var p := After(n.p, o, acked);
    n.(p := p, pq := n.pq + Packets(o, |n.p.sent|, |p.got|))
  }

  /** What `act` at the end point `p` does. */
  function ActP(n: Net, act: Act, parse: Payload -> Kind): Net {
    match act
    case Local(ev, env) =>
      if ev.Receive? || Resets(ev) then n else Emit(n, Step(n.p.ep, ev, parse, env), n.p.acked)
    case Deliver(env) =>
      if n.qp == [] then n
      else
        var k := n.qp[0];
        Emit(n.(qp := n.qp[1..]), Recv(n.p.ep, k.frame, parse, env), Acked(n.p, k))
    case Drop(index) =>
      if index < |n.qp| then n.(qp := n.qp[..index] + n.qp[index + 1..]) else n
  }

  function Apply(n: Net, m: Move, parse: Payload -> Kind): Net {
    if m.atQ then Swap(ActP(Swap(n), m.act, parse)) else ActP(n, m.act, parse)
  }

  /** The net after a sequence of moves. */
  function Run(n: Net, ms: seq<Move>, parse: Payload -> Kind): Net {
    if ms == [] then n else Apply(Run(n, ms[..|ms| - 1], parse), ms[|ms| - 1], parse)
  }

  /** The start of an epoch. */
  predicate Fresh(n: Net) {
    FreshSide(n.p) && FreshSide(n.q) && NoNumbers(n.pq) && NoNumbers(n.qp)
  }

  predicate FreshSide(s: Side) {
    s.ep.vs == s.ep.vr == s.ep.ackS == s.ep.ackR == 0
    && s.sent == s.got == [] && s.acked == s.confirmed == 0
  }

  predicate NoNumbers(ch: seq<Pkt>) {
    forall i | 0 <= i < |ch| :: ch[i].frame.U? && Fits(ch[i].frame)
  }

  /** Payloads that fit an information frame: exactly these arrive as they were sent, short of 2^16 - 4 bytes. */
  predicate Sized(d: Payload) {
    1 <= |d| <= 251
  }

  /** What a move hands to the end point that makes it. */
  function Offered(m: Move): seq<Payload> {
    match m.act
    case Local(Send(asdu), env) => Given(asdu) + Given(env.reply)
    case Local(_, env) => Given(env.reply)
    case Deliver(env) => Given(env.reply)
    case Drop(_) => []
  }

  function Given(asdu: Option<Payload>): seq<Payload> {
    match asdu case None => [] case Some(d) => [d]
  }

  ghost predicate OfferedAll(ms: seq<Move>, good: Payload -> bool) {
    forall i | 0 <= i < |ms| :: forall d | d in Offered(ms[i]) :: good(d)
  }

  /** Every packet under way arrives as the frame it was. */
  predicate ChannelFits(ch: seq<Pkt>) {
    forall i | 0 <= i < |ch| :: Fits(ch[i].frame)
  }

  // ---------------------------------------------------------------- the invariant

  /** The 15-bit counters abbreviate the true ones, and the window is respected. */
  predicate Labelled(s: Side) {
    && s.ep.vs == |s.sent| % MODULUS && s.ep.vr == |s.got| % MODULUS
    && s.ep.ackS == s.acked % MODULUS && s.ep.ackR == s.confirmed % MODULUS
    && s.acked <= |s.sent| <= s.acked + s.ep.k + 1
    && s.confirmed <= |s.got|
  }

  predicate Narrow(s: Side) {
    s.ep.k <= 32766
  }

  /** The information frames on the way to `q` are true, still ahead of `q`, and in order. */
  predicate DataInv(sent: seq<Payload>, got: nat, ch: seq<Pkt>) {
    && (forall i {:trigger ch[i]} | 0 <= i < |ch| && ch[i].frame.I? ::
          got <= ch[i].ns < |sent| && ch[i].frame.data == sent[ch[i].ns]
          && ch[i].frame.sendNum == ch[i].ns % MODULUS)
    && (forall i, j | 0 <= i < j < |ch| && ch[i].frame.I? && ch[j].frame.I? :: ch[i].ns < ch[j].ns)
  }

  /** The acknowledgements on the way to `p` are true, at least what `p` knows, and in order. */
  predicate AckInv(acked: nat, got: nat, ch: seq<Pkt>) {
    && (forall i {:trigger ch[i]} | 0 <= i < |ch| && !ch[i].frame.U? ::
          acked <= ch[i].nr <= got && ch[i].frame.recvNum == ch[i].nr % MODULUS)
    && (forall i, j | 0 <= i < j < |ch| && !ch[i].frame.U? && !ch[j].frame.U? :: ch[i].nr <= ch[j].nr)
  }

  /** Everything about the data going from `p` to `q`. */
  predicate DirInv(n: Net) {
    && n.q.got <= n.p.sent && n.p.acked <= |n.q.got|
    && DataInv(n.p.sent, |n.q.got|, n.pq)
    && AckInv(n.p.acked, |n.q.got|, n.qp)
  }

  predicate Inv(n: Net) {
    && Labelled(n.p) && Labelled(n.q) && Narrow(n.p) && Narrow(n.q)
    && DirInv(n) && DirInv(Swap(n))
  }

  // ---------------------------------------------------------------- modular tests are exact

  /** Within a window of 2^15 - 1 numbers the 15-bit distance is the true distance. */
  lemma AheadTrue(base: nat, n: nat)
    requires base <= n < base + MODULUS
    ensures Ahead(n % MODULUS, base % MODULUS) == n - base
  {
  }

  /**
   check_recv_num accepts exactly the true numbers from `as` to `vs`: of any number that is not
   2^15 or more away from `as`, in either direction.
   */
  lemma RecvNumExact(s: Side, nr: int)
    requires Labelled(s) && Narrow(s)
    requires |s.sent| - MODULUS < nr < s.acked + MODULUS
    ensures CheckRecvNum(s.ep, nr % MODULUS) <==> s.acked <= nr <= |s.sent|
  {
    AheadTrue(s.acked, |s.sent|);
    if nr >= s.acked {
      AheadTrue(s.acked, nr);
    } else {
      AheadTrue(s.acked, nr + MODULUS);
      ModAround(nr);
    }
  }

  lemma ModAround(n: int)
    ensures (n + MODULUS) % MODULUS == n % MODULUS
  {
  }

  /** check_send_num accepts exactly the next number, of all that can be under way. */
  lemma SendNumExact(n: Net, ns: nat)
    requires Labelled(n.p) && Labelled(n.q) && Narrow(n.p)
    requires n.p.acked <= |n.q.got| <= ns < |n.p.sent|
    ensures CheckSendNum(n.q.ep, ns % MODULUS) <==> ns == |n.q.got|
  {
    AheadTrue(|n.q.got|, ns);
  }

  // ---------------------------------------------------------------- preservation

  /** Appending what a lawful sender sends keeps a channel's data true and in order. */
  lemma SendData(s: Side, o: Out, base: Ep, got: nat, peerGot: nat, ch: seq<Pkt>)
    requires SendsFrom(base, o) && base.vs == |s.sent| % MODULUS
    requires DataInv(s.sent, peerGot, ch) && peerGot <= |s.sent|
    ensures DataInv(After(s, o, got).sent, peerGot, ch + Packets(o, |s.sent|, got))
  {
  }

  /** Appending what a lawful sender sends keeps a channel's acknowledgements true and in order. */
  lemma SendAcks(o: Out, base: Ep, sent: nat, peerAcked: nat, before: nat, got: nat, ch: seq<Pkt>)
    requires SendsFrom(base, o) && base.vr == got % MODULUS && before <= got
    requires AckInv(peerAcked, before, ch) && peerAcked <= before
    ensures AckInv(peerAcked, got, ch + Packets(o, sent, got))
  {
  }

  /** A lawful sender keeps its own counters true. */
  lemma SendLabelled(s: Side, o: Out, acked: nat)
    requires acked <= |s.sent| <= acked + s.ep.k + 1 && s.ep.k <= 32766
    requires s.ep.vs == |s.sent| % MODULUS
    requires s.ep.ackR == s.confirmed % MODULUS && s.confirmed <= |s.got|
    requires SameParameters(o.ep, s.ep) && o.ep.vr == |After(s, o, acked).got| % MODULUS
    requires o.ep.ackS == acked % MODULUS
    requires SendsFrom(o.ep.(vs := s.ep.vs, ackR := s.ep.ackR), o)
    ensures Labelled(After(s, o, acked))
  {
    AheadTrue(acked, |s.sent|);
    ModNext(|s.sent|, MODULUS);
  }

  lemma EmitInv(n: Net, o: Out, acked: nat)
    requires Labelled(n.p) && Labelled(n.q) && Narrow(n.p) && Narrow(n.q)
    requires DirInv(n) && DirInv(Swap(n))
    requires n.p.acked <= acked <= |n.q.got|
    requires AckInv(acked, |n.q.got|, n.qp)
    requires o.ep.ackS == acked % MODULUS && SameParameters(o.ep, n.p.ep)
    requires SendsFrom(o.ep.(vs := n.p.ep.vs, ackR := n.p.ep.ackR), o)
    requires o.ep.vr == |After(n.p, o, acked).got| % MODULUS
    requires After(n.p, o, acked).got <= n.q.sent
    requires DataInv(n.q.sent, |After(n.p, o, acked).got|, n.qp)
    ensures Inv(Emit(n, o, acked))
  {
    var p := After(n.p, o, acked);
    SendLabelled(n.p, o, acked);
    SendData(n.p, o, o.ep.(vs := n.p.ep.vs, ackR := n.p.ep.ackR), |p.got|, |n.q.got|, n.pq);
    SendAcks(o, o.ep.(vs := n.p.ep.vs, ackR := n.p.ep.ackR), |n.p.sent|, n.q.acked, |n.p.got|, |p.got|, n.pq);
    assert p.sent == After(n.p, o, |p.got|).sent;
  }

  lemma LocalInv(n: Net, ev: Event, parse: Payload -> Kind, env: Env)
    requires Inv(n)
    ensures Inv(ActP(n, Local(ev, env), parse))
  {
    if !ev.Receive? && !Resets(ev) {
      LocalSendsFrom(n.p.ep, ev, parse, env);
      EmitInv(n, Step(n.p.ep, ev, parse, env), n.p.acked);
    }
  }

  lemma DropInv(n: Net, index: nat, parse: Payload -> Kind)
    requires Inv(n)
    ensures Inv(ActP(n, Drop(index), parse))
  {
  }

  /** The oldest packet under way to `p` passes the acknowledgement test, and is next in line if accepted. */
  lemma HeadIsGenuine(n: Net)
    requires Inv(n) && n.qp != [] && !n.qp[0].frame.U?
    ensures var k := n.qp[0];
            && CheckRecvNum(n.p.ep, k.frame.recvNum) && Acked(n.p, k) == k.nr
            && n.p.acked <= k.nr <= |n.q.got| && k.nr % MODULUS == k.frame.recvNum
            && (k.frame.I? ==> (CheckSendNum(n.p.ep, k.frame.sendNum) <==> k.ns == |n.p.got|))
  {
    var k := n.qp[0];
    RecvNumExact(n.p, k.nr);
    if k.frame.I? {
      SendNumExact(Swap(n), k.ns);
    }
  }

  lemma DeliverInv(n: Net, parse: Payload -> Kind, env: Env)
    requires Inv(n)
    ensures Inv(ActP(n, Deliver(env), parse))
  {
    if n.qp != [] {
      var k, rest := n.qp[0], n.qp[1..];
      var o := Recv(n.p.ep, k.frame, parse, env);
      var acked := Acked(n.p, k);
      RecvReacts(n.p.ep, k.frame, parse, env);
      PopInv(n);
      AcceptData(n, o);
      DeliverLabels(n, o, parse);
      assert Emit(n.(qp := rest), o, acked) == ActP(n, Deliver(env), parse);
      EmitInv(n.(qp := rest), o, acked);
    }
  }

  /** Taking the oldest packet off the channel. */
  lemma PopInv(n: Net)
    requires Inv(n) && n.qp != []
    ensures var m := n.(qp := n.qp[1..]); DirInv(m) && DirInv(Swap(m))
    ensures n.p.acked <= Acked(n.p, n.qp[0]) <= |n.q.got|
    ensures AckInv(Acked(n.p, n.qp[0]), |n.q.got|, n.qp[1..])
  {
    if !n.qp[0].frame.U? {
      HeadIsGenuine(n);
    }
  }

  /** What a lawful reaction does to the counters. */
  lemma ReactionCounters(ep: Ep, f: Frame, parse: Payload -> Kind, o: Out)
    requires Reacts(ep, f, parse, o) && (!f.U? ==> CheckRecvNum(ep, f.recvNum))
    ensures o.ep.ackS == (if f.U? then ep.ackS else f.recvNum) && SameParameters(o.ep, ep)
    ensures o.ep.vr == if o.accepted.Some? then (ep.vr + 1) % MODULUS else ep.vr
    ensures SendsFrom(o.ep.(vs := ep.vs, ackR := ep.ackR), o)
  {
  }

  /** The counters of `p` after a delivery still abbreviate the true ones. */
  lemma DeliverLabels(n: Net, o: Out, parse: Payload -> Kind)
    requires Inv(n) && n.qp != [] && Reacts(n.p.ep, n.qp[0].frame, parse, o)
    ensures var acked := Acked(n.p, n.qp[0]);
            && o.ep.ackS == acked % MODULUS && SameParameters(o.ep, n.p.ep)
            && SendsFrom(o.ep.(vs := n.p.ep.vs, ackR := n.p.ep.ackR), o)
            && o.ep.vr == |After(n.p, o, acked).got| % MODULUS
  {
    if !n.qp[0].frame.U? {
      HeadIsGenuine(n);
    }
    ReactionCounters(n.p.ep, n.qp[0].frame, parse, o);
    ModNext(|n.p.got|, MODULUS);
  }

  lemma DataPop(sent: seq<Payload>, got: nat, ch: seq<Pkt>)
    requires DataInv(sent, got, ch) && ch != []
    ensures DataInv(sent, got, ch[1..])
    ensures ch[0].frame.I? && ch[0].ns == got ==> DataInv(sent, got + 1, ch[1..])
  {
    forall i | 0 <= i < |ch| - 1 && ch[1..][i].frame.I? && ch[0].frame.I? ensures ch[0].ns < ch[1..][i].ns {
      assert ch[1..][i] == ch[i + 1];
    }
  }

  lemma PrefixGrows(g: seq<Payload>, sent: seq<Payload>)
    requires g <= sent && |g| < |sent|
    ensures g + [sent[|g|]] <= sent
  {
    assert sent[..|g|] == g;
    assert g + [sent[|g|]] == sent[..|g| + 1];
  }

  lemma ModNext(x: nat, m: nat)
    requires m == MODULUS
    ensures (x % m + 1) % m == (x + 1) % m
  {
  }

  /** A packet `p` accepts carries the next payload of `q`. */
  lemma AcceptedNext(n: Net)
    requires Inv(n) && n.qp != [] && n.qp[0].frame.I? && CheckSendNum(n.p.ep, n.qp[0].frame.sendNum)
    ensures var k := n.qp[0];
            |n.p.got| < |n.q.sent| && n.p.got <= n.q.sent && k.ns == |n.p.got| && k.frame.data == n.q.sent[|n.p.got|]
  {
    HeadIsGenuine(n);
  }

  /** What `p` accepts is the next payload of `q`, and the rest of the channel stays ahead of it. */
  lemma AcceptData(n: Net, o: Out)
    requires Inv(n) && n.qp != []
    requires o.accepted.Some? ==>
               var k := n.qp[0];
               k.frame.I? && o.accepted.value == k.frame.data && CheckSendNum(n.p.ep, k.frame.sendNum)
    ensures After(n.p, o, 0).got <= n.q.sent
    ensures DataInv(n.q.sent, |After(n.p, o, 0).got|, n.qp[1..])
    ensures n.p.ep.vr == |n.p.got| % MODULUS
    ensures o.accepted.Some? ==> (n.p.ep.vr + 1) % MODULUS == |After(n.p, o, 0).got| % MODULUS
  {
    DataPop(n.q.sent, |n.p.got|, n.qp);
    if o.accepted.Some? {
      AcceptedNext(n);
      PrefixGrows(n.p.got, n.q.sent);
      ModNext(|n.p.got|, MODULUS);
    } else {
      assert After(n.p, o, 0).got == n.p.got;
    }
  }

  /** The roles of the two end points are interchangeable. */
  lemma SwapInv(n: Net)
    ensures Inv(Swap(n)) <==> Inv(n)
  {
    assert Swap(Swap(n)) == n;
  }

  lemma ActInv(n: Net, act: Act, parse: Payload -> Kind)
    requires Inv(n)
    ensures Inv(ActP(n, act, parse))
  {
    match act
    case Local(ev, env) => LocalInv(n, ev, parse, env);
    case Deliver(env) => DeliverInv(n, parse, env);
    case Drop(index) => DropInv(n, index, parse);
  }

  lemma ApplyInv(n: Net, m: Move, parse: Payload -> Kind)
    requires Inv(n)
    ensures Inv(Apply(n, m, parse))
  {
    SwapInv(n);
    if m.atQ {
      ActInv(Swap(n), m.act, parse);
      SwapInv(ActP(Swap(n), m.act, parse));
    } else {
      ActInv(n, m.act, parse);
    }
  }

  lemma {:induction false} RunInv(n: Net, ms: seq<Move>, parse: Payload -> Kind)
    requires Fresh(n) && Narrow(n.p) && Narrow(n.q)
    ensures Inv(Run(n, ms, parse))
  {
    if ms != [] {
      RunInv(n, ms[..|ms| - 1], parse);
      ApplyInv(Run(n, ms[..|ms| - 1], parse), ms[|ms| - 1], parse);
    }
  }

  // ---------------------------------------------------------------- frames that fit the wire

  /** Whatever is sent was offered, and its frames fit if the payloads do. */
  lemma EmitFits(s: Side, ev: Event, base: Ep, parse: Payload -> Kind, env: Env, got: nat)
    requires var o := Step(s.ep, ev, parse, env);
             SendsFrom(base, o) && base.vs < MODULUS && base.vr < MODULUS
    requires env.reply.Some? ==> Sized(env.reply.value)
    requires ev.Send? && ev.asdu.Some? ==> Sized(ev.asdu.value)
    ensures ChannelFits(Packets(Step(s.ep, ev, parse, env), |s.sent|, got))
  {
    SentOrigin(s.ep, ev, parse, env);
    CommandsFit(s.ep, ev, parse, env);
  }

  lemma ActFits(n: Net, act: Act, parse: Payload -> Kind)
    requires Inv(n) && ChannelFits(n.pq) && ChannelFits(n.qp)
    requires forall d | d in Offered(Move(false, act)) :: Sized(d)
    ensures var m := ActP(n, act, parse); ChannelFits(m.pq) && ChannelFits(m.qp)
  {
    match act
    case Local(ev, env) =>
      if !ev.Receive? && !Resets(ev) {
        var o := Step(n.p.ep, ev, parse, env);
        LocalSendsFrom(n.p.ep, ev, parse, env);
        EmitFits(n.p, ev, n.p.ep, parse, env, |After(n.p, o, n.p.acked).got|);
      }
    case Deliver(env) =>
      if n.qp != [] {
        var k := n.qp[0];
        var o := Recv(n.p.ep, k.frame, parse, env);
        RecvReacts(n.p.ep, k.frame, parse, env);
        EmitFits(n.p, Receive(k.frame), Heard(n.p.ep, k.frame, o.accepted.Some?), parse, env, |After(n.p, o, Acked(n.p, k)).got|);
      }
    case Drop(_) =>
  }

  /** In every reachable state every frame under way fits the wire, if the payloads offered do. */
  lemma {:induction false} RunFits(n: Net, ms: seq<Move>, parse: Payload -> Kind)
    requires Fresh(n) && Narrow(n.p) && Narrow(n.q) && OfferedAll(ms, Sized)
    ensures var r := Run(n, ms, parse); Inv(r) && ChannelFits(r.pq) && ChannelFits(r.qp)
  {
    RunInv(n, ms, parse);
    if ms != [] {
      var i := |ms| - 1;
      RunFits(n, ms[..i], parse);
      var r := Run(n, ms[..i], parse);
      SwapInv(r);
      assert forall d | d in Offered(ms[i]) :: Sized(d);
      ActFits(if ms[i].atQ then Swap(r) else r, ms[i].act, parse);
    }
  }

  // ---------------------------------------------------------------- main results

  /**
   Over channels that may drop any packets, in every reachable state, every packet under way
   arrives as the frame it was; what each end point has accepted is a prefix of what the other one
   sent: in order, nothing twice, nothing forged; and at most k + 1 payloads are unacknowledged.
   */
  lemma PrefixDelivery(n: Net, ms: seq<Move>, parse: Payload -> Kind)
    requires Fresh(n) && Narrow(n.p) && Narrow(n.q) && OfferedAll(ms, Sized)
    ensures var r := Run(n, ms, parse);
            && ChannelFits(r.pq) && ChannelFits(r.qp)
            && r.q.got <= r.p.sent && r.p.got <= r.q.sent
            && |r.p.sent| - r.p.acked <= r.p.ep.k + 1 && |r.q.sent| - r.q.acked <= r.q.ep.k + 1
            && r.p.acked <= |r.q.got| && r.q.acked <= |r.p.got|
  {
    RunFits(n, ms, parse);
  }

  /**
   However many packets were lost, the oldest packet under way is never refused for its N(R); and
   an information frame is accepted only if it is the true next one: a frame after a gap never
   aliases to the expected number.
   */
  lemma NoAliasing(n: Net, ms: seq<Move>, parse: Payload -> Kind, env: Env)
    requires Fresh(n) && Narrow(n.p) && Narrow(n.q)
    ensures var r := Run(n, ms, parse);
            r.qp != [] && !r.qp[0].frame.U? ==>
              var k := r.qp[0];
              && CheckRecvNum(r.p.ep, k.frame.recvNum)
              && (k.frame.I? ==>
                    (Recv(r.p.ep, k.frame, parse, env).accepted.Some? <==>
                       k.ns == |r.p.got| && !parse(k.frame.data).Unparsed?))
              && (Recv(r.p.ep, k.frame, parse, env).reconnect <==> k.frame.I? && k.ns != |r.p.got|)
  {
    RunInv(n, ms, parse);
    var r := Run(n, ms, parse);
    if r.qp != [] && !r.qp[0].frame.U? {
      HeadIsGenuine(r);
      RecvReacts(r.p.ep, r.qp[0].frame, parse, env);
    }
  }

}
