/**
 The link layer joined with the ASDU codec: from one end point's upper level to the other's parser.
 */
module EndToEnd {
  import opened Prelude
  import opened LinkLayer
  import opened LinkShape
  import opened LinkNetwork
  import opened LinkStart
  import LinkLossless
  import opened IecAsdu

  /** Parsing a payload as iec104_frame_i_recv does, and what its type leads to. */
  function Codec(l: Lens): Payload -> Kind {
    (d: Payload) =>
      var p := IecAsdu.Parse(d, l);
      match p.asdu
      case None => Unparsed(p.res)
      case Some(a) => if a.typ == 100 then Interrogation else if a.typ == 103 then ClockSync else Process
  }

  /** `d` is a built ASDU that fits an information frame. */
  ghost predicate Carries(d: Payload, l: Lens) {
    Sized(d) && exists a :: Carried(d, a, l)
  }

  predicate Carried(d: Payload, a: Asdu, l: Lens) {
    IecAsdu.Fits(a, l) && Emitted(a, l, d)
  }

  ghost predicate AllGood(ds: seq<Payload>, good: Payload -> bool) {
    forall i | 0 <= i < |ds| :: good(ds[i])
  }

  lemma ActOrigin(n: Net, act: Act, parse: Payload -> Kind, good: Payload -> bool)
    requires AllGood(n.p.sent, good) && forall d | d in Offered(Move(false, act)) :: good(d)
    ensures var m := ActP(n, act, parse); AllGood(m.p.sent, good) && m.q == n.q
  {
    match act
    case Local(ev, env) =>
      SentOrigin(n.p.ep, ev, parse, env);
    case Deliver(env) =>
      if n.qp != [] {
        SentOrigin(n.p.ep, Receive(n.qp[0].frame), parse, env);
      }
    case Drop(_) =>
  }

  /** Nothing but what was offered is ever sent. */
  lemma {:induction false} RunOrigin(n: Net, ms: seq<Move>, parse: Payload -> Kind, good: Payload -> bool)
    requires Fresh(n) && OfferedAll(ms, good)
    ensures var r := Run(n, ms, parse); AllGood(r.p.sent, good) && AllGood(r.q.sent, good)
  {
    if ms != [] {
      var i := |ms| - 1;
      RunOrigin(n, ms[..i], parse, good);
      var r := Run(n, ms[..i], parse);
      assert forall d | d in Offered(ms[i]) :: good(d);
      ActOrigin(if ms[i].atQ then Swap(r) else r, ms[i].act, parse, good);
    }
  }

  /** `ds` are the ASDUs `asdus`, built. */
  predicate BuiltFrom(ds: seq<Payload>, asdus: seq<Asdu>, l: Lens) {
    |asdus| == |ds| && forall i | 0 <= i < |ds| :: Carried(ds[i], asdus[i], l)
  }

  lemma {:induction false} Collect(ds: seq<Payload>, l: Lens) returns (asdus: seq<Asdu>)
    requires AllGood(ds, (d: Payload) => Carries(d, l))
    ensures BuiltFrom(ds, asdus, l)
  {
    if ds == [] {
      asdus := [];
    } else {
      var i := |ds| - 1;
      var before := Collect(ds[..i], l);
      assert Carries(ds[i], l);
      var a :| Carried(ds[i], a, l);
      asdus := before + [a];
    }
  }

  /** What was accepted decodes to the first ASDUs sent. */
  ghost predicate DecodesPrefix(got: seq<Payload>, asdus: seq<Asdu>, l: Lens) {
    && |got| <= |asdus|
    && forall i | 0 <= i < |got| :: IecAsdu.Parse(got[i], l) == ParsedAsdu(Success, Some(Received(asdus[i])))
  }

  lemma Decodes(got: seq<Payload>, sent: seq<Payload>, asdus: seq<Asdu>, l: Lens)
    requires GoodLens(l) && got <= sent && BuiltFrom(sent, asdus, l)
    ensures DecodesPrefix(got, asdus, l)
  {
    forall i | 0 <= i < |got| ensures IecAsdu.Parse(got[i], l) == ParsedAsdu(Success, Some(Received(asdus[i]))) {
      assert got[i] == sent[i] && Carried(sent[i], asdus[i], l);
      IecAsdu.ParseUndoesBuild(asdus[i], l, got[i]);
    }
  }

  /** Every move hands over built ASDUs that fit a frame. */
  ghost predicate AsdusOffered(ms: seq<Move>, l: Lens) {
    OfferedAll(ms, (d: Payload) => Carries(d, l))
  }

  lemma AsdusSized(ms: seq<Move>, l: Lens)
    requires AsdusOffered(ms, l)
    ensures OfferedAll(ms, Sized)
  {
    forall i | 0 <= i < |ms| ensures forall d | d in Offered(ms[i]) :: Sized(d) {
      assert forall d | d in Offered(ms[i]) :: Carries(d, l);
    }
  }

  /**
   End to end, over channels that may drop any packets: if both upper levels hand over built ASDUs
   that fit a frame, then in every reachable state each end point has sent exactly the ASDUs `fromP`
   and `fromQ`, and what the other one accepted parses to the first of these, in order, none twice.
   */
  lemma AsdusDelivered(n: Net, ms: seq<Move>, l: Lens) returns (fromP: seq<Asdu>, fromQ: seq<Asdu>)
    requires Fresh(n) && Narrow(n.p) && Narrow(n.q) && GoodLens(l) && AsdusOffered(ms, l)
    ensures var r := Run(n, ms, Codec(l));
            && ChannelFits(r.pq) && ChannelFits(r.qp)
            && BuiltFrom(r.p.sent, fromP, l) && DecodesPrefix(r.q.got, fromP, l)
            && BuiltFrom(r.q.sent, fromQ, l) && DecodesPrefix(r.p.got, fromQ, l)
  {
    var r := Run(n, ms, Codec(l));
    RunOrigin(n, ms, Codec(l), (d: Payload) => Carries(d, l));
    AsdusSized(ms, l);
    PrefixDelivery(n, ms, Codec(l));
    fromP := Collect(r.p.sent, l);
    fromQ := Collect(r.q.sent, l);
    Decodes(r.q.got, r.p.sent, fromP, l);
    Decodes(r.p.got, r.q.sent, fromQ, l);
  }

  /** A move that drops nothing and whose acknowledgements go out. */
  predicate Reliable(m: Move) {
    match m.act
    case Local(_, env) => env.okS
    case Deliver(env) => env.okS
    case Drop(_) => false
  }

  /** What becomes of an ASDU that parses depends on its type alone. */
  lemma KindOf(d: Payload, l: Lens, p: ParsedAsdu)
    requires p == IecAsdu.Parse(d, l) && p.asdu.Some?
    ensures Codec(l)(d) == if p.asdu.value.typ == 100 then Interrogation else if p.asdu.value.typ == 103 then ClockSync else Process
  {
    var codec := Codec(l);
    assert codec(d) == if p.asdu.value.typ == 100 then Interrogation else if p.asdu.value.typ == 103 then ClockSync else Process;
  }

  lemma ReliableLossless(m: Move, l: Lens)
    requires GoodLens(l) && Reliable(m) && forall d | d in Offered(m) :: Carries(d, l)
    ensures LinkLossless.Lossless(m, Codec(l))
  {
    forall d | d in Offered(m) ensures LinkLossless.Parses(d, Codec(l)) {
      var a :| Carried(d, a, l);
      IecAsdu.ParseUndoesBuild(a, l, d);
      KindOf(d, l, IecAsdu.Parse(d, l));
    }
  }

  /** Nothing is lost either, if the channels lose nothing: once they are empty all ASDUs have arrived. */
  lemma AllAsdusDelivered(n: Net, ms: seq<Move>, l: Lens) returns (fromP: seq<Asdu>, fromQ: seq<Asdu>)
    requires Fresh(n) && Narrow(n.p) && Narrow(n.q) && GoodLens(l) && AsdusOffered(ms, l)
    requires forall i | 0 <= i < |ms| :: Reliable(ms[i])
    ensures var r := Run(n, ms, Codec(l));
            && ChannelFits(r.pq) && ChannelFits(r.qp)
            && BuiltFrom(r.p.sent, fromP, l) && DecodesPrefix(r.q.got, fromP, l) && (r.pq == [] ==> |r.q.got| == |fromP|)
            && BuiltFrom(r.q.sent, fromQ, l) && DecodesPrefix(r.p.got, fromQ, l) && (r.qp == [] ==> |r.p.got| == |fromQ|)
  {
    fromP, fromQ := AsdusDelivered(n, ms, l);
    forall i | 0 <= i < |ms| ensures LinkLossless.Lossless(ms[i], Codec(l)) {
      assert forall d | d in Offered(ms[i]) :: Carries(d, l);
      ReliableLossless(ms[i], l);
    }
    LinkLossless.NothingRefused(n, ms, Codec(l), WORKING);
  }

}
