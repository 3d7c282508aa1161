/**
 The send window over channels that lose nothing: once they run empty the sender's window test
 passes, with no timer needed, exactly when the receiver's `w` is at most the sender's `k` + 1 and its own
 numbers cannot wrap, or the sender's window is too wide to refuse anything.
 */
module LinkWindow {
  import opened Prelude
  import opened ApduFrame
  import opened LinkLayer
  import opened LinkShape
  import LinkRun
  import opened LinkNetwork
  import opened LinkLossless
  import opened LinkStart
  import opened LinkAlias

  /** What `q` last acknowledged is known to `p`, or a packet that says so is under way. */
  ghost predicate KnownAck(ch: seq<Pkt>, acked: nat, confirmed: nat) {
    confirmed <= acked || exists i :: 0 <= i < |ch| && !ch[i].frame.U? && confirmed <= ch[i].nr
  }

  /** `p` owes fewer than max(w, 1) acknowledgements, and its last one has reached `q` or will. */
  ghost predicate Prompt(n: Net) {
    && |n.p.got| - n.p.confirmed < LinkRun.Max1(n.p.ep.w)
    && KnownAck(n.pq, n.q.acked, n.p.confirmed)
  }

  /** Sending keeps the sender prompt, if its handler leaves few enough frames unacknowledged. */
  lemma EmitPrompt(n: Net, o: Out, acked: nat, base: Ep)
    requires SendsFrom(base, o) && base.ackR == n.p.confirmed % MODULUS && base.vr == |After(n.p, o, acked).got| % MODULUS
    requires n.p.confirmed <= |n.p.got| && |n.p.got| - n.p.confirmed < LinkRun.Max1(n.p.ep.w) <= 32767
    requires KnownAck(n.pq, n.q.acked, n.p.confirmed)
    requires SameParameters(o.ep, n.p.ep)
    requires o.accepted.Some? ==> LinkRun.Owed(o.ep) < LinkRun.Max1(n.p.ep.w)
    ensures Prompt(Emit(n, o, acked))
  {
    var m := Emit(n, o, acked);
    if o.s.Some? {
      var i := |n.pq| + (if o.i.Some? then 1 else 0);
      assert m.pq[i] == Pkt(o.s.value, 0, |m.p.got|);
    } else {
      if o.accepted.Some? {
        AheadTrue(n.p.confirmed, |m.p.got|);
      }
      if n.p.confirmed > n.q.acked {
        var i :| 0 <= i < |n.pq| && !n.pq[i].frame.U? && n.p.confirmed <= n.pq[i].nr;
        assert m.pq[i] == n.pq[i];
      }
    }
  }

  /** A delivery keeps `p` prompt, if it acknowledged in time. */
  lemma DeliverPrompt(n: Net, o: Out, parse: Payload -> Kind)
    requires Inv(n) && Prompt(n) && n.p.ep.w <= 32767 && n.qp != []
    requires Reacts(n.p.ep, n.qp[0].frame, parse, o)
    requires n.qp[0].frame.I? ==> LinkRun.Owed(o.ep) < LinkRun.Max1(n.p.ep.w)
    ensures Prompt(Emit(n.(qp := n.qp[1..]), o, Acked(n.p, n.qp[0])))
  {
    DeliverLabels(n, o, parse);
    EmitPrompt(n.(qp := n.qp[1..]), o, Acked(n.p, n.qp[0]), o.ep.(vs := n.p.ep.vs, ackR := n.p.ep.ackR));
  }

  lemma LocalPrompt(n: Net, o: Out)
    requires Inv(n) && Prompt(n) && n.p.ep.w <= 32767 && SendsFrom(n.p.ep, o) && o.accepted == None
    ensures Prompt(Emit(n, o, n.p.acked))
  {
    EmitPrompt(n, o, n.p.acked, n.p.ep);
  }

  /** An information frame is about to reach `p`. */
  predicate TakesData(n: Net, act: Act) {
    act.Deliver? && n.qp != [] && n.qp[0].frame.I?
  }

  /** Anything `p` does keeps `p` prompt, if it may send when an information frame reaches it. */
  lemma OwnActPrompt(n: Net, act: Act, parse: Payload -> Kind)
    requires Inv(n) && Prompt(n) && (TakesData(n, act) ==> MaySend(n.p.ep)) && n.p.ep.w <= 32767
    requires Lossless(Move(false, act), parse)
    ensures Prompt(ActP(n, act, parse))
  {
    match act
    case Local(ev, env) =>
      if !ev.Receive? && !Resets(ev) {
        LocalSendsFrom(n.p.ep, ev, parse, env);
        LocalPrompt(n, Step(n.p.ep, ev, parse, env));
      }
    case Deliver(env) =>
      if n.qp != [] {
        RecvPrompt(n, parse, env);
      }
  }

  lemma RecvPrompt(n: Net, parse: Payload -> Kind, env: Env)
    requires Inv(n) && Prompt(n) && n.p.ep.w <= 32767 && n.qp != [] && env.okS
    requires n.qp[0].frame.I? ==> MaySend(n.p.ep)
    ensures Prompt(ActP(n, Deliver(env), parse))
  {
    var f := n.qp[0].frame;
    RecvReacts(n.p.ep, f, parse, env);
    if f.I? {
      LinkRun.IRecvAcknowledges(n.p.ep, f, parse(f.data), env);
    }
    DeliverPrompt(n, Recv(n.p.ep, f, parse, env), parse);
  }

  /** Anything `q` does keeps `p` prompt: an acknowledgement that arrives is taken. */
  lemma PeerActPrompt(n: Net, act: Act, parse: Payload -> Kind)
    requires Inv(n) && Prompt(Swap(n)) && Lossless(Move(false, act), parse)
    ensures Prompt(Swap(ActP(n, act, parse)))
  {
    match act
    case Local(ev, env) =>
    case Deliver(env) =>
      if n.qp != [] && n.q.confirmed > n.p.acked {
        var i :| 0 <= i < |n.qp| && !n.qp[i].frame.U? && n.q.confirmed <= n.qp[i].nr;
        if i == 0 {
          HeadIsGenuine(n);
        } else {
          assert n.qp[1..][i - 1] == n.qp[i];
        }
      }
      if n.qp != [] {
        PopInv(n);
      }
  }

  /** Whenever an information frame reaches `q` in the run, `q` is allowed to send. */
  ghost predicate ReceiverMaySend(n: Net, ms: seq<Move>, parse: Payload -> Kind) {
    forall i | 0 <= i < |ms| :: ReadyAt(Run(n, ms[..i], parse), ms[i])
  }

  predicate ReadyAt(n: Net, m: Move) {
    m.atQ && TakesData(Swap(n), m.act) ==> MaySend(n.q.ep)
  }

  lemma {:induction false} RunPrompt(n: Net, ms: seq<Move>, parse: Payload -> Kind)
    requires Fresh(n) && Narrow(n.p) && Narrow(n.q) && n.q.ep.w <= 32767
    requires AllLossless(ms, parse) && ReceiverMaySend(n, ms, parse)
    ensures var r := Run(n, ms, parse);
            Prompt(Swap(r)) && SameParameters(r.p.ep, n.p.ep) && SameParameters(r.q.ep, n.q.ep)
  {
    if ms != [] {
      var i := |ms| - 1;
      forall j | 0 <= j < i ensures ms[..i][..j] == ms[..j] && ms[..i][j] == ms[j] {
      }
      RunPrompt(n, ms[..i], parse);
      RunInv(n, ms[..i], parse);
      var r := Run(n, ms[..i], parse);
      assert ReadyAt(r, ms[i]);
      SwapInv(r);
      if ms[i].atQ {
        OwnActPrompt(Swap(r), ms[i].act, parse);
        ActKeepsParameters(Swap(r), ms[i].act, parse);
      } else {
        PeerActPrompt(r, ms[i].act, parse);
        ActKeepsParameters(r, ms[i].act, parse);
      }
      assert Swap(Swap(Run(n, ms, parse))) == Run(n, ms, parse);
    }
  }

  lemma ActKeepsParameters(n: Net, act: Act, parse: Payload -> Kind)
    ensures var m := ActP(n, act, parse); SameParameters(m.p.ep, n.p.ep) && m.q == n.q
  {
    match act
    case Local(ev, env) => StepKeepsParameters(n.p.ep, ev, parse, env);
    case Deliver(env) =>
      if n.qp != [] {
        RecvReacts(n.p.ep, n.qp[0].frame, parse, env);
        EmitParameters(n, Recv(n.p.ep, n.qp[0].frame, parse, env), parse);
      }
    case Drop(_) =>
  }

  lemma EmitParameters(n: Net, o: Out, parse: Payload -> Kind)
    requires n.qp != [] && Reacts(n.p.ep, n.qp[0].frame, parse, o)
    ensures SameParameters(o.ep, n.p.ep)
  {
  }

  predicate WindowOpen(ep: Ep) {
    Ahead(ep.vs, ep.ackS) <= ep.k
  }

  /** No run that loses nothing ends with both channels empty and the window of `p` shut. */
  ghost predicate NeverStuck(n: Net, parse: Payload -> Kind) {
    forall ms | AllLossless(ms, parse) && ReceiverMaySend(n, ms, parse) :: NotStuck(Run(n, ms, parse))
  }

  predicate NotStuck(r: Net) {
    r.pq == r.qp == [] ==> WindowOpen(r.p.ep)
  }

  lemma EmptyChannelsOpenWindow(n: Net, ms: seq<Move>, parse: Payload -> Kind)
    requires Fresh(n) && Narrow(n.p) && Narrow(n.q) && n.q.ep.w <= n.p.ep.k + 1
    requires AllLossless(ms, parse) && ReceiverMaySend(n, ms, parse)
    ensures NotStuck(Run(n, ms, parse))
  {
    var r := Run(n, ms, parse);
    RunGapless(n, ms, parse);
    RunPrompt(n, ms, parse);
    if r.pq == r.qp == [] {
      assert |r.q.got| == |r.p.sent| && r.q.confirmed <= r.p.acked;
      AheadTrue(r.p.acked, |r.p.sent|);
    }
  }

  // ---------------------------------------------------------------- windows of any width

  predicate AllNumbered(ch: seq<Pkt>) {
    forall i | 0 <= i < |ch| :: LinkRun.Numbered(ch[i].frame)
  }

  /** Counters and numbers under way stay below 2^15. */
  predicate Counted(n: Net) {
    LinkRun.Counting(n.p.ep) && LinkRun.Counting(n.q.ep) && AllNumbered(n.pq) && AllNumbered(n.qp)
  }

  lemma EmitCounted(n: Net, o: Out, acked: nat, base: Ep)
    requires SendsFrom(base, o) && LinkRun.Counting(base) && Counted(n)
    ensures Counted(Emit(n, o, acked))
  {
  }

  lemma HeardCounted(ep: Ep, f: Frame, accepted: bool)
    requires LinkRun.Counting(ep) && LinkRun.Numbered(f)
    ensures LinkRun.Counting(Heard(ep, f, accepted))
  {
  }

  lemma ActCounted(n: Net, act: Act, parse: Payload -> Kind)
    requires Counted(n)
    ensures Counted(ActP(n, act, parse))
  {
    match act
    case Local(ev, env) =>
      if !ev.Receive? && !Resets(ev) {
        LocalSendsFrom(n.p.ep, ev, parse, env);
        EmitCounted(n, Step(n.p.ep, ev, parse, env), n.p.acked, n.p.ep);
      }
    case Deliver(env) =>
      if n.qp != [] {
        var f := n.qp[0].frame;
        var o := Recv(n.p.ep, f, parse, env);
        RecvReacts(n.p.ep, f, parse, env);
        HeardCounted(n.p.ep, f, o.accepted.Some?);
        EmitCounted(n.(qp := n.qp[1..]), o, Acked(n.p, n.qp[0]), Heard(n.p.ep, f, o.accepted.Some?));
      }
    case Drop(_) =>
  }

  lemma {:induction false} RunCounted(n: Net, ms: seq<Move>, parse: Payload -> Kind)
    requires Fresh(n)
    ensures Counted(Run(n, ms, parse)) && SameParameters(Run(n, ms, parse).p.ep, n.p.ep)
  {
    if ms != [] {
      var i := |ms| - 1;
      RunCounted(n, ms[..i], parse);
      var r := Run(n, ms[..i], parse);
      ActCounted(if ms[i].atQ then Swap(r) else r, ms[i].act, parse);
      ActKeepsParameters(if ms[i].atQ then Swap(r) else r, ms[i].act, parse);
    }
  }

  /** A window of 2^15 or more is never shut: no distance is larger. */
  lemma WideOpen(n: Net, ms: seq<Move>, parse: Payload -> Kind)
    requires Fresh(n) && n.p.ep.k >= 32767
    ensures NotStuck(Run(n, ms, parse))
  {
    RunCounted(n, ms, parse);
  }

  // ---------------------------------------------------------------- the bound is exact

  /** `p` sends `d` and `q` takes it, `j` times over. */
  function Rounds(d: Payload, j: nat): seq<Move> {
    if j == 0 then [] else Rounds(d, j - 1) + [Sends(d)] + [Move(true, Deliver(WORKING))]
  }

  /** The net after `j` rounds, as long as `q` owes fewer than w acknowledgements. */
  function AfterRounds(n: Net, d: Payload, j: nat): Net
    requires j < MODULUS
  {
    n.(p := n.p.(ep := n.p.ep.(vs := j), sent := Copies(d, j)),
       q := n.q.(ep := n.q.ep.(vr := j), got := Copies(d, j)))
  }

  lemma RoundStep(n: Net, d: Payload, j: nat, parse: Payload -> Kind)
    requires Open(n) && parse(d) == Process && d != [] && j <= n.p.ep.k <= 32766 && j + 1 < n.q.ep.w
    ensures Apply(Apply(AfterRounds(n, d, j), Sends(d), parse), Move(true, Deliver(WORKING)), parse)
              == AfterRounds(n, d, j + 1)
  {
    RoundSent(n, d, j, parse);
    RoundTaken(n, d, j, AfterRounds(n, d, j), parse);
  }

  /** The first half of a round. */
  function HalfRound(a: Net, d: Payload, j: nat): Net
    requires j + 1 < MODULUS
  {
    a.(p := a.p.(ep := a.p.ep.(vs := j + 1), sent := Copies(d, j + 1)), pq := [Pkt(I(j, 0, d), j, 0)])
  }

  lemma RoundSent(n: Net, d: Payload, j: nat, parse: Payload -> Kind)
    requires Open(n) && d != [] && j <= n.p.ep.k <= 32766
    ensures Apply(AfterRounds(n, d, j), Sends(d), parse) == HalfRound(AfterRounds(n, d, j), d, j)
  {
    CopiesAt(d, j);
    var a := AfterRounds(n, d, j);
    assert a.p.got + [] == a.p.got;
    assert Ahead(j, 0) == j;
  }

  lemma RoundTaken(n: Net, d: Payload, j: nat, a: Net, parse: Payload -> Kind)
    requires Open(n) && parse(d) == Process && j <= 32766 && j + 1 < n.q.ep.w && a == AfterRounds(n, d, j)
    ensures Apply(HalfRound(a, d, j), Move(true, Deliver(WORKING)), parse) == AfterRounds(n, d, j + 1)
  {
    CopiesAt(d, j);
    assert a.q.sent + [] == a.q.sent;
    assert Ahead(j + 1, 0) == j + 1;
  }

  lemma {:induction false} RoundsRun(n: Net, d: Payload, j: nat, parse: Payload -> Kind)
    requires Open(n) && Open(Swap(n)) && parse(d) == Process && Sized(d) && j <= n.p.ep.k + 1 <= 32767 && j < n.q.ep.w
    ensures Run(n, Rounds(d, j), parse) == AfterRounds(n, d, j)
    ensures AllLossless(Rounds(d, j), parse) && ReceiverMaySend(n, Rounds(d, j), parse)
  {
    if j > 0 {
      var i := j - 1;
      RoundsRun(n, d, i, parse);
      RoundStep(n, d, i, parse);
      RoundMore(n, d, Rounds(d, i), AfterRounds(n, d, i), AfterRounds(n, d, j), parse);
    } else {
      NoRounds(n, d, parse);
    }
  }

  lemma NoRounds(n: Net, d: Payload, parse: Payload -> Kind)
    requires Open(n) && Open(Swap(n))
    ensures Run(n, Rounds(d, 0), parse) == AfterRounds(n, d, 0)
    ensures AllLossless(Rounds(d, 0), parse) && ReceiverMaySend(n, Rounds(d, 0), parse)
  {
    assert AfterRounds(n, d, 0) == n;
  }

  lemma MaySendMore(n: Net, ms: seq<Move>, m: Move, parse: Payload -> Kind)
    requires ReceiverMaySend(n, ms, parse)
    ensures Run(n, ms + [m], parse) == Apply(Run(n, ms, parse), m, parse)
    ensures ReadyAt(Run(n, ms, parse), m) ==> ReceiverMaySend(n, ms + [m], parse)
  {
    RunAppend(n, ms, m, parse);
    forall i | 0 <= i <= |ms| ensures (ms + [m])[..i] == ms[..i] {
    }
    forall i | 0 <= i < |ms| ensures (ms + [m])[i] == ms[i] {
    }
  }

  lemma RoundMore(n: Net, d: Payload, ms: seq<Move>, a: Net, c: Net, parse: Payload -> Kind)
    requires Run(n, ms, parse) == a && MaySend(a.q.ep) && parse(d) == Process && Sized(d)
    requires AllLossless(ms, parse) && ReceiverMaySend(n, ms, parse)
    requires Apply(Apply(a, Sends(d), parse), Move(true, Deliver(WORKING)), parse) == c
    ensures var more := ms + [Sends(d)] + [Move(true, Deliver(WORKING))];
            Run(n, more, parse) == c && AllLossless(more, parse) && ReceiverMaySend(n, more, parse)
  {
    ActKeepsParameters(a, Sends(d).act, parse);
    MaySendMore(n, ms, Sends(d), parse);
    MaySendMore(n, ms + [Sends(d)], Move(true, Deliver(WORKING)), parse);
  }

  lemma FullWindow(n: Net, d: Payload, j: nat)
    requires Open(n) && Narrow(n.p) && j == n.p.ep.k + 1
    ensures !NotStuck(AfterRounds(n, d, j))
  {
    assert Ahead(j, 0) == j;
  }

  lemma StuckAfter(n: Net, ms: seq<Move>, r: Net, parse: Payload -> Kind)
    requires Run(n, ms, parse) == r && !NotStuck(r)
    requires AllLossless(ms, parse) && ReceiverMaySend(n, ms, parse)
    ensures !NeverStuck(n, parse)
  {
  }

  /** With a larger `w` the receiver stays silent while the sender fills its window. */
  lemma Stuck(n: Net, d: Payload, parse: Payload -> Kind)
    requires Open(n) && Open(Swap(n)) && Narrow(n.p) && parse(d) == Process && Sized(d) && n.q.ep.w > n.p.ep.k + 1
    ensures !NeverStuck(n, parse)
  {
    var j := n.p.ep.k + 1;
    RoundsRun(n, d, j, parse);
    FullWindow(n, d, j);
    StuckAfter(n, Rounds(d, j), AfterRounds(n, d, j), parse);
  }

  // ---------------------------------------------------------------- a peer whose numbers wrap

  /** Frames 0 up to `j` of `q`, which has received nothing. */
  function Backlog(d: Payload, j: nat): (r: seq<Pkt>)
    ensures |r| == j
  {
    if j == 0 then [] else Backlog(d, j - 1) + [Pkt(I((j - 1) % MODULUS, 0, d), j - 1, 0)]
  }

  lemma {:induction false} BacklogAt(d: Payload, j: nat, i: nat)
    requires i < j
    ensures Backlog(d, j)[i] == Pkt(I(i % MODULUS, 0, d), i, 0)
  {
    if i < j - 1 {
      BacklogAt(d, j - 1, i);
    }
  }

  /** A run that loses nothing, at the end of which the net is `r`. */
  ghost predicate Reaches(n: Net, ms: seq<Move>, r: Net, parse: Payload -> Kind) {
    AllLossless(ms, parse) && ReceiverMaySend(n, ms, parse) && Run(n, ms, parse) == r
  }

  lemma ReachesMore(n: Net, ms: seq<Move>, r: Net, m: Move, parse: Payload -> Kind)
    requires Reaches(n, ms, r, parse) && Lossless(m, parse) && MaySend(r.q.ep)
    ensures Reaches(n, ms + [m], Apply(r, m, parse), parse)
  {
    MaySendMore(n, ms, m, parse);
  }

  /** `q` sends `d`. */
  function PeerSends(d: Payload): Move {
    Move(true, Local(Send(Some(d)), WORKING))
  }

  /** The net once `q` has sent `j` frames into a channel that nobody reads. */
  function Queued(n: Net, d: Payload, j: nat): Net {
    n.(q := n.q.(ep := n.q.ep.(vs := j % MODULUS), sent := Copies(d, j)), qp := Backlog(d, j))
  }

  lemma QueueOne(n: Net, d: Payload, j: nat, parse: Payload -> Kind)
    requires Open(n) && Open(Swap(n)) && n.q.ep.k >= 32767 && d != []
    ensures Apply(Queued(n, d, j), PeerSends(d), parse) == Queued(n, d, j + 1)
  {
    var a := Queued(n, d, j);
    CopiesAt(d, j);
    SendsWide(a.q.ep, d);
    ModNext(j, MODULUS);
    assert a.q.got + [] == a.q.got;
  }

  lemma SendsWide(ep: Ep, d: Payload)
    requires MaySend(ep) && ep.k >= 32767 && ep.ackS == 0 && ep.vs < MODULUS && d != []
    ensures ISend(ep, Some(d), true)
              == Silent(ep.(vs := (ep.vs + 1) % MODULUS), Success).(i := Some(I(ep.vs, ep.vr, d)))
  {
    assert Ahead(ep.vs, 0) == ep.vs;
  }

  lemma {:induction false} QueueRun(n: Net, d: Payload, j: nat, parse: Payload -> Kind) returns (ms: seq<Move>)
    requires Open(n) && Open(Swap(n)) && n.q.ep.k >= 32767 && parse(d) == Process && Sized(d)
    ensures Reaches(n, ms, Queued(n, d, j), parse)
  {
    if j == 0 {
      ms := [];
      assert Queued(n, d, 0) == n;
    } else {
      ms := QueueRun(n, d, j - 1, parse);
      QueueOne(n, d, j - 1, parse);
      ReachesMore(n, ms, Queued(n, d, j - 1), PeerSends(d), parse);
      ms := ms + [PeerSends(d)];
    }
  }

  /** The frames with which `q` counts once round. */
  predicate OneLap(all: seq<Pkt>, d: Payload) {
    |all| == MODULUS && forall i | 0 <= i < |all| :: all[i] == Pkt(I(i % MODULUS, 0, d), i, 0)
  }

  /** `q` has sent `all` and counts from 0 again; `p` has received `j` of them, and sent `i` frames in vain. */
  predicate Wrapped(r: Net, all: seq<Pkt>, j: nat, i: nat) {
    && j <= |all| == MODULUS && i < MODULUS && r.pq == [] && r.qp == all[j..]
    && MaySend(r.p.ep) && r.p.ep.vs == i && r.p.ep.vr == j % MODULUS && r.p.ep.ackS == 0
    && MaySend(r.q.ep) && r.q.ep.vs == r.q.ep.vr == r.q.ep.ackS == r.q.ep.ackR == 0
  }

  /** `p` takes the next frame; its acknowledgement, if it sends one, is of no use to `q`. */
  lemma TakeOne(r: Net, all: seq<Pkt>, d: Payload, j: nat, i: nat, parse: Payload -> Kind) returns (s: Net)
    requires OneLap(all, d) && Wrapped(r, all, j, i) && j < |all| && parse(d) == Process
    ensures s == Apply(r, Move(false, Deliver(WORKING)), parse)
    ensures Wrapped(s.(pq := []), all, j + 1, i) && SameParameters(s.p.ep, r.p.ep)
    ensures s.pq == [] || (|s.pq| == 1 && s.pq[0].frame.S? && s.pq[0].frame.recvNum < MODULUS)
  {
    s := Apply(r, Move(false, Deliver(WORKING)), parse);
    assert r.qp[0] == all[j] && r.qp[1..] == all[j + 1..];
    assert Ahead(0, 0) == 0 && Ahead(i, 0) == i;
  }

  lemma UselessAck(s: Net, all: seq<Pkt>, j: nat, i: nat, parse: Payload -> Kind)
    requires Wrapped(s.(pq := []), all, j, i)
    requires s.pq == [] || (|s.pq| == 1 && s.pq[0].frame.S? && s.pq[0].frame.recvNum < MODULUS)
    ensures var t := Apply(s, Move(true, Deliver(WORKING)), parse);
            Wrapped(t, all, j, i) && SameParameters(t.p.ep, s.p.ep)
  {
    if s.pq != [] {
      var nr := s.pq[0].frame.recvNum;
      assert Ahead(0, 0) == 0 && Ahead(nr, 0) == nr;
      assert s.qp + [] == s.qp;
    }
  }

  /** A frame of `p` that acknowledges one frame is refused: `q` believes to have sent none. */
  lemma SentInVain(r: Net, all: seq<Pkt>, d: Payload, i: nat, parse: Payload -> Kind)
    requires Wrapped(r, all, 1, i) && i <= r.p.ep.k && i + 1 < MODULUS && d != []
    ensures var t := Apply(Apply(r, Sends(d), parse), Move(true, Deliver(WORKING)), parse);
            Wrapped(t, all, 1, i + 1) && SameParameters(t.p.ep, r.p.ep)
    ensures MaySend(Apply(r, Sends(d), parse).q.ep)
  {
    var s := Apply(r, Sends(d), parse);
    assert Ahead(i, 0) == i && Ahead(1, 0) == 1 && Ahead(0, 0) == 0;
    assert s.pq == [Pkt(I(i, 1, d), |r.p.sent|, |r.p.got|)];
    assert s.qp + [] == s.qp;
  }

  lemma TakeNext(n: Net, ms: seq<Move>, r: Net, all: seq<Pkt>, d: Payload, j: nat, i: nat, parse: Payload -> Kind)
    returns (more: seq<Move>, t: Net)
    requires Reaches(n, ms, r, parse) && OneLap(all, d) && Wrapped(r, all, j, i) && j < |all| && parse(d) == Process
    ensures Reaches(n, more, t, parse) && Wrapped(t, all, j + 1, i) && SameParameters(t.p.ep, r.p.ep)
  {
    var first, second := Move(false, Deliver(WORKING)), Move(true, Deliver(WORKING));
    var s := TakeOne(r, all, d, j, i, parse);
    UselessAck(s, all, j + 1, i, parse);
    ReachesMore(n, ms, r, first, parse);
    ReachesMore(n, ms + [first], s, second, parse);
    more, t := ms + [first] + [second], Apply(s, second, parse);
  }

  /** All frames from number `j` on reach `p`. */
  lemma {:induction false} TakeRest(n: Net, ms: seq<Move>, r: Net, all: seq<Pkt>, d: Payload, j: nat, i: nat, parse: Payload -> Kind)
    returns (more: seq<Move>, t: Net)
    requires Reaches(n, ms, r, parse) && OneLap(all, d) && Wrapped(r, all, j, i) && parse(d) == Process
    ensures Reaches(n, more, t, parse) && Wrapped(t, all, |all|, i) && SameParameters(t.p.ep, r.p.ep)
    decreases |all| - j
  {
    more, t := ms, r;
    if j < |all| {
      more, t := TakeNext(n, ms, r, all, d, j, i, parse);
      more, t := TakeRest(n, more, t, all, d, j + 1, i, parse);
    }
  }

  /** `p` sends as much as its window allows, all of it in vain. */
  lemma {:induction false} SendRest(n: Net, ms: seq<Move>, r: Net, all: seq<Pkt>, d: Payload, i: nat, parse: Payload -> Kind)
    returns (more: seq<Move>, t: Net)
    requires Reaches(n, ms, r, parse) && Wrapped(r, all, 1, i) && i <= r.p.ep.k + 1 <= 32767 && parse(d) == Process && Sized(d)
    ensures Reaches(n, more, t, parse) && Wrapped(t, all, 1, r.p.ep.k as int + 1) && SameParameters(t.p.ep, r.p.ep)
    decreases r.p.ep.k as int + 1 - i
  {
    more, t := ms, r;
    if i <= r.p.ep.k {
      var second := Move(true, Deliver(WORKING));
      SentInVain(r, all, d, i, parse);
      ReachesMore(n, ms, r, Sends(d), parse);
      ReachesMore(n, ms + [Sends(d)], Apply(r, Sends(d), parse), second, parse);
      t := Apply(Apply(r, Sends(d), parse), second, parse);
      more, t := SendRest(n, ms + [Sends(d)] + [second], t, all, d, i + 1, parse);
    }
  }

  /** Everything has arrived, and the window is shut. */
  lemma WrappedShut(r: Net, all: seq<Pkt>, i: nat)
    requires Wrapped(r, all, |all|, i) && i == r.p.ep.k as int + 1
    ensures !NotStuck(r)
  {
    AheadTrue(0, i);
  }

  lemma StuckOnceWrapped(n: Net, ms: seq<Move>, r: Net, all: seq<Pkt>, d: Payload, parse: Payload -> Kind)
    requires Reaches(n, ms, r, parse) && OneLap(all, d) && Wrapped(r, all, 0, 0)
    requires Narrow(r.p) && parse(d) == Process && Sized(d)
    ensures !NeverStuck(n, parse)
  {
    var more, s := TakeNext(n, ms, r, all, d, 0, 0, parse);
    StuckAfterOne(n, more, s, all, d, 0, parse);
  }

  lemma StuckAfterOne(n: Net, ms: seq<Move>, r: Net, all: seq<Pkt>, d: Payload, i: nat, parse: Payload -> Kind)
    requires Reaches(n, ms, r, parse) && OneLap(all, d) && Wrapped(r, all, 1, i) && i <= r.p.ep.k
    requires Narrow(r.p) && parse(d) == Process && Sized(d)
    ensures !NeverStuck(n, parse)
  {
    var more, s := SendRest(n, ms, r, all, d, i, parse);
    StuckOnceDrained(n, more, s, all, d, 1, r.p.ep.k as int + 1, parse);
  }

  lemma StuckOnceDrained(n: Net, ms: seq<Move>, r: Net, all: seq<Pkt>, d: Payload, j: nat, i: nat, parse: Payload -> Kind)
    requires Reaches(n, ms, r, parse) && OneLap(all, d) && Wrapped(r, all, j, i) && i == r.p.ep.k as int + 1 && parse(d) == Process
    ensures !NeverStuck(n, parse)
  {
    var more, s := TakeRest(n, ms, r, all, d, j, i, parse);
    WrappedShut(s, all, i);
    StuckAfter(n, more, s, parse);
  }

  lemma BacklogIsLap(n: Net, d: Payload, laps: nat, all: seq<Pkt>)
    requires Open(n) && Open(Swap(n)) && laps == MODULUS && all == Backlog(d, laps)
    ensures OneLap(all, d) && Wrapped(Queued(n, d, laps), all, 0, 0)
  {
    forall i | 0 <= i < laps ensures all[i] == Pkt(I(i % MODULUS, 0, d), i, 0) {
      BacklogAt(d, laps, i);
    }
    assert all[0..] == all;
  }

  /** A peer whose window lets its numbers wrap can leave the window of `p` shut, whatever its `w`. */
  lemma StuckByWrap(n: Net, d: Payload, laps: nat, parse: Payload -> Kind)
    requires Open(n) && Open(Swap(n)) && Narrow(n.p) && n.q.ep.k >= 32767 && parse(d) == Process && Sized(d)
    requires laps == MODULUS
    ensures !NeverStuck(n, parse)
  {
    var ms := QueueRun(n, d, laps, parse);
    BacklogIsLap(n, d, laps, Backlog(d, laps));
    StuckOnceWrapped(n, ms, Queued(n, d, laps), Backlog(d, laps), d, parse);
  }

  /** A run goes on from where another one ended. */
  lemma MaySendConcat(n: Net, a: seq<Move>, b: seq<Move>, parse: Payload -> Kind)
    requires ReceiverMaySend(n, a, parse) && ReceiverMaySend(Run(n, a, parse), b, parse)
    ensures ReceiverMaySend(n, a + b, parse)
  {
    forall i | 0 <= i < |a + b| ensures ReadyAt(Run(n, (a + b)[..i], parse), (a + b)[i]) {
      if i < |a| {
        assert (a + b)[..i] == a[..i];
      } else {
        assert (a + b)[..i] == a + b[..i - |a|];
        RunConcat(n, a, b[..i - |a|], parse);
        assert ReadyAt(Run(Run(n, a, parse), b[..i - |a|], parse), b[i - |a|]);
      }
    }
  }

  lemma StaysUnstuck(n: Net, a: seq<Move>, parse: Payload -> Kind)
    requires NeverStuck(n, parse) && AllLossless(a, parse) && ReceiverMaySend(n, a, parse)
    ensures NeverStuck(Run(n, a, parse), parse)
  {
    var r := Run(n, a, parse);
    forall ms: seq<Move> | AllLossless(ms, parse) && ReceiverMaySend(r, ms, parse) ensures NotStuck(Run(r, ms, parse)) {
      MaySendConcat(n, a, ms, parse);
      RunConcat(n, a, ms, parse);
      assert AllLossless(a + ms, parse);
    }
  }

  /** The exchange that starts the data transfer carries no information frame. */
  lemma StartupLossless(p: Ep, q: Ep, parse: Payload -> Kind)
    requires p.host != q.host
    ensures var ms := Startup(q.host == Slave);
            AllLossless(ms, parse) && ReceiverMaySend(Connect(p, q, parse), ms, parse)
  {
    var n := Connect(p, q, parse);
    var ms := Startup(q.host == Slave);
    ConnectFresh(p, q, parse);
    var second := Apply(n, ms[0], parse);
    assert ms[..0] == [] && ms[..1] == [] + [ms[0]];
    RunAppend(n, [], ms[0], parse);
    if q.host == Slave {
      SlaveStarts(Swap(n), parse);
    } else {
      SlaveStarts(n, parse);
    }
    assert ReadyAt(n, ms[0]) && ReadyAt(second, ms[1]);
  }

  /**
   From the moment a master and a slave are connected: the window of `p` never stays shut over empty
   lossless channels if and only if it is too wide to refuse anything, or `q` acknowledges in time,
   w <= k + 1, and the window of `q` does not let its numbers wrap.
   */
  lemma NeverStuckIff(p: Ep, q: Ep, d: Payload, parse: Payload -> Kind)
    requires p.host != q.host && parse(d) == Process && Sized(d)
    ensures NeverStuck(Connect(p, q, parse), parse) <==> p.k >= 32767 || (q.w <= p.k + 1 && q.k <= 32766)
  {
    var n := Connect(p, q, parse);
    ConnectFresh(p, q, parse);
    if p.k >= 32767 || (q.w <= p.k + 1 && q.k <= 32766) {
      forall ms: seq<Move> | AllLossless(ms, parse) && ReceiverMaySend(n, ms, parse)
        ensures NotStuck(Run(n, ms, parse))
      {
        if p.k >= 32767 {
          WideOpen(n, ms, parse);
        } else {
          EmptyChannelsOpenWindow(n, ms, parse);
        }
      }
    } else {
      StuckFromStart(p, q, d, parse);
    }
  }

  lemma StuckFromStart(p: Ep, q: Ep, d: Payload, parse: Payload -> Kind)
    requires p.host != q.host && parse(d) == Process && Sized(d) && p.k <= 32766 && (q.w > p.k + 1 || q.k >= 32767)
    ensures !NeverStuck(Connect(p, q, parse), parse)
  {
    StartupOpens(p, q, parse);
    StartupLossless(p, q, parse);
    if q.k >= 32767 {
      StuckByWrap(Opened(p, q), d, MODULUS, parse);
    } else {
      Stuck(Opened(p, q), d, parse);
    }
    if NeverStuck(Connect(p, q, parse), parse) {
      StaysUnstuck(Connect(p, q, parse), Startup(q.host == Slave), parse);
    }
  }

}
