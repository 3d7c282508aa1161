/**
 How wide the window may be.  The configuration file sets `k` without a bound; prefix delivery over
 lossy channels holds exactly when `k` is at most 32766, because the source lets k + 1 frames be
 outstanding and a window of 2^15 makes the numbers wrap onto themselves.
 */
module LinkAlias {
  import opened Prelude
  import opened ApduFrame
  import opened LinkLayer
  import opened LinkShape
  import opened LinkNetwork
  import opened LinkStart

  /** Prefix delivery in both directions, whatever happens to payloads that fit a frame. */
  ghost predicate Safe(n: Net, parse: Payload -> Kind) {
    forall ms | OfferedAll(ms, Sized) :: Prefixes(Run(n, ms, parse))
  }

  predicate Prefixes(n: Net) {
    n.q.got <= n.p.sent && n.p.got <= n.q.sent
  }

  function Sends(x: Payload): Move {
    Move(false, Local(Send(Some(x)), WORKING))
  }

  /** `p` sends `x` `j` times and every packet is lost. */
  function Flood(x: Payload, j: nat): seq<Move> {
    if j == 0 then [] else Flood(x, j - 1) + [Sends(x)] + [Move(true, Drop(0))]
  }

  function Copies(x: Payload, j: nat): seq<Payload> {
    if j == 0 then [] else Copies(x, j - 1) + [x]
  }

  function Flooded(n: Net, x: Payload, j: nat): Net {
    n.(p := n.p.(ep := n.p.ep.(vs := j % MODULUS), sent := Copies(x, j)))
  }

  lemma {:induction false} FloodSized(x: Payload, j: nat)
    requires Sized(x)
    ensures OfferedAll(Flood(x, j), Sized)
  {
    if j > 0 {
      FloodSized(x, j - 1);
    }
  }

  lemma {:induction false} FloodRun(n: Net, x: Payload, j: nat, parse: Payload -> Kind)
    requires Open(n) && n.p.ep.k >= 32767 && x != []
    ensures Run(n, Flood(x, j), parse) == Flooded(n, x, j)
  {
    if j > 0 {
      FloodRun(n, x, j - 1, parse);
      RunAppendTwo(n, Flood(x, j - 1), Flooded(n, x, j - 1), Sends(x), Move(true, Drop(0)), parse);
      FloodStep(n, x, j - 1, parse);
    } else {
      assert Flooded(n, x, 0) == n;
    }
  }

  /** One lost packet more. */
  lemma FloodStep(n: Net, x: Payload, j: nat, parse: Payload -> Kind)
    requires Open(n) && n.p.ep.k >= 32767 && x != []
    ensures Apply(Apply(Flooded(n, x, j), Sends(x), parse), Move(true, Drop(0)), parse) == Flooded(n, x, j + 1)
  {
    var m := SentOnce(Flooded(n, x, j), x, parse);
    DropOnly(m, parse);
  }

  lemma DropOnly(n: Net, parse: Payload -> Kind)
    requires |n.pq| == 1
    ensures Apply(n, Move(true, Drop(0)), parse) == n.(pq := [])
  {
    assert n.pq[..0] + n.pq[1..] == [];
  }

  /** The net after `p` sends `x` into an empty channel. */
  lemma SentOnce(n: Net, x: Payload, parse: Payload -> Kind) returns (m: Net)
    requires n.pq == [] && MaySend(n.p.ep) && n.p.ep.ackS == 0 && n.p.ep.vs < MODULUS && n.p.ep.k >= 32767 && x != []
    ensures m == Apply(n, Sends(x), parse)
    ensures m == n.(p := n.p.(ep := n.p.ep.(vs := (n.p.ep.vs + 1) % MODULUS), sent := n.p.sent + [x]),
                    pq := [Pkt(I(n.p.ep.vs, n.p.ep.vr, x), |n.p.sent|, |n.p.got|)])
  {
    m := Apply(n, Sends(x), parse);
    assert n.p.got + [] == n.p.got;
  }

  lemma {:induction false} CopiesAt(x: Payload, j: nat)
    ensures |Copies(x, j)| == j && forall i | 0 <= i < j :: Copies(x, j)[i] == x
  {
    if j > 0 {
      CopiesAt(x, j - 1);
    }
  }

  /** Another payload of the same length. */
  function Other(d: Payload): (x: Payload)
    requires Sized(d)
    ensures Sized(x) && x != d
  {
    var x := [if d[0] == 0 then 1 else 0] + d[1..];
    assert x[0] != d[0];
    x
  }

  /** After 2^15 lost packets the next one carries number 0 again, and `q` takes it for the first. */
  lemma Aliases(n: Net, d: Payload, parse: Payload -> Kind)
    requires Open(n) && n.p.ep.k >= 32767 && Sized(d) && !parse(d).Unparsed?
    ensures !Safe(n, parse)
  {
    var x, laps := Other(d), MODULUS;
    FloodRun(n, x, laps, parse);
    FloodSized(x, laps);
    CopiesAt(x, laps);
    AliasAfter(n, Flood(x, laps), Flooded(n, x, laps), d, parse);
  }

  /** Once the numbers are back at 0, `q` accepts `d` in place of the first payload sent. */
  lemma AliasAfter(n: Net, ms: seq<Move>, f: Net, d: Payload, parse: Payload -> Kind)
    requires Run(n, ms, parse) == f && OfferedAll(ms, Sized) && Sized(d) && !parse(d).Unparsed?
    requires f.pq == [] && MaySend(f.p.ep) && f.p.ep.vs == f.p.ep.vr == f.p.ep.ackS == 0 && f.p.ep.k >= 32767
    requires FreshSide(f.q) && |f.p.sent| == MODULUS && f.p.sent[0] != d && f.p.got == []
    ensures !Safe(n, parse)
  {
    var more := ms + [Sends(d)] + [Move(true, Deliver(WORKING))];
    RunAppendTwo(n, ms, f, Sends(d), Move(true, Deliver(WORKING)), parse);
    var m := SentOnce(f, d, parse);
    AliasDelivery(m, d, parse);
    var r := Run(n, more, parse);
    assert r.q.got == [d] && r.p.sent[0] != d;
    assert OfferedAll(more, Sized) && !Prefixes(r);
  }

  lemma AliasDelivery(m: Net, d: Payload, parse: Payload -> Kind)
    requires FreshSide(m.q) && m.pq == [Pkt(I(0, 0, d), MODULUS, 0)] && !parse(d).Unparsed?
    ensures var r := Apply(m, Move(true, Deliver(WORKING)), parse); r.q.got == [d] && r.p == m.p
  {
    RecvReacts(m.q.ep, I(0, 0, d), parse, WORKING);
  }

  /** The same net with its end points exchanged is equally safe. */
  lemma SwapSafe(n: Net, parse: Payload -> Kind)
    requires Safe(n, parse)
    ensures Safe(Swap(n), parse)
  {
    forall ms: seq<Move> | OfferedAll(ms, Sized) ensures Prefixes(Run(Swap(n), ms, parse)) {
      RunFlip(Swap(n), ms, parse);
      assert Swap(Swap(n)) == n && OfferedAll(Flip(ms), Sized);
      assert Prefixes(Run(n, Flip(ms), parse));
    }
  }

  /** What is safe stays safe. */
  lemma StaysSafe(n: Net, a: seq<Move>, parse: Payload -> Kind)
    requires Safe(n, parse) && OfferedAll(a, Sized)
    ensures Safe(Run(n, a, parse), parse)
  {
    forall ms: seq<Move> | OfferedAll(ms, Sized) ensures Prefixes(Run(Run(n, a, parse), ms, parse)) {
      RunConcat(n, a, ms, parse);
      assert OfferedAll(a + ms, Sized);
    }
  }

  /**
   From the moment a master and a slave are connected, prefix delivery holds in every run if and only
   if neither window is wider than 32766.
   */
  lemma SafeIffNarrow(p: Ep, q: Ep, d: Payload, parse: Payload -> Kind)
    requires p.host != q.host && Sized(d) && !parse(d).Unparsed?
    ensures Safe(Connect(p, q, parse), parse) <==> p.k <= 32766 && q.k <= 32766
  {
    var n := Connect(p, q, parse);
    ConnectFresh(p, q, parse);
    if p.k <= 32766 && q.k <= 32766 {
      forall ms: seq<Move> | OfferedAll(ms, Sized) ensures Prefixes(Run(n, ms, parse)) {
        PrefixDelivery(n, ms, parse);
      }
    } else {
      WideUnsafe(p, q, d, parse);
    }
  }

  lemma OpenUnsafe(n: Net, d: Payload, parse: Payload -> Kind)
    requires Open(n) && Open(Swap(n)) && Sized(d) && !parse(d).Unparsed? && (n.p.ep.k > 32766 || n.q.ep.k > 32766)
    ensures !Safe(n, parse)
  {
    if n.p.ep.k > 32766 {
      Aliases(n, d, parse);
    } else {
      Aliases(Swap(n), d, parse);
      if Safe(n, parse) {
        SwapSafe(n, parse);
      }
    }
  }

  lemma WideUnsafe(p: Ep, q: Ep, d: Payload, parse: Payload -> Kind)
    requires p.host != q.host && Sized(d) && !parse(d).Unparsed? && (p.k > 32766 || q.k > 32766)
    ensures !Safe(Connect(p, q, parse), parse)
  {
    StartupOpens(p, q, parse);
    OpenUnsafe(Opened(p, q), d, parse);
    if Safe(Connect(p, q, parse), parse) {
      StaysSafe(Connect(p, q, parse), Startup(q.host == Slave), parse);
    }
  }

}
