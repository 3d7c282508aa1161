/** The receive loop of iec104_frame_recv: bytes of the lower layer become handler calls. */
module LinkReceive {
  import opened Prelude
  import opened Bytes
  import opened ApduFrame
  import opened LinkLayer

  /** A handled chunk: the end point, the frames it answered with, messages to the upper level, and the payloads accepted. */
  datatype Effect = Effect(ep: Ep, sent: seq<Frame>, up: seq<Up>, accepted: seq<Payload>)

  function EffectOf(o: Out): Effect {
    Effect(o.ep, Frames(o), o.up, match o.accepted case None => [] case Some(d) => [d])
  }

  function NoEffect(ep: Ep): Effect {
    Effect(ep, [], [], [])
  }

  /** What handling frame number `i` of a chunk does. */
  type Handler = (Ep, Frame, nat) -> Effect

  /** The dispatch of iec104_frame_recv; `env` says what the lower layer does with each answer. */
  function HandlerOf(parse: Payload -> Kind, env: nat -> Env): Handler {
    (ep: Ep, f: Frame, i: nat) => EffectOf(Recv(ep, f, parse, env(i)))
  }

  function Then(a: Effect, b: Effect): Effect {
    Effect(b.ep, a.sent + b.sent, a.up + b.up, a.accepted + b.accepted)
  }

  /** Frames handled one after the other, the first of them being number `i`. */
  function HandleAll(handle: Handler, ep: Ep, fs: seq<Frame>, i: nat): Effect
    decreases |fs|
  {
    if fs == [] then NoEffect(ep)
    else
      var e := handle(ep, fs[0], i);
      Then(e, HandleAll(handle, e.ep, fs[1..], i + 1))
  }

  /** Handling a chunk up to some frame and then the rest is handling it all. */
  lemma HandleOne(handle: Handler, so: Effect, f: Frame, rest: seq<Frame>, i: nat)
    ensures var e := handle(so.ep, f, i);
            Then(so, HandleAll(handle, so.ep, [f] + rest, i)) == Then(Then(so, e), HandleAll(handle, e.ep, rest, i + 1))
  {
    assert ([f] + rest)[1..] == rest;
  }

  /** One pass of the receive loop behind the parser. */
  method Dispatch(e: EndPoint, f: Frame, parse: Payload -> Kind, env: nat -> Env, i: nat, ghost handle: Handler)
    returns (up: seq<Up>)
    requires e.Valid() && handle == HandlerOf(parse, env)
    modifies e
    ensures var r := handle(old(e.View()), f, i);
            e.Valid() && e.View() == r.ep && e.sent == old(e.sent) + r.sent && up == r.up
  {
    ghost var o := Recv(e.View(), f, parse, env(i));
    assert handle(e.View(), f, i) == EffectOf(o);
    var u, _ := e.FrameRecv(f, parse, env(i));
    up := u;
  }

  /** One parse of the receive loop: a frame to handle, or none. */
  method ParseNext(buf: array<byte>, off: nat) returns (next: nat, frame: Option<Frame>)
    requires off < buf.Length
    ensures off < next <= buf.Length && ParseAll(buf[..], off) == Opt(frame) + ParseAll(buf[..], next)
  {
    ParseAdvances(buf[..], off);
    var res, n, f := ParseBuffer(buf, off);
    next, frame := n, if res == Success then f else None;
  }

  /** What is left to do after `so`: the frames still in the buffer. */
  ghost predicate Left(total: Effect, handle: Handler, so: Effect, fs: seq<Frame>, i: nat) {
    total == Then(so, HandleAll(handle, so.ep, fs, i))
  }

  lemma LeftNext(total: Effect, handle: Handler, so: Effect, fs: seq<Frame>, i: nat, f: Option<Frame>, rest: seq<Frame>)
    requires Left(total, handle, so, fs, i) && fs == Opt(f) + rest
    ensures match f
            case None => Left(total, handle, so, rest, i)
            case Some(v) => Left(total, handle, Then(so, handle(so.ep, v, i)), rest, i + 1)
  {
    match f
    case None => assert fs == rest;
    case Some(v) => HandleOne(handle, so, v, rest, i);
  }

  /** A chunk being received: everything is what is done so far and what the rest of the buffer makes of it. */
  ghost predicate Receiving(total: Effect, handle: Handler, so: Effect, b: seq<byte>, off: nat, i: nat) {
    off <= |b| && Left(total, handle, so, ParseAll(b, off), i)
  }

  /** The end point and the messages so far are as `so` says; `before` is what was sent before the chunk came. */
  ghost predicate Synced(e: EndPoint, before: seq<Frame>, so: Effect, up: seq<Up>)
    reads e
  {
    e.Valid() && so.ep == e.View() && e.sent == before + so.sent && up == so.up
  }

  lemma SyncedThen(e: EndPoint, before: seq<Frame>, so: Effect, up: seq<Up>, r: Effect, sent: seq<Frame>, u: seq<Up>)
    requires sent == before + so.sent && up == so.up
    requires e.Valid() && e.View() == r.ep && e.sent == sent + r.sent && u == r.up
    ensures Synced(e, before, Then(so, r), up + u)
  {
    assert before + so.sent + r.sent == before + (so.sent + r.sent);
  }

  /** A found frame is handled. */
  method HandleFound(e: EndPoint, f: Frame, parse: Payload -> Kind, env: nat -> Env, i: nat, up: seq<Up>,
                     ghost handle: Handler, ghost so: Effect, ghost before: seq<Frame>)
    returns (up': seq<Up>)
    requires handle == HandlerOf(parse, env) && Synced(e, before, so, up)
    modifies e
    ensures Synced(e, before, Then(so, handle(so.ep, f, i)), up')
  {
    ghost var r := handle(so.ep, f, i);
    ghost var sent := e.sent;
    var u := Dispatch(e, f, parse, env, i, handle);
    up' := up + u;
    SyncedThen(e, before, so, up, r, sent, u);
  }

  /** One pass of the loop of iec104_frame_recv. */
  method FrameRecvNext(e: EndPoint, buf: array<byte>, off: nat, parse: Payload -> Kind, env: nat -> Env, i: nat, up: seq<Up>,
                       ghost handle: Handler, ghost total: Effect, ghost so: Effect, ghost before: seq<Frame>)
    returns (next: nat, j: nat, up': seq<Up>, ghost so': Effect)
    requires off < buf.Length && handle == HandlerOf(parse, env)
    requires Synced(e, before, so, up) && Receiving(total, handle, so, buf[..], off, i)
    modifies e
    ensures off < next <= buf.Length && Receiving(total, handle, so', buf[..], next, j)
    ensures Synced(e, before, so', up')
  {
    var frame;
    next, frame := ParseNext(buf, off);
    LeftNext(total, handle, so, ParseAll(buf[..], off), i, frame, ParseAll(buf[..], next));
    j, up', so' := i, up, so;
    if frame.Some? {
      so' := Then(so, handle(so.ep, frame.value, i));
      up' := HandleFound(e, frame.value, parse, env, i, up, handle, so, before);
      j := i + 1;
    }
  }

  lemma Received(total: Effect, handle: Handler, so: Effect, b: seq<byte>, i: nat)
    requires Receiving(total, handle, so, b, |b|, i)
    ensures so == total
  {
    assert so.sent + [] == so.sent && so.up + [] == so.up && so.accepted + [] == so.accepted;
  }

  lemma Receiving0(handle: Handler, ep: Ep, b: seq<byte>)
    ensures Receiving(HandleAll(handle, ep, ParseAll(b, 0), 0), handle, NoEffect(ep), b, 0, 0)
  {
  }

  method FrameRecvLoop(e: EndPoint, buf: array<byte>, parse: Payload -> Kind, env: nat -> Env,
                       ghost handle: Handler, ghost total: Effect) returns (up: seq<Up>)
    requires e.Valid() && handle == HandlerOf(parse, env)
    requires Receiving(total, handle, NoEffect(e.View()), buf[..], 0, 0)
    modifies e
    ensures Synced(e, old(e.sent), total, up)
  {
    var off: nat, i: nat := 0, 0;
    up := [];
    ghost var so := NoEffect(e.View());
    while off < buf.Length
      invariant Synced(e, old(e.sent), so, up)
      invariant Receiving(total, handle, so, buf[..], off, i)
      decreases buf.Length - off
    {
      off, i, up, so := FrameRecvNext(e, buf, off, parse, env, i, up, handle, total, so, old(e.sent));
    }
    Received(total, handle, so, buf[..], i);
  }

  /** iec104_frame_recv: every frame the scan finds is handled, in order; the rest is skipped. */
  method FrameRecvBuffer(e: EndPoint, buf: array<byte>, parse: Payload -> Kind, env: nat -> Env) returns (up: seq<Up>)
    requires e.Valid()
    modifies e
    ensures var r := HandleAll(HandlerOf(parse, env), old(e.View()), ParseAll(buf[..], 0), 0);
            e.Valid() && e.View() == r.ep && e.sent == old(e.sent) + r.sent && up == r.up
  {
    ghost var handle := HandlerOf(parse, env);
    Receiving0(handle, e.View(), buf[..]);
    up := FrameRecvLoop(e, buf, parse, env, handle, HandleAll(handle, e.View(), ParseAll(buf[..], 0), 0));
  }

}
