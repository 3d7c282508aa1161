/** The search for a start byte that the APCI and DL/T 645 parsers share. */
module Scanning {
  import opened Bytes

  const START: byte := 0x68

  /** The offset behind the first start byte, or the end of the buffer. */
  function Scan(b: seq<byte>, off: nat): (r: nat)
    requires off <= |b|
    ensures off <= r <= |b|
    ensures r < |b| ==> off < r && b[r - 1] == START
    decreases |b| - off
  {
    if off == |b| then off
    else if b[off] == START then off + 1
    else Scan(b, off + 1)
  }

  predicate NoStart(b: seq<byte>) {
    forall i | 0 <= i < |b| :: b[i] != START
  }

  lemma {:induction false} ScanSkips(b: seq<byte>, off: nat, start: nat)
    requires off <= start <= |b| && NoStart(b[off..start])
    requires start < |b| ==> b[start] == START
    ensures Scan(b, off) == if start < |b| then start + 1 else start
    decreases start - off
  {
    if off < start {
      assert b[off] == b[off..start][0];
      assert b[off + 1..start] == b[off..start][1..];
      ScanSkips(b, off + 1, start);
    }
  }

  /** The scan loop over the first `len` bytes of a buffer. */
  method FindStart(buf: array<byte>, len: nat, off: nat) returns (next: nat)
    requires off <= len <= buf.Length
    ensures next == Scan(buf[..len], off)
  {
    next := off;
    var start: byte := 0;
    while next < len && start != START
      invariant off <= next <= len
      invariant start == START ==> next > off && Scan(buf[..len], off) == next
      invariant start != START ==> Scan(buf[..len], off) == Scan(buf[..len], next)
      decreases len - next
    {
      start := buf[next];
      next := next + 1;
    }
  }

}
