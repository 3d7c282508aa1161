/** The arithmetic checksum of FT1.2 and DL/T 645 frames: dlt_frame_get_fcs and lpdu_frame_get_fcs. */
module Checksum {
  import opened Bytes

  function Sum(b: seq<byte>): nat {
    if b == [] then 0 else Sum(b[..|b| - 1]) + b[|b| - 1]
  }

  function Fcs(b: seq<byte>): byte {
    Sum(b) % 256
  }

  lemma {:induction false} SumConcat(a: seq<byte>, b: seq<byte>)
    ensures Sum(a + b) == Sum(a) + Sum(b)
  {
    if b == [] {
      assert a + b == a;
    } else {
      assert (a + b)[..|a + b| - 1] == a + b[..|b| - 1];
      SumConcat(a, b[..|b| - 1]);
    }
  }

  lemma SumAround(before: seq<byte>, v: byte, after: seq<byte>)
    ensures Sum(before + [v] + after) == Sum(before) + v + Sum(after)
  {
    SumConcat(before + [v], after);
    assert (before + [v])[..|before|] == before;
  }

  /** A changed byte changes the sum by just as much. */
  lemma SumUpdate(b: seq<byte>, k: nat, v: byte)
    requires k < |b|
    ensures Sum(b[k := v]) == Sum(b) - b[k] + v
  {
    SumAround(b[..k], b[k], b[k + 1..]);
    SumAround(b[..k], v, b[k + 1..]);
    assert b == b[..k] + [b[k]] + b[k + 1..];
    assert b[k := v] == b[..k] + [v] + b[k + 1..];
  }

  /** The checksum notices every change of one byte. */
  lemma FcsUpdate(b: seq<byte>, k: nat, v: byte)
    requires k < |b|
    ensures Fcs(b[k := v]) == Fcs(b) <==> v == b[k]
  {
    SumUpdate(b, k, v);
    var d := v - b[k];
    assert -256 < d < 256;
  }

  /**
   The checksum loop.  Its index is one byte wide, so on more than 255 bytes the source never
   leaves the loop.
   */
  method GetFcs(buf: array<byte>, off: nat, len: nat) returns (fcs: byte)
    requires off + len <= buf.Length && len <= 255
    ensures fcs == Fcs(buf[off..off + len])
  {
    ghost var b := buf[off..off + len];
    fcs := 0;
    for i := 0 to len
      invariant fcs == Fcs(b[..i])
    {
      assert b[..i + 1][..i] == b[..i] && b[i] == buf[off + i];
      fcs := (fcs + buf[off + i]) % 256;
    }
    assert b[..len] == b;
  }

}
