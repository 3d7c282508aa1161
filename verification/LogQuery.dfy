/**
 log_db_get_vars of iec61850/log_db.c: the records of one address from a time on, thinned out to a
 minimum interval; and the proof that its one pass finds the best choice.
 */
module LogQuery {
  import opened Prelude
  import opened Bytes
  import opened LogDb

  datatype Query = Query(adr: u32, logTime: u32, intr: nat, num: int)

  datatype Var = Var(time: u32, value: u32)

  predicate Matches(r: Rec, q: Query) {
    r.adr == q.adr && r.time >= q.logTime
  }

  /** The records the loop outputs: `left` more at most, none before `lo`. */
  function Sample(rs: seq<Rec>, q: Query, left: nat, lo: int): seq<Rec> {
    if rs == [] || left == 0 then []
    else if Matches(rs[0], q) && rs[0].time >= lo then [rs[0]] + Sample(rs[1..], q, left - 1, rs[0].time + q.intr)
    else Sample(rs[1..], q, left, lo)
  }

  function Vars(rs: seq<Rec>, idx: nat): (vs: seq<Var>)
    requires forall i | 0 <= i < |rs| :: idx < |rs[i].fields|
    ensures |vs| == |rs| && forall i | 0 <= i < |rs| :: vs[i] == Var(rs[i].time, rs[i].fields[idx])
  {
    if rs == [] then [] else [Var(rs[0].time, rs[0].fields[idx])] + Vars(rs[1..], idx)
  }

  lemma {:induction false} SampleIn(rs: seq<Rec>, q: Query, left: nat, lo: int)
    ensures forall i | 0 <= i < |Sample(rs, q, left, lo)| :: Sample(rs, q, left, lo)[i] in rs
  {
    if rs != [] && left > 0 {
      SampleIn(rs[1..], q, left - 1, rs[0].time + q.intr);
      SampleIn(rs[1..], q, left, lo);
    }
  }

  /** The pass over the records. */
  method Scan(recs: seq<Rec>, q: Query) returns (out: seq<Rec>)
    requires q.num > 0
    ensures out == Sample(recs, q, q.num, q.intr)
  {
    out := [];
    var stTime: int := 0;
    var i := 0;
    while i < |recs| && |out| < q.num
      invariant i <= |recs| && |out| <= q.num && stTime >= 0
      invariant Sample(recs, q, q.num, q.intr) == out + Sample(recs[i..], q, q.num - |out|, stTime + q.intr)
    {
      var r := recs[i];
      i := i + 1;
      SampleStep(recs, i - 1, q, q.num - |out|, stTime + q.intr, out);
      if r.time < q.logTime || r.adr != q.adr {
        continue;
      }
      if r.time - stTime >= q.intr {
        out := out + [r];
        stTime := r.time;
      }
    }
  }

  /** One record of the pass. */
  lemma SampleStep(recs: seq<Rec>, i: nat, q: Query, left: nat, lo: int, out: seq<Rec>)
    requires i < |recs| && left > 0
    ensures var r := recs[i];
            out + Sample(recs[i..], q, left, lo)
              == if Matches(r, q) && r.time >= lo then (out + [r]) + Sample(recs[i + 1..], q, left - 1, r.time + q.intr)
                 else out + Sample(recs[i + 1..], q, left, lo)
  {
    var r := recs[i];
    assert recs[i..][0] == r && recs[i..][1..] == recs[i + 1..];
    assert out + ([r] + Sample(recs[i + 1..], q, left - 1, r.time + q.intr))
        == (out + [r]) + Sample(recs[i + 1..], q, left - 1, r.time + q.intr);
  }

  /** log_db_get_vars; `field` is the index of the variable's name, if it has one. */
  method GetVars(recs: seq<Rec>, q: Query, field: Option<nat>) returns (vars: Option<seq<Var>>)
    requires field.Some? ==> forall i | 0 <= i < |recs| :: field.value < |recs[i].fields|
    ensures q.logTime == 0 || q.num <= 0 || field == None <==> vars == None
    ensures vars.Some? ==>
              var s := Sample(recs, q, q.num, q.intr);
              && (forall i | 0 <= i < |s| :: s[i] in recs)
              && vars.value == Vars(s, field.value)
  {
    if q.logTime == 0 || q.num <= 0 || field == None {
      return None;
    }
    SampleIn(recs, q, q.num, q.intr);
    var out := Scan(recs, q);
    vars := Some(Vars(out, field.value));
  }

  // ---------------------------------------------------------------- optimality

  /** `c` is a subsequence of `rs`. */
  predicate Sub(c: seq<Rec>, rs: seq<Rec>) {
    c == [] || (rs != [] && ((c[0] == rs[0] && Sub(c[1..], rs[1..])) || Sub(c, rs[1..])))
  }

  /** The first record is not before `lo`, and each next one at least `intr` later. */
  predicate Spaced(c: seq<Rec>, intr: nat, lo: int) {
    c == [] || (c[0].time >= lo && Spaced(c[1..], intr, c[0].time + intr))
  }

  predicate AllMatch(c: seq<Rec>, q: Query) {
    forall i | 0 <= i < |c| :: c[i].adr == q.adr && c[i].time >= q.logTime
  }

  /** An admissible answer: records of the address, from the time on, in order, spaced, not too many. */
  predicate Answer(c: seq<Rec>, rs: seq<Rec>, q: Query, left: nat, lo: int) {
    Sub(c, rs) && AllMatch(c, q) && Spaced(c, q.intr, lo) && |c| <= left
  }

  /** At least as long, and each record at least as early. */
  predicate Beats(g: seq<Rec>, c: seq<Rec>) {
    |c| <= |g| && forall i | 0 <= i < |c| :: g[i].time <= c[i].time
  }

  lemma SpacedEarlier(c: seq<Rec>, intr: nat, lo: int, lo': int)
    requires Spaced(c, intr, lo) && lo' <= lo
    ensures Spaced(c, intr, lo')
  {
  }

  lemma {:induction false} SampleAnswers(rs: seq<Rec>, q: Query, left: nat, lo: int)
    ensures Answer(Sample(rs, q, left, lo), rs, q, left, lo)
  {
    if rs != [] && left > 0 {
      if Matches(rs[0], q) && rs[0].time >= lo {
        SampleAnswers(rs[1..], q, left - 1, rs[0].time + q.intr);
        var rest := Sample(rs[1..], q, left - 1, rs[0].time + q.intr);
        assert ([rs[0]] + rest)[1..] == rest;
      } else {
        SampleAnswers(rs[1..], q, left, lo);
      }
    }
  }

  lemma {:induction false} SubIn(c: seq<Rec>, rs: seq<Rec>)
    requires Sub(c, rs) && c != []
    ensures c[0] in rs && Sub(c[1..], rs[1..])
    decreases |rs|
  {
    if !(c[0] == rs[0] && Sub(c[1..], rs[1..])) {
      SubIn(c, rs[1..]);
      SubLonger(c[1..], rs[1..]);
    }
  }

  lemma SubLonger(c: seq<Rec>, rs: seq<Rec>)
    requires rs != [] && Sub(c, rs[1..])
    ensures Sub(c, rs)
  {
  }

  /** The pass stays ahead of every admissible answer. */
  lemma {:induction false} SampleBeats(rs: seq<Rec>, q: Query, left: nat, lo: int, c: seq<Rec>)
    requires Sorted(rs) && Answer(c, rs, q, left, lo)
    ensures Beats(Sample(rs, q, left, lo), c)
    decreases |rs|
  {
    if c != [] {
      var r, rest := rs[0], rs[1..];
      SubIn(c, rs);
      if Matches(r, q) && r.time >= lo {
        assert r.time <= c[0].time;
        SpacedEarlier(c[1..], q.intr, c[0].time + q.intr, r.time + q.intr);
        SampleBeats(rest, q, left - 1, r.time + q.intr, c[1..]);
        BeatsCons(r, Sample(rest, q, left - 1, r.time + q.intr), c);
      } else {
        SampleBeats(rest, q, left, lo, c);
      }
    }
  }

  lemma BeatsCons(r: Rec, g: seq<Rec>, c: seq<Rec>)
    requires c != [] && r.time <= c[0].time && Beats(g, c[1..])
    ensures Beats([r] + g, c)
  {
    forall i | 0 <= i < |c| ensures ([r] + g)[i].time <= c[i].time {
      if i > 0 {
        assert g[i - 1].time <= c[1..][i - 1].time;
      }
    }
  }

  /** `g` is an admissible answer and beats every other one. */
  ghost predicate Optimal(g: seq<Rec>, rs: seq<Rec>, q: Query, left: nat, lo: int) {
    Answer(g, rs, q, left, lo) && forall c | Answer(c, rs, q, left, lo) :: Beats(g, c)
  }

  /** On all inputs: the best of all answers that start no earlier than the interval after time 0. */
  lemma SampleOptimal(rs: seq<Rec>, q: Query)
    requires Sorted(rs) && q.num > 0
    ensures Optimal(Sample(rs, q, q.num, q.intr), rs, q, q.num, q.intr)
  {
    SampleAnswers(rs, q, q.num, q.intr);
    forall c | Answer(c, rs, q, q.num, q.intr) ensures Beats(Sample(rs, q, q.num, q.intr), c) {
      SampleBeats(rs, q, q.num, q.intr, c);
    }
  }

  /** A record of the address that the query asks for although it is earlier than the interval after time 0. */
  predicate Overlooked(r: Rec, q: Query) {
    r.adr == q.adr && q.logTime <= r.time < q.intr
  }

  lemma {:induction false} SubOne(rs: seq<Rec>, k: nat)
    requires k < |rs|
    ensures Sub([rs[k]], rs)
  {
    if k > 0 {
      SubOne(rs[1..], k - 1);
    }
  }

  lemma SubElements(c: seq<Rec>, rs: seq<Rec>)
    requires Sub(c, rs)
    ensures forall i | 0 <= i < |c| :: c[i] in rs
    decreases |rs|
  {
    if c != [] {
      if c[0] == rs[0] && Sub(c[1..], rs[1..]) {
        SubElements(c[1..], rs[1..]);
      } else {
        SubElements(c, rs[1..]);
      }
    }
  }

  /** An overlooked record alone would be a better answer. */
  lemma OverlookedBetter(rs: seq<Rec>, q: Query, k: nat)
    requires k < |rs| && Overlooked(rs[k], q) && q.num > 0
    ensures Answer([rs[k]], rs, q, q.num, 0) && !Beats(Sample(rs, q, q.num, q.intr), [rs[k]])
  {
    SubOne(rs, k);
    SampleAnswers(rs, q, q.num, q.intr);
    assert Spaced([rs[k]], q.intr, 0) by {
      assert [rs[k]][1..] == [];
    }
  }

  /** With nothing overlooked every answer starts no earlier than the interval. */
  lemma NothingOverlooked(rs: seq<Rec>, q: Query, c: seq<Rec>)
    requires q.num > 0 && Answer(c, rs, q, q.num, 0)
    requires forall i | 0 <= i < |rs| :: !Overlooked(rs[i], q)
    ensures Answer(c, rs, q, q.num, q.intr)
  {
    SubElements(c, rs);
    if c != [] {
      assert Matches(c[0], q) && c[0] in rs;
    }
  }

  /**
   The answer is the best one from the asked time on if and only if the database holds no record of
   the address between the asked time and the interval - in particular if the asked time is at least
   the interval.
   */
  lemma QueryOptimalIff(rs: seq<Rec>, q: Query)
    requires Sorted(rs) && q.num > 0
    ensures Optimal(Sample(rs, q, q.num, q.intr), rs, q, q.num, 0) <==> forall i | 0 <= i < |rs| :: !Overlooked(rs[i], q)
  {
    var g := Sample(rs, q, q.num, q.intr);
    if k :| 0 <= k < |rs| && Overlooked(rs[k], q) {
      OverlookedBetter(rs, q, k);
    } else {
      SampleAnswers(rs, q, q.num, q.intr);
      SpacedEarlier(g, q.intr, q.intr, 0);
      forall c | Answer(c, rs, q, q.num, 0) ensures Beats(g, c) {
        NothingOverlooked(rs, q, c);
        SampleBeats(rs, q, q.num, q.intr, c);
      }
    }
  }

}
