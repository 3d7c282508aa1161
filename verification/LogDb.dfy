/**
 The log databases of the IEC 61850 server: export, cleanup and query of iec61850/log_db.c.

 A database is a sequence in key order.  Keys are record times, stored most significant byte first,
 so that key order is time order; records with equal times stay in the order they were added.
 */
module LogDb {
  import opened Prelude
  import opened Bytes

  datatype Rec = Rec(time: u32, adr: u32, fields: seq<u32>)

  /** Records, the stored last export time (0 if there is none), and the export timer (0 while off). */
  datatype Log = Log(recs: seq<Rec>, stored: u32, timer: u32)

  /** The new log, and the export file if one was made. */
  datatype Exported = Exported(log: Log, file: seq<Rec>)

  datatype Config = Config(period: nat, deep: nat)

  predicate Sorted(rs: seq<Rec>) {
    forall i, j | 0 <= i < j < |rs| :: rs[i].time <= rs[j].time
  }

  /** Adding a record: behind all records that are not later. */
  function Insert(rs: seq<Rec>, r: Rec): seq<Rec> {
    if rs == [] || rs[|rs| - 1].time <= r.time then rs + [r] else Insert(rs[..|rs| - 1], r) + [rs[|rs| - 1]]
  }

  /** The records a cursor loop picks out. */
  function Pick(rs: seq<Rec>, p: Rec -> bool): seq<Rec> {
    if rs == [] then [] else Pick(rs[..|rs| - 1], p) + (if p(rs[|rs| - 1]) then [rs[|rs| - 1]] else [])
  }

  function Within(lo: int, hi: int): Rec -> bool {
    (r: Rec) => lo < r.time <= hi
  }

  function After(limit: int): Rec -> bool {
    (r: Rec) => r.time > limit
  }

  /** What reaches the export file; put number `failAt` of the loop fails, if any. */
  function Written(due: seq<Rec>, failAt: Option<nat>): (r: seq<Rec>)
    ensures r <= due
  {
    if failAt.Some? && failAt.value < |due| then due[..failAt.value] else due
  }

  /** log_db_export_data: the export time moves on whenever anything was written, even after a failure. */
  function Export(l: Log, cut: u32, failAt: Option<nat>): Exported {
    var file := Written(Pick(l.recs, Within(l.stored, cut)), failAt);
    Exported(if file != [] then l.(stored := cut) else l, file)
  }

  /** log_db_clean_old_data. */
  function Clean(l: Log, cut: u32, deep: nat): Log {
    l.(recs := Pick(l.recs, After(cut - deep)))
  }

  /** log_db_maintain_database. */
  function Maintain(l: Log, now: u32, cfg: Config, failAt: Option<nat>): Exported {
    if l.timer > 0 && now - l.timer >= cfg.period then
      var e := Export(l, now, failAt);
      Exported(Clean(e.log, now, cfg.deep).(timer := now), e.file)
    else Exported(l, [])
  }

  /** log_db_init_timer. */
  function Started(l: Log, now: u32): Log {
    if l.stored > 0 then l.(timer := l.stored) else l.(stored := now, timer := now)
  }

  lemma {:induction false} PickPrefix(rs: seq<Rec>, p: Rec -> bool, i: nat)
    requires i <= |rs|
    ensures Pick(rs[..i], p) <= Pick(rs, p)
    decreases |rs|
  {
    if i < |rs| {
      PickPrefix(rs[..|rs| - 1], p, i);
      assert rs[..|rs| - 1][..i] == rs[..i];
    } else {
      assert rs[..i] == rs;
    }
  }

  lemma PickStep(rs: seq<Rec>, p: Rec -> bool, i: nat)
    requires i < |rs|
    ensures Pick(rs[..i + 1], p) == Pick(rs[..i], p) + (if p(rs[i]) then [rs[i]] else [])
    ensures Pick(rs[..i + 1], p) <= Pick(rs, p)
  {
    assert rs[..i + 1][..i] == rs[..i];
    PickPrefix(rs, p, i + 1);
  }

  // ---------------------------------------------------------------- the object

  class Database {
    const cfg: Config
    var recs: seq<Rec>
    var stored: u32
    var timer: u32
    var files: seq<seq<Rec>>

    ghost function View(): Log
      reads this
    {
      Log(recs, stored, timer)
    }

    /** Key order is time order. */
    ghost predicate Valid()
      reads this
    {
      Sorted(recs)
    }

    constructor (cfg: Config, recs: seq<Rec>, stored: u32)
      requires Sorted(recs)
      ensures Valid()
      ensures View() == Log(recs, stored, 0) && files == [] && this.cfg == cfg
    {
      this.cfg, this.recs, this.stored, timer, files := cfg, recs, stored, 0, [];
    }

    /** log_db_add_var_rec and log_db_add_event: one put into the B-tree. */
    method AddRecord(r: Rec)
      requires Valid()
      modifies this`recs
      ensures Valid() && Placed(old(recs), r, recs) && multiset(recs) == multiset(old(recs)) + multiset{r}
    {
      InsertPlaces(recs, r);
      InsertCount(recs, r);
      recs := Insert(recs, r);
    }

    method InitTimer(now: u32)
      modifies this`stored, this`timer
      ensures View() == Started(old(View()), now)
    {
      if stored > 0 {
        timer := stored;
      } else {
        stored, timer := now, now;
      }
    }

    method ExportData(cut: u32, failAt: Option<nat>) returns (count: nat)
      modifies this`stored, this`files
      ensures var e := Export(old(View()), cut, failAt);
              && View() == e.log && count == |e.file|
              && files == if e.file != [] then old(files) + [e.file] else old(files)
    {
      ghost var due := Pick(recs, Within(stored, cut));
      var file: seq<Rec> := [];
      var broken := false;
      count := 0;
      var i := 0;
      while i < |recs| && !broken
        invariant i <= |recs| && View() == old(View()) && files == old(files) && count == |file|
        invariant !broken ==> file == Pick(recs[..i], Within(stored, cut)) && !(failAt.Some? && failAt.value < |file|)
        invariant broken ==> file == Written(due, failAt)
        decreases |recs| - i, !broken
      {
        var r := recs[i];
        PickStep(recs, Within(stored, cut), i);
        if stored < r.time <= cut {
          if failAt == Some(count) {
            broken := true;
          } else {
            file := file + [r];
            count := count + 1;
          }
        }
        i := i + 1;
      }
      assert recs[..|recs|] == recs;
      if count > 0 {
        files := files + [file];
        stored := cut;
      }
    }

    method CleanOldData(cut: u32)
      requires Valid()
      modifies this`recs
      ensures Valid() && View() == Clean(old(View()), cut, cfg.deep)
    {
      var kept: seq<Rec> := [];
      ghost var keep := After(cut - cfg.deep);
      for i := 0 to |recs|
        invariant View() == old(View()) && kept == Pick(recs[..i], keep)
      {
        assert recs[..i + 1][..i] == recs[..i];
        if !(recs[i].time <= cut - cfg.deep) {
          kept := kept + [recs[i]];
        }
      }
      assert recs[..|recs|] == recs;
      PickSorted(recs, keep);
      recs := kept;
    }

    method MaintainDatabase(now: u32, failAt: Option<nat>)
      requires Valid()
      modifies this
      ensures Valid()
      ensures var e := Maintain(old(View()), now, cfg, failAt);
              && View() == e.log
              && files == if e.file != [] then old(files) + [e.file] else old(files)
    {
      if timer > 0 && now - timer >= cfg.period {
        var _ := ExportData(now, failAt);
        CleanOldData(now);
        timer := now;
      }
    }
  }

  // ---------------------------------------------------------------- counting records

  lemma {:induction false} PickCount(rs: seq<Rec>, p: Rec -> bool, x: Rec)
    ensures multiset(Pick(rs, p))[x] == if p(x) then multiset(rs)[x] else 0
  {
    if rs != [] {
      var before, r := rs[..|rs| - 1], rs[|rs| - 1];
      PickCount(before, p, x);
      assert rs == before + [r];
    }
  }

  lemma {:induction false} InsertCount(rs: seq<Rec>, r: Rec)
    ensures multiset(Insert(rs, r)) == multiset(rs) + multiset{r}
  {
    if rs != [] && rs[|rs| - 1].time > r.time {
      InsertCount(rs[..|rs| - 1], r);
      assert rs == rs[..|rs| - 1] + [rs[|rs| - 1]];
    }
  }

  /** The records the export loop is to write. */
  function DueRecs(l: Log, now: u32): seq<Rec> {
    Pick(l.recs, Within(l.stored, now))
  }

  predicate Acts(l: Log, now: u32, cfg: Config) {
    l.timer > 0 && now - l.timer >= cfg.period
  }

  /** No write fails, or the very first one does and nothing due is old enough to be cleaned away. */
  predicate SafeFailure(l: Log, now: u32, cfg: Config, failAt: Option<nat>) {
    var due := DueRecs(l, now);
    failAt.Some? && failAt.value < |due| ==>
      failAt.value == 0 && forall i | 0 <= i < |due| :: due[i].time > now - cfg.deep
  }

  /** Every record later than the last export is in the new file or still waits for the next one, not both. */
  ghost predicate NothingLost(l: Log, e: Exported) {
    forall x: Rec | x.time > l.stored :: Kept(l, e, x)
  }

  predicate Kept(l: Log, e: Exported, x: Rec) {
    multiset(e.file)[x] + (if x.time > e.log.stored then multiset(e.log.recs)[x] else 0) == multiset(l.recs)[x]
  }

  lemma DueCount(l: Log, now: u32, x: Rec)
    ensures multiset(DueRecs(l, now))[x] == if l.stored < x.time <= now then multiset(l.recs)[x] else 0
  {
    var p := Within(l.stored, now);
    PickCount(l.recs, p, x);
    assert p(x) <==> l.stored < x.time <= now;
  }

  lemma CleanCount(l: Log, now: u32, deep: nat, x: Rec)
    ensures multiset(Clean(l, now, deep).recs)[x] == if x.time > now - deep then multiset(l.recs)[x] else 0
  {
    var p := After(now - deep);
    PickCount(l.recs, p, x);
    assert p(x) <==> x.time > now - deep;
  }

  /** The counts one maintenance call works with. */
  lemma MaintainCounts(l: Log, now: u32, cfg: Config, failAt: Option<nat>, x: Rec)
    requires Acts(l, now, cfg)
    ensures var e := Maintain(l, now, cfg, failAt);
            && e.file == Written(DueRecs(l, now), failAt)
            && e.log.stored == (if e.file != [] then now else l.stored)
            && multiset(DueRecs(l, now))[x] == (if l.stored < x.time <= now then multiset(l.recs)[x] else 0)
            && multiset(e.log.recs)[x] == (if x.time > now - cfg.deep then multiset(l.recs)[x] else 0)
  {
    DueCount(l, now, x);
    CleanCount(Export(l, now, failAt).log, now, cfg.deep, x);
  }

  lemma SafeKeeps(l: Log, now: u32, cfg: Config, failAt: Option<nat>, x: Rec)
    requires Acts(l, now, cfg) && SafeFailure(l, now, cfg, failAt) && x.time > l.stored
    ensures Kept(l, Maintain(l, now, cfg, failAt), x)
  {
    MaintainCounts(l, now, cfg, failAt, x);
    var due := DueRecs(l, now);
    if x.time <= now && x in multiset(l.recs) {
      assert x in multiset(due);
      assert x in due;
    }
  }

  /** What a failed write leaves out is less than what was due. */
  lemma NotWritten(due: seq<Rec>, j: nat, i: nat)
    requires j <= i < |due|
    ensures multiset(due[..j])[due[i]] < multiset(due)[due[i]]
  {
    assert due == due[..j] + due[j..];
    assert due[j..][i - j] == due[i];
    assert due[i] in multiset(due[j..]);
  }

  /** A write failure behind the first write loses what was not written; one at the first write, what is cleaned away. */
  lemma UnsafeLoses(l: Log, now: u32, cfg: Config, failAt: Option<nat>)
    requires Acts(l, now, cfg) && !SafeFailure(l, now, cfg, failAt)
    ensures !NothingLost(l, Maintain(l, now, cfg, failAt))
  {
    var due, j := DueRecs(l, now), failAt.value;
    var i := if j > 0 then j else var k :| 0 <= k < |due| && due[k].time <= now - cfg.deep; k;
    NotWritten(due, j, i);
    MaintainCounts(l, now, cfg, failAt, due[i]);
    assert !Kept(l, Maintain(l, now, cfg, failAt), due[i]);
  }

  /** A maintenance call loses nothing if and only if its write failure, if any, is a safe one. */
  lemma NothingLostIff(l: Log, now: u32, cfg: Config, failAt: Option<nat>)
    requires Acts(l, now, cfg)
    ensures NothingLost(l, Maintain(l, now, cfg, failAt)) <==> SafeFailure(l, now, cfg, failAt)
  {
    if SafeFailure(l, now, cfg, failAt) {
      forall x: Rec | x.time > l.stored ensures Kept(l, Maintain(l, now, cfg, failAt), x) {
        SafeKeeps(l, now, cfg, failAt, x);
      }
    } else {
      UnsafeLoses(l, now, cfg, failAt);
    }
  }

  // ---------------------------------------------------------------- time order

  lemma {:induction false} InsertSorted(rs: seq<Rec>, r: Rec)
    requires Sorted(rs)
    ensures Sorted(Insert(rs, r))
  {
    if rs != [] && rs[|rs| - 1].time > r.time {
      var before, last := rs[..|rs| - 1], rs[|rs| - 1];
      InsertSorted(before, r);
      InsertCount(before, r);
      forall i | 0 <= i < |Insert(before, r)| ensures Insert(before, r)[i].time <= last.time {
        assert Insert(before, r)[i] in multiset(before) + multiset{r};
      }
    }
  }

  /** `after` is `before` with `r` behind all records that are not later and before all that are. */
  ghost predicate Placed(before: seq<Rec>, r: Rec, after: seq<Rec>) {
    exists i :: 0 <= i <= |before| && PlacedAt(before, r, after, i)
  }

  predicate PlacedAt(before: seq<Rec>, r: Rec, after: seq<Rec>, i: nat)
    requires i <= |before|
  {
    && after == before[..i] + [r] + before[i..]
    && (forall j | 0 <= j < i :: before[j].time <= r.time)
    && (forall j | i <= j < |before| :: before[j].time > r.time)
  }

  lemma {:induction false} InsertAt(rs: seq<Rec>, r: Rec) returns (i: nat)
    requires Sorted(rs)
    ensures i <= |rs| && PlacedAt(rs, r, Insert(rs, r), i)
  {
    i := |rs|;
    if rs != [] && rs[|rs| - 1].time > r.time {
      i := InsertAt(rs[..|rs| - 1], r);
      PlacedBefore(rs[..|rs| - 1], r, Insert(rs[..|rs| - 1], r), i, rs[|rs| - 1]);
      assert rs == rs[..|rs| - 1] + [rs[|rs| - 1]];
    }
  }

  lemma PlacedBefore(rs: seq<Rec>, r: Rec, a: seq<Rec>, i: nat, last: Rec)
    requires i <= |rs| && PlacedAt(rs, r, a, i) && last.time > r.time
    ensures PlacedAt(rs + [last], r, a + [last], i)
  {
    assert (rs + [last])[i..] == rs[i..] + [last];
  }

  lemma PlaceSplits(rs: seq<Rec>, r: Rec, a: seq<Rec>, i: nat, k: nat)
    requires i <= |rs| && PlacedAt(rs, r, a, i) && k < |rs|
    ensures rs[k].time <= r.time <==> k < i
  {
  }

  lemma OnePlace(rs: seq<Rec>, r: Rec, a: seq<Rec>, i: nat, b: seq<Rec>, j: nat)
    requires i <= |rs| && j <= |rs| && PlacedAt(rs, r, a, i) && PlacedAt(rs, r, b, j)
    ensures a == b
  {
    if i < |rs| {
      PlaceSplits(rs, r, a, i, i);
      PlaceSplits(rs, r, b, j, i);
    }
    if j < |rs| {
      PlaceSplits(rs, r, a, i, j);
      PlaceSplits(rs, r, b, j, j);
    }
  }

  /** Adding a record keeps the time order, and its place among the others is the only one that does behind its equals. */
  lemma InsertPlaces(rs: seq<Rec>, r: Rec)
    requires Sorted(rs)
    ensures Sorted(Insert(rs, r))
    ensures forall after :: Placed(rs, r, after) <==> after == Insert(rs, r)
  {
    InsertSorted(rs, r);
    var i := InsertAt(rs, r);
    forall after | Placed(rs, r, after) ensures after == Insert(rs, r) {
      var k :| 0 <= k <= |rs| && PlacedAt(rs, r, after, k);
      OnePlace(rs, r, after, k, Insert(rs, r), i);
    }
  }

  lemma {:induction false} PickSorted(rs: seq<Rec>, p: Rec -> bool)
    requires Sorted(rs)
    ensures Sorted(Pick(rs, p)) && forall r | r in Pick(rs, p) :: r in rs
  {
    if rs != [] {
      var before, last := rs[..|rs| - 1], rs[|rs| - 1];
      PickSorted(before, p);
      forall r | r in Pick(before, p) ensures r in rs && r.time <= last.time {
        assert r in before;
      }
    }
  }

  // ---------------------------------------------------------------- runs

  datatype Event = Add(rec: Rec) | Service(now: u32, failAt: Option<nat>)

  /**
   A log with its history: the records added in time, that is, with a time later than the then
   stored export time, and all records in export files.
   */
  datatype Hist = Hist(log: Log, timely: seq<Rec>, exported: seq<Rec>)

  function Next(h: Hist, ev: Event, cfg: Config): Hist {
    match ev
    case Add(r) =>
      Hist(h.log.(recs := Insert(h.log.recs, r)), if r.time > h.log.stored then h.timely + [r] else h.timely, h.exported)
    case Service(now, failAt) =>
      var e := Maintain(h.log, now, cfg, failAt);
      Hist(e.log, h.timely, h.exported + e.file)
  }

  function Run(h: Hist, evs: seq<Event>, cfg: Config): Hist
    decreases |evs|
  {
    if evs == [] then h else Run(Next(h, evs[0], cfg), evs[1..], cfg)
  }

  predicate AllSafe(h: Hist, evs: seq<Event>, cfg: Config)
    decreases |evs|
  {
    evs == [] || (Safe(h.log, evs[0], cfg) && AllSafe(Next(h, evs[0], cfg), evs[1..], cfg))
  }

  /** A write failure, if there is one, is safe. */
  predicate Safe(l: Log, ev: Event, cfg: Config) {
    ev.Service? && Acts(l, ev.now, cfg) ==> SafeFailure(l, ev.now, cfg, ev.failAt)
  }

  /** Exported exactly once if it was due since `first`; still there if it is not due yet. */
  predicate Accounted(h: Hist, first: u32, x: Rec) {
    && multiset(h.exported)[x] == (if first < x.time <= h.log.stored then multiset(h.timely)[x] else 0)
    && (x.time > h.log.stored ==> multiset(h.log.recs)[x] == multiset(h.timely)[x])
  }

  /** What a safe maintenance call exports and keeps. */
  lemma ServiceCounts(l: Log, now: u32, cfg: Config, failAt: Option<nat>, x: Rec)
    requires Acts(l, now, cfg) && SafeFailure(l, now, cfg, failAt)
    ensures var e := Maintain(l, now, cfg, failAt);
            && l.stored <= e.log.stored
            && multiset(e.file)[x] == (if l.stored < x.time <= e.log.stored then multiset(l.recs)[x] else 0)
            && (x.time > e.log.stored ==> multiset(e.log.recs)[x] == multiset(l.recs)[x])
  {
    MaintainCounts(l, now, cfg, failAt, x);
    StoredGrows(l, now, cfg, failAt);
    if x.time > l.stored {
      SafeKeeps(l, now, cfg, failAt, x);
    }
  }

  lemma StoredGrows(l: Log, now: u32, cfg: Config, failAt: Option<nat>)
    ensures l.stored <= Maintain(l, now, cfg, failAt).log.stored
  {
    if Maintain(l, now, cfg, failAt).file != [] {
      var y := DueRecs(l, now)[0];
      assert y in multiset(DueRecs(l, now));
      DueCount(l, now, y);
    }
  }

  lemma ServiceAccounts(h: Hist, e: Exported, first: u32, x: Rec)
    requires Accounted(h, first, x) && first <= h.log.stored <= e.log.stored
    requires multiset(e.file)[x] == if h.log.stored < x.time <= e.log.stored then multiset(h.log.recs)[x] else 0
    requires x.time > e.log.stored ==> multiset(e.log.recs)[x] == multiset(h.log.recs)[x]
    ensures Accounted(Hist(e.log, h.timely, h.exported + e.file), first, x)
  {
  }

  lemma AddAccounts(h: Hist, r: Rec, cfg: Config, first: u32, x: Rec)
    requires Accounted(h, first, x) && first <= h.log.stored
    ensures Accounted(Next(h, Add(r), cfg), first, x)
  {
    InsertCount(h.log.recs, r);
  }

  /** Any event with no unsafe failure keeps the account. */
  lemma NextAccounts(h: Hist, ev: Event, cfg: Config, first: u32, x: Rec)
    requires Accounted(h, first, x) && first <= h.log.stored && Safe(h.log, ev, cfg)
    ensures Accounted(Next(h, ev, cfg), first, x) && h.log.stored <= Next(h, ev, cfg).log.stored
  {
    match ev
    case Add(r) => AddAccounts(h, r, cfg, first, x);
    case Service(now, failAt) =>
      if Acts(h.log, now, cfg) {
        ServiceCounts(h.log, now, cfg, failAt, x);
        ServiceAccounts(h, Maintain(h.log, now, cfg, failAt), first, x);
      } else {
        assert h.exported + [] == h.exported;
      }
  }

  /**
   Export is exactly once: over any run of added records and maintenance calls, every record is in
   the export files as often as it was added in time if its time is in (first, last export time],
   and otherwise not at all; and every record later than the last export is still in the database.
   */
  lemma {:induction false} ExactlyOnce(h: Hist, evs: seq<Event>, cfg: Config, first: u32, x: Rec)
    requires Accounted(h, first, x) && first <= h.log.stored && AllSafe(h, evs, cfg)
    ensures Accounted(Run(h, evs, cfg), first, x) && h.log.stored <= Run(h, evs, cfg).log.stored
    decreases |evs|
  {
    if evs != [] {
      NextAccounts(h, evs[0], cfg, first, x);
      ExactlyOnce(Next(h, evs[0], cfg), evs[1..], cfg, first, x);
    }
  }

  /** From the state log_db_init_timer leaves behind, whose export time is the first one. */
  lemma ExactlyOnceFromStart(l: Log, now: u32, evs: seq<Event>, cfg: Config, x: Rec)
    requires AllSafe(Hist(Started(l, now), l.recs, []), evs, cfg)
    ensures Accounted(Run(Hist(Started(l, now), l.recs, []), evs, cfg), Started(l, now).stored, x)
  {
    var s := Started(l, now);
    ExactlyOnce(Hist(s, s.recs, []), evs, cfg, s.stored, x);
  }

  /** Only adding a record makes it one that was added in time. */
  lemma {:induction false} TimelyCount(h: Hist, evs: seq<Event>, cfg: Config, x: Rec)
    requires Add(x) !in evs
    ensures multiset(Run(h, evs, cfg).timely)[x] == multiset(h.timely)[x]
    decreases |evs|
  {
    if evs != [] {
      TimelyCount(Next(h, evs[0], cfg), evs[1..], cfg, x);
    }
  }

  /**
   A record added once is exported at most once, and exactly then if its time is later than the
   export time stored when it comes and the export has got that far since: one that comes in the
   same second as an export, or stamped earlier, is never exported.
   */
  lemma AddedExportedIff(h: Hist, r: Rec, evs: seq<Event>, cfg: Config, first: u32)
    requires Accounted(h, first, r) && first <= h.log.stored && r !in h.timely && Add(r) !in evs
    requires AllSafe(h, [Add(r)] + evs, cfg)
    ensures var last := Run(h, [Add(r)] + evs, cfg);
            multiset(last.exported)[r] == if h.log.stored < r.time <= last.log.stored then 1 else 0
  {
    var next := Next(h, Add(r), cfg);
    assert ([Add(r)] + evs)[1..] == evs;
    ExactlyOnce(h, [Add(r)] + evs, cfg, first, r);
    TimelyCount(next, evs, cfg, r);
    assert multiset(h.timely)[r] == 0;
  }

  // ---------------------------------------------------------------- exports go on

  /** The time of the last maintenance call that was due, each being due a period after the one before. */
  function LastDue(t: int, evs: seq<Event>, period: nat): int
    decreases |evs|
  {
    if evs == [] then t
    else LastDue(if evs[0].Service? && evs[0].now - t >= period then evs[0].now else t, evs[1..], period)
  }

  /** The clock counts seconds since 1970. */
  predicate Clocked(evs: seq<Event>) {
    forall i | 0 <= i < |evs| :: evs[i].Service? ==> evs[i].now > 0
  }

  /** In every run the timer holds the time of the last call that was due, and runs. */
  lemma {:induction false} RunTimer(h: Hist, evs: seq<Event>, cfg: Config)
    requires h.log.timer > 0 && Clocked(evs)
    ensures Run(h, evs, cfg).log.timer == LastDue(h.log.timer, evs, cfg.period) && Run(h, evs, cfg).log.timer > 0
    decreases |evs|
  {
    if evs != [] {
      RunTimer(Next(h, evs[0], cfg), evs[1..], cfg);
    }
  }

  /** A call less than a period after the last one that was due changes nothing. */
  lemma NotYetDue(h: Hist, now: u32, failAt: Option<nat>, cfg: Config)
    requires now - h.log.timer < cfg.period
    ensures Next(h, Service(now, failAt), cfg) == h
  {
    assert h.exported + [] == h.exported;
  }

  /** What a due call whose writes succeed exports and keeps. */
  lemma DueCall(h: Hist, now: u32, cfg: Config, x: Rec)
    requires h.log.timer > 0 && now - h.log.timer >= cfg.period
    ensures var g := Next(h, Service(now, None), cfg);
            && g.log.timer == now && g.timely == h.timely
            && multiset(g.exported)[x] == multiset(h.exported)[x] + (if h.log.stored < x.time <= now then multiset(h.log.recs)[x] else 0)
            && multiset(g.log.recs)[x] == (if x.time > now - cfg.deep then multiset(h.log.recs)[x] else 0)
  {
    MaintainCounts(h.log, now, cfg, None, x);
  }

  lemma DueAccounts(h: Hist, now: u32, cfg: Config, first: u32, x: Rec)
    requires h.log.timer > 0 && now - h.log.timer >= cfg.period && Accounted(h, first, x) && first <= h.log.stored
    ensures var g := Next(h, Service(now, None), cfg);
            x.time <= now ==> multiset(g.exported)[x] == if x.time > first then multiset(g.timely)[x] else 0
  {
    DueCall(h, now, cfg, x);
  }

  /**
   From the state the timer initialisation leaves, over any run with safe failures: the next call that is due
   is the first one a period or more after the last one that was, calls before change nothing, and once its
   writes succeed every record with a time from the first export time up to then that was added in time is in
   the export files, as often as it was added, and no other one.
   */
  lemma ExportsGoOn(l: Log, init: u32, evs: seq<Event>, now: u32, failAt: Option<nat>, cfg: Config, x: Rec)
    requires init > 0 && Clocked(evs) && AllSafe(Hist(Started(l, init), l.recs, []), evs, cfg)
    ensures var first := if l.stored > 0 then l.stored else init;
            var h := Run(Hist(Started(l, init), l.recs, []), evs, cfg);
            var g := Next(h, Service(now, failAt), cfg);
            if now - LastDue(first, evs, cfg.period) < cfg.period then g == h
            else
              && g.log.timer == now
              && (failAt == None ==>
                    && multiset(g.exported)[x]
                         == multiset(h.exported)[x] + (if h.log.stored < x.time <= now then multiset(h.log.recs)[x] else 0)
                    && (x.time <= now ==> multiset(g.exported)[x] == if x.time > first then multiset(g.timely)[x] else 0)
                    && multiset(g.log.recs)[x] == (if x.time > now - cfg.deep then multiset(h.log.recs)[x] else 0))
  {
    var start := Hist(Started(l, init), l.recs, []);
    var h := Run(start, evs, cfg);
    RunTimer(start, evs, cfg);
    if now - h.log.timer < cfg.period {
      NotYetDue(h, now, failAt, cfg);
    } else if failAt == None {
      ExactlyOnce(start, evs, cfg, start.log.stored, x);
      DueCall(h, now, cfg, x);
      DueAccounts(h, now, cfg, start.log.stored, x);
    }
  }

  /** Key order is time order throughout. */
  lemma {:induction false} RunSorted(h: Hist, evs: seq<Event>, cfg: Config)
    requires Sorted(h.log.recs)
    ensures Sorted(Run(h, evs, cfg).log.recs)
    decreases |evs|
  {
    if evs != [] {
      match evs[0] {
        case Add(r) => InsertSorted(h.log.recs, r);
        case Service(now, _) => PickSorted(h.log.recs, After(now - cfg.deep));
      }
      RunSorted(Next(h, evs[0], cfg), evs[1..], cfg);
    }
  }

}
