/**
 What the bytes of an ASDU mean, type by type (sections 7.2 and 7.3 of IEC 60870-5-101, with the type
 numbers, sizes and masks written out), and the proof that the parser reads just that.
 */
module AsduMeaning {
  import opened Prelude
  import opened Bytes
  import opened AsduElements
  import opened AsduObjects
  import opened IecAsdu

  // ---------------------------------------------------------------- the types

  /** Bytes of an information element of each type; 0 for types that are not known. */
  function Size(typ: byte): nat {
    if typ == 1 || typ == 3 || typ == 45 || typ == 46 || typ == 47 || typ == 100 || typ == 101 then 1
    else if typ == 5 then 2
    else if typ == 9 || typ == 11 || typ == 48 || typ == 49 then 3
    else if typ == 13 || typ == 15 || typ == 50 then 5
    else if typ == 103 then 7
    else if typ == 30 || typ == 31 then 8
    else if typ == 32 then 9
    else if typ == 34 || typ == 35 then 10
    else if typ == 36 || typ == 37 then 12
    else 0
  }

  function Word16(b: seq<byte>, at: nat): nat
    requires at + 2 <= |b|
  {
    b[at] as int + 256 * b[at + 1] as int
  }

  function Word32(b: seq<byte>, at: nat): nat
    requires at + 4 <= |b|
  {
    b[at] as int + 256 * b[at + 1] as int + 65536 * b[at + 2] as int + 16777216 * b[at + 3] as int
  }

  /** A single point, double point or command: the value in the low bits of one byte, the qualifier in the others. */
  predicate InOneByte(u: Element, v: byte, m: nat)
    requires m > 0
  {
    u.value == v % m && u.attr == v - v % m
  }

  /** A step position: the transient flag of the first byte becomes bit 3 of the qualifier. */
  predicate Step(u: Element, v: byte, q: byte) {
    u.value == v % 128 && u.attr == if v >= 128 && q / 8 % 2 == 0 then q + 8 else q
  }

  /** The value and the qualifier, whose place and kind depend on the type. */
  predicate Valued(typ: byte, u: Element, b: seq<byte>, at: nat)
    requires Size(typ) > 0 && at + Size(typ) <= |b|
  {
    if typ == 1 || typ == 30 || typ == 45 then InOneByte(u, b[at], 2) && u.valueType == Bool
    else if typ == 3 || typ == 31 || typ == 46 || typ == 47 then InOneByte(u, b[at], 4) && u.valueType == Uint
    else if typ == 101 then InOneByte(u, b[at], 64) && u.valueType == Uint
    else if typ == 100 then u.value == b[at] && u.attr == 0 && u.valueType == Uint
    else if typ == 5 || typ == 32 then Step(u, b[at], b[at + 1]) && u.valueType == Uint
    else if typ == 9 || typ == 11 || typ == 34 || typ == 35 || typ == 48 || typ == 49 then
      u.value == Word16(b, at) && u.attr == b[at + 2] && u.valueType == Int
    else if typ == 13 || typ == 36 || typ == 50 then u.value == Word32(b, at) && u.attr == b[at + 4] && u.valueType == Flt
    else if typ == 15 || typ == 37 then u.value == Word32(b, at) && u.attr == b[at + 4] && u.valueType == Uint
    else u.value == 0 && u.attr == 0 && u.valueType == NoValue
  }

  /** The seven bytes of CP56Time2a. */
  predicate Stamped(t: Cp56, b: seq<byte>, at: nat)
    requires at + 7 <= |b|
  {
    && t.msec == Word16(b, at)
    && t.min == b[at + 2] % 64 && t.res1 == b[at + 2] / 64 % 2 && t.iv == b[at + 2] / 128
    && t.hour == b[at + 3] % 32 && t.su == b[at + 3] / 128
    && t.mday == b[at + 4] % 32 && t.wday == b[at + 4] / 32
    && t.month == b[at + 5] % 16 && t.year == b[at + 6] % 128
  }

  /** What the element of type `typ` that stands at `at` means. */
  predicate Means(typ: byte, u: Element, b: seq<byte>, at: nat)
    requires Size(typ) > 0 && at + Size(typ) <= |b|
  {
    && Valued(typ, u, b, at)
    && if (30 <= typ <= 37) || typ == 103 then Stamped(u.time, b, at + Size(typ) - 7) else u.time == NO_TIME
  }

  // ---------------------------------------------------------------- the parser reads this

  /** The table has a row for exactly the types that are known, with their sizes. */
  lemma KnownIff(typ: byte)
    ensures Find(typ).Some? <==> Size(typ) > 0
    ensures Find(typ).Some? ==> Find(typ).value.size == Size(typ)
  {
  }

  lemma FromLeOne(v: byte)
    ensures FromLe([v]) == v
  {
    assert [v][1..] == [];
  }

  lemma FromLeTwo(b: seq<byte>, at: nat)
    requires at + 2 <= |b|
    ensures FromLe(b[at..at + 2]) == Word16(b, at)
  {
    assert b[at..at + 2][1..] == [b[at + 1]];
    FromLeOne(b[at + 1]);
  }

  lemma FromLeFour(b: seq<byte>, at: nat)
    requires at + 4 <= |b|
    ensures FromLe(b[at..at + 4]) == Word32(b, at)
  {
    FromLeTwo(b, at + 2);
    assert b[at..at + 4][1..] == b[at + 1..at + 4];
    assert b[at + 1..at + 4][1..] == b[at + 2..at + 4];
  }

  lemma OrEight(v: nat, q: byte)
    requires v < 2
    ensures Or(v * 8, q) == if v == 1 && q / 8 % 2 == 0 then q as int + 8 else q as int
  {
    if v == 1 {
      OrStep(8, q);
      OrStep(4, q / 2);
      OrStep(2, q / 2 / 2);
      OrOne(q / 2 / 2 / 2);
    }
  }

  lemma OrOne(y: nat)
    ensures Or(1, y) == if y % 2 == 1 then y else y + 1
  {
    OrStep(1, y);
    assert Or(0, y / 2) == y / 2;
  }

  lemma OrStep(x: nat, y: nat)
    requires x > 0
    ensures Or(x, y) == (if x % 2 == 1 || y % 2 == 1 then 1 else 0) + 2 * Or(x / 2, y / 2)
  {
    if y == 0 {
      assert Or(x / 2, 0) == x / 2;
    }
  }

  lemma ElementValued(typ: byte, row: Row, b: seq<byte>, at: nat, id: u32)
    requires Find(typ) == Some(row) && GoodRow(row) && Size(typ) > 0 && row.size == Size(typ) && at + row.size <= |b|
    ensures Valued(typ, ParseElement(row, b, at, id), b, at)
  {
    match row.carrier
    case Word(width) =>
      if width == 2 {
        FromLeTwo(b, at);
      } else {
        FromLeFour(b, at);
      }
    case StepPosition => OrEight(b[at] / 128, b[at + 1]);
    case _ =>
  }

  lemma ElementMeans(typ: byte, row: Row, b: seq<byte>, at: nat, id: u32)
    requires Find(typ) == Some(row) && GoodRow(row) && at + row.size <= |b|
    ensures Size(typ) > 0 && row.size == Size(typ) && Means(typ, ParseElement(row, b, at, id), b, at)
    ensures ParseElement(row, b, at, id).id == id
  {
    KnownIff(typ);
    ElementValued(typ, row, b, at, id);
  }

  // ---------------------------------------------------------------- whole ASDUs

  /** Bytes of `n` objects: each behind its address, or all of them behind the first one. */
  function Room(l: Lens, typ: byte, sq: bool, n: nat): nat {
    if sq then l.ioa + n * Size(typ) else n * (l.ioa + Size(typ))
  }

  /** The codes: a missing length or too short, an unknown type, too short for its objects; and acceptance. */
  lemma AcceptedIff(b: seq<byte>, l: Lens)
    ensures var head := 2 + l.cot + l.coa;
            var off := 2 + l.cot + if l.coa <= 4 then l.coa else 0;
            if l.cot == 0 || l.coa == 0 || l.ioa == 0 || |b| < 4 || |b| < head then Parse(b, l) == ParsedAsdu(Incorrect, None)
            else if Size(b[0]) == 0 then Parse(b, l) == ParsedAsdu(Unknown, None)
            else if |b| < off + Room(l, b[0], b[1] >= 128, b[1] % 128) then Parse(b, l) == ParsedAsdu(Incorrect, None)
            else Parse(b, l).res == Success && Parse(b, l).asdu.Some?
  {
    if |b| >= 4 && |b| >= 2 + l.cot + l.coa {
      KnownIff(b[0]);
      if Size(b[0]) > 0 {
        FindGood(b[0]);
      }
    }
  }

  /** Where element `i` stands. */
  function ElementAt(l: Lens, typ: byte, sq: bool, i: nat): nat {
    2 + l.cot + l.coa + l.ioa + if sq then i * Size(typ) else i * (l.ioa + Size(typ))
  }

  /** Element `i` of a parsed ASDU means what its bytes mean, and has its address or the first one counted up. */
  predicate UnitMeans(b: seq<byte>, l: Lens, u: Element, i: nat)
    requires GoodLens(l) && |b| >= 2 + l.cot + l.coa && Size(b[0]) > 0
  {
    var sq := b[1] >= 128;
    var at := ElementAt(l, b[0], sq, i);
    var first := ElementAt(l, b[0], sq, if sq then 0 else i);
    && at + Size(b[0]) <= |b| && first <= |b| && Means(b[0], u, b, at)
    && u.id == if sq then (FromLe(b[first - l.ioa..first]) + i) % 0x1_0000_0000 else FromLe(b[first - l.ioa..first])
  }

  /** Objects with their own addresses. */
  lemma {:induction false} OwnObject(read: Reader, ioa: nat, size: nat, b: seq<byte>, off: nat, n: nat, prev: Option<u32>, i: nat)
    requires i < n
    ensures var us := ParseObjects(read, ioa, size, b, off, n, false, prev);
            |us| == n && us[i] == read(b, Skip(off, AddressLen(ioa) + size, i), None)
    decreases n
  {
    var u := read(b, off, None);
    ObjectsCount(read, ioa, size, b, off, n, false, prev);
    if i > 0 {
      OwnObject(read, ioa, size, b, off + ObjectLen(true, ioa, size), n - 1, Some(u.id), i - 1);
    }
  }

  /** The offset `i` steps on. */
  function Skip(off: nat, step: nat, i: nat): nat
    decreases i
  {
    if i == 0 then off else Skip(off + step, step, i - 1)
  }

  lemma {:induction false} Skips(off: nat, step: nat, i: nat)
    ensures Skip(off, step, i) == off + i * step
    decreases i
  {
    if i > 0 {
      Skips(off + step, step, i - 1);
      assert i * step == step + (i - 1) * step;
    }
  }

  lemma {:induction false} ObjectsCount(read: Reader, ioa: nat, size: nat, b: seq<byte>, off: nat, n: nat, sq: bool, prev: Option<u32>)
    ensures |ParseObjects(read, ioa, size, b, off, n, sq, prev)| == n
    decreases n
  {
    if n > 0 {
      var own := !sq || prev == None;
      var u := read(b, off, if own then None else Some(NextId(prev.value)));
      ObjectsCount(read, ioa, size, b, off + ObjectLen(own, ioa, size), n - 1, sq, Some(u.id));
    }
  }

  /** Objects of a run, behind the first one. */
  lemma {:induction false} RunObject(read: Reader, ioa: nat, size: nat, b: seq<byte>, off: nat, n: nat, prev: u32, i: nat)
    requires i < n
    ensures var us := ParseObjects(read, ioa, size, b, off, n, true, Some(prev));
            |us| == n && us[i] == read(b, Skip(off, size, i), Some(NextId(if i == 0 then prev else us[i - 1].id)))
    decreases n
  {
    var u := read(b, off, Some(NextId(prev)));
    ObjectsCount(read, ioa, size, b, off, n, true, Some(prev));
    if i > 0 {
      RunObject(read, ioa, size, b, off + size, n - 1, u.id, i - 1);
    }
  }

  /** What a reader gives for an object with its own address, and for one whose identifier is given. */
  lemma ReadMeans(typ: byte, row: Row, ioa: nat, b: seq<byte>, off: nat, id: Option<u32>)
    requires Find(typ) == Some(row) && GoodRow(row) && Size(typ) == row.size > 0 && 1 <= ioa <= 4
    requires off + ObjectLen(id == None, ioa, row.size) <= |b|
    ensures var u := ReaderOf(row, ioa)(b, off, id);
            && Means(typ, u, b, if id == None then off + ioa else off)
            && u.id == if id == None then FromLe(b[off..off + ioa]) else id.value
  {
    var read := ReaderOf(row, ioa);
    match id
    case None =>
      assert read(b, off, None) == ParseElement(row, b, off + ioa, Address(b, off, ioa));
      ElementMeans(typ, row, b, off + ioa, Address(b, off, ioa));
    case Some(v) =>
      assert read(b, off, Some(v)) == ParseElement(row, b, off, v);
      ElementMeans(typ, row, b, off, v);
  }

  /** The identifiers of a run count up from the first. */
  lemma {:induction false} CountedUp(us: seq<Element>, i: nat)
    requires Consecutive(us) && i < |us|
    ensures us[i].id == (us[0].id + i) % 0x1_0000_0000
  {
    if i > 0 {
      CountedUp(us, i - 1);
      NextAt(us, i - 1);
    }
  }

  lemma {:induction false} NextAt(us: seq<Element>, i: nat)
    requires Consecutive(us) && i + 1 < |us|
    ensures us[i + 1].id == NextId(us[i].id)
  {
    if i > 0 {
      NextAt(us[1..], i - 1);
    }
  }

  /** Element `i` fits into the room of `n`. */
  lemma Fits(l: Lens, typ: byte, sq: bool, n: nat, i: nat)
    requires i < n
    ensures ElementAt(l, typ, sq, i) + Size(typ) <= 2 + l.cot + l.coa + Room(l, typ, sq, n)
    ensures ElementAt(l, typ, sq, 0) <= ElementAt(l, typ, sq, i)
  {
    Times(i, n, if sq then Size(typ) else l.ioa + Size(typ));
  }

  lemma Times(i: nat, n: nat, m: nat)
    requires i < n
    ensures i * m + m <= n * m && i * m >= 0
  {
    assert n * m == i * m + m + (n - i - 1) * m;
  }

  /** The parts of what an element means, its place being known. */
  lemma UnitFrom(b: seq<byte>, l: Lens, u: Element, i: nat, at: nat, first: nat)
    requires GoodLens(l) && |b| >= 2 + l.cot + l.coa && Size(b[0]) > 0
    requires at == ElementAt(l, b[0], b[1] >= 128, i) && first == ElementAt(l, b[0], b[1] >= 128, if b[1] >= 128 then 0 else i)
    requires l.ioa as int <= first <= |b| && at + Size(b[0]) <= |b| && Means(b[0], u, b, at)
    requires u.id == if b[1] >= 128 then (FromLe(b[first - l.ioa..first]) + i) % 0x1_0000_0000 else FromLe(b[first - l.ioa..first])
    ensures UnitMeans(b, l, u, i)
  {
  }

  /** An object that is read with its own address. */
  lemma OwnRead(b: seq<byte>, l: Lens, row: Row, i: nat, off: nat)
    requires GoodLens(l) && |b| >= 2 + l.cot + l.coa && Find(b[0]) == Some(row) && GoodRow(row) && Size(b[0]) == row.size > 0
    requires off + l.ioa == ElementAt(l, b[0], b[1] >= 128, i) && off + l.ioa + row.size <= |b| && (b[1] < 128 || i == 0)
    ensures UnitMeans(b, l, ReaderOf(row, l.ioa)(b, off, None), i)
  {
    var u := ReaderOf(row, l.ioa)(b, off, None);
    ReadMeans(b[0], row, l.ioa, b, off, None);
    IdBound(b, off, l.ioa);
    UnitFrom(b, l, u, i, off + l.ioa, off + l.ioa);
  }

  lemma IdBound(b: seq<byte>, off: nat, ioa: nat)
    requires 1 <= ioa <= 4 && off + ioa <= |b|
    ensures FromLe(b[off..off + ioa]) < 0x1_0000_0000
  {
    ToFromLe(b[off..off + ioa]);
    Pow256Values();
  }

  lemma OwnMeans(b: seq<byte>, l: Lens, row: Row, n: nat, us: seq<Element>, i: nat, off: nat, read: Reader, head: nat)
    requires GoodLens(l) && |b| >= 2 + l.cot + l.coa && Find(b[0]) == Some(row) && GoodRow(row) && Size(b[0]) == row.size > 0
    requires off == Skip(head, AddressLen(l.ioa) + row.size, i) && off + l.ioa == ElementAt(l, b[0], false, i)
    requires b[1] < 128 && i < n && off + l.ioa + row.size <= |b| && read == ReaderOf(row, l.ioa)
    requires us == ParseObjects(read, l.ioa, row.size, b, head, n, false, None) && |us| == n
    ensures UnitMeans(b, l, us[i], i)
  {
    OwnRead(b, l, row, i, off);
    OwnObject(read, l.ioa, row.size, b, head, n, None, i);
  }

  /** Where object `i` with its own address stands, in the parser's terms. */
  lemma OwnPlace(l: Lens, typ: byte, size: nat, n: nat, i: nat) returns (off: nat)
    requires GoodLens(l) && size == Size(typ) && i < n
    ensures off == Skip(2 + l.cot + l.coa, AddressLen(l.ioa) + size, i) && off + l.ioa == ElementAt(l, typ, false, i)
    ensures off + l.ioa + size <= 2 + l.cot + l.coa + Room(l, typ, false, n)
  {
    off := Skip(2 + l.cot + l.coa, AddressLen(l.ioa) + size, i);
    Skips(2 + l.cot + l.coa, AddressLen(l.ioa) + size, i);
    Fits(l, typ, false, n, i);
  }

  lemma RunPlace(l: Lens, typ: byte, size: nat, n: nat, i: nat)
    requires GoodLens(l) && size == Size(typ) && i < n
    ensures ElementAt(l, typ, true, i) == Skip(2 + l.cot + l.coa + AddressLen(l.ioa), size, i)
    ensures ElementAt(l, typ, true, i) + size <= 2 + l.cot + l.coa + Room(l, typ, true, n)
    ensures ElementAt(l, typ, true, 0) == 2 + l.cot + l.coa + l.ioa
  {
    Skips(2 + l.cot + l.coa + AddressLen(l.ioa), size, i);
    Fits(l, typ, true, n, i);
  }

  /** Object `i` of a run is read from where it stands, with the identifier that follows. */
  lemma RunRead(read: Reader, ioa: nat, size: nat, b: seq<byte>, off: nat, n: nat, us: seq<Element>, i: nat)
    requires i < n && us == ParseObjects(read, ioa, size, b, off, n, true, None)
    ensures |us| == n
    ensures us[i] == if i == 0 then read(b, off, None) else read(b, Skip(off + AddressLen(ioa), size, i), Some(NextId(us[i - 1].id)))
  {
    var u := read(b, off, None);
    ObjectsCount(read, ioa, size, b, off, n, true, None);
    if i > 0 {
      RunObject(read, ioa, size, b, off + AddressLen(ioa) + size, n - 1, u.id, i - 1);
      assert us[1..] == ParseObjects(read, ioa, size, b, off + AddressLen(ioa) + size, n - 1, true, Some(u.id));
    }
  }

  /** An object of a run behind the first, its identifier being given. */
  lemma NextRead(b: seq<byte>, l: Lens, row: Row, i: nat, id: u32, at: nat)
    requires GoodLens(l) && |b| >= 2 + l.cot + l.coa && Find(b[0]) == Some(row) && GoodRow(row) && Size(b[0]) == row.size > 0
    requires b[1] >= 128 && at == ElementAt(l, b[0], true, i) && at + row.size <= |b| && ElementAt(l, b[0], true, 0) <= |b|
    requires var first := ElementAt(l, b[0], true, 0); id == (FromLe(b[first - l.ioa..first]) + i) % 0x1_0000_0000
    ensures UnitMeans(b, l, ReaderOf(row, l.ioa)(b, at, Some(id)), i)
  {
    ReadMeans(b[0], row, l.ioa, b, at, Some(id));
    UnitFrom(b, l, ReaderOf(row, l.ioa)(b, at, Some(id)), i, at, ElementAt(l, b[0], true, 0));
  }

  lemma RunMeans(b: seq<byte>, l: Lens, row: Row, n: nat, us: seq<Element>, i: nat, at: nat, read: Reader, head: nat)
    requires GoodLens(l) && head == 2 + l.cot + l.coa <= |b| && Find(b[0]) == Some(row) && GoodRow(row) && Size(b[0]) == row.size > 0
    requires at == ElementAt(l, b[0], true, i) == Skip(head + AddressLen(l.ioa), row.size, i)
    requires ElementAt(l, b[0], true, 0) == head + l.ioa && head + l.ioa + row.size <= |b|
    requires b[1] >= 128 && i < n && at + row.size <= |b| && read == ReaderOf(row, l.ioa)
    requires us == ParseObjects(read, l.ioa, row.size, b, head, n, true, None) && |us| == n
    ensures UnitMeans(b, l, us[i], i)
  {
    RunRead(read, l.ioa, row.size, b, head, n, us, i);
    if i == 0 {
      OwnRead(b, l, row, 0, head);
    } else {
      RunId(row, l.ioa, b, head, n, us, i);
      NextRead(b, l, row, i, NextId(us[i - 1].id), at);
    }
  }

  lemma RunId(row: Row, ioa: nat, b: seq<byte>, off: nat, n: nat, us: seq<Element>, i: nat)
    requires GoodRow(row) && 1 <= ioa <= 4 && 0 < i < n && off + ioa + row.size <= |b|
    requires us == ParseObjects(ReaderOf(row, ioa), ioa, row.size, b, off, n, true, None)
    ensures |us| == n && NextId(us[i - 1].id) == (FromLe(b[off..off + ioa]) + i) % 0x1_0000_0000
  {
    ParsedConsecutive(row, ioa, b, off, n, None);
    CountedUp(us, i - 1);
    RunRead(ReaderOf(row, ioa), ioa, row.size, b, off, n, us, 0);
    FirstId(row, ioa, b, off);
    NextCounts(us[0].id, i - 1);
  }

  lemma FirstId(row: Row, ioa: nat, b: seq<byte>, off: nat)
    requires GoodRow(row) && 1 <= ioa <= 4 && off + ioa + row.size <= |b|
    ensures ReaderOf(row, ioa)(b, off, None).id == FromLe(b[off..off + ioa])
  {
    var read := ReaderOf(row, ioa);
    assert ObjectLen(true, ioa, row.size) == ioa + row.size;
    assert read(b, off, None) == ParseElement(row, b, off + ioa, Address(b, off, ioa));
  }

  lemma NextCounts(x: nat, i: nat)
    ensures ((x + i) % 0x1_0000_0000 + 1) % 0x1_0000_0000 == (x + i + 1) % 0x1_0000_0000
  {
  }

  /** The header fields of a parsed ASDU. */
  predicate HeadMeans(b: seq<byte>, l: Lens, a: Asdu)
    requires GoodLens(l) && |b| >= 2 + l.cot + l.coa
  {
    && a.proto == Iec101 && a.typ == b[0] && a.fnc == b[2] % 64 && a.attr == b[2] - b[2] % 64
    && a.adr == FromLe(b[2 + l.cot..2 + l.cot + l.coa]) % 0x1_0000
  }

  /** An accepted ASDU is what its bytes mean: its header, as many elements as it states, and each of these. */
  lemma ParsedMeans(b: seq<byte>, l: Lens)
    requires GoodLens(l) && Parse(b, l).asdu.Some?
    ensures |b| >= 2 + l.cot + l.coa && Size(b[0]) > 0
    ensures var a := Parse(b, l).asdu.value;
            && HeadMeans(b, l, a) && |a.units| == b[1] % 128
            && forall i | 0 <= i < |a.units| :: UnitMeans(b, l, a.units[i], i)
  {
    AcceptedIff(b, l);
    KnownIff(b[0]);
    FindGood(b[0]);
    BodyMeans(b, l, Find(b[0]).value);
  }

  lemma BodyMeans(b: seq<byte>, l: Lens, row: Row)
    requires GoodLens(l) && |b| >= 2 + l.cot + l.coa && Find(b[0]) == Some(row) && GoodRow(row) && Size(b[0]) == row.size > 0
    requires |b| >= 2 + l.cot + l.coa + Room(l, b[0], b[1] >= 128, b[1] % 128) && ParseBody(b, l, row).asdu.Some?
    ensures var a := ParseBody(b, l, row).asdu.value;
            && HeadMeans(b, l, a) && |a.units| == b[1] % 128
            && forall i | 0 <= i < |a.units| :: UnitMeans(b, l, a.units[i], i)
  {
    var n, off := b[1] % 128, 2 + l.cot + l.coa;
    var us := ParseObjects(ReaderOf(row, l.ioa), l.ioa, row.size, b, off, n, b[1] >= 128, None);
    ObjectsCount(ReaderOf(row, l.ioa), l.ioa, row.size, b, off, n, b[1] >= 128, None);
    forall i | 0 <= i < n ensures UnitMeans(b, l, us[i], i) {
      if b[1] >= 128 {
        RunPlace(l, b[0], row.size, n, 0);
        RunPlace(l, b[0], row.size, n, i);
        RunMeans(b, l, row, n, us, i, ElementAt(l, b[0], true, i), ReaderOf(row, l.ioa), off);
      } else {
        var at := OwnPlace(l, b[0], row.size, n, i);
        OwnMeans(b, l, row, n, us, i, at, ReaderOf(row, l.ioa), off);
      }
    }
    ParseOutcome(b, l, row, n, b[1] >= 128, off, us);
  }

  /** Addresses of more than four bytes read as 0. */
  lemma LongAddresses(b: seq<byte>, l: Lens)
    requires Parse(b, l).asdu.Some?
    ensures l.coa > 4 ==> Parse(b, l).asdu.value.adr == 0
    ensures l.ioa > 4 && b[1] % 128 > 0 ==> |Parse(b, l).asdu.value.units| > 0 && Parse(b, l).asdu.value.units[0].id == 0
  {
    AcceptedIff(b, l);
    KnownIff(b[0]);
    FindGood(b[0]);
    if l.ioa > 4 && b[1] % 128 > 0 {
      var row, off, n := Find(b[0]).value, 2 + l.cot + AddressLen(l.coa), b[1] % 128;
      var read := ReaderOf(row, l.ioa);
      FirstObject(read, l.ioa, row.size, b, off, n, b[1] >= 128);
      FirstZero(row, l.ioa, b, off);
    }
  }

  lemma FirstObject(read: Reader, ioa: nat, size: nat, b: seq<byte>, off: nat, n: nat, sq: bool)
    requires n > 0
    ensures var us := ParseObjects(read, ioa, size, b, off, n, sq, None); |us| > 0 && us[0] == read(b, off, None)
  {
  }

  lemma FirstZero(row: Row, ioa: nat, b: seq<byte>, off: nat)
    requires GoodRow(row) && ioa > 4
    ensures ReaderOf(row, ioa)(b, off, None).id == 0
  {
    var read := ReaderOf(row, ioa);
    if off + ObjectLen(true, ioa, row.size) <= |b| {
      assert AddressLen(ioa) == 0 && Address(b, off, ioa) == 0;
      assert read(b, off, None) == ParseElement(row, b, off + AddressLen(ioa), Address(b, off, ioa));
    } else {
      assert read(b, off, None) == Blank(None);
    }
  }

  // ---------------------------------------------------------------- what is built

  /** The codes of build: a missing length, an unknown type, or success. */
  lemma BuildCodes(a: Asdu, l: Lens)
    requires |a.units| < 256
    ensures Build(a, l).res == if l.cot == 0 || l.coa == 0 || l.ioa == 0 then Incorrect
                               else if Size(a.typ) == 0 then Unknown else Success
  {
    KnownIff(a.typ);
  }

  lemma {:induction false} Zeros(n: nat)
    ensures forall i | 0 <= i < n :: ToLe(0, n)[i] == 0
  {
    if n > 0 {
      Zeros(n - 1);
    }
  }

  /** The header bytes, spelt out. */
  predicate Headed(a: Asdu, l: Lens, b: seq<byte>)
    requires GoodLens(l) && |b| >= 2 + l.cot + l.coa
  {
    && b[0] == a.typ && b[1] == |a.units| + (if a.attr % 2 == 1 && a.proto != Other then 128 else 0)
    && b[2] == a.fnc + a.attr / 64 * 64 && (forall i | 3 <= i < 2 + l.cot :: b[i] == 0)
    && FromLe(b[2 + l.cot..2 + l.cot + l.coa]) == a.adr
  }

  lemma BuiltHeader(a: Asdu, l: Lens, b: seq<byte>, h: seq<byte>)
    requires GoodLens(l) && IecAsdu.Fits(a, l) && h == HeaderBytes(a, l) && h <= b
    ensures |b| >= 2 + l.cot + l.coa && Headed(a, l, b)
  {
    assert b[0..|h|] == h;
    HeaderRoundTrip(a, l, b, h);
    HeaderLength(a, l, h);
    FlagByte(a);
    CauseByte(a);
    assert forall i | 0 <= i < |h| :: b[i] == h[i];
    Padded(h, [a.typ, SizeField(a), CauseField(a)], l.cot - 1, AddressBytes(a.adr, l.coa));
    assert forall i | 3 <= i < 2 + l.cot :: b[i] == h[i];
  }

  lemma Padded(h: seq<byte>, fixed: seq<byte>, n: nat, rest: seq<byte>)
    requires |fixed| == 3 && n <= 4 && h == fixed + AddressBytes(0, n) + rest
    ensures forall i | 3 <= i < 3 + n :: h[i] == 0
  {
    Zeros(n);
    assert forall i | 3 <= i < 3 + n :: h[i] == AddressBytes(0, n)[i - 3];
  }

  /**
   The bytes build delivers for an ASDU that fits: type, count with the SQ flag, cause with its flags, no
   originator, address, and elements that mean the units.
   */
  lemma BuiltMeans(a: Asdu, l: Lens, b: seq<byte>)
    requires GoodLens(l) && IecAsdu.Fits(a, l) && Emitted(a, l, b)
    ensures |b| >= 2 + l.cot + l.coa && Size(b[0]) > 0 && Headed(a, l, b)
    ensures forall i | 0 <= i < |a.units| :: UnitMeans(b, l, a.units[i], i)
  {
    var row := Find(a.typ).value;
    ParseUndoesBuild(a, l, b);
    ParsedMeans(b, l);
    EmittedParts(a, l, b, row, HeaderBytes(a, l), ObjectBytes(WriterOf(row, l.ioa), a.units, Sq(a), true));
    BuiltHeader(a, l, b, HeaderBytes(a, l));
  }

}
