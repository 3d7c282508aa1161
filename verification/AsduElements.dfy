/**
 Information elements of the ASDU codec of unitlinks/src/iec_asdu.c (section 7.2 of
 IEC 60870-5-101): the type table, and how each type lays out value, qualifier and time tag.

 Time tags stay in their CP56Time2a fields; the source converts them with localtime and mktime.
 The value union is its raw 32-bit word.
 */
module AsduElements {
  import opened Prelude
  import opened Bytes

  datatype Cp56 = Cp56(msec: u16, min: byte, res1: byte, iv: byte, hour: byte, su: byte,
                       mday: byte, wday: byte, month: byte, year: byte)

  const NO_TIME := Cp56(0, 0, 0, 0, 0, 0, 0, 0, 0, 0)

  datatype ValueType = NoValue | Int | Uint | Flt | Bool

  datatype Element = Element(id: u32, value: u32, valueType: ValueType, attr: byte, time: Cp56)

  /**
   How an information element carries its value and qualifier: both in one byte, the value in its
   low 1, 2 or 6 bits; a whole byte; a step position with its transient flag; a little-endian word and
   a qualifier byte; or nothing but the time tag.
   */
  datatype Width = Low1 | Low2 | Low6

  datatype Carrier = Packed(bits: Width) | Whole | StepPosition | Word(width: nat) | Nothing

  /** A row of the type table; `size` is the table's own figure. */
  datatype Row = Row(size: nat, carrier: Carrier, valueType: ValueType, timed: bool)

  /** iec_asdu_find_pb_func over iec_asdu_pb_tab. */
  function Find(typ: byte): Option<Row> {
    match typ
    case 1 => Some(Row(1, Packed(Low1), Bool, false))     // M_SP_NA_1
    case 3 => Some(Row(1, Packed(Low2), Uint, false))     // M_DP_NA_1
    case 5 => Some(Row(2, StepPosition, Uint, false))  // M_ST_NA_1
    case 9 => Some(Row(3, Word(2), Int, false))        // M_ME_NA_1
    case 11 => Some(Row(3, Word(2), Int, false))       // M_ME_NB_1
    case 13 => Some(Row(5, Word(4), Flt, false))       // M_ME_NC_1
    case 15 => Some(Row(5, Word(4), Uint, false))      // M_IT_NA_1
    case 30 => Some(Row(8, Packed(Low1), Bool, true))     // M_SP_TB_1
    case 31 => Some(Row(8, Packed(Low2), Uint, true))     // M_DP_TB_1
    case 32 => Some(Row(9, StepPosition, Uint, true))  // M_ST_TB_1
    case 34 => Some(Row(10, Word(2), Int, true))       // M_ME_TD_1
    case 35 => Some(Row(10, Word(2), Int, true))       // M_ME_TE_1
    case 36 => Some(Row(12, Word(4), Flt, true))       // M_ME_TF_1
    case 37 => Some(Row(12, Word(4), Uint, true))      // M_IT_TB_1
    case 45 => Some(Row(1, Packed(Low1), Bool, false))    // C_SC_NA_1
    case 46 => Some(Row(1, Packed(Low2), Uint, false))    // C_DC_NA_1
    case 47 => Some(Row(1, Packed(Low2), Uint, false))    // C_RC_NA_1
    case 48 => Some(Row(3, Word(2), Int, false))       // C_SE_NA_1
    case 49 => Some(Row(3, Word(2), Int, false))       // C_SE_NB_1
    case 50 => Some(Row(5, Word(4), Flt, false))       // C_SE_NC_1
    case 100 => Some(Row(1, Whole, Uint, false))       // C_IC_NA_1
    case 101 => Some(Row(1, Packed(Low6), Uint, false))   // C_CI_NA_1
    case 103 => Some(Row(7, Nothing, NoValue, true))   // C_CS_NA_1
    case _ => None
  }

  /** What the parse and build functions of a row really advance by. */
  function Advance(row: Row): nat {
    (match row.carrier
     case Packed(_) => 1
     case Whole => 1
     case StepPosition => 2
     case Word(width) => width + 1
     case Nothing => 0) + (if row.timed then 7 else 0)
  }

  /** The table's sizes are right for every type. */
  lemma TableSizes(typ: byte)
    requires Find(typ).Some?
    ensures Advance(Find(typ).value) == Find(typ).value.size
  {
    var r := Find(typ).value;
    if r.carrier.Word? {
      assert r.carrier.width == 2 || r.carrier.width == 4;
    }
  }

  // ---------------------------------------------------------------- elements

  function TimeBytes(t: Cp56): (r: seq<byte>)
    ensures |r| == 7
  {
    ToLe(t.msec, 2) +
    [U8(Or(Or(t.min, t.res1 * 64), t.iv * 128)), U8(Or(t.hour, t.su * 128)),
     U8(Or(t.mday, t.wday * 32)), t.month, t.year]
  }

  function ParseTime(b: seq<byte>, off: nat): Cp56
    requires off + 7 <= |b|
  {
    Cp56(FromLe16(b, off), b[off + 2] % 64, b[off + 2] / 64 % 2, b[off + 2] / 128,
         b[off + 3] % 32, b[off + 3] / 128, b[off + 4] % 32, b[off + 4] / 32, b[off + 5] % 16, b[off + 6] % 128)
  }

  function FromLe16(b: seq<byte>, off: nat): u16
    requires off + 2 <= |b|
  {
    b[off] as int + 256 * b[off + 1] as int
  }

  function CarrierBytes(c: Carrier, u: Element): (r: seq<byte>) {
    match c
    case Packed(_) => [U8(Or(u.value, u.attr))]
    case Whole => [U8(u.value)]
    case StepPosition => [U8(Or(u.value, u.attr / 8 % 2 * 128)), u.attr - u.attr / 8 % 2 * 8]
    case Word(width) => ToLe(u.value, width) + [u.attr]
    case Nothing => []
  }

  function ElementBytes(row: Row, u: Element): (r: seq<byte>)
    ensures |r| == Advance(row)
  {
    CarrierBytes(row.carrier, u) + (if row.timed then TimeBytes(u.time) else [])
  }

  /** The low bits of `x`. */
  function Low(x: nat, bits: Width): (r: nat)
    ensures r <= x
  {
    match bits
    case Low1 => x % 2
    case Low2 => x % 4
    case Low6 => x % 64
  }

  /** Value and qualifier read at `off`. */
  function ParseCarrier(c: Carrier, b: seq<byte>, off: nat): (nat, nat)
    requires off + Advance(Row(0, c, NoValue, false)) <= |b|
  {
    match c
    case Packed(bits) => (Low(b[off], bits), b[off] - Low(b[off], bits))
    case Whole => (b[off], 0)
    case StepPosition => (b[off] % 128, Or(b[off] / 128 * 8, b[off + 1]))
    case Word(width) => (FromLe(b[off..off + width]), b[off + width])
    case Nothing => (0, 0)
  }

  predicate GoodRow(row: Row) {
    && Advance(row) == row.size
    && (row.carrier.Word? ==> row.carrier.width == 2 || row.carrier.width == 4)
  }

  lemma FindGood(typ: byte)
    requires Find(typ).Some?
    ensures GoodRow(Find(typ).value)
  {
    TableSizes(typ);
  }

  /** What ParseCarrier delivers fits the element's fields. */
  lemma ParseCarrierBounds(row: Row, b: seq<byte>, off: nat)
    requires GoodRow(row) && off + Advance(row) <= |b|
    ensures var (v, a) := ParseCarrier(row.carrier, b, off); v < 0x1_0000_0000 && a < 256
  {
    Pow2Values();
    Pow256Values();
    match row.carrier
    case Packed(bits) =>
    case Whole =>
    case StepPosition => OrBound(b[off] / 128 * 8, b[off + 1], 8);
    case Word(width) => ToFromLe(b[off..off + width]);
    case Nothing =>
  }

  function ParseElement(row: Row, b: seq<byte>, off: nat, id: u32): Element
    requires GoodRow(row) && off + row.size <= |b|
  {
    ParseCarrierBounds(row, b, off);
    var (v, a) := ParseCarrier(row.carrier, b, off);
    Element(id, v, row.valueType, a, if row.timed then ParseTime(b, off + row.size - 7) else NO_TIME)
  }

  predicate TimeInRange(t: Cp56) {
    && t.min < 64 && t.res1 < 2 && t.iv < 2 && t.hour < 32 && t.su < 2
    && t.mday < 32 && t.wday < 8 && t.month < 16 && t.year < 128
  }

  /** The element's fields fit the type, and those the type does not carry are zero. */
  predicate InRange(row: Row, u: Element) {
    && u.valueType == row.valueType
    && (match row.carrier
        case Packed(bits) => Low(u.value, bits) == u.value && Low(u.attr, bits) == 0
        case Whole => u.value < 256 && u.attr == 0
        case StepPosition => u.value < 128
        case Word(width) => u.value < Pow256(width)
        case Nothing => u.value == 0 && u.attr == 0)
    && (if row.timed then TimeInRange(u.time) else u.time == NO_TIME)
  }

  lemma ToLe2(v: u16)
    ensures ToLe(v, 2) == [v % 256, v / 256]
  {
    assert ToLe(v / 256, 1) == [v / 256] + ToLe(v / 256 / 256, 0);
  }

  lemma Fields64(x: nat, y: nat, z: nat)
    requires x < 64 && y < 2 && z < 2
    ensures U8(Or(Or(x, y * 64), z * 128)) == x + y * 64 + z * 128
  {
    Or64(x, y);
    Or128(x + y * 64, z);
  }

  lemma Fields32(x: nat, y: nat)
    requires x < 32 && y < 8
    ensures U8(Or(x, y * 32)) == x + y * 32
  {
    Or32(x, y);
  }

  lemma Fields128(x: nat, z: nat)
    requires x < 128 && z < 2
    ensures U8(Or(x, z * 128)) == x + z * 128
  {
    Or128(x, z);
  }

  /** `w` carries the fields of `t`. */
  predicate CarriesTime(w: seq<byte>, t: Cp56) {
    && |w| == 7 && w[0] == t.msec % 256 && w[1] == t.msec / 256
    && w[2] == t.min + t.res1 * 64 + t.iv * 128
    && w[3] == t.hour + t.su * 128 && w[4] == t.mday + t.wday * 32
    && w[5] == t.month && w[6] == t.year
  }

  lemma TimeBytesCarry(t: Cp56)
    requires TimeInRange(t)
    ensures CarriesTime(TimeBytes(t), t)
  {
    Fields64(t.min, t.res1, t.iv);
    Fields128(t.hour, t.su);
    Fields32(t.mday, t.wday);
    ToLe2(t.msec);
  }

  lemma ParseCarriedTime(b: seq<byte>, off: nat, w: seq<byte>, t: Cp56)
    requires TimeInRange(t) && CarriesTime(w, t) && off + 7 <= |b| && b[off..off + 7] == w
    ensures ParseTime(b, off) == t
  {
    assert forall i | 0 <= i < 7 :: b[off + i] == w[i];
  }

  /** CP56Time2a fields survive the wire. */
  lemma TimeRoundTrip(b: seq<byte>, off: nat, t: Cp56)
    requires TimeInRange(t) && off + 7 <= |b| && b[off..off + 7] == TimeBytes(t)
    ensures ParseTime(b, off) == t
  {
    TimeBytesCarry(t);
    ParseCarriedTime(b, off, TimeBytes(t), t);
  }

  /** What ParseTime delivers is in range. */
  lemma ParsedTimeInRange(b: seq<byte>, off: nat)
    requires off + 7 <= |b|
    ensures TimeInRange(ParseTime(b, off))
  {
  }

  /** Or-ing in a bit that is clear adds it. */
  lemma {:induction false} OrBit(m: nat, y: nat)
    requires m == 1 || m == 2 || m == 4 || m == 8
    requires y / m % 2 == 0
    ensures Or(m, y) == m + y
  {
    if m > 1 {
      assert y / m == y / 2 / (m / 2) by {
        if m == 2 {} else if m == 4 {} else {}
      }
      OrBit(m / 2, y / 2);
    }
  }

  /** The transient flag or-ed back into the qualifier it was taken from. */
  lemma StepFlag(a: byte)
    ensures Or(a / 8 % 2 * 8, a - a / 8 % 2 * 8) == a
  {
    if a / 8 % 2 == 1 {
      OrBit(8, a - 8);
    }
  }

  /** A value and a qualifier on separate bits of one byte come apart again. */
  lemma PackedRoundTrip(bits: Width, v: nat, a: byte)
    requires Low(v, bits) == v && Low(a, bits) == 0
    ensures Or(v, a) == v + a < 256 && Low(v + a, bits) == v
  {
    LowSum(bits, v, a);
    match bits
    case Low1 =>
      assert a == a / 2 * 2;
      Or2(v, a / 2);
    case Low2 =>
      assert a == a / 4 * 4;
      Or4(v, a / 4);
    case Low6 =>
      assert a == a / 64 * 64;
      Or64(v, a / 64);
  }

  lemma LowSum(bits: Width, v: nat, a: byte)
    requires Low(v, bits) == v && Low(a, bits) == 0
    ensures v + a < 256 && Low(v + a, bits) == v
  {
  }

  /** The two bytes of a step position give back value and qualifier. */
  lemma StepRoundTrip(b: seq<byte>, off: nat, v: byte, a: byte)
    requires v < 128 && off + 2 <= |b|
    requires b[off] == U8(Or(v, a / 8 % 2 * 128)) && b[off + 1] == a - a / 8 % 2 * 8
    ensures b[off] % 128 == v && Or(b[off] / 128 * 8, b[off + 1]) == a
  {
    Fields128(v, a / 8 % 2);
    StepFlag(a);
    assert b[off] == v + a / 8 % 2 * 128;
  }

  lemma WordRoundTrip(b: seq<byte>, off: nat, v: nat, a: byte, width: nat)
    requires v < Pow256(width) && off + width < |b| && b[off..off + width + 1] == ToLe(v, width) + [a]
    ensures FromLe(b[off..off + width]) == v && b[off + width] == a
  {
    FromToLe(v, width);
    assert b[off..off + width] == b[off..off + width + 1][..width] == ToLe(v, width);
    assert b[off + width] == b[off..off + width + 1][width];
  }

  /** A carrier whose bytes stand at `off` reads back as value and qualifier. */
  lemma CarrierRoundTrip(row: Row, b: seq<byte>, off: nat, u: Element, c: seq<byte>)
    requires GoodRow(row) && InRange(row, u) && c == CarrierBytes(row.carrier, u)
    requires off + |c| <= |b| && b[off..off + |c|] == c
    ensures ParseCarrier(row.carrier, b, off) == (u.value, u.attr)
  {
    assert forall i | 0 <= i < |c| :: b[off + i] == c[i];
    match row.carrier
    case Packed(bits) => PackedRoundTrip(bits, u.value, u.attr);
    case Whole =>
    case StepPosition => StepRoundTrip(b, off, u.value, u.attr);
    case Word(width) => WordRoundTrip(b, off, u.value, u.attr, width);
    case Nothing =>
  }

  lemma ElementRoundTrip(row: Row, b: seq<byte>, off: nat, u: Element)
    requires GoodRow(row) && InRange(row, u) && off + row.size <= |b|
    requires b[off..off + row.size] == ElementBytes(row, u)
    ensures ParseElement(row, b, off, u.id) == u
  {
    var c := CarrierBytes(row.carrier, u);
    assert b[off..off + |c|] == ElementBytes(row, u)[..|c|] == c;
    CarrierRoundTrip(row, b, off, u, c);
    if row.timed {
      assert b[off + |c|..off + row.size] == ElementBytes(row, u)[|c|..] == TimeBytes(u.time);
      TimeRoundTrip(b, off + row.size - 7, u.time);
    }
  }

  lemma LowSplit(x: nat, bits: Width)
    ensures Low(Low(x, bits), bits) == Low(x, bits) && Low(x - Low(x, bits), bits) == 0
  {
    match bits
    case Low1 => MultipleOf(x / 2, 2, x - x % 2);
    case Low2 => MultipleOf(x / 4, 4, x - x % 4);
    case Low6 => MultipleOf(x / 64, 64, x - x % 64);
  }

  lemma MultipleOf(q: nat, m: nat, x: nat)
    requires (m == 2 || m == 4 || m == 64) && x == q * m
    ensures x % m == 0
  {
  }

  lemma ParsedCarrierInRange(row: Row, b: seq<byte>, off: nat, v: nat, a: nat)
    requires GoodRow(row) && off + row.size <= |b| && (v, a) == ParseCarrier(row.carrier, b, off)
    ensures match row.carrier
            case Packed(bits) => Low(v, bits) == v && Low(a, bits) == 0
            case Whole => v < 256 && a == 0
            case StepPosition => v < 128
            case Word(width) => v < Pow256(width)
            case Nothing => v == 0 && a == 0
  {
    match row.carrier
    case Packed(bits) => LowSplit(b[off], bits);
    case Word(width) => ToFromLe(b[off..off + width]);
    case _ =>
  }

  /** Whatever bytes are parsed, the element is in range. */
  lemma ParsedElementInRange(row: Row, b: seq<byte>, off: nat, id: u32)
    requires GoodRow(row) && off + row.size <= |b|
    ensures InRange(row, ParseElement(row, b, off, id))
  {
    var u := ParseElement(row, b, off, id);
    ParsedCarrierInRange(row, b, off, u.value, u.attr);
    if row.timed {
      ParsedTimeInRange(b, off + row.size - 7);
    }
  }

  // ---------------------------------------------------------------- writing into a buffer

  /** iec_asdu_build_cp56time2a. */
  method PutTime(buf: array<byte>, off: nat, t: Cp56)
    requires off + 7 <= buf.Length
    modifies buf
    ensures buf[..] == Splice(old(buf[..]), off, TimeBytes(t))
  {
    ghost var s0 := buf[..];
    ghost var a := ToLe(t.msec, 2);
    PutLe(buf, off, t.msec, 2);
    var b3, b4, b5 := U8(Or(Or(t.min, t.res1 * 64), t.iv * 128)), U8(Or(t.hour, t.su * 128)), U8(Or(t.mday, t.wday * 32));
    PutFive(buf, off + 2, b3, b4, b5, t.month, t.year);
    SpliceTwice(s0, off, a, [b3, b4, b5, t.month, t.year]);
  }

  method PutFive(buf: array<byte>, off: nat, a: byte, b: byte, c: byte, d: byte, e: byte)
    requires off + 5 <= buf.Length
    modifies buf
    ensures buf[..] == Splice(old(buf[..]), off, [a, b, c, d, e])
  {
    buf[off] := a;
    buf[off + 1] := b;
    buf[off + 2] := c;
    buf[off + 3] := d;
    buf[off + 4] := e;
  }

  /** The value and qualifier part of a build function. */
  method PutCarrier(buf: array<byte>, off: nat, c: Carrier, u: Element) returns (next: nat)
    requires off + |CarrierBytes(c, u)| <= buf.Length
    modifies buf
    ensures buf[..] == Splice(old(buf[..]), off, CarrierBytes(c, u)) && next == off + |CarrierBytes(c, u)|
  {
    match c
    case Packed(_) =>
      PutByte(buf, off, U8(Or(u.value, u.attr)));
      next := off + 1;
    case Whole =>
      PutByte(buf, off, U8(u.value));
      next := off + 1;
    case StepPosition =>
      buf[off] := U8(Or(u.value, u.attr / 8 % 2 * 128));
      buf[off + 1] := u.attr - u.attr / 8 % 2 * 8;
      next := off + 2;
    case Word(width) =>
      ghost var s0 := buf[..];
      PutLe(buf, off, u.value, width);
      PutByte(buf, off + width, u.attr);
      SpliceTwice(s0, off, ToLe(u.value, width), [u.attr]);
      next := off + width + 1;
    case Nothing =>
      SpliceEmpty(buf[..], off);
      next := off;
  }

  /** The build function of a row. */
  method PutElement(buf: array<byte>, off: nat, row: Row, u: Element) returns (next: nat)
    requires GoodRow(row) && off + row.size <= buf.Length
    modifies buf
    ensures buf[..] == Splice(old(buf[..]), off, ElementBytes(row, u)) && next == off + row.size
  {
    ghost var s0 := buf[..];
    ghost var c := CarrierBytes(row.carrier, u);
    ElementParts(row, u, c);
    next := PutCarrier(buf, off, row.carrier, u);
    if row.timed {
      PutTime(buf, next, u.time);
      SpliceTwice(s0, off, c, TimeBytes(u.time));
      next := next + 7;
    }
  }

  lemma ElementParts(row: Row, u: Element, c: seq<byte>)
    requires GoodRow(row) && c == CarrierBytes(row.carrier, u)
    ensures row.size == |c| + (if row.timed then 7 else 0)
    ensures ElementBytes(row, u) == if row.timed then c + TimeBytes(u.time) else c
  {
  }

}
