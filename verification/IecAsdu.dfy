/**
 The table-driven ASDU codec of unitlinks/src/iec_asdu.c (section 7 of IEC 60870-5-101): header,
 information objects, and the proofs that parsing and building undo each other.
 */
module IecAsdu {
  import opened Prelude
  import opened Bytes
  import opened AsduElements
  import opened AsduObjects

  datatype Proto = Other | Iec101 | Iec104

  /** `attr` holds the SQ flag in bit 0, P/N in bit 6 and test in bit 7. */
  datatype Asdu = Asdu(proto: Proto, adr: u16, typ: byte, fnc: byte, attr: byte, units: seq<Element>)

  /** Lengths of the cause of transmission, the common address and the object addresses. */
  datatype Lens = Lens(cot: byte, coa: byte, ioa: byte)

  function Sq(a: Asdu): bool {
    a.attr % 2 == 1
  }

  // ---------------------------------------------------------------- building

  /** The unit count, with the SQ flag unless the protocol has none. */
  function SizeField(a: Asdu): byte
    requires |a.units| < 256
  {
    if a.proto == Other then |a.units| else U8(Or(|a.units|, a.attr % 2 * 128))
  }

  /** The cause, with the P/N and test flags. */
  function CauseField(a: Asdu): byte {
    U8(Or(a.fnc, a.attr - a.attr % 64))
  }

  function HeaderBytes(a: Asdu, l: Lens): seq<byte>
    requires |a.units| < 256 && l.cot > 0
  {
    [a.typ, SizeField(a), CauseField(a)] +
    AddressBytes(0, l.cot - 1) + AddressBytes(a.adr, l.coa)
  }

  /** Bytes of `n` information objects as the source computes them. */
  function ObjectPart(n: nat, sq: bool, ioa: nat, size: nat): nat {
    if sq then ioa + n * size else n * (ioa + size)
  }

  /** iec_asdu_calculate_buffer_len. */
  function BufferLen(row: Row, a: Asdu, l: Lens): nat {
    2 + l.cot + l.coa + ObjectPart(|a.units|, Sq(a), l.ioa, row.size)
  }

  datatype Built = Built(res: Res, bytes: seq<byte>)

  /**
   iec_asdu_buff_build: the bytes it writes.  The unit count is an 8-bit field of the source's
   structure; what is refused is a missing data pointer, not a count of zero.
   */
  function Build(a: Asdu, l: Lens): Built
    requires |a.units| < 256
  {
    if l.cot == 0 || l.coa == 0 || l.ioa == 0 then Built(Incorrect, [])
    else
      match Find(a.typ)
      case None => Built(Unknown, [])
      case Some(row) => Built(Success, HeaderBytes(a, l) + ObjectBytes(WriterOf(row, l.ioa), a.units, Sq(a), true))
  }

  /** A buffer that build may deliver: the bytes written, in a buffer of the length computed beforehand. */
  predicate Emitted(a: Asdu, l: Lens, b: seq<byte>)
    requires |a.units| < 256
  {
    var built := Build(a, l);
    built.res == Success && built.bytes <= b && |b| == BufferLen(Find(a.typ).value, a, l)
  }

  /** Field lengths the code handles: every address part is written and read in full. */
  predicate GoodLens(l: Lens) {
    1 <= l.cot <= 5 && 1 <= l.coa <= 4 && 1 <= l.ioa <= 4
  }

  lemma WriterLength(row: Row, ioa: nat)
    requires GoodRow(row)
    ensures forall u, own :: |WriterOf(row, ioa)(u, own)| == ObjectLen(own, ioa, row.size)
  {
    forall u: Element, own: bool ensures |WriterOf(row, ioa)(u, own)| == ObjectLen(own, ioa, row.size) {
      WrittenLength(row, ioa, u, own);
    }
  }

  /** How many addresses `n` objects have, and how many the source makes room for. */
  function Addresses(n: nat, sq: bool): nat {
    if sq && n > 0 then 1 else n
  }

  lemma ObjectPartExact(n: nat, sq: bool, ioa: nat, size: nat)
    ensures ObjectPart(n, sq, ioa, size)
              == ObjectsLen(n, sq, true, ioa, size) + Addresses(n, sq) * (ioa - AddressLen(ioa)) + if sq && n == 0 then ioa else 0
  {
    ObjectsLenClosed(n, sq, true, ioa, size);
    assert n * (ioa + size) == n * (AddressLen(ioa) + size) + n * (ioa - AddressLen(ioa));
  }

  lemma HeaderLength(a: Asdu, l: Lens, h: seq<byte>)
    requires l.cot > 0 && |a.units| < 256 && h == HeaderBytes(a, l)
    ensures |h| == 3 + AddressLen(l.cot as int - 1) + AddressLen(l.coa) <= 2 + l.cot + l.coa
    ensures h[0] == a.typ && h[1] == SizeField(a) && h[2] == CauseField(a)
  {
  }

  lemma ObjectsLength(a: Asdu, l: Lens, row: Row, objects: seq<byte>)
    requires GoodRow(row) && objects == ObjectBytes(WriterOf(row, l.ioa), a.units, Sq(a), true)
    ensures |objects| == ObjectsLen(|a.units|, Sq(a), true, l.ioa, row.size) <= ObjectPart(|a.units|, Sq(a), l.ioa, row.size)
    ensures |objects| == ObjectPart(|a.units|, Sq(a), l.ioa, row.size) <==>
              if a.units == [] then !Sq(a) || l.ioa == 0 else AddressLen(l.ioa) == l.ioa
  {
    WriterLength(row, l.ioa);
    ObjectBytesLength(WriterOf(row, l.ioa), a.units, Sq(a), true, l.ioa, row.size);
    ObjectPartExact(|a.units|, Sq(a), l.ioa, row.size);
    RoomLeft(Addresses(|a.units|, Sq(a)), l.ioa - AddressLen(l.ioa));
  }

  lemma RoomLeft(n: nat, m: nat)
    ensures n * m >= 0 && (n * m == 0 <==> n == 0 || m == 0)
  {
  }

  /**
   Build never writes past the length it computed.  It fills it exactly unless a field is so long
   that nothing is written for it, or the SQ flag is set on no unit at all.
   */
  lemma BuildFillsIff(a: Asdu, l: Lens)
    requires l.cot > 0 && l.coa > 0 && l.ioa > 0 && |a.units| < 256 && Find(a.typ).Some?
    ensures |Build(a, l).bytes| <= BufferLen(Find(a.typ).value, a, l)
    ensures |Build(a, l).bytes| == BufferLen(Find(a.typ).value, a, l) <==>
              l.cot <= 5 && l.coa <= 4 && if a.units == [] then !Sq(a) else l.ioa <= 4
  {
    var row := Find(a.typ).value;
    FindGood(a.typ);
    HeaderLength(a, l, HeaderBytes(a, l));
    ObjectsLength(a, l, row, ObjectBytes(WriterOf(row, l.ioa), a.units, Sq(a), true));
  }

  // ---------------------------------------------------------------- parsing

  datatype ParsedAsdu = ParsedAsdu(res: Res, asdu: Option<Asdu>)

  const LEN_MIN := 4

  /** The part of iec_asdu_buff_parse behind the look-up of the type. */
  function ParseBody(b: seq<byte>, l: Lens, row: Row): ParsedAsdu
    requires GoodRow(row) && l.cot >= 1 && |b| >= 2 + l.cot + l.coa
  {
    var n := b[1] % 128;
    var sq := b[1] / 128 == 1;
    var off := 2 + l.cot + AddressLen(l.coa);
    if |b| - off < ObjectPart(n, sq, l.ioa, row.size) then ParsedAsdu(Incorrect, None)
    else
      ParsedAsdu(Success, Some(Fields(b, l, ParseObjects(ReaderOf(row, l.ioa), l.ioa, row.size, b, off, n, sq, None))))
  }

  /** The header fields of a buffer, with units `us`. */
  function Fields(b: seq<byte>, l: Lens, us: seq<Element>): Asdu
    requires l.cot >= 1 && |b| >= 2 + l.cot + l.coa
  {
    Asdu(Iec101, Address(b, 2 + l.cot, l.coa) % 0x1_0000, b[0], b[2] % 64, b[2] - b[2] % 64, us)
  }

  /** iec_asdu_buff_parse. */
  function Parse(b: seq<byte>, l: Lens): ParsedAsdu {
    if |b| < LEN_MIN || l.cot == 0 || l.coa == 0 || l.ioa == 0 || |b| < 2 + l.cot + l.coa then ParsedAsdu(Incorrect, None)
    else
      match Find(b[0])
      case None => ParsedAsdu(Unknown, None)
      case Some(row) =>
        FindGood(b[0]);
        ParseBody(b, l, row)
  }

  // ---------------------------------------------------------------- round trip

  /** Every element's fields fit the type. */
  predicate AllInRange(row: Row, us: seq<Element>) {
    us == [] || (InRange(row, us[0]) && AllInRange(row, us[1..]))
  }

  lemma {:induction false} AllInRangeReadable(row: Row, us: seq<Element>, ioa: nat)
    requires GoodRow(row) && AllInRange(row, us) && IdsFit(us, ioa) && 1 <= ioa <= 4
    ensures AllReadable(ReaderOf(row, ioa), WriterOf(row, ioa), ioa, row.size, us)
  {
    if us != [] {
      InRangeReadable(row, ioa, us[0]);
      AllInRangeReadable(row, us[1..], ioa);
    }
  }

  /** Every field of `a` fits its place on the wire. */
  predicate InFields(a: Asdu, l: Lens) {
    && |a.units| < 256 && Find(a.typ).Some? && a.adr < Pow256(l.coa) && a.fnc < 64 && a.attr % 64 <= 1
    && AllInRange(Find(a.typ).value, a.units) && IdsFit(a.units, l.ioa)
  }

  /**
   The unit count leaves the SQ bit alone, and an SQ run has consecutive identifiers and either a
   protocol whose header carries the flag or one unit at most.
   */
  predicate Sendable(a: Asdu) {
    && |a.units| <= 127
    && (Sq(a) ==> Consecutive(a.units) && (a.proto != Other || |a.units| <= 1))
  }

  predicate Fits(a: Asdu, l: Lens) {
    InFields(a, l) && Sendable(a)
  }

  /** The SQ flag as the header carries it. */
  function WireSq(a: Asdu): bool {
    Sq(a) && a.proto != Other
  }

  /** What a receiver sees of `a`: the protocol it parses, and the SQ flag resolved. */
  function Received(a: Asdu): Asdu {
    a.(proto := Iec101, attr := a.attr - a.attr % 64)
  }

  /** The size byte gives back the number of units and the SQ flag. */
  lemma FlagByte(a: Asdu)
    requires |a.units| <= 127
    ensures var v := SizeField(a); v % 128 == |a.units| && (v / 128 == 1 <==> WireSq(a))
  {
    SizeBits(|a.units|, a.attr % 2, a.proto != Other, SizeField(a));
  }

  lemma SizeBits(n: nat, flag: nat, carried: bool, v: byte)
    requires n <= 127 && flag < 2 && v == if carried then U8(Or(n, flag * 128)) else n
    ensures v % 128 == n && (v / 128 == 1 <==> carried && flag == 1)
  {
    FlagBits(n, flag, Or(n, flag * 128));
  }

  lemma FlagBits(n: nat, flag: nat, v: nat)
    requires n <= 127 && flag < 2 && v == Or(n, flag * 128)
    ensures v < 256 && v % 128 == n && v / 128 == flag
  {
    Or128(n, flag);
    FlagValue(n, flag, v);
  }

  lemma FlagValue(n: nat, flag: nat, v: nat)
    requires n <= 127 && flag < 2 && v == n + flag * 128
    ensures v < 256 && v % 128 == n && v / 128 == flag
  {
  }

  lemma CauseBits(fnc: nat, h: nat, v: nat)
    requires fnc < 64 && h < 4 && v == Or(fnc, h * 64)
    ensures v < 256 && v % 64 == fnc && v - v % 64 == h * 64
  {
    Or64(fnc, h);
    CauseValue(fnc, h, v);
  }

  lemma CauseValue(fnc: nat, h: nat, v: nat)
    requires fnc < 64 && h < 4 && v == fnc + h * 64
    ensures v < 256 && v % 64 == fnc && v - v % 64 == h * 64
  {
  }

  /** The cause byte gives back the cause and the P/N and test flags. */
  lemma CauseByte(a: Asdu)
    requires a.fnc < 64
    ensures var v := CauseField(a); v % 64 == a.fnc && v - v % 64 == a.attr - a.attr % 64
  {
    var h := a.attr / 64;
    assert a.attr - a.attr % 64 == h * 64;
    CauseBits(a.fnc, h, Or(a.fnc, a.attr - a.attr % 64));
  }

  /** A buffer whose header gives back the fields of `a`. */
  predicate HeaderRead(a: Asdu, l: Lens, b: seq<byte>) {
    && |b| >= 2 + l.cot + l.coa >= 3 && b[0] == a.typ
    && b[1] % 128 == |a.units| && (b[1] / 128 == 1 <==> WireSq(a))
    && b[2] % 64 == a.fnc && b[2] - b[2] % 64 == a.attr - a.attr % 64
    && Address(b, 2 + l.cot, l.coa) == a.adr
  }

  lemma HeaderRoundTrip(a: Asdu, l: Lens, b: seq<byte>, h: seq<byte>)
    requires Fits(a, l) && GoodLens(l) && h == HeaderBytes(a, l) && |h| <= |b| && b[0..|h|] == h
    ensures |h| == 2 + l.cot + l.coa && HeaderRead(a, l, b)
  {
    FlagByte(a);
    CauseByte(a);
    HeaderLength(a, l, h);
    assert forall i | 0 <= i < |h| :: b[i] == h[i];
    AddressHeader(a, l, b, h);
  }

  lemma AddressHeader(a: Asdu, l: Lens, b: seq<byte>, h: seq<byte>)
    requires Fits(a, l) && GoodLens(l) && h == HeaderBytes(a, l) && |h| <= |b| && b[0..|h|] == h
    ensures |h| == 2 + l.cot + l.coa && Address(b, 2 + l.cot, l.coa) == a.adr
  {
    var at := 2 + l.cot;
    assert h[at..] == AddressBytes(a.adr, l.coa);
    assert b[at..at + l.coa] == b[0..|h|][at..];
    AddressRoundTrip(b, at, a.adr, l.coa);
  }

  /** What parsing amounts to once the objects are known. */
  lemma ParseOutcome(b: seq<byte>, l: Lens, row: Row, n: nat, sq: bool, off: nat, us: seq<Element>)
    requires GoodRow(row) && l.cot >= 1 && |b| >= 2 + l.cot + l.coa
    requires n == b[1] % 128 && sq == (b[1] / 128 == 1) && off == 2 + l.cot + AddressLen(l.coa)
    requires off + ObjectPart(n, sq, l.ioa, row.size) <= |b|
    requires ParseObjects(ReaderOf(row, l.ioa), l.ioa, row.size, b, off, n, sq, None) == us
    ensures ParseBody(b, l, row) == ParsedAsdu(Success, Some(Fields(b, l, us)))
  {
  }

  /** A header is long enough to be parsed. */
  lemma ParseDispatch(b: seq<byte>, l: Lens, row: Row)
    requires GoodLens(l) && |b| >= 2 + l.cot + l.coa && Find(b[0]) == Some(row) && GoodRow(row)
    ensures Parse(b, l) == ParseBody(b, l, row)
  {
  }

  /** At most one object is written the same with and without the SQ flag. */
  lemma SingleObject(write: Writer, us: seq<Element>, sq: bool)
    requires |us| <= 1
    ensures ObjectBytes(write, us, sq, true) == ObjectBytes(write, us, false, true)
  {
  }

  /** `b` is header `h` and objects `o`, and nothing else unless there is no unit. */
  predicate Laid(a: Asdu, b: seq<byte>, h: seq<byte>, o: seq<byte>) {
    h <= b && (a.units != [] ==> b == h + o)
  }

  /** The objects read back. */
  lemma UnitsRoundTrip(a: Asdu, l: Lens, row: Row, b: seq<byte>, h: seq<byte>, objects: seq<byte>)
    requires GoodLens(l) && Fits(a, l) && Find(a.typ) == Some(row) && GoodRow(row)
    requires Laid(a, b, h, objects) && objects == ObjectBytes(WriterOf(row, l.ioa), a.units, WireSq(a), true)
    ensures ParseObjects(ReaderOf(row, l.ioa), l.ioa, row.size, b, |h|, |a.units|, WireSq(a), None) == a.units
  {
    if a.units != [] {
      AllInRangeReadable(row, a.units, l.ioa);
      assert b[|h|..] == objects;
      ObjectsRoundTrip(ReaderOf(row, l.ioa), WriterOf(row, l.ioa), l.ioa, row.size, b, |h|, a.units, WireSq(a), None);
    }
  }

  lemma BodyOutcome(a: Asdu, l: Lens, row: Row, b: seq<byte>, off: nat)
    requires GoodLens(l) && Fits(a, l) && GoodRow(row) && HeaderRead(a, l, b) && off == 2 + l.cot + l.coa
    requires off + ObjectPart(|a.units|, WireSq(a), l.ioa, row.size) <= |b|
    requires ParseObjects(ReaderOf(row, l.ioa), l.ioa, row.size, b, off, |a.units|, WireSq(a), None) == a.units
    ensures ParseBody(b, l, row) == ParsedAsdu(Success, Some(Received(a)))
  {
    ParseOutcome(b, l, row, |a.units|, WireSq(a), off, a.units);
    FieldsBack(a, l, b);
  }

  lemma FieldsBack(a: Asdu, l: Lens, b: seq<byte>)
    requires l.cot >= 1 && HeaderRead(a, l, b)
    ensures Fields(b, l, a.units) == Received(a)
  {
  }

  /** Header and objects, one behind the other, parse back to the ASDU. */
  lemma BodyRoundTrip(a: Asdu, l: Lens, row: Row, b: seq<byte>, h: seq<byte>, objects: seq<byte>)
    requires GoodLens(l) && Fits(a, l) && Find(a.typ) == Some(row) && GoodRow(row)
    requires Laid(a, b, h, objects) && h == HeaderBytes(a, l)
    requires objects == ObjectBytes(WriterOf(row, l.ioa), a.units, WireSq(a), true)
    requires |b| >= |h| + ObjectPart(|a.units|, WireSq(a), l.ioa, row.size)
    ensures ParseBody(b, l, row) == ParsedAsdu(Success, Some(Received(a)))
  {
    HeaderRoundTrip(a, l, b, h);
    UnitsRoundTrip(a, l, row, b, h, objects);
    BodyOutcome(a, l, row, b, |h|);
  }

  /** The parts of a buffer that build delivers. */
  lemma EmittedParts(a: Asdu, l: Lens, b: seq<byte>, row: Row, h: seq<byte>, objects: seq<byte>)
    requires GoodLens(l) && |a.units| < 256 && Emitted(a, l, b) && Find(a.typ) == Some(row)
    requires h == HeaderBytes(a, l) && objects == ObjectBytes(WriterOf(row, l.ioa), a.units, Sq(a), true)
    ensures GoodRow(row) && Laid(a, b, h, objects)
    ensures |b| == |h| + ObjectPart(|a.units|, Sq(a), l.ioa, row.size) && |h| == 2 + l.cot + l.coa && b[0] == a.typ
    ensures b[1] == SizeField(a)
  {
    FindGood(a.typ);
    HeaderLength(a, l, h);
    ObjectsLength(a, l, row, objects);
    assert b[..|h + objects|] == h + objects;
    assert h <= h + objects;
    assert b[0] == h[0] && b[1] == h[1];
  }

  /** Without the flag in the header at most one object takes no more room. */
  lemma WireObjects(a: Asdu, l: Lens, row: Row)
    requires Sendable(a)
    ensures ObjectBytes(WriterOf(row, l.ioa), a.units, Sq(a), true) == ObjectBytes(WriterOf(row, l.ioa), a.units, WireSq(a), true)
    ensures ObjectPart(|a.units|, WireSq(a), l.ioa, row.size) <= ObjectPart(|a.units|, Sq(a), l.ioa, row.size)
  {
    if Sq(a) && !WireSq(a) {
      SingleObject(WriterOf(row, l.ioa), a.units, true);
      assert ObjectPart(1, true, l.ioa, row.size) == ObjectPart(1, false, l.ioa, row.size);
    }
  }

  /** Parsing what was built gives the ASDU back: any number of units up to 127, both SQ modes, every type. */
  lemma ParseUndoesBuild(a: Asdu, l: Lens, b: seq<byte>)
    requires GoodLens(l) && Fits(a, l) && Emitted(a, l, b)
    ensures Parse(b, l) == ParsedAsdu(Success, Some(Received(a)))
  {
    var row := Find(a.typ).value;
    var h := HeaderBytes(a, l);
    var objects := ObjectBytes(WriterOf(row, l.ioa), a.units, Sq(a), true);
    EmittedParts(a, l, b, row, h, objects);
    WireObjects(a, l, row);
    BodyRoundTrip(a, l, row, b, h, objects);
    ParseDispatch(b, l, row);
  }

  // ---------------------------------------------------------------- when the round trip fails

  /** What parsing a buffer can deliver: at most 127 units, consecutive ones under the SQ flag. */
  lemma BodyYields(b: seq<byte>, l: Lens, row: Row)
    requires GoodLens(l) && GoodRow(row) && |b| >= 2 + l.cot + l.coa && ParseBody(b, l, row).asdu.Some?
    ensures var us := ParseBody(b, l, row).asdu.value.units;
            && |us| <= 127 && AllInRange(row, us)
            && (b[1] / 128 == 1 ==> Consecutive(us))
  {
    BodyUnits(b, l, row);
    if b[1] / 128 == 1 {
      ParsedConsecutive(row, l.ioa, b, 2 + l.cot + AddressLen(l.coa), b[1] % 128, None);
    }
  }

  /** Several units behind one address, without the flag in the header, are too short to be parsed. */
  lemma HiddenRunTooShort(n: nat, ioa: nat, size: nat)
    requires n >= 2 && ioa >= 1
    ensures ObjectPart(n, true, ioa, size) < ObjectPart(n, false, ioa, size)
  {
    assert n * (ioa + size) == n * ioa + n * size;
    assert n * ioa >= 2 * ioa;
  }

  /** An ASDU whose fields fit survives building and parsing if and only if it is sendable. */
  lemma RoundTripIff(a: Asdu, l: Lens, b: seq<byte>)
    requires GoodLens(l) && InFields(a, l) && Emitted(a, l, b)
    ensures Parse(b, l) == ParsedAsdu(Success, Some(Received(a))) <==> Sendable(a)
  {
    if Sendable(a) {
      ParseUndoesBuild(a, l, b);
    } else {
      var row := Find(a.typ).value;
      EmittedParts(a, l, b, row, HeaderBytes(a, l), ObjectBytes(WriterOf(row, l.ioa), a.units, Sq(a), true));
      ParseDispatch(b, l, row);
      if Parse(b, l).asdu.Some? {
        BodyYields(b, l, row);
        UnsendableFails(a, l, row, b, ObjectPart(|a.units|, Sq(a), l.ioa, row.size));
      }
    }
  }

  lemma UnsendableFails(a: Asdu, l: Lens, row: Row, b: seq<byte>, m: nat)
    requires GoodLens(l) && GoodRow(row) && !Sendable(a) && |a.units| < 256
    requires |b| == 2 + l.cot + l.coa + m && m == ObjectPart(|a.units|, Sq(a), l.ioa, row.size)
    requires b[1] == SizeField(a)
    requires ParseBody(b, l, row).asdu.Some?
    requires var us := ParseBody(b, l, row).asdu.value.units;
             |us| <= 127 && (b[1] / 128 == 1 ==> Consecutive(us))
    ensures ParseBody(b, l, row).asdu.value.units != a.units
  {
    if |a.units| <= 127 {
      FlagByte(a);
      if a.proto == Other {
        HiddenRunTooShort(|a.units|, l.ioa, row.size);
      }
    }
  }

  // ---------------------------------------------------------------- normal form

  lemma {:induction false} ParsedObjectsInRange(row: Row, ioa: nat, b: seq<byte>, off: nat, n: nat, sq: bool, prev: Option<u32>)
    requires GoodRow(row) && off + ObjectsLen(n, sq, prev == None, ioa, row.size) <= |b|
    ensures var us := ParseObjects(ReaderOf(row, ioa), ioa, row.size, b, off, n, sq, prev);
            |us| == n && AllInRange(row, us)
    decreases n
  {
    if n > 0 {
      var own := !sq || prev == None;
      var u := ReaderOf(row, ioa)(b, off, if own then None else Some(NextId(prev.value)));
      ParsedObjectInRange(row, ioa, b, off, if own then None else Some(NextId(prev.value)));
      var next := off + ObjectLen(own, ioa, row.size);
      ParsedObjectsInRange(row, ioa, b, next, n - 1, sq, Some(u.id));
      AllInRangeCons(row, u, ParseObjects(ReaderOf(row, ioa), ioa, row.size, b, next, n - 1, sq, Some(u.id)));
    }
  }

  lemma AllInRangeCons(row: Row, u: Element, us: seq<Element>)
    requires InRange(row, u) && AllInRange(row, us)
    ensures AllInRange(row, [u] + us)
  {
    assert ([u] + us)[1..] == us;
  }

  lemma ParsedObjectInRange(row: Row, ioa: nat, b: seq<byte>, off: nat, id: Option<u32>)
    requires GoodRow(row) && off + ObjectLen(id == None, ioa, row.size) <= |b|
    ensures InRange(row, ReaderOf(row, ioa)(b, off, id))
  {
    if id == None {
      ParsedElementInRange(row, b, off + AddressLen(ioa), Address(b, off, ioa));
    } else {
      ParsedElementInRange(row, b, off, id.value);
    }
  }

  /**
   Whatever buffer was accepted, the parsed ASDU fits the wire again - except that an SQ run may
   count identifiers past the end of the object address.
   */
  lemma ParsedFits(b: seq<byte>, l: Lens)
    requires GoodLens(l) && Parse(b, l).asdu.Some?
    requires IdsFit(Parse(b, l).asdu.value.units, l.ioa)
    ensures Fits(Parse(b, l).asdu.value, l)
    ensures Parse(b, l) == ParsedAsdu(Success, Some(Received(Parse(b, l).asdu.value)))
  {
    var a := Parse(b, l).asdu.value;
    ParsedUnits(b, l);
    AddressFits(b, l);
  }

  lemma ParsedUnits(b: seq<byte>, l: Lens)
    requires GoodLens(l) && Parse(b, l).asdu.Some?
    ensures var a := Parse(b, l).asdu.value;
            Find(a.typ).Some? && AllInRange(Find(a.typ).value, a.units) && |a.units| <= 127
  {
    FindGood(b[0]);
    BodyUnits(b, l, Find(b[0]).value);
  }

  lemma PartCovers(n: nat, sq: bool, ioa: nat, size: nat)
    ensures ObjectsLen(n, sq, true, ioa, size) <= ObjectPart(n, sq, ioa, size)
  {
    ObjectPartExact(n, sq, ioa, size);
    RoomLeft(Addresses(n, sq), ioa - AddressLen(ioa));
  }

  lemma BodyUnits(b: seq<byte>, l: Lens, row: Row)
    requires GoodLens(l) && GoodRow(row) && |b| >= 2 + l.cot + l.coa && ParseBody(b, l, row).asdu.Some?
    ensures var us := ParseBody(b, l, row).asdu.value.units; AllInRange(row, us) && |us| <= 127
  {
    var n := b[1] % 128;
    var sq := b[1] / 128 == 1;
    PartCovers(n, sq, l.ioa, row.size);
    ParsedObjectsInRange(row, l.ioa, b, 2 + l.cot + l.coa, n, sq, None);
  }

  lemma AddressFits(b: seq<byte>, l: Lens)
    requires GoodLens(l) && 2 + l.cot + l.coa <= |b|
    ensures Address(b, 2 + l.cot, l.coa) % 0x1_0000 < Pow256(l.coa)
  {
    ToFromLe(b[2 + l.cot..2 + l.cot + l.coa]);
    Pow256Values();
  }

  /** A parsed ASDU has no SQ flag, so build fills its buffer exactly. */
  lemma ParsedEmitted(b: seq<byte>, l: Lens)
    requires GoodLens(l) && Parse(b, l).asdu.Some?
    ensures var a := Parse(b, l).asdu.value;
            |a.units| <= 127 && !Sq(a) && Emitted(a, l, Build(a, l).bytes)
  {
    ParsedUnits(b, l);
    BuildFillsIff(Parse(b, l).asdu.value, l);
  }

  /** Building a parsed ASDU and parsing it again changes nothing: parsing normalises. */
  lemma ParseNormalises(b: seq<byte>, l: Lens)
    requires GoodLens(l) && Parse(b, l).asdu.Some? && IdsFit(Parse(b, l).asdu.value.units, l.ioa)
    ensures var a := Parse(b, l).asdu.value;
            |a.units| < 256 && Build(a, l).res == Success && Parse(Build(a, l).bytes, l) == Parse(b, l)
  {
    ParsedEmitted(b, l);
    ParsedFits(b, l);
    var a := Parse(b, l).asdu.value;
    ParseUndoesBuild(a, l, Build(a, l).bytes);
  }

  /** Identifiers that come with their own address fit it. */
  lemma {:induction false} OwnIdsFit(row: Row, ioa: nat, b: seq<byte>, off: nat, n: nat, prev: Option<u32>)
    requires GoodRow(row) && 1 <= ioa <= 4
    ensures IdsFit(ParseObjects(ReaderOf(row, ioa), ioa, row.size, b, off, n, false, prev), ioa)
    decreases n
  {
    if n > 0 {
      var read := ReaderOf(row, ioa);
      var u := read(b, off, None);
      OwnIdFits(row, ioa, b, off);
      var next := off + ObjectLen(true, ioa, row.size);
      OwnIdsFit(row, ioa, b, next, n - 1, Some(u.id));
      var us := ParseObjects(read, ioa, row.size, b, next, n - 1, false, Some(u.id));
      assert ([u] + us)[1..] == us;
    }
  }

  lemma OwnIdFits(row: Row, ioa: nat, b: seq<byte>, off: nat)
    requires GoodRow(row) && 1 <= ioa <= 4
    ensures ReaderOf(row, ioa)(b, off, None).id < Pow256(ioa)
  {
    var read := ReaderOf(row, ioa);
    Pow256Values();
    if off + ObjectLen(true, ioa, row.size) > |b| {
      assert read(b, off, None) == Blank(None);
    } else {
      assert read(b, off, None) == ParseElement(row, b, off + AddressLen(ioa), Address(b, off, ioa));
      ToFromLe(b[off..off + ioa]);
    }
  }

  lemma BodyIdsFit(b: seq<byte>, l: Lens, row: Row)
    requires GoodLens(l) && GoodRow(row) && |b| >= 2 + l.cot + l.coa && b[1] < 128 && ParseBody(b, l, row).asdu.Some?
    ensures IdsFit(ParseBody(b, l, row).asdu.value.units, l.ioa)
  {
    OwnIdsFit(row, l.ioa, b, 2 + l.cot + AddressLen(l.coa), b[1] % 128, None);
  }

  lemma BuiltHead(a: Asdu, l: Lens, row: Row, h: seq<byte>, b: seq<byte>)
    requires GoodLens(l) && |a.units| <= 127 && Find(a.typ) == Some(row) && !Sq(a) && h == HeaderBytes(a, l) && b == Build(a, l).bytes
    ensures |b| >= 2 + l.cot + l.coa && b[0] == a.typ && b[1] < 128
  {
    HeaderLength(a, l, h);
    FlagByte(a);
  }

  /** What was built without the SQ flag parses to identifiers that fit. */
  lemma RebuiltIdsFit(a: Asdu, l: Lens)
    requires GoodLens(l) && |a.units| <= 127 && Find(a.typ).Some? && !Sq(a)
    requires Parse(Build(a, l).bytes, l).asdu.Some?
    ensures IdsFit(Parse(Build(a, l).bytes, l).asdu.value.units, l.ioa)
  {
    var row := Find(a.typ).value;
    var b := Build(a, l).bytes;
    FindGood(a.typ);
    BuiltHead(a, l, row, HeaderBytes(a, l), b);
    ParseDispatch(b, l, row);
    BodyIdsFit(b, l, row);
  }

  /**
   Building a parsed ASDU, with or without units, and parsing it again changes nothing exactly if
   its identifiers fit the object address: an SQ run may count past the end of it.
   */
  lemma ParseNormalisesIff(b: seq<byte>, l: Lens)
    requires GoodLens(l) && Parse(b, l).asdu.Some?
    ensures var a := Parse(b, l).asdu.value;
            |a.units| < 256 && (Parse(Build(a, l).bytes, l) == Parse(b, l) <==> IdsFit(a.units, l.ioa))
  {
    var a := Parse(b, l).asdu.value;
    ParsedEmitted(b, l);
    if IdsFit(a.units, l.ioa) {
      ParseNormalises(b, l);
    } else if Parse(Build(a, l).bytes, l) == Parse(b, l) {
      ParsedUnits(b, l);
      RebuiltIdsFit(a, l);
    }
  }

  // ---------------------------------------------------------------- the methods of the source

  /** iec_asdu_build_header. */
  method PutHeader(buf: array<byte>, a: Asdu, l: Lens) returns (next: nat)
    requires l.cot > 0 && |a.units| < 256 && 2 + l.cot + l.coa <= buf.Length
    modifies buf
    ensures buf[..] == Splice(old(buf[..]), 0, HeaderBytes(a, l)) && next == |HeaderBytes(a, l)|
  {
    ghost var s0 := buf[..];
    ghost var fixed := [a.typ, SizeField(a), CauseField(a)];
    ghost var pad := AddressBytes(0, l.cot - 1);
    HeaderLength(a, l, HeaderBytes(a, l));
    PutThree(buf, 0, a.typ, SizeField(a), CauseField(a));
    next := PutAddress(buf, 3, 0, l.cot - 1);
    SpliceTwice(s0, 0, fixed, pad);
    next := PutAddress(buf, next, a.adr, l.coa);
    SpliceTwice(s0, 0, fixed + pad, AddressBytes(a.adr, l.coa));
  }

  /** iec_asdu_buff_build; no ASDU stands for a null structure or a null data pointer. */
  method BuildBuffer(asdu: Option<Asdu>, l: Lens) returns (res: Res, buf: array<byte>)
    requires asdu.Some? ==> |asdu.value.units| < 256
    ensures fresh(buf) && res == if asdu == None then Incorrect else Build(asdu.value, l).res
    ensures if res == Success then Emitted(asdu.value, l, buf[..]) else buf.Length == 0
  {
    buf := new byte[0];
    if asdu == None || l.cot == 0 || l.coa == 0 || l.ioa == 0 {
      return Incorrect, buf;
    }
    var a := asdu.value;
    var found := Find(a.typ);
    if found == None {
      return Unknown, buf;
    }
    FindGood(a.typ);
    buf := FillBuffer(a, l, found.value);
    res := Success;
  }

  /** Header and objects in a buffer of the computed length. */
  method FillBuffer(a: Asdu, l: Lens, row: Row) returns (buf: array<byte>)
    requires l.cot > 0 && GoodRow(row) && |a.units| < 256
    ensures fresh(buf) && buf.Length == BufferLen(row, a, l)
    ensures HeaderBytes(a, l) + ObjectBytes(WriterOf(row, l.ioa), a.units, Sq(a), true) <= buf[..]
  {
    ghost var h, objects := HeaderBytes(a, l), ObjectBytes(WriterOf(row, l.ioa), a.units, Sq(a), true);
    ObjectsLength(a, l, row, objects);
    HeaderLength(a, l, h);
    buf := new byte[BufferLen(row, a, l)];
    ghost var s0 := buf[..];
    var off := PutHeader(buf, a, l);
    off := PutObjects(buf, off, row, l.ioa, a.units, Sq(a));
    SpliceTwice(s0, 0, h, objects);
    SplicePrefix(s0, h + objects);
  }

  /** iec_asdu_buff_parse. */
  method ParseBuffer(b: seq<byte>, l: Lens) returns (res: Res, asdu: Option<Asdu>)
    ensures ParsedAsdu(res, asdu) == Parse(b, l)
  {
    if |b| < LEN_MIN || l.cot == 0 || l.coa == 0 || l.ioa == 0 || |b| < 2 + l.cot + l.coa {
      return Incorrect, None;
    }
    var found := Find(b[0]);
    if found == None {
      return Unknown, None;
    }
    FindGood(b[0]);
    res, asdu := ParseUnits(b, l, found.value);
  }

  method ParseUnits(b: seq<byte>, l: Lens, row: Row) returns (res: Res, asdu: Option<Asdu>)
    requires GoodRow(row) && l.cot >= 1 && |b| >= 2 + l.cot + l.coa
    ensures ParsedAsdu(res, asdu) == ParseBody(b, l, row)
  {
    var n := b[1] % 128;
    var sq := b[1] / 128 == 1;
    var off := 2 + l.cot + AddressLen(l.coa);
    if |b| - off < ObjectPart(n, sq, l.ioa, row.size) {
      return Incorrect, None;
    }
    PartCovers(n, sq, l.ioa, row.size);
    var us := GetObjects(b, off, row, l.ioa, n, sq);
    res := Success;
    asdu := Some(Fields(b, l, us));
    ParseOutcome(b, l, row, n, sq, off, us);
  }

}
