/**
 The information objects of an ASDU: elements behind their addresses, or a run of elements behind
 one address when the SQ flag is set.  `read` and `write` are the functions the type table names.
 */
module AsduObjects {
  import opened Prelude
  import opened Bytes
  import opened AsduElements

  /** Bytes an address takes. */
  function AddressLen(len: nat): (r: nat)
    ensures r <= len
  {
    if 1 <= len <= 4 then len else 0
  }

  /** iec_asdu_build_obj_address: other lengths than 1 to 4 write nothing. */
  function AddressBytes(a: nat, len: nat): seq<byte> {
    if 1 <= len <= 4 then ToLe(a, len) else []
  }

  /** iec_asdu_parse_obj_address: other lengths than 1 to 4 read nothing. */
  function Address(b: seq<byte>, off: nat, len: nat): (r: nat)
    requires off + AddressLen(len) <= |b|
    ensures r < 0x1_0000_0000
  {
    if 1 <= len <= 4 then
      ToFromLe(b[off..off + len]);
      Pow256Values();
      FromLe(b[off..off + len])
    else 0
  }

  lemma AddressRoundTrip(b: seq<byte>, off: nat, v: nat, len: nat)
    requires 1 <= len <= 4 && v < Pow256(len) && off + len <= |b| && b[off..off + len] == AddressBytes(v, len)
    ensures Address(b, off, len) == v
  {
    FromToLe(v, len);
  }

  // ---------------------------------------------------------------- one object

  /** Writes an element, behind its own address or not. */
  type Writer = (Element, bool) -> seq<byte>

  /** Reads an element: behind its own address, or with the identifier given. */
  type Reader = (seq<byte>, nat, Option<u32>) -> Element

  /** Stands for what the source would read behind the buffer; its length check rules that out. */
  function Blank(id: Option<u32>): Element {
    Element(if id == None then 0 else id.value, 0, NoValue, 0, NO_TIME)
  }

  function ObjectLen(own: bool, ioa: nat, size: nat): nat {
    (if own then AddressLen(ioa) else 0) + size
  }

  function WriterOf(row: Row, ioa: nat): Writer {
    (u: Element, own: bool) => (if own then AddressBytes(u.id, ioa) else []) + ElementBytes(row, u)
  }

  function ReaderOf(row: Row, ioa: nat): Reader
    requires GoodRow(row)
  {
    (b: seq<byte>, off: nat, id: Option<u32>) =>
      if off + ObjectLen(id == None, ioa, row.size) > |b| then Blank(id)
      else if id == None then ParseElement(row, b, off + AddressLen(ioa), Address(b, off, ioa))
      else ParseElement(row, b, off, id.value)
  }

  /** The identifier the reader is given: none if the object brings its own. */
  function Given(u: Element, own: bool): Option<u32> {
    if own then None else Some(u.id)
  }

  /** What is written for `u` has length `len` and reads back as `u`, wherever it stands. */
  ghost predicate ReadableAs(read: Reader, write: Writer, u: Element, own: bool, len: nat) {
    && |write(u, own)| == len
    && forall b: seq<byte>, off: nat | off + len <= |b| && b[off..off + len] == write(u, own) ::
         read(b, off, Given(u, own)) == u
  }

  /** Whichever way the identifier travels, what is written for `u` reads back as `u`. */
  ghost predicate Readable(read: Reader, write: Writer, ioa: nat, size: nat, u: Element) {
    ReadableAs(read, write, u, true, ObjectLen(true, ioa, size)) && ReadableAs(read, write, u, false, ObjectLen(false, ioa, size))
  }

  lemma WrittenLength(row: Row, ioa: nat, u: Element, own: bool)
    requires GoodRow(row)
    ensures |WriterOf(row, ioa)(u, own)| == ObjectLen(own, ioa, row.size)
  {
    var write := WriterOf(row, ioa);
    assert |AddressBytes(u.id, ioa)| == AddressLen(ioa);
    assert write(u, own) == (if own then AddressBytes(u.id, ioa) else []) + ElementBytes(row, u);
  }

  /** An element in range of its type, with an identifier that fits, is readable. */
  lemma ObjectRoundTrip(row: Row, ioa: nat, u: Element, own: bool, b: seq<byte>, off: nat, address: seq<byte>)
    requires GoodRow(row) && InRange(row, u) && 1 <= ioa <= 4 && u.id < Pow256(ioa)
    requires address == if own then AddressBytes(u.id, ioa) else []
    requires off + |address| + row.size <= |b|
    requires b[off..off + |address| + row.size] == address + ElementBytes(row, u)
    ensures ReaderOf(row, ioa)(b, off, Given(u, own)) == u
  {
    var at := off + |address|;
    TwoParts(b, off, address, ElementBytes(row, u));
    if own {
      AddressRoundTrip(b, off, u.id, ioa);
    }
    ElementRoundTrip(row, b, at, u);
    ReaderAt(row, ioa, u, own, b, off);
  }

  lemma TwoParts(b: seq<byte>, off: nat, x: seq<byte>, y: seq<byte>)
    requires off + |x| + |y| <= |b| && b[off..off + |x| + |y|] == x + y
    ensures b[off..off + |x|] == x && b[off + |x|..off + |x| + |y|] == y
  {
    var w := b[off..off + |x| + |y|];
    assert b[off..off + |x|] == w[..|x|];
    assert b[off + |x|..off + |x| + |y|] == w[|x|..];
  }

  /** What the reader of a row comes down to. */
  lemma ReaderAt(row: Row, ioa: nat, u: Element, own: bool, b: seq<byte>, off: nat)
    requires GoodRow(row) && 1 <= ioa <= 4 && off + ObjectLen(own, ioa, row.size) <= |b|
    requires own ==> Address(b, off, ioa) == u.id
    ensures ReaderOf(row, ioa)(b, off, Given(u, own))
              == ParseElement(row, b, if own then off + ioa else off, u.id)
  {
    var read := ReaderOf(row, ioa);
    if own {
      assert AddressLen(ioa) == ioa;
      assert read(b, off, None) == ParseElement(row, b, off + AddressLen(ioa), Address(b, off, ioa));
    } else {
      assert read(b, off, Some(u.id)) == ParseElement(row, b, off, u.id);
    }
  }

  lemma InRangeReadableAs(row: Row, ioa: nat, u: Element, own: bool)
    requires GoodRow(row) && InRange(row, u) && 1 <= ioa <= 4 && u.id < Pow256(ioa)
    ensures ReadableAs(ReaderOf(row, ioa), WriterOf(row, ioa), u, own, ObjectLen(own, ioa, row.size))
  {
    var address := if own then AddressBytes(u.id, ioa) else [];
    var len := ObjectLen(own, ioa, row.size);
    WrittenLength(row, ioa, u, own);
    forall b: seq<byte>, off: nat | off + len <= |b| && b[off..off + len] == WriterOf(row, ioa)(u, own)
      ensures ReaderOf(row, ioa)(b, off, Given(u, own)) == u
    {
      ObjectRoundTrip(row, ioa, u, own, b, off, address);
    }
  }

  lemma InRangeReadable(row: Row, ioa: nat, u: Element)
    requires GoodRow(row) && InRange(row, u) && 1 <= ioa <= 4 && u.id < Pow256(ioa)
    ensures Readable(ReaderOf(row, ioa), WriterOf(row, ioa), ioa, row.size, u)
  {
    InRangeReadableAs(row, ioa, u, true);
    InRangeReadableAs(row, ioa, u, false);
  }

  // ---------------------------------------------------------------- runs of objects

  /** The build loop of iec_asdu_buff_build; with the SQ flag only the first object has an address. */
  function ObjectBytes(write: Writer, us: seq<Element>, sq: bool, first: bool): seq<byte> {
    if us == [] then [] else write(us[0], !sq || first) + ObjectBytes(write, us[1..], sq, false)
  }

  /** Bytes `n` objects of `size` take, object by object. */
  function ObjectsLen(n: nat, sq: bool, first: bool, ioa: nat, size: nat): nat {
    if n == 0 then 0 else ObjectLen(!sq || first, ioa, size) + ObjectsLen(n - 1, sq, false, ioa, size)
  }

  lemma ObjectsLenNext(n: nat, sq: bool, first: bool, ioa: nat, size: nat)
    requires n > 0
    ensures ObjectsLen(n, sq, first, ioa, size) == ObjectLen(!sq || first, ioa, size) + ObjectsLen(n - 1, sq, false, ioa, size)
  {
  }

  /** The closed forms the source computes. */
  lemma {:induction false} ObjectsLenClosed(n: nat, sq: bool, first: bool, ioa: nat, size: nat)
    ensures ObjectsLen(n, sq, first, ioa, size)
              == if !sq then n * (AddressLen(ioa) + size)
                 else if first && n > 0 then AddressLen(ioa) + n * size else n * size
  {
    if n > 0 {
      ObjectsLenClosed(n - 1, sq, false, ioa, size);
      assert n * (AddressLen(ioa) + size) == AddressLen(ioa) + size + (n - 1) * (AddressLen(ioa) + size);
      assert n * size == size + (n - 1) * size;
    }
  }

  lemma {:induction false} ObjectBytesLength(write: Writer, us: seq<Element>, sq: bool, first: bool, ioa: nat, size: nat)
    requires forall u, own :: |write(u, own)| == ObjectLen(own, ioa, size)
    ensures |ObjectBytes(write, us, sq, first)| == ObjectsLen(|us|, sq, first, ioa, size)
  {
    if us != [] {
      ObjectBytesLength(write, us[1..], sq, false, ioa, size);
    }
  }

  /**
   The parse loop of iec_asdu_buff_parse: `n` objects from `off` on; `prev` is the identifier before,
   none at the start.
   */
  function ParseObjects(read: Reader, ioa: nat, size: nat, b: seq<byte>, off: nat, n: nat, sq: bool, prev: Option<u32>): seq<Element>
    decreases n
  {
    if n == 0 then []
    else
      var own := !sq || prev == None;
      var u := read(b, off, if own then None else Some(NextId(prev.value)));
      [u] + ParseObjects(read, ioa, size, b, off + ObjectLen(own, ioa, size), n - 1, sq, Some(u.id))
  }

  /** Every element reads back as written. */
  ghost predicate AllReadable(read: Reader, write: Writer, ioa: nat, size: nat, us: seq<Element>) {
    us == [] || (Readable(read, write, ioa, size, us[0]) && AllReadable(read, write, ioa, size, us[1..]))
  }

  /** Every identifier fits the object address. */
  predicate IdsFit(us: seq<Element>, ioa: nat) {
    us == [] || (us[0].id < Pow256(ioa) && IdsFit(us[1..], ioa))
  }

  function NextId(id: u32): u32 {
    (id + 1) % 0x1_0000_0000
  }

  /** Identifiers count up by one, as 32-bit numbers. */
  predicate Consecutive(us: seq<Element>) {
    |us| < 2 || (us[1].id == NextId(us[0].id) && Consecutive(us[1..]))
  }

  /** An element that is given its identifier keeps it. */
  lemma GivenId(row: Row, ioa: nat, b: seq<byte>, off: nat, id: u32)
    requires GoodRow(row)
    ensures ReaderOf(row, ioa)(b, off, Some(id)).id == id
  {
    var read := ReaderOf(row, ioa);
    if off + row.size > |b| {
      assert read(b, off, Some(id)) == Blank(Some(id));
    } else {
      assert read(b, off, Some(id)) == ParseElement(row, b, off, id);
    }
  }

  /** Under the SQ flag the identifiers read are consecutive. */
  lemma {:induction false} ParsedConsecutive(row: Row, ioa: nat, b: seq<byte>, off: nat, n: nat, prev: Option<u32>)
    requires GoodRow(row)
    ensures var us := ParseObjects(ReaderOf(row, ioa), ioa, row.size, b, off, n, true, prev);
            && |us| == n && Consecutive(us) && (prev.Some? && n > 0 ==> us[0].id == NextId(prev.value))
    decreases n
  {
    if n > 0 {
      var read := ReaderOf(row, ioa);
      var own := prev == None;
      var u := read(b, off, if own then None else Some(NextId(prev.value)));
      var next := off + ObjectLen(own, ioa, row.size);
      if !own {
        GivenId(row, ioa, b, off, NextId(prev.value));
      }
      ParsedConsecutive(row, ioa, b, next, n - 1, Some(u.id));
      var us := ParseObjects(read, ioa, row.size, b, next, n - 1, true, Some(u.id));
      assert ([u] + us)[1..] == us;
    }
  }

  /** The first element is read, and the loop goes on behind it. */
  lemma FirstReads(read: Reader, write: Writer, ioa: nat, size: nat, b: seq<byte>, off: nat, u: Element, n: nat,
                   sq: bool, prev: Option<u32>, own: bool, rest: seq<byte>)
    requires n > 0 && own == (!sq || prev == None) && (own || u.id == NextId(prev.value))
    requires ReadableAs(read, write, u, own, ObjectLen(own, ioa, size))
    requires off <= |b| && b[off..] == write(u, own) + rest
    ensures var next := off + ObjectLen(own, ioa, size);
            && next <= |b| && b[next..] == rest
            && ParseObjects(read, ioa, size, b, off, n, sq, prev)
                 == [u] + ParseObjects(read, ioa, size, b, next, n - 1, sq, Some(u.id))
  {
    Cut(b, off, write(u, own), rest);
    assert read(b, off, Given(u, own)) == u;
  }

  /** Reading the objects back gives the elements, whichever way their identifiers travel. */
  lemma {:induction false} ObjectsRoundTrip(read: Reader, write: Writer, ioa: nat, size: nat, b: seq<byte>, off: nat,
                                            us: seq<Element>, sq: bool, prev: Option<u32>)
    requires AllReadable(read, write, ioa, size, us)
    requires sq ==> Consecutive(us) && (prev.Some? && us != [] ==> us[0].id == NextId(prev.value))
    requires off <= |b| && b[off..] == ObjectBytes(write, us, sq, prev == None)
    ensures ParseObjects(read, ioa, size, b, off, |us|, sq, prev) == us
    decreases |us|
  {
    if us != [] {
      var u, more := us[0], us[1..];
      var own := !sq || prev == None;
      FirstReads(read, write, ioa, size, b, off, u, |us|, sq, prev, own, ObjectBytes(write, more, sq, false));
      ObjectsRoundTrip(read, write, ioa, size, b, off + ObjectLen(own, ioa, size), more, sq, Some(u.id));
      assert us == [u] + more;
    }
  }

  // ---------------------------------------------------------------- the loops of the source

  /** One more object is written behind those before it. */
  lemma {:induction false} ObjectBytesSnoc(write: Writer, us: seq<Element>, u: Element, sq: bool, first: bool)
    ensures ObjectBytes(write, us + [u], sq, first)
              == ObjectBytes(write, us, sq, first) + write(u, !sq || (first && us == []))
  {
    if us == [] {
      assert us + [u] == [u];
      assert ObjectBytes(write, [u], sq, first) == write(u, !sq || first) + ObjectBytes(write, [], sq, false);
    } else {
      ObjectBytesSnoc(write, us[1..], u, sq, false);
      assert (us + [u])[1..] == us[1..] + [u];
    }
  }

  /** iec_asdu_build_obj_address. */
  method PutAddress(buf: array<byte>, off: nat, v: nat, len: nat) returns (next: nat)
    requires off + AddressLen(len) <= buf.Length
    modifies buf
    ensures buf[..] == Splice(old(buf[..]), off, AddressBytes(v, len)) && next == off + AddressLen(len)
  {
    SpliceEmpty(buf[..], off);
    next := off;
    if 1 <= len <= 4 {
      PutLe(buf, off, v, len);
      next := off + len;
    }
  }

  /** One object of the build loop of iec_asdu_buff_build. */
  method PutObject(buf: array<byte>, off: nat, row: Row, ioa: nat, u: Element, own: bool) returns (next: nat)
    requires GoodRow(row) && off + ObjectLen(own, ioa, row.size) <= buf.Length
    modifies buf
    ensures next == off + ObjectLen(own, ioa, row.size) && |WriterOf(row, ioa)(u, own)| == next - off
    ensures buf[..] == Splice(old(buf[..]), off, WriterOf(row, ioa)(u, own))
  {
    ghost var s0 := buf[..];
    ghost var address := if own then AddressBytes(u.id, ioa) else [];
    next := off;
    if own {
      next := PutAddress(buf, off, u.id, ioa);
    } else {
      SpliceEmpty(s0, off);
    }
    next := PutElement(buf, next, row, u);
    SpliceTwice(s0, off, address, ElementBytes(row, u));
    WriterApplied(row, ioa, u, own);
    WrittenLength(row, ioa, u, own);
  }

  lemma WriterApplied(row: Row, ioa: nat, u: Element, own: bool)
    ensures WriterOf(row, ioa)(u, own) == (if own then AddressBytes(u.id, ioa) else []) + ElementBytes(row, u)
  {
    var write := WriterOf(row, ioa);
    assert write(u, own) == (if own then AddressBytes(u.id, ioa) else []) + ElementBytes(row, u);
  }

  /** Object `i` written behind those before it. */
  lemma NextObject(write: Writer, us: seq<Element>, i: nat, sq: bool, s: seq<byte>, off: nat)
    requires i < |us|
    requires off + |ObjectBytes(write, us[..i], sq, true)| + |write(us[i], !sq || i == 0)| <= |s|
    ensures var done := ObjectBytes(write, us[..i], sq, true);
            var x := write(us[i], !sq || i == 0);
            && ObjectBytes(write, us[..i + 1], sq, true) == done + x
            && Splice(Splice(s, off, done), off + |done|, x) == Splice(s, off, done + x)
  {
    ObjectBytesSnoc(write, us[..i], us[i], sq, true);
    assert us[..i + 1] == us[..i] + [us[i]];
    SpliceTwice(s, off, ObjectBytes(write, us[..i], sq, true), write(us[i], !sq || i == 0));
  }

  /** `buf` is `s` with the first `i` objects written at `off`, up to `next`. */
  ghost predicate Written(s: seq<byte>, buf: seq<byte>, off: nat, next: nat, objects: seq<byte>) {
    next == off + |objects| <= |s| && buf == Splice(s, off, objects)
  }

  /** One pass of the build loop. */
  method PutNext(buf: array<byte>, off: nat, row: Row, ioa: nat, us: seq<Element>, i: nat, sq: bool, ghost s: seq<byte>, ghost start: nat)
    returns (next: nat)
    requires GoodRow(row) && i < |us|
    requires off + ObjectLen(!sq || i == 0, ioa, row.size) <= buf.Length
    requires Written(s, buf[..], start, off, ObjectBytes(WriterOf(row, ioa), us[..i], sq, true))
    modifies buf
    ensures next == off + ObjectLen(!sq || i == 0, ioa, row.size)
    ensures Written(s, buf[..], start, next, ObjectBytes(WriterOf(row, ioa), us[..i + 1], sq, true))
  {
    next := PutObject(buf, off, row, ioa, us[i], !sq || i == 0);
    NextObject(WriterOf(row, ioa), us, i, sq, s, start);
  }

  /** The build loop of iec_asdu_buff_build. */
  method PutObjects(buf: array<byte>, off: nat, row: Row, ioa: nat, us: seq<Element>, sq: bool) returns (next: nat)
    requires GoodRow(row)
    requires off + ObjectsLen(|us|, sq, true, ioa, row.size) <= buf.Length
    modifies buf
    ensures next == off + ObjectsLen(|us|, sq, true, ioa, row.size)
    ensures Written(old(buf[..]), buf[..], off, next, ObjectBytes(WriterOf(row, ioa), us, sq, true))
  {
    ghost var s0 := buf[..];
    next := off;
    SpliceEmpty(s0, off);
    for i := 0 to |us|
      invariant next + ObjectsLen(|us| - i, sq, i == 0, ioa, row.size) == off + ObjectsLen(|us|, sq, true, ioa, row.size)
      invariant Written(s0, buf[..], off, next, ObjectBytes(WriterOf(row, ioa), us[..i], sq, true))
    {
      next := PutNext(buf, next, row, ioa, us, i, sq, s0, off);
    }
    assert us[..|us|] == us;
  }

  /** The units read so far and the `n` still to be read are all of them. */
  ghost predicate Reading(read: Reader, ioa: nat, size: nat, b: seq<byte>, off: nat, n: nat, sq: bool, prev: Option<u32>,
                          us: seq<Element>, all: seq<Element>) {
    us + ParseObjects(read, ioa, size, b, off, n, sq, prev) == all
  }

  lemma ReadingNext(read: Reader, ioa: nat, size: nat, b: seq<byte>, off: nat, n: nat, sq: bool, prev: Option<u32>,
                    us: seq<Element>, all: seq<Element>)
    requires n > 0 && Reading(read, ioa, size, b, off, n, sq, prev, us, all)
    ensures var own := !sq || prev == None;
            var u := read(b, off, if own then None else Some(NextId(prev.value)));
            Reading(read, ioa, size, b, off + ObjectLen(own, ioa, size), n - 1, sq, Some(u.id), us + [u], all)
  {
    var own := !sq || prev == None;
    var u := read(b, off, if own then None else Some(NextId(prev.value)));
    var rest := ParseObjects(read, ioa, size, b, off + ObjectLen(own, ioa, size), n - 1, sq, Some(u.id));
    assert us + ([u] + rest) == us + [u] + rest;
  }

  lemma ReadingDone(read: Reader, ioa: nat, size: nat, b: seq<byte>, off: nat, sq: bool, prev: Option<u32>, us: seq<Element>, all: seq<Element>)
    ensures Reading(read, ioa, size, b, off, 0, sq, prev, us, all) <==> us == all
  {
    assert us + [] == us;
  }

  /** One pass of the parse loop. */
  method GetNext(b: seq<byte>, off: nat, row: Row, ioa: nat, n: nat, sq: bool, prev: Option<u32>,
                 ghost read: Reader, ghost us: seq<Element>, ghost all: seq<Element>) returns (next: nat, u: Element)
    requires GoodRow(row) && n > 0 && read == ReaderOf(row, ioa)
    requires off + ObjectsLen(n, sq, prev == None, ioa, row.size) <= |b|
    requires Reading(read, ioa, row.size, b, off, n, sq, prev, us, all)
    ensures next + ObjectsLen(n - 1, sq, false, ioa, row.size) <= |b|
    ensures Reading(read, ioa, row.size, b, next, n - 1, sq, Some(u.id), us + [u], all)
  {
    var own := !sq || prev == None;
    ObjectsLenNext(n, sq, prev == None, ioa, row.size);
    u := GetObject(b, off, row, ioa, if own then None else Some(NextId(prev.value)));
    ReadingNext(read, ioa, row.size, b, off, n, sq, prev, us, all);
    next := off + ObjectLen(own, ioa, row.size);
  }

  /** The parse loop of iec_asdu_buff_parse. */
  method GetObjects(b: seq<byte>, off: nat, row: Row, ioa: nat, n: nat, sq: bool) returns (us: seq<Element>)
    requires GoodRow(row) && off + ObjectsLen(n, sq, true, ioa, row.size) <= |b|
    ensures us == ParseObjects(ReaderOf(row, ioa), ioa, row.size, b, off, n, sq, None)
  {
    ghost var read := ReaderOf(row, ioa);
    ghost var all := ParseObjects(read, ioa, row.size, b, off, n, sq, None);
    us := [];
    var at: nat := off;
    var prev: Option<u32> := None;
    for i := 0 to n
      invariant i == 0 <==> prev == None
      invariant at + ObjectsLen(n - i, sq, prev == None, ioa, row.size) <= |b|
      invariant Reading(read, ioa, row.size, b, at, n - i, sq, prev, us, all)
    {
      var u;
      at, u := GetNext(b, at, row, ioa, n - i, sq, prev, read, us, all);
      us, prev := us + [u], Some(u.id);
    }
    ReadingDone(read, ioa, row.size, b, at, sq, prev, us, all);
  }

  /** One object of the parse loop. */
  method GetObject(b: seq<byte>, off: nat, row: Row, ioa: nat, id: Option<u32>) returns (u: Element)
    requires GoodRow(row) && off + ObjectLen(id == None, ioa, row.size) <= |b|
    ensures u == ReaderOf(row, ioa)(b, off, id)
  {
    ghost var read := ReaderOf(row, ioa);
    match id
    case None =>
      u := ParseElement(row, b, off + AddressLen(ioa), Address(b, off, ioa));
      assert read(b, off, None) == u;
    case Some(v) =>
      u := ParseElement(row, b, off, v);
      assert read(b, off, Some(v)) == u;
  }

}
