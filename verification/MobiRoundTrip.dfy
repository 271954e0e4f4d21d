/** What ParseMOBI reads from a file that was laid out by the book: the exact
    fields that were written. */
module MobiRoundTrip {
  import opened Collections
  import opened Mobi

  // ---- the fields of a record list, said directly -----------------------------------

  function OfKind(rs: seq<Record>, kind: uint32): seq<Bytes> {
    if rs == [] then []
    else if rs[|rs| - 1].kind == kind then OfKind(rs[..|rs| - 1], kind) + [Trim(rs[|rs| - 1].data)]
    else OfKind(rs[..|rs| - 1], kind)
  }

  function Last(xs: seq<Bytes>): Bytes {
    if xs == [] then [] else xs[|xs| - 1]
  }

  function LastDate(xs: seq<Bytes>, parseDate: DateParser): Option<int> {
    if xs == [] then None
    else if parseDate(xs[|xs| - 1]).Some? then parseDate(xs[|xs| - 1])
    else LastDate(xs[..|xs| - 1], parseDate)
  }

  /** Authors accumulate in order; every other field is that of its last
      record; the publication date is the last one that parses. */
  function Fields(format: Bytes, rs: seq<Record>, parseDate: DateParser): Parsed {
    Parsed(format, Last(OfKind(rs, 503)), OfKind(rs, 100), Last(OfKind(rs, 101)), Last(OfKind(rs, 103)),
           Last(OfKind(rs, 104)), LastDate(OfKind(rs, 106), parseDate), Last(OfKind(rs, 113)))
  }

  /** Nothing to trim at either end. */
  predicate Trimmed(s: Bytes) { FirstWidth(SpaceWidth, s) == 0 && LastWidth(SpaceWidth, s) == 0 }

  function RawOfKind(rs: seq<Record>, kind: uint32): seq<Bytes> {
    if rs == [] then []
    else if rs[|rs| - 1].kind == kind then RawOfKind(rs[..|rs| - 1], kind) + [rs[|rs| - 1].data]
    else RawOfKind(rs[..|rs| - 1], kind)
  }

  /** Data without white space at its ends is read verbatim. */
  lemma {:induction false} TrimmedIsVerbatim(rs: seq<Record>, kind: uint32)
    requires forall r | r in rs && r.kind == kind :: Trimmed(r.data)
    ensures OfKind(rs, kind) == RawOfKind(rs, kind)
  {
    if rs != [] {
      var front, last := rs[..|rs| - 1], rs[|rs| - 1];
      assert rs == front + [last];
      TrimmedIsVerbatim(front, kind);
      assert last.kind == kind ==> Trimmed(last.data);
    }
  }

  lemma OfKindNext(rs: seq<Record>, r: Record, kind: uint32)
    ensures OfKind(rs + [r], kind) == if r.kind == kind then OfKind(rs, kind) + [Trim(r.data)] else OfKind(rs, kind)
  {
    assert (rs + [r])[..|rs|] == rs;
  }

  lemma LastNext(xs: seq<Bytes>, x: Bytes, parseDate: DateParser)
    ensures Last(xs + [x]) == x
    ensures LastDate(xs + [x], parseDate) == if parseDate(x).Some? then parseDate(x) else LastDate(xs, parseDate)
  {
    assert (xs + [x])[..|xs|] == xs;
  }

  lemma FieldsNext(format: Bytes, rs: seq<Record>, r: Record, parseDate: DateParser)
    ensures Fields(format, rs + [r], parseDate) == Absorb(Fields(format, rs, parseDate), r, parseDate)
  {
    OfKindNext(rs, r, 100);
    OfKindNext(rs, r, 101);
    OfKindNext(rs, r, 103);
    OfKindNext(rs, r, 104);
    OfKindNext(rs, r, 106);
    OfKindNext(rs, r, 113);
    OfKindNext(rs, r, 503);
    LastNext(OfKind(rs, r.kind), Trim(r.data), parseDate);
  }

  lemma AbsorbedNext(format: Bytes, rs: seq<Record>, r: Record, parseDate: DateParser)
    requires AbsorbAll(Blank(format), rs, parseDate) == Fields(format, rs, parseDate)
    ensures AbsorbAll(Blank(format), rs + [r], parseDate) == Fields(format, rs + [r], parseDate)
  {
    AbsorbNext(Blank(format), rs, r, parseDate);
    FieldsNext(format, rs, r, parseDate);
  }

  /** Absorbing the records one by one, as the parser does, gives exactly these fields. */
  lemma {:induction false} AbsorbedFields(format: Bytes, rs: seq<Record>, parseDate: DateParser)
    ensures AbsorbAll(Blank(format), rs, parseDate) == Fields(format, rs, parseDate)
  {
    if rs != [] {
      LastApart(rs);
      AbsorbedFields(format, rs[..|rs| - 1], parseDate);
      AbsorbedNext(format, rs[..|rs| - 1], rs[|rs| - 1], parseDate);
    }
  }

  // ---- the layout ----------------------------------------------------------------------

  datatype Exth = Exth(length: Bytes, records: seq<Record>, tail: Bytes)

  /** name .. gap: the PDB header and record list; palm .. body: record 0.
      Without an EXTH block, body is what follows the MOBI header instead. */
  datatype Layout = Layout(
    name: Bytes, attributes: Bytes, firstEntry: Bytes, otherEntries: Bytes, gap: Bytes,
    palm: Bytes, header: Bytes, exth: Option<Exth>, body: Bytes)

  ghost predicate Valid(l: Layout) {
    && |l.name| <= 32 && (l.name != [] ==> l.name[|l.name| - 1] != 0)
    && |l.attributes| == 44 && |l.firstEntry| == 4 && |l.palm| == 16
    && |l.otherEntries| % 8 == 0 && 1 + |l.otherEntries| / 8 < 0x1_0000
    && (l.exth.Some? ==> |l.exth.value.length| == 4)
    && (l.exth.None? ==> !(12 <= |l.body| && l.body[..4] == EXTH))
    && Size(l) <= LIMIT
  }

  function Zeros(n: nat): (z: Bytes)
    ensures |z| == n && forall i | 0 <= i < n :: z[i] == 0
  {
    if n == 0 then [] else Zeros(n - 1) + [0]
  }

  function BE16(n: nat): Bytes
    requires n < 0x1_0000
  {
    [(n / 0x100) as byte, (n % 0x100) as byte]
  }

  function BE32(n: nat): Bytes
    requires n < 0x1_0000_0000
  {
    [(n / 0x100_0000) as byte, (n / 0x1_0000 % 0x100) as byte, (n / 0x100 % 0x100) as byte, (n % 0x100) as byte]
  }

  function RecordsSize(rs: seq<Record>): nat {
    if rs == [] then 0 else 8 + |rs[0].data| + RecordsSize(rs[1..])
  }

  function EncodeRecord(r: Record): Bytes
    requires 8 + |r.data| < 0x1_0000_0000
  {
    BE32(r.kind as nat) + BE32(8 + |r.data|) + r.data
  }

  function EncodeRecords(rs: seq<Record>): (b: Bytes)
    requires RecordsSize(rs) <= LIMIT
    ensures |b| == RecordsSize(rs)
  {
    if rs == [] then [] else EncodeRecord(rs[0]) + EncodeRecords(rs[1..])
  }

  function Offset(l: Layout): nat { 86 + |l.otherEntries| + |l.gap| }

  function ExthSize(l: Layout): nat {
    if l.exth.None? then |l.body|
    else 8 + |l.exth.value.length| + RecordsSize(l.exth.value.records) + |l.exth.value.tail|
  }

  function Size(l: Layout): nat {
    Offset(l) + 24 + |l.header| + ExthSize(l)
  }

  function NameField(l: Layout): Bytes
    requires |l.name| <= 32
  {
    l.name + Zeros(32 - |l.name|)
  }

  /** Everything before record 0. */
  function Front(l: Layout): (b: Bytes)
    requires Valid(l)
    ensures |b| == Offset(l)
  {
    NameField(l) + l.attributes + BE16(1 + |l.otherEntries| / 8) + BE32(Offset(l)) + l.firstEntry + l.otherEntries + l.gap
  }

  function ExthBlock(l: Layout): (b: Bytes)
    requires Valid(l)
    ensures |b| == ExthSize(l)
  {
    if l.exth.None? then l.body
    else
      var x := l.exth.value;
      ManyRecords(x.records);
      EXTH + x.length + BE32(|x.records|) + EncodeRecords(x.records) + x.tail
  }

  lemma {:induction false} ManyRecords(rs: seq<Record>)
    ensures 8 * |rs| <= RecordsSize(rs)
  {
    if rs != [] {
      ManyRecords(rs[1..]);
    }
  }

  function Start0(l: Layout): (b: Bytes)
    requires Valid(l)
    ensures |b| == 24 + |l.header|
  {
    l.palm + MOBI + BE32(8 + |l.header|) + l.header
  }

  function Encode(l: Layout): (b: Bytes)
    requires Valid(l)
    ensures |b| == Size(l)
  {
    Front(l) + Start0(l) + ExthBlock(l)
  }

  // ---- reading it back -------------------------------------------------------------------

  lemma Digits256(n: nat)
    requires n < 0x1_0000_0000
    ensures n / 0x100_0000 * 0x100_0000 + n / 0x1_0000 % 0x100 * 0x1_0000 + n / 0x100 % 0x100 * 0x100 + n % 0x100 == n
  {
    assert n / 0x1_0000 == n / 0x100 / 0x100;
    assert n / 0x100_0000 == n / 0x100 / 0x100 / 0x100;
  }

  lemma ReadBE32(d: Bytes, i: nat, n: nat)
    requires n < 0x1_0000_0000 && i + 4 <= |d| && d[i..i + 4] == BE32(n)
    ensures Uint32At(d, i) as nat == n
  {
    var s := d[i..i + 4];
    assert s[0] == d[i] && s[1] == d[i + 1] && s[2] == d[i + 2] && s[3] == d[i + 3];
    Digits256(n);
  }

  lemma ReadBE16(d: Bytes, i: nat, n: nat)
    requires n < 0x1_0000 && i + 2 <= |d| && d[i..i + 2] == BE16(n)
    ensures Uint16At(d, i) == n
  {
    var b := BE16(n);
    assert d[i..i + 2][0] == b[0] && d[i..i + 2][1] == b[1];
  }

  lemma SliceOfSlice(d: Bytes, a: nat, b: nat, i: nat, j: nat)
    requires a <= b <= |d| && i <= j <= b - a
    ensures d[a..b][i..j] == d[a + i..a + j]
  {
    var x, y := d[a..b][i..j], d[a + i..a + j];
    assert |x| == |y| && forall k | 0 <= k < |x| :: x[k] == y[k];
  }

  lemma {:induction false} TrimNulsOfPadded(name: Bytes, n: nat)
    requires name != [] ==> name[|name| - 1] != 0
    ensures TrimNuls(name + Zeros(n)) == name
  {
    if n == 0 {
      assert name + Zeros(0) == name;
    } else {
      TrimNulsOfPadded(name, n - 1);
      assert name + Zeros(n) == (name + Zeros(n - 1)) + [0];
      assert (name + Zeros(n))[..|name| + n - 1] == name + Zeros(n - 1);
    }
  }

  lemma FrontParts(name: Bytes, attributes: Bytes, count: Bytes, offset: Bytes, c: Bytes)
    requires |name| == 32 && |attributes| == 44 && |count| == 2 && |offset| == 4
    ensures var d := name + attributes + count + offset + c;
      d[..32] == name && d[76..78] == count && d[78..82] == offset
  {
  }

  lemma FrontFields(l: Layout, rest: Bytes)
    requires Valid(l)
    ensures var d := Front(l) + rest;
      && d[..32] == NameField(l)
      && Uint16At(d, 76) == 1 + |l.otherEntries| / 8
      && Uint32At(d, 78) as nat == Offset(l)
  {
    var d := Front(l) + rest;
    var n, off := BE16(1 + |l.otherEntries| / 8), BE32(Offset(l));
    var c := l.firstEntry + l.otherEntries + l.gap + rest;
    FrontParts(NameField(l), l.attributes, n, off, c);
    assert d == NameField(l) + l.attributes + n + off + c;
    FrontNumbers(d, 1 + |l.otherEntries| / 8, Offset(l));
  }

  lemma FrontNumbers(d: Bytes, n: nat, off: nat)
    requires 82 <= |d| && n < 0x1_0000 && off < 0x1_0000_0000
    requires d[76..78] == BE16(n) && d[78..82] == BE32(off)
    ensures Uint16At(d, 76) == n && Uint32At(d, 78) as nat == off
  {
    ReadBE16(d, 76, n);
    ReadBE32(d, 78, off);
  }

  lemma Start0Parts(front: Bytes, palm: Bytes, sign: Bytes, length: Bytes, c: Bytes)
    requires |palm| == 16 && |sign| == 4 && |length| == 4
    ensures var d := front + palm + sign + length + c;
      d[|front| + 16..|front| + 20] == sign && d[|front| + 20..|front| + 24] == length
  {
  }

  lemma Start0Fields(l: Layout, front: Bytes, rest: Bytes)
    requires Valid(l) && |front| == Offset(l)
    ensures var d, off := front + Start0(l) + rest, Offset(l);
      && d[off + 16..off + 20] == MOBI
      && Uint32At(d, off + 20) as nat == 8 + |l.header|
  {
    var d := front + Start0(l) + rest;
    var n := BE32(8 + |l.header|);
    Start0Parts(front, l.palm, MOBI, n, l.header + rest);
    assert d == front + l.palm + MOBI + n + (l.header + rest);
    ReadBE32(d, Offset(l) + 20, 8 + |l.header|);
  }

  /** A record with its header lies at pos. */
  predicate IsRecord(d: Bytes, pos: nat, r: Record) {
    && pos + 8 + |r.data| <= |d|
    && Uint32At(d, pos) == r.kind && Uint32At(d, pos + 4) as nat == 8 + |r.data|
    && d[pos + 8..pos + 8 + |r.data|] == r.data
  }

  lemma ReadRecord(d: Bytes, pos: nat, r: Record)
    requires 8 + |r.data| <= LIMIT && pos + 8 + |r.data| <= |d|
    requires d[pos..pos + 8 + |r.data|] == EncodeRecord(r)
    ensures IsRecord(d, pos, r)
  {
    var e, n := EncodeRecord(r), |r.data|;
    assert e[..4] == BE32(r.kind as nat) && e[4..8] == BE32(8 + n) && e[8..8 + n] == r.data;
    SliceOfSlice(d, pos, pos + 8 + n, 0, 4);
    SliceOfSlice(d, pos, pos + 8 + n, 4, 8);
    SliceOfSlice(d, pos, pos + 8 + n, 8, 8 + n);
    ReadBE32(d, pos, r.kind as nat);
    ReadBE32(d, pos + 4, 8 + n);
  }

  lemma SplitSlice(d: Bytes, pos: nat, first: Bytes, rest: Bytes)
    requires pos + |first| + |rest| <= |d| && d[pos..pos + |first| + |rest|] == first + rest
    ensures d[pos..pos + |first|] == first && d[pos + |first|..pos + |first| + |rest|] == rest
  {
    SliceOfSlice(d, pos, pos + |first| + |rest|, 0, |first|);
    SliceOfSlice(d, pos, pos + |first| + |rest|, |first|, |first| + |rest|);
    assert (first + rest)[0..|first|] == first && (first + rest)[|first|..|first| + |rest|] == rest;
  }

  lemma FirstRecord(d: Bytes, pos: nat, rs: seq<Record>)
    requires rs != [] && RecordsSize(rs) <= LIMIT && pos + RecordsSize(rs) <= |d|
    requires d[pos..pos + RecordsSize(rs)] == EncodeRecords(rs)
    ensures var mid := pos + 8 + |rs[0].data|;
      d[pos..mid] == EncodeRecord(rs[0]) && d[mid..pos + RecordsSize(rs)] == EncodeRecords(rs[1..])
  {
    SplitSlice(d, pos, EncodeRecord(rs[0]), EncodeRecords(rs[1..]));
  }

  /** The records rs lie one after the other in d, from pos on. */
  predicate LaidOut(d: Bytes, pos: nat, rs: seq<Record>)
    decreases |rs|
  {
    rs == [] || (IsRecord(d, pos, rs[0]) && LaidOut(d, pos + 8 + |rs[0].data|, rs[1..]))
  }

  lemma {:induction false} EncodedIsLaidOut(d: Bytes, pos: nat, rs: seq<Record>)
    requires RecordsSize(rs) <= LIMIT && pos + RecordsSize(rs) <= |d|
    requires d[pos..pos + RecordsSize(rs)] == EncodeRecords(rs)
    ensures LaidOut(d, pos, rs)
    decreases |rs|
  {
    if rs != [] {
      var r, rest := rs[0], rs[1..];
      var mid := pos + 8 + |r.data|;
      FirstRecord(d, pos, rs);
      ReadRecord(d, pos, r);
      EncodedIsLaidOut(d, mid, rest);
    }
  }

  /** Reading stops exactly where writing stopped. */
  lemma {:induction false} ReadRecords(d: Bytes, pos: nat, rs: seq<Record>)
    requires pos <= |d| && LaidOut(d, pos, rs)
    ensures RecordsAt(d, pos, |rs|) == rs
    decreases |rs|
  {
    if rs != [] {
      ReadRecords(d, pos + 8 + |rs[0].data|, rs[1..]);
      RecordsStep(d, pos, |rs|);
      assert rs == [rs[0]] + rs[1..];
    }
  }

  /** No complete record starts here: fewer than eight bytes are left, or the
      length is too small or reaches past the end. */
  predicate Broken(d: Bytes, pos: nat) {
    pos + 8 > |d| || Uint32At(d, pos + 4) < 8 || pos + Uint32At(d, pos + 4) as nat > |d|
  }

  lemma BrokenStops(d: Bytes, pos: nat, count: nat)
    requires pos <= |d| && Broken(d, pos)
    ensures RecordsAt(d, pos, count) == []
  {
    if count > 0 {
      RecordsStep(d, pos, count);
    }
  }

  /** The records read are those up to the first broken one, and no more than
      the header claims. */
  lemma {:induction false} RecordsStop(d: Bytes, pos: nat, rs: seq<Record>, end: nat, count: nat)
    requires LaidOut(d, pos, rs) && end == pos + RecordsSize(rs) <= |d| && Broken(d, end)
    ensures RecordsAt(d, pos, count) == Upto(rs, count)
    decreases |rs|
  {
    if rs == [] {
      BrokenStops(d, end, count);
    } else if count > 0 {
      RecordsStop(d, pos + 8 + |rs[0].data|, rs[1..], end, count - 1);
      OneRecord(d, pos, rs[0], count);
      UptoNext(rs, count);
    }
  }

  lemma OneRecord(d: Bytes, pos: nat, r: Record, count: nat)
    requires IsRecord(d, pos, r) && count > 0
    ensures RecordsAt(d, pos, count) == [r] + RecordsAt(d, pos + 8 + |r.data|, count - 1)
  {
    RecordsStep(d, pos, count);
  }

  lemma ExthParts(before: Bytes, sign: Bytes, length: Bytes, count: Bytes, records: Bytes, tail: Bytes)
    requires |sign| == 4 && |length| == 4 && |count| == 4
    ensures var d, at := before + (sign + length + count + records + tail), |before|;
      d[at..at + 4] == sign && d[at + 8..at + 12] == count && d[at + 12..at + 12 + |records|] == records
  {
  }

  lemma ExthCount(before: Bytes, sign: Bytes, length: Bytes, n: nat, records: Bytes, tail: Bytes)
    requires |sign| == 4 && |length| == 4 && n < 0x1_0000_0000
    ensures var d, at := before + (sign + length + BE32(n) + records + tail), |before|;
      && d[at..at + 4] == sign && Uint32At(d, at + 8) as nat == n
      && d[at + 12..at + 12 + |records|] == records
  {
    ExthParts(before, sign, length, BE32(n), records, tail);
    ReadBE32(before + (sign + length + BE32(n) + records + tail), |before| + 8, n);
  }

  lemma RecordsReadBack(d: Bytes, pos: nat, rs: seq<Record>)
    requires RecordsSize(rs) <= LIMIT && pos + RecordsSize(rs) <= |d|
    requires d[pos..pos + RecordsSize(rs)] == EncodeRecords(rs)
    ensures RecordsAt(d, pos, |rs|) == rs
  {
    EncodedIsLaidOut(d, pos, rs);
    ReadRecords(d, pos, rs);
  }

  lemma ReadExthBlock(d: Bytes, at: nat, rs: seq<Record>)
    requires at + 12 + RecordsSize(rs) <= |d| && RecordsSize(rs) <= LIMIT
    requires d[at..at + 4] == EXTH && Uint32At(d, at + 8) as nat == |rs|
    requires d[at + 12..at + 12 + RecordsSize(rs)] == EncodeRecords(rs)
    ensures ExthRecords(d, at) == rs
  {
    RecordsReadBack(d, at + 12, rs);
  }

  lemma ExthFields(l: Layout, before: Bytes)
    requires Valid(l) && |before| == Offset(l) + 24 + |l.header|
    ensures ExthRecords(before + ExthBlock(l), |before|) == Records(l)
  {
    if l.exth.None? {
      assert 12 <= |l.body| ==> (before + l.body)[|before|..|before| + 4] == l.body[..4];
    } else {
      var x := l.exth.value;
      ManyRecords(x.records);
      ExthCount(before, EXTH, x.length, |x.records|, EncodeRecords(x.records), x.tail);
      ReadExthBlock(before + ExthBlock(l), |before|, x.records);
    }
  }

  function Records(l: Layout): seq<Record> {
    if l.exth.Some? then l.exth.value.records else []
  }

  /** The fields a reader should find in a layout. */
  function Written(l: Layout, ext: Bytes, parseDate: DateParser): Parsed {
    var fields := Fields(if ext != [] && ext[0] == 0x2E then ext[1..] else ext, Records(l), parseDate);
    if fields.title == [] then fields.(title := l.name) else fields
  }

  /** The checks and offsets of the parser on a file with these contents. */
  lemma Navigate(d: Bytes, off: nat, entries: nat, h: nat)
    requires off + 24 + h <= |d| && 78 + 8 * entries <= |d| && 1 <= entries && 82 <= |d|
    requires Uint16At(d, 76) == entries && Uint32At(d, 78) as nat == off
    requires d[off + 16..off + 20] == MOBI && Uint32At(d, off + 20) as nat == 8 + h
    ensures Check(d).None? && ExthStart(d) == off + 24 + h
  {
  }

  lemma Assemble(d: Bytes, start: nat, name: Bytes, rs: seq<Record>, ext: Bytes, parseDate: DateParser)
    requires |d| <= LIMIT && Check(d).None? && ExthStart(d) == start
    requires TrimNuls(d[..32]) == name && ExthRecords(d, start) == rs
    ensures Meaning(d, ext, parseDate) == Ok(Titled(Fields(Format(ext), rs, parseDate), name))
  {
    AbsorbedFields(Format(ext), rs, parseDate);
  }

  /** What the parser finds where in an encoded layout. */
  lemma Found(l: Layout, d: Bytes, before: Bytes)
    requires Valid(l) && before == Front(l) + Start0(l) && d == before + ExthBlock(l)
    ensures Check(d).None? && ExthStart(d) == |before|
    ensures d[..32] == NameField(l) && ExthRecords(d, |before|) == Records(l)
  {
    var front, start, block := Front(l), Start0(l), ExthBlock(l);
    assert d == front + (start + block);
    FrontFields(l, start + block);
    Start0Fields(l, front, block);
    ExthFields(l, before);
    Navigate(d, Offset(l), 1 + |l.otherEntries| / 8, |l.header|);
  }

  /** MOBI round trip: whatever name, padding, extra records, gap, header
      length, EXTH records and trailing bytes a file within 256 KiB is laid
      out with, parsing it returns exactly the fields that were written. */
  lemma RoundTrip(l: Layout, ext: Bytes, parseDate: DateParser)
    requires Valid(l)
    ensures Meaning(Encode(l), ext, parseDate) == Ok(Written(l, ext, parseDate))
  {
    var before := Front(l) + Start0(l);
    Found(l, Encode(l), before);
    TrimNulsOfPadded(l.name, 32 - |l.name|);
    Assemble(Encode(l), |before|, l.name, Records(l), ext, parseDate);
  }

  // ---- files of any length ---------------------------------------------------------------

  /** The same layout with more bytes at its end. */
  function Longer(l: Layout, more: Bytes): Layout {
    if l.exth.Some? then l.(exth := Some(l.exth.value.(tail := l.exth.value.tail + more)))
    else l.(body := l.body + more)
  }

  /** These bytes would be taken for an EXTH block. */
  predicate OpensExth(b: Bytes) { 12 <= |b| && b[..4] == EXTH }

  lemma LongerParts(l: Layout, more: Bytes)
    requires Valid(l) && Valid(Longer(l, more))
    ensures Front(Longer(l, more)) == Front(l) && Start0(Longer(l, more)) == Start0(l)
    ensures ExthBlock(Longer(l, more)) == ExthBlock(l) + more
  {
    if l.exth.Some? {
      var x := l.exth.value;
      ManyRecords(x.records);
      Regroup(EXTH + x.length + BE32(|x.records|) + EncodeRecords(x.records), x.tail, more);
    }
  }

  lemma LongerEncodes(l: Layout, more: Bytes)
    requires Valid(l) && Size(l) + |more| <= LIMIT && (l.exth.None? ==> !OpensExth(l.body + more))
    ensures Valid(Longer(l, more)) && Encode(Longer(l, more)) == Encode(l) + more
  {
    LongerParts(l, more);
    Regroup(Front(l) + Start0(l), ExthBlock(l), more);
  }

  /** The round trip for a book of any length: only the first 256 KiB have to
      hold the headers and records, anything may follow. */
  lemma RoundTripOfAnyLength(l: Layout, tail: Bytes, ext: Bytes, parseDate: DateParser)
    requires Valid(l) && (l.exth.None? ==> !OpensExth(l.body + tail))
    ensures Meaning(Encode(l) + tail, ext, parseDate) == Ok(Written(l, ext, parseDate))
  {
    var m := if |tail| <= LIMIT - Size(l) then |tail| else LIMIT - Size(l);
    var more := tail[..m];
    assert l.exth.None? ==> (l.body + more) == (l.body + tail)[..|l.body| + m];
    LongerEncodes(l, more);
    RoundTrip(Longer(l, more), ext, parseDate);
    FirstPart(Encode(l), tail, m);
    OnlyTheHeadCounts(Encode(l) + tail, Encode(l) + more, ext, parseDate);
  }

  lemma FirstPart(a: Bytes, tail: Bytes, m: nat)
    requires |a| <= LIMIT && m == if |tail| <= LIMIT - |a| then |tail| else LIMIT - |a|
    ensures Head(a + tail) == a + tail[..m] && Head(a + tail[..m]) == a + tail[..m]
  {
  }

  /** ParseMOBI on what was laid out, however long the file is. */
  method ParseWritten(l: Layout, file: Bytes, ext: Bytes, parseDate: DateParser) returns (r: Result)
    requires Valid(l) && Encode(l) <= file
    requires l.exth.None? ==> !OpensExth(l.body + file[Size(l)..])
    ensures r == Ok(Written(l, ext, parseDate))
  {
    assert file == Encode(l) + file[Size(l)..];
    RoundTripOfAnyLength(l, file[Size(l)..], ext, parseDate);
    var turns;
    r, turns := ParseMOBI(file, ext, parseDate);
  }
}
