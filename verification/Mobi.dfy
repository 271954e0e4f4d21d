/** ParseMOBI: metadata of a MOBI/AZW file, read from untrusted bytes with
    32-bit offsets. */
module Mobi {
  import opened Collections

  newtype byte = x: int | 0 <= x < 256
  newtype uint32 = x: int | 0 <= x < 0x1_0000_0000

  type Bytes = seq<byte>

  const LIMIT := 262144 // 256 KiB
  const MOBI: Bytes := [0x4D, 0x4F, 0x42, 0x49]
  const EXTH: Bytes := [0x45, 0x58, 0x54, 0x48]

  datatype Error = TooShort | InvalidRecordList | Record0OutOfRange | SignatureMismatch

  /** publishedAt is whatever the date parser made of the last date it accepted. */
  datatype Parsed = Parsed(
    format: Bytes, title: Bytes, authors: seq<Bytes>, publisher: Bytes, description: Bytes,
    isbn: Bytes, publishedAt: Option<int>, asin: Bytes)

  datatype Result = Ok(p: Parsed) | Err(e: Error)

  datatype Record = Record(kind: uint32, data: Bytes)

  type DateParser = Bytes -> Option<int>

  // ---- byte strings -------------------------------------------------------------

  /** Width of a UTF-8 encoded white space character, 0 if it is none. */
  function SpaceWidth(s: Bytes): nat {
    if |s| == 1 && (9 <= s[0] <= 13 || s[0] == 32) then 1
    else if |s| == 2 && s[0] == 0xC2 && (s[1] == 0x85 || s[1] == 0xA0) then 2
    else if |s| == 3 && (|| (s[0] == 0xE1 && s[1] == 0x9A && s[2] == 0x80)
                         || (s[0] == 0xE2 && s[1] == 0x80 && (0x80 <= s[2] <= 0x8A || s[2] == 0xA8 || s[2] == 0xA9 || s[2] == 0xAF))
                         || (s[0] == 0xE2 && s[1] == 0x81 && s[2] == 0x9F)
                         || (s[0] == 0xE3 && s[1] == 0x80 && s[2] == 0x80)) then 3
    else 0
  }

  /** How many bytes at the start, or at the end, are one character that width
      recognises; 0 if none are. */
  function FirstWidth(width: Bytes -> nat, s: Bytes): (w: nat)
    ensures w <= |s|
  {
    if |s| >= 1 && width(s[..1]) == 1 then 1
    else if |s| >= 2 && width(s[..2]) == 2 then 2
    else if |s| >= 3 && width(s[..3]) == 3 then 3
    else 0
  }

  function LastWidth(width: Bytes -> nat, s: Bytes): (w: nat)
    ensures w <= |s|
  {
    if |s| >= 1 && width(s[|s| - 1..]) == 1 then 1
    else if |s| >= 2 && width(s[|s| - 2..]) == 2 then 2
    else if |s| >= 3 && width(s[|s| - 3..]) == 3 then 3
    else 0
  }

  function TrimLeft(width: Bytes -> nat, s: Bytes): Bytes {
    var w := FirstWidth(width, s);
    if w > 0 then TrimLeft(width, s[w..]) else s
  }

  function TrimRight(width: Bytes -> nat, s: Bytes): Bytes {
    var w := LastWidth(width, s);
    if w > 0 then TrimRight(width, s[..|s| - w]) else s
  }

  /** strings.TrimSpace on the bytes of a string. */
  function Trim(s: Bytes): Bytes {
    TrimRight(SpaceWidth, TrimLeft(SpaceWidth, s))
  }

  /** Encoded characters that width recognises. */
  predicate Recognised(width: Bytes -> nat, cs: seq<Bytes>) {
    forall c | c in cs :: |c| > 0 && width(c) == |c|
  }

  lemma FirstWidthMeans(width: Bytes -> nat, s: Bytes)
    ensures var w := FirstWidth(width, s);
      && s[..w] + s[w..] == s
      && (w > 0 ==> width(s[..w]) == w)
  {
  }

  /** One turn of TrimRight: the character it drops, if any. */
  lemma LastDropped(width: Bytes -> nat, s: Bytes) returns (front: Bytes, c: Bytes)
    ensures s == front + c
    ensures if c == [] then TrimRight(width, s) == s && LastWidth(width, s) == 0
            else width(c) == |c| && TrimRight(width, s) == TrimRight(width, front)
  {
    var n := |s| - LastWidth(width, s);
    front, c := s[..n], s[n..];
  }

  lemma FirstWidthOfPrefix(width: Bytes -> nat, s: Bytes, m: nat)
    requires FirstWidth(width, s) == 0 && m <= |s|
    ensures FirstWidth(width, s[..m]) == 0
  {
    if m >= 1 { TakeTake(s, m, 1); }
    if m >= 2 { TakeTake(s, m, 2); }
    if m >= 3 { TakeTake(s, m, 3); }
  }

  lemma {:induction false} TrimLeftMeans(width: Bytes -> nat, s: Bytes) returns (cs: seq<Bytes>)
    ensures Recognised(width, cs) && s == Concat(cs) + TrimLeft(width, s)
    ensures FirstWidth(width, TrimLeft(width, s)) == 0
  {
    var w := FirstWidth(width, s);
    cs := [];
    if w > 0 {
      FirstWidthMeans(width, s);
      var c := s[..w];
      var rest := TrimLeftMeans(width, s[w..]);
      cs := [c] + rest;
      Regroup(c, Concat(rest), TrimLeft(width, s));
    }
  }

  lemma {:induction false} TrimRightMeans(width: Bytes -> nat, s: Bytes) returns (cs: seq<Bytes>)
    ensures Recognised(width, cs) && s == TrimRight(width, s) + Concat(cs)
    decreases |s|
  {
    var front, c := LastDropped(width, s);
    if c == [] {
      cs := [];
    } else {
      var rest := TrimRightMeans(width, front);
      cs := rest + [c];
      ConcatNext(rest, c);
      Regroup(TrimRight(width, s), Concat(rest), c);
    }
  }

  lemma {:induction false} TrimRightEnds(width: Bytes -> nat, s: Bytes)
    ensures LastWidth(width, TrimRight(width, s)) == 0
    decreases |s|
  {
    var front, c := LastDropped(width, s);
    if c != [] {
      TrimRightEnds(width, front);
    }
  }

  lemma TrimBothMeans(width: Bytes -> nat, s: Bytes) returns (left: seq<Bytes>, right: seq<Bytes>)
    ensures Recognised(width, left) && Recognised(width, right)
    ensures var t := TrimRight(width, TrimLeft(width, s));
      && s == Concat(left) + t + Concat(right)
      && FirstWidth(width, t) == 0 && LastWidth(width, t) == 0
  {
    left := TrimLeftMeans(width, s);
    var u := TrimLeft(width, s);
    right := TrimRightMeans(width, u);
    TrimRightEnds(width, u);
    var t := TrimRight(width, u);
    Regroup(Concat(left), t, Concat(right));
    assert u[..|t|] == t;
    FirstWidthOfPrefix(width, u, |t|);
  }

  /** Trimming cuts white space characters off both ends, until neither end is one. */
  lemma TrimMeans(s: Bytes) returns (left: seq<Bytes>, right: seq<Bytes>)
    ensures s == Concat(left) + Trim(s) + Concat(right)
    ensures Recognised(SpaceWidth, left) && Recognised(SpaceWidth, right)
    ensures FirstWidth(SpaceWidth, Trim(s)) == 0 && LastWidth(SpaceWidth, Trim(s)) == 0
  {
    left, right := TrimBothMeans(SpaceWidth, s);
  }

  /** bytes.TrimRight(s, "\x00"). */
  function TrimNuls(s: Bytes): Bytes {
    if s != [] && s[|s| - 1] == 0 then TrimNuls(s[..|s| - 1]) else s
  }

  function Uint16At(d: Bytes, i: nat): nat
    requires i + 2 <= |d|
  {
    d[i] as nat * 0x100 + d[i + 1] as nat
  }

  function Uint32At(d: Bytes, i: nat): uint32
    requires i + 4 <= |d|
  {
    (d[i] as nat * 0x100_0000 + d[i + 1] as nat * 0x1_0000 + d[i + 2] as nat * 0x100 + d[i + 3] as nat) as uint32
  }

  // ---- what the EXTH block means ---------------------------------------------------

  /** The complete records at pos, at most count of them. */
  function RecordsAt(d: Bytes, pos: nat, count: nat): seq<Record>
    requires pos <= |d|
    decreases count
  {
    if count == 0 || pos + 8 > |d| then [] else
    var len := Uint32At(d, pos + 4) as nat;
    if len < 8 || pos + len > |d| then [] else
    [Record(Uint32At(d, pos), d[pos + 8..pos + len])] + RecordsAt(d, pos + len, count - 1)
  }

  /** One step of the record loop: the next record, or none. */
  lemma RecordsStep(d: Bytes, pos: nat, count: nat)
    requires pos <= |d| && count > 0
    ensures
      if pos + 8 <= |d| && Uint32At(d, pos + 4) >= 8 && pos + Uint32At(d, pos + 4) as nat <= |d| then
        RecordsAt(d, pos, count) == [Record(Uint32At(d, pos), d[pos + 8..pos + Uint32At(d, pos + 4) as nat])]
                                      + RecordsAt(d, pos + Uint32At(d, pos + 4) as nat, count - 1)
      else RecordsAt(d, pos, count) == []
  {
  }

  lemma MoveOver(done: seq<Record>, r: Record, rest: seq<Record>)
    ensures done + ([r] + rest) == (done + [r]) + rest
  {
  }

  function Absorb(p: Parsed, r: Record, parseDate: DateParser): Parsed {
    var text := Trim(r.data);
    if r.kind == 100 then p.(authors := p.authors + [text])
    else if r.kind == 101 then p.(publisher := text)
    else if r.kind == 103 then p.(description := text)
    else if r.kind == 104 then p.(isbn := text)
    else if r.kind == 106 then if parseDate(text).Some? then p.(publishedAt := parseDate(text)) else p
    else if r.kind == 113 then p.(asin := text)
    else if r.kind == 503 then p.(title := text)
    else p
  }

  function AbsorbAll(p: Parsed, rs: seq<Record>, parseDate: DateParser): Parsed {
    if rs == [] then p else Absorb(AbsorbAll(p, rs[..|rs| - 1], parseDate), rs[|rs| - 1], parseDate)
  }

  lemma AbsorbNext(p: Parsed, rs: seq<Record>, r: Record, parseDate: DateParser)
    ensures AbsorbAll(p, rs + [r], parseDate) == Absorb(AbsorbAll(p, rs, parseDate), r, parseDate)
  {
    assert (rs + [r])[..|rs|] == rs;
  }

  function Blank(format: Bytes): Parsed {
    Parsed(format, [], [], [], [], [], None, [])
  }

  function Titled(p: Parsed, pdbName: Bytes): Parsed {
    if p.title == [] then p.(title := pdbName) else p
  }

  function Format(ext: Bytes): Bytes {
    if ext != [] && ext[0] == 0x2E then ext[1..] else ext
  }

  // ---- the parser ---------------------------------------------------------------------

  /** Where the EXTH block of a well-formed file starts: after the MOBI header,
      whose claimed length is cut off at the end of the data. */
  function ExthStart(d: Bytes): nat
    requires 82 <= |d| && Uint32At(d, 78) as nat + 24 <= |d|
  {
    var off := Uint32At(d, 78) as nat;
    var end := off + 16 + Uint32At(d, off + 20) as nat;
    if end > |d| then |d| else end
  }

  predicate HasExth(d: Bytes, start: nat) {
    start + 12 <= |d| && d[start..start + 4] == EXTH
  }

  function Check(d: Bytes): Option<Error> {
    if |d| < 78 then Some(TooShort)
    else if Uint16At(d, 76) < 1 || |d| < 78 + 8 * Uint16At(d, 76) then Some(InvalidRecordList)
    else if Uint32At(d, 78) as nat + 24 > |d| then Some(Record0OutOfRange)
    else
      var off := Uint32At(d, 78) as nat;
      if d[off + 16..off + 20] != MOBI then Some(SignatureMismatch) else None
  }

  function Head(file: Bytes): Bytes {
    if |file| > LIMIT then file[..LIMIT] else file
  }

  /** The records of the EXTH block, if there is one. */
  function ExthRecords(d: Bytes, start: nat): seq<Record>
    requires start <= |d|
  {
    if HasExth(d, start) then RecordsAt(d, start + 12, Uint32At(d, start + 8) as nat) else []
  }

  function MeaningOf(d: Bytes, ext: Bytes, parseDate: DateParser): Parsed
    requires Check(d).None?
  {
    Titled(AbsorbAll(Blank(Format(ext)), ExthRecords(d, ExthStart(d)), parseDate), TrimNuls(d[..32]))
  }

  function Meaning(file: Bytes, ext: Bytes, parseDate: DateParser): Result {
    var d := Head(file);
    if Check(d).Some? then Err(Check(d).value) else Ok(MeaningOf(d, ext, parseDate))
  }

  /** Of a longer file only the first 256 KiB count. */
  lemma OnlyTheHeadCounts(file: Bytes, other: Bytes, ext: Bytes, parseDate: DateParser)
    requires Head(file) == Head(other)
    ensures Meaning(file, ext, parseDate) == Meaning(other, ext, parseDate)
  {
  }

  lemma LongFilesAgree(file: Bytes, other: Bytes, ext: Bytes, parseDate: DateParser)
    requires |file| >= 262144 && |other| >= 262144 && file[..262144] == other[..262144]
    ensures Meaning(file, ext, parseDate) == Meaning(other, ext, parseDate)
  {
    assert Head(file) == file[..262144] && Head(other) == other[..262144];
  }

  /** Which error a file is refused with, in bytes at fixed places: the number of
      records at 76, the start of record 0 at 78, its signature 16 bytes in. */
  lemma ErrorsMean(file: Bytes, ext: Bytes, parseDate: DateParser)
    ensures var r, h := Meaning(file, ext, parseDate), if |file| > 262144 then 262144 else |file|;
      if h < 78 then r == Err(TooShort)
      else
        var records := file[76] as int * 256 + file[77] as int;
        if records == 0 || h < 78 + 8 * records then r == Err(InvalidRecordList)
        else
          var off := file[78] as int * 16777216 + file[79] as int * 65536 + file[80] as int * 256 + file[81] as int;
          if h < off + 24 then r == Err(Record0OutOfRange)
          else if file[off + 16..off + 20] != [0x4D, 0x4F, 0x42, 0x49] then r == Err(SignatureMismatch)
          else r.Ok?
  {
    if |file| <= 262144 {
      CheckMeans(file, file, |file|);
    } else {
      CheckMeans(file[..262144], file, 262144);
    }
  }

  lemma CheckMeans(d: Bytes, file: Bytes, h: nat)
    requires h <= |file| && d == file[..h]
    ensures
      if h < 78 then Check(d) == Some(TooShort)
      else
        var records := file[76] as int * 256 + file[77] as int;
        if records == 0 || h < 78 + 8 * records then Check(d) == Some(InvalidRecordList)
        else
          var off := file[78] as int * 16777216 + file[79] as int * 65536 + file[80] as int * 256 + file[81] as int;
          if h < off + 24 then Check(d) == Some(Record0OutOfRange)
          else if file[off + 16..off + 20] != [0x4D, 0x4F, 0x42, 0x49] then Check(d) == Some(SignatureMismatch)
          else Check(d).None?
  {
    if h >= 86 {
      assert d[76] == file[76] && d[77] == file[77];
      assert d[78] == file[78] && d[79] == file[79] && d[80] == file[80] && d[81] == file[81];
      var off := Uint32At(d, 78) as nat;
      if off + 24 <= h {
        TakeSlice(file, h, off + 16, off + 20);
      }
    }
  }

  lemma {:induction false} FormatStays(p: Parsed, rs: seq<Record>, parseDate: DateParser)
    ensures AbsorbAll(p, rs, parseDate).format == p.format
  {
    if rs != [] {
      FormatStays(p, rs[..|rs| - 1], parseDate);
    }
  }

  /** A MOBI header that claims to reach the end of the data, or less than twelve
      bytes before it, leaves no room for EXTH: the title is the PDB name and
      nothing else is known. */
  lemma HeaderPastEnd(d: Bytes, ext: Bytes, parseDate: DateParser)
    requires |d| <= LIMIT && Check(d).None?
    requires Uint32At(d, 78) as nat + 16 + Uint32At(d, Uint32At(d, 78) as nat + 20) as nat + 12 > |d|
    ensures Meaning(d, ext, parseDate) == Ok(Blank(Format(ext)).(title := TrimNuls(d[..32])))
  {
  }

  /** The switch over record types. */
  method AssignField(p: Parsed, recType: uint32, recData: Bytes, parseDate: DateParser) returns (out: Parsed)
    ensures out == Absorb(p, Record(recType, recData), parseDate)
  {
    out := p;
    match recType
    case 100 => out := out.(authors := out.authors + [Trim(recData)]);
    case 101 => out := out.(publisher := Trim(recData));
    case 103 => out := out.(description := Trim(recData));
    case 104 => out := out.(isbn := Trim(recData));
    case 106 =>
      var t := parseDate(Trim(recData));
      if t.Some? {
        out := out.(publishedAt := t);
      }
    case 113 => out := out.(asin := Trim(recData));
    case 503 => out := out.(title := Trim(recData));
    case _ =>
  }

  /** The record at pos, and where it ends; the data end here if there is none. */
  method ReadRecord(data: Bytes, pos: uint32, ghost count: nat) returns (r: Option<Record>, end: uint32)
    requires |data| <= LIMIT && pos as nat <= |data| && count > 0
    ensures r.None? ==> RecordsAt(data, pos as nat, count) == []
    ensures r.Some? ==>
      && pos as nat + 8 <= end as nat <= |data|
      && RecordsAt(data, pos as nat, count) == [r.value] + RecordsAt(data, end as nat, count - 1)
  {
    RecordsStep(data, pos as nat, count);
    if pos as int + 8 > |data| {
      return None, pos;
    }
    var recType := Uint32At(data, pos as nat);
    var recLen := Uint32At(data, (pos + 4) as nat);
    if recLen < 8 || pos as int + recLen as int > |data| {
      return None, pos;
    }
    r, end := Some(Record(recType, data[pos + 8..pos + recLen])), pos + recLen;
  }

  /** The record loop, with pos and i in 32 bits. */
  method ReadExth(data: Bytes, exthStart: uint32, p: Parsed, parseDate: DateParser) returns (out: Parsed, turns: nat)
    requires |data| <= LIMIT && exthStart as nat + 12 <= |data|
    ensures var count := Uint32At(data, exthStart as nat + 8) as nat;
      && out == AbsorbAll(p, RecordsAt(data, exthStart as nat + 12, count), parseDate)
      && turns == |RecordsAt(data, exthStart as nat + 12, count)|
      && turns <= count
    ensures 12 + 8 * turns <= |data|
  {
    var exthCount := Uint32At(data, (exthStart + 8) as nat);
    out, turns := ReadRecordList(data, exthStart + 12, exthCount, p, parseDate);
  }

  method ReadRecordList(data: Bytes, start: uint32, exthCount: uint32, p: Parsed, parseDate: DateParser)
    returns (out: Parsed, turns: nat)
    requires |data| <= LIMIT && start as nat <= |data|
    ensures var rs := RecordsAt(data, start as nat, exthCount as nat);
      out == AbsorbAll(p, rs, parseDate) && turns == |rs| <= exthCount as nat
    ensures start as nat + 8 * turns <= |data|
  {
    var pos := start;
    ghost var rs := RecordsAt(data, pos as nat, exthCount as nat);
    ghost var done, rest, left := [], rs, exthCount as nat;
    out, turns := p, 0;
    var i: uint32 := 0;
    while i < exthCount
      invariant i <= exthCount && turns == i as nat == |done| && left == exthCount as nat - turns
      invariant start as nat + 8 * turns <= pos as nat <= |data|
      invariant rest == RecordsAt(data, pos as nat, left) && done + rest == rs
      invariant out == AbsorbAll(p, done, parseDate)
    {
      var rec, end := ReadRecord(data, pos, left);
      if rec.None? {
        break;
      }
      out := AssignField(out, rec.value.kind, rec.value.data, parseDate);
      AbsorbNext(p, done, rec.value, parseDate);
      left := left - 1;
      MoveOver(done, rec.value, RecordsAt(data, end as nat, left));
      done, rest := done + [rec.value], RecordsAt(data, end as nat, left);
      pos := end;
      i := i + 1;
      turns := turns + 1;
    }
    assert done == rs;
  }

  /** ParseMOBI from the checked record list on. */
  method ParseRecord0(data: Bytes, out0: Parsed, pdbName: Bytes, parseDate: DateParser) returns (out: Parsed, turns: nat)
    requires |data| <= LIMIT && Check(data).None? && out0.title == []
    ensures out == Titled(AbsorbAll(out0, ExthRecords(data, ExthStart(data)), parseDate), pdbName)
    ensures turns > 0 ==> 12 + 8 * turns <= |data|
  {
    var rec0Offset := Uint32At(data, 78);
    var mobiHeaderLen := Uint32At(data, (rec0Offset + 20) as nat);
    var mobiEnd64 := rec0Offset as int + 16 + mobiHeaderLen as int;
    if mobiEnd64 > |data| {
      mobiEnd64 := |data|;
    }
    var exthStart := mobiEnd64 as uint32;
    assert exthStart as nat == ExthStart(data);
    if exthStart as int + 12 > |data| || data[exthStart..exthStart + 4] != EXTH {
      return out0.(title := pdbName), 0;
    }
    out, turns := ReadExth(data, exthStart, out0, parseDate);
    if out.title == [] {
      out := out.(title := pdbName);
    }
  }

  /** No input makes an access go out of bounds or a 32-bit sum wrap (the
      subset types leave that to be proved here), and the record loop runs
      within the data whatever count the header claims. */
  method ParseMOBI(file: Bytes, ext: Bytes, parseDate: DateParser) returns (r: Result, turns: nat)
    ensures r == Meaning(file, ext, parseDate)
    ensures |file| > 262144 ==> r == Meaning(file[..262144], ext, parseDate)
    ensures r.Ok? ==> r.p.format == if |ext| > 0 && ext[0] == 0x2E then ext[1..] else ext
    ensures turns > 0 ==> 12 + 8 * turns <= |Head(file)| <= LIMIT
  {
    var data := Head(file);
    if |data| < 78 {
      return Err(TooShort), 0;
    }
    var numRecords := Uint16At(data, 76);
    if numRecords < 1 || |data| < 78 + 8 * numRecords {
      return Err(InvalidRecordList), 0;
    }
    var rec0Offset := Uint32At(data, 78);
    if rec0Offset as int + 24 > |data| {
      return Err(Record0OutOfRange), 0;
    }
    if data[rec0Offset + 16..rec0Offset + 20] != MOBI {
      return Err(SignatureMismatch), 0;
    }
    FormatStays(Blank(Format(ext)), ExthRecords(data, ExthStart(data)), parseDate);
    var out;
    out, turns := ParseRecord0(data, Blank(Format(ext)), TrimNuls(data[0..32]), parseDate);
    r := Ok(out);
  }
}
