/** The TIFF reader of system_hw01/tiff.c: readFD decodes the 8-byte header,
    follows the chain of image file directories (IFDs), keeps the eight tags
    it knows, assembles the strips and unpacks 1-bit images to one byte per
    pixel; tiffErrorF names an error code.

    The descriptor is a byte sequence: readAll(fd, buf, n) at the current
    position succeeds when n > 0 bytes are there, and lseek always succeeds.
    The machine the reader runs on is little-endian, as the raw reads of
    multi-byte fields assume. Where the C code reads uninitialised memory or
    outside a buffer, the outcome is `Unmodelled`. */
module Tiff {
  import opened Wrappers

  // ---------------------------------------------------------------------------
  // Multi-byte fields

  /** The file's byte order. */
  datatype Order = Little | Big

  const UINT16: nat := 0x1_0000
  const UINT32: nat := 0x1_0000_0000

  /** A 16-bit field read straight into memory on a little-endian host. */
  function Host16(b: seq<Byte>): (v: nat)
    requires |b| >= 2
    ensures v < UINT16
  {
    b[0] as int + 0x100 * b[1] as int
  }

  /** A 32-bit field read straight into memory on a little-endian host. */
  function Host32(b: seq<Byte>): (v: nat)
    requires |b| >= 4
    ensures v < UINT32
  {
    b[0] as int + 0x100 * b[1] as int + 0x1_0000 * b[2] as int + 0x100_0000 * b[3] as int
  }

  /** le16toh / be16toh of a raw 16-bit field. */
  function Get16(b: seq<Byte>, order: Order): (v: nat)
    requires |b| >= 2
    ensures v < UINT16
  {
    if order == Little then Host16(b) else 0x100 * b[0] as int + b[1] as int
  }

  /** le32toh / be32toh of a raw 32-bit field. */
  function Get32(b: seq<Byte>, order: Order): (v: nat)
    requires |b| >= 4
    ensures v < UINT32
  {
    if order == Little then Host32(b)
    else 0x100_0000 * b[0] as int + 0x1_0000 * b[1] as int + 0x100 * b[2] as int + b[3] as int
  }

  /** How a 16-bit value is laid out in a file of the given order. */
  function Put16(v: nat, order: Order): (b: seq<Byte>)
    requires v < UINT16
    ensures |b| == 2
  {
    var lo, hi := (v % 0x100) as Byte, (v / 0x100) as Byte;
    if order == Little then [lo, hi] else [hi, lo]
  }

  /** How a 32-bit value is laid out in a file of the given order. */
  function Put32(v: nat, order: Order): (b: seq<Byte>)
    requires v < UINT32
    ensures |b| == 4
  {
    var lo, hi := Put16(v % UINT16, order), Put16(v / UINT16, order);
    if order == Little then lo + hi else hi + lo
  }

  lemma Get16Put16(v: nat, order: Order)
    requires v < UINT16
    ensures Get16(Put16(v, order), order) == v
  {
  }

  lemma Get32Put32(v: nat, order: Order)
    requires v < UINT32
    ensures Get32(Put32(v, order), order) == v
  {
    var lo, hi := Put16(v % UINT16, order), Put16(v / UINT16, order);
    Get16Put16(v % UINT16, order);
    Get16Put16(v / UINT16, order);
    var b := Put32(v, order);
    if order == Little {
      assert b[..2] == lo && b[2..] == hi;
      assert Get32(b, order) == Get16(lo, order) + UINT16 * Get16(hi, order);
    } else {
      assert b[..2] == hi && b[2..] == lo;
      assert Get32(b, order) == UINT16 * Get16(hi, order) + Get16(lo, order);
    }
  }

  /** On the little-endian host, converting from little-endian does nothing:
      a raw read agrees with a little-endian file and only with it. */
  lemma RawIsLittle(b: seq<Byte>)
    requires |b| >= 4
    ensures Host16(b) == Get16(b, Little) && Host32(b) == Get32(b, Little)
    ensures Host32(b) == Get32(b, Big) <==> b[0] == b[3] && b[1] == b[2]
  {
  }

  // ---------------------------------------------------------------------------
  // Errors

  /** enum tiffErrorE. */
  const UNKNOWN_BYTE_ORDER: int := 1
  const READ_ERROR: int := 2
  const SEEK_ERROR: int := 3
  const UNKNOWN_COLOR_SPACE: int := 4
  const MALLOC_ERROR: int := 5

  /** struct tiffError; None is a field readFD leaves as it was (main's
      struct is uninitialised) or fills with uninitialised memory. */
  datatype TiffError = TiffError(data: Option<nat>, error: Option<int>)

  /** tiffErrorF: the fixed text of every error code; for any other value
      the switch falls off the end and returns no string. */
  function ErrorText(code: int): (s: Option<string>)
    ensures s.Some? <==> UNKNOWN_BYTE_ORDER <= code <= MALLOC_ERROR
  {
    if code == UNKNOWN_BYTE_ORDER then Some("UNKNOWN BYTE ORDER")
    else if code == READ_ERROR then Some("FILE READ ERROR")
    else if code == SEEK_ERROR then Some("FILE SEEK ERROR")
    else if code == UNKNOWN_COLOR_SPACE then Some("UNKNOWN COLOR SPACE")
    else if code == MALLOC_ERROR then Some("MALLOC ERROR")
    else None
  }

  /** Different codes have different texts. */
  lemma ErrorTextsDistinct(a: int, b: int)
    requires ErrorText(a).Some? && ErrorText(a) == ErrorText(b)
    ensures a == b
  {
  }

  // ---------------------------------------------------------------------------
  // Reading the file

  /** readAll(fd, buf, n) after lseek(fd, pos, SEEK_SET): read() returns 0
      at end of file, which readAll takes as an error, so it fails when
      fewer than n bytes are left and also when n is 0. */
  function Fetch(file: seq<Byte>, pos: nat, n: nat): (r: Option<seq<Byte>>)
    ensures r.Some? <==> 0 < n && pos + n <= |file|
    ensures r.Some? ==> r.value == file[pos..pos + n] && |r.value| == n
  {
    if 0 < n && pos + n <= |file| then Some(file[pos..pos + n]) else None
  }

  /** The outcome of readFD: the image it returns, NULL with the error it
      stored, no return at all (the IFD chain goes round for longer than
      the fuel) or behaviour the model does not follow. */
  datatype Outcome =
    | Decoded(image: Image)
    | Failed(err: TiffError)
    | Runaway
    | Unmodelled

  /** struct tiff: the byte order mark, the dimensions and the pixels
      (None when readFD leaves tiff->data unset). */
  datatype Image = Image(byteOrder: nat, width: nat, height: nat, data: Option<seq<Byte>>)

  /** A stage of readFD: its result, or the outcome readFD ends with. */
  datatype Res<T> = Ok(value: T) | Halt(out: Outcome)

  function ReadFailure(data: nat): Outcome {
    Failed(TiffError(Some(data), Some(READ_ERROR)))
  }

  // ---------------------------------------------------------------------------
  // The header

  const II: nat := 0x4949
  const MM: nat := 0x4D4D

  /** struct header after the byte order check. */
  datatype Header = Header(order: Order, mark: nat, ifdOffset: nat)

  /** Lines 116-132: the byte order mark decides the order of every later
      field; the version field is not looked at. */
  function HeaderOf(file: seq<Byte>): Res<Header> {
    match Fetch(file, 0, 8)
    case None => Halt(ReadFailure(8))
    case Some(h) =>
      var mark := Host16(h[..2]);
      if mark == II then Ok(Header(Little, II, Get32(h[4..8], Little)))
      else if mark == MM then Ok(Header(Big, MM, Get32(h[4..8], Big)))
      else Halt(Failed(TiffError(Some(mark), Some(UNKNOWN_BYTE_ORDER))))
  }

  /** "II" is little-endian, "MM" big-endian, anything else is an unknown
      byte order that reports the mark; the first IFD offset is the next
      32-bit field in the file's order. */
  lemma HeaderCases(file: seq<Byte>)
    requires |file| >= 8
    ensures file[0] == file[1] == 0x49 <==> HeaderOf(file).Ok? && HeaderOf(file).value.order == Little
    ensures file[0] == file[1] == 0x4D <==> HeaderOf(file).Ok? && HeaderOf(file).value.order == Big
    ensures HeaderOf(file).Ok? ==> HeaderOf(file).value.ifdOffset == Get32(file[4..8], HeaderOf(file).value.order)
    ensures HeaderOf(file).Halt? ==> HeaderOf(file).out == Failed(TiffError(Some(Host16(file)), Some(UNKNOWN_BYTE_ORDER)))
  {
    var h := file[0..8];
    assert h[..2][0] == file[0] && h[..2][1] == file[1];
    assert h[4..8] == file[4..8];
  }

  /** A file of fewer than 8 bytes fails with READ_ERROR and the header size. */
  lemma ShortHeader(file: seq<Byte>)
    requires |file| < 8
    ensures HeaderOf(file) == Halt(Failed(TiffError(Some(8), Some(READ_ERROR))))
  {
  }

  /** The version field (bytes 2 and 3) does not affect the header. */
  lemma VersionIgnored(file: seq<Byte>, x: Byte, y: Byte)
    requires |file| >= 8
    ensures HeaderOf(file[2 := x][3 := y]) == HeaderOf(file)
  {
    var g := file[2 := x][3 := y];
    assert g[0..8][..2] == file[0..8][..2];
    assert g[0..8][4..8] == file[0..8][4..8];
  }

  // ---------------------------------------------------------------------------
  // Tags

  /** enum dataType values that readFD converts. */
  const WORD: nat := 3
  const DWORD: nat := 4
  const RATIONAL: nat := 5

  /** struct tag after the byte order correction. */
  datatype Tag = Tag(id: nat, dataType: nat, count: nat, value: nat)

  /** The value field: 16-bit for WORD, 32-bit for DWORD and RATIONAL, and
      left as the raw read for every other type. */
  function ValueField(b: seq<Byte>, dataType: nat, order: Order): nat
    requires |b| == 4
  {
    if dataType == WORD then Get16(b, order)
    else if dataType == DWORD || dataType == RATIONAL then Get32(b, order)
    else Host32(b)
  }

  /** One 12-byte IFD entry, lines 177-193. */
  function DecodeTag(b: seq<Byte>, order: Order): Tag
    requires |b| == 12
  {
    var dataType := Get16(b[2..4], order);
    Tag(Get16(b[0..2], order), dataType, Get32(b[4..8], order), ValueField(b[8..12], dataType, order))
  }

  /** How an entry is written in a file of the given order: the tag id, the
      type, the count and a value field that holds a WORD in its first two
      bytes. */
  function EncodeTag(t: Tag, order: Order): (b: seq<Byte>)
    requires t.id < UINT16 && t.dataType < UINT16 && t.count < UINT32 && t.value < UINT32
    requires t.dataType == WORD ==> t.value < UINT16
    ensures |b| == 12
  {
    var field := if t.dataType == WORD then Put16(t.value, order) + [0, 0] else Put32(t.value, order);
    Put16(t.id, order) + Put16(t.dataType, order) + Put32(t.count, order) + field
  }

  /** Decoding an encoded entry gives it back, for the types readFD
      converts in either order and for every type in a little-endian file. */
  lemma {:induction false} TagRoundTrip(t: Tag, order: Order)
    requires t.id < UINT16 && t.dataType < UINT16 && t.count < UINT32 && t.value < UINT32
    requires t.dataType == WORD ==> t.value < UINT16
    requires order == Big ==> t.dataType in {WORD, DWORD, RATIONAL}
    ensures DecodeTag(EncodeTag(t, order), order) == t
  {
    var b := EncodeTag(t, order);
    var field := if t.dataType == WORD then Put16(t.value, order) + [0, 0] else Put32(t.value, order);
    assert b[0..2] == Put16(t.id, order);
    assert b[2..4] == Put16(t.dataType, order);
    assert b[4..8] == Put32(t.count, order);
    assert b[8..12] == field;
    Get16Put16(t.id, order);
    Get16Put16(t.dataType, order);
    Get32Put32(t.count, order);
    FieldRoundTrip(t.value, t.dataType, order);
    assert DecodeTag(b, order) == Tag(Get16(b[0..2], order), t.dataType, Get32(b[4..8], order), ValueField(field, t.dataType, order));
  }

  lemma FieldRoundTrip(v: nat, dataType: nat, order: Order)
    requires v < UINT32 && (dataType == WORD ==> v < UINT16)
    requires order == Big ==> dataType in {WORD, DWORD, RATIONAL}
    ensures ValueField(if dataType == WORD then Put16(v, order) + [0, 0] else Put32(v, order), dataType, order) == v
  {
    if dataType == WORD {
      Get16Put16(v, order);
      assert (Put16(v, order) + [0, 0])[..2] == Put16(v, order);
    } else {
      Get32Put32(v, order);
      RawIsLittle(Put32(v, order));
    }
  }

  /** A value of another type in a big-endian file is the raw read: the
      four bytes 00 00 00 01 give 0x1000000, not 1. */
  lemma RawValueInBigFile()
    ensures ValueField([0, 0, 0, 1], 1, Big) == 0x100_0000
  {
  }

  /** enum tagId values readFD keeps. */
  const IMAGE_WIDTH: nat := 0x100
  const IMAGE_LENGTH: nat := 0x101
  const BITS_PER_SAMPLE: nat := 0x102
  const PHOTOMETRIC_INTERPRETATION: nat := 0x106
  const STRIP_OFFSETS: nat := 0x111
  const SAMPLES_PER_PIXEL: nat := 0x115
  const ROWS_PER_STRIP: nat := 0x116
  const STRIP_BYTE_COUNTS: nat := 0x117

  predicate Known(id: nat) {
    id == IMAGE_WIDTH || id == IMAGE_LENGTH || id == BITS_PER_SAMPLE || id == PHOTOMETRIC_INTERPRETATION
    || id == STRIP_OFFSETS || id == SAMPLES_PER_PIXEL || id == ROWS_PER_STRIP || id == STRIP_BYTE_COUNTS
  }

  /** readFD's eight struct tag locals; None is one no entry has filled. */
  datatype Tags = Tags(width: Option<Tag>, height: Option<Tag>, bits: Option<Tag>, photometric: Option<Tag>,
                       stripOffsets: Option<Tag>, samples: Option<Tag>, rows: Option<Tag>, byteCounts: Option<Tag>)

  const NoTags: Tags := Tags(None, None, None, None, None, None, None, None)

  /** The local that keeps the tag with this id. */
  function Slot(ts: Tags, id: nat): Option<Tag>
    requires Known(id)
  {
    if id == IMAGE_WIDTH then ts.width
    else if id == IMAGE_LENGTH then ts.height
    else if id == BITS_PER_SAMPLE then ts.bits
    else if id == PHOTOMETRIC_INTERPRETATION then ts.photometric
    else if id == STRIP_OFFSETS then ts.stripOffsets
    else if id == SAMPLES_PER_PIXEL then ts.samples
    else if id == ROWS_PER_STRIP then ts.rows
    else ts.byteCounts
  }

  /** The switch of lines 195-237: a known tag is copied into its local. */
  function Record(ts: Tags, t: Tag): Tags {
    if t.id == IMAGE_WIDTH then ts.(width := Some(t))
    else if t.id == IMAGE_LENGTH then ts.(height := Some(t))
    else if t.id == STRIP_BYTE_COUNTS then ts.(byteCounts := Some(t))
    else if t.id == STRIP_OFFSETS then ts.(stripOffsets := Some(t))
    else if t.id == SAMPLES_PER_PIXEL then ts.(samples := Some(t))
    else if t.id == BITS_PER_SAMPLE then ts.(bits := Some(t))
    else if t.id == PHOTOMETRIC_INTERPRETATION then ts.(photometric := Some(t))
    else if t.id == ROWS_PER_STRIP then ts.(rows := Some(t))
    else ts
  }

  /** Recording a tag fills its own local and no other; an unknown tag
      changes nothing. */
  lemma RecordSlots(ts: Tags, t: Tag, id: nat)
    requires Known(id)
    ensures Slot(Record(ts, t), id) == if id == t.id then Some(t) else Slot(ts, id)
    ensures !Known(t.id) ==> Record(ts, t) == ts
  {
  }

  /** Two tags with the same id: the later one wins. */
  lemma RecordLastWins(ts: Tags, a: Tag, b: Tag)
    requires a.id == b.id
    ensures Record(Record(ts, a), b) == Record(ts, b)
  {
  }

  /** The n entries at pos, stored one after the other; None when one of
      them cannot be read. */
  function ScanTags(file: seq<Byte>, pos: nat, n: nat, order: Order, ts: Tags): Option<Tags>
    decreases n
  {
    if n == 0 then Some(ts)
    else match Fetch(file, pos, 12)
      case None => None
      case Some(b) => ScanTags(file, pos + 12, n - 1, order, Record(ts, DecodeTag(b, order)))
  }

  /** Entry k of the n entries at pos. */
  function Entry(file: seq<Byte>, pos: nat, k: nat, order: Order): Tag
    requires pos + 12 * k + 12 <= |file|
  {
    DecodeTag(file[pos + 12 * k..pos + 12 * k + 12], order)
  }

  /** The last of the first n entries at pos whose id is `id`, or `dflt`. */
  function LastEntry(file: seq<Byte>, pos: nat, n: nat, order: Order, id: nat, dflt: Option<Tag>): Option<Tag>
    requires n == 0 || pos + 12 * n <= |file|
    decreases n
  {
    if n == 0 then dflt
    else if Entry(file, pos, n - 1, order).id == id then Some(Entry(file, pos, n - 1, order))
    else LastEntry(file, pos, n - 1, order, id, dflt)
  }

  /** The entries can all be read exactly when they lie inside the file. */
  lemma {:induction false} ScanTagsReads(file: seq<Byte>, pos: nat, n: nat, order: Order, ts: Tags)
    ensures ScanTags(file, pos, n, order, ts).Some? <==> n == 0 || pos + 12 * n <= |file|
    decreases n
  {
    if n > 0 {
      if pos + 12 <= |file| {
        ScanTagsReads(file, pos + 12, n - 1, order, Record(ts, DecodeTag(file[pos..pos + 12], order)));
      }
    }
  }

  /** Peeling off the first entry of LastEntry: it becomes the default. */
  lemma {:induction false} LastEntryFirst(file: seq<Byte>, pos: nat, n: nat, order: Order, id: nat, dflt: Option<Tag>)
    requires n > 0 && pos + 12 * n <= |file|
    ensures var e := Entry(file, pos, 0, order);
      LastEntry(file, pos, n, order, id, dflt) == LastEntry(file, pos + 12, n - 1, order, id, if e.id == id then Some(e) else dflt)
    decreases n
  {
    var e := Entry(file, pos, 0, order);
    if n > 1 {
      assert Entry(file, pos, n - 1, order) == Entry(file, pos + 12, n - 2, order);
      LastEntryFirst(file, pos, n - 1, order, id, dflt);
    }
  }

  /** After the entries of a directory are stored, every known tag's local
      holds the last entry with that id, or what it held before. */
  lemma {:induction false} ScanKeepsLast(file: seq<Byte>, pos: nat, n: nat, order: Order, ts: Tags, id: nat)
    requires Known(id) && ScanTags(file, pos, n, order, ts).Some?
    ensures n == 0 || pos + 12 * n <= |file|
    ensures Slot(ScanTags(file, pos, n, order, ts).value, id) == LastEntry(file, pos, n, order, id, Slot(ts, id))
    decreases n
  {
    ScanTagsReads(file, pos, n, order, ts);
    if n > 0 {
      var e := Entry(file, pos, 0, order);
      assert file[pos..pos + 12] == file[pos + 12 * 0..pos + 12 * 0 + 12];
      RecordSlots(ts, e, id);
      ScanKeepsLast(file, pos + 12, n - 1, order, Record(ts, e), id);
      LastEntryFirst(file, pos, n, order, id, Slot(ts, id));
    }
  }

  // ---------------------------------------------------------------------------
  // The IFD chain

  /** A uint32 field readFD reads without converting it (the next IFD
      offset, the strip offset and byte count arrays): raw as written, in
      the file's order when `fixed`. */
  function Word32(b: seq<Byte>, order: Order, fixed: bool): nat
    requires |b| == 4
  {
    if fixed then Get32(b, order) else Host32(b)
  }

  /** A failed read of the next IFD offset: as written only data is set, to
      the code READ_ERROR, and the error field keeps what it held. */
  function NextOffsetFailure(fixed: bool): Outcome {
    if fixed then ReadFailure(4) else Failed(TiffError(Some(READ_ERROR), None))
  }

  /** ifd.count after readAll of an entry count at `off` failed, which is
      what lines 152-155 store in err->data. `prev` is what ifd.count held:
      the converted count of the previous IFD, or None (uninitialised) before
      the first. With one byte left in the file, readAll has read it into the
      low byte of ifd.count on the little-endian host before failing. */
  function CountLeft(file: seq<Byte>, off: nat, prev: Option<nat>): (d: Option<nat>)
    requires off + 2 > |file|
    ensures off >= |file| ==> d == prev
    ensures off + 1 == |file| && prev.Some? ==> d.Some? && d.value % 0x100 == file[off] as int && d.value / 0x100 == prev.value / 0x100
  {
    if off + 1 == |file| then
      match prev
      case None => None
      case Some(c) => Some(c / 0x100 * 0x100 + file[off] as int)
    else prev
  }

  /** One IFD, the body of the do-while of lines 139-247: the entry count
      at `off`, the entries after it stored into the tag locals, then the
      offset of the next IFD. `prev` is ifd.count before the count is read. */
  function VisitIfd(file: seq<Byte>, off: nat, order: Order, ts: Tags, prev: Option<nat>, fixed: bool): Res<Link>
  {
    match Fetch(file, off, 2)
    case None => Halt(Failed(TiffError(CountLeft(file, off, prev), Some(READ_ERROR))))
    case Some(c) =>
      var n := Get16(c, order);
      match ScanTags(file, off + 2, n, order, ts)
      case None => Halt(ReadFailure(12))
      case Some(ts') =>
        match Fetch(file, off + 2 + 12 * n, 4)
        case None => Halt(NextOffsetFailure(fixed))
        case Some(nb) => Ok(Link(ts', n, Word32(nb, order, fixed)))
  }

  /** The tag locals after an IFD, its converted entry count and the offset
      of the next one. */
  datatype Link = Link(tags: Tags, count: nat, next: nat)

  /** The do-while from the IFD at `off`, for at most `fuel` IFDs: it stops
      after an IFD whose next offset is 0. */
  function Follow(file: seq<Byte>, off: nat, order: Order, ts: Tags, prev: Option<nat>, fuel: nat, fixed: bool): Res<Tags>
    decreases fuel
  {
    if fuel == 0 then Halt(Runaway)
    else match VisitIfd(file, off, order, ts, prev, fixed)
      case Halt(o) => Halt(o)
      case Ok(l) => if l.next == 0 then Ok(l.tags) else Follow(file, l.next, order, l.tags, Some(l.count), fuel - 1, fixed)
  }

  /** More fuel changes nothing once the chain has ended. */
  lemma {:induction false} FollowFuel(file: seq<Byte>, off: nat, order: Order, ts: Tags, prev: Option<nat>, fuel: nat, more: nat, fixed: bool)
    requires more >= fuel && Follow(file, off, order, ts, prev, fuel, fixed) != Halt(Runaway)
    ensures Follow(file, off, order, ts, prev, more, fixed) == Follow(file, off, order, ts, prev, fuel, fixed)
    decreases fuel
  {
    var v := VisitIfd(file, off, order, ts, prev, fixed);
    if v.Ok? && v.value.next != 0 {
      FollowFuel(file, v.value.next, order, v.value.tags, Some(v.value.count), fuel - 1, more - 1, fixed);
    }
  }

  /** An IFD whose next offset is its own offset is read again and again:
      readFD never returns, whatever the fuel. */
  lemma {:induction false} SelfLinkedRunsAway(file: seq<Byte>, off: nat, order: Order, ts: Tags, prev: Option<nat>, fuel: nat, fixed: bool)
    requires off + 2 <= |file|
    requires var n := Get16(file[off..off + 2], order);
      off + 2 + 12 * n + 4 <= |file| && off != 0 && Word32(file[off + 2 + 12 * n..off + 2 + 12 * n + 4], order, fixed) == off
    ensures Follow(file, off, order, ts, prev, fuel, fixed) == Halt(Runaway)
    decreases fuel
  {
    if fuel > 0 {
      var n := Get16(file[off..off + 2], order);
      ScanTagsReads(file, off + 2, n, order, ts);
      var v := VisitIfd(file, off, order, ts, prev, fixed);
      assert v.Ok? && v.value.next == off;
      SelfLinkedRunsAway(file, off, order, v.value.tags, Some(n), fuel - 1, fixed);
    }
  }

  // ---------------------------------------------------------------------------
  // Strips

  /** Sum of the byte counts. */
  function Sum(s: seq<nat>): nat {
    if s == [] then 0 else s[0] + Sum(s[1..])
  }

  lemma {:induction false} SumSnoc(s: seq<nat>, i: nat)
    requires i < |s|
    ensures Sum(s[..i + 1]) == Sum(s[..i]) + s[i]
    decreases i
  {
    if i == 0 {
      assert s[..1][1..] == [];
    } else {
      assert s[..i + 1][1..] == s[1..][..i];
      assert s[..i][1..] == s[1..][..i - 1];
      SumSnoc(s[1..], i - 1);
    }
  }

  /** The 32-bit words of b, each read as Word32 reads it. */
  function Words(b: seq<Byte>, order: Order, fixed: bool): (ws: seq<nat>)
    requires |b| % 4 == 0
    ensures |ws| == |b| / 4
    decreases |b|
  {
    if b == [] then [] else [Word32(b[..4], order, fixed)] + Words(b[4..], order, fixed)
  }

  /** readAll of a uint32 array of n entries at pos. */
  function FetchWords(file: seq<Byte>, pos: nat, n: nat, order: Order, fixed: bool): Option<seq<nat>> {
    match Fetch(file, pos, 4 * n)
    case None => None
    case Some(b) => Some(Words(b, order, fixed))
  }

  /** The loop of lines 350-366 from strip 0 with `room` bytes of buff
      left: each strip's bytes are read at its offset and placed after the
      previous strip's. Reading byteCounts past its end or writing past the
      end of buff is not followed. */
  function Gather(file: seq<Byte>, offs: seq<nat>, counts: seq<nat>, room: nat): Res<seq<Byte>>
    decreases |offs|
  {
    if offs == [] then Ok([])
    else if counts == [] || counts[0] > room then Halt(Unmodelled)
    else match Fetch(file, offs[0], counts[0])
      case None => Halt(ReadFailure(counts[0]))
      case Some(b) => Prepend(b, Gather(file, offs[1..], counts[1..], room - counts[0]))
  }

  function Prepend(b: seq<Byte>, r: Res<seq<Byte>>): Res<seq<Byte>> {
    match r
    case Ok(rest) => Ok(b + rest)
    case Halt(o) => Halt(o)
  }

  /** The strip bytes readFD assembles, lines 268-367: one strip is read
      whole at its offset; otherwise the offset and byte count arrays are
      read, the counts are summed into a uint32 and the strips are read one
      after the other into a buffer of that size. */
  function StripBuffer(file: seq<Byte>, so: Tag, bc: Tag, order: Order, fixed: bool): Res<seq<Byte>> {
    if so.count == 1 then
      match Fetch(file, so.value, bc.value)
      case None => Halt(ReadFailure(bc.value))
      case Some(b) => Ok(b)
    else match FetchWords(file, so.value, so.count, order, fixed)
      case None => Halt(ReadFailure(4 * so.count % UINT32))
      case Some(offs) =>
        match FetchWords(file, bc.value, bc.count, order, fixed)
        case None => Halt(ReadFailure(4 * bc.count % UINT32))
        case Some(counts) =>
          var size := Sum(counts) % UINT32;
          match Gather(file, offs, counts, size)
          case Halt(o) => Halt(o)
          case Ok(b) => if |b| < size then Halt(Unmodelled) else Ok(b)
  }

  /** The assembled buffer is exactly as long as the strips it was read
      from and fits the room it was given. */
  lemma {:induction false} GatherLength(file: seq<Byte>, offs: seq<nat>, counts: seq<nat>, room: nat)
    requires Gather(file, offs, counts, room).Ok?
    ensures |offs| <= |counts|
    ensures |Gather(file, offs, counts, room).value| == Sum(counts[..|offs|]) <= room
    decreases |offs|
  {
    if offs == [] {
      assert counts[..0] == [];
    } else {
      GatherLength(file, offs[1..], counts[1..], room - counts[0]);
      assert counts[..|offs|][1..] == counts[1..][..|offs| - 1];
    }
  }

  /** Strip j is read whole from the file and sits in the buffer right
      after strips 0..j-1. */
  lemma {:induction false} GatherPlaces(file: seq<Byte>, offs: seq<nat>, counts: seq<nat>, room: nat, j: nat)
    requires Gather(file, offs, counts, room).Ok? && j < |offs|
    ensures j < |counts| && offs[j] + counts[j] <= |file|
    ensures var b := Gather(file, offs, counts, room).value;
      Sum(counts[..j]) + counts[j] <= |b| && b[Sum(counts[..j])..Sum(counts[..j]) + counts[j]] == file[offs[j]..offs[j] + counts[j]]
    decreases j
  {
    var first := file[offs[0]..offs[0] + counts[0]];
    var rest := Gather(file, offs[1..], counts[1..], room - counts[0]).value;
    assert Gather(file, offs, counts, room).value == first + rest;
    if j == 0 {
      assert counts[..0] == [];
      GatherLength(file, offs[1..], counts[1..], room - counts[0]);
    } else {
      GatherPlaces(file, offs[1..], counts[1..], room - counts[0], j - 1);
      assert counts[..j][1..] == counts[1..][..j - 1];
      var at := Sum(counts[1..][..j - 1]);
      assert Sum(counts[..j]) == counts[0] + at;
      assert rest[at..at + counts[j]] == file[offs[j]..offs[j] + counts[j]];
    }
  }

  /** With one strip, the buffer is the byte count's worth of bytes at the
      strip offset. */
  lemma SingleStrip(file: seq<Byte>, so: Tag, bc: Tag, order: Order, fixed: bool)
    requires so.count == 1
    ensures StripBuffer(file, so, bc, order, fixed).Ok? <==> 0 < bc.value && so.value + bc.value <= |file|
    ensures StripBuffer(file, so, bc, order, fixed).Ok? ==>
      StripBuffer(file, so, bc, order, fixed).value == file[so.value..so.value + bc.value]
  {
  }

  /** Assembling strips fails only with READ_ERROR or in a case the model
      does not follow. */
  lemma {:induction false} StripFailures(file: seq<Byte>, so: Tag, bc: Tag, order: Order, fixed: bool)
    requires StripBuffer(file, so, bc, order, fixed).Halt?
    ensures var o := StripBuffer(file, so, bc, order, fixed).out;
      o == Unmodelled || (o.Failed? && o.err.error == Some(READ_ERROR))
  {
    if so.count != 1 {
      var offs := FetchWords(file, so.value, so.count, order, fixed);
      var counts := FetchWords(file, bc.value, bc.count, order, fixed);
      if offs.Some? && counts.Some? && Gather(file, offs.value, counts.value, Sum(counts.value) % UINT32).Halt? {
        GatherFailures(file, offs.value, counts.value, Sum(counts.value) % UINT32);
      }
    }
  }

  lemma {:induction false} GatherFailures(file: seq<Byte>, offs: seq<nat>, counts: seq<nat>, room: nat)
    requires Gather(file, offs, counts, room).Halt?
    ensures var o := Gather(file, offs, counts, room).out;
      o == Unmodelled || (o.Failed? && o.err.error == Some(READ_ERROR))
    decreases |offs|
  {
    if offs != [] && counts != [] && counts[0] <= room && Fetch(file, offs[0], counts[0]).Some? {
      GatherFailures(file, offs[1..], counts[1..], room - counts[0]);
    }
  }

  // ---------------------------------------------------------------------------
  // 1-bit images

  /** Bytes per row of a 1-bit image: width / 8 rounded up. */
  function Stride(w: nat): nat {
    w / 8 + (if w % 8 == 0 then 0 else 1)
  }

  /** Bit `shift` of b counted from the most significant, as lines 374-376
      test it. */
  predicate BitSet(b: Byte, shift: nat)
    requires shift < 8
  {
    (b as bv8) & ((1 as bv8) << (7 - shift)) != 0
  }

  /** Pixel (i, j) of a 1-bit image: 255 for a set bit, 0 for a clear one,
      whatever the photometric interpretation. */
  function Pixel(buff: seq<Byte>, w: nat, i: nat, j: nat): Byte {
    var at := i * Stride(w) + j / 8;
    if at < |buff| && BitSet(buff[at], j % 8) then 255 else 0
  }

  /** The strip bytes hold every row the unpacking loop reads. */
  predicate Covers(buff: seq<Byte>, w: nat, h: nat) {
    w == 0 || h == 0 || h * Stride(w) <= |buff|
  }

  /** The dimensions keep the int loop counters and the uint32 index
      i * width + j exact. */
  predicate Tracked(w: nat, h: nat) {
    w < 0x8000_0000 && h < 0x8000_0000 && w * h <= UINT32
  }

  /** Row i of a 1-bit image. */
  function Row(buff: seq<Byte>, w: nat, i: nat): seq<Byte> {
    seq(w, j requires 0 <= j => Pixel(buff, w, i, j))
  }

  /** tiff->data of a 1-bit image: rows 0..h-1, one after another. */
  function Unpacked(buff: seq<Byte>, w: nat, h: nat): seq<Byte>
    decreases h
  {
    if h == 0 then [] else Unpacked(buff, w, h - 1) + Row(buff, w, h - 1)
  }

  lemma {:induction false} UnpackedLength(buff: seq<Byte>, w: nat, h: nat)
    ensures |Unpacked(buff, w, h)| == w * h
    decreases h
  {
    if h > 0 {
      UnpackedLength(buff, w, h - 1);
      assert w * h == w * (h - 1) + w;
    }
  }

  /** Rows 0..i-1 and row i fit in rows 0..h-1. */
  lemma {:induction false} UnpackedGrows(buff: seq<Byte>, w: nat, i: nat, h: nat)
    requires i < h
    ensures |Unpacked(buff, w, i)| + w <= |Unpacked(buff, w, h)|
    decreases h
  {
    if i < h - 1 {
      UnpackedGrows(buff, w, i, h - 1);
    }
  }

  /** Entry i * w + j is pixel (i, j). */
  lemma {:induction false} UnpackedAt(buff: seq<Byte>, w: nat, h: nat, i: nat, j: nat)
    requires i < h && j < w
    ensures i * w + j < |Unpacked(buff, w, h)| && Unpacked(buff, w, h)[i * w + j] == Pixel(buff, w, i, j)
  {
    UnpackedLength(buff, w, i);
    UnpackedRowAt(buff, w, h, i, j);
  }

  /** Row i starts right after rows 0..i-1. */
  lemma {:induction false} UnpackedRowAt(buff: seq<Byte>, w: nat, h: nat, i: nat, j: nat)
    requires i < h && j < w
    ensures var k := |Unpacked(buff, w, i)| + j; k < |Unpacked(buff, w, h)| && Unpacked(buff, w, h)[k] == Pixel(buff, w, i, j)
    decreases h
  {
    var u, r := Unpacked(buff, w, h - 1), Row(buff, w, h - 1);
    assert Unpacked(buff, w, h) == u + r;
    if i < h - 1 {
      UnpackedRowAt(buff, w, h - 1, i, j);
    }
  }

  /** A product that grows with its first factor. */
  lemma {:induction false} MulGrows(a: nat, b: nat, c: nat)
    requires a <= b
    ensures a * c <= b * c
    decreases c
  {
    if c > 0 {
      MulGrows(a, b, c - 1);
      assert a * c == a * (c - 1) + a && b * c == b * (c - 1) + b;
    }
  }

  /** Row i's bytes lie inside buff. */
  lemma RowFits(buff: seq<Byte>, w: nat, h: nat, i: nat)
    requires Covers(buff, w, h) && i < h && w > 0
    ensures i * Stride(w) + Stride(w) <= |buff|
  {
    MulGrows(i + 1, h, Stride(w));
    assert (i + 1) * Stride(w) == i * Stride(w) + Stride(w);
  }

  /** Pixel j of a row whose bytes start at `start` comes from bit j % 8 of
      byte start + j / 8. */
  lemma RowPixel(buff: seq<Byte>, w: nat, i: nat, j: nat, start: nat)
    requires j < w && start == i * Stride(w) && start + Stride(w) <= |buff|
    ensures start + j / 8 < |buff| && Row(buff, w, i)[j] == if BitSet(buff[start + j / 8], j % 8) then 255 else 0
  {
  }

  /** A pixel of the image is 255 exactly when its bit is set, and 0
      otherwise. */
  lemma PixelBit(buff: seq<Byte>, w: nat, h: nat, i: nat, j: nat)
    requires Covers(buff, w, h) && i < h && j < w
    ensures i * Stride(w) + j / 8 < |buff| && Pixel(buff, w, i, j) == if BitSet(buff[i * Stride(w) + j / 8], j % 8) then 255 else 0
  {
    RowFits(buff, w, h, i);
    RowPixel(buff, w, i, j, i * Stride(w));
  }

  /** Bits are taken most significant first: the first pixel of a byte is
      its top bit and the eighth its bottom bit. */
  lemma MostSignificantFirst(b: Byte)
    ensures BitSet(b, 0) <==> b >= 128
    ensures BitSet(b, 7) <==> b % 2 == 1
  {
  }

  // ---------------------------------------------------------------------------
  // readFD

  /** Lines 249-386 once the IFD chain has ended: the photometric check,
      the dimensions, the strips, and the pixels for 1 and 8 bits per
      sample. A tag no entry filled is read as uninitialised memory. */
  function Finish(file: seq<Byte>, h: Header, ts: Tags, fixed: bool): Outcome {
    if ts.photometric.None? then Unmodelled
    else if ts.photometric.value.value != 0 && ts.photometric.value.value != 1 then
      Failed(TiffError(Some(ts.photometric.value.value), Some(UNKNOWN_COLOR_SPACE)))
    else if ts.width.None? || ts.height.None? || ts.stripOffsets.None? || ts.byteCounts.None? then Unmodelled
    else
      var w, ht := ts.width.value.value, ts.height.value.value;
      match StripBuffer(file, ts.stripOffsets.value, ts.byteCounts.value, h.order, fixed)
      case Halt(o) => o
      case Ok(buff) =>
        if ts.bits.None? then Unmodelled
        else if ts.bits.value.value == 1 then
          if Covers(buff, w, ht) && Tracked(w, ht) then Decoded(Image(h.mark, w, ht, Some(Unpacked(buff, w, ht))))
          else Unmodelled
        else if ts.bits.value.value == 8 then Decoded(Image(h.mark, w, ht, Some(buff)))
        else Decoded(Image(h.mark, w, ht, None))
  }

  /** readFD on a file, following at most `fuel` IFDs; `fixed` selects the
      corrected reads of the next IFD offset, of its failure and of the
      strip arrays. */
  function Decode(file: seq<Byte>, fuel: nat, fixed: bool): Outcome {
    match HeaderOf(file)
    case Halt(o) => o
    case Ok(h) =>
      match Follow(file, h.ifdOffset, h.order, NoTags, None, fuel, fixed)
      case Halt(o) => o
      case Ok(ts) => Finish(file, h, ts, fixed)
  }

  /** UNKNOWN_COLOR_SPACE is reported exactly when the photometric
      interpretation is neither WhiteIsZero (0) nor BlackIsZero (1), with
      that value as data; an image is only returned for 0 and 1. */
  lemma ColorChecked(file: seq<Byte>, h: Header, ts: Tags, fixed: bool)
    requires ts.photometric.Some?
    ensures var r := Finish(file, h, ts, fixed); var p := ts.photometric.value.value;
      && (r.Failed? && r.err.error == Some(UNKNOWN_COLOR_SPACE) <==> p != 0 && p != 1)
      && (p != 0 && p != 1 ==> r.err.data == Some(p))
      && (r.Decoded? ==> p == 0 || p == 1)
  {
    var p := ts.photometric.value.value;
    if (p == 0 || p == 1) && ts.width.Some? && ts.height.Some? && ts.stripOffsets.Some? && ts.byteCounts.Some? {
      var sb := StripBuffer(file, ts.stripOffsets.value, ts.byteCounts.value, h.order, fixed);
      if sb.Halt? {
        StripFailures(file, ts.stripOffsets.value, ts.byteCounts.value, h.order, fixed);
      }
    }
  }

  /** WhiteIsZero and BlackIsZero give the same image: a set bit is 255
      either way. */
  lemma ColorIgnored(file: seq<Byte>, h: Header, ts: Tags, t0: Tag, t1: Tag, fixed: bool)
    requires t0.value == 0 && t1.value == 1
    ensures Finish(file, h, ts.(photometric := Some(t0)), fixed) == Finish(file, h, ts.(photometric := Some(t1)), fixed)
  {
  }

  /** The image readFD returns: the dimensions are the width and length
      tags' values; with 8 bits per sample the pixels are the strip bytes
      unchanged, with 1 bit they are the unpacked bits. */
  lemma ImageContents(file: seq<Byte>, h: Header, ts: Tags, fixed: bool)
    requires Finish(file, h, ts, fixed).Decoded?
    ensures ts.width.Some? && ts.height.Some? && ts.stripOffsets.Some? && ts.byteCounts.Some? && ts.bits.Some?
    ensures StripBuffer(file, ts.stripOffsets.value, ts.byteCounts.value, h.order, fixed).Ok?
    ensures var img := Finish(file, h, ts, fixed).image;
      img.byteOrder == h.mark && img.width == ts.width.value.value && img.height == ts.height.value.value
    ensures var img := Finish(file, h, ts, fixed).image;
      var buff := StripBuffer(file, ts.stripOffsets.value, ts.byteCounts.value, h.order, fixed).value;
      match ts.bits.value.value
      case 8 => img.data == Some(buff)
      case 1 => img.data == Some(Unpacked(buff, img.width, img.height)) && Covers(buff, img.width, img.height)
      case _ => img.data.None?
  {
    var sb := StripBuffer(file, ts.stripOffsets.value, ts.byteCounts.value, h.order, fixed);
    if sb.Halt? {
      StripFailures(file, ts.stripOffsets.value, ts.byteCounts.value, h.order, fixed);
    }
  }

  // ---------------------------------------------------------------------------
  // readFD's loops

  /** The for-loop of lines 167-238: read the n entries at pos one by one
      and store each known tag. */
  method ReadTags(file: seq<Byte>, pos: nat, n: nat, order: Order, ts: Tags) returns (r: Option<Tags>)
    ensures r == ScanTags(file, pos, n, order, ts)
  {
    var cur := ts;
    var i := 0;
    while i < n
      invariant 0 <= i <= n
      invariant ScanTags(file, pos, n, order, ts) == ScanTags(file, pos + 12 * i, n - i, order, cur)
    {
      var entry := Fetch(file, pos + 12 * i, 12);
      if entry.None? {
        return None;
      }
      cur := Record(cur, DecodeTag(entry.value, order));
      i := i + 1;
    }
    return Some(cur);
  }

  /** The loop of lines 337-339: buffSize += byteCounts[i] on a uint32. */
  method SumCounts(counts: seq<nat>) returns (size: nat)
    ensures size == Sum(counts) % UINT32
  {
    size := 0;
    var i := 0;
    while i < |counts|
      invariant 0 <= i <= |counts|
      invariant size == Sum(counts[..i]) % UINT32
    {
      SumSnoc(counts, i);
      size := (size + counts[i]) % UINT32;
      i := i + 1;
    }
    assert counts[..i] == counts;
  }

  /** Lines 268-367: the strip buffer. */
  method ReadStrips(file: seq<Byte>, so: Tag, bc: Tag, order: Order, fixed: bool) returns (r: Res<seq<Byte>>)
    ensures r == StripBuffer(file, so, bc, order, fixed)
  {
    if so.count == 1 {
      var b := Fetch(file, so.value, bc.value);
      if b.None? {
        return Halt(ReadFailure(bc.value));
      }
      return Ok(b.value);
    }
    var offs := FetchWords(file, so.value, so.count, order, fixed);
    if offs.None? {
      return Halt(ReadFailure(4 * so.count % UINT32));
    }
    var counts := FetchWords(file, bc.value, bc.count, order, fixed);
    if counts.None? {
      return Halt(ReadFailure(4 * bc.count % UINT32));
    }
    var size := SumCounts(counts.value);
    r := ReadEachStrip(file, offs.value, counts.value, size);
  }

  /** The loop of lines 350-366 into a buffer of `size` bytes. */
  method ReadEachStrip(file: seq<Byte>, offs: seq<nat>, counts: seq<nat>, size: nat) returns (r: Res<seq<Byte>>)
    ensures r == match Gather(file, offs, counts, size)
      case Halt(o) => Halt(o)
      case Ok(b) => if |b| < size then Halt(Unmodelled) else Ok(b)
  {
    var buf: seq<Byte> := [];
    var j := 0;
    assert offs[0..] == offs && counts[0..] == counts;
    PrependNothing(Gather(file, offs, counts, size));
    while j < |offs|
      invariant 0 <= j <= |offs| && j <= |counts| && |buf| <= size
      invariant Gather(file, offs, counts, size) == Prepend(buf, Gather(file, offs[j..], counts[j..], size - |buf|))
    {
      assert offs[j..][1..] == offs[j + 1..];
      if j == |counts| || counts[j] > size - |buf| {
        return Halt(Unmodelled);
      }
      assert counts[j..][1..] == counts[j + 1..];
      var b := Fetch(file, offs[j], counts[j]);
      if b.None? {
        return Halt(ReadFailure(counts[j]));
      }
      PrependTwice(buf, b.value, Gather(file, offs[j + 1..], counts[j + 1..], size - |buf| - counts[j]));
      buf := buf + b.value;
      j := j + 1;
    }
    assert offs[j..] == [];
    assert buf + [] == buf;
    if |buf| < size {
      return Halt(Unmodelled);
    }
    return Ok(buf);
  }

  lemma PrependNothing(r: Res<seq<Byte>>)
    ensures Prepend([], r) == r
  {
    if r.Ok? {
      assert [] + r.value == r.value;
    }
  }

  lemma PrependTwice(a: seq<Byte>, b: seq<Byte>, r: Res<seq<Byte>>)
    ensures Prepend(a, Prepend(b, r)) == Prepend(a + b, r)
  {
    if r.Ok? {
      assert a + (b + r.value) == a + b + r.value;
    }
  }

  /** The nested loop of lines 369-381: tiff->data[i * width + j] gets 255
      or 0 from bit j % 8 of byte j / 8 of row i. */
  method UnpackBits(buff: seq<Byte>, w: nat, h: nat) returns (pixels: seq<Byte>)
    requires Covers(buff, w, h) && Tracked(w, h)
    ensures pixels == Unpacked(buff, w, h)
  {
    UnpackedLength(buff, w, h);
    var data := new Byte[w * h];
    var stride := w / 8 + (if w % 8 == 0 then 0 else 1);
    UnpackRows(data, buff, w, h, stride);
    pixels := data[..];
  }

  /** The outer loop of lines 369-381 on the zeroed array data. */
  method UnpackRows(data: array<Byte>, buff: seq<Byte>, w: nat, h: nat, stride: nat)
    requires Covers(buff, w, h) && stride == Stride(w) && data.Length == |Unpacked(buff, w, h)|
    modifies data
    ensures data[..] == Unpacked(buff, w, h)
  {
    var i, base := 0, 0;
    while i < h
      invariant 0 <= i <= h && base == |Unpacked(buff, w, i)| <= data.Length
      invariant data[..base] == Unpacked(buff, w, i)
    {
      UnpackedGrows(buff, w, i, h);
      var start: nat := i * stride;
      if w > 0 {
        RowFits(buff, w, h, i);
      }
      UnpackRow(data, buff, w, i, base, start);
      RowsAppend(data[..], buff, w, i, base);
      i, base := i + 1, base + w;
    }
    assert data[..] == data[..base];
  }

  /** A prefix holding rows 0..i-1 followed by row i holds rows 0..i. */
  lemma RowsAppend(s: seq<Byte>, buff: seq<Byte>, w: nat, i: nat, base: nat)
    requires base + w <= |s| && s[..base] == Unpacked(buff, w, i) && s[base..base + w] == Row(buff, w, i)
    ensures s[..base + w] == Unpacked(buff, w, i + 1)
  {
    assert s[..base + w] == s[..base] + s[base..base + w];
  }

  /** The inner loop of lines 371-380 for row i, whose pixels start at
      base in data and whose bits start at byte start of buff. */
  method UnpackRow(data: array<Byte>, buff: seq<Byte>, w: nat, i: nat, base: nat, start: nat)
    requires start == i * Stride(w) && (w > 0 ==> start + Stride(w) <= |buff|)
    requires base + w <= data.Length
    modifies data
    ensures data[..base] == old(data[..base])
    ensures data[base..base + w] == Row(buff, w, i)
  {
    ghost var row, before := Row(buff, w, i), data[..base];
    var j := 0;
    while j < w
      invariant 0 <= j <= w
      invariant data[..base] == before
      invariant forall k :: 0 <= k < j ==> data[base + k] == row[k]
    {
      var shift := j % 8;
      var bi := j / 8;
      RowPixel(buff, w, i, j, start);
      var v: Byte := if BitSet(buff[start + bi], shift) then 255 else 0;
      data[base + j] := v;
      j := j + 1;
    }
  }

  /** Lines 156-248 for the IFD at off: the entry count, the entries and
      the next offset. */
  method ReadIfd(file: seq<Byte>, off: nat, order: Order, ts: Tags, prev: Option<nat>, fixed: bool) returns (r: Res<Link>)
    ensures r == VisitIfd(file, off, order, ts, prev, fixed)
  {
    var count := Fetch(file, off, 2);
    if count.None? {
      return Halt(Failed(TiffError(CountLeft(file, off, prev), Some(READ_ERROR))));
    }
    var n := Get16(count.value, order);
    var scanned := ReadTags(file, off + 2, n, order, ts);
    if scanned.None? {
      return Halt(ReadFailure(12));
    }
    var nb := Fetch(file, off + 2 + 12 * n, 4);
    if nb.None? {
      return Halt(NextOffsetFailure(fixed));
    }
    return Ok(Link(scanned.value, n, Word32(nb.value, order, fixed)));
  }

  /** Lines 249-386. */
  method FinishImage(file: seq<Byte>, h: Header, ts: Tags, fixed: bool) returns (r: Outcome)
    ensures r == Finish(file, h, ts, fixed)
  {
    if ts.photometric.None? {
      return Unmodelled;
    }
    var p := ts.photometric.value.value;
    if p != 1 && p != 0 {
      return Failed(TiffError(Some(p), Some(UNKNOWN_COLOR_SPACE)));
    }
    if ts.width.None? || ts.height.None? || ts.stripOffsets.None? || ts.byteCounts.None? {
      return Unmodelled;
    }
    var w, ht := ts.width.value.value, ts.height.value.value;
    var strips := ReadStrips(file, ts.stripOffsets.value, ts.byteCounts.value, h.order, fixed);
    if strips.Halt? {
      return strips.out;
    }
    var buff := strips.value;
    if ts.bits.None? {
      return Unmodelled;
    }
    if ts.bits.value.value == 1 {
      if !Covers(buff, w, ht) || !Tracked(w, ht) {
        return Unmodelled;
      }
      var pixels := UnpackBits(buff, w, ht);
      return Decoded(Image(h.mark, w, ht, Some(pixels)));
    } else if ts.bits.value.value == 8 {
      return Decoded(Image(h.mark, w, ht, Some(buff)));
    }
    return Decoded(Image(h.mark, w, ht, None));
  }

  /** readFD: the header, then the do-while over the IFD chain (at most
      `fuel` IFDs), then the image. */
  method ReadFD(file: seq<Byte>, fuel: nat, fixed: bool) returns (r: Outcome)
    ensures r == Decode(file, fuel, fixed)
  {
    var header := HeaderOf(file);
    if header.Halt? {
      return header.out;
    }
    var h := header.value;
    var tags := ReadChain(file, h.ifdOffset, h.order, fuel, fixed);
    if tags.Halt? {
      return tags.out;
    }
    r := FinishImage(file, h, tags.value, fixed);
  }

  /** The do-while of lines 156-248 from the first IFD. */
  method ReadChain(file: seq<Byte>, first: nat, order: Order, fuel: nat, fixed: bool) returns (r: Res<Tags>)
    ensures r == Follow(file, first, order, NoTags, None, fuel, fixed)
  {
    var ts := NoTags;
    var off := first;
    var count: Option<nat> := None;
    var f := fuel;
    while true
      invariant Follow(file, first, order, NoTags, None, fuel, fixed) == Follow(file, off, order, ts, count, f, fixed)
      decreases f
    {
      if f == 0 {
        return Halt(Runaway);
      }
      var link := ReadIfd(file, off, order, ts, count, fixed);
      if link.Halt? {
        return Halt(link.out);
      }
      ts, count, off, f := link.value.tags, Some(link.value.count), link.value.next, f - 1;
      if off == 0 {
        break;
      }
    }
    return Ok(ts);
  }

  // ---------------------------------------------------------------------------
  // Findings

  /** A big-endian file whose first IFD (at 8, no entries) links to a
      second one at 14 (no entries, the last). */
  const TwoIfds: seq<Byte> := [0x4D, 0x4D, 0, 0x2A, 0, 0, 0, 8, 0, 0, 0, 0, 0, 14, 0, 0, 0, 0, 0, 0]

  /** As written, the next IFD offset is read raw (lines 240, 247): in a
      big-endian file 00 00 00 0E is followed as 0x0E000000 and the chain
      ends in a read error, with the first IFD's count 0 as data; with the
      offset converted, both IFDs are read. */
  lemma NextOffsetReadRaw()
    ensures Word32([0, 0, 0, 14], Big, false) == 0x0E00_0000
    ensures Follow(TwoIfds, 8, Big, NoTags, None, 2, false) == Halt(Failed(TiffError(Some(0), Some(READ_ERROR))))
    ensures Follow(TwoIfds, 8, Big, NoTags, None, 2, true) == Ok(NoTags)
  {
    var f := TwoIfds;
    assert f[8..8 + 2] == [0, 0];
    assert ScanTags(f, 10, 0, Big, NoTags) == Some(NoTags);
    assert f[10..10 + 4] == [0, 0, 0, 14];
    assert VisitIfd(f, 8, Big, NoTags, None, false) == Ok(Link(NoTags, 0, 0x0E00_0000));
    assert VisitIfd(f, 8, Big, NoTags, None, true) == Ok(Link(NoTags, 0, 14));
    assert f[14..14 + 2] == [0, 0];
    assert f[16..16 + 4] == [0, 0, 0, 0];
    assert VisitIfd(f, 14, Big, NoTags, Some(0), true) == Ok(Link(NoTags, 0, 0));
  }

  /** With the offset converted, the next IFD offset written in either
      order is read back. */
  lemma NextOffsetConverted(v: nat, order: Order)
    requires v < UINT32
    ensures Word32(Put32(v, order), order, true) == v
  {
    Get32Put32(v, order);
  }

  /** A little-endian file whose only IFD (at 8, no entries) is cut off
      before its next offset. */
  const CutIfd: seq<Byte> := [0x49, 0x49, 0x2A, 0, 8, 0, 0, 0, 0, 0]

  /** As written, a failed read of the next IFD offset stores READ_ERROR in
      err->data and leaves err->error unset (lines 242-245). */
  lemma NextOffsetErrorUnset()
    ensures Follow(CutIfd, 8, Little, NoTags, None, 1, false) == Halt(Failed(TiffError(Some(READ_ERROR), None)))
    ensures Follow(CutIfd, 8, Little, NoTags, None, 1, true) == Halt(Failed(TiffError(Some(4), Some(READ_ERROR))))
  {
    assert CutIfd[8..8 + 2] == [0, 0];
    assert ScanTags(CutIfd, 10, 0, Little, NoTags) == Some(NoTags);
  }

  /** A little-endian file whose first IFD (at 8, no entries) links to a
      second one at 14, where only the byte 5 is left. */
  const CutCount: seq<Byte> := [0x49, 0x49, 0x2A, 0, 8, 0, 0, 0, 0, 0, 14, 0, 0, 0, 5]

  /** A failed read of an entry count stores ifd.count (lines 150-155): with
      the file ending at the second IFD, the first IFD's count 0; with one
      byte of the count read, that byte in the low half of the count. */
  lemma CountFailureData(fixed: bool)
    ensures Follow(CutCount[..14], 8, Little, NoTags, None, 2, fixed) == Halt(Failed(TiffError(Some(0), Some(READ_ERROR))))
    ensures Follow(CutCount, 8, Little, NoTags, None, 2, fixed) == Halt(Failed(TiffError(Some(5), Some(READ_ERROR))))
  {
    var f := CutCount;
    assert f[8..8 + 2] == [0, 0] && f[..14][8..8 + 2] == [0, 0];
    assert ScanTags(f, 10, 0, Little, NoTags) == Some(NoTags);
    assert ScanTags(f[..14], 10, 0, Little, NoTags) == Some(NoTags);
    assert f[10..10 + 4] == [14, 0, 0, 0] && f[..14][10..10 + 4] == [14, 0, 0, 0];
    assert VisitIfd(f, 8, Little, NoTags, None, fixed) == Ok(Link(NoTags, 0, 14));
    assert VisitIfd(f[..14], 8, Little, NoTags, None, fixed) == Ok(Link(NoTags, 0, 14));
  }

  /** With the failure stored in err->error, every way the IFD chain fails
      reports READ_ERROR, apart from a chain that never ends. */
  lemma {:induction false} ChainFailuresReported(file: seq<Byte>, off: nat, order: Order, ts: Tags, prev: Option<nat>, fuel: nat)
    requires Follow(file, off, order, ts, prev, fuel, true).Halt?
    ensures var o := Follow(file, off, order, ts, prev, fuel, true).out;
      o == Runaway || (o.Failed? && o.err.error == Some(READ_ERROR))
    decreases fuel
  {
    if fuel > 0 {
      var v := VisitIfd(file, off, order, ts, prev, true);
      if v.Ok? && v.value.next != 0 {
        ChainFailuresReported(file, v.value.next, order, v.value.tags, Some(v.value.count), fuel - 1);
      }
    }
  }

  /** How an array of uint32 values is laid out in a file of the given
      order. */
  function PutWords(vs: seq<nat>, order: Order): (b: seq<Byte>)
    requires forall k :: 0 <= k < |vs| ==> vs[k] < UINT32
    ensures |b| == 4 * |vs|
  {
    if vs == [] then [] else Put32(vs[0], order) + PutWords(vs[1..], order)
  }

  /** As written, the strip offset and byte count arrays are read raw
      (lines 312, 328): in a big-endian file the offset 8 is read as
      0x08000000. */
  lemma StripArraysReadRaw()
    ensures Words(PutWords([8], Big), Big, false) == [0x0800_0000]
    ensures Words(PutWords([8], Big), Big, true) == [8]
  {
    assert PutWords([8], Big) == [0, 0, 0, 8];
  }

  /** With the entries converted, the arrays written in either order are
      read back. */
  lemma {:induction false} StripArraysConverted(vs: seq<nat>, order: Order)
    requires forall k :: 0 <= k < |vs| ==> vs[k] < UINT32
    ensures Words(PutWords(vs, order), order, true) == vs
    decreases |vs|
  {
    if vs != [] {
      var b := PutWords(vs, order);
      assert b[..4] == Put32(vs[0], order) && b[4..] == PutWords(vs[1..], order);
      Get32Put32(vs[0], order);
      StripArraysConverted(vs[1..], order);
    }
  }
}
