/** What the archive reader makes of a stream, however the stream is cut into windows. */
module TarRuns {
  import opened Common
  import opened TarArchive

  // ---------------------------------------------------------------------------------------------
  // Size fields

  /** A number in octal, with leading zeros up to n digits. */
  function OctalDigits(v: nat, n: nat): (d: Bytes)
    ensures |d| == n && forall i :: 0 <= i < n ==> IsOctal(d[i])
  {
    if n == 0 then [] else OctalDigits(v / 8, n - 1) + [48 + v % 8]
  }

  function Pow8(n: nat): (p: nat)
  {
    if n == 0 then 1 else 8 * Pow8(n - 1)
  }

  lemma {:induction false} OctalRoundTrip(v: nat, n: nat)
    requires v < Pow8(n)
    ensures OctalValue(OctalDigits(v, n)) == v
  {
    if n > 0 {
      OctalRoundTrip(v / 8, n - 1);
      assert OctalDigits(v, n)[..n - 1] == OctalDigits(v / 8, n - 1);
    }
  }

  /** A size written in octal is read back, whatever surrounds its digits in the field. */
  lemma SizeFieldRoundTrip(before: Bytes, v: nat, n: nat, behind: Bytes)
    requires 0 < n && v < Pow8(n)
    requires (forall i :: 0 <= i < |before| ==> !IsOctal(before[i])) && (behind != [] ==> !IsOctal(behind[0]))
    ensures ParseOctal(before + OctalDigits(v, n) + behind) == v
  {
    var digits := OctalDigits(v, n);
    var field := before + digits + behind;
    JunkIs(field, |before|);
    var rest := field[|before|..];
    assert rest == digits + behind;
    DigitsIs(rest, n);
    assert rest[..n] == digits;
    OctalRoundTrip(v, n);
  }

  // ---------------------------------------------------------------------------------------------
  // The layout of a stream

  /** The part of the stream from lo to hi, as far as the stream goes. */
  function Slice(s: Bytes, lo: nat, hi: nat): (r: Bytes)
  {
    if lo <= hi <= |s| then s[lo..hi] else []
  }

  /** The header block at an offset; what lies beyond the stream reads as the end of the archive. */
  function HeaderIn(s: Bytes, h: nat, nameSize: nat): (r: Header)
    requires nameSize <= TAR_HDR_SIZE
  {
    if h + TAR_HDR_SIZE <= |s| then ReadHeader(s[h..h + TAR_HDR_SIZE], nameSize) else EndOfArchive
  }

  /** Where an entry ends: behind its data, rounded up to whole blocks. Only files are taken to have data. */
  function EntryEnd(h: nat, header: Header): (e: nat)
  {
    h + TAR_HDR_SIZE + if header.FileHeader? then RoundUp(header.size) else 0
  }

  /** The offset of the k-th header. */
  function HeaderAt(s: Bytes, k: nat, nameSize: nat): (h: nat)
    requires nameSize <= TAR_HDR_SIZE
  {
    if k == 0 then 0
    else
      var h := HeaderAt(s, k - 1, nameSize);
      EntryEnd(h, HeaderIn(s, h, nameSize))
  }

  function HeaderNo(s: Bytes, k: nat, nameSize: nat): (r: Header)
    requires nameSize <= TAR_HDR_SIZE
  {
    HeaderIn(s, HeaderAt(s, k, nameSize), nameSize)
  }

  /** A file to be stored, as opposed to a file with commands for the update itself. */
  predicate IsPlainFile(header: Header)
  {
    header.FileHeader? && header.name.Some? && header.name.value != CMD_FILE && header.name.value != SIGNATURE_FILE
  }

  /** What an entry leaves in the file system: its name and its slice of the stream, if it is a plain file. */
  function EntryFiles(s: Bytes, h: nat, header: Header): (files: seq<Stored>)
  {
    if IsPlainFile(header) then
      [Stored(header.name.value, Slice(s, h + TAR_HDR_SIZE, h + TAR_HDR_SIZE + header.size))]
    else []
  }

  /** What the first k entries leave in the file system. */
  function FilesIn(s: Bytes, k: nat, nameSize: nat): (files: seq<Stored>)
    requires nameSize <= TAR_HDR_SIZE
  {
    if k == 0 then []
    else
      FilesIn(s, k - 1, nameSize) + EntryFiles(s, HeaderAt(s, k - 1, nameSize), HeaderNo(s, k - 1, nameSize))
  }

  /** In the ustar Interchange Format links, special files, directories and FIFOs, '1' to '6', have no data. */
  predicate NoUstarData(typeflag: byte)
  {
    49 <= typeflag <= 54
  }

  /** All other entries have the data that their size field announces. */
  function UstarEnd(h: nat, block: Bytes): (e: nat)
    requires |block| == TAR_HDR_SIZE
  {
    var size := ParseOctal(block[SIZE_OFFSET..SIZE_OFFSET + SIZE_LEN]);
    h + TAR_HDR_SIZE + if NoUstarData(block[TYPE_OFFSET]) then 0 else RoundUp(size)
  }

  predicate ReadAsStandard(block: Bytes)
    requires |block| == TAR_HDR_SIZE
  {
    || block[TYPE_OFFSET] == 0 || block[TYPE_OFFSET] == TYPE_FILE || NoUstarData(block[TYPE_OFFSET])
    || ParseOctal(block[SIZE_OFFSET..SIZE_OFFSET + SIZE_LEN]) == 0
  }

  /** The reader departs from that layout exactly at entries of the remaining types that come with data. */
  lemma LayoutIsUstar(h: nat, block: Bytes, nameSize: nat)
    requires |block| == TAR_HDR_SIZE && nameSize <= TAR_HDR_SIZE && !AllZero(block)
    ensures EntryEnd(h, ReadHeader(block, nameSize)) == UstarEnd(h, block) <==>
            ReadAsStandard(block)
  {
  }

  /** The standard layout of a stream, from one header to the next. */
  function UstarNext(s: Bytes, h: nat): (e: nat)
  {
    if h + TAR_HDR_SIZE <= |s| then UstarEnd(h, s[h..h + TAR_HDR_SIZE]) else h + TAR_HDR_SIZE
  }

  function UstarAt(s: Bytes, k: nat): (h: nat)
  {
    if k == 0 then 0 else UstarNext(s, UstarAt(s, k - 1))
  }

  predicate ReadAsStandardAt(s: Bytes, h: nat)
  {
    h + TAR_HDR_SIZE <= |s| ==> ReadAsStandard(s[h..h + TAR_HDR_SIZE])
  }

  lemma NextIsUstar(s: Bytes, h: nat, nameSize: nat)
    requires nameSize <= TAR_HDR_SIZE && ReadAsStandardAt(s, h)
    ensures EntryEnd(h, HeaderIn(s, h, nameSize)) == UstarNext(s, h)
  {
    if h + TAR_HDR_SIZE <= |s| {
      var block := s[h..h + TAR_HDR_SIZE];
      if AllZero(block) {
        EmptyBlock(block);
      } else {
        LayoutIsUstar(h, block, nameSize);
      }
    }
  }

  /** So in a stream without such entries every header is read where the standard puts it. */
  lemma {:induction false} HeadersAreUstar(s: Bytes, k: nat, nameSize: nat)
    requires nameSize <= TAR_HDR_SIZE && forall j: nat :: j < k ==> ReadAsStandardAt(s, UstarAt(s, j))
    ensures HeaderAt(s, k, nameSize) == UstarAt(s, k)
  {
    if k > 0 {
      HeadersAreUstar(s, k - 1, nameSize);
      NextIsUstar(s, UstarAt(s, k - 1), nameSize);
    }
  }

  lemma EmptyBlock(block: Bytes)
    requires |block| == TAR_HDR_SIZE && AllZero(block)
    ensures ParseOctal(block[SIZE_OFFSET..SIZE_OFFSET + SIZE_LEN]) == 0
  {
    JunkIs(block[SIZE_OFFSET..SIZE_OFFSET + SIZE_LEN], SIZE_LEN);
  }

  // ---------------------------------------------------------------------------------------------
  // Where the reader is in the stream

  /** No end of archive among the first k headers. */
  ghost predicate NoEndBefore(s: Bytes, k: nat, nameSize: nat)
    requires nameSize <= TAR_HDR_SIZE
  {
    forall j: nat :: j < k ==> HeaderNo(s, j, nameSize) != EndOfArchive
  }

  /** The reader is inside the entry at h, with `offset` bytes of its data behind it. */
  ghost predicate InsideEntry(a: Archive, h: nat, header: Header)
  {
    header == FileHeader(Some(a.name), a.fileSize) && a.total == h + TAR_HDR_SIZE + a.offset
  }

  /** The bytes written to the open file are those of the stream between its header and the current position. */
  ghost predicate Writing(s: Bytes, a: Archive)
  {
    && a.name != CMD_FILE && a.name != SIGNATURE_FILE
    && a.offset <= a.fileSize && a.offset <= a.total <= |s|
    && a.written == s[a.total - a.offset..a.total]
  }

  /** The reader is about to read the header at h, or somewhere in that entry. */
  ghost predicate AtEntry(s: Bytes, a: Archive, h: nat, header: Header)
  {
    && a.total <= |s|
    && match a.mode
       case Idle => h == 0 && a.total == 0
       case ParseHdr => RoundUp(a.total) == h
       case ParseCmdFile => InsideEntry(a, h, header) && a.name == CMD_FILE
       case ParseCmdSignature => InsideEntry(a, h, header) && a.name == SIGNATURE_FILE
       case OpenFile => InsideEntry(a, h, header) && Writing(s, a) && a.offset == 0
       case SaveFile => InsideEntry(a, h, header) && Writing(s, a)
       case CompletePendingTesting => header == EndOfArchive && a.total == h + TAR_HDR_SIZE
       case ParsingFailed => true
  }

  /** The reader has just left the entry at h. */
  ghost predicate Behind(s: Bytes, a: Archive, h: nat, header: Header, before: seq<Stored>)
  {
    && a.total <= |s| && header != EndOfArchive && a.mode == ParseHdr && RoundUp(a.total) == EntryEnd(h, header)
    && a.stored == before + EntryFiles(s, h, header)
  }

  /** The reader is in the entry at h, with nothing further stored, or just behind it. */
  ghost predicate Placed(s: Bytes, a: Archive, h: nat, header: Header, before: seq<Stored>)
  {
    (AtEntry(s, a, h, header) && a.stored == before) || Behind(s, a, h, header, before)
  }

  /** The first k entries are done: their files are stored, and the rest of the state fits the next entry. */
  ghost predicate At(s: Bytes, a: Archive, k: nat, nameSize: nat)
    requires nameSize <= TAR_HDR_SIZE
  {
    && NoEndBefore(s, k, nameSize)
    && a.stored == FilesIn(s, k, nameSize)
    && AtEntry(s, a, HeaderAt(s, k, nameSize), HeaderNo(s, k, nameSize))
  }

  // One call, with the next bytes of the stream as its window
  datatype Feed = Feed(len: nat, world: World)

  predicate CanFeed(s: Bytes, a: Archive, f: Feed)
  {
    a.total + f.len <= |s| && Allowed(a, s[a.total..a.total + f.len], f.world)
  }

  function FeedTo(s: Bytes, a: Archive, f: Feed, nameSize: nat): (r: Reply)
    requires nameSize <= TAR_HDR_SIZE && CanFeed(s, a, f)
  {
    Process(a, s[a.total..a.total + f.len], f.world, nameSize)
  }

  /** Positions from one block boundary up to the next are rounded up to that one. */
  lemma RoundUpIs(total: nat, h: nat)
    requires h % TAR_HDR_SIZE == 0 && total <= h < total + TAR_HDR_SIZE
    ensures RoundUp(total) == h
  {
  }

  lemma RoundUpAligned(total: nat)
    ensures RoundUp(total) % TAR_HDR_SIZE == 0
  {
  }

  /** Rounding a position inside an entry that starts at a block boundary. */
  lemma RoundUpShift(h: nat, n: nat)
    requires h % TAR_HDR_SIZE == 0
    ensures RoundUp(h + n) == h + RoundUp(n)
  {
    RoundUpAligned(n);
    RoundUpIs(h + n, h + RoundUp(n));
  }

  lemma EntryEndAligned(h: nat, header: Header)
    requires h % TAR_HDR_SIZE == 0
    ensures EntryEnd(h, header) % TAR_HDR_SIZE == 0
  {
    if header.FileHeader? {
      RoundUpAligned(header.size);
    }
  }

  lemma {:induction false} HeaderAligned(s: Bytes, k: nat, nameSize: nat)
    requires nameSize <= TAR_HDR_SIZE
    ensures HeaderAt(s, k, nameSize) % TAR_HDR_SIZE == 0
  {
    if k > 0 {
      HeaderAligned(s, k - 1, nameSize);
      EntryEndAligned(HeaderAt(s, k - 1, nameSize), HeaderNo(s, k - 1, nameSize));
    }
  }

  /** A header is read at its block boundary. */
  lemma HeaderStep(s: Bytes, a: Archive, h: nat, header: Header, len: nat, nameSize: nat, r: Archive)
    requires nameSize <= TAR_HDR_SIZE && header == HeaderIn(s, h, nameSize)
    requires a.mode == ParseHdr && a.total + len <= |s|
    requires h % TAR_HDR_SIZE == 0 && AtEntry(s, a, h, header)
    requires r == StepHeader(a, s[a.total..a.total + len], nameSize).a
    ensures Placed(s, r, h, header, a.stored)
  {
    HeaderRead(s, a, h, len, nameSize, r);
    if h + TAR_HDR_SIZE <= a.total + len {
      HeaderTaken(s, a.(total := h + TAR_HDR_SIZE), h, header);
    } else {
      RoundUpIs(r.total, h);
    }
  }

  /** A window that reaches far enough is read as the header behind the boundary. */
  lemma BlockRead(a: Archive, window: Bytes, nameSize: nat, skip: nat, block: Bytes, r: Archive)
    requires nameSize <= TAR_HDR_SIZE && skip == Alignment(a.total) && skip + TAR_HDR_SIZE <= |window|
    requires block == window[skip..skip + TAR_HDR_SIZE] && r == StepHeader(a, window, nameSize).a
    ensures r == Taken(a.(total := a.total + skip + TAR_HDR_SIZE), ReadHeader(block, nameSize)).0
  {
  }

  lemma HeaderRead(s: Bytes, a: Archive, h: nat, len: nat, nameSize: nat, r: Archive)
    requires nameSize <= TAR_HDR_SIZE && a.total + len <= |s| && RoundUp(a.total) == h
    requires r == StepHeader(a, s[a.total..a.total + len], nameSize).a
    ensures if h + TAR_HDR_SIZE <= a.total + len
            then r == Taken(a.(total := h + TAR_HDR_SIZE), HeaderIn(s, h, nameSize)).0
            else r == a.(total := r.total) && a.total <= r.total <= h && r.total <= |s|
  {
    if h + TAR_HDR_SIZE <= a.total + len {
      var skip := h - a.total;
      SliceOfSlice(s, a.total, a.total + len, skip, skip + TAR_HDR_SIZE);
      BlockRead(a, s[a.total..a.total + len], nameSize, skip, s[h..h + TAR_HDR_SIZE], r);
    }
  }

  lemma HeaderTaken(s: Bytes, a: Archive, h: nat, header: Header)
    requires a.mode == ParseHdr && h % TAR_HDR_SIZE == 0 && a.total == h + TAR_HDR_SIZE <= |s|
    ensures var r := Taken(a, header).0;
            Placed(s, r, h, header, a.stored)
  {
    if header == NoFile {
      RoundUpIs(a.total, a.total);
    } else {
      assert s[a.total..a.total] == [];
    }
  }

  /** Writing a further part of the stream. */
  lemma WriteMore(s: Bytes, a: Archive, n: nat)
    requires Writing(s, a) && a.offset + n <= a.fileSize && a.total + n <= |s|
    ensures Writing(s, a.(offset := a.offset + n, total := a.total + n, written := a.written + s[a.total..a.total + n]))
  {
  }

  /** A file whose bytes are all written is its slice of the stream, and the next header follows. */
  lemma FileDone(s: Bytes, a: Archive, h: nat, header: Header)
    requires h % TAR_HDR_SIZE == 0 && InsideEntry(a, h, header) && Writing(s, a) && a.offset == a.fileSize
    ensures EntryFiles(s, h, header) == [Stored(a.name, a.written)] && RoundUp(a.total) == EntryEnd(h, header)
  {
    RoundUpShift(h + TAR_HDR_SIZE, a.fileSize);
  }

  /** Whatever part of a chunk is accepted, the file holds its slice so far; when it is closed, its whole slice. */
  lemma SaveStep(s: Bytes, a: Archive, h: nat, header: Header, len: nat, world: World, r: Archive)
    requires a.mode == SaveFile && a.total + len <= |s|
    requires h % TAR_HDR_SIZE == 0 && AtEntry(s, a, h, header) && world.accepted <= Chunk(a, s[a.total..a.total + len])
    requires r == StepSave(a, s[a.total..a.total + len], world).a
    ensures Placed(s, r, h, header, a.stored)
  {
    var n := world.accepted;
    if n >= 0 {
      var b := a.(offset := a.offset + n, total := a.total + n, written := a.written + s[a.total..a.total + n]);
      WriteMore(s, a, n);
      SliceOfSlice(s, a.total, a.total + len, 0, n);
      Accepted(s, a, h, header, b, r);
    }
  }

  lemma Accepted(s: Bytes, a: Archive, h: nat, header: Header, b: Archive, r: Archive)
    requires h % TAR_HDR_SIZE == 0 && InsideEntry(b, h, header) && Writing(s, b) && b.mode == SaveFile
    requires a.stored == b.stored
    requires || (r.mode == ParsingFailed && r.total == b.total && r.stored == a.stored)
             || (r == b && b.offset != b.fileSize)
             || (b.offset == b.fileSize && r.mode == ParseHdr && r.total == b.total
                 && r.stored == a.stored + [Stored(b.name, b.written)])
    ensures Placed(s, r, h, header, a.stored)
  {
    if r.mode == ParseHdr {
      FileDone(s, b, h, header);
    }
  }

  /**
   * The parser of the command file may report its end with a tail of the file unread. The next header is then
   * found iff the tail fits into the rest of the current block; a tail from a block boundary on is taken for a header.
   */
  lemma TailIsSkippedIff(a: Archive, h: nat, header: Header, tail: nat)
    requires h % TAR_HDR_SIZE == 0 && InsideEntry(a, h, header) && a.offset + tail == a.fileSize
    ensures RoundUp(a.total) == EntryEnd(h, header) <==> tail <= Alignment(a.total)
  {
    RoundUpShift(h + TAR_HDR_SIZE, a.fileSize);
    TailRounds(a.total, tail);
  }

  lemma TailRounds(position: nat, tail: nat)
    ensures RoundUp(position) == RoundUp(position + tail) <==> tail <= Alignment(position)
  {
    RoundUpAligned(position);
    if tail <= Alignment(position) {
      RoundUpIs(position + tail, RoundUp(position));
    }
  }

  /** The parsers of the command files leave the reader at the end of their entry. */
  lemma CommandStep(s: Bytes, a: Archive, h: nat, header: Header, len: nat, world: World, r: Archive)
    requires a.mode in {ParseCmdFile, ParseCmdSignature} && a.total + len <= |s|
    requires h % TAR_HDR_SIZE == 0 && AtEntry(s, a, h, header) && Allowed(a, s[a.total..a.total + len], world)
    requires r == StepCommand(a, world).a && r.mode != Idle
    ensures Placed(s, r, h, header, a.stored)
  {
    RoundUpShift(h + TAR_HDR_SIZE, a.fileSize);
  }

  lemma OpenStep(s: Bytes, a: Archive, h: nat, header: Header, world: World, r: Archive)
    requires a.mode == OpenFile && AtEntry(s, a, h, header) && r == StepOpen(a, world).a
    ensures Placed(s, r, h, header, a.stored)
  {
  }

  lemma RestStep(s: Bytes, a: Archive, h: nat, header: Header, r: Archive)
    requires a.mode in {Idle, CompletePendingTesting, ParsingFailed} && AtEntry(s, a, h, header)
    requires r == if a.mode == Idle then a.(mode := ParseHdr, total := 0, table := []) else a
    ensures Placed(s, r, h, header, a.stored)
  {
  }

  /** Every call leaves the reader in its entry or moves it behind that entry. */
  lemma StepInEntry(s: Bytes, a: Archive, h: nat, header: Header, len: nat, world: World, nameSize: nat, r: Archive)
    requires nameSize <= TAR_HDR_SIZE && header == HeaderIn(s, h, nameSize) && a.total + len <= |s|
    requires h % TAR_HDR_SIZE == 0 && AtEntry(s, a, h, header) && Allowed(a, s[a.total..a.total + len], world)
    requires r == Process(a, s[a.total..a.total + len], world, nameSize).a && r.mode != Idle
    ensures Placed(s, r, h, header, a.stored)
  {
    match a.mode {
      case ParseHdr => HeaderStep(s, a, h, header, len, nameSize, r);
      case SaveFile => SaveStep(s, a, h, header, len, world, r);
      case ParseCmdFile => CommandStep(s, a, h, header, len, world, r);
      case ParseCmdSignature => CommandStep(s, a, h, header, len, world, r);
      case OpenFile => OpenStep(s, a, h, header, world, r);
      case _ => RestStep(s, a, h, header, r);
    }
  }

  lemma NextEntry(s: Bytes, a: Archive, k: nat, before: seq<Stored>, nameSize: nat)
    requires nameSize <= TAR_HDR_SIZE && NoEndBefore(s, k, nameSize) && before == FilesIn(s, k, nameSize)
    requires Behind(s, a, HeaderAt(s, k, nameSize), HeaderNo(s, k, nameSize), before)
    ensures At(s, a, k + 1, nameSize)
  {
    forall j: nat | j < k + 1
      ensures HeaderNo(s, j, nameSize) != EndOfArchive
    {
      assert j < k || j == k;
    }
  }

  lemma FeedIs(s: Bytes, a: Archive, f: Feed, window: Bytes, nameSize: nat, r: Archive)
    requires nameSize <= TAR_HDR_SIZE && CanFeed(s, a, f) && window == s[a.total..a.total + f.len]
    requires r == FeedTo(s, a, f, nameSize).a
    ensures Allowed(a, window, f.world) && r == Process(a, window, f.world, nameSize).a
  {
    assert FeedTo(s, a, f, nameSize) == Process(a, window, f.world, nameSize);
  }

  lemma FeedInEntry(s: Bytes, a: Archive, h: nat, header: Header, f: Feed, nameSize: nat, r: Archive)
    requires nameSize <= TAR_HDR_SIZE && CanFeed(s, a, f) && r == FeedTo(s, a, f, nameSize).a && r.mode != Idle
    requires header == HeaderIn(s, h, nameSize) && h % TAR_HDR_SIZE == 0 && AtEntry(s, a, h, header)
    ensures Placed(s, r, h, header, a.stored)
  {
    var len, world := f.len, f.world;
    FeedIs(s, a, f, s[a.total..a.total + len], nameSize, r);
    StepInEntry(s, a, h, header, len, world, nameSize, r);
  }

  lemma PlacedInStream(s: Bytes, a: Archive, k: nat, nameSize: nat, r: Archive)
    requires nameSize <= TAR_HDR_SIZE && At(s, a, k, nameSize)
    requires Placed(s, r, HeaderAt(s, k, nameSize), HeaderNo(s, k, nameSize), a.stored)
    ensures At(s, r, k, nameSize) || At(s, r, k + 1, nameSize)
  {
    if Behind(s, r, HeaderAt(s, k, nameSize), HeaderNo(s, k, nameSize), a.stored) {
      NextEntry(s, r, k, a.stored, nameSize);
    }
  }

  /** Every call keeps the reader in step with the layout and completes at most one entry. */
  lemma StepStaysInStream(s: Bytes, a: Archive, k: nat, f: Feed, nameSize: nat, r: Archive)
    requires nameSize <= TAR_HDR_SIZE && CanFeed(s, a, f) && At(s, a, k, nameSize)
    requires r == FeedTo(s, a, f, nameSize).a && r.mode != Idle
    ensures At(s, r, k, nameSize) || At(s, r, k + 1, nameSize)
  {
    HeaderAligned(s, k, nameSize);
    FeedInEntry(s, a, HeaderAt(s, k, nameSize), HeaderNo(s, k, nameSize), f, nameSize, r);
    PlacedInStream(s, a, k, nameSize, r);
  }

  // ---------------------------------------------------------------------------------------------
  // Whole runs

  /** All calls are possible, and none falls back to the idle state. */
  predicate CanFeedAll(s: Bytes, a: Archive, feeds: seq<Feed>, nameSize: nat)
    requires nameSize <= TAR_HDR_SIZE
    decreases |feeds|
  {
    feeds != [] ==>
      && CanFeed(s, a, feeds[0])
      && FeedTo(s, a, feeds[0], nameSize).a.mode != Idle
      && CanFeedAll(s, FeedTo(s, a, feeds[0], nameSize).a, feeds[1..], nameSize)
  }

  function FeedAll(s: Bytes, a: Archive, feeds: seq<Feed>, nameSize: nat): (a': Archive)
    requires nameSize <= TAR_HDR_SIZE && CanFeedAll(s, a, feeds, nameSize)
    decreases |feeds|
  {
    if feeds == [] then a else FeedAll(s, FeedTo(s, a, feeds[0], nameSize).a, feeds[1..], nameSize)
  }

  function Processed(s: Bytes, a: Archive, feeds: seq<Feed>, nameSize: nat): (n: nat)
    requires nameSize <= TAR_HDR_SIZE && CanFeedAll(s, a, feeds, nameSize)
    decreases |feeds|
  {
    if feeds == [] then 0
    else
      FeedTo(s, a, feeds[0], nameSize).processed
      + Processed(s, FeedTo(s, a, feeds[0], nameSize).a, feeds[1..], nameSize)
  }

  /** The total is at all times the sum of what the calls reported as processed. */
  lemma {:induction false} TotalIsSumOfProcessed(s: Bytes, a: Archive, feeds: seq<Feed>, nameSize: nat)
    requires nameSize <= TAR_HDR_SIZE && CanFeedAll(s, a, feeds, nameSize)
    requires a.mode == Idle ==> a.total == 0
    ensures FeedAll(s, a, feeds, nameSize).total == a.total + Processed(s, a, feeds, nameSize)
    decreases |feeds|
  {
    if feeds != [] {
      TotalIsSumOfProcessed(s, FeedTo(s, a, feeds[0], nameSize).a, feeds[1..], nameSize);
    }
  }

  lemma {:induction false} RunStaysInStream(s: Bytes, a: Archive, k: nat, feeds: seq<Feed>, nameSize: nat) returns (k': nat)
    requires nameSize <= TAR_HDR_SIZE && CanFeedAll(s, a, feeds, nameSize) && At(s, a, k, nameSize)
    ensures k <= k' && At(s, FeedAll(s, a, feeds, nameSize), k', nameSize)
    decreases |feeds|
  {
    if feeds == [] {
      k' := k;
    } else {
      var b := FeedTo(s, a, feeds[0], nameSize).a;
      StepStaysInStream(s, a, k, feeds[0], nameSize, b);
      k' := RunStaysInStream(s, b, if At(s, b, k, nameSize) then k else k + 1, feeds[1..], nameSize);
    }
  }

  /** A run from the start, over windows of any size, that ends in state a. */
  ghost predicate Reads(s: Bytes, feeds: seq<Feed>, nameSize: nat, a: Archive)
    requires nameSize <= TAR_HDR_SIZE
  {
    CanFeedAll(s, InitArchive(), feeds, nameSize) && a == FeedAll(s, InitArchive(), feeds, nameSize)
  }

  /** The files stored are at all times those of the first entries of the stream, each one exactly its slice. */
  lemma StoredFilesAreSlices(s: Bytes, feeds: seq<Feed>, nameSize: nat, a: Archive) returns (k: nat)
    requires nameSize <= TAR_HDR_SIZE && Reads(s, feeds, nameSize, a)
    ensures a.stored == FilesIn(s, k, nameSize)
    ensures At(s, a, k, nameSize)
  {
    assert FilesIn(s, 0, nameSize) == [];
    k := RunStaysInStream(s, InitArchive(), 0, feeds, nameSize);
  }

  lemma PrefixOfMore(files: seq<Stored>, more: seq<Stored>, last: seq<Stored>)
    requires files <= more
    ensures files <= more + last
  {
  }

  lemma {:induction false} FilesGrow(s: Bytes, j: nat, k: nat, nameSize: nat)
    requires nameSize <= TAR_HDR_SIZE && j <= k
    ensures FilesIn(s, j, nameSize) <= FilesIn(s, k, nameSize)
  {
    if j < k {
      FilesGrow(s, j, k - 1, nameSize);
      PrefixOfMore(FilesIn(s, j, nameSize), FilesIn(s, k - 1, nameSize),
                   EntryFiles(s, HeaderAt(s, k - 1, nameSize), HeaderNo(s, k - 1, nameSize)));
    }
  }

  /** Any two runs over the same stream, finished or not, agree: the files of one are the first files of the other. */
  lemma RunsAgree(s: Bytes, feeds: seq<Feed>, a: Archive, feeds': seq<Feed>, a': Archive, nameSize: nat)
    requires nameSize <= TAR_HDR_SIZE && Reads(s, feeds, nameSize, a) && Reads(s, feeds', nameSize, a')
    ensures a.stored <= a'.stored || a'.stored <= a.stored
  {
    var j := StoredFilesAreSlices(s, feeds, nameSize, a);
    var k := StoredFilesAreSlices(s, feeds', nameSize, a');
    if j <= k {
      FilesGrow(s, j, k, nameSize);
    } else {
      FilesGrow(s, k, j, nameSize);
    }
  }

  /** There is only one first end of archive. */
  lemma EndIsUnique(s: Bytes, j: nat, k: nat, nameSize: nat)
    requires nameSize <= TAR_HDR_SIZE && NoEndBefore(s, j, nameSize) && NoEndBefore(s, k, nameSize)
    requires HeaderNo(s, j, nameSize) == EndOfArchive && HeaderNo(s, k, nameSize) == EndOfArchive
    ensures j == k
  {
  }

  /**
   * Two runs over the same stream that complete have stored the same files and stopped at the same byte,
   * however the stream was cut and however much of each chunk the file system accepted.
   */
  lemma ResultDoesNotDependOnCutting(s: Bytes, feeds: seq<Feed>, a: Archive, feeds': seq<Feed>, a': Archive, nameSize: nat)
    requires nameSize <= TAR_HDR_SIZE && Reads(s, feeds, nameSize, a) && Reads(s, feeds', nameSize, a')
    requires a.mode == CompletePendingTesting && a'.mode == CompletePendingTesting
    ensures a.stored == a'.stored && a.total == a'.total
  {
    var j := StoredFilesAreSlices(s, feeds, nameSize, a);
    var k := StoredFilesAreSlices(s, feeds', nameSize, a');
    EndIsUnique(s, j, k, nameSize);
  }
}
