/** An update that is accepted although its only listed file is missing, after an earlier one was given up. */
module TarMissing {
  import opened Common
  import opened TarArchive
  import opened TarRuns
  import opened TarCount

  const NAME_SIZE := 100

  // ---------------------------------------------------------------------------------------------
  // Header blocks

  /** The header block of a file in the top directory. */
  function FileBlock(name: Bytes, size: nat): (block: Bytes)
    requires |name| < NAME_SIZE - 4
    ensures |block| == TAR_HDR_SIZE
  {
    var path, digits := Path(name), OctalDigits(size, 4);
    seq(TAR_HDR_SIZE, i requires 0 <= i < TAR_HDR_SIZE =>
      if i < |path| then path[i]
      else if SIZE_OFFSET <= i < SIZE_OFFSET + 4 then digits[i - SIZE_OFFSET]
      else 0)
  }

  /** a/1/name */
  function Path(name: Bytes): (path: Bytes)
  {
    [97, SLASH, 49, SLASH] + name
  }

  lemma {:induction false} TextIs(text: Bytes, buf: Bytes)
    requires |text| < |buf| && text == buf[..|text|] && 0 !in text && buf[|text|] == 0
    ensures Text(buf) == text
  {
    if text != [] {
      assert buf[0] == text[0];
      TextIs(text[1..], buf[1..]);
    }
  }

  lemma FileNameIs(name: Bytes)
    requires SLASH !in name
    ensures FileName(Path(name)) == Some(name)
  {
    var path := Path(name);
    assert path[0] == 97 && path[1] == SLASH && path[2] == 49 && path[3] == SLASH;
    assert FindChar(path, SLASH, 0) == 1;
    assert FindChar(path, SLASH, 2) == 3;
    assert forall i :: 4 <= i < |path| ==> path[i] in name;
    assert FindChar(path, SLASH, 4) == -1;
    assert path[4..] == name;
  }

  lemma SizeIs(name: Bytes, size: nat)
    requires |name| < NAME_SIZE - 4 && size < Pow8(4)
    ensures ParseOctal(FileBlock(name, size)[SIZE_OFFSET..SIZE_OFFSET + SIZE_LEN]) == size
  {
    var field := FileBlock(name, size)[SIZE_OFFSET..SIZE_OFFSET + SIZE_LEN];
    SizeFieldRoundTrip([], size, 4, field[4..]);
    assert field == [] + OctalDigits(size, 4) + field[4..];
  }

  lemma HeaderIs(name: Bytes, size: nat)
    requires |name| < NAME_SIZE - 4 && size < Pow8(4) && 0 !in name && SLASH !in name
    ensures ReadHeader(FileBlock(name, size), NAME_SIZE) == FileHeader(Some(name), size)
  {
    var block := FileBlock(name, size);
    assert block[0] == 97 && block[TYPE_OFFSET] == 0;
    TextIs(Path(name), block[..NAME_SIZE]);
    FileNameIs(name);
    SizeIs(name, size);
  }

  // ---------------------------------------------------------------------------------------------
  // The run

  const CALM := World(0, true, true, Command(false, 0, false, []))

  function Zeros(n: nat): (block: Bytes)
  {
    seq(n, i => 0)
  }

  predicate Goes(a: Archive, run: seq<OtaStep>, b: Archive)
  {
    CanProcess(a, run, NAME_SIZE) && ProcessAll(a, run, NAME_SIZE) == b
  }

  lemma GoesOn(a: Archive, l: OtaStep, b: Archive, run: seq<OtaStep>, c: Archive)
    requires CanStep(a, l) && AfterStep(a, l, NAME_SIZE) == b && Goes(b, run, c)
    ensures Goes(a, [l] + run, c)
  {
    assert ([l] + run)[1..] == run;
  }

  lemma {:induction false} GoesThrough(a: Archive, run: seq<OtaStep>, b: Archive, more: seq<OtaStep>, c: Archive)
    requires Goes(a, run, b) && Goes(b, more, c)
    ensures Goes(a, run + more, c)
    decreases |run|
  {
    if run == [] {
      assert run + more == more;
    } else {
      GoesThrough(AfterStep(a, run[0], NAME_SIZE), run[1..], b, more, c);
      assert (run + more)[1..] == run[1..] + more;
    }
  }

  /** A header block behind what is left of the block before it. */
  lemma BlockTaken(a: Archive, rest: Bytes, name: Bytes, size: nat)
    requires a.mode == ParseHdr && |rest| == Alignment(a.total)
    requires |name| < NAME_SIZE - 4 && size < Pow8(4) && 0 !in name && SLASH !in name
    ensures CanStep(a, Window(rest + FileBlock(name, size), CALM))
    ensures AfterStep(a, Window(rest + FileBlock(name, size), CALM), NAME_SIZE)
         == Taken(a.(total := a.total + |rest| + TAR_HDR_SIZE), FileHeader(Some(name), size)).0
  {
    HeaderIs(name, size);
    BlockRead(a, rest + FileBlock(name, size), NAME_SIZE, |rest|, FileBlock(name, size),
              AfterStep(a, Window(rest + FileBlock(name, size), CALM), NAME_SIZE));
  }

  /** The text of a command file in one block, and how much of it has been read when its one object is complete. */
  datatype CommandText = CommandText(text: Bytes, read: nat)

  predicate ValidText(c: CommandText)
  {
    |c.text| == TAR_HDR_SIZE && 0 < c.read <= TAR_HDR_SIZE
  }

  /** The command file, whose one object names one file; the parser stops behind that object. */
  function Listing(c: CommandText, entry: Bytes): (run: seq<OtaStep>)
    requires ValidText(c)
  {
    [Window(FileBlock(CMD_FILE, TAR_HDR_SIZE), CALM),
     Window(c.text, World(0, true, true, Command(false, c.read, true, [entry])))]
  }

  lemma ListingGoes(a: Archive, c: CommandText, entry: Bytes, b: Archive)
    requires ValidText(c) && a.mode == ParseHdr && a.total % TAR_HDR_SIZE == 0
    requires b == a.(total := a.total + 512 + c.read, name := CMD_FILE, fileSize := 512, offset := c.read, written := [],
                     table := a.table + [FileInfo(entry, false)])
    ensures Goes(a, Listing(c, entry), b)
  {
    var run := Listing(c, entry);
    var a1 := a.(mode := ParseCmdFile, total := a.total + 512, name := CMD_FILE, fileSize := 512, offset := 0, written := []);
    CommandFileAt(a, a1);
    ListedAt(a1, c, entry, b);
    TwoSteps(a, run[0], a1, run[1], b);
  }

  lemma TwoSteps(a: Archive, l: OtaStep, b: Archive, m: OtaStep, c: Archive)
    requires CanStep(a, l) && AfterStep(a, l, NAME_SIZE) == b && CanStep(b, m) && AfterStep(b, m, NAME_SIZE) == c
    ensures Goes(a, [l, m], c)
  {
    GoesOn(b, m, c, [], c);
    GoesOn(a, l, b, [m], c);
    assert [l] + [m] == [l, m];
  }

  lemma CommandFileAt(a: Archive, b: Archive)
    requires a.mode == ParseHdr && a.total % TAR_HDR_SIZE == 0
    requires b == a.(mode := ParseCmdFile, total := a.total + 512, name := CMD_FILE, fileSize := 512, offset := 0, written := [])
    ensures CanStep(a, Window(FileBlock(CMD_FILE, TAR_HDR_SIZE), CALM))
    ensures AfterStep(a, Window(FileBlock(CMD_FILE, TAR_HDR_SIZE), CALM), NAME_SIZE) == b
  {
    assert Pow8(4) == 4096;
    var block := FileBlock(CMD_FILE, TAR_HDR_SIZE);
    assert [] + block == block;
    BlockTaken(a, [], CMD_FILE, TAR_HDR_SIZE);
  }

  lemma ListedAt(a: Archive, c: CommandText, entry: Bytes, b: Archive)
    requires ValidText(c) && a.mode == ParseCmdFile && a.offset == 0 && a.fileSize == 512
    requires a.total >= 512 && a.total % TAR_HDR_SIZE == 0
    requires b == a.(mode := ParseHdr, total := a.total + c.read, offset := c.read, table := a.table + [FileInfo(entry, false)])
    ensures CanStep(a, Listing(c, entry)[1]) && AfterStep(a, Listing(c, entry)[1], NAME_SIZE) == b
  {
    RoundUpIs(a.total + c.read, a.total + 512);
    RoundUpIs(a.total + 512, a.total + 512);
    assert seq(1, i requires 0 <= i < 1 => FileInfo([entry][i], false)) == [FileInfo(entry, false)];
  }

  /** The part of the block that the parser has not read, which is presented again. */
  function Unread(c: CommandText): (rest: Bytes)
    requires ValidText(c)
  {
    c.text[c.read..]
  }

  /** An empty file, listed and not yet saved, is read, opened, closed and counted. */
  function Saving(rest: Bytes, name: Bytes): (run: seq<OtaStep>)
    requires |name| < NAME_SIZE - 4
  {
    [Window(rest + FileBlock(name, 0), CALM), Window([], CALM), Window([], CALM)]
  }

  lemma SavingGoes(a: Archive, rest: Bytes, name: Bytes, b: Archive)
    requires a.mode == ParseHdr && |rest| == Alignment(a.total) && a.table == [FileInfo(name, false)]
    requires |name| < NAME_SIZE - 4 && 0 !in name && SLASH !in name && name != CMD_FILE && name != SIGNATURE_FILE
    requires b == a.(total := a.total + |rest| + 512, name := name, fileSize := 0, offset := 0, written := [],
                     stored := a.stored + [Stored(name, [])], table := [FileInfo(name, true)], numSaved := a.numSaved + 1)
    ensures Goes(a, Saving(rest, name), b)
  {
    var run := Saving(rest, name);
    BlockTaken(a, rest, name, 0);
    var a1 := a.(mode := OpenFile, total := a.total + |rest| + 512, name := name, fileSize := 0, offset := 0, written := []);
    var a2 := a1.(mode := SaveFile);
    assert FindEntry(a.table, name) == 0;
    SavedAt(a2, b);
    GoesOn(a2, run[2], b, [], b);
    GoesOn(a1, run[1], a2, [run[2]], b);
    GoesOn(a, run[0], a1, [run[1], run[2]], b);
  }

  lemma SavedAt(a: Archive, b: Archive)
    requires a.mode == SaveFile && a.offset == 0 && a.fileSize == 0 && a.written == []
    requires a.table == [FileInfo(a.name, false)]
    requires b == a.(mode := ParseHdr, stored := a.stored + [Stored(a.name, [])], table := [FileInfo(a.name, true)],
                     numSaved := a.numSaved + 1)
    ensures CanStep(a, Window([], CALM)) && AfterStep(a, Window([], CALM), NAME_SIZE) == b
  {
    assert FindEntry(a.table, a.name) == 0;
    assert a.written + [][..0] == [];
    assert a.table[0 := a.table[0].(saved := true)] == b.table;
  }

  const FIRST: Bytes := [120]
  const SECOND: Bytes := [121]

  /** What is left of the last command file, and the end of the archive. */
  function Ending(rest: Bytes): (run: seq<OtaStep>)
  {
    [Window(rest + Zeros(TAR_HDR_SIZE), CALM)]
  }

  lemma EndingGoes(a: Archive, rest: Bytes, b: Archive)
    requires a.mode == ParseHdr && |rest| == Alignment(a.total) && |a.table| == a.numSaved
    requires b == a.(total := a.total + |rest| + 512, mode := CompletePendingTesting)
    ensures Goes(a, Ending(rest), b)
  {
    var l := Ending(rest)[0];
    BlockRead(a, rest + Zeros(TAR_HDR_SIZE), NAME_SIZE, |rest|, Zeros(TAR_HDR_SIZE), AfterStep(a, l, NAME_SIZE));
    GoesOn(a, l, b, [], b);
  }

  /** The second update, from the idle state: it lists another file, and ends there. */
  function SecondUpdate(c: CommandText): (run: seq<OtaStep>)
    requires ValidText(c)
  {
    [Window([], CALM)] + (Listing(c, SECOND) + Ending(Unread(c)))
  }

  /** The first update lists and saves one file, and is given up. */
  function MissingRun(c: CommandText, c': CommandText): (run: seq<OtaStep>)
    requires ValidText(c) && ValidText(c')
  {
    [Window([], CALM)] + (Listing(c, FIRST) + (Saving(Unread(c), FIRST) + ([GivenUp] + SecondUpdate(c'))))
  }

  lemma SecondUpdateGoes(a: Archive, c: CommandText, b: Archive)
    requires ValidText(c) && a.mode == Idle && a.numSaved == 1 && a.written == []
    requires b == a.(mode := CompletePendingTesting, total := 1536, name := CMD_FILE, fileSize := 512, offset := c.read,
                     table := [FileInfo(SECOND, false)])
    ensures Goes(a, SecondUpdate(c), b)
  {
    var a1 := a.(mode := ParseHdr, total := 0, table := []);
    var a2 := a1.(total := 512 + c.read, name := CMD_FILE, fileSize := 512, offset := c.read, table := [FileInfo(SECOND, false)]);
    RoundUpIs(512 + c.read, 1024);
    EndingGoes(a2, Unread(c), b);
    ListingGoes(a1, c, SECOND, a2);
    GoesThrough(a1, Listing(c, SECOND), a2, Ending(Unread(c)), b);
    GoesOn(a, Window([], CALM), a1, Listing(c, SECOND) + Ending(Unread(c)), b);
  }

  /**
   * For all texts of the two command files from which the parser lists the one file and then the other: the
   * second archive is accepted as complete although the one file it lists is not saved.
   */
  lemma MissingFileIsAccepted(c: CommandText, c': CommandText) returns (a: Archive)
    requires ValidText(c) && ValidText(c')
    ensures Goes(InitArchive(), MissingRun(c, c'), a)
    ensures a.mode == CompletePendingTesting && a.table == [FileInfo(SECOND, false)] && a.stored == [Stored(FIRST, [])]
  {
    var a0 := InitArchive();
    var a1 := a0.(mode := ParseHdr);
    var a2 := a1.(total := 512 + c.read, name := CMD_FILE, fileSize := 512, offset := c.read, table := [FileInfo(FIRST, false)]);
    var a3 := a2.(total := 1536, name := FIRST, fileSize := 0, offset := 0, stored := [Stored(FIRST, [])],
                  table := [FileInfo(FIRST, true)], numSaved := 1);
    var a4 := a3.(mode := Idle, table := []);
    a := a4.(mode := CompletePendingTesting, name := CMD_FILE, fileSize := 512, offset := c'.read,
             table := [FileInfo(SECOND, false)]);
    SecondUpdateGoes(a4, c', a);
    GoesOn(a3, GivenUp, a4, SecondUpdate(c'), a);
    RoundUpIs(512 + c.read, 1024);
    SavingGoes(a2, Unread(c), FIRST, a3);
    GoesThrough(a2, Saving(Unread(c), FIRST), a3, [GivenUp] + SecondUpdate(c'), a);
    ListingGoes(a1, c, FIRST, a2);
    GoesThrough(a1, Listing(c, FIRST), a2, Saving(Unread(c), FIRST) + ([GivenUp] + SecondUpdate(c')), a);
    GoesOn(a0, Window([], CALM), a1, Listing(c, FIRST) + (Saving(Unread(c), FIRST) + ([GivenUp] + SecondUpdate(c'))), a);
  }
}
