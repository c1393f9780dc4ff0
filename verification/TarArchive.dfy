/**
 * The archive reader of the over-the-air update example (examples/cc3220sf/xively_demo/OtaArchive.c): a
 * state machine that is fed a tar stream in windows of any size and writes the files it finds.
 */
module TarArchive {
  import opened Common

  type Bytes = seq<byte>

  const TAR_HDR_SIZE := 512
  const SIZE_OFFSET := 124
  const SIZE_LEN := 12
  const TYPE_OFFSET := 156

  const TYPE_FILE: byte := 48 // '0'
  const TYPE_DIRECTORY: byte := 53 // '5'
  const SLASH: byte := 47

  const CMD_FILE: Bytes := [111, 116, 97, 46, 99, 109, 100] // "ota.cmd"
  const SIGNATURE_FILE: Bytes := [111, 116, 97, 46, 115, 105, 103, 110] // "ota.sign"

  // ---------------------------------------------------------------------------------------------
  // Reading a header

  predicate IsOctal(c: byte)
  {
    48 <= c <= 55
  }

  /** The number of leading bytes that are not octal digits. */
  function Junk(field: Bytes): (n: nat)
    ensures n <= |field|
    ensures forall i :: 0 <= i < n ==> !IsOctal(field[i])
    ensures n < |field| ==> IsOctal(field[n])
  {
    if field == [] || IsOctal(field[0]) then 0 else 1 + Junk(field[1..])
  }

  /** The number of leading octal digits. */
  function Digits(field: Bytes): (n: nat)
    ensures n <= |field|
    ensures forall i :: 0 <= i < n ==> IsOctal(field[i])
    ensures n < |field| ==> !IsOctal(field[n])
  {
    if field == [] || !IsOctal(field[0]) then 0 else 1 + Digits(field[1..])
  }

  function OctalValue(digits: Bytes): (v: nat)
    requires forall i :: 0 <= i < |digits| ==> IsOctal(digits[i])
  {
    if digits == [] then 0
    else
      assert IsOctal(digits[|digits| - 1]);
      var digit: int := digits[|digits| - 1];
      OctalValue(digits[..|digits| - 1]) * 8 + (digit - 48)
  }

  /** The first run of octal digits in the field; a field without digits reads as 0. */
  function ParseOctal(field: Bytes): (v: nat)
  {
    var rest := field[Junk(field)..];
    OctalValue(rest[..Digits(rest)])
  }

  /**
   * Skips what is no digit, if need be past the end of the field, and reads digits while they belong to
   * the field.
   */
  method ParseOctec(buf: Bytes, size: nat) returns (value: nat)
    requires size <= |buf| && exists i :: 0 <= i < |buf| && IsOctal(buf[i])
    ensures value == ParseOctal(buf[..size])
  {
    var p, left: int := 0, size;
    while !IsOctal(buf[p])
      invariant 0 <= p < |buf| && left == size - p
      invariant forall i :: 0 <= i < p ==> !IsOctal(buf[i])
      decreases |buf| - p
    {
      p := p + 1;
      left := left - 1;
    }
    ghost var start := p;
    value := 0;
    while p < |buf| && IsOctal(buf[p]) && left > 0
      invariant start <= p <= |buf| && left == size - p
      invariant p <= Max(start, size)
      invariant forall i :: start <= i < p ==> IsOctal(buf[i])
      invariant value == OctalValue(buf[start..p])
    {
      OctalSnoc(buf, start, p);
      value := value * 8;
      var digit: int := buf[p];
      value := value + (digit - 48);
      p := p + 1;
      left := left - 1;
    }
    OctalRun(buf, size, start, p);
  }

  lemma OctalSnoc(buf: Bytes, from: nat, to: nat)
    requires from <= to < |buf| && forall i :: from <= i <= to ==> IsOctal(buf[i])
    ensures OctalValue(buf[from..to + 1]) == 8 * OctalValue(buf[from..to]) + buf[to] - 48
  {
    SliceSnoc(buf, from, to);
    var digits := buf[from..to + 1];
    assert digits[..|digits| - 1] == buf[from..to];
  }

  /** The digits between the first one and the next character that is none, or the end of the field. */
  lemma OctalRun(buf: Bytes, size: nat, start: nat, end: nat)
    requires size <= |buf| && start <= end <= |buf| && end <= Max(start, size)
    requires forall i :: 0 <= i < start ==> !IsOctal(buf[i])
    requires start < |buf| && IsOctal(buf[start])
    requires forall i :: start <= i < end ==> IsOctal(buf[i])
    requires end < size ==> !IsOctal(buf[end])
    ensures ParseOctal(buf[..size]) == OctalValue(buf[start..end])
  {
    var field := buf[..size];
    if start < size {
      JunkIs(field, start);
      var rest := field[start..];
      SliceOfSlice(buf, 0, size, start, size);
      DigitsIs(rest, end - start);
      SliceOfSlice(buf, start, size, 0, end - start);
    } else {
      JunkIs(field, size);
      assert field[size..] == [] && buf[start..end] == [];
    }
  }

  lemma {:induction false} JunkIs(field: Bytes, n: nat)
    requires n <= |field| && (forall i :: 0 <= i < n ==> !IsOctal(field[i])) && (n < |field| ==> IsOctal(field[n]))
    ensures Junk(field) == n
  {
    if n > 0 {
      JunkIs(field[1..], n - 1);
    }
  }

  lemma {:induction false} DigitsIs(field: Bytes, n: nat)
    requires n <= |field| && (forall i :: 0 <= i < n ==> IsOctal(field[i])) && (n < |field| ==> !IsOctal(field[n]))
    ensures Digits(field) == n
  {
    if n > 0 {
      DigitsIs(field[1..], n - 1);
    }
  }

  predicate AllZero(header: Bytes)
  {
    forall i :: 0 <= i < |header| ==> header[i] == 0
  }

  method CheckEndOfArchive(header: Bytes) returns (r: bool)
    requires |header| == TAR_HDR_SIZE
    ensures r == AllZero(header)
  {
    var offset := TAR_HDR_SIZE - 1;
    while offset >= 0
      invariant -1 <= offset < TAR_HDR_SIZE
      invariant forall i :: offset < i < TAR_HDR_SIZE ==> header[i] == 0
    {
      if header[offset] != 0 {
        return false;
      }
      offset := offset - 1;
    }
    return true;
  }

  /** The position of a character at or after `from`, or -1. */
  function FindChar(text: Bytes, c: byte, from: nat): (r: int)
    requires from <= |text|
    ensures r == -1 || from <= r < |text|
    ensures r == -1 ==> forall i :: from <= i < |text| ==> text[i] != c
    ensures r != -1 ==> text[r] == c && forall i :: from <= i < r ==> text[i] != c
    decreases |text| - from
  {
    if from == |text| then -1 else if text[from] == c then from else FindChar(text, c, from + 1)
  }

  /** A buffer as a C string: what precedes the first zero byte. */
  function Text(buf: Bytes): (t: Bytes)
    ensures |t| <= |buf| && t == buf[..|t|] && 0 !in t
    ensures |t| < |buf| ==> buf[|t|] == 0
  {
    if buf == [] || buf[0] == 0 then [] else [buf[0]] + Text(buf[1..])
  }

  /**
   * Names in the archive have the form <dir>/<number>/file; the file system name starts at the second
   * slash, which is dropped when no further slash follows.
   */
  function FileName(text: Bytes): (name: Option<Bytes>)
  {
    var first := FindChar(text, SLASH, 0);
    if first < 0 then None
    else
      var second := FindChar(text, SLASH, first + 1);
      if second < 0 then None
      else if FindChar(text, SLASH, second + 1) < 0 then Some(text[second + 1..])
      else Some(text[second..])
  }

  datatype Header = EndOfArchive | NoFile | FileHeader(name: Option<Bytes>, size: nat)

  /** What the reader takes from a header; `nameSize` is the size of its name buffer. */
  function ReadHeader(header: Bytes, nameSize: nat): (h: Header)
    requires |header| == TAR_HDR_SIZE && nameSize <= TAR_HDR_SIZE
  {
    if AllZero(header) then EndOfArchive
    else if header[TYPE_OFFSET] == TYPE_FILE || header[TYPE_OFFSET] == 0 then
      FileHeader(FileName(Text(header[..nameSize])), ParseOctal(header[SIZE_OFFSET..SIZE_OFFSET + SIZE_LEN]))
    else NoFile
  }

  // ---------------------------------------------------------------------------------------------
  // The state machine

  datatype Mode = Idle | ParseHdr | ParseCmdFile | ParseCmdSignature | OpenFile | SaveFile | CompletePendingTesting | ParsingFailed

  datatype FileInfo = FileInfo(name: Bytes, saved: bool)

  datatype Stored = Stored(name: Bytes, content: Bytes)

  datatype Status = Continue | ForceReadMore | DownloadDone | Error(code: ErrorCode)

  datatype ErrorCode = SecurityAlert | FileNameSlashes | OpenError | SaveChunkError | CloseError | CommandFileError

  /**
   * `stored` are the files closed so far and `written` the bytes in the file being written: the flash file
   * system, as far as the reader has changed it.
   */
  datatype Archive = Archive(
    mode: Mode,
    total: nat,
    name: Bytes,
    fileSize: nat,
    offset: nat,
    table: seq<FileInfo>,
    numSaved: nat,
    stored: seq<Stored>,
    written: Bytes)

  /**
   * The outside world in one call: how many bytes the file system accepts (negative for an error), whether
   * opening and closing succeed, and what the parser of the command files does with the window.
   */
  datatype World = World(accepted: int, opens: bool, closes: bool, command: Command)

  datatype Command = Command(fails: bool, processed: nat, done: bool, entries: seq<Bytes>)

  function InitArchive(): (a: Archive)
  {
    Archive(Idle, 0, [], 0, 0, [], 0, [], [])
  }

  /** The index of the first table entry with that name, or -1. */
  function FindEntry(table: seq<FileInfo>, name: Bytes): (r: int)
    ensures -1 <= r < |table|
    ensures r == -1 ==> forall i :: 0 <= i < |table| ==> table[i].name != name
    ensures r >= 0 ==> table[r].name == name && forall i :: 0 <= i < r ==> table[i].name != name
  {
    FindFrom(table, name, 0)
  }

  function FindFrom(table: seq<FileInfo>, name: Bytes, i: nat): (r: int)
    requires i <= |table|
    ensures r == -1 || i <= r < |table|
    ensures r == -1 ==> forall k :: i <= k < |table| ==> table[k].name != name
    ensures r >= 0 ==> table[r].name == name && forall k :: i <= k < r ==> table[k].name != name
    decreases |table| - i
  {
    if i == |table| then -1 else if table[i].name == name then i else FindFrom(table, name, i + 1)
  }

  datatype Reply = Reply(a: Archive, status: Status, processed: nat)

  /** Bytes up to the next multiple of 512. */
  function Alignment(total: nat): (n: nat)
    ensures n < TAR_HDR_SIZE
  {
    if total % TAR_HDR_SIZE == 0 then 0 else TAR_HDR_SIZE - total % TAR_HDR_SIZE
  }

  /** Parsing a header: skips to the next block and takes one block of 512 bytes, if the window reaches so far. */
  function StepHeader(a: Archive, window: Bytes, nameSize: nat): (r: Reply)
    requires nameSize <= TAR_HDR_SIZE
    ensures r.processed <= |window| && r.a.total == a.total + r.processed
  {
    var skip := Alignment(a.total);
    if 0 < skip && |window| <= skip then Reply(a.(total := a.total + |window|), Continue, |window|)
    else if |window| - skip < TAR_HDR_SIZE then
      Reply(a.(total := a.total + skip), if skip == 0 then ForceReadMore else Continue, skip)
    else
      var taken := skip + TAR_HDR_SIZE;
      var (b, status) := Taken(a.(total := a.total + taken), ReadHeader(window[skip..taken], nameSize));
      Reply(b, status, taken)
  }

  /** What follows from a header: the end of the archive asks for every listed file to be saved. */
  function Taken(a: Archive, header: Header): (r: (Archive, Status))
    ensures r.0.total == a.total
  {
    match header
    case EndOfArchive =>
      if |a.table| == a.numSaved then (a.(mode := CompletePendingTesting), DownloadDone)
      else (a.(mode := ParsingFailed), Error(SecurityAlert))
    case NoFile => (a, Continue)
    case FileHeader(None, _) => (a.(mode := ParsingFailed), Error(FileNameSlashes))
    case FileHeader(Some(name), size) =>
      (a.(name := name, fileSize := size, offset := 0, written := [],
          mode := if name == CMD_FILE then ParseCmdFile
                  else if name == SIGNATURE_FILE then ParseCmdSignature else OpenFile),
       Continue)
  }

  /** Only files that the command file lists, and lists as not yet saved, are opened. */
  function StepOpen(a: Archive, world: World): (r: Reply)
    ensures r.processed == 0 && r.a.total == a.total
  {
    var i := FindEntry(a.table, a.name);
    if i < 0 || a.table[i].saved then Reply(a.(mode := ParsingFailed), Error(SecurityAlert), 0)
    else if !world.opens then Reply(a.(mode := ParsingFailed), Error(OpenError), 0)
    else Reply(a.(mode := SaveFile), Continue, 0)
  }

  /** The bytes of the window that belong to the file. */
  function Chunk(a: Archive, window: Bytes): (n: nat)
    requires a.offset <= a.fileSize
    ensures n <= |window| && a.offset + n <= a.fileSize
  {
    if a.offset + |window| >= a.fileSize then a.fileSize - a.offset else |window|
  }

  function StepSave(a: Archive, window: Bytes, world: World): (r: Reply)
    requires a.offset <= a.fileSize && world.accepted <= Chunk(a, window)
    ensures r.processed <= |window| && r.a.total == a.total + r.processed
  {
    if world.accepted < 0 then Reply(a.(mode := ParsingFailed), Error(SaveChunkError), 0)
    else
      var n := world.accepted;
      var b := a.(offset := a.offset + n, total := a.total + n, written := a.written + window[..n]);
      if b.offset != a.fileSize then Reply(b, Continue, n)
      else if !world.closes then Reply(b.(mode := ParsingFailed), Error(CloseError), n)
      else
        var i := FindEntry(a.table, a.name);
        var c := b.(mode := ParseHdr, stored := a.stored + [Stored(a.name, b.written)], written := []);
        if i < 0 then Reply(c, Continue, n)
        else
          Reply(c.(table := a.table[i := a.table[i].(saved := true)], numSaved := a.numSaved + 1), Continue, n)
  }

  /** The parser of the command file: it takes some of the file's bytes and lists the files it has read about. */
  function StepCommand(a: Archive, world: World): (r: Reply)
    ensures r.a.total == a.total + r.processed
  {
    var c := world.command;
    if c.fails then Reply(a.(mode := if a.mode == ParseCmdFile then Idle else ParsingFailed), Error(CommandFileError), 0)
    else
      var entries := seq(|c.entries|, i requires 0 <= i < |c.entries| => FileInfo(c.entries[i], false));
      Reply(a.(total := a.total + c.processed, offset := a.offset + c.processed,
               table := if a.mode == ParseCmdFile then a.table + entries else a.table,
               mode := if c.done then ParseHdr else a.mode),
            Continue, c.processed)
  }

  function RoundUp(total: nat): (n: nat)
    ensures total <= n < total + TAR_HDR_SIZE
  {
    total + Alignment(total)
  }

  /**
   * What the world may do: the file system accepts any part of a chunk or fails; a command parser stays
   * within the window, and where it declares itself done, the next block boundary is the end of its file.
   */
  predicate Allowed(a: Archive, window: Bytes, world: World)
  {
    && (a.mode == SaveFile ==> a.offset <= a.fileSize && world.accepted <= Chunk(a, window))
    && (a.mode in {ParseCmdFile, ParseCmdSignature} ==>
          && a.offset <= a.total && world.command.processed <= |window|
          && (world.command.done ==> RoundUp(a.total + world.command.processed) == RoundUp(a.total - a.offset + a.fileSize)))
  }

  function Process(a: Archive, window: Bytes, world: World, nameSize: nat): (r: Reply)
    requires nameSize <= TAR_HDR_SIZE && Allowed(a, window, world)
    ensures r.processed <= |window|
    ensures a.mode != Idle ==> r.a.total == a.total + r.processed
  {
    match a.mode
    case Idle => Reply(a.(mode := ParseHdr, total := 0, table := []), Continue, 0)
    case ParseHdr => StepHeader(a, window, nameSize)
    case ParseCmdFile => StepCommand(a, world)
    case ParseCmdSignature => StepCommand(a, world)
    case OpenFile => StepOpen(a, world)
    case SaveFile => StepSave(a, window, world)
    case CompletePendingTesting => Reply(a, Continue, 0)
    case ParsingFailed => Reply(a, Continue, 0)
  }

  /** Giving up an update: the table is emptied, but the count of saved files is not reset. */
  function Abort(a: Archive): (a': Archive)
  {
    a.(mode := Idle, table := [])
  }

  // ---------------------------------------------------------------------------------------------
  // The reader itself

  method FindCharIn(text: Bytes, c: byte, from: nat) returns (r: int)
    requires from <= |text|
    ensures r == FindChar(text, c, from)
  {
    for i := from to |text|
      invariant FindChar(text, c, from) == FindChar(text, c, i)
    {
      if text[i] == c {
        return i;
      }
    }
    return -1;
  }

  class OtaArchive {
    const nameSize: nat
    var mode: Mode
    var total: nat
    var name: Bytes
    var fileSize: nat
    var offset: nat
    var table: seq<FileInfo>
    var numSaved: nat
    ghost var stored: seq<Stored>
    ghost var written: Bytes

    ghost function Value(): (a: Archive)
      reads this
    {
      Archive(mode, total, name, fileSize, offset, table, numSaved, stored, written)
    }

    constructor (nameSize: nat)
      ensures Value() == InitArchive() && this.nameSize == nameSize
    {
      this.nameSize := nameSize;
      mode, total, name, fileSize, offset, table, numSaved := Idle, 0, [], 0, 0, [], 0;
      stored, written := [], [];
    }

    method GetInfoByFileName(fileName: Bytes) returns (r: int)
      ensures r == FindEntry(table, fileName)
    {
      for i := 0 to |table|
        invariant FindEntry(table, fileName) == FindFrom(table, fileName, i)
      {
        if table[i].name == fileName {
          return i;
        }
      }
      return -1;
    }

    /** The name under which the file system stores an entry. */
    method FileNameOf(header: Bytes) returns (r: Option<Bytes>)
      requires |header| == TAR_HDR_SIZE && nameSize <= TAR_HDR_SIZE
      ensures r == FileName(Text(header[..nameSize]))
    {
      var text := Text(header[..nameSize]);
      var first := FindCharIn(text, SLASH, 0);
      if first < 0 {
        return None;
      }
      var second := FindCharIn(text, SLASH, first + 1);
      if second < 0 {
        return None;
      }
      var third := FindCharIn(text, SLASH, second + 1);
      return Some(if third < 0 then text[second + 1..] else text[second..]);
    }

    method ProcessHeader(window: Bytes) returns (status: Status, processed: nat)
      requires nameSize <= TAR_HDR_SIZE
      modifies this
      ensures Reply(Value(), status, processed) == StepHeader(old(Value()), window, nameSize)
    {
      processed := 0;
      var rest := window;
      if total % TAR_HDR_SIZE != 0 {
        var skip := TAR_HDR_SIZE - total % TAR_HDR_SIZE;
        if |rest| <= skip {
          processed := |rest|;
          total := total + |rest|;
          return Continue, processed;
        }
        rest := rest[skip..];
        processed := skip;
        total := total + skip;
      }
      if TAR_HDR_SIZE > |rest| {
        return (if processed == 0 then ForceReadMore else Continue), processed;
      }
      assert rest[..TAR_HDR_SIZE] == window[processed..processed + TAR_HDR_SIZE];
      processed := processed + TAR_HDR_SIZE;
      total := total + TAR_HDR_SIZE;
      status := TakeHeader(rest);
    }

    method TakeHeader(rest: Bytes) returns (status: Status)
      requires nameSize <= TAR_HDR_SIZE <= |rest|
      modifies this
      ensures Value() == Taken(old(Value()), ReadHeader(rest[..TAR_HDR_SIZE], nameSize)).0
      ensures status == Taken(old(Value()), ReadHeader(rest[..TAR_HDR_SIZE], nameSize)).1
    {
      var header := rest[..TAR_HDR_SIZE];
      ghost var read := ReadHeader(header, nameSize);
      var end := CheckEndOfArchive(header);
      if end {
        if |table| == numSaved {
          mode := CompletePendingTesting;
          return DownloadDone;
        }
        mode := ParsingFailed;
        return Error(SecurityAlert);
      }
      if header[TYPE_OFFSET] != TYPE_FILE && header[TYPE_OFFSET] != 0 {
        assert read == NoFile;
        return Continue;
      }
      var fileName := FileNameOf(header);
      if fileName.None? {
        mode := ParsingFailed;
        return Error(FileNameSlashes);
      }
      var size := ReadSize(rest);
      assert read == FileHeader(fileName, size);
      name, fileSize, offset, written := fileName.value, size, 0, [];
      mode := if name == CMD_FILE then ParseCmdFile
              else if name == SIGNATURE_FILE then ParseCmdSignature else OpenFile;
      return Continue;
    }

    /** Where the window holds no octal digit from the size field on, the size is taken to be 0. */
    method ReadSize(rest: Bytes) returns (size: nat)
      requires TAR_HDR_SIZE <= |rest|
      ensures size == ParseOctal(rest[..TAR_HDR_SIZE][SIZE_OFFSET..SIZE_OFFSET + SIZE_LEN])
    {
      var tail := rest[SIZE_OFFSET..];
      assert tail[..SIZE_LEN] == rest[..TAR_HDR_SIZE][SIZE_OFFSET..SIZE_OFFSET + SIZE_LEN];
      if exists i :: 0 <= i < |tail| && IsOctal(tail[i]) {
        size := ParseOctec(tail, SIZE_LEN);
      } else {
        JunkIs(tail[..SIZE_LEN], SIZE_LEN);
        assert tail[..SIZE_LEN][SIZE_LEN..] == [];
        size := 0;
      }
    }

    method ProcessOpen(opens: bool) returns (status: Status)
      modifies this`mode
      ensures forall world: World :: world.opens == opens ==>
                Reply(Value(), status, 0) == StepOpen(old(Value()), world)
    {
      var i := GetInfoByFileName(name);
      if i < 0 || table[i].saved {
        mode := ParsingFailed;
        return Error(SecurityAlert);
      }
      if !opens {
        mode := ParsingFailed;
        return Error(OpenError);
      }
      mode := SaveFile;
      return Continue;
    }

    method ProcessSave(window: Bytes, world: World) returns (status: Status, processed: nat)
      requires offset <= fileSize && world.accepted <= Chunk(Value(), window)
      modifies this
      ensures Reply(Value(), status, processed) == StepSave(old(Value()), window, world)
    {
      if world.accepted < 0 {
        mode := ParsingFailed;
        return Error(SaveChunkError), 0;
      }
      processed := world.accepted;
      offset := offset + processed;
      total := total + processed;
      written := written + window[..processed];
      if offset != fileSize {
        return Continue, processed;
      }
      if !world.closes {
        mode := ParsingFailed;
        return Error(CloseError), processed;
      }
      stored := stored + [Stored(name, written)];
      written := [];
      var i := GetInfoByFileName(name);
      if i >= 0 {
        table := table[i := table[i].(saved := true)];
        numSaved := numSaved + 1;
      }
      mode := ParseHdr;
      return Continue, processed;
    }

    method ProcessWindow(window: Bytes, world: World) returns (status: Status, processed: nat)
      requires nameSize <= TAR_HDR_SIZE && Allowed(Value(), window, world)
      modifies this
      ensures Reply(Value(), status, processed) == Process(old(Value()), window, world, nameSize)
    {
      status, processed := Continue, 0;
      match mode {
        case Idle =>
          mode, total, table := ParseHdr, 0, [];
        case ParseHdr =>
          status, processed := ProcessHeader(window);
        case ParseCmdFile =>
          status, processed := ProcessCommand(world.command);
        case ParseCmdSignature =>
          status, processed := ProcessCommand(world.command);
        case OpenFile =>
          status := ProcessOpen(world.opens);
        case SaveFile =>
          status, processed := ProcessSave(window, world);
        case CompletePendingTesting =>
        case ParsingFailed =>
      }
    }

    /** The effect of the parsers of the command file and of its signature on the reader. */
    method ProcessCommand(c: Command) returns (status: Status, processed: nat)
      modifies this
      ensures forall world: World :: world.command == c ==>
                Reply(Value(), status, processed) == StepCommand(old(Value()), world)
    {
      if c.fails {
        mode := if mode == ParseCmdFile then Idle else ParsingFailed;
        return Error(CommandFileError), 0;
      }
      if mode == ParseCmdFile {
        table := table + seq(|c.entries|, i requires 0 <= i < |c.entries| => FileInfo(c.entries[i], false));
      }
      processed := c.processed;
      total := total + processed;
      offset := offset + processed;
      if c.done {
        mode := ParseHdr;
      }
      return Continue, processed;
    }

    method GiveUp()
      modifies this`mode, this`table
      ensures Value() == Abort(old(Value()))
    {
      mode, table := Idle, [];
    }
  }
}
