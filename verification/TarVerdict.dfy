/**
 * What the archive reader decides about a stream: with a file system that does not fail and given what the
 * command files list, the verdict is a function of the stream, and feeding the stream reaches it.
 */
module TarVerdict {
  import opened TarArchive
  import opened TarRuns

  // ---------------------------------------------------------------------------------------------
  // The verdict of a stream, entry by entry

  datatype Ledger = Ledger(table: seq<FileInfo>, numSaved: nat)

  datatype Fate = Passes | Accepted | Rejected

  /** What an entry leads to, after what the entries before it have left in the table. */
  function FateOf(l: Ledger, header: Header): (fate: Fate)
  {
    match header
    case EndOfArchive => if |l.table| == l.numSaved then Accepted else Rejected
    case NoFile => Passes
    case FileHeader(None, _) => Rejected
    case FileHeader(Some(name), _) =>
      if name == CMD_FILE || name == SIGNATURE_FILE then Passes
      else
        var i := FindEntry(l.table, name);
        if i < 0 || l.table[i].saved then Rejected else Passes
  }

  function Unsaved(names: seq<Bytes>): (entries: seq<FileInfo>)
  {
    seq(|names|, i requires 0 <= i < |names| => FileInfo(names[i], false))
  }

  /** The table behind an entry; `names` are what it lists, if it is a command file. */
  function AfterEntry(l: Ledger, header: Header, names: seq<Bytes>): (l': Ledger)
  {
    if !header.FileHeader? || header.name.None? then l
    else
      var name := header.name.value;
      if name == CMD_FILE then l.(table := l.table + Unsaved(names))
      else if name == SIGNATURE_FILE then l
      else
        var i := FindEntry(l.table, name);
        if i < 0 then l else Ledger(l.table[i := l.table[i].(saved := true)], l.numSaved + 1)
  }

  /** The stream, the size of the reader's name buffer, and what the k-th entry lists. */
  datatype Source = Source(s: Bytes, nameSize: nat, lists: nat -> seq<Bytes>)

  predicate ValidSource(src: Source)
  {
    src.nameSize <= TAR_HDR_SIZE
  }

  function LedgerAt(src: Source, k: nat): (l: Ledger)
    requires ValidSource(src)
  {
    if k == 0 then Ledger([], 0)
    else AfterEntry(LedgerAt(src, k - 1), HeaderNo(src.s, k - 1, src.nameSize), src.lists(k - 1))
  }

  function FateAt(src: Source, k: nat): (fate: Fate)
    requires ValidSource(src)
  {
    FateOf(LedgerAt(src, k), HeaderNo(src.s, k, src.nameSize))
  }

  ghost predicate AllPass(src: Source, k: nat)
    requires ValidSource(src)
  {
    forall j: nat :: j < k ==> FateAt(src, j) == Passes
  }

  // ---------------------------------------------------------------------------------------------
  // The reader in one entry

  /** What holds of the table, the count and the verdict while the reader is in an entry. */
  ghost predicate InLedger(a: Archive, h: nat, header: Header, l: Ledger, names: seq<Bytes>)
  {
    && a.numSaved == l.numSaved
    && (if a.mode == ParseCmdFile then l.table <= a.table && a.table <= l.table + Unsaved(names) else a.table == l.table)
    && (a.mode == Idle ==> l.table == [])
    && (a.mode == SaveFile ==> FateOf(l, header) == Passes)
    && (a.mode == CompletePendingTesting ==> FateOf(l, header) == Accepted)
    && (a.mode == ParsingFailed ==> FateOf(l, header) == Rejected && a.total == h + TAR_HDR_SIZE)
  }

  /** What holds just behind it. */
  ghost predicate LeftLedger(a: Archive, header: Header, l: Ledger, names: seq<Bytes>)
  {
    FateOf(l, header) == Passes && Ledger(a.table, a.numSaved) == AfterEntry(l, header, names)
  }

  /** The file system does not fail, and the parsers list what there is to list. */
  predicate Cooperates(a: Archive, l: Ledger, names: seq<Bytes>, world: World)
  {
    && (a.mode == OpenFile ==> world.opens)
    && (a.mode == SaveFile ==> world.accepted >= 0 && world.closes)
    && (a.mode == ParseCmdSignature ==> !world.command.fails)
    && (a.mode == ParseCmdFile ==>
          var table, all := a.table + Unsaved(world.command.entries), l.table + Unsaved(names);
          !world.command.fails && table <= all && (world.command.done ==> table == all))
  }

  /** The reader is in the entry or has just left it, and the table says so. */
  ghost predicate Kept(s: Bytes, r: Archive, h: nat, header: Header, l: Ledger, names: seq<Bytes>, before: seq<Stored>)
  {
    || (AtEntry(s, r, h, header) && r.stored == before && InLedger(r, h, header, l, names))
    || (Behind(s, r, h, header, before) && LeftLedger(r, header, l, names))
  }

  lemma HeaderKept(s: Bytes, a: Archive, h: nat, header: Header, l: Ledger, names: seq<Bytes>, len: nat, nameSize: nat,
                   r: Archive)
    requires nameSize <= TAR_HDR_SIZE && header == HeaderIn(s, h, nameSize)
    requires a.mode == ParseHdr && a.total + len <= |s|
    requires h % TAR_HDR_SIZE == 0 && AtEntry(s, a, h, header) && InLedger(a, h, header, l, names)
    requires r == StepHeader(a, s[a.total..a.total + len], nameSize).a
    ensures Kept(s, r, h, header, l, names, a.stored) && r.mode != Idle
  {
    HeaderRead(s, a, h, len, nameSize, r);
    if h + TAR_HDR_SIZE <= a.total + len {
      TakenKept(s, a.(total := h + TAR_HDR_SIZE), h, header, l, names, r);
    } else {
      RoundUpIs(r.total, h);
    }
  }

  lemma TakenKept(s: Bytes, a: Archive, h: nat, header: Header, l: Ledger, names: seq<Bytes>, r: Archive)
    requires a.mode == ParseHdr && h % TAR_HDR_SIZE == 0 && a.total == h + TAR_HDR_SIZE <= |s|
    requires a.table == l.table && a.numSaved == l.numSaved && r == Taken(a, header).0
    ensures Kept(s, r, h, header, l, names, a.stored) && r.mode != Idle
  {
    HeaderTaken(s, a, h, header);
  }

  lemma CommandKept(s: Bytes, a: Archive, h: nat, header: Header, l: Ledger, names: seq<Bytes>, len: nat, world: World,
                    r: Archive)
    requires a.mode in {ParseCmdFile, ParseCmdSignature} && a.total + len <= |s|
    requires h % TAR_HDR_SIZE == 0 && AtEntry(s, a, h, header) && InLedger(a, h, header, l, names)
    requires Allowed(a, s[a.total..a.total + len], world) && Cooperates(a, l, names, world)
    requires r == StepCommand(a, world).a
    ensures Kept(s, r, h, header, l, names, a.stored) && r.mode != Idle
  {
    CommandStep(s, a, h, header, len, world, r);
  }

  lemma OpenKept(s: Bytes, a: Archive, h: nat, header: Header, l: Ledger, names: seq<Bytes>, world: World, r: Archive)
    requires a.mode == OpenFile && AtEntry(s, a, h, header) && InLedger(a, h, header, l, names)
    requires Cooperates(a, l, names, world) && r == StepOpen(a, world).a
    ensures Kept(s, r, h, header, l, names, a.stored) && r.mode != Idle
  {
    OpenStep(s, a, h, header, world, r);
  }

  lemma SaveKept(s: Bytes, a: Archive, h: nat, header: Header, l: Ledger, names: seq<Bytes>, len: nat, world: World,
                 r: Archive)
    requires a.mode == SaveFile && a.total + len <= |s|
    requires h % TAR_HDR_SIZE == 0 && AtEntry(s, a, h, header) && InLedger(a, h, header, l, names)
    requires world.accepted <= Chunk(a, s[a.total..a.total + len]) && Cooperates(a, l, names, world)
    requires r == StepSave(a, s[a.total..a.total + len], world).a
    ensures Kept(s, r, h, header, l, names, a.stored) && r.mode != Idle
  {
    SaveStep(s, a, h, header, len, world, r);
  }

  lemma EntryKept(s: Bytes, a: Archive, h: nat, header: Header, l: Ledger, names: seq<Bytes>, len: nat, world: World,
                  nameSize: nat, r: Archive)
    requires nameSize <= TAR_HDR_SIZE && header == HeaderIn(s, h, nameSize) && a.total + len <= |s|
    requires h % TAR_HDR_SIZE == 0 && AtEntry(s, a, h, header) && InLedger(a, h, header, l, names)
    requires Allowed(a, s[a.total..a.total + len], world) && Cooperates(a, l, names, world)
    requires r == Process(a, s[a.total..a.total + len], world, nameSize).a
    ensures Kept(s, r, h, header, l, names, a.stored) && r.mode != Idle
  {
    match a.mode {
      case ParseHdr => HeaderKept(s, a, h, header, l, names, len, nameSize, r);
      case SaveFile => SaveKept(s, a, h, header, l, names, len, world, r);
      case ParseCmdFile => CommandKept(s, a, h, header, l, names, len, world, r);
      case ParseCmdSignature => CommandKept(s, a, h, header, l, names, len, world, r);
      case OpenFile => OpenKept(s, a, h, header, l, names, world, r);
      case _ => RestStep(s, a, h, header, r);
    }
  }

  // ---------------------------------------------------------------------------------------------
  // The reader in the stream

  /** The reader is in the k-th entry, and the entries before it have passed. */
  ghost predicate Told(src: Source, a: Archive, k: nat)
    requires ValidSource(src)
  {
    && At(src.s, a, k, src.nameSize) && AllPass(src, k)
    && InLedger(a, HeaderAt(src.s, k, src.nameSize), HeaderNo(src.s, k, src.nameSize), LedgerAt(src, k), src.lists(k))
  }

  /** In front of which header the reader is. */
  function EntryAfter(src: Source, r: Archive, k: nat): (k': nat)
    requires ValidSource(src)
  {
    if r.mode == ParseHdr && RoundUp(r.total) != HeaderAt(src.s, k, src.nameSize) then k + 1 else k
  }

  predicate CanCooperate(src: Source, a: Archive, k: nat, f: Feed)
    requires ValidSource(src)
  {
    CanFeed(src.s, a, f) && Cooperates(a, LedgerAt(src, k), src.lists(k), f.world)
  }

  lemma StepTold(src: Source, a: Archive, k: nat, f: Feed, r: Archive)
    requires ValidSource(src) && Told(src, a, k) && CanCooperate(src, a, k, f)
    requires r == FeedTo(src.s, a, f, src.nameSize).a
    ensures Told(src, r, EntryAfter(src, r, k)) && r.mode != Idle
  {
    var h, header, l := HeaderAt(src.s, k, src.nameSize), HeaderNo(src.s, k, src.nameSize), LedgerAt(src, k);
    HeaderAligned(src.s, k, src.nameSize);
    EntryKept(src.s, a, h, header, l, src.lists(k), f.len, f.world, src.nameSize, r);
    KeptIsTold(src, a, k, r);
  }

  lemma KeptIsTold(src: Source, a: Archive, k: nat, r: Archive)
    requires ValidSource(src) && Told(src, a, k) && r.mode != Idle
    requires Kept(src.s, r, HeaderAt(src.s, k, src.nameSize), HeaderNo(src.s, k, src.nameSize), LedgerAt(src, k),
                  src.lists(k), a.stored)
    ensures Told(src, r, EntryAfter(src, r, k))
  {
    var h, header, l := HeaderAt(src.s, k, src.nameSize), HeaderNo(src.s, k, src.nameSize), LedgerAt(src, k);
    if Behind(src.s, r, h, header, a.stored) && LeftLedger(r, header, l, src.lists(k)) {
      LeftIsTold(src, r, k, a.stored);
    } else {
      assert EntryAfter(src, r, k) == k;
    }
  }

  lemma LeftIsTold(src: Source, r: Archive, k: nat, before: seq<Stored>)
    requires ValidSource(src) && AllPass(src, k)
    requires NoEndBefore(src.s, k, src.nameSize) && before == FilesIn(src.s, k, src.nameSize)
    requires Behind(src.s, r, HeaderAt(src.s, k, src.nameSize), HeaderNo(src.s, k, src.nameSize), before)
    requires LeftLedger(r, HeaderNo(src.s, k, src.nameSize), LedgerAt(src, k), src.lists(k))
    ensures EntryAfter(src, r, k) == k + 1 && Told(src, r, k + 1)
  {
    NextEntry(src.s, r, k, before, src.nameSize);
    OneMorePasses(src, k);
    NextLedger(src, k);
    LeftIsInNext(r, HeaderAt(src.s, k + 1, src.nameSize), HeaderNo(src.s, k + 1, src.nameSize), LedgerAt(src, k + 1),
                 src.lists(k + 1));
  }

  lemma OneMorePasses(src: Source, k: nat)
    requires ValidSource(src) && AllPass(src, k) && FateAt(src, k) == Passes
    ensures AllPass(src, k + 1)
  {
    forall j: nat | j < k + 1
      ensures FateAt(src, j) == Passes
    {
      assert j < k || j == k;
    }
  }

  lemma NextLedger(src: Source, k: nat)
    requires ValidSource(src)
    ensures LedgerAt(src, k + 1) == AfterEntry(LedgerAt(src, k), HeaderNo(src.s, k, src.nameSize), src.lists(k))
  {
  }

  lemma LeftIsInNext(a: Archive, h: nat, header: Header, l: Ledger, names: seq<Bytes>)
    requires a.mode == ParseHdr && Ledger(a.table, a.numSaved) == l
    ensures InLedger(a, h, header, l, names)
  {
  }

  predicate Cooperative(src: Source, a: Archive, k: nat, feeds: seq<Feed>)
    requires ValidSource(src)
    decreases |feeds|
  {
    feeds != [] ==>
      && CanCooperate(src, a, k, feeds[0])
      && var r := FeedTo(src.s, a, feeds[0], src.nameSize).a;
         Cooperative(src, r, EntryAfter(src, r, k), feeds[1..])
  }

  function Final(src: Source, a: Archive, k: nat, feeds: seq<Feed>): (e: Archive)
    requires ValidSource(src) && Cooperative(src, a, k, feeds)
    decreases |feeds|
  {
    if feeds == [] then a
    else
      var r := FeedTo(src.s, a, feeds[0], src.nameSize).a;
      Final(src, r, EntryAfter(src, r, k), feeds[1..])
  }

  lemma {:induction false} RunTold(src: Source, a: Archive, k: nat, feeds: seq<Feed>) returns (k': nat)
    requires ValidSource(src) && Told(src, a, k) && Cooperative(src, a, k, feeds)
    ensures Told(src, Final(src, a, k, feeds), k')
    decreases |feeds|
  {
    if feeds == [] {
      k' := k;
    } else {
      var r := FeedTo(src.s, a, feeds[0], src.nameSize).a;
      StepTold(src, a, k, feeds[0], r);
      k' := RunTold(src, r, EntryAfter(src, r, k), feeds[1..]);
    }
  }

  predicate Decided(a: Archive)
  {
    a.mode == CompletePendingTesting || a.mode == ParsingFailed
  }

  /** No part of the current entry's data has been read yet. */
  ghost predicate Whole(a: Archive, l: Ledger)
  {
    && a.offset <= a.fileSize
    && (a.mode in {ParseCmdFile, ParseCmdSignature, SaveFile} ==> a.offset == 0)
    && (a.mode == ParseCmdFile ==> a.table == l.table)
  }

  /** A run from the start that ends in state e. */
  ghost predicate Reaches(src: Source, feeds: seq<Feed>, e: Archive)
    requires ValidSource(src)
  {
    Cooperative(src, InitArchive(), 0, feeds) && e == Final(src, InitArchive(), 0, feeds)
  }

  /** The k-th entry decides: the ones before it pass, and it does not. */
  ghost predicate Decides(src: Source, k: nat)
    requires ValidSource(src)
  {
    AllPass(src, k) && FateAt(src, k) != Passes
  }

  /** The archive is accepted iff the first entry that does not pass is an end of archive with all files saved. */
  lemma VerdictIsFate(src: Source, feeds: seq<Feed>, e: Archive) returns (k: nat)
    requires ValidSource(src) && Reaches(src, feeds, e) && Decided(e)
    ensures Decides(src, k) && FateAt(src, k) == if e.mode == CompletePendingTesting then Accepted else Rejected
    ensures Ledger(e.table, e.numSaved) == LedgerAt(src, k) && e.stored == FilesIn(src.s, k, src.nameSize)
    ensures e.total == HeaderAt(src.s, k, src.nameSize) + TAR_HDR_SIZE
  {
    StartIsTold(src);
    k := RunTold(src, InitArchive(), 0, feeds);
    DecidedAt(src, e, k);
  }

  lemma StartIsTold(src: Source)
    requires ValidSource(src)
    ensures Told(src, InitArchive(), 0) && Whole(InitArchive(), LedgerAt(src, 0))
  {
    assert FilesIn(src.s, 0, src.nameSize) == [];
  }

  lemma DecidedAt(src: Source, e: Archive, k: nat)
    requires ValidSource(src) && Told(src, e, k) && Decided(e)
    ensures Decides(src, k) && FateAt(src, k) == if e.mode == CompletePendingTesting then Accepted else Rejected
    ensures Ledger(e.table, e.numSaved) == LedgerAt(src, k) && e.stored == FilesIn(src.s, k, src.nameSize)
    ensures e.total == HeaderAt(src.s, k, src.nameSize) + TAR_HDR_SIZE
  {
    DecidedIn(src.s, e, HeaderAt(src.s, k, src.nameSize), HeaderNo(src.s, k, src.nameSize), LedgerAt(src, k), src.lists(k));
  }

  lemma DecidedIn(s: Bytes, e: Archive, h: nat, header: Header, l: Ledger, names: seq<Bytes>)
    requires AtEntry(s, e, h, header) && InLedger(e, h, header, l, names) && Decided(e)
    ensures FateOf(l, header) == if e.mode == CompletePendingTesting then Accepted else Rejected
    ensures Ledger(e.table, e.numSaved) == l && e.total == h + TAR_HDR_SIZE
  {
  }

  lemma DataIn(s: Bytes, a: Archive, h: nat, header: Header, l: Ledger, names: seq<Bytes>)
    requires AtEntry(s, a, h, header) && InLedger(a, h, header, l, names)
    requires a.mode in {ParseCmdFile, ParseCmdSignature, SaveFile}
    ensures FateOf(l, header) == Passes && a.offset <= a.total && a.total - a.offset + a.fileSize <= EntryEnd(h, header)
  {
  }

  lemma OneDecides(src: Source, j: nat, k: nat)
    requires ValidSource(src) && Decides(src, j) && Decides(src, k)
    ensures j == k
  {
  }

  /**
   * However a stream is cut and whatever parts of chunks are accepted: all runs that come to a verdict come to
   * the same one, with the same table, the same count and the same files, at the same byte.
   */
  lemma VerdictDoesNotDependOnCutting(src: Source, feeds: seq<Feed>, e: Archive, feeds': seq<Feed>, e': Archive)
    requires ValidSource(src) && Reaches(src, feeds, e) && Decided(e) && Reaches(src, feeds', e') && Decided(e')
    ensures e.mode == e'.mode && e.table == e'.table && e.numSaved == e'.numSaved && e.stored == e'.stored
    ensures e.total == e'.total
  {
    var k := VerdictIsFate(src, feeds, e);
    var k' := VerdictIsFate(src, feeds', e');
    OneDecides(src, k, k');
  }

  // ---------------------------------------------------------------------------------------------
  // Feeding all that is left is a run that comes to a verdict

  /** All of a chunk is accepted, and all that is left of a command file is parsed at once. */
  function EagerWorld(a: Archive, window: Bytes, names: seq<Bytes>): (world: World)
    requires a.offset <= a.fileSize
  {
    World(if a.mode == SaveFile then Chunk(a, window) else 0, true, true, Command(false, a.fileSize - a.offset, true, names))
  }

  /** The whole rest of the stream. */
  function Rest(src: Source, a: Archive, k: nat): (f: Feed)
    requires ValidSource(src) && a.total <= |src.s| && a.offset <= a.fileSize
  {
    var len := |src.s| - a.total;
    Feed(len, EagerWorld(a, src.s[a.total..a.total + len], src.lists(k)))
  }

  function Rank(m: Mode): (n: nat)
  {
    match m
    case Idle => 4
    case ParseHdr => 3
    case OpenFile => 2
    case _ => 1
  }

  lemma {:induction false} HeadersFollow(s: Bytes, j: nat, k: nat, nameSize: nat)
    requires nameSize <= TAR_HDR_SIZE && j < k
    ensures EntryEnd(HeaderAt(s, j, nameSize), HeaderNo(s, j, nameSize)) <= HeaderAt(s, k, nameSize)
    decreases k
  {
    if j + 1 < k {
      HeadersFollow(s, j, k - 1, nameSize);
    }
  }

  lemma NotBeyond(src: Source, k: nat, last: nat)
    requires ValidSource(src) && Decides(src, last) && AllPass(src, k)
    ensures k <= last
  {
  }

  /** An entry that passes before the deciding one has all its data in the stream. */
  lemma DataIsThere(src: Source, k: nat, last: nat)
    requires ValidSource(src) && Decides(src, last) && HeaderAt(src.s, last, src.nameSize) + TAR_HDR_SIZE <= |src.s|
    requires AllPass(src, k) && FateAt(src, k) == Passes
    ensures k < last
    ensures EntryEnd(HeaderAt(src.s, k, src.nameSize), HeaderNo(src.s, k, src.nameSize)) + TAR_HDR_SIZE <= |src.s|
  {
    NotBeyond(src, k, last);
    HeadersFollow(src.s, k, last, src.nameSize);
  }

  lemma EagerIsAllowed(a: Archive, window: Bytes, names: seq<Bytes>)
    requires a.offset <= a.fileSize
    requires a.mode in {ParseCmdFile, ParseCmdSignature} ==> a.offset <= a.total && a.fileSize - a.offset <= |window|
    ensures Allowed(a, window, EagerWorld(a, window, names))
  {
  }

  lemma EagerCooperates(a: Archive, l: Ledger, window: Bytes, names: seq<Bytes>)
    requires a.offset <= a.fileSize && (a.mode == ParseCmdFile ==> a.table == l.table)
    ensures Cooperates(a, l, names, EagerWorld(a, window, names))
  {
  }

  /** In a command file or an open file, the entry passes, and what is left of its data is in the stream. */
  lemma EnoughIsLeft(src: Source, a: Archive, k: nat, last: nat)
    requires ValidSource(src) && Told(src, a, k) && a.mode in {ParseCmdFile, ParseCmdSignature, SaveFile}
    requires Decides(src, last) && HeaderAt(src.s, last, src.nameSize) + TAR_HDR_SIZE <= |src.s|
    ensures k < last && a.total - a.offset + a.fileSize <= |src.s| && a.offset <= a.total
  {
    DataIn(src.s, a, HeaderAt(src.s, k, src.nameSize), HeaderNo(src.s, k, src.nameSize), LedgerAt(src, k), src.lists(k));
    DataIsThere(src, k, last);
  }

  /** Feeding the rest is possible. */
  lemma RestIsPossible(src: Source, a: Archive, k: nat, last: nat)
    requires ValidSource(src) && Told(src, a, k) && Whole(a, LedgerAt(src, k)) && !Decided(a)
    requires Decides(src, last) && HeaderAt(src.s, last, src.nameSize) + TAR_HDR_SIZE <= |src.s|
    ensures CanCooperate(src, a, k, Rest(src, a, k))
  {
    if a.mode in {ParseCmdFile, ParseCmdSignature} {
      EnoughIsLeft(src, a, k, last);
    }
    var window := src.s[a.total..a.total + (|src.s| - a.total)];
    EagerIsAllowed(a, window, src.lists(k));
    EagerCooperates(a, LedgerAt(src, k), window, src.lists(k));
  }

  /** The step has decided, or left the entry at h, or come closer to its end. */
  ghost predicate MovedOn(a: Archive, h: nat, l: Ledger, r: Archive)
  {
    || Decided(r)
    || (r.mode == ParseHdr && RoundUp(r.total) != h && r.offset <= r.fileSize)
    || (Whole(r, l) && Rank(r.mode) < Rank(a.mode))
  }

  lemma HeaderMovesOn(a: Archive, h: nat, header: Header, l: Ledger, r: Archive)
    requires a.mode == ParseHdr && a.table == l.table && a.offset <= a.fileSize
    requires r == Taken(a.(total := h + TAR_HDR_SIZE), header).0
    ensures MovedOn(a, h, l, r)
  {
  }

  lemma DataMovesOn(a: Archive, h: nat, l: Ledger, window: Bytes, world: World, r: Archive)
    requires Whole(a, l) && a.total >= h + TAR_HDR_SIZE
    requires a.mode in {ParseCmdFile, ParseCmdSignature, SaveFile} && a.fileSize <= |window|
    requires exists names :: world == EagerWorld(a, window, names)
    requires r == if a.mode == SaveFile then StepSave(a, window, world).a else StepCommand(a, world).a
    ensures MovedOn(a, h, l, r)
  {
  }

  /** What there is to read for the current entry is in the stream. */
  ghost predicate Enough(s: Bytes, a: Archive, h: nat, header: Header)
  {
    && h + TAR_HDR_SIZE <= |s|
    && (a.mode in {ParseCmdFile, ParseCmdSignature, SaveFile} ==>
          h + TAR_HDR_SIZE <= a.total && a.total - a.offset + a.fileSize <= |s|)
  }

  lemma EagerMovesOn(s: Bytes, a: Archive, h: nat, header: Header, l: Ledger, names: seq<Bytes>, len: nat, nameSize: nat,
                     world: World, r: Archive)
    requires nameSize <= TAR_HDR_SIZE && header == HeaderIn(s, h, nameSize) && a.total + len == |s|
    requires AtEntry(s, a, h, header) && InLedger(a, h, header, l, names) && Whole(a, l) && !Decided(a)
    requires Enough(s, a, h, header)
    requires world == EagerWorld(a, s[a.total..a.total + len], names)
    requires Allowed(a, s[a.total..a.total + len], world)
    requires r == Process(a, s[a.total..a.total + len], world, nameSize).a
    ensures MovedOn(a, h, l, r)
  {
    if a.mode == ParseHdr {
      HeaderRead(s, a, h, len, nameSize, r);
      HeaderMovesOn(a, h, header, l, r);
    } else if a.mode in {ParseCmdFile, ParseCmdSignature, SaveFile} {
      DataMovesOn(a, h, l, s[a.total..a.total + len], world, r);
    }
  }

  lemma ToldIsEnough(src: Source, a: Archive, k: nat, last: nat)
    requires ValidSource(src) && Told(src, a, k) && !Decided(a)
    requires Decides(src, last) && HeaderAt(src.s, last, src.nameSize) + TAR_HDR_SIZE <= |src.s|
    ensures Enough(src.s, a, HeaderAt(src.s, k, src.nameSize), HeaderNo(src.s, k, src.nameSize))
  {
    NotBeyond(src, k, last);
    HeadersGrow(src.s, k, last, src.nameSize);
    if a.mode in {ParseCmdFile, ParseCmdSignature, SaveFile} {
      EnoughIsLeft(src, a, k, last);
    }
  }

  lemma RestIs(src: Source, a: Archive, k: nat, len: nat, world: World, r: Archive)
    requires ValidSource(src) && a.total + len == |src.s| && a.offset <= a.fileSize
    requires world == EagerWorld(a, src.s[a.total..a.total + len], src.lists(k))
    requires CanFeed(src.s, a, Rest(src, a, k)) && r == FeedTo(src.s, a, Rest(src, a, k), src.nameSize).a
    ensures Allowed(a, src.s[a.total..a.total + len], world)
    ensures r == Process(a, src.s[a.total..a.total + len], world, src.nameSize).a
  {
    assert Rest(src, a, k) == Feed(len, world);
  }

  lemma RestMovesOn(src: Source, a: Archive, k: nat, last: nat, r: Archive)
    requires ValidSource(src) && Told(src, a, k) && Whole(a, LedgerAt(src, k)) && !Decided(a)
    requires Decides(src, last) && HeaderAt(src.s, last, src.nameSize) + TAR_HDR_SIZE <= |src.s|
    requires CanFeed(src.s, a, Rest(src, a, k)) && r == FeedTo(src.s, a, Rest(src, a, k), src.nameSize).a
    ensures MovedOn(a, HeaderAt(src.s, k, src.nameSize), LedgerAt(src, k), r)
  {
    var len := |src.s| - a.total;
    var world := EagerWorld(a, src.s[a.total..a.total + len], src.lists(k));
    ToldIsEnough(src, a, k, last);
    RestIs(src, a, k, len, world, r);
    EagerMovesOn(src.s, a, HeaderAt(src.s, k, src.nameSize), HeaderNo(src.s, k, src.nameSize), LedgerAt(src, k),
                 src.lists(k), len, src.nameSize, world, r);
  }

  lemma HeadersGrow(s: Bytes, j: nat, k: nat, nameSize: nat)
    requires nameSize <= TAR_HDR_SIZE && j <= k
    ensures HeaderAt(s, j, nameSize) <= HeaderAt(s, k, nameSize)
  {
    if j < k {
      HeadersFollow(s, j, k, nameSize);
    }
  }

  /** Feeding the rest again and again comes to a verdict. */
  lemma {:induction false} RestDecides(src: Source, a: Archive, k: nat, last: nat) returns (feeds: seq<Feed>)
    requires ValidSource(src) && Told(src, a, k) && Whole(a, LedgerAt(src, k))
    requires Decides(src, last) && HeaderAt(src.s, last, src.nameSize) + TAR_HDR_SIZE <= |src.s|
    ensures Cooperative(src, a, k, feeds) && Decided(Final(src, a, k, feeds))
    decreases last - k, Rank(a.mode)
  {
    feeds := [];
    if !Decided(a) {
      var f := Rest(src, a, k);
      RestIsPossible(src, a, k, last);
      var r := FeedTo(src.s, a, f, src.nameSize).a;
      StepTold(src, a, k, f, r);
      RestMovesOn(src, a, k, last, r);
      NotBeyond(src, EntryAfter(src, r, k), last);
      var more := [];
      if !Decided(r) {
        more := RestDecides(src, r, EntryAfter(src, r, k), last);
      }
      feeds := [f] + more;
      assert feeds[1..] == more;
    }
  }

  /** So for every stream in which some header decides, there is a run that comes to the verdict. */
  lemma VerdictIsReached(src: Source, last: nat) returns (feeds: seq<Feed>, e: Archive)
    requires ValidSource(src) && Decides(src, last) && HeaderAt(src.s, last, src.nameSize) + TAR_HDR_SIZE <= |src.s|
    ensures Reaches(src, feeds, e) && Decided(e)
  {
    StartIsTold(src);
    feeds := RestDecides(src, InitArchive(), 0, last);
    e := Final(src, InitArchive(), 0, feeds);
  }
}
