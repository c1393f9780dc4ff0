/** What the archive reader answers, and under which names it stores files. */
module TarStatus {
  import opened Common
  import opened TarArchive
  import opened TarRuns
  import opened TarVerdict

  // ---------------------------------------------------------------------------------------------
  // The answer of one call

  /** The download is reported done iff the archive is complete, and an error iff it is rejected or begun anew. */
  lemma StatusTells(a: Archive, window: Bytes, world: World, nameSize: nat, r: Reply)
    requires nameSize <= TAR_HDR_SIZE && Allowed(a, window, world) && !Decided(a)
    requires r == Process(a, window, world, nameSize)
    ensures r.status == DownloadDone <==> r.a.mode == CompletePendingTesting
    ensures r.status.Error? <==> r.a.mode == ParsingFailed || (a.mode == ParseCmdFile && r.a.mode == Idle)
    ensures r.a.mode == Idle <==> a.mode == ParseCmdFile && r.status == Error(CommandFileError)
  {
    match a.mode {
      case ParseHdr => HeaderStatusTells(a, window, nameSize, r);
      case _ =>
    }
  }

  lemma HeaderStatusTells(a: Archive, window: Bytes, nameSize: nat, r: Reply)
    requires nameSize <= TAR_HDR_SIZE && a.mode == ParseHdr && r == StepHeader(a, window, nameSize)
    ensures r.status == DownloadDone <==> r.a.mode == CompletePendingTesting
    ensures r.status.Error? <==> r.a.mode == ParsingFailed
    ensures r.a.mode != Idle
  {
    var skip := Alignment(a.total);
    if |window| - skip >= TAR_HDR_SIZE {
      var taken := skip + TAR_HDR_SIZE;
      TakenStatusTells(a.(total := a.total + taken), ReadHeader(window[skip..taken], nameSize));
    }
  }

  lemma TakenStatusTells(a: Archive, header: Header)
    requires a.mode == ParseHdr
    ensures Taken(a, header).1 == DownloadDone <==> header == EndOfArchive && |a.table| == a.numSaved
    ensures Taken(a, header).1 == Error(SecurityAlert) <==> header == EndOfArchive && |a.table| != a.numSaved
    ensures Taken(a, header).1 == Error(FileNameSlashes) <==> header.FileHeader? && header.name == None
    ensures Taken(a, header).1 == DownloadDone <==> Taken(a, header).0.mode == CompletePendingTesting
    ensures Taken(a, header).1.Error? <==> Taken(a, header).0.mode == ParsingFailed
    ensures Taken(a, header).1 != ForceReadMore && Taken(a, header).0.mode != Idle
  {
  }

  /** A call asks for more data iff it is at a block boundary and the window holds no whole header, so that nothing is taken. */
  lemma ForcesRead(a: Archive, window: Bytes, world: World, nameSize: nat, r: Reply)
    requires nameSize <= TAR_HDR_SIZE && Allowed(a, window, world) && r == Process(a, window, world, nameSize)
    ensures r.status == ForceReadMore <==>
              a.mode == ParseHdr && a.total % TAR_HDR_SIZE == 0 && |window| < TAR_HDR_SIZE
    ensures r.status == ForceReadMore ==> r.processed == 0 && r.a == a
  {
    match a.mode {
      case ParseHdr =>
        var skip := Alignment(a.total);
        if |window| - skip >= TAR_HDR_SIZE {
          var taken := skip + TAR_HDR_SIZE;
          TakenStatusTells(a.(total := a.total + taken), ReadHeader(window[skip..taken], nameSize));
        }
      case _ =>
    }
  }

  /** Each error has its cause: outside headers, what the table, the file system or the command parser says. */
  lemma ErrorTells(a: Archive, window: Bytes, world: World, nameSize: nat, r: Reply)
    requires nameSize <= TAR_HDR_SIZE && Allowed(a, window, world) && r == Process(a, window, world, nameSize)
    requires a.mode != ParseHdr
    ensures r.status == Error(SecurityAlert) <==> a.mode == OpenFile && !Listed(a)
    ensures r.status == Error(OpenError) <==> a.mode == OpenFile && Listed(a) && !world.opens
    ensures r.status == Error(SaveChunkError) <==> a.mode == SaveFile && world.accepted < 0
    ensures r.status == Error(CloseError) <==>
              a.mode == SaveFile && world.accepted >= 0 && a.offset + world.accepted == a.fileSize && !world.closes
    ensures r.status == Error(CommandFileError) <==> a.mode in {ParseCmdFile, ParseCmdSignature} && world.command.fails
    ensures r.status != Error(FileNameSlashes) && r.status != DownloadDone && r.status != ForceReadMore
  {
  }

  /** The command file lists the current file, and the first entry of that name is not yet saved. */
  predicate Listed(a: Archive)
  {
    exists i :: 0 <= i < |a.table| && a.table[i] == FileInfo(a.name, false)
                && forall j :: 0 <= j < i ==> a.table[j].name != a.name
  }

  // ---------------------------------------------------------------------------------------------
  // The answers of a run

  function Answers(src: Source, a: Archive, k: nat, feeds: seq<Feed>): (answers: seq<Status>)
    requires ValidSource(src) && Cooperative(src, a, k, feeds)
    decreases |feeds|
  {
    if feeds == [] then []
    else
      var r := FeedTo(src.s, a, feeds[0], src.nameSize);
      [r.status] + Answers(src, r.a, EntryAfter(src, r.a, k), feeds[1..])
  }

  /** The answer that a run gives as its verdict: the download is done, or an error. */
  ghost predicate Announces(answers: seq<Status>, done: bool)
  {
    exists i :: 0 <= i < |answers| && if done then answers[i] == DownloadDone else answers[i].Error?
  }

  lemma {:induction false} DecidedStays(src: Source, a: Archive, k: nat, feeds: seq<Feed>)
    requires ValidSource(src) && Cooperative(src, a, k, feeds) && Decided(a)
    ensures Final(src, a, k, feeds) == a
    ensures forall status :: status in Answers(src, a, k, feeds) ==> status == Continue
    decreases |feeds|
  {
    if feeds != [] {
      DecidedCall(src, a, feeds[0]);
      DecidedStays(src, a, EntryAfter(src, a, k), feeds[1..]);
    }
  }

  lemma DecidedCall(src: Source, a: Archive, f: Feed)
    requires ValidSource(src) && CanFeed(src.s, a, f) && Decided(a)
    ensures FeedTo(src.s, a, f, src.nameSize) == Reply(a, Continue, 0)
  {
  }

  lemma CallAnswers(src: Source, a: Archive, k: nat, f: Feed, r: Reply)
    requires ValidSource(src) && Told(src, a, k) && CanCooperate(src, a, k, f) && !Decided(a)
    requires r == FeedTo(src.s, a, f, src.nameSize)
    ensures r.status == DownloadDone <==> r.a.mode == CompletePendingTesting
    ensures r.status.Error? <==> r.a.mode == ParsingFailed
  {
    StepTold(src, a, k, f, r.a);
    FeedAnswers(src.s, a, f, src.nameSize, r);
  }

  lemma FeedAnswers(s: Bytes, a: Archive, f: Feed, nameSize: nat, r: Reply)
    requires nameSize <= TAR_HDR_SIZE && CanFeed(s, a, f) && !Decided(a)
    requires r == FeedTo(s, a, f, nameSize) && r.a.mode != Idle
    ensures r.status == DownloadDone <==> r.a.mode == CompletePendingTesting
    ensures r.status.Error? <==> r.a.mode == ParsingFailed
  {
    StatusTells(a, s[a.total..a.total + f.len], f.world, nameSize, r);
  }

  /** Over a run whose calls do not fail, its caller is told the verdict: done iff it is accepted, an error iff it is rejected. */
  lemma {:induction false} AnswersTellVerdict(src: Source, a: Archive, k: nat, feeds: seq<Feed>)
    requires ValidSource(src) && Told(src, a, k) && Cooperative(src, a, k, feeds) && !Decided(a)
    ensures Announces(Answers(src, a, k, feeds), true) <==> Final(src, a, k, feeds).mode == CompletePendingTesting
    ensures Announces(Answers(src, a, k, feeds), false) <==> Final(src, a, k, feeds).mode == ParsingFailed
    decreases |feeds|
  {
    if feeds != [] {
      var r := FeedTo(src.s, a, feeds[0], src.nameSize);
      var k' := EntryAfter(src, r.a, k);
      CallAnswers(src, a, k, feeds[0], r);
      StepTold(src, a, k, feeds[0], r.a);
      var rest := Answers(src, r.a, k', feeds[1..]);
      AnnouncesFirst(r.status, rest);
      if Decided(r.a) {
        DecidedStays(src, r.a, k', feeds[1..]);
        NothingAnnounced(rest);
      } else {
        AnswersTellVerdict(src, r.a, k', feeds[1..]);
      }
    }
  }

  lemma AnnouncesFirst(first: Status, rest: seq<Status>)
    ensures Announces([first] + rest, true) <==> first == DownloadDone || Announces(rest, true)
    ensures Announces([first] + rest, false) <==> first.Error? || Announces(rest, false)
  {
    var all := [first] + rest;
    assert all[0] == first && forall i :: 0 <= i < |rest| ==> all[i + 1] == rest[i];
    assert forall i :: 0 < i < |all| ==> all[i] == rest[i - 1];
  }

  lemma NothingAnnounced(answers: seq<Status>)
    requires forall status :: status in answers ==> status == Continue
    ensures !Announces(answers, true) && !Announces(answers, false)
  {
    assert forall i :: 0 <= i < |answers| ==> answers[i] in answers;
  }

  /** From the start, and with the table and the count of the entries so far: done iff the first entry that decides accepts. */
  lemma CallerLearnsFate(src: Source, feeds: seq<Feed>, e: Archive) returns (k: nat)
    requires ValidSource(src) && Reaches(src, feeds, e) && Decided(e)
    ensures Decides(src, k)
    ensures Announces(Answers(src, InitArchive(), 0, feeds), true) <==> FateAt(src, k) == Accepted
    ensures Announces(Answers(src, InitArchive(), 0, feeds), false) <==> FateAt(src, k) == Rejected
  {
    StartIsTold(src);
    k := VerdictIsFate(src, feeds, e);
    AnswersTellVerdict(src, InitArchive(), 0, feeds);
  }

  // ---------------------------------------------------------------------------------------------
  // File names

  lemma FileNameAt(text: Bytes, first: nat, second: nat)
    requires first < second < |text| && text[first] == SLASH && text[second] == SLASH
    requires (forall i :: 0 <= i < first ==> text[i] != SLASH) && (forall i :: first < i < second ==> text[i] != SLASH)
    ensures FileName(text) == Some(if SLASH in text[second + 1..] then text[second..] else text[second + 1..])
  {
    var rest := text[second + 1..];
    assert forall i :: 0 <= i < |rest| ==> rest[i] == text[second + 1 + i];
    assert forall i :: second < i < |text| ==> text[i] == rest[i - second - 1];
  }

  /**
   * A name <dir>/<number>/file becomes file, and <dir>/<number>/path/file becomes /path/file: what follows the
   * second slash, with that slash iff a further one follows.
   */
  lemma FileNameOfPath(dir: Bytes, number: Bytes, rest: Bytes)
    requires SLASH !in dir && SLASH !in number
    ensures FileName(dir + [SLASH] + number + [SLASH] + rest) == Some(if SLASH in rest then [SLASH] + rest else rest)
  {
    var text := dir + [SLASH] + number + [SLASH] + rest;
    var second := |dir| + 1 + |number|;
    assert forall i :: |dir| < i < second ==> text[i] == number[i - |dir| - 1];
    assert text[second + 1..] == rest && text[second..] == [SLASH] + rest;
    FileNameAt(text, |dir|, second);
  }

  /** A name without two slashes is refused. */
  lemma FileNameNeedsSlashes(dir: Bytes, number: Bytes)
    requires SLASH !in dir && SLASH !in number
    ensures FileName(dir) == None && FileName(dir + [SLASH] + number) == None
  {
    var text := dir + [SLASH] + number;
    assert forall i :: |dir| + 1 <= i < |text| ==> text[i] in number;
  }
}
