/** The count of saved files, on which the archive reader relies to tell whether an update is complete. */
module TarCount {
  import opened TarArchive

  function CountSaved(table: seq<FileInfo>): (n: nat)
    ensures n <= |table|
  {
    if table == [] then 0 else CountSaved(table[..|table| - 1]) + if table[|table| - 1].saved then 1 else 0
  }

  function SavedNames(table: seq<FileInfo>): (m: multiset<Bytes>)
  {
    if table == [] then multiset{}
    else
      var last := table[|table| - 1];
      SavedNames(table[..|table| - 1]) + if last.saved then multiset{last.name} else multiset{}
  }

  function StoredNames(stored: seq<Stored>): (m: multiset<Bytes>)
  {
    if stored == [] then multiset{} else StoredNames(stored[..|stored| - 1]) + multiset{stored[|stored| - 1].name}
  }

  /** The first entry of its name. */
  ghost predicate FirstOfName(table: seq<FileInfo>, i: nat)
    requires i < |table|
  {
    forall j :: 0 <= j < i ==> table[j].name != table[i].name
  }

  /** The counter counts the saved entries, which are those whose files are stored. */
  ghost predicate Counted(a: Archive)
  {
    && a.numSaved == CountSaved(a.table)
    && StoredNames(a.stored) == SavedNames(a.table)
    && (forall i :: 0 <= i < |a.table| && a.table[i].saved ==> FirstOfName(a.table, i))
    && (a.mode == SaveFile ==> FindEntry(a.table, a.name) >= 0 && !a.table[FindEntry(a.table, a.name)].saved)
  }

  lemma {:induction false} MarkSaved(table: seq<FileInfo>, i: nat, t: seq<FileInfo>)
    requires i < |table| && !table[i].saved && t == table[i := table[i].(saved := true)]
    ensures CountSaved(t) == CountSaved(table) + 1 && SavedNames(t) == SavedNames(table) + multiset{table[i].name}
  {
    var n := |table| - 1;
    if i < n {
      MarkSaved(table[..n], i, t[..n]);
    } else {
      assert t[..n] == table[..n];
    }
  }

  lemma {:induction false} AppendUnsaved(table: seq<FileInfo>, more: seq<FileInfo>)
    requires forall i :: 0 <= i < |more| ==> !more[i].saved
    ensures CountSaved(table + more) == CountSaved(table) && SavedNames(table + more) == SavedNames(table)
  {
    if more == [] {
      assert table + more == table;
    } else {
      var n := |more| - 1;
      AppendUnsaved(table, more[..n]);
      assert (table + more)[..|table + more| - 1] == table + more[..n];
    }
  }

  lemma MarkKeepsFirst(table: seq<FileInfo>, i: nat, t: seq<FileInfo>)
    requires i < |table| && t == table[i := table[i].(saved := true)] && FirstOfName(table, i)
    requires forall j :: 0 <= j < |table| && table[j].saved ==> FirstOfName(table, j)
    ensures forall j :: 0 <= j < |t| && t[j].saved ==> FirstOfName(t, j)
  {
    forall j | 0 <= j < |t| && t[j].saved
      ensures FirstOfName(t, j)
    {
      assert FirstOfName(table, j);
    }
  }

  lemma StoreOne(stored: seq<Stored>, f: Stored)
    ensures StoredNames(stored + [f]) == StoredNames(stored) + multiset{f.name}
  {
    assert (stored + [f])[..|stored|] == stored;
  }

  lemma SaveKeepsCounted(a: Archive, window: Bytes, world: World, b: Archive)
    requires Counted(a) && a.mode == SaveFile && a.offset <= a.fileSize && world.accepted <= Chunk(a, window)
    requires b == StepSave(a, window, world).a
    ensures Counted(b)
  {
    if b.mode == ParseHdr {
      var i := FindEntry(a.table, a.name);
      MarkSaved(a.table, i, b.table);
      MarkKeepsFirst(a.table, i, b.table);
      StoreOne(a.stored, b.stored[|a.stored|]);
    }
  }

  lemma CommandKeepsCounted(a: Archive, world: World)
    requires Counted(a) && a.mode in {ParseCmdFile, ParseCmdSignature}
    ensures Counted(StepCommand(a, world).a)
  {
    var c := world.command;
    var entries := seq(|c.entries|, i requires 0 <= i < |c.entries| => FileInfo(c.entries[i], false));
    AppendUnsaved(a.table, entries);
    forall i | 0 <= i < |a.table + entries| && (a.table + entries)[i].saved
      ensures FirstOfName(a.table + entries, i)
    {
      assert i < |a.table| && FirstOfName(a.table, i);
    }
  }

  /** Whether the count agrees depends on no more than the table, the count, the files stored and the open file. */
  lemma CountedFrame(a: Archive, b: Archive)
    requires Counted(a) && b.table == a.table && b.numSaved == a.numSaved && b.stored == a.stored && b.mode != SaveFile
    ensures Counted(b)
  {
  }

  lemma OpenKeepsCounted(a: Archive, world: World)
    requires Counted(a)
    ensures Counted(StepOpen(a, world).a)
  {
    if StepOpen(a, world).a.mode != SaveFile {
      CountedFrame(a, StepOpen(a, world).a);
    }
  }

  lemma IdleKeepsCounted(a: Archive)
    requires Counted(a)
    ensures Counted(a.(mode := ParseHdr, total := 0, table := [])) <==> a.numSaved == 0
  {
    CountAndNames(a.table);
  }

  /** Reading a header touches neither the table nor the count nor the files stored. */
  lemma HeaderFrame(a: Archive, window: Bytes, nameSize: nat, r: Archive)
    requires nameSize <= TAR_HDR_SIZE && a.mode == ParseHdr && r == StepHeader(a, window, nameSize).a
    ensures r.table == a.table && r.numSaved == a.numSaved && r.stored == a.stored && r.mode != SaveFile
  {
    var skip := Alignment(a.total);
    if |window| - skip >= TAR_HDR_SIZE {
      var taken := skip + TAR_HDR_SIZE;
      var header := ReadHeader(window[skip..taken], nameSize);
      assert r == Taken(a.(total := a.total + taken), header).0;
    }
  }

  /**
   * Every call keeps the count in agreement with the table, except exactly when it starts a new archive
   * while files of an old one are counted, for then the table is emptied and the count is not.
   */
  lemma CallKeepsCounted(a: Archive, window: Bytes, world: World, nameSize: nat, r: Archive)
    requires nameSize <= TAR_HDR_SIZE && Counted(a) && Allowed(a, window, world)
    requires r == Process(a, window, world, nameSize).a
    ensures Counted(r) <==> !(a.mode == Idle && a.numSaved != 0)
  {
    match a.mode {
      case ParseHdr =>
        HeaderFrame(a, window, nameSize, r);
        CountedFrame(a, r);
      case SaveFile => SaveKeepsCounted(a, window, world, r);
      case ParseCmdFile => CommandKeepsCounted(a, world);
      case ParseCmdSignature => CommandKeepsCounted(a, world);
      case OpenFile => OpenKeepsCounted(a, world);
      case Idle => IdleKeepsCounted(a);
      case _ =>
    }
  }

  lemma {:induction false} CountAndNames(table: seq<FileInfo>)
    ensures |SavedNames(table)| == CountSaved(table)
  {
    if table != [] {
      CountAndNames(table[..|table| - 1]);
    }
  }

  /** Giving up loses the agreement exactly when files were saved. */
  lemma AbortKeepsCounted(a: Archive)
    requires Counted(a)
    ensures Counted(Abort(a)) <==> a.numSaved == 0
  {
    CountAndNames(a.table);
  }

  lemma {:induction false} AllSaved(table: seq<FileInfo>, i: nat)
    requires CountSaved(table) == |table| && i < |table|
    ensures table[i].saved
  {
    var n := |table| - 1;
    if i < n {
      AllSaved(table[..n], i);
    }
  }

  lemma {:induction false} SavedNameCount(table: seq<FileInfo>, name: Bytes)
    requires forall i, j :: 0 <= i < j < |table| ==> table[i].name != table[j].name
    ensures SavedNames(table)[name] <= 1
    ensures SavedNames(table)[name] == 1 <==> exists i :: 0 <= i < |table| && table[i].name == name && table[i].saved
  {
    if table != [] {
      var n := |table| - 1;
      var init := table[..n];
      SavedNameCount(init, name);
      if table[n].name != name || !table[n].saved {
        if exists i :: 0 <= i < |table| && table[i].name == name && table[i].saved {
          var i :| 0 <= i < |table| && table[i].name == name && table[i].saved;
          assert init[i].name == name && init[i].saved;
        }
      } else {
        assert forall i :: 0 <= i < n ==> init[i].name != name;
      }
    }
  }

  // ---------------------------------------------------------------------------------------------
  // Runs in which updates may be given up and begun anew

  datatype OtaStep = Window(window: Bytes, world: World) | GivenUp

  predicate CanStep(a: Archive, l: OtaStep)
  {
    l.Window? ==> Allowed(a, l.window, l.world)
  }

  function AfterStep(a: Archive, l: OtaStep, nameSize: nat): (a': Archive)
    requires nameSize <= TAR_HDR_SIZE && CanStep(a, l)
  {
    match l
    case Window(window, world) => Process(a, window, world, nameSize).a
    case GivenUp => Abort(a)
  }

  predicate CanProcess(a: Archive, run: seq<OtaStep>, nameSize: nat)
    requires nameSize <= TAR_HDR_SIZE
    decreases |run|
  {
    run != [] ==> CanStep(a, run[0]) && CanProcess(AfterStep(a, run[0], nameSize), run[1..], nameSize)
  }

  function ProcessAll(a: Archive, run: seq<OtaStep>, nameSize: nat): (a': Archive)
    requires nameSize <= TAR_HDR_SIZE && CanProcess(a, run, nameSize)
    decreases |run|
  {
    if run == [] then a else ProcessAll(AfterStep(a, run[0], nameSize), run[1..], nameSize)
  }

  /** An update is given up, or a new one begun, only while no file is counted. */
  predicate Clean(a: Archive, l: OtaStep)
  {
    (l.GivenUp? || a.mode == Idle) ==> a.numSaved == 0
  }

  predicate AllClean(a: Archive, run: seq<OtaStep>, nameSize: nat)
    requires nameSize <= TAR_HDR_SIZE && CanProcess(a, run, nameSize)
    decreases |run|
  {
    run != [] ==> Clean(a, run[0]) && AllClean(AfterStep(a, run[0], nameSize), run[1..], nameSize)
  }

  ghost predicate CountedThroughout(a: Archive, run: seq<OtaStep>, nameSize: nat)
    requires nameSize <= TAR_HDR_SIZE && CanProcess(a, run, nameSize)
    decreases |run|
  {
    Counted(a) && (run != [] ==> CountedThroughout(AfterStep(a, run[0], nameSize), run[1..], nameSize))
  }

  lemma StepKeepsCountedIff(a: Archive, l: OtaStep, nameSize: nat, r: Archive)
    requires nameSize <= TAR_HDR_SIZE && Counted(a) && CanStep(a, l) && r == AfterStep(a, l, nameSize)
    ensures Counted(r) <==> Clean(a, l)
  {
    match l {
      case Window(window, world) => CallKeepsCounted(a, window, world, nameSize, r);
      case GivenUp => AbortKeepsCounted(a);
    }
  }

  /** The count agrees with the table at every moment of a run iff no step gives up or begins while files are counted. */
  lemma {:induction false} CountedIffClean(a: Archive, run: seq<OtaStep>, nameSize: nat)
    requires nameSize <= TAR_HDR_SIZE && Counted(a) && CanProcess(a, run, nameSize)
    ensures CountedThroughout(a, run, nameSize) <==> AllClean(a, run, nameSize)
    ensures AllClean(a, run, nameSize) ==> Counted(ProcessAll(a, run, nameSize))
    decreases |run|
  {
    if run != [] {
      var r := AfterStep(a, run[0], nameSize);
      StepKeepsCountedIff(a, run[0], nameSize, r);
      if Clean(a, run[0]) {
        CountedIffClean(r, run[1..], nameSize);
      }
    }
  }

  lemma {:induction false} CompleteCountsAll(a: Archive, run: seq<OtaStep>, nameSize: nat)
    requires nameSize <= TAR_HDR_SIZE && CanProcess(a, run, nameSize)
    requires a.mode == CompletePendingTesting ==> |a.table| == a.numSaved
    ensures var e := ProcessAll(a, run, nameSize);
            e.mode == CompletePendingTesting ==> |e.table| == e.numSaved
    decreases |run|
  {
    if run != [] {
      CompleteCountsAll(AfterStep(a, run[0], nameSize), run[1..], nameSize);
    }
  }

  /**
   * In such runs, an archive accepted as complete has stored every file its command file lists exactly once,
   * has stored nothing else, and the listed names are distinct.
   */
  lemma CompleteMeansAllSavedOnce(run: seq<OtaStep>, a: Archive, nameSize: nat, name: Bytes)
    requires nameSize <= TAR_HDR_SIZE && CanProcess(InitArchive(), run, nameSize) && AllClean(InitArchive(), run, nameSize)
    requires a == ProcessAll(InitArchive(), run, nameSize) && a.mode == CompletePendingTesting
    ensures forall i, j :: 0 <= i < j < |a.table| ==> a.table[i].name != a.table[j].name
    ensures forall i :: 0 <= i < |a.table| ==> a.table[i].saved
    ensures StoredNames(a.stored)[name] == if FindEntry(a.table, name) >= 0 then 1 else 0
  {
    CountedIffClean(InitArchive(), run, nameSize);
    CompleteCountsAll(InitArchive(), run, nameSize);
    forall i | 0 <= i < |a.table|
      ensures a.table[i].saved && FirstOfName(a.table, i)
    {
      AllSaved(a.table, i);
    }
    SavedNameCount(a.table, name);
  }
}
