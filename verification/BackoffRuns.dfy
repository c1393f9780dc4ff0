/** How long a backoff lasts, over every run. */
module BackoffRuns {
  import opened Common
  import opened TimeEvents
  import opened Dispatcher
  import opened DispatcherRuns
  import opened Backoff

  // ---------------------------------------------------------------------------------------------
  // The index stays in the tables, and a raised index is always cooling down

  ghost predicate HasCooldown(q: seq<Entry<Event<Job>>>, id: nat)
  {
    exists x :: x in q && x.item == Event(id, Cooldown)
  }

  /** The handle refers to the one pending cooldown event, if there is one. */
  ghost predicate Sound(luts: Luts, b: Status)
  {
    && ValidLuts(luts) && b.index < |luts.decay|
    && Accounted(b.evtd) && |b.evtd.pending| <= MAX_PENDING
    && (b.nextUpdate.Some? ==> HasCooldown(b.evtd.pending, b.nextUpdate.value))
    && (forall x :: x in b.evtd.pending && x.item.handler == Cooldown ==> b.nextUpdate == Some(x.item.id))
  }

  ghost predicate Cooling(b: Status)
  {
    b.index > 0 ==> b.nextUpdate.Some? && HasCooldown(b.evtd.pending, b.nextUpdate.value)
  }

  /** Where the pending cooldown is in the queue. */
  lemma CooldownPosition(luts: Luts, b: Status)
    requires Sound(luts, b) && b.nextUpdate.Some?
    ensures var k := IndexOf(b.evtd.pending, b.nextUpdate.value);
            k >= 0 && b.evtd.pending[k].item == Event(b.nextUpdate.value, Cooldown)
            && forall x :: x in RemoveAt(b.evtd.pending, k) ==> x.item.handler != Cooldown
  {
    var q := b.evtd.pending;
    var x :| x in q && x.item == Event(b.nextUpdate.value, Cooldown);
    var i :| 0 <= i < |q| && q[i] == x;
    PendingIdsAreUnique(b.evtd);
    RemovedIsGone(b.evtd, IndexOf(q, b.nextUpdate.value));
  }

  /** Every pending cooldown is due at t. */
  ghost predicate CooldownsDueAt(q: seq<Entry<Event<Job>>>, t: int)
  {
    forall x :: x in q && x.item.handler == Cooldown ==> x.due == t
  }

  lemma MovedCooldown(q: seq<Entry<Event<Job>>>, k: nat, t: int)
    requires k < |q| && q[k].item.handler == Cooldown
    requires forall x :: x in RemoveAt(q, k) ==> x.item.handler != Cooldown
    ensures var q' := TimeEvents.Restart(q, k, t);
            && HasCooldown(q', q[k].item.id) && CooldownsDueAt(q', t)
            && forall x :: x in q' && x.item.handler == Cooldown ==> x.item.id == q[k].item.id
  {
    var e := Entry(t, q[k].item);
    InsertMembers(RemoveAt(q, k), RestartPosition(q, k, t), e);
    assert e in TimeEvents.Restart(q, k, t);
  }

  lemma RestartCooldownIsSound(luts: Luts, b: Status, memory: bool)
    requires Sound(luts, b) && b.nextUpdate.Some?
    ensures var b' := RestartUpdateTime(luts, b, memory);
            Sound(luts, b') && CooldownsDueAt(b'.evtd.pending, b.evtd.now + luts.decay[b.index])
  {
    var id, k := b.nextUpdate.value, IndexOf(b.evtd.pending, b.nextUpdate.value);
    CooldownPosition(luts, b);
    RestartAccounts(b.evtd, id, luts.decay[b.index]);
    MovedCooldown(b.evtd.pending, k, b.evtd.now + luts.decay[b.index]);
  }

  lemma ScheduleCooldownIsSound(luts: Luts, b: Status, memory: bool)
    requires Sound(luts, b) && b.nextUpdate.None? && CanSchedule(b.evtd, memory)
    ensures var b' := RestartUpdateTime(luts, b, memory);
            Sound(luts, b') && CooldownsDueAt(b'.evtd.pending, b.evtd.now + luts.decay[b.index])
  {
    var e := Entry(b.evtd.now + luts.decay[b.index], Event(b.evtd.nextId, Cooldown));
    ScheduleAccounts(b.evtd, Cooldown, luts.decay[b.index], memory);
    AddMembers(b.evtd.pending, e);
    assert e in RestartUpdateTime(luts, b, memory).evtd.pending;
  }

  /** Restarting the update time leaves one cooldown event, due after the decay time of the index, or none if refused. */
  lemma RestartUpdateIsSound(luts: Luts, b: Status, memory: bool)
    requires Sound(luts, b)
    ensures var b' := RestartUpdateTime(luts, b, memory);
            && Sound(luts, b') && b'.index == b.index && b'.class_ == b.class_
            && (b'.nextUpdate.Some? <==> b.nextUpdate.Some? || CanSchedule(b.evtd, memory))
            && b'.evtd.now == b.evtd.now
            && CooldownsDueAt(b'.evtd.pending, b.evtd.now + luts.decay[b.index])
  {
    if b.nextUpdate.Some? {
      RestartCooldownIsSound(luts, b, memory);
    } else if CanSchedule(b.evtd, memory) {
      ScheduleCooldownIsSound(luts, b, memory);
    }
  }

  /** Firing the cooldown leaves none behind, which is what the handler asserts of its handle. */
  lemma FiredCooldownIsGone(luts: Luts, b: Status)
    requires Sound(luts, b) && Due(b.evtd) && b.evtd.pending[0].item.handler == Cooldown
    ensures Sound(luts, b.(evtd := FireTop(b.evtd), nextUpdate := None))
    ensures forall x :: x in FireTop(b.evtd).pending ==> x.item.handler != Cooldown
  {
    FireAccounts(b.evtd);
    assert b.evtd.pending[0] in b.evtd.pending;
    RemovedIsGone(b.evtd, 0);
    assert RemoveAt(b.evtd.pending, 0) == b.evtd.pending[1..];
  }

  lemma CoolIsSound(luts: Luts, b: Status, memory: bool)
    requires Sound(luts, b) && Possible(luts, b, Cool(memory))
    ensures var b' := After(luts, b, Cool(memory));
            && Sound(luts, b') && b'.evtd.now == b.evtd.now && b'.class_ == b.class_
            && b'.index == (if b.class_ == NoBackoff then Max(b.index - 1, 0) else b.index)
            && (b'.index > 0 ==>
                  && (b'.nextUpdate.Some? <==> memory)
                  && CooldownsDueAt(b'.evtd.pending, b.evtd.now + luts.decay[b'.index]))
  {
    FiredCooldownIsGone(luts, b);
    var b1 := b.(evtd := FireTop(b.evtd), nextUpdate := None);
    var b2 := if b.class_ == NoBackoff then Dec(b1) else b1;
    assert Sound(luts, b2);
    if b2.index > 0 {
      RestartUpdateIsSound(luts, b2, memory);
    }
  }

  lemma ReportIsSound(luts: Luts, b: Status, state: ConnState, memory: bool)
    requires Sound(luts, b)
    ensures var b' := Update(luts, b, state, memory);
            && Sound(luts, b') && b'.evtd.now == b.evtd.now && b'.class_ == Classify(state)
            && (Classify(state) == NoBackoff ==>
                  b'.index == b.index && b'.evtd == b.evtd && b'.nextUpdate == b.nextUpdate)
            && (Classify(state) != NoBackoff ==>
                  && (b'.nextUpdate.Some? <==> b.nextUpdate.Some? || CanSchedule(b.evtd, memory))
                  && CooldownsDueAt(b'.evtd.pending, b.evtd.now + luts.decay[b'.index]))
  {
    var i := Min(b.index + 1, |luts.penalty| - 1);
    var b1 := b.(class_ := Classify(state));
    if b1.class_ != NoBackoff {
      var b2 := b1.(index := i);
      assert Sound(luts, b2);
      assert Update(luts, b, state, memory) == RestartUpdateTime(luts, b2, memory);
      RestartUpdateIsSound(luts, b2, memory);
    } else {
      assert Sound(luts, b1);
    }
  }

  lemma OtherKeepsCooldowns(b: Status, a: Action<Job>)
    requires OwnBusiness(b, a)
    ensures var q, q' := b.evtd.pending, Do(b.evtd, a).pending;
            && (forall x: Entry<Event<Job>> :: x.item.handler == Cooldown ==> (x in q' <==> x in q))
            && (|q| <= MAX_PENDING ==> |q'| <= MAX_PENDING)
  {
    OthersKeepMine((h: Job) => h == Cooldown, b.evtd, a);
  }

  lemma OtherIsSound(luts: Luts, b: Status, a: Action<Job>)
    requires Sound(luts, b) && OwnBusiness(b, a)
    ensures Sound(luts, After(luts, b, Other(a)))
  {
    NextAccounts(b.evtd, Call(a));
    OtherKeepsCooldowns(b, a);
    if b.nextUpdate.Some? {
      var x :| x in b.evtd.pending && x.item == Event(b.nextUpdate.value, Cooldown);
      assert x in Do(b.evtd, a).pending;
    }
  }

  lemma FireOtherIsSound(luts: Luts, b: Status)
    requires Sound(luts, b) && Possible(luts, b, FireOther)
    ensures Sound(luts, After(luts, b, FireOther))
  {
    FireAccounts(b.evtd);
    if b.nextUpdate.Some? {
      var x :| x in b.evtd.pending && x.item == Event(b.nextUpdate.value, Cooldown);
      assert x in After(luts, b, FireOther).evtd.pending;
    }
  }

  lemma CancelIsSound(luts: Luts, b: Status)
    requires Sound(luts, b)
    ensures Sound(luts, CancelUpdate(b))
    ensures forall x :: x in CancelUpdate(b).evtd.pending ==> x.item.handler != Cooldown
  {
    if b.nextUpdate.Some? {
      CooldownPosition(luts, b);
      CancelAccounts(b.evtd, b.nextUpdate.value);
      RemoveMembers(b.evtd.pending, IndexOf(b.evtd.pending, b.nextUpdate.value));
    }
  }

  /** Every step keeps the status sound; it keeps the cooldown pending iff the index is 0 or the dispatcher takes the event. */
  lemma AfterIsSound(luts: Luts, b: Status, l: BackoffStep)
    requires Sound(luts, b) && Possible(luts, b, l)
    ensures Sound(luts, After(luts, b, l))
    ensures Cooling(b) && l != CancelCooldown ==>
              (Cooling(After(luts, b, l)) <==> After(luts, b, l).index == 0 || Served(luts, b, l))
  {
    match l {
      case Report(state, memory) => ReportIsSound(luts, b, state, memory);
      case Cool(memory) => CoolIsSound(luts, b, memory);
      case CancelCooldown => CancelIsSound(luts, b);
      case Other(a) => OtherIsSound(luts, b, a);
      case FireOther => FireOtherIsSound(luts, b);
      case Clock(t) =>
    }
  }

  /** In every run, refused events or not, the index stays inside the tables and the handle right. */
  lemma {:induction false} IndexStaysInTables(luts: Luts, b: Status, run: seq<BackoffStep>)
    requires Sound(luts, b) && CanRun(luts, b, run)
    ensures Sound(luts, RunBackoff(luts, b, run)) && RunBackoff(luts, b, run).index < |luts.penalty|
    decreases |run|
  {
    if run != [] {
      AfterIsSound(luts, b, run[0]);
      IndexStaysInTables(luts, After(luts, b, run[0]), run[1..]);
    }
  }

  ghost predicate CoolingThroughout(luts: Luts, b: Status, run: seq<BackoffStep>)
    requires CanRun(luts, b, run)
    decreases |run|
  {
    Cooling(b) && (run != [] ==> CoolingThroughout(luts, After(luts, b, run[0]), run[1..]))
  }

  ghost predicate ServedWhereRaised(luts: Luts, b: Status, run: seq<BackoffStep>)
    requires CanRun(luts, b, run)
    decreases |run|
  {
    run != [] ==>
      && (After(luts, b, run[0]).index == 0 || Served(luts, b, run[0]))
      && ServedWhereRaised(luts, After(luts, b, run[0]), run[1..])
  }

  /** Without cancellation, a positive index always has its cooldown pending iff no cooldown it needed was refused. */
  lemma {:induction false} RaisedIndexIsCooling(luts: Luts, b: Status, run: seq<BackoffStep>)
    requires Sound(luts, b) && Cooling(b) && CanRun(luts, b, run) && CancelCooldown !in run
    ensures CoolingThroughout(luts, b, run) <==> ServedWhereRaised(luts, b, run)
    decreases |run|
  {
    if run != [] {
      var b' := After(luts, b, run[0]);
      AfterIsSound(luts, b, run[0]);
      if Cooling(b') {
        RaisedIndexIsCooling(luts, b', run[1..]);
      }
    }
  }

  lemma NoCooldownToFire(luts: Luts, b: Status)
    requires Sound(luts, b) && b.nextUpdate.None?
    ensures b.evtd.pending != [] ==> b.evtd.pending[0].item.handler != Cooldown
  {
    if b.evtd.pending != [] {
      assert b.evtd.pending[0] in b.evtd.pending;
    }
  }

  /** After a cancellation the index cannot fall any more, however long the dispatcher runs: it waits for a failure. */
  lemma {:induction false} CancelledIndexIsFrozen(luts: Luts, b: Status, run: seq<BackoffStep>)
    requires Sound(luts, b) && b.nextUpdate.None? && CanRun(luts, b, run)
    requires forall i :: 0 <= i < |run| && run[i].Report? ==> Classify(run[i].state) == NoBackoff
    ensures RunBackoff(luts, b, run).index == b.index
    decreases |run|
  {
    if run != [] {
      NoCooldownToFire(luts, b);
      AfterIsSound(luts, b, run[0]);
      CancelledIndexIsFrozen(luts, After(luts, b, run[0]), run[1..]);
    }
  }

  // ---------------------------------------------------------------------------------------------
  // What the index is, read off the reports and the cooldowns

  /** The states that end a connection for good, those without backoff, and all others, which can be recovered. */
  lemma ClassifyTells(state: ConnState)
    ensures Classify(state) == NoBackoff <==> state == StateOk || state == StateWritten
    ensures Classify(state) == Recoverable <==> state.OtherState?
  {
  }

  predicate IsFailure(state: ConnState)
  {
    !state.StateOk? && !state.StateWritten?
  }

  /** Up by one with each failure as far as the table goes; down by one with each cooldown while the last report is good. */
  function Counted(last: nat, index: nat, well: bool, run: seq<BackoffStep>): (index': nat)
    requires index <= last
    ensures index' <= last
    decreases |run|
  {
    if run == [] then index
    else
      match run[0]
      case Report(state, _) =>
        if IsFailure(state) then Counted(last, if index < last then index + 1 else last, false, run[1..])
        else Counted(last, index, true, run[1..])
      case Cool(_) => Counted(last, if well && index > 0 then index - 1 else index, well, run[1..])
      case _ => Counted(last, index, well, run[1..])
  }

  /** In every run the index is that count, whatever else the dispatcher does and refuses. */
  lemma {:induction false} IndexIsCounted(luts: Luts, b: Status, run: seq<BackoffStep>)
    requires CanRun(luts, b, run) && ValidLuts(luts) && b.index < |luts.decay|
    ensures RunBackoff(luts, b, run).index == Counted(|luts.decay| - 1, b.index, b.class_ == NoBackoff, run)
    decreases |run|
  {
    if run != [] {
      var b' := After(luts, b, run[0]);
      IndexStep(luts, b, run[0], b');
      IndexIsCounted(luts, b', run[1..]);
    }
  }

  lemma IndexStep(luts: Luts, b: Status, l: BackoffStep, b': Status)
    requires Possible(luts, b, l) && b' == After(luts, b, l)
    ensures b'.index < |luts.decay|
    ensures match l
            case Report(state, _) =>
              && b'.index == (if IsFailure(state) then Min(b.index + 1, |luts.decay| - 1) else b.index)
              && (b'.class_ == NoBackoff <==> !IsFailure(state))
            case Cool(_) =>
              b'.index == (if b.class_ == NoBackoff && b.index > 0 then b.index - 1 else b.index) && b'.class_ == b.class_
            case _ => b'.index == b.index && b'.class_ == b.class_
  {
  }

  function Failures(run: seq<BackoffStep>): (n: nat)
  {
    if run == [] then 0 else (if run[0].Report? && IsFailure(run[0].state) then 1 else 0) + Failures(run[1..])
  }

  lemma {:induction false} CountedFailures(last: nat, index: nat, well: bool, run: seq<BackoffStep>)
    requires index <= last && forall l :: l in run ==> !l.Cool?
    ensures Counted(last, index, well, run) == Min(index + Failures(run), last)
    decreases |run|
  {
    if run != [] {
      var fails := run[0].Report? && IsFailure(run[0].state);
      var index' := if fails && index < last then index + 1 else index;
      CountedFailures(last, index', if run[0].Report? then !fails else well, run[1..]);
    }
  }

  /** From the start, n failures with no cooldown between them lead to index n, or to the last one. */
  lemma FailuresRaiseIndex(luts: Luts, run: seq<BackoffStep>)
    requires ValidLuts(luts) && CanRun(luts, InitStatus(), run) && forall l :: l in run ==> !l.Cool?
    ensures RunBackoff(luts, InitStatus(), run).index == Min(Failures(run), |luts.decay| - 1)
  {
    IndexIsCounted(luts, InitStatus(), run);
    CountedFailures(|luts.decay| - 1, 0, true, run);
  }

  /** So every further failure makes the penalty strictly higher, whatever the draws, until the last index is reached. */
  lemma FailuresRaisePenalty(luts: Luts, run: seq<BackoffStep>, run': seq<BackoffStep>, draw: nat, draw': nat)
    requires ValidLuts(luts) && Doubling(luts.penalty) && Representable(luts.penalty)
    requires CanRun(luts, InitStatus(), run) && forall l :: l in run ==> !l.Cool?
    requires CanRun(luts, InitStatus(), run') && forall l :: l in run' ==> !l.Cool?
    requires Failures(run) < Failures(run') && Failures(run) < |luts.penalty| - 1
    requires RunBackoff(luts, InitStatus(), run).index < |luts.penalty|
    requires RunBackoff(luts, InitStatus(), run').index < |luts.penalty|
    ensures Penalty(luts.penalty, RunBackoff(luts, InitStatus(), run).index, draw)
          < Penalty(luts.penalty, RunBackoff(luts, InitStatus(), run').index, draw')
  {
    FailuresRaiseIndex(luts, run);
    FailuresRaiseIndex(luts, run');
    BandsAreDisjoint(luts.penalty, Failures(run), Min(Failures(run'), |luts.penalty| - 1), draw, draw');
  }

  // ---------------------------------------------------------------------------------------------
  // The dispatcher is shared: its other clients can keep a cooldown out

  /** Other clients schedule n events. */
  function Crowd(n: nat): (run: seq<BackoffStep>)
  {
    if n == 0 then [] else [Other(ExecuteIn(OtherJob(0), 3600, true))] + Crowd(n - 1)
  }

  lemma {:induction false} CrowdFills(luts: Luts, b: Status, n: nat)
    requires Sound(luts, b) && |b.evtd.pending| + n <= MAX_PENDING
    ensures CanRun(luts, b, Crowd(n))
    ensures var e := RunBackoff(luts, b, Crowd(n));
            |e.evtd.pending| == |b.evtd.pending| + n && e == b.(evtd := e.evtd)
    decreases n
  {
    if n > 0 {
      var l := Other(ExecuteIn(OtherJob(0), 3600, true));
      AfterIsSound(luts, b, l);
      CrowdFills(luts, After(luts, b, l), n - 1);
      assert Crowd(n)[1..] == Crowd(n - 1);
    }
  }

  /**
   * With 64 events of others pending, a failure raises the index to 1 without a cooldown, and from then on
   * the index does not fall in any run, not even when all those events have fired.
   */
  lemma FullDispatcherFreezesBackoff(luts: Luts, b: Status, b1: Status, run: seq<BackoffStep>)
    requires ValidLuts(luts) && |luts.decay| > 1
    requires CanRun(luts, InitStatus(), Crowd(MAX_PENDING)) && b == RunBackoff(luts, InitStatus(), Crowd(MAX_PENDING))
    requires Possible(luts, b, Report(OtherState(0), true)) && b1 == After(luts, b, Report(OtherState(0), true))
    requires CanRun(luts, b1, run)
    requires forall i :: 0 <= i < |run| && run[i].Report? ==> Classify(run[i].state) == NoBackoff
    ensures b1.index == 1 && !Cooling(b1) && RunBackoff(luts, b1, run).index == 1
  {
    InitIsSound(luts);
    CrowdFills(luts, InitStatus(), MAX_PENDING);
    IndexStaysInTables(luts, InitStatus(), Crowd(MAX_PENDING));
    AfterIsSound(luts, b, Report(OtherState(0), true));
    CancelledIndexIsFrozen(luts, b1, run);
  }

  lemma InitIsSound(luts: Luts)
    requires ValidLuts(luts)
    ensures Sound(luts, InitStatus()) && Cooling(InitStatus())
  {
    assert PendingIds<Job>([]) == [] && FiredIds([]) == [] && Issued(0) == [];
  }

  // ---------------------------------------------------------------------------------------------
  // How long recovery takes

  /** decay[1] + ... + decay[k] */
  function DecaySum(decay: seq<int>, k: nat): (t: int)
    requires k < |decay|
  {
    if k == 0 then 0 else DecaySum(decay, k - 1) + decay[k]
  }

  /** No failure is reported, and the clock does not run backwards. */
  predicate Quiet(b: Status, l: BackoffStep)
  {
    match l
    case Report(state, _) => Classify(state) == NoBackoff
    case Clock(t) => b.evtd.now <= t
    case _ => true
  }

  predicate AllQuiet(luts: Luts, b: Status, run: seq<BackoffStep>)
    requires CanRun(luts, b, run)
    decreases |run|
  {
    run != [] ==> Quiet(b, run[0]) && AllQuiet(luts, After(luts, b, run[0]), run[1..])
  }

  /** The index cannot reach 0 before the deadline. */
  ghost predicate NotBefore(luts: Luts, b: Status, deadline: int)
    requires b.index < |luts.decay|
  {
    if b.index == 0 then deadline <= b.evtd.now
    else forall x :: x in b.evtd.pending && x.item.handler == Cooldown ==>
           deadline <= x.due + DecaySum(luts.decay, b.index - 1)
  }

  lemma AfterKeepsDeadline(luts: Luts, b: Status, l: BackoffStep, deadline: int)
    requires Sound(luts, b) && Possible(luts, b, l) && Quiet(b, l)
    requires NotBefore(luts, b, deadline)
    ensures After(luts, b, l).index < |luts.decay| && NotBefore(luts, After(luts, b, l), deadline)
  {
    match l {
      case Cool(memory) =>
        assert b.evtd.pending[0] in b.evtd.pending;
        CoolIsSound(luts, b, memory);
      case Other(a) => OtherKeepsCooldowns(b, a);
      case CancelCooldown => CancelIsSound(luts, b);
      case _ =>
    }
  }

  lemma {:induction false} DeadlineHolds(luts: Luts, b: Status, run: seq<BackoffStep>, deadline: int)
    requires Sound(luts, b) && CanRun(luts, b, run) && AllQuiet(luts, b, run)
    requires NotBefore(luts, b, deadline)
    ensures RunBackoff(luts, b, run).index == 0 ==> deadline <= RunBackoff(luts, b, run).evtd.now
    decreases |run|
  {
    if run != [] {
      AfterKeepsDeadline(luts, b, run[0], deadline);
      AfterIsSound(luts, b, run[0]);
      DeadlineHolds(luts, After(luts, b, run[0]), run[1..], deadline);
    }
  }

  /** After a last failure at time t that leaves index i, the index is not 0 before t + decay[1] + ... + decay[i]. */
  lemma RecoveryTakesAtLeast(luts: Luts, b: Status, state: ConnState, memory: bool, b1: Status, run: seq<BackoffStep>)
    requires Sound(luts, b) && Classify(state) != NoBackoff
    requires b1 == Update(luts, b, state, memory) && b1.index < |luts.decay|
    requires CanRun(luts, b1, run) && AllQuiet(luts, b1, run)
    ensures RunBackoff(luts, b1, run).index == 0 ==>
              b.evtd.now + DecaySum(luts.decay, b1.index) <= RunBackoff(luts, b1, run).evtd.now
  {
    FailureSetsDeadline(luts, b, state, memory);
    DeadlineHolds(luts, b1, run, b.evtd.now + DecaySum(luts.decay, b1.index));
  }

  lemma FailureSetsDeadline(luts: Luts, b: Status, state: ConnState, memory: bool)
    requires Sound(luts, b) && Classify(state) != NoBackoff
    ensures var b1 := Update(luts, b, state, memory);
            && Sound(luts, b1)
            && NotBefore(luts, b1, b.evtd.now + DecaySum(luts.decay, b1.index))
            && (b1.index > 0 ==> CooldownsDueAt(b1.evtd.pending, b.evtd.now + luts.decay[b1.index]))
            && b1.evtd.now == b.evtd.now
  {
    ReportIsSound(luts, b, state, memory);
  }

  /** The dispatcher fires the cooldown exactly when it is due. */
  predicate Punctual(luts: Luts, b: Status, run: seq<BackoffStep>)
    requires CanRun(luts, b, run)
    decreases |run|
  {
    run != [] ==>
      && (run[0].Cool? ==> b.evtd.pending[0].due == b.evtd.now)
      && Punctual(luts, After(luts, b, run[0]), run[1..])
  }

  /** The last step of the run is the one that brings the index down to 0. */
  predicate RecoversAtEnd(luts: Luts, b: Status, run: seq<BackoffStep>)
    requires CanRun(luts, b, run)
    decreases |run|
  {
    && b.index > 0 && run != []
    && if |run| == 1 then After(luts, b, run[0]).index == 0
       else RecoversAtEnd(luts, After(luts, b, run[0]), run[1..])
  }

  ghost predicate OnTime(luts: Luts, b: Status, deadline: int)
    requires b.index < |luts.decay|
  {
    && b.class_ == NoBackoff
    && (b.index > 0 ==> forall x :: x in b.evtd.pending && x.item.handler == Cooldown ==>
          x.due + DecaySum(luts.decay, b.index - 1) == deadline)
  }

  lemma AfterKeepsOnTime(luts: Luts, b: Status, l: BackoffStep, deadline: int)
    requires Sound(luts, b) && Possible(luts, b, l) && Quiet(b, l)
    requires b.index > 0 && OnTime(luts, b, deadline)
    requires l.Cool? ==> b.evtd.pending[0].due == b.evtd.now
    ensures var b' := After(luts, b, l);
            && b'.index < |luts.decay| && OnTime(luts, b', deadline)
            && (b'.index == 0 ==> b'.evtd.now == deadline)
  {
    match l {
      case Cool(memory) => CoolKeepsOnTime(luts, b, memory, deadline, After(luts, b, l));
      case Other(a) => OtherKeepsCooldowns(b, a);
      case CancelCooldown => CancelIsSound(luts, b);
      case _ =>
    }
  }

  lemma CoolKeepsOnTime(luts: Luts, b: Status, memory: bool, deadline: int, b': Status)
    requires Sound(luts, b) && Possible(luts, b, Cool(memory)) && b' == After(luts, b, Cool(memory))
    requires b.index > 0 && OnTime(luts, b, deadline) && b.evtd.pending[0].due == b.evtd.now
    ensures b'.index < |luts.decay| && OnTime(luts, b', deadline) && (b'.index == 0 ==> b'.evtd.now == deadline)
  {
    assert b.evtd.pending[0] in b.evtd.pending;
    CoolIsSound(luts, b, memory);
  }

  lemma {:induction false} PunctualRunIsOnTime(luts: Luts, b: Status, run: seq<BackoffStep>, deadline: int)
    requires Sound(luts, b) && CanRun(luts, b, run) && AllQuiet(luts, b, run)
    requires Punctual(luts, b, run) && RecoversAtEnd(luts, b, run) && OnTime(luts, b, deadline)
    ensures RunBackoff(luts, b, run).evtd.now == deadline
    decreases |run|
  {
    AfterKeepsOnTime(luts, b, run[0], deadline);
    AfterIsSound(luts, b, run[0]);
    if |run| > 1 {
      PunctualRunIsOnTime(luts, After(luts, b, run[0]), run[1..], deadline);
    }
  }

  lemma SuccessKeepsDeadline(luts: Luts, b: Status, success: ConnState, memory: bool, deadline: int)
    requires Sound(luts, b) && Classify(success) == NoBackoff
    requires b.index > 0 ==> CooldownsDueAt(b.evtd.pending, deadline - DecaySum(luts.decay, b.index - 1))
    ensures Sound(luts, Update(luts, b, success, memory)) && OnTime(luts, Update(luts, b, success, memory), deadline)
  {
    assert Update(luts, b, success, memory) == b.(class_ := NoBackoff);
  }

  /** What happens between the failure and the first decay: anything but a further failure and the cooldown itself. */
  predicate Waiting(luts: Luts, b: Status, wait: seq<BackoffStep>)
    requires CanRun(luts, b, wait)
  {
    AllQuiet(luts, b, wait) && forall i :: 0 <= i < |wait| ==> !wait[i].Cool?
  }

  lemma StepKeepsCooldownTime(luts: Luts, b: Status, l: BackoffStep, due: int, b': Status)
    requires Sound(luts, b) && Possible(luts, b, l) && Quiet(b, l) && !l.Cool? && b' == After(luts, b, l)
    requires CooldownsDueAt(b.evtd.pending, due)
    ensures b'.index == b.index && CooldownsDueAt(b'.evtd.pending, due)
  {
    match l {
      case Other(a) => OtherKeepsCooldowns(b, a);
      case CancelCooldown => CancelIsSound(luts, b);
      case _ =>
    }
  }

  lemma {:induction false} WaitKeepsCooldownTime(luts: Luts, b: Status, wait: seq<BackoffStep>, due: int)
    requires Sound(luts, b) && CanRun(luts, b, wait) && Waiting(luts, b, wait) && CooldownsDueAt(b.evtd.pending, due)
    ensures var e := RunBackoff(luts, b, wait);
            Sound(luts, e) && e.index == b.index && CooldownsDueAt(e.evtd.pending, due)
    decreases |wait|
  {
    if wait != [] {
      var b' := After(luts, b, wait[0]);
      AfterIsSound(luts, b, wait[0]);
      StepKeepsCooldownTime(luts, b, wait[0], due, b');
      WaitKeepsCooldownTime(luts, b', wait[1..], due);
    }
  }

  lemma SuccessInTime(luts: Luts, b1: Status, wait: seq<BackoffStep>, b2: Status, success: ConnState, memory: bool,
                      b3: Status, due: int)
    requires Sound(luts, b1) && CooldownsDueAt(b1.evtd.pending, due)
    requires CanRun(luts, b1, wait) && Waiting(luts, b1, wait) && b2 == RunBackoff(luts, b1, wait)
    requires Classify(success) == NoBackoff && b2.index < |luts.decay| && b3 == Update(luts, b2, success, memory)
    ensures Sound(luts, b3) && b3.index == b1.index
    ensures b1.index > 0 ==> OnTime(luts, b3, due + DecaySum(luts.decay, b1.index - 1))
  {
    WaitKeepsCooldownTime(luts, b1, wait, due);
    if b1.index > 0 {
      SuccessKeepsDeadline(luts, b2, success, memory, due + DecaySum(luts.decay, b1.index - 1));
    } else {
      SuccessKeepsDeadline(luts, b2, success, memory, due);
    }
  }

  /**
   * If success is reported at any time before the first decay, and the dispatcher is punctual, the index reaches
   * 0 at exactly t + decay[1] + ... + decay[i], where t is the time of the failure and i the index it left.
   */
  lemma PunctualRecoveryTakesExactly(luts: Luts, b: Status, failure: ConnState, memory: bool, b1: Status,
                                     wait: seq<BackoffStep>, b2: Status, success: ConnState, memory': bool, b3: Status,
                                     run: seq<BackoffStep>)
    requires Sound(luts, b)
    requires Classify(failure) != NoBackoff && b1 == Update(luts, b, failure, memory) && b1.index < |luts.decay|
    requires CanRun(luts, b1, wait) && Waiting(luts, b1, wait) && b2 == RunBackoff(luts, b1, wait)
    requires Classify(success) == NoBackoff && b2.index < |luts.decay| && b3 == Update(luts, b2, success, memory')
    requires CanRun(luts, b3, run) && AllQuiet(luts, b3, run)
    requires Punctual(luts, b3, run) && RecoversAtEnd(luts, b3, run)
    ensures RunBackoff(luts, b3, run).evtd.now == b.evtd.now + DecaySum(luts.decay, b1.index)
  {
    var deadline := b.evtd.now + DecaySum(luts.decay, b1.index);
    ReportIsSound(luts, b, failure, memory);
    SuccessInTime(luts, b1, wait, b2, success, memory', b3, b.evtd.now + luts.decay[b1.index]);
    PunctualRunIsOnTime(luts, b3, run, deadline);
  }

  // ---------------------------------------------------------------------------------------------
  // Such a recovery exists

  ghost predicate IsRecovery(luts: Luts, b: Status, run: seq<BackoffStep>)
  {
    && CanRun(luts, b, run) && AllQuiet(luts, b, run)
    && Punctual(luts, b, run) && RecoversAtEnd(luts, b, run)
  }

  /** Putting one step in front of a recovery. */
  lemma RecoveryPrefix(luts: Luts, b: Status, l: BackoffStep, b': Status, run: seq<BackoffStep>)
    requires Possible(luts, b, l) && b.index > 0 && b' == After(luts, b, l)
    requires Quiet(b, l) && (l.Cool? ==> b.evtd.pending[0].due == b.evtd.now)
    requires if run == [] then b'.index == 0 else IsRecovery(luts, b', run)
    ensures IsRecovery(luts, b, [l] + run)
  {
    assert ([l] + run)[1..] == run;
  }

  /** The connection is well, the index is positive, and its cooldown is pending and not late. */
  ghost predicate Recovering(luts: Luts, b: Status, due: int)
  {
    && Sound(luts, b) && Cooling(b) && Sorted(b.evtd.pending) && b.class_ == NoBackoff && b.index > 0
    && CooldownsDueAt(b.evtd.pending, due) && b.evtd.now <= due
  }

  /** The next step on the way: the clock goes to the due time, then events in front are fired, then the cooldown. */
  function NextStep(b: Status, due: int): (l: BackoffStep)
    requires b.evtd.pending != []
  {
    if b.evtd.now < due then Clock(due)
    else if b.evtd.pending[0].item.handler == Cooldown then Cool(true)
    else FireOther
  }

  lemma CooldownIsThere(luts: Luts, b: Status, due: int) returns (k: nat)
    requires Recovering(luts, b, due)
    ensures k < |b.evtd.pending| && b.evtd.pending[k].item.handler == Cooldown && b.evtd.pending[k].due == due
    ensures b.evtd.pending[0].due <= due
  {
    CooldownPosition(luts, b);
    k := IndexOf(b.evtd.pending, b.nextUpdate.value);
    assert b.evtd.pending[k] in b.evtd.pending;
  }

  /** An event in front of the cooldown is fired. */
  lemma FireInFront(luts: Luts, b: Status, due: int, b': Status)
    requires Recovering(luts, b, due) && b.evtd.now == due && b.evtd.pending[0].item.handler != Cooldown
    requires Possible(luts, b, FireOther) && b' == After(luts, b, FireOther)
    ensures Recovering(luts, b', due) && b'.index == b.index && |b'.evtd.pending| < |b.evtd.pending|
  {
    var k := CooldownIsThere(luts, b, due);
    FireOtherIsSound(luts, b);
    AfterIsSound(luts, b, FireOther);
  }

  /** The cooldown itself is fired, and the next one is scheduled. */
  lemma FireCooldown(luts: Luts, b: Status, due: int, b': Status)
    requires Recovering(luts, b, due) && Possible(luts, b, Cool(true)) && b' == After(luts, b, Cool(true))
    requires b.evtd.now == due
    ensures b'.index == b.index - 1 && (b'.index > 0 ==> Recovering(luts, b', due + luts.decay[b'.index]))
  {
    CoolIsSound(luts, b, true);
    AfterIsSound(luts, b, Cool(true));
    CoolKeepsSorted(luts, b, b');
  }

  lemma CoolKeepsSorted(luts: Luts, b: Status, b': Status)
    requires Possible(luts, b, Cool(true)) && Sorted(b.evtd.pending) && b' == After(luts, b, Cool(true))
    ensures Sorted(b'.evtd.pending)
  {
    if b'.index > 0 {
      ScheduleKeepsSorted(FireTop(b.evtd), Cooldown, luts.decay[b'.index], true, b'.evtd.pending);
    }
  }

  /** From every status that is cooling in time, whatever else is pending, stepping the dispatcher at each due time recovers. */
  lemma {:induction false} RecoveryRunExists(luts: Luts, b: Status, due: int) returns (run: seq<BackoffStep>)
    requires Recovering(luts, b, due)
    ensures IsRecovery(luts, b, run)
    decreases b.index, due - b.evtd.now, |b.evtd.pending|
  {
    var k := CooldownIsThere(luts, b, due);
    assert b.evtd.pending[0] in b.evtd.pending;
    var l := NextStep(b, due);
    var b' := After(luts, b, l);
    var rest := [];
    match l {
      case Clock(_) =>
        rest := RecoveryRunExists(luts, b', due);
      case FireOther =>
        FireInFront(luts, b, due, b');
        rest := RecoveryRunExists(luts, b', due);
      case Cool(_) =>
        FireCooldown(luts, b, due, b');
        if b'.index > 0 {
          rest := RecoveryRunExists(luts, b', due + luts.decay[b'.index]);
        }
    }
    RecoveryPrefix(luts, b, l, b', rest);
    run := [l] + rest;
  }
}
