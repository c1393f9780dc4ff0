/** Who owns a timed task, and when its callback runs, over every run. */
module TimedTaskRuns {
  import opened Common
  import opened TimeEvents
  import opened Dispatcher
  import opened DispatcherRuns
  import opened HandleRegistry
  import opened TimedTasks

  // ---------------------------------------------------------------------------------------------
  // Ownership

  /** Slots hold live tasks, each in one slot. */
  ghost predicate TableOwns(s: Sys)
  {
    && |s.slots| <= MAX_TIMED_EVENTS
    && Distinct(s.slots)
    && (forall t :: t in s.tasks <==> Some(t) in s.slots)
    && (forall t :: t in s.tasks ==> t < s.nextTask)
  }

  ghost predicate ExactlyOneRuns(s: Sys)
  {
    && (s.executing.Some? ==> s.executing.value in s.tasks)
    && (forall t :: t in s.tasks ==> (s.tasks[t].state == Scheduled <==> s.executing != Some(t)))
  }

  ghost predicate PendingFor(q: seq<Entry<Event<Job>>>, event: nat, t: nat)
  {
    exists x :: x in q && x.item == Event(event, TaskJob(t))
  }

  /** A task is scheduled iff its own event is pending, and no other event refers to any task. */
  ghost predicate EventsMatch(s: Sys)
  {
    && (forall t :: t in s.tasks && s.tasks[t].state == Scheduled ==> PendingFor(s.evtd.pending, s.tasks[t].event, t))
    && (forall x :: x in s.evtd.pending && x.item.handler.TaskJob? ==>
          var t := x.item.handler.task;
          t in s.tasks && s.tasks[t].state == Scheduled && s.tasks[t].event == x.item.id)
  }

  ghost predicate Owned(s: Sys)
  {
    Accounted(s.evtd) && TableOwns(s) && ExactlyOneRuns(s) && EventsMatch(s)
  }

  lemma RegisterOwns(s: Sys, pushed: bool)
    requires TableOwns(s) && (None in s.slots || (|s.slots| < MAX_TIMED_EVENTS && pushed))
    ensures var (slots, outcome) := Register(s.slots, MAX_TIMED_EVENTS, s.nextTask, pushed);
            && outcome == Ok && |slots| <= MAX_TIMED_EVENTS && Distinct(slots)
            && (forall t :: Some(t) in slots <==> t == s.nextTask || Some(t) in s.slots)
  {
    var slots := Register(s.slots, MAX_TIMED_EVENTS, s.nextTask, pushed).0;
    ApplyRefinesMap(s.slots, MAX_TIMED_EVENTS, Reg(s.nextTask, pushed));
    var i := if None in s.slots then SlotOf(s.slots, None) else |s.slots|;
    assert slots[i] == Some(s.nextTask);
    forall t | t == s.nextTask || Some(t) in s.slots
      ensures Some(t) in slots
    {
      if t != s.nextTask {
        var k :| 0 <= k < |s.slots| && s.slots[k] == Some(t);
        assert slots[k] == Some(t);
      }
    }
  }

  lemma DeleteOwns(s: Sys, t: nat)
    requires TableOwns(s) && t in s.tasks
    ensures var (slots, outcome) := Delete(s.slots, t);
            && outcome == Ok && |slots| == |s.slots| && Distinct(slots)
            && (forall u :: Some(u) in slots <==> u != t && Some(u) in s.slots)
  {
    var i := SlotOf(s.slots, Some(t));
    var slots := Delete(s.slots, t).0;
    forall u | u != t && Some(u) in s.slots
      ensures Some(u) in slots
    {
      var k :| 0 <= k < |s.slots| && s.slots[k] == Some(u);
      assert slots[k] == Some(u);
    }
  }

  /** The state after an accepted request, for any table that now also holds the new task. */
  ghost function Accepted(s: Sys, delay: int, repeatDelay: int, slots: Slots<nat>): (s': Sys)
  {
    var t := s.nextTask;
    s.(evtd := Schedule(s.evtd, TaskJob(t), delay, true),
       tasks := s.tasks[t := Task(Scheduled, repeatDelay, s.evtd.nextId)],
       slots := slots, nextTask := t + 1,
       requests := s.requests[t := Request(s.evtd.now, delay, repeatDelay)])
  }

  lemma AddIsAccepted(s: Sys, delay: int, repeats: bool, supply: Supply) returns (slots: Slots<nat>)
    requires TableOwns(s) && Registers(s, supply) && CanSchedule(s.evtd, supply.event)
    ensures AddTask(s, delay, repeats, supply).0 == Accepted(s, delay, if repeats then delay else 0, slots)
    ensures |slots| <= MAX_TIMED_EVENTS && Distinct(slots)
    ensures forall t :: Some(t) in slots <==> t == s.nextTask || Some(t) in s.slots
  {
    RegisterOwns(s, supply.slot);
    slots := Register(s.slots, MAX_TIMED_EVENTS, s.nextTask, supply.slot).0;
  }

  lemma AcceptedIsOwned(s: Sys, delay: int, repeatDelay: int, slots: Slots<nat>)
    requires Owned(s) && CanSchedule(s.evtd, true) && |slots| <= MAX_TIMED_EVENTS && Distinct(slots)
    requires forall t :: Some(t) in slots <==> t == s.nextTask || Some(t) in s.slots
    ensures Owned(Accepted(s, delay, repeatDelay, slots))
  {
    var s', e := Accepted(s, delay, repeatDelay, slots),
                 Entry(s.evtd.now + delay, Event(s.evtd.nextId, TaskJob(s.nextTask)));
    ScheduleAccounts(s.evtd, TaskJob(s.nextTask), delay, true);
    AddMembers(s.evtd.pending, e);
    AddEventsMatch(s, s', s.nextTask, e);
  }

  lemma AddKeepsOwned(s: Sys, delay: int, repeats: bool, supply: Supply)
    requires Owned(s)
    requires Registers(s, supply) ==> CanSchedule(s.evtd, supply.event)
    ensures Owned(AddTask(s, delay, repeats, supply).0)
  {
    if Registers(s, supply) {
      var slots := AddIsAccepted(s, delay, repeats, supply);
      AcceptedIsOwned(s, delay, if repeats then delay else 0, slots);
    } else {
      assert AddTask(s, delay, repeats, supply).0 == s;
    }
  }

  /** One more scheduled task with its own event. */
  lemma AddEventsMatch(s: Sys, s': Sys, t: nat, e: Entry<Event<Job>>)
    requires EventsMatch(s) && e.item.handler == TaskJob(t)
    requires t in s.tasks ==> s.tasks[t].state != Scheduled
    requires t in s'.tasks && s'.tasks[t].state == Scheduled && s'.tasks[t].event == e.item.id
    requires forall u :: u != t ==> (u in s'.tasks <==> u in s.tasks) && (u in s.tasks ==> s'.tasks[u] == s.tasks[u])
    requires forall x :: x in s'.evtd.pending <==> x == e || x in s.evtd.pending
    ensures EventsMatch(s')
  {
    assert e in s'.evtd.pending && PendingFor(s'.evtd.pending, e.item.id, t);
    forall u | u in s'.tasks && s'.tasks[u].state == Scheduled
      ensures PendingFor(s'.evtd.pending, s'.tasks[u].event, u)
    {
      if u != t {
        var x :| x in s.evtd.pending && x.item == Event(s.tasks[u].event, TaskJob(u));
        assert x in s'.evtd.pending;
      }
    }
  }

  /** One scheduled task less, and its event taken out. */
  lemma RemoveEventsMatch(s: Sys, s': Sys, t: nat, k: nat)
    requires Accounted(s.evtd) && EventsMatch(s)
    requires k < |s.evtd.pending| && s.evtd.pending[k].item.handler == TaskJob(t)
    requires t in s'.tasks ==> s'.tasks[t].state != Scheduled
    requires forall u :: u != t ==> (u in s'.tasks <==> u in s.tasks) && (u in s.tasks ==> s'.tasks[u] == s.tasks[u])
    requires s'.evtd.pending == RemoveAt(s.evtd.pending, k)
    ensures EventsMatch(s')
  {
    RemovedIsGone(s.evtd, k);
    RemoveMembers(s.evtd.pending, k);
    assert s.evtd.pending[k] in s.evtd.pending;
    forall u | u in s'.tasks && s'.tasks[u].state == Scheduled
      ensures PendingFor(s'.evtd.pending, s'.tasks[u].event, u)
    {
      var x :| x in s.evtd.pending && x.item == Event(s.tasks[u].event, TaskJob(u));
      assert x in s'.evtd.pending;
    }
  }

  /** The position of a scheduled task's event; this is why the cancellation in a removal never fails. */
  lemma ScheduledIsPending(s: Sys, t: nat)
    requires Owned(s) && t in s.tasks && s.tasks[t].state == Scheduled
    ensures var k := IndexOf(s.evtd.pending, s.tasks[t].event);
            k >= 0 && s.evtd.pending[k].item == Event(s.tasks[t].event, TaskJob(t))
  {
    var q := s.evtd.pending;
    var x :| x in q && x.item == Event(s.tasks[t].event, TaskJob(t));
    var i :| 0 <= i < |q| && q[i] == x;
    PendingIdsAreUnique(s.evtd);
  }

  /** A table without one of its tasks. */
  lemma ReleaseKeepsTable(s: Sys, s': Sys, t: nat)
    requires TableOwns(s) && t in s.tasks
    requires s'.slots == Delete(s.slots, t).0 && s'.tasks == s.tasks - {t} && s'.nextTask == s.nextTask
    ensures TableOwns(s')
  {
    DeleteOwns(s, t);
  }

  lemma RemoveScheduledKeepsOwned(s: Sys, handle: int, t: nat)
    requires Owned(s) && ObjectFor(s.slots, handle) == Some(t) && t in s.tasks && s.tasks[t].state == Scheduled
    ensures Owned(RemoveTask(s, handle))
  {
    var s', k := RemoveTask(s, handle), IndexOf(s.evtd.pending, s.tasks[t].event);
    ScheduledIsPending(s, t);
    assert Accounted(s'.evtd) by { CancelAccounts(s.evtd, s.tasks[t].event); }
    assert TableOwns(s') by { ReleaseKeepsTable(s, s', t); }
    assert EventsMatch(s') by { RemoveEventsMatch(s, s', t, k); }
  }

  lemma RemoveKeepsOwned(s: Sys, handle: int)
    requires Owned(s)
    ensures Owned(RemoveTask(s, handle))
  {
    var o := ObjectFor(s.slots, handle);
    if o.Some? && o.value in s.tasks && s.tasks[o.value].state == Scheduled {
      RemoveScheduledKeepsOwned(s, handle, o.value);
    }
  }

  lemma BeginKeepsOwned(s: Sys)
    requires Owned(s) && Possible(s, Begin)
    ensures Owned(BeginTask(s))
    ensures BeginTask(s).executing == Some(s.evtd.pending[0].item.handler.task)
  {
    var t := s.evtd.pending[0].item.handler.task;
    assert s.evtd.pending[0] in s.evtd.pending;
    FireAccounts(s.evtd);
    assert RemoveAt(s.evtd.pending, 0) == s.evtd.pending[1..];
    RemoveEventsMatch(s, BeginTask(s), t, 0);
  }

  lemma EndKeepsOwned(s: Sys, memory: bool)
    requires Owned(s) && Possible(s, End(memory)) && Served(s, End(memory))
    ensures Owned(EndTask(s, memory))
  {
    if Reschedules(s) {
      RescheduleKeepsOwned(s, memory);
    } else {
      ReleaseKeepsTable(s, EndTask(s, memory), s.executing.value);
    }
  }

  lemma RescheduleKeepsOwned(s: Sys, memory: bool)
    requires Owned(s) && Possible(s, End(memory)) && Reschedules(s) && CanSchedule(s.evtd, memory)
    ensures Owned(EndTask(s, memory))
  {
    var t, s' := s.executing.value, EndTask(s, memory);
    var e := Entry(s.evtd.now + s.tasks[t].repeatDelay, Event(s.evtd.nextId, TaskJob(t)));
    assert Accounted(s'.evtd) by { ScheduleAccounts(s.evtd, TaskJob(t), s.tasks[t].repeatDelay, memory); }
    AddMembers(s.evtd.pending, e);
    AddEventsMatch(s, s', t, e);
  }

  lemma OtherKeepsOwned(s: Sys, a: Action<Job>)
    requires Owned(s) && OwnBusiness(s, a)
    ensures Owned(After(s, Other(a)))
  {
    NextAccounts(s.evtd, Dispatcher.Call(a));
    OtherKeepsTaskEvents(s, a);
    var s' := After(s, Other(a));
    forall t | t in s'.tasks && s'.tasks[t].state == Scheduled
      ensures PendingFor(s'.evtd.pending, s'.tasks[t].event, t)
    {
      var x :| x in s.evtd.pending && x.item == Event(s.tasks[t].event, TaskJob(t));
      assert x in s'.evtd.pending;
    }
  }

  /** Other clients leave the events of tasks alone. */
  lemma OtherKeepsTaskEvents(s: Sys, a: Action<Job>)
    requires OwnBusiness(s, a)
    ensures var q, q' := s.evtd.pending, Do(s.evtd, a).pending;
            forall x: Entry<Event<Job>> :: x.item.handler.TaskJob? ==> (x in q' <==> x in q)
  {
    OthersKeepMine((h: Job) => h.TaskJob?, s.evtd, a);
  }

  lemma FireOtherKeepsOwned(s: Sys)
    requires Owned(s) && Possible(s, FireOther)
    ensures Owned(After(s, FireOther))
  {
    FireAccounts(s.evtd);
    var s' := After(s, FireOther);
    forall t | t in s'.tasks && s'.tasks[t].state == Scheduled
      ensures PendingFor(s'.evtd.pending, s'.tasks[t].event, t)
    {
      var x :| x in s.evtd.pending && x.item == Event(s.tasks[t].event, TaskJob(t));
      assert x in s'.evtd.pending;
    }
  }

  lemma AfterKeepsOwned(s: Sys, l: TaskStep)
    requires Owned(s) && Possible(s, l) && Served(s, l)
    ensures Owned(After(s, l))
  {
    match l {
      case AddCall(delay, repeats, supply) => AddKeepsOwned(s, delay, repeats, supply);
      case RemoveCall(handle) => RemoveKeepsOwned(s, handle);
      case Other(a) => OtherKeepsOwned(s, a);
      case FireOther => FireOtherKeepsOwned(s);
      case Begin => BeginKeepsOwned(s);
      case End(memory) => EndKeepsOwned(s, memory);
      case Clock(t) =>
    }
  }

  /**
   * The ownership invariant holds throughout every run in which the dispatcher takes the tasks' events,
   * inside callbacks and between them.
   */
  lemma {:induction false} TasksStayOwned(s: Sys, run: seq<TaskStep>)
    requires Owned(s) && CanRun(s, run) && AllServed(s, run)
    ensures Owned(RunTasks(s, run))
    decreases |run|
  {
    if run != [] {
      AfterKeepsOwned(s, run[0]);
      TasksStayOwned(After(s, run[0]), run[1..]);
    }
  }

  /**
   * What ownership says of one task: it is scheduled iff exactly one pending event refers to it, it runs
   * iff its callback is on the stack, and once released neither a slot nor a pending event refers to it.
   */
  lemma OwnershipOfOneTask(s: Sys, t: nat)
    requires Owned(s)
    ensures (t in s.tasks && s.tasks[t].state == Scheduled)
       <==> exists i :: 0 <= i < |s.evtd.pending| && OnlyEventFor(s.evtd.pending, t, i)
    ensures (t in s.tasks && s.tasks[t].state != Scheduled) <==> s.executing == Some(t)
    ensures t !in s.tasks ==>
              Some(t) !in s.slots && forall x :: x in s.evtd.pending ==> x.item.handler != TaskJob(t)
  {
    var q := s.evtd.pending;
    PendingIdsAreUnique(s.evtd);
    if t in s.tasks && s.tasks[t].state == Scheduled {
      ScheduledIsPending(s, t);
      assert OnlyEventFor(q, t, IndexOf(q, s.tasks[t].event));
    } else {
      forall i | 0 <= i < |q|
        ensures !OnlyEventFor(q, t, i)
      {
        assert q[i] in q;
      }
    }
  }

  ghost predicate OnlyEventFor(q: seq<Entry<Event<Job>>>, t: nat, i: nat)
  {
    && i < |q| && q[i].item.handler == TaskJob(t)
    && forall j :: 0 <= j < |q| && q[j].item.handler == TaskJob(t) ==> j == i
  }

  // ---------------------------------------------------------------------------------------------
  // Runs of tasks are runs of the dispatcher

  /** What a step of the task machine does to the dispatcher. */
  ghost function Projection(s: Sys, l: TaskStep): (run: seq<Label<Job>>)
    requires Possible(s, l)
  {
    match l
    case Clock(t) => [Tick(t)]
    case AddCall(delay, repeats, supply) =>
      if After(s, l).nextTask == s.nextTask then []
      else [Call(ExecuteIn(TaskJob(s.nextTask), delay, supply.event))]
    case RemoveCall(handle) =>
      if After(s, l).tasks.Keys == s.tasks.Keys then []
      else [Call(Cancel(s.tasks[ObjectFor(s.slots, handle).value].event))]
    case Other(a) => [Call(a)]
    case FireOther => [Fire]
    case Begin => [Fire]
    case End(memory) =>
      if !Reschedules(s) then []
      else [Call(ExecuteIn(TaskJob(s.executing.value), s.tasks[s.executing.value].repeatDelay, memory))]
  }

  lemma StepProjects(s: Sys, l: TaskStep)
    requires Possible(s, l)
    ensures Legal(s.evtd, Projection(s, l)) && Dispatcher.Run(s.evtd, Projection(s, l)) == After(s, l).evtd
  {
    if l.RemoveCall? {
      var o := ObjectFor(s.slots, l.handle);
      if o.Some? && o.value in s.tasks && s.tasks[o.value].state == Scheduled {
        assert o.value !in After(s, l).tasks;
      }
    }
  }

  ghost function ProjectionOf(s: Sys, run: seq<TaskStep>): (p: seq<Label<Job>>)
    requires CanRun(s, run)
    decreases |run|
  {
    if run == [] then [] else Projection(s, run[0]) + ProjectionOf(After(s, run[0]), run[1..])
  }

  /** So everything proved of every dispatcher run holds of the time events of every run of tasks. */
  lemma {:induction false} TaskRunsAreDispatcherRuns(s: Sys, run: seq<TaskStep>)
    requires CanRun(s, run)
    ensures Legal(s.evtd, ProjectionOf(s, run))
    ensures Dispatcher.Run(s.evtd, ProjectionOf(s, run)) == RunTasks(s, run).evtd
    decreases |run|
  {
    if run != [] {
      StepProjects(s, run[0]);
      TaskRunsAreDispatcherRuns(After(s, run[0]), run[1..]);
      RunAppend(s.evtd, Projection(s, run[0]), ProjectionOf(After(s, run[0]), run[1..]));
    }
  }

  // ---------------------------------------------------------------------------------------------
  // What happens when the dispatcher is full

  /** If the dispatcher refuses a task's event, ownership is lost at once: exactly those steps break it. */
  lemma OwnershipNeedsService(s: Sys, l: TaskStep)
    requires Owned(s) && Possible(s, l)
    ensures Owned(After(s, l)) <==> Served(s, l)
  {
    if Served(s, l) {
      AfterKeepsOwned(s, l);
    } else if l.AddCall? {
      RegisterOwns(s, l.supply.slot);
      assert s.nextTask !in After(s, l).tasks && Some(s.nextTask) in After(s, l).slots;
    } else {
      var t := s.executing.value;
      assert After(s, l).tasks[t].state == Scheduled;
      assert !PendingFor(s.evtd.pending, s.tasks[t].event, t);
    }
  }

  /** Other clients schedule n events. */
  function Crowd(n: nat): (run: seq<TaskStep>)
  {
    if n == 0 then [] else [Other(ExecuteIn(OtherJob(0), 3600, true))] + Crowd(n - 1)
  }

  lemma {:induction false} CrowdFills(s: Sys, n: nat)
    requires |s.evtd.pending| + n <= MAX_PENDING
    ensures CanRun(s, Crowd(n))
    ensures var e := RunTasks(s, Crowd(n)); |e.evtd.pending| == |s.evtd.pending| + n && e == s.(evtd := e.evtd)
    decreases n
  {
    if n > 0 {
      CrowdFills(After(s, Other(ExecuteIn(OtherJob(0), 3600, true))), n - 1);
      assert Crowd(n)[1..] == Crowd(n - 1);
    }
  }

  /** With 64 events of others pending, a request fails and leaves a slot that refers to a released task. */
  lemma RefusedRequestDangles(s: Sys, s1: Sys)
    requires CanRun(InitSys(), Crowd(MAX_PENDING)) && s == RunTasks(InitSys(), Crowd(MAX_PENDING))
    requires s1 == After(s, AddCall(5, false, Supply(true, true, true)))
    ensures s1.slots == [Some(0)] && ObjectFor(s1.slots, 0) == Some(0) && 0 !in s1.tasks && !Owned(s1)
  {
    CrowdFills(InitSys(), MAX_PENDING);
    assert s.slots == [] && SlotOf(s.slots, None) == -1;
    assert Some(0) in s1.slots;
  }

  // ---------------------------------------------------------------------------------------------
  // When tasks are the only clients, the 64 slots keep the dispatcher from running full

  predicate TasksOnly(l: TaskStep)
  {
    match l
    case AddCall(_, _, supply) => supply == Supply(true, true, true)
    case Other(_) => false
    case FireOther => false
    case End(memory) => memory
    case _ => true
  }

  lemma {:induction false} PendingTasksCount(q: seq<Entry<Event<Job>>>, ts: set<nat>)
    requires forall i :: 0 <= i < |q| ==> q[i].item.handler.TaskJob? && q[i].item.handler.task in ts
    requires forall i, j :: 0 <= i < j < |q| ==> q[i].item.handler != q[j].item.handler
    ensures |q| <= |ts|
  {
    if q != [] {
      var n := |q| - 1;
      PendingTasksCount(q[..n], ts - {q[n].item.handler.task});
    }
  }

  lemma {:induction false} SlotsCount(slots: Slots<nat>, ts: set<nat>)
    requires forall t :: t in ts ==> Some(t) in slots
    ensures |ts| <= |slots| && (None in slots ==> |ts| < |slots|)
  {
    if slots == [] {
      assert ts == {};
    } else {
      var n := |slots| - 1;
      var rest := if slots[n].Some? then ts - {slots[n].value} else ts;
      assert slots == slots[..n] + [slots[n]];
      SlotsCount(slots[..n], rest);
      if slots[n].Some? && slots[n].value in ts {
        assert ts == rest + {slots[n].value};
      } else {
        assert ts == rest;
      }
    }
  }

  /** Every pending event belongs to a scheduled task of its own, so there are no more events than tasks. */
  lemma NoMoreEventsThanTasks(s: Sys)
    requires Owned(s) && forall x :: x in s.evtd.pending ==> x.item.handler.TaskJob?
    ensures |s.evtd.pending| <= |s.tasks.Keys|
    ensures s.executing.Some? ==> |s.evtd.pending| < |s.tasks.Keys|
  {
    var q := s.evtd.pending;
    PendingIdsAreUnique(s.evtd);
    forall i, j | 0 <= i < j < |q|
      ensures q[i].item.handler != q[j].item.handler
    {
      assert q[i] in q && q[j] in q;
    }
    var ts := if s.executing.Some? then s.tasks.Keys - {s.executing.value} else s.tasks.Keys;
    PendingTasksCount(q, ts);
  }

  lemma RemoveOnlyCancels(s: Sys, handle: int)
    ensures var s' := RemoveTask(s, handle);
            && s'.requests == s.requests && s'.starts == s.starts && s'.executing == s.executing
            && s'.nextTask == s.nextTask && s'.evtd.now == s.evtd.now
            && (forall t :: t in s'.tasks ==> t in s.tasks && s'.tasks[t].repeatDelay == s.tasks[t].repeatDelay)
            && (forall x :: x in s'.evtd.pending ==> x in s.evtd.pending)
  {
    var o := ObjectFor(s.slots, handle);
    if o.Some? && o.value in s.tasks {
      var k := IndexOf(s.evtd.pending, s.tasks[o.value].event);
      if k >= 0 {
        RemoveMembers(s.evtd.pending, k);
      }
    }
  }

  lemma AddMakesRoom(s: Sys, delay: int, repeats: bool)
    requires Owned(s) && forall x :: x in s.evtd.pending ==> x.item.handler.TaskJob?
    ensures Registers(s, Supply(true, true, true)) ==> CanSchedule(s.evtd, true)
    ensures forall x :: x in AddTask(s, delay, repeats, Supply(true, true, true)).0.evtd.pending ==> x.item.handler.TaskJob?
  {
    NoMoreEventsThanTasks(s);
    SlotsCount(s.slots, s.tasks.Keys);
    AddMembers(s.evtd.pending, Entry(s.evtd.now + delay, Event(s.evtd.nextId, TaskJob(s.nextTask))));
  }

  lemma EndMakesRoom(s: Sys)
    requires Owned(s) && s.executing.Some? && forall x :: x in s.evtd.pending ==> x.item.handler.TaskJob?
    ensures CanSchedule(s.evtd, true)
    ensures forall x :: x in EndTask(s, true).evtd.pending ==> x.item.handler.TaskJob?
  {
    NoMoreEventsThanTasks(s);
    SlotsCount(s.slots, s.tasks.Keys);
    var t := s.executing.value;
    AddMembers(s.evtd.pending, Entry(s.evtd.now + s.tasks[t].repeatDelay, Event(s.evtd.nextId, TaskJob(t))));
  }

  lemma SlotsMakeRoom(s: Sys, l: TaskStep)
    requires Owned(s) && Possible(s, l) && TasksOnly(l)
    requires forall x :: x in s.evtd.pending ==> x.item.handler.TaskJob?
    ensures Served(s, l)
    ensures forall x :: x in After(s, l).evtd.pending ==> x.item.handler.TaskJob?
  {
    match l {
      case AddCall(delay, repeats, _) => AddMakesRoom(s, delay, repeats);
      case RemoveCall(handle) => RemoveOnlyCancels(s, handle);
      case End(_) => EndMakesRoom(s);
      case _ =>
    }
  }

  /** In such runs no task's event is ever refused, and ownership holds unconditionally. */
  lemma {:induction false} TasksAloneAreServed(s: Sys, run: seq<TaskStep>)
    requires Owned(s) && CanRun(s, run) && forall i :: 0 <= i < |run| ==> TasksOnly(run[i])
    requires forall x :: x in s.evtd.pending ==> x.item.handler.TaskJob?
    ensures AllServed(s, run) && Owned(RunTasks(s, run))
    decreases |run|
  {
    if run != [] {
      SlotsMakeRoom(s, run[0]);
      AfterKeepsOwned(s, run[0]);
      TasksAloneAreServed(After(s, run[0]), run[1..]);
    }
  }

  // ---------------------------------------------------------------------------------------------
  // When callbacks run

  function StartsOf(starts: seq<Start>, t: nat): (times: seq<int>)
  {
    if starts == [] then []
    else
      var n := |starts| - 1;
      StartsOf(starts[..n], t) + if starts[n].task == t then [starts[n].at] else []
  }

  /** A cancelled task: released, or to be released when its running callback returns. */
  ghost predicate Doomed(s: Sys, t: nat)
  {
    t < s.nextTask && (t in s.tasks ==> s.tasks[t].state == Deletable)
  }

  lemma AfterKeepsDoomed(s: Sys, l: TaskStep, t: nat)
    requires Owned(s) && Possible(s, l) && Doomed(s, t)
    ensures Doomed(After(s, l), t) && StartsOf(After(s, l).starts, t) == StartsOf(s.starts, t)
  {
    if l.Begin? {
      assert s.evtd.pending[0] in s.evtd.pending;
      assert BeginTask(s).starts[..|s.starts|] == s.starts;
    }
  }

  lemma {:induction false} DoomedNeverStarts(s: Sys, run: seq<TaskStep>, t: nat)
    requires Owned(s) && Doomed(s, t) && CanRun(s, run) && AllServed(s, run)
    ensures StartsOf(RunTasks(s, run).starts, t) == StartsOf(s.starts, t)
    decreases |run|
  {
    if run != [] {
      AfterKeepsDoomed(s, run[0], t);
      AfterKeepsOwned(s, run[0]);
      DoomedNeverStarts(After(s, run[0]), run[1..], t);
    }
  }

  /** After a handle is cancelled, the task it named starts no further callback, whatever happens. */
  lemma CancelledNeverStarts(s: Sys, handle: int, run: seq<TaskStep>)
    requires Owned(s) && ObjectFor(s.slots, handle).Some?
    requires CanRun(RemoveTask(s, handle), run) && AllServed(RemoveTask(s, handle), run)
    ensures var t := ObjectFor(s.slots, handle).value;
            StartsOf(RunTasks(RemoveTask(s, handle), run).starts, t) == StartsOf(s.starts, t)
  {
    var t := ObjectFor(s.slots, handle).value;
    assert Some(t) in s.slots;
    RemoveKeepsOwned(s, handle);
    DoomedNeverStarts(RemoveTask(s, handle), run, t);
  }

  /** What the requests promise about the callbacks started so far. */
  ghost predicate Kept(starts: seq<int>, r: Request)
  {
    && (starts != [] ==> r.at + r.delay <= starts[0])
    && (forall i :: 0 < i < |starts| ==> starts[i - 1] + r.repeatDelay <= starts[i])
    && (r.repeatDelay == 0 ==> |starts| <= 1)
  }

  function Earliest(starts: seq<int>, r: Request): (t: int)
  {
    if starts == [] then r.at + r.delay else starts[|starts| - 1] + r.repeatDelay
  }

  ghost predicate TimelyTask(s: Sys, t: nat)
  {
    if t !in s.requests then t !in s.tasks && StartsOf(s.starts, t) == []
    else
      var starts, r := StartsOf(s.starts, t), s.requests[t];
      && t < s.nextTask
      && Kept(starts, r)
      && (t in s.tasks ==>
            && s.tasks[t].repeatDelay == r.repeatDelay
            && (s.executing == Some(t) ==> starts != [] && starts[|starts| - 1] == s.evtd.now)
            && (s.executing != Some(t) ==> starts == [] || r.repeatDelay != 0))
  }

  ghost predicate TimelyEvents(s: Sys)
  {
    forall x :: x in s.evtd.pending && x.item.handler.TaskJob? && x.item.handler.task in s.requests ==>
      Earliest(StartsOf(s.starts, x.item.handler.task), s.requests[x.item.handler.task]) == x.due
  }

  ghost predicate Timely(s: Sys)
  {
    (forall t: nat :: TimelyTask(s, t)) && TimelyEvents(s)
  }

  lemma AcceptedIsTimely(s: Sys, delay: int, repeatDelay: int, slots: Slots<nat>)
    requires Owned(s) && Timely(s) && CanSchedule(s.evtd, true)
    ensures Timely(Accepted(s, delay, repeatDelay, slots))
  {
    forall u: nat
      ensures TimelyTask(Accepted(s, delay, repeatDelay, slots), u)
    {
      AcceptedTimelyTask(s, delay, repeatDelay, slots, u);
    }
    assert TimelyTask(s, s.nextTask);
    AcceptedTimelyEvents(s, delay, repeatDelay, slots);
  }

  lemma AcceptedTimelyTask(s: Sys, delay: int, repeatDelay: int, slots: Slots<nat>, u: nat)
    requires Owned(s) && TimelyTask(s, u)
    ensures TimelyTask(Accepted(s, delay, repeatDelay, slots), u)
  {
  }

  lemma AcceptedTimelyEvents(s: Sys, delay: int, repeatDelay: int, slots: Slots<nat>)
    requires TableOwns(s) && EventsMatch(s) && TimelyEvents(s) && TimelyTask(s, s.nextTask) && CanSchedule(s.evtd, true)
    ensures TimelyEvents(Accepted(s, delay, repeatDelay, slots))
  {
    AddMembers(s.evtd.pending, Entry(s.evtd.now + delay, Event(s.evtd.nextId, TaskJob(s.nextTask))));
  }

  lemma AddKeepsTimely(s: Sys, delay: int, repeats: bool, supply: Supply)
    requires Owned(s) && Timely(s) && (Registers(s, supply) ==> CanSchedule(s.evtd, supply.event))
    ensures Timely(AddTask(s, delay, repeats, supply).0)
  {
    if Registers(s, supply) {
      var slots := AddIsAccepted(s, delay, repeats, supply);
      AcceptedIsTimely(s, delay, if repeats then delay else 0, slots);
    } else {
      assert AddTask(s, delay, repeats, supply).0 == s;
    }
  }

  lemma RemoveKeepsTimely(s: Sys, handle: int)
    requires Owned(s) && Timely(s)
    ensures Timely(RemoveTask(s, handle))
  {
    RemoveOnlyCancels(s, handle);
    forall u: nat
      ensures TimelyTask(RemoveTask(s, handle), u)
    {
      assert TimelyTask(s, u);
    }
  }

  lemma BeginKeepsTimely(s: Sys)
    requires Owned(s) && Timely(s) && Possible(s, Begin)
    ensures Timely(BeginTask(s))
  {
    var s' := BeginTask(s);
    forall u: nat
      ensures TimelyTask(s', u)
    {
      assert TimelyTask(s, u);
      BeginTimelyTask(s, s', u);
    }
    BeginTimelyEvents(s, s');
  }

  /** The task that begins has one more start, all others have the same. */
  lemma BeginStarts(s: Sys, s': Sys, u: nat)
    requires Owned(s) && Possible(s, Begin) && s' == BeginTask(s)
    ensures StartsOf(s'.starts, u)
         == StartsOf(s.starts, u) + if u == s.evtd.pending[0].item.handler.task then [s.evtd.now] else []
  {
    assert s.evtd.pending[0] in s.evtd.pending;
    assert s'.starts[..|s.starts|] == s.starts;
  }

  lemma BeginTimelyTask(s: Sys, s': Sys, u: nat)
    requires Owned(s) && TimelyEvents(s) && TimelyTask(s, u) && Possible(s, Begin) && s' == BeginTask(s)
    ensures TimelyTask(s', u)
  {
    BeginStarts(s, s', u);
    BeginsFirst(s, s');
    NextStartIsTimely(s, s', u, s.evtd.pending[0]);
  }

  lemma BeginsFirst(s: Sys, s': Sys)
    requires Owned(s) && Possible(s, Begin) && s' == BeginTask(s)
    ensures s.evtd.pending[0] in s.evtd.pending && s.executing == None
    ensures var t := s.evtd.pending[0].item.handler.task;
            t in s.tasks && s' == s.(evtd := FireTop(s.evtd), tasks := s.tasks[t := s.tasks[t].(state := Running)],
                                     executing := Some(t), starts := s.starts + [Start(t, s.evtd.now)])
  {
    assert s.evtd.pending[0] in s.evtd.pending;
  }

  lemma NextStartIsTimely(s: Sys, s': Sys, u: nat, top: Entry<Event<Job>>)
    requires TimelyEvents(s) && TimelyTask(s, u) && s.executing == None
    requires top in s.evtd.pending && top.item.handler.TaskJob? && top.due <= s.evtd.now
    requires var t := top.item.handler.task;
             && t in s.tasks && s'.tasks == s.tasks[t := s.tasks[t].(state := Running)] && s'.executing == Some(t)
             && s'.requests == s.requests && s'.nextTask == s.nextTask && s'.evtd.now == s.evtd.now
    requires StartsOf(s'.starts, u) == StartsOf(s.starts, u) + if u == top.item.handler.task then [s.evtd.now] else []
    ensures TimelyTask(s', u)
  {
    if u == top.item.handler.task && u in s.requests {
      StartKept(StartsOf(s.starts, u), s.requests[u], s.evtd.now);
    }
  }

  /** One more start, not earlier than the earliest time for it. */
  lemma StartKept(starts: seq<int>, r: Request, now: int)
    requires Kept(starts, r) && Earliest(starts, r) <= now && (starts == [] || r.repeatDelay != 0)
    ensures Kept(starts + [now], r)
  {
  }

  lemma BeginTimelyEvents(s: Sys, s': Sys)
    requires Owned(s) && TimelyEvents(s) && Possible(s, Begin) && s' == BeginTask(s)
    ensures TimelyEvents(s')
  {
    BeginKeepsOwned(s);
    forall x | x in s'.evtd.pending && x.item.handler.TaskJob? && x.item.handler.task in s'.requests
      ensures Earliest(StartsOf(s'.starts, x.item.handler.task), s'.requests[x.item.handler.task]) == x.due
    {
      BeginLeavesOthers(s, s', x);
      StaysTimely(s, s', x);
    }
  }

  lemma StaysTimely(s: Sys, s': Sys, x: Entry<Event<Job>>)
    requires TimelyEvents(s) && x in s.evtd.pending && x.item.handler.TaskJob? && x.item.handler.task in s.requests
    requires s'.requests == s.requests && StartsOf(s'.starts, x.item.handler.task) == StartsOf(s.starts, x.item.handler.task)
    ensures Earliest(StartsOf(s'.starts, x.item.handler.task), s'.requests[x.item.handler.task]) == x.due
  {
  }

  lemma BeginLeavesOthers(s: Sys, s': Sys, x: Entry<Event<Job>>)
    requires Owned(s) && Owned(s') && Possible(s, Begin) && s' == BeginTask(s)
    requires x in s'.evtd.pending && x.item.handler.TaskJob?
    ensures x in s.evtd.pending && s'.requests == s.requests
    ensures StartsOf(s'.starts, x.item.handler.task) == StartsOf(s.starts, x.item.handler.task)
  {
    BeginsFirst(s, s');
    BeginStarts(s, s', x.item.handler.task);
    ExecutingIsNotPending(s', x);
  }

  lemma ExecutingIsNotPending(s: Sys, x: Entry<Event<Job>>)
    requires Owned(s) && s.executing.Some? && x in s.evtd.pending
    ensures x.item.handler != TaskJob(s.executing.value)
  {
  }

  lemma EndKeepsTimely(s: Sys, memory: bool)
    requires Owned(s) && Timely(s) && Possible(s, End(memory)) && Served(s, End(memory))
    ensures Timely(EndTask(s, memory))
  {
    var s' := EndTask(s, memory);
    forall u: nat
      ensures TimelyTask(s', u)
    {
      assert TimelyTask(s, u);
      EndTimelyTask(s, memory, s', u);
    }
    assert TimelyTask(s, s.executing.value);
    EndTimelyEvents(s, memory, s');
  }

  lemma EndTimelyTask(s: Sys, memory: bool, s': Sys, u: nat)
    requires Possible(s, End(memory)) && TimelyTask(s, u) && s' == EndTask(s, memory)
    ensures TimelyTask(s', u)
  {
  }

  lemma EndTimelyEvents(s: Sys, memory: bool, s': Sys)
    requires Possible(s, End(memory)) && Served(s, End(memory)) && s' == EndTask(s, memory)
    requires TimelyEvents(s) && TimelyTask(s, s.executing.value)
    ensures TimelyEvents(s')
  {
    var t := s.executing.value;
    AddMembers(s.evtd.pending, Entry(s.evtd.now + s.tasks[t].repeatDelay, Event(s.evtd.nextId, TaskJob(t))));
  }

  lemma AfterKeepsTimely(s: Sys, l: TaskStep)
    requires Owned(s) && Timely(s) && Possible(s, l) && Served(s, l)
    ensures Timely(After(s, l))
  {
    match l {
      case AddCall(delay, repeats, supply) => AddKeepsTimely(s, delay, repeats, supply);
      case RemoveCall(handle) => RemoveKeepsTimely(s, handle);
      case Begin => BeginKeepsTimely(s);
      case End(memory) => EndKeepsTimely(s, memory);
      case Other(a) =>
        OtherKeepsTaskEvents(s, a);
        forall u: nat ensures TimelyTask(After(s, l), u) { assert TimelyTask(s, u); }
      case _ =>
        forall u: nat ensures TimelyTask(After(s, l), u) { assert TimelyTask(s, u); }
    }
  }

  lemma {:induction false} RunKeepsTimely(s: Sys, run: seq<TaskStep>)
    requires Owned(s) && Timely(s) && CanRun(s, run) && AllServed(s, run)
    ensures Timely(RunTasks(s, run))
    decreases |run|
  {
    if run != [] {
      AfterKeepsTimely(s, run[0]);
      AfterKeepsOwned(s, run[0]);
      RunKeepsTimely(After(s, run[0]), run[1..]);
    }
  }

  /**
   * For every task ever accepted: its first callback is not before the requested delay has passed,
   * consecutive callbacks are at least the repetition apart, and a task without repetition runs at most
   * once. A task asked to repeat with delay 0 is such a task.
   */
  lemma CallbacksKeepTheirTimes(run: seq<TaskStep>, t: nat)
    requires CanRun(InitSys(), run) && AllServed(InitSys(), run)
    requires t in RunTasks(InitSys(), run).requests
    ensures var s := RunTasks(InitSys(), run);
            var starts, r := StartsOf(s.starts, t), s.requests[t];
            && (starts != [] ==> r.at + r.delay <= starts[0])
            && (forall i :: 0 < i < |starts| ==> starts[i - 1] + r.repeatDelay <= starts[i])
            && (r.repeatDelay == 0 ==> |starts| <= 1)
  {
    InitIsOwned();
    forall u: nat ensures TimelyTask(InitSys(), u) { }
    RunKeepsTimely(InitSys(), run);
    assert TimelyTask(RunTasks(InitSys(), run), t);
  }

  /** A pending event of a task is due exactly when asked: after the delay at first, after the repetition from then on. */
  lemma EventsAreExact(run: seq<TaskStep>, x: Entry<Event<Job>>)
    requires CanRun(InitSys(), run) && AllServed(InitSys(), run)
    requires x in RunTasks(InitSys(), run).evtd.pending && x.item.handler.TaskJob?
    ensures var s, t := RunTasks(InitSys(), run), x.item.handler.task;
            var starts := StartsOf(s.starts, t);
            && t in s.requests
            && x.due == if starts == [] then s.requests[t].at + s.requests[t].delay
                        else starts[|starts| - 1] + s.requests[t].repeatDelay
  {
    InitIsOwned();
    forall u: nat ensures TimelyTask(InitSys(), u) { }
    TasksStayOwned(InitSys(), run);
    RunKeepsTimely(InitSys(), run);
    assert TimelyTask(RunTasks(InitSys(), run), x.item.handler.task);
  }

  /** The requests and starts on record are those that the steps make. */
  lemma StepIsRecorded(s: Sys, l: TaskStep)
    requires Owned(s) && Possible(s, l)
    ensures After(s, l).starts == s.starts
              + if l.Begin? then [Start(s.evtd.pending[0].item.handler.task, s.evtd.now)] else []
    ensures After(s, l).requests ==
              if l.AddCall? && Registers(s, l.supply)
              then s.requests[s.nextTask := Request(s.evtd.now, l.delay, if l.repeats then l.delay else 0)]
              else s.requests
  {
    match l {
      case AddCall(delay, repeats, supply) => AddIsRecorded(s, delay, repeats, supply, After(s, l));
      case RemoveCall(handle) => RemoveIsNotRecorded(s, handle, After(s, l));
      case Begin => assert s.evtd.pending[0] in s.evtd.pending;
      case _ =>
    }
  }

  /** In any state a firing starts a callback iff its task is live and registered; otherwise no task changes. */
  lemma StartsIffRegistered(s: Sys)
    requires Possible(s, Begin)
    ensures var (t, s') := (s.evtd.pending[0].item.handler.task, BeginTask(s));
            && (s'.executing == Some(t) <==> Some(t) in s.slots && t in s.tasks)
            && (s'.executing == None ==> s' == s.(evtd := FireTop(s.evtd)))
            && (s'.executing == Some(t) ==> s'.starts == s.starts + [Start(t, s.evtd.now)] && s'.tasks[t].state == Running)
  {
  }

  lemma AddIsRecorded(s: Sys, delay: int, repeats: bool, supply: Supply, s': Sys)
    requires TableOwns(s) && s' == AddTask(s, delay, repeats, supply).0
    ensures s'.starts == s.starts
    ensures s'.requests == if Registers(s, supply)
                           then s.requests[s.nextTask := Request(s.evtd.now, delay, if repeats then delay else 0)]
                           else s.requests
  {
    if Registers(s, supply) {
      RegisterOwns(s, supply.slot);
    }
  }

  lemma RemoveIsNotRecorded(s: Sys, handle: int, s': Sys)
    requires s' == RemoveTask(s, handle)
    ensures s'.starts == s.starts && s'.requests == s.requests
  {
  }

  /** When a callback returns, its task stays iff it repeats and was not removed, and then its next event is pending. */
  lemma RepeatsUnlessRemoved(s: Sys, memory: bool)
    requires Owned(s) && Possible(s, End(memory)) && Served(s, End(memory))
    ensures var t, s' := s.executing.value, EndTask(s, memory);
            && s'.executing == None
            && (t in s'.tasks <==> s.tasks[t].repeatDelay != 0 && s.tasks[t].state != Deletable)
            && (t in s'.tasks ==> exists x :: x in s'.evtd.pending && x.item.handler == TaskJob(t)
                                           && x.due == s.evtd.now + s.tasks[t].repeatDelay)
  {
    var t := s.executing.value;
    var e := Entry(s.evtd.now + s.tasks[t].repeatDelay, Event(s.evtd.nextId, TaskJob(t)));
    AddMembers(s.evtd.pending, e);
    if Reschedules(s) {
      assert e in EndTask(s, memory).evtd.pending;
    }
  }

  // ---------------------------------------------------------------------------------------------
  // The handle that an add returns

  /** A handle is returned iff the task gets its slot and its event; the slot under it then holds the new task. */
  lemma HandleNamesTask(s: Sys, delay: int, repeats: bool, supply: Supply)
    requires Owned(s)
    ensures var (s', handle) := AddTask(s, delay, repeats, supply);
            && (handle.Some? <==> Registers(s, supply) && CanSchedule(s.evtd, supply.event))
            && (handle.Some? ==>
                  && 0 <= handle.value < |s'.slots| && s'.slots[handle.value] == Some(s.nextTask)
                  && ObjectFor(s'.slots, handle.value) == Some(s.nextTask)
                  && s.nextTask in s'.tasks && s'.tasks[s.nextTask].state == Scheduled)
  {
    if Registers(s, supply) {
      RegisterOwns(s, supply.slot);
    }
  }

  /** As long as a task is live it stays under its handle. */
  lemma TaskKeepsSlot(s: Sys, l: TaskStep, h: nat, t: nat)
    requires Owned(s) && Possible(s, l) && Served(s, l) && h < |s.slots| && s.slots[h] == Some(t)
    requires t in After(s, l).tasks
    ensures h < |After(s, l).slots| && After(s, l).slots[h] == Some(t)
  {
  }

  lemma TaskIsOld(s: Sys, l: TaskStep, t: nat)
    requires Owned(s) && Possible(s, l) && Served(s, l) && t < s.nextTask && t in After(s, l).tasks
    ensures t in s.tasks
  {
  }

  lemma SlotKept(s: Sys, l: TaskStep, h: nat, t: nat) returns (s': Sys)
    requires Owned(s) && Possible(s, l) && Served(s, l) && h < |s.slots| && s.slots[h] == Some(t)
    ensures s' == After(s, l) && Owned(s') && t < s.nextTask <= s'.nextTask
    ensures t in s'.tasks ==> h < |s'.slots| && s'.slots[h] == Some(t)
  {
    s' := After(s, l);
    assert Some(t) in s.slots;
    AfterKeepsOwned(s, l);
    if t in s'.tasks {
      TaskKeepsSlot(s, l, h, t);
    }
  }

  lemma {:induction false} HandleStaysWithTask(s: Sys, run: seq<TaskStep>, h: nat, t: nat)
    requires Owned(s) && CanRun(s, run) && AllServed(s, run) && h < |s.slots| && s.slots[h] == Some(t)
    ensures var e := RunTasks(s, run);
            t < e.nextTask && (t in e.tasks ==> h < |e.slots| && e.slots[h] == Some(t))
    decreases |run|
  {
    assert Some(t) in s.slots;
    if run != [] {
      var s' := SlotKept(s, run[0], h, t);
      if t in s'.tasks {
        HandleStaysWithTask(s', run[1..], h, t);
      } else {
        GoneStaysGone(s', run[1..], t);
      }
    }
  }

  lemma NotRevived(s: Sys, l: TaskStep, t: nat) returns (s': Sys)
    requires Owned(s) && Possible(s, l) && Served(s, l) && t < s.nextTask && t !in s.tasks
    ensures s' == After(s, l) && Owned(s') && t < s'.nextTask && t !in s'.tasks
  {
    s' := After(s, l);
    AfterKeepsOwned(s, l);
    if t in s'.tasks {
      TaskIsOld(s, l, t);
    }
  }

  lemma {:induction false} GoneStaysGone(s: Sys, run: seq<TaskStep>, t: nat)
    requires Owned(s) && CanRun(s, run) && AllServed(s, run) && t < s.nextTask && t !in s.tasks
    ensures t < RunTasks(s, run).nextTask && t !in RunTasks(s, run).tasks
    decreases |run|
  {
    if run != [] {
      var s' := NotRevived(s, run[0], t);
      GoneStaysGone(s', run[1..], t);
    }
  }

  /**
   * Cancelling the handle that an add returned, at any later time, works: the task of that add starts no
   * callback after that.
   */
  lemma CancelByReturnedHandle(s: Sys, delay: int, repeats: bool, supply: Supply, s1: Sys, handle: int,
                               wait: seq<TaskStep>, s2: Sys, run: seq<TaskStep>)
    requires Owned(s) && AddTask(s, delay, repeats, supply) == (s1, Some(handle))
    requires CanRun(s1, wait) && AllServed(s1, wait) && s2 == RunTasks(s1, wait)
    requires CanRun(RemoveTask(s2, handle), run) && AllServed(RemoveTask(s2, handle), run)
    ensures StartsOf(RunTasks(RemoveTask(s2, handle), run).starts, s.nextTask) == StartsOf(s2.starts, s.nextTask)
  {
    var t := s.nextTask;
    HandleNamesTask(s, delay, repeats, supply);
    AddKeepsOwned(s, delay, repeats, supply);
    TasksStayOwned(s1, wait);
    HandleStaysWithTask(s1, wait, handle, t);
    if t in s2.tasks {
      CancelledNeverStarts(s2, handle, run);
    } else {
      RemoveKeepsOwned(s2, handle);
      RemoveOnlyCancels(s2, handle);
      DoomedNeverStarts(RemoveTask(s2, handle), run, t);
    }
  }

  lemma InitIsOwned()
    ensures Owned(InitSys())
  {
    assert PendingIds<Job>([]) == [] && FiredIds([]) == [] && Issued(0) == [];
  }
}
