/**
 * Timed tasks (src/libxively/xi_timed_task.c): user callbacks driven by time events. A task is owned
 * by its slot in the handle table and is referred to by its pending time event, or by the running
 * callback wrapper.
 */
module TimedTasks {
  import opened Common
  import opened Dispatcher
  import opened DispatcherObject
  import opened HandleRegistry

  /** What the dispatcher is asked to run: the wrapper for a task, or something of another client. */
  datatype Job = TaskJob(task: nat) | OtherJob(tag: int)

  datatype TaskState = Scheduled | Running | Deletable

  /** The allocated task; `event` identifies the time event its handle was last attached to. */
  datatype Task = Task(state: TaskState, repeatDelay: int, event: nat)

  datatype Start = Start(task: nat, at: int)

  /** What a caller asked for: when, how long from then, and the repetition derived from it. */
  datatype Request = Request(at: int, delay: int, repeatDelay: int)

  /** Which of the three allocations made for a new task succeed. */
  datatype Supply = Supply(task: bool, slot: bool, event: bool)

  /**
   * `tasks` are the live allocations by address. `executing` is the task whose callback is on the stack;
   * `starts` and `requests` record what happened and are not kept by the library.
   */
  datatype Sys = Sys(
    evtd: Evtd<Job>,
    tasks: map<nat, Task>,
    slots: Slots<nat>,
    executing: Option<nat>,
    nextTask: nat,
    starts: seq<Start>,
    requests: map<nat, Request>)

  function InitSys(): (s: Sys)
  {
    Sys(Init(), map[], [], None, 0, [], map[])
  }

  // ---------------------------------------------------------------------------------------------
  // The operations as functions of the state

  /**
   * A new task. If the dispatcher cannot take its event, the task is released although its slot still
   * refers to it.
   */
  function AddTask(s: Sys, delay: int, repeats: bool, supply: Supply): (r: (Sys, Option<nat>))
  {
    var t := s.nextTask;
    var repeatDelay := if repeats then delay else 0;
    var (slots, outcome) := Register(s.slots, MAX_TIMED_EVENTS, t, supply.slot);
    var handle := SlotOf(slots, Some(t));
    if !supply.task || outcome != Ok || handle < 0 then (s, None)
    else
      var registered := s.(slots := slots, nextTask := t + 1,
                           requests := s.requests[t := Request(s.evtd.now, delay, repeatDelay)]);
      if CanSchedule(s.evtd, supply.event) then
        (registered.(evtd := Schedule(s.evtd, TaskJob(t), delay, supply.event),
                     tasks := s.tasks[t := Task(Scheduled, repeatDelay, s.evtd.nextId)]),
         Some(handle))
      else (registered, None)
  }

  function RemoveTask(s: Sys, handle: int): (s': Sys)
  {
    var o := ObjectFor(s.slots, handle);
    if o.None? || o.value !in s.tasks then s
    else
      var t := o.value;
      match s.tasks[t].state
      case Scheduled =>
        s.(evtd := CancelPending(s.evtd, s.tasks[t].event), slots := Delete(s.slots, t).0, tasks := s.tasks - {t})
      case Running => s.(tasks := s.tasks[t := s.tasks[t].(state := Deletable)])
      case Deletable => s
  }

  /** The wrapper up to the user's callback, for the first pending event. */
  function BeginTask(s: Sys): (s': Sys)
    requires s.evtd.pending != [] && s.evtd.pending[0].item.handler.TaskJob?
  {
    var t := s.evtd.pending[0].item.handler.task;
    var fired := s.(evtd := FireTop(s.evtd));
    if SlotOf(s.slots, Some(t)) < 0 || t !in s.tasks then fired
    else fired.(tasks := s.tasks[t := s.tasks[t].(state := Running)],
                executing := Some(t), starts := s.starts + [Start(t, s.evtd.now)])
  }

  /** The wrapper after the user's callback. */
  function EndTask(s: Sys, memory: bool): (s': Sys)
    requires s.executing.Some? && s.executing.value in s.tasks
  {
    var t := s.executing.value;
    var task := s.tasks[t];
    if task.repeatDelay == 0 || task.state == Deletable then
      s.(slots := Delete(s.slots, t).0, tasks := s.tasks - {t}, executing := None)
    else
      var event := if CanSchedule(s.evtd, memory) then s.evtd.nextId else task.event;
      s.(evtd := Schedule(s.evtd, TaskJob(t), task.repeatDelay, memory),
         tasks := s.tasks[t := task.(state := Scheduled, event := event)], executing := None)
  }

  // ---------------------------------------------------------------------------------------------
  // Runs

  /**
   * The steps of a run. Tasks are added and removed by anyone, inside callbacks or outside; other
   * clients use the dispatcher for their own events; the dispatcher fires due events.
   */
  datatype TaskStep =
    | Clock(t: int)
    | AddCall(delay: int, repeats: bool, supply: Supply)
    | RemoveCall(handle: int)
    | Other(a: Action<Job>)
    | FireOther
    | Begin
    | End(memory: bool)

  /** Other clients schedule their own jobs and hold handles of their own events only. */
  predicate OwnBusiness(s: Sys, a: Action<Job>)
  {
    match a
    case Execute(h, _) => h.OtherJob?
    case ExecuteIn(h, _, _) => h.OtherJob?
    case Cancel(id) => NotATaskEvent(s, id)
    case Restart(id, _) => NotATaskEvent(s, id)
    case ContinueWhenEmpty(h) => h.OtherJob?
    case Stop => true
  }

  predicate NotATaskEvent(s: Sys, id: nat)
  {
    forall x :: x in s.evtd.pending && x.item.id == id ==> x.item.handler.OtherJob?
  }

  predicate Possible(s: Sys, l: TaskStep)
  {
    match l
    case Clock(_) => s.executing.None?
    case AddCall(_, _, _) => true
    case RemoveCall(_) => true
    case Other(a) => OwnBusiness(s, a)
    case FireOther => s.executing.None? && Due(s.evtd) && s.evtd.pending[0].item.handler.OtherJob?
    case Begin => s.executing.None? && Due(s.evtd) && s.evtd.pending[0].item.handler.TaskJob?
    case End(_) => s.executing.Some? && s.executing.value in s.tasks
  }

  function After(s: Sys, l: TaskStep): (s': Sys)
    requires Possible(s, l)
  {
    match l
    case Clock(t) => s.(evtd := s.evtd.(now := t))
    case AddCall(delay, repeats, supply) => AddTask(s, delay, repeats, supply).0
    case RemoveCall(handle) => RemoveTask(s, handle)
    case Other(a) => s.(evtd := Do(s.evtd, a))
    case FireOther => s.(evtd := FireTop(s.evtd))
    case Begin => BeginTask(s)
    case End(memory) => EndTask(s, memory)
  }

  predicate CanRun(s: Sys, run: seq<TaskStep>)
    decreases |run|
  {
    run != [] ==> Possible(s, run[0]) && CanRun(After(s, run[0]), run[1..])
  }

  function RunTasks(s: Sys, run: seq<TaskStep>): (s': Sys)
    requires CanRun(s, run)
    decreases |run|
  {
    if run == [] then s else RunTasks(After(s, run[0]), run[1..])
  }

  lemma {:induction false} RunTasksAppend(s: Sys, run: seq<TaskStep>, more: seq<TaskStep>)
    requires CanRun(s, run) && CanRun(RunTasks(s, run), more)
    ensures CanRun(s, run + more) && RunTasks(s, run + more) == RunTasks(RunTasks(s, run), more)
    decreases |run|
  {
    if run == [] {
      assert run + more == more;
    } else {
      assert (run + more)[1..] == run[1..] + more;
      RunTasksAppend(After(s, run[0]), run[1..], more);
    }
  }

  /** In this step, the dispatcher takes every event that is scheduled for a task. */
  predicate Served(s: Sys, l: TaskStep)
    requires Possible(s, l)
  {
    match l
    case AddCall(_, _, supply) => Registers(s, supply) ==> CanSchedule(s.evtd, supply.event)
    case End(memory) => Reschedules(s) ==> CanSchedule(s.evtd, memory)
    case _ => true
  }

  /** A new task gets its memory and its slot. */
  predicate Registers(s: Sys, supply: Supply)
  {
    supply.task && (None in s.slots || (|s.slots| < MAX_TIMED_EVENTS && supply.slot))
  }

  predicate Reschedules(s: Sys)
    requires s.executing.Some? && s.executing.value in s.tasks
  {
    s.tasks[s.executing.value].repeatDelay != 0 && s.tasks[s.executing.value].state != Deletable
  }

  predicate AllServed(s: Sys, run: seq<TaskStep>)
    requires CanRun(s, run)
    decreases |run|
  {
    run != [] ==> Served(s, run[0]) && AllServed(After(s, run[0]), run[1..])
  }

  // ---------------------------------------------------------------------------------------------
  // The operations themselves

  class TimedTaskContainer {
    const dispatcher: EventDispatcher<Job>
    var tasks: map<nat, Task>
    var slots: Slots<nat>
    var nextTask: nat
    ghost var executing: Option<nat>
    ghost var starts: seq<Start>
    ghost var requests: map<nat, Request>

    ghost predicate Valid()
      reads this, dispatcher, dispatcher.Repr
    {
      this !in dispatcher.Repr && dispatcher.Valid()
    }

    ghost function State(): (s: Sys)
      reads this, dispatcher, dispatcher.timers, dispatcher.queue
    {
      Sys(dispatcher.State(), tasks, slots, executing, nextTask, starts, requests)
    }

    constructor ()
      ensures Valid() && fresh(dispatcher.Repr) && State() == InitSys()
    {
      var d := new EventDispatcher<Job>();
      dispatcher := d;
      tasks, slots, nextTask := map[], [], 0;
      executing, starts, requests := None, [], map[];
    }

    method AddTimedTask(delay: int, repeats: bool, supply: Supply) returns (handle: Option<nat>)
      requires Valid()
      modifies this, dispatcher.Repr
      ensures Valid() && fresh(dispatcher.Repr - old(dispatcher.Repr))
      ensures (State(), handle) == AddTask(old(State()), delay, repeats, supply)
    {
      if !supply.task {
        return None;
      }
      var t := nextTask;
      var repeatDelay := if repeats then delay else 0;
      var (registered, outcome) := Register(slots, MAX_TIMED_EVENTS, t, supply.slot);
      if outcome != Ok {
        return None;
      }
      var i := SlotOf(registered, Some(t));
      if i < 0 {
        return None;
      }
      slots := registered;
      nextTask := t + 1;
      requests := requests[t := Request(dispatcher.now, delay, repeatDelay)];
      var ok := ScheduleTask(t, delay, repeatDelay, supply.event);
      return if ok then Some(i) else None;
    }

    /** Schedules the first callback of a task; a task that cannot be scheduled is released. */
    method ScheduleTask(t: nat, delay: int, repeatDelay: int, memory: bool) returns (ok: bool)
      requires Valid()
      modifies this`tasks, dispatcher.Repr
      ensures Valid() && fresh(dispatcher.Repr - old(dispatcher.Repr))
      ensures ok == CanSchedule(old(State()).evtd, memory)
      ensures var s := old(State());
              State() == if ok then s.(evtd := Schedule(s.evtd, TaskJob(t), delay, memory),
                                       tasks := s.tasks[t := Task(Scheduled, repeatDelay, s.evtd.nextId)])
                         else s
    {
      var event := dispatcher.ScheduleIn(TaskJob(t), delay, memory);
      ok := event.Some?;
      if ok {
        tasks := tasks[t := Task(Scheduled, repeatDelay, event.value)];
      }
    }

    method RemoveTimedTask(handle: int)
      requires Valid()
      modifies this, dispatcher.Repr
      ensures Valid() && fresh(dispatcher.Repr - old(dispatcher.Repr))
      ensures State() == RemoveTask(old(State()), handle)
    {
      var o := ObjectFor(slots, handle);
      if o.Some? && o.value in tasks {
        var t := o.value;
        if tasks[t].state == Scheduled {
          var _ := dispatcher.CancelById(tasks[t].event);
          slots := Delete(slots, t).0;
          tasks := tasks - {t};
        } else if tasks[t].state == Running {
          tasks := tasks[t := tasks[t].(state := Deletable)];
        }
      }
    }

    /** One call that a user's code makes while a callback runs, or at any other time. */
    method UserCall(l: TaskStep)
      requires l.AddCall? || l.RemoveCall? || l.Other?
      requires Possible(State(), l)
      requires Valid()
      modifies this, dispatcher.Repr
      ensures Valid() && fresh(dispatcher.Repr - old(dispatcher.Repr))
      ensures State() == After(old(State()), l)
    {
      match l {
        case AddCall(delay, repeats, supply) =>
          var _ := AddTimedTask(delay, repeats, supply);
        case RemoveCall(handle) =>
          RemoveTimedTask(handle);
        case Other(a) =>
          ghost var s := dispatcher.State();
          dispatcher.Perform(a);
          LeadsOnce(s, Call(a), dispatcher.State());
      }
    }

    method UserCalls(calls: seq<TaskStep>)
      requires forall l :: l in calls ==> l.AddCall? || l.RemoveCall? || l.Other?
      requires CanRun(State(), calls)
      requires Valid()
      modifies this, dispatcher.Repr
      ensures Valid() && fresh(dispatcher.Repr - old(dispatcher.Repr))
      ensures State() == RunTasks(old(State()), calls) && executing == old(executing)
    {
      ghost var s := State();
      for k := 0 to |calls|
        invariant Valid() && fresh(dispatcher.Repr - old(dispatcher.Repr))
        invariant CanRun(State(), calls[k..]) && RunTasks(State(), calls[k..]) == RunTasks(s, calls)
        invariant executing == s.executing
      {
        assert calls[k..][0] == calls[k] && calls[k..][1..] == calls[k + 1..];
        UserCall(calls[k]);
      }
      assert calls[|calls|..] == [];
    }

    /** The callback wrapper up to the user's callback. */
    method StartCallback() returns (task: Option<nat>)
      requires Valid() && Possible(State(), Begin)
      modifies this, dispatcher.Repr
      ensures Valid() && fresh(dispatcher.Repr - old(dispatcher.Repr))
      ensures State() == After(old(State()), Begin) && task == executing
    {
      var job, _ := dispatcher.TakeFirst();
      var t := job.task;
      var i := SlotOf(slots, Some(t));
      if i < 0 || t !in tasks {
        return None;
      }
      tasks := tasks[t := tasks[t].(state := Running)];
      executing := Some(t);
      starts := starts + [Start(t, dispatcher.now)];
      return Some(t);
    }

    /** The callback wrapper, with the user's callback given by the calls it makes. */
    method CallbackWrapper(calls: seq<TaskStep>, memory: bool)
      requires Possible(State(), Begin)
      requires forall l :: l in calls ==> l.AddCall? || l.RemoveCall? || l.Other?
      requires CanRun(After(State(), Begin), calls)
      requires var s := After(State(), Begin);
               s.executing.Some? ==> Possible(RunTasks(s, calls), End(memory))
      requires Valid()
      modifies this, dispatcher.Repr
      ensures Valid() && fresh(dispatcher.Repr - old(dispatcher.Repr))
      ensures var s := After(old(State()), Begin);
              State() == if s.executing.Some? then After(RunTasks(s, calls), End(memory)) else s
    {
      var task := StartCallback();
      if task.Some? {
        UserCalls(calls);
        Finish(task.value, memory);
      }
    }

    method Finish(task: nat, memory: bool)
      requires executing == Some(task) && task in tasks
      requires Valid()
      modifies this, dispatcher.Repr
      ensures Valid() && fresh(dispatcher.Repr - old(dispatcher.Repr))
      ensures State() == EndTask(old(State()), memory)
    {
      if tasks[task].repeatDelay == 0 || tasks[task].state == Deletable {
        slots := Delete(slots, task).0;
        tasks := tasks - {task};
      } else {
        var event := dispatcher.ScheduleIn(TaskJob(task), tasks[task].repeatDelay, memory);
        if event.Some? {
          tasks := tasks[task := tasks[task].(event := event.value)];
        }
        tasks := tasks[task := tasks[task].(state := Scheduled)];
      }
      executing := None;
    }
  }
}
