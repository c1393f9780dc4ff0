/**
 * The event dispatcher (src/libxively/event_dispatcher/xi_event_dispatcher.c): time events fired when
 * due, a queue of handlers executed in order, and a handler for the moment no time event is left.
 * Handlers may themselves call the dispatcher; what they do is part of a run.
 */
module Dispatcher {
  import opened Common
  import opened TimeEvents

  /** The container is indexed by `int8_t`: it takes 64 events and cannot double once more. */
  const MAX_PENDING := 64

  /** A scheduled event; the id stands for the identity of the allocated event. */
  datatype Event<+P> = Event(id: nat, handler: P)

  datatype Firing = Firing(id: nat, due: int, at: int)

  /** What has happened so far; the dispatcher itself keeps no such record. */
  datatype History<+P> = History(fired: seq<Firing>, cancelled: seq<nat>, enqueued: seq<P>, executed: seq<P>)

  datatype Evtd<+P> = Evtd(
    now: int,
    pending: seq<Entry<Event<P>>>,
    callQueue: seq<P>,
    onEmpty: Option<P>,
    stop: bool,
    nextId: nat,
    past: History<P>)

  /** Calls of the dispatcher's interface; `memory` says whether the allocator can serve the call. */
  datatype Action<+P> =
    | Execute(h: P, memory: bool)
    | ExecuteIn(h: P, delay: int, memory: bool)
    | Cancel(id: nat)
    | Restart(id: nat, delay: int)
    | ContinueWhenEmpty(h: P)
    | Stop

  /** What a handler does when it is invoked, and whether it reports a fatal error. */
  datatype Reaction<+P> = Reaction(actions: seq<Action<P>>, fatal: bool)

  // ---------------------------------------------------------------------------------------------
  // Interface calls as functions of the state

  function Init<P>(): (s: Evtd<P>)
  {
    Evtd(0, [], [], None, false, 0, History([], [], [], []))
  }

  function IndexOf<P>(q: seq<Entry<Event<P>>>, id: nat): (r: int)
    ensures -1 <= r < |q|
    ensures r >= 0 ==> q[r].item.id == id
    ensures r < 0 ==> forall i :: 0 <= i < |q| ==> q[i].item.id != id
  {
    if q == [] then -1
    else if q[|q| - 1].item.id == id then |q| - 1
    else IndexOf(q[..|q| - 1], id)
  }

  predicate CanSchedule<P>(s: Evtd<P>, memory: bool)
  {
    memory && |s.pending| < MAX_PENDING
  }

  function Schedule<P>(s: Evtd<P>, h: P, delay: int, memory: bool): (s': Evtd<P>)
  {
    if CanSchedule(s, memory) then
      s.(pending := Add(s.pending, Entry(s.now + delay, Event(s.nextId, h))), nextId := s.nextId + 1)
    else s
  }

  /** Cancelling goes through the handle, which is cleared when its event is not pending any more. */
  function CancelPending<P>(s: Evtd<P>, id: nat): (s': Evtd<P>)
  {
    var k := IndexOf(s.pending, id);
    if k < 0 then s
    else s.(pending := RemoveAt(s.pending, k), past := s.past.(cancelled := s.past.cancelled + [id]))
  }

  function RestartPending<P>(s: Evtd<P>, id: nat, delay: int): (s': Evtd<P>)
  {
    var k := IndexOf(s.pending, id);
    if k < 0 then s else s.(pending := TimeEvents.Restart(s.pending, k, s.now + delay))
  }

  function Do<P>(s: Evtd<P>, a: Action<P>): (s': Evtd<P>)
  {
    match a
    case Execute(h, memory) =>
      if memory then s.(callQueue := s.callQueue + [h], past := s.past.(enqueued := s.past.enqueued + [h])) else s
    case ExecuteIn(h, delay, memory) => Schedule(s, h, delay, memory)
    case Cancel(id) => CancelPending(s, id)
    case Restart(id, delay) => RestartPending(s, id, delay)
    case ContinueWhenEmpty(h) => s.(onEmpty := Some(h))
    case Stop => s.(stop := true)
  }

  // ---------------------------------------------------------------------------------------------
  // Runs

  /**
   * The steps of a run: a dispatcher step begins at a time, somebody calls the interface, the dispatcher
   * takes the first due event, takes the first queued handler, or invokes or disposes of the handler
   * for the empty container.
   */
  datatype Label<+P> = Tick(t: int) | Call(a: Action<P>) | Fire | Pop | Empty | Dispose

  predicate Due<P>(s: Evtd<P>)
  {
    s.pending != [] && s.pending[0].due <= s.now
  }

  predicate Enabled<P>(s: Evtd<P>, l: Label<P>)
  {
    match l
    case Fire => Due(s)
    case Pop => s.callQueue != []
    case Empty => s.pending == [] && s.onEmpty.Some?
    case _ => true
  }

  function FireTop<P>(s: Evtd<P>): (s': Evtd<P>)
    requires s.pending != []
  {
    var top := s.pending[0];
    s.(pending := s.pending[1..],
       past := s.past.(fired := s.past.fired + [Firing(top.item.id, top.due, s.now)]))
  }

  function Next<P>(s: Evtd<P>, l: Label<P>): (s': Evtd<P>)
    requires Enabled(s, l)
  {
    match l
    case Tick(t) => s.(now := t)
    case Call(a) => Do(s, a)
    case Fire => FireTop(s)
    case Pop => s.(callQueue := s.callQueue[1..], past := s.past.(executed := s.past.executed + [s.callQueue[0]]))
    case Empty => s
    case Dispose => s.(onEmpty := None)
  }

  predicate Legal<P>(s: Evtd<P>, run: seq<Label<P>>)
    decreases |run|
  {
    run != [] ==> Enabled(s, run[0]) && Legal(Next(s, run[0]), run[1..])
  }

  function Run<P>(s: Evtd<P>, run: seq<Label<P>>): (s': Evtd<P>)
    requires Legal(s, run)
    decreases |run|
  {
    if run == [] then s else Run(Next(s, run[0]), run[1..])
  }

  lemma {:induction false} RunAppend<P>(s: Evtd<P>, run: seq<Label<P>>, more: seq<Label<P>>)
    requires Legal(s, run) && Legal(Run(s, run), more)
    ensures Legal(s, run + more) && Run(s, run + more) == Run(Run(s, run), more)
    decreases |run|
  {
    if run == [] {
      assert run + more == more;
    } else {
      assert (run + more)[1..] == run[1..] + more;
      RunAppend(Next(s, run[0]), run[1..], more);
    }
  }

  // ---------------------------------------------------------------------------------------------
  // What one invocation of a handler, and one step, amount to

  function Calls<P>(actions: seq<Action<P>>): (run: seq<Label<P>>)
  {
    seq(|actions|, i requires 0 <= i < |actions| => Call(actions[i]))
  }

  function ReactionAt<P>(rs: seq<Reaction<P>>, i: nat): (r: Reaction<P>)
  {
    if i < |rs| then rs[i] else Reaction([], false)
  }

  /** A fatal error of a timed handler stops the dispatcher; one of a queued handler is only logged. */
  function Invocation<P>(l: Label<P>, r: Reaction<P>): (run: seq<Label<P>>)
  {
    [l] + Calls(r.actions) + if l == Fire && r.fatal then [Call(Stop)] else []
  }

  function Invocations<P>(l: Label<P>, rs: seq<Reaction<P>>, i: nat, j: nat): (run: seq<Label<P>>)
    requires i <= j
  {
    if i == j then [] else Invocations(l, rs, i, j - 1) + Invocation(l, ReactionAt(rs, j - 1))
  }

  /** The part of a step for the empty container: its handler runs once and is then disposed of. */
  function EmptyPart<P>(s: Evtd<P>, r: Reaction<P>): (run: seq<Label<P>>)
  {
    if Enabled(s, Empty) then [Empty] + Calls(r.actions) + [Dispose] else []
  }

  /** A legal run from one state to another. */
  predicate Leads<P(==)>(s: Evtd<P>, run: seq<Label<P>>, t: Evtd<P>)
  {
    Legal(s, run) && Run(s, run) == t
  }

  lemma LeadsOn<P>(s: Evtd<P>, run: seq<Label<P>>, t: Evtd<P>, more: seq<Label<P>>, u: Evtd<P>)
    requires Leads(s, run, t) && Leads(t, more, u)
    ensures Leads(s, run + more, u)
  {
    RunAppend(s, run, more);
  }

  lemma LeadsOnce<P>(s: Evtd<P>, l: Label<P>, t: Evtd<P>)
    requires Leads(s, [l], t)
    ensures Enabled(s, l) && t == Next(s, l)
  {
    assert [l][0] == l && [l][1..] == [];
    assert Enabled(s, l) && Legal(Next(s, l), []);
    assert Run(s, [l]) == Run(Next(s, l), []);
  }

  lemma LeadsNowhere<P>(s: Evtd<P>, t: Evtd<P>)
    requires Leads(s, [], t)
    ensures s == t
  {
  }

  lemma CallLeads<P>(s: Evtd<P>, a: Action<P>, t: Evtd<P>)
    requires t == Do(s, a)
    ensures Leads(s, [Call(a)], t)
  {
    assert Run(t, []) == t && [Call(a)][1..] == [];
  }

  lemma OneMoreCall<P>(s: Evtd<P>, actions: seq<Action<P>>, i: nat, t: Evtd<P>, u: Evtd<P>)
    requires i < |actions| && Leads(s, Calls(actions[..i]), t) && Leads(t, [Call(actions[i])], u)
    ensures Leads(s, Calls(actions[..i + 1]), u)
  {
    LeadsOn(s, Calls(actions[..i]), t, [Call(actions[i])], u);
    assert Calls(actions[..i + 1]) == Calls(actions[..i]) + [Call(actions[i])];
  }

  /** A handler is invoked, does what it does, and fails or not. */
  lemma Invoked<P>(s: Evtd<P>, l: Label<P>, t: Evtd<P>, r: Reaction<P>, u: Evtd<P>, v: Evtd<P>)
    requires Leads(s, [l], t) && Leads(t, Calls(r.actions), u)
    requires if l == Fire && r.fatal then Leads(u, [Call(Stop)], v) else v == u
    ensures Leads(s, Invocation(l, r), v)
  {
    LeadsOn(s, [l], t, Calls(r.actions), u);
    if l == Fire && r.fatal {
      LeadsOn(s, [l] + Calls(r.actions), u, [Call(Stop)], v);
    } else {
      assert [l] + Calls(r.actions) == Invocation(l, r);
    }
  }

  lemma OneMoreInvocation<P>(s: Evtd<P>, l: Label<P>, rs: seq<Reaction<P>>, i: nat, j: nat, t: Evtd<P>, u: Evtd<P>)
    requires i <= j && Leads(s, Invocations(l, rs, i, j), t) && Leads(t, Invocation(l, ReactionAt(rs, j)), u)
    ensures Leads(s, Invocations(l, rs, i, j + 1), u)
  {
    LeadsOn(s, Invocations(l, rs, i, j), t, Invocation(l, ReactionAt(rs, j)), u);
  }

  lemma EmptyInvoked<P>(s: Evtd<P>, r: Reaction<P>, t: Evtd<P>)
    requires Enabled(s, Empty) && Leads(s, Calls(r.actions), t)
    ensures Leads(s, EmptyPart(s, r), Next(t, Dispose))
  {
    LeadsOn(s, [Empty], s, Calls(r.actions), t);
    LeadsOn(s, [Empty] + Calls(r.actions), t, [Dispose], Next(t, Dispose));
  }

  /** A whole step: firings until nothing is due, pops until nothing is queued, then the handler for the empty container. */
  predicate Stepped<P(==)>(s: Evtd<P>, rs: seq<Reaction<P>>, n: nat, m: nat, s1: Evtd<P>, s2: Evtd<P>, t: Evtd<P>)
  {
    && Leads(s, Invocations(Fire, rs, 0, n), s1) && !Due(s1)
    && Leads(s1, Invocations(Pop, rs, n, n + m), s2) && s2.callQueue == []
    && Leads(s2, EmptyPart(s2, ReactionAt(rs, n + m)), t)
  }
}
