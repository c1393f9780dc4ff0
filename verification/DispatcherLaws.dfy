/**
 * What a run of the dispatcher makes of the calls in it, read off the calls themselves: which handlers it
 * executes, when events fire and with which due times, and what remains of the other requests.
 */
module DispatcherLaws {
  import opened Common
  import opened TimeEvents
  import opened Dispatcher
  import opened DispatcherRuns

  // ---------------------------------------------------------------------------------------------
  // Enqueued handlers are executed

  /** The handlers that the calls of a run enqueue, in order. */
  function Asked<P>(run: seq<Label<P>>): (handlers: seq<P>)
  {
    if run == [] then []
    else
      (match run[0]
       case Call(Execute(h, memory)) => if memory then [h] else []
       case _ => [])
      + Asked(run[1..])
  }

  function Pops<P>(run: seq<Label<P>>): (n: nat)
  {
    if run == [] then 0 else (if run[0].Pop? then 1 else 0) + Pops(run[1..])
  }

  lemma {:induction false} EnqueuedIsAsked<P>(s: Evtd<P>, run: seq<Label<P>>)
    requires Legal(s, run)
    ensures Run(s, run).past.enqueued == s.past.enqueued + Asked(run)
    ensures |Run(s, run).past.executed| == |s.past.executed| + Pops(run)
    decreases |run|
  {
    if run != [] {
      EnqueuedIsAsked(Next(s, run[0]), run[1..]);
    }
  }

  /**
   * From the start, the handlers executed are the first ones asked for, as many as were taken from the queue,
   * and the queue holds the others; with an empty queue every handler asked for has been executed.
   */
  lemma ExecutedIsAsked<P>(run: seq<Label<P>>)
    requires Legal(Init<P>(), run)
    ensures Pops(run) <= |Asked(run)|
    ensures var s := Run(Init<P>(), run);
            s.past.executed == Asked(run)[..Pops(run)] && s.callQueue == Asked(run)[Pops(run)..]
  {
    QueueIsFifo(Init<P>(), run);
    EnqueuedIsAsked(Init<P>(), run);
    SplitAt(Run(Init<P>(), run).past.executed, Run(Init<P>(), run).callQueue, Asked(run), Pops(run));
  }

  lemma SplitAt<A>(front: seq<A>, back: seq<A>, all: seq<A>, n: nat)
    requires all == front + back && |front| == n
    ensures n <= |all| && front == all[..n] && back == all[n..]
  {
  }

  // ---------------------------------------------------------------------------------------------
  // The clock, the stop flag and the handler for the empty container

  function Clock<P>(now: int, run: seq<Label<P>>): (t: int)
    decreases |run|
  {
    if run == [] then now else Clock(if run[0].Tick? then run[0].t else now, run[1..])
  }

  /** The times at which the firings of a run happen. */
  function FireTimes<P>(now: int, run: seq<Label<P>>): (times: seq<int>)
    decreases |run|
  {
    if run == [] then []
    else (if run[0].Fire? then [now] else []) + FireTimes(if run[0].Tick? then run[0].t else now, run[1..])
  }

  ghost function Stamps(fired: seq<Firing>): (times: seq<int>)
  {
    seq(|fired|, i requires 0 <= i < |fired| => fired[i].at)
  }

  /** Every firing is recorded with the time of the last tick before it. */
  lemma {:induction false} FiringsAreStamped<P>(s: Evtd<P>, run: seq<Label<P>>)
    requires Legal(s, run)
    ensures Run(s, run).now == Clock(s.now, run)
    ensures Stamps(Run(s, run).past.fired) == Stamps(s.past.fired) + FireTimes(s.now, run)
    decreases |run|
  {
    if run != [] {
      var s' := Next(s, run[0]);
      assert Stamps(s'.past.fired) == Stamps(s.past.fired) + if run[0].Fire? then [s.now] else [];
      FiringsAreStamped(s', run[1..]);
    }
  }

  /** The dispatcher is stopped iff somebody called for it. */
  lemma {:induction false} StoppedIsAsked<P>(s: Evtd<P>, run: seq<Label<P>>)
    requires Legal(s, run)
    ensures Run(s, run).stop <==> s.stop || Call(Stop) in run
    decreases |run|
  {
    if run != [] {
      StoppedIsAsked(Next(s, run[0]), run[1..]);
      assert Call(Stop) in run <==> run[0] == Call(Stop) || Call(Stop) in run[1..];
    }
  }

  /** What is set for the empty container is the last handler asked for, unless one was disposed of after that. */
  lemma {:induction false} OnEmptyIsLast<P>(s: Evtd<P>, run: seq<Label<P>>, k: nat)
    requires Legal(s, run) && k < |run|
    requires run[k].Dispose? || (run[k].Call? && run[k].a.ContinueWhenEmpty?)
    requires forall i :: k < i < |run| ==> !run[i].Dispose? && !(run[i].Call? && run[i].a.ContinueWhenEmpty?)
    ensures Run(s, run).onEmpty == if run[k].Dispose? then None else Some(run[k].a.h)
    decreases |run|
  {
    if k > 0 {
      OnEmptyIsLast(Next(s, run[0]), run[1..], k - 1);
    } else {
      OnEmptyStays(Next(s, run[0]), run[1..]);
    }
  }

  lemma {:induction false} OnEmptyStays<P>(s: Evtd<P>, run: seq<Label<P>>)
    requires Legal(s, run)
    requires forall i :: 0 <= i < |run| ==> !run[i].Dispose? && !(run[i].Call? && run[i].a.ContinueWhenEmpty?)
    ensures Run(s, run).onEmpty == s.onEmpty
    decreases |run|
  {
    if run != [] {
      OnEmptyStays(Next(s, run[0]), run[1..]);
    }
  }

  // ---------------------------------------------------------------------------------------------
  // Events keep the times that were asked for

  /** The due time and the handler last asked for. */
  datatype Promise<+P> = Promise(due: int, handler: P)

  /** A request that is taken promises a new event, and a restart of a pending event a new time for it. */
  function PromisesAfter<P>(s: Evtd<P>, asked: map<nat, Promise<P>>, l: Label<P>): (asked': map<nat, Promise<P>>)
  {
    if l.Call? then PromisesAfterCall(s, asked, l.a) else asked
  }

  function PromisesAfterCall<P>(s: Evtd<P>, asked: map<nat, Promise<P>>, a: Action<P>): (asked': map<nat, Promise<P>>)
  {
    match a
    case ExecuteIn(h, delay, memory) => Booked(s, asked, h, s.now + delay, memory)
    case Restart(id, delay) => Moved(s, asked, id, s.now + delay)
    case _ => asked
  }

  function Booked<P>(s: Evtd<P>, asked: map<nat, Promise<P>>, h: P, t: int, memory: bool): (asked': map<nat, Promise<P>>)
  {
    if memory && |s.pending| < MAX_PENDING then asked[s.nextId := Promise(t, h)] else asked
  }

  function Moved<P>(s: Evtd<P>, asked: map<nat, Promise<P>>, id: nat, t: int): (asked': map<nat, Promise<P>>)
  {
    if id in asked && IndexOf(s.pending, id) >= 0 then asked[id := Promise(t, asked[id].handler)] else asked
  }

  function Promises<P>(s: Evtd<P>, asked: map<nat, Promise<P>>, run: seq<Label<P>>): (asked': map<nat, Promise<P>>)
    requires Legal(s, run)
    decreases |run|
  {
    if run == [] then asked else Promises(Next(s, run[0]), PromisesAfter(s, asked, run[0]), run[1..])
  }

  ghost predicate PendingKept<P>(q: seq<Entry<Event<P>>>, asked: map<nat, Promise<P>>, i: nat)
    requires i < |q|
  {
    q[i].item.id in asked && asked[q[i].item.id] == Promise(q[i].due, q[i].item.handler)
  }

  ghost predicate FiringKept<P>(fired: seq<Firing>, asked: map<nat, Promise<P>>, i: nat)
    requires i < |fired|
  {
    fired[i].id in asked && asked[fired[i].id].due == fired[i].due
  }

  /** Exactly the first n events are promised, and pending and fired ones have the times and handlers promised. */
  ghost predicate Matches<P>(q: seq<Entry<Event<P>>>, fired: seq<Firing>, n: nat, asked: map<nat, Promise<P>>)
  {
    && (forall id: nat :: id in asked <==> id < n)
    && (forall i :: 0 <= i < |q| ==> PendingKept(q, asked, i))
    && (forall i :: 0 <= i < |fired| ==> FiringKept(fired, asked, i))
  }

  ghost predicate Honoured<P>(s: Evtd<P>, asked: map<nat, Promise<P>>)
  {
    Accounted(s) && Matches(s.pending, s.past.fired, s.nextId, asked)
  }

  /** Which queues and firings match is a matter of their members. */
  lemma MatchesMembers<P>(q: seq<Entry<Event<P>>>, fired: seq<Firing>, n: nat, asked: map<nat, Promise<P>>,
                          r: seq<Entry<Event<P>>>, n': nat, asked': map<nat, Promise<P>>, e: Entry<Event<P>>)
    requires Matches(q, fired, n, asked) && forall id: nat :: id in asked' <==> id < n'
    requires e.item.id in asked' && asked'[e.item.id] == Promise(e.due, e.item.handler)
    requires forall id :: id in asked && id != e.item.id ==> id in asked' && asked'[id] == asked[id]
    requires forall x :: x in r ==> x == e || (x in q && x.item.id != e.item.id)
    requires forall f :: f in fired ==> f.id != e.item.id
    ensures Matches(r, fired, n', asked')
  {
    forall i | 0 <= i < |r|
      ensures PendingKept(r, asked', i)
    {
      assert r[i] in r;
      if r[i] != e {
        var j :| 0 <= j < |q| && q[j] == r[i];
        assert PendingKept(q, asked, j);
      }
    }
    forall i | 0 <= i < |fired|
      ensures FiringKept(fired, asked', i)
    {
      assert fired[i] in fired && FiringKept(fired, asked, i);
    }
  }

  lemma ScheduleHonours<P>(s: Evtd<P>, asked: map<nat, Promise<P>>, a: Action<P>, s': Evtd<P>)
    requires Honoured(s, asked) && a.ExecuteIn? && s' == Do(s, a)
    ensures Honoured(s', PromisesAfterCall(s, asked, a))
  {
    ScheduleAccounts(s, a.h, a.delay, a.memory);
    ScheduleMatches(s, asked, a.h, a.delay, a.memory, s');
  }

  lemma ScheduleMatches<P>(s: Evtd<P>, asked: map<nat, Promise<P>>, h: P, delay: int, memory: bool, s': Evtd<P>)
    requires Matches(s.pending, s.past.fired, s.nextId, asked) && s' == Schedule(s, h, delay, memory)
    ensures Matches(s'.pending, s'.past.fired, s'.nextId, Booked(s, asked, h, s.now + delay, memory))
  {
    if CanSchedule(s, memory) {
      var _ := AddMatches(s.pending, s.past.fired, s.nextId, asked, s.now + delay, h);
    }
  }

  lemma AddMatches<P>(q: seq<Entry<Event<P>>>, fired: seq<Firing>, n: nat, asked: map<nat, Promise<P>>, due: int, h: P)
    returns (r: seq<Entry<Event<P>>>)
    requires Matches(q, fired, n, asked)
    ensures r == Add(q, Entry(due, Event(n, h))) && Matches(r, fired, n + 1, asked[n := Promise(due, h)])
  {
    r := Add(q, Entry(due, Event(n, h)));
    AddMembers(q, Entry(due, Event(n, h)));
    forall i | 0 <= i < |q|
      ensures q[i].item.id in asked
    {
      assert PendingKept(q, asked, i);
    }
    forall i | 0 <= i < |fired|
      ensures fired[i].id in asked
    {
      assert FiringKept(fired, asked, i);
    }
    MatchesMembers(q, fired, n, asked, r, n + 1, asked[n := Promise(due, h)], Entry(due, Event(n, h)));
  }

  lemma CancelHonours<P>(s: Evtd<P>, asked: map<nat, Promise<P>>, a: Action<P>, s': Evtd<P>)
    requires Honoured(s, asked) && a.Cancel? && s' == Do(s, a)
    ensures Honoured(s', PromisesAfterCall(s, asked, a))
  {
    CancelAccounts(s, a.id);
    var k := IndexOf(s.pending, a.id);
    if k >= 0 {
      RemoveMatches(s.pending, s.past.fired, s.nextId, asked, k, s'.pending);
    }
  }

  lemma RemoveMatches<P>(q: seq<Entry<Event<P>>>, fired: seq<Firing>, n: nat, asked: map<nat, Promise<P>>, k: nat,
                         r: seq<Entry<Event<P>>>)
    requires Matches(q, fired, n, asked) && k < |q| && r == RemoveAt(q, k)
    ensures Matches(r, fired, n, asked)
  {
    forall i | 0 <= i < |r|
      ensures PendingKept(r, asked, i)
    {
      assert PendingKept(q, asked, if i < k then i else i + 1);
    }
  }

  /** No fired event is pending. */
  lemma FiredIsNotPending<P>(s: Evtd<P>, id: nat)
    requires Accounted(s) && exists f :: f in s.past.fired && f.id == id
    ensures IndexOf(s.pending, id) < 0
  {
    var i :| 0 <= i < |s.past.fired| && s.past.fired[i].id == id;
    assert FiredIds(s.past.fired)[i] == id && id in multiset(FiredIds(s.past.fired));
    if IndexOf(s.pending, id) >= 0 {
      IndexedIsPending(s.pending, id);
    }
    EventsAreConserved(s, [], id);
  }

  lemma FiredAreOthers<P>(s: Evtd<P>, id: nat)
    requires Accounted(s) && IndexOf(s.pending, id) >= 0
    ensures forall f :: f in s.past.fired ==> f.id != id
  {
    forall f | f in s.past.fired
      ensures f.id != id
    {
      if f.id == id {
        FiredIsNotPending(s, id);
      }
    }
  }

  lemma IndexedIsPending<P>(q: seq<Entry<Event<P>>>, id: nat)
    requires IndexOf(q, id) >= 0
    ensures id in multiset(PendingIds(q))
  {
    assert PendingIds(q)[IndexOf(q, id)] == id;
  }

  /** Exactly one pending event changes, and it has not fired. */
  lemma RestartHonours<P>(s: Evtd<P>, asked: map<nat, Promise<P>>, a: Action<P>, s': Evtd<P>)
    requires Honoured(s, asked) && a.Restart? && s' == Do(s, a)
    ensures Honoured(s', PromisesAfterCall(s, asked, a))
  {
    RestartedIsAccounted(s, a.id, a.delay, s');
    MoveMatches(s, asked, a.id, a.delay, s');
  }

  lemma RestartedIsAccounted<P>(s: Evtd<P>, id: nat, delay: int, s': Evtd<P>)
    requires Accounted(s) && s' == RestartPending(s, id, delay)
    ensures Accounted(s')
  {
    RestartAccounts(s, id, delay);
  }

  lemma MoveMatches<P>(s: Evtd<P>, asked: map<nat, Promise<P>>, id: nat, delay: int, s': Evtd<P>)
    requires Honoured(s, asked) && s' == RestartPending(s, id, delay)
    ensures Matches(s'.pending, s'.past.fired, s'.nextId, Moved(s, asked, id, s.now + delay))
  {
    if IndexOf(s.pending, id) >= 0 {
      RestartMatches(s, asked, id, s.now + delay, s'.pending);
    }
  }

  lemma RestartMatches<P>(s: Evtd<P>, asked: map<nat, Promise<P>>, id: nat, t: int, q: seq<Entry<Event<P>>>)
    requires Honoured(s, asked) && IndexOf(s.pending, id) >= 0
    requires q == TimeEvents.Restart(s.pending, IndexOf(s.pending, id), t)
    ensures id in asked && Matches(q, s.past.fired, s.nextId, asked[id := Promise(t, asked[id].handler)])
  {
    var k := IndexOf(s.pending, id);
    assert PendingKept(s.pending, asked, k);
    RestartedMembers(s, k, t, q);
    FiredAreOthers(s, id);
    var _ := MovedMatches(s.pending, s.past.fired, s.nextId, asked, k, t, q);
  }

  lemma MovedMatches<P>(q: seq<Entry<Event<P>>>, fired: seq<Firing>, n: nat, asked: map<nat, Promise<P>>, k: nat, t: int,
                        r: seq<Entry<Event<P>>>) returns (asked': map<nat, Promise<P>>)
    requires Matches(q, fired, n, asked) && k < |q| && PendingKept(q, asked, k)
    requires forall x :: x in r ==> x == Entry(t, q[k].item) || (x in q && x.item.id != q[k].item.id)
    requires forall f :: f in fired ==> f.id != q[k].item.id
    ensures asked' == asked[q[k].item.id := Promise(t, asked[q[k].item.id].handler)] && Matches(r, fired, n, asked')
  {
    asked' := asked[q[k].item.id := Promise(t, asked[q[k].item.id].handler)];
    MatchesMembers(q, fired, n, asked, r, n, asked', Entry(t, q[k].item));
  }

  lemma RestartedMembers<P>(s: Evtd<P>, k: nat, t: int, q: seq<Entry<Event<P>>>)
    requires Accounted(s) && k < |s.pending| && q == TimeEvents.Restart(s.pending, k, t)
    ensures forall x :: x in q ==> x == Entry(t, s.pending[k].item) || (x in s.pending && x.item.id != s.pending[k].item.id)
  {
    RemovedIsGone(s, k);
    InsertMembers(RemoveAt(s.pending, k), RestartPosition(s.pending, k, t), Entry(t, s.pending[k].item));
  }

  lemma FireHonours<P>(s: Evtd<P>, asked: map<nat, Promise<P>>, s': Evtd<P>)
    requires Honoured(s, asked) && s.pending != [] && s' == FireTop(s)
    ensures Honoured(s', asked)
  {
    FireAccounts(s);
    assert PendingKept(s.pending, asked, 0);
    forall i | 0 <= i < |s'.pending|
      ensures PendingKept(s'.pending, asked, i)
    {
      assert PendingKept(s.pending, asked, i + 1);
    }
    forall i | 0 <= i < |s'.past.fired|
      ensures FiringKept(s'.past.fired, asked, i)
    {
      assert i < |s.past.fired| ==> FiringKept(s.past.fired, asked, i);
    }
  }

  lemma NextHonours<P>(s: Evtd<P>, asked: map<nat, Promise<P>>, l: Label<P>, s': Evtd<P>)
    requires Honoured(s, asked) && Enabled(s, l) && s' == Next(s, l)
    ensures Honoured(s', PromisesAfter(s, asked, l))
  {
    match l {
      case Call(a) => CallHonours(s, asked, a, s');
      case Fire => FireHonours(s, asked, s');
      case _ =>
    }
  }

  lemma CallHonours<P>(s: Evtd<P>, asked: map<nat, Promise<P>>, a: Action<P>, s': Evtd<P>)
    requires Honoured(s, asked) && s' == Do(s, a)
    ensures Honoured(s', PromisesAfterCall(s, asked, a))
  {
    if a.ExecuteIn? {
      ScheduleHonours(s, asked, a, s');
    } else if a.Cancel? {
      CancelHonours(s, asked, a, s');
    } else if a.Restart? {
      RestartHonours(s, asked, a, s');
    } else {
      OthersHonour(s, asked, s');
    }
  }

  lemma OthersHonour<P>(s: Evtd<P>, asked: map<nat, Promise<P>>, s': Evtd<P>)
    requires Honoured(s, asked) && s'.pending == s.pending && s'.nextId == s.nextId
    requires s'.past.fired == s.past.fired && s'.past.cancelled == s.past.cancelled
    ensures Honoured(s', asked)
  {
  }

  /** In every run, each event that is pending or has fired has the handler and the due time last asked for it. */
  lemma {:induction false} PromisesAreHonoured<P>(s: Evtd<P>, asked: map<nat, Promise<P>>, run: seq<Label<P>>)
    requires Honoured(s, asked) && Legal(s, run)
    ensures Honoured(Run(s, run), Promises(s, asked, run))
    decreases |run|
  {
    if run != [] {
      NextHonours(s, asked, run[0], Next(s, run[0]));
      PromisesAreHonoured(Next(s, run[0]), PromisesAfter(s, asked, run[0]), run[1..]);
    }
  }

  /** So an event that is pending or has fired is due at the time last asked for, and has the handler asked for. */
  lemma EventsKeepPromises<P>(run: seq<Label<P>>)
    requires Legal(Init<P>(), run)
    ensures var s, asked := Run(Init<P>(), run), Promises(Init<P>(), map[], run);
            && (forall id: nat :: id in asked <==> id < s.nextId)
            && (forall x :: x in s.pending ==> x.item.id in asked && asked[x.item.id] == Promise(x.due, x.item.handler))
            && (forall f :: f in s.past.fired ==> f.id in asked && asked[f.id].due == f.due)
  {
    var s, asked := Run(Init<P>(), run), Promises(Init<P>(), map[], run);
    assert PendingIds<P>([]) == [] && FiredIds([]) == [] && Issued(0) == [];
    PromisesAreHonoured(Init<P>(), map[], run);
    forall x | x in s.pending
      ensures x.item.id in asked && asked[x.item.id] == Promise(x.due, x.item.handler)
    {
      var i :| 0 <= i < |s.pending| && s.pending[i] == x;
      assert PendingKept(s.pending, asked, i);
    }
    forall f | f in s.past.fired
      ensures f.id in asked && asked[f.id].due == f.due
    {
      var i :| 0 <= i < |s.past.fired| && s.past.fired[i] == f;
      assert FiringKept(s.past.fired, asked, i);
    }
  }

  // ---------------------------------------------------------------------------------------------
  // A step makes the calls that its handlers make

  function CallsIn<P>(run: seq<Label<P>>): (actions: seq<Action<P>>)
  {
    if run == [] then [] else (if run[0].Call? then [run[0].a] else []) + CallsIn(run[1..])
  }

  function Fires<P>(run: seq<Label<P>>): (n: nat)
  {
    if run == [] then 0 else (if run[0].Fire? then 1 else 0) + Fires(run[1..])
  }

  lemma {:induction false} ReadingsAppend<P>(run: seq<Label<P>>, more: seq<Label<P>>)
    ensures CallsIn(run + more) == CallsIn(run) + CallsIn(more)
    ensures Fires(run + more) == Fires(run) + Fires(more) && Pops(run + more) == Pops(run) + Pops(more)
    decreases |run|
  {
    if run == [] {
      assert run + more == more;
    } else {
      assert (run + more)[1..] == run[1..] + more;
      ReadingsAppend(run[1..], more);
    }
  }

  lemma {:induction false} ReadCalls<P>(actions: seq<Action<P>>)
    ensures CallsIn(Calls(actions)) == actions && Fires(Calls(actions)) == 0 && Pops(Calls(actions)) == 0
    decreases |actions|
  {
    if actions != [] {
      assert Calls(actions)[1..] == Calls(actions[1..]);
      ReadCalls(actions[1..]);
    }
  }

  /** The calls of the handlers i, ..., j - 1; a timed handler that fails fatally has the dispatcher stopped. */
  function Made<P>(timed: bool, rs: seq<Reaction<P>>, i: nat, j: nat): (actions: seq<Action<P>>)
    requires i <= j
    decreases j - i
  {
    if i == j then []
    else
      (if i < |rs| then rs[i].actions + (if timed && rs[i].fatal then [Stop] else []) else [])
      + Made(timed, rs, i + 1, j)
  }

  lemma ReadInvocation<P>(l: Label<P>, r: Reaction<P>)
    requires l.Fire? || l.Pop?
    ensures CallsIn(Invocation(l, r)) == r.actions + if l.Fire? && r.fatal then [Stop] else []
    ensures Fires(Invocation(l, r)) == (if l.Fire? then 1 else 0) && Pops(Invocation(l, r)) == if l.Pop? then 1 else 0
  {
    var last: seq<Label<P>> := if l == Fire && r.fatal then [Call(Stop)] else [];
    ReadCalls(r.actions);
    ReadingsAppend([l], Calls(r.actions));
    ReadingsAppend([l] + Calls(r.actions), last);
    assert CallsIn([l]) == [];
    assert CallsIn(last) == if l.Fire? && r.fatal then [Stop] else [];
  }

  lemma {:induction false} MadeSnoc<P>(timed: bool, rs: seq<Reaction<P>>, i: nat, j: nat)
    requires i <= j
    ensures Made(timed, rs, i, j + 1) == Made(timed, rs, i, j) + Made(timed, rs, j, j + 1)
    decreases j - i
  {
    if i < j {
      MadeSnoc(timed, rs, i + 1, j);
    }
  }

  /** Each of the handlers is invoked once, and all its calls are made, in order. */
  lemma {:induction false} ReadInvocations<P>(l: Label<P>, rs: seq<Reaction<P>>, i: nat, j: nat)
    requires i <= j && (l.Fire? || l.Pop?)
    ensures CallsIn(Invocations(l, rs, i, j)) == Made(l.Fire?, rs, i, j)
    ensures Fires(Invocations(l, rs, i, j)) == if l.Fire? then j - i else 0
    ensures Pops(Invocations(l, rs, i, j)) == if l.Pop? then j - i else 0
    decreases j
  {
    if i < j {
      ReadInvocations(l, rs, i, j - 1);
      ReadInvocation(l, ReactionAt(rs, j - 1));
      ReadingsAppend(Invocations(l, rs, i, j - 1), Invocation(l, ReactionAt(rs, j - 1)));
      MadeSnoc(l.Fire?, rs, i, j - 1);
    }
  }

  /** The handler for the empty container is called iff there is one and nothing is pending; it is gone after that. */
  lemma ReadEmptyPart<P>(s: Evtd<P>, r: Reaction<P>, t: Evtd<P>)
    requires Leads(s, EmptyPart(s, r), t)
    ensures if s.pending == [] && s.onEmpty.Some?
            then CallsIn(EmptyPart(s, r)) == r.actions && t.onEmpty == None
            else t == s
  {
    if s.pending == [] && s.onEmpty.Some? {
      var front: seq<Label<P>> := [Empty] + Calls(r.actions);
      ReadCalls(r.actions);
      ReadingsAppend([Empty], Calls(r.actions));
      ReadingsAppend(front, [Dispose]);
      assert EmptyPart(s, r) == front + [Dispose];
      assert CallsIn<P>([Empty]) == [] && CallsIn<P>([Dispose]) == [];
      OnEmptyIsLast(s, EmptyPart(s, r), |front|);
    } else {
      LeadsNowhere(s, t);
    }
  }

  /**
   * A step fires n events and executes m handlers, makes exactly the calls of those handlers, in order, and
   * then, with nothing pending, those of the handler for the empty container.
   */
  lemma StepMakesItsCalls<P>(s: Evtd<P>, rs: seq<Reaction<P>>, n: nat, m: nat, s1: Evtd<P>, s2: Evtd<P>, t: Evtd<P>)
    returns (run: seq<Label<P>>)
    requires Stepped(s, rs, n, m, s1, s2, t)
    ensures Leads(s, run, t) && Fires(run) == n && Pops(run) == m
    ensures CallsIn(run) == Made(true, rs, 0, n) + Made(false, rs, n, n + m)
                            + if s2.pending == [] && s2.onEmpty.Some? then ReactionAt(rs, n + m).actions else []
    ensures s2.pending == [] && s2.onEmpty.Some? ==> t.onEmpty == None
  {
    var timed, queued, last := Invocations(Fire, rs, 0, n), Invocations(Pop, rs, n, n + m), EmptyPart(s2, ReactionAt(rs, n + m));
    run := timed + queued + last;
    ReadInvocations(Fire, rs, 0, n);
    ReadInvocations(Pop, rs, n, n + m);
    ReadEmptyPart(s2, ReactionAt(rs, n + m), t);
    ReadLast(s2, ReactionAt(rs, n + m));
    ReadingsAppend(timed, queued);
    ReadingsAppend(timed + queued, last);
    LeadsOn(s, timed, s1, queued, s2);
    LeadsOn(s, timed + queued, s2, last, t);
  }

  lemma ReadLast<P>(s: Evtd<P>, r: Reaction<P>)
    ensures Fires(EmptyPart(s, r)) == 0 && Pops(EmptyPart(s, r)) == 0
    ensures !(s.pending == [] && s.onEmpty.Some?) ==> CallsIn(EmptyPart(s, r)) == []
  {
    ReadCalls(r.actions);
    ReadingsAppend([Empty], Calls(r.actions));
    ReadingsAppend([Empty] + Calls(r.actions), [Dispose]);
  }
}
