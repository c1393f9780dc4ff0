/** What holds of every run of the event dispatcher, whatever its handlers do. */
module DispatcherRuns {
  import opened TimeEvents
  import opened Dispatcher

  // ---------------------------------------------------------------------------------------------
  // Every scheduled event has exactly one fate

  ghost function PendingIds<P>(q: seq<Entry<Event<P>>>): (ids: seq<nat>)
  {
    seq(|q|, i requires 0 <= i < |q| => q[i].item.id)
  }

  ghost function FiredIds(fired: seq<Firing>): (ids: seq<nat>)
  {
    seq(|fired|, i requires 0 <= i < |fired| => fired[i].id)
  }

  ghost function Issued(n: nat): (ids: seq<nat>)
  {
    seq(n, i => i)
  }

  /** Pending, fired and cancelled events together are the events ever scheduled, each once. */
  ghost predicate Accounted<P>(s: Evtd<P>)
  {
    multiset(PendingIds(s.pending)) + multiset(FiredIds(s.past.fired)) + multiset(s.past.cancelled)
    == multiset(Issued(s.nextId))
  }

  lemma InsertIds<P>(q: seq<Entry<Event<P>>>, p: nat, e: Entry<Event<P>>)
    requires p <= |q|
    ensures multiset(PendingIds(InsertAt(q, p, e))) == multiset(PendingIds(q)) + multiset{e.item.id}
  {
    InsertContents(PendingIds(q), p, e.item.id);
    assert PendingIds(InsertAt(q, p, e)) == InsertAt(PendingIds(q), p, e.item.id);
  }

  lemma RemoveIds<P>(q: seq<Entry<Event<P>>>, k: nat)
    requires k < |q|
    ensures multiset(PendingIds(q)) == multiset(PendingIds(RemoveAt(q, k))) + multiset{q[k].item.id}
  {
    InsertIds(RemoveAt(q, k), k, q[k]);
    assert InsertAt(RemoveAt(q, k), k, q[k]) == q;
  }

  lemma RestartIds<P>(q: seq<Entry<Event<P>>>, k: nat, t: int)
    requires k < |q|
    ensures multiset(PendingIds(TimeEvents.Restart(q, k, t))) == multiset(PendingIds(q))
  {
    RemoveIds(q, k);
    InsertIds(RemoveAt(q, k), RestartPosition(q, k, t), Entry(t, q[k].item));
  }

  lemma ScheduleAccounts<P>(s: Evtd<P>, h: P, delay: int, memory: bool)
    requires Accounted(s)
    ensures Accounted(Schedule(s, h, delay, memory))
  {
    if CanSchedule(s, memory) {
      var e := Entry(s.now + delay, Event(s.nextId, h));
      InsertIds(s.pending, DownTo(s.pending, |s.pending|, e.due), e);
      assert Issued(s.nextId + 1) == Issued(s.nextId) + [s.nextId];
    }
  }

  lemma CancelAccounts<P>(s: Evtd<P>, id: nat)
    requires Accounted(s)
    ensures Accounted(CancelPending(s, id))
  {
    var k := IndexOf(s.pending, id);
    if k >= 0 {
      RemoveIds(s.pending, k);
    }
  }

  lemma SameIdsAccount<P>(s: Evtd<P>, q: seq<Entry<Event<P>>>)
    requires Accounted(s) && multiset(PendingIds(q)) == multiset(PendingIds(s.pending))
    ensures Accounted(s.(pending := q))
  {
  }

  lemma RestartAccounts<P>(s: Evtd<P>, id: nat, delay: int)
    requires Accounted(s)
    ensures Accounted(RestartPending(s, id, delay))
  {
    var s' := RestartPending(s, id, delay);
    var q := RestartedIds(s, id, delay, s');
    SameIdsAccount(s, q);
  }

  lemma RestartedIds<P>(s: Evtd<P>, id: nat, delay: int, s': Evtd<P>) returns (q: seq<Entry<Event<P>>>)
    requires s' == RestartPending(s, id, delay)
    ensures s' == s.(pending := q) && multiset(PendingIds(q)) == multiset(PendingIds(s.pending))
  {
    q := s'.pending;
    var k := IndexOf(s.pending, id);
    if k >= 0 {
      RestartIds(s.pending, k, s.now + delay);
    }
  }

  lemma FireAccounts<P>(s: Evtd<P>)
    requires Accounted(s) && s.pending != []
    ensures Accounted(FireTop(s))
  {
    RemoveIds(s.pending, 0);
    assert RemoveAt(s.pending, 0) == s.pending[1..];
    assert FiredIds(FireTop(s).past.fired) == FiredIds(s.past.fired) + [s.pending[0].item.id];
  }

  lemma NextAccounts<P>(s: Evtd<P>, l: Label<P>)
    requires Accounted(s) && Enabled(s, l)
    ensures Accounted(Next(s, l))
  {
    match l {
      case Call(ExecuteIn(h, delay, memory)) => ScheduleAccounts(s, h, delay, memory);
      case Call(Cancel(id)) => CancelAccounts(s, id);
      case Call(Restart(id, delay)) => RestartAccounts(s, id, delay);
      case Fire => FireAccounts(s);
      case _ =>
    }
  }

  /** In every run, at every moment, each scheduled event is pending, fired once or cancelled, and only one of these. */
  lemma {:induction false} EventsAreConserved<P>(s: Evtd<P>, run: seq<Label<P>>, id: nat)
    requires Accounted(s) && Legal(s, run)
    ensures var e := Run(s, run);
            var pending, fired, cancelled :=
              multiset(PendingIds(e.pending))[id], multiset(FiredIds(e.past.fired))[id], multiset(e.past.cancelled)[id];
            && Accounted(e)
            && pending + fired + cancelled == if id < e.nextId then 1 else 0
    decreases |run|
  {
    if run == [] {
      IssuedOnce(s.nextId, id);
      var all := multiset(PendingIds(s.pending)) + multiset(FiredIds(s.past.fired)) + multiset(s.past.cancelled);
      assert all[id] == multiset(Issued(s.nextId))[id];
    } else {
      NextAccounts(s, run[0]);
      EventsAreConserved(Next(s, run[0]), run[1..], id);
    }
  }

  lemma {:induction false} IssuedOnce(n: nat, id: nat)
    ensures multiset(Issued(n))[id] == if id < n then 1 else 0
  {
    if n > 0 {
      IssuedOnce(n - 1, id);
      assert Issued(n) == Issued(n - 1) + [n - 1];
    }
  }

  lemma AtMostOnce<P>(q: seq<Entry<Event<P>>>, i: nat, j: nat)
    requires i < j < |q| && q[i].item.id == q[j].item.id
    ensures multiset(PendingIds(q))[q[i].item.id] >= 2
  {
    var ids := PendingIds(q);
    var id := ids[i];
    assert ids == ids[..i] + [id] + ids[i + 1..j] + [id] + ids[j + 1..];
  }

  /** No two pending events have the same identity, and none has the identity of a future event. */
  lemma PendingIdsAreUnique<P>(s: Evtd<P>)
    requires Accounted(s)
    ensures forall i, j :: 0 <= i < j < |s.pending| ==> s.pending[i].item.id != s.pending[j].item.id
    ensures forall x :: x in s.pending ==> x.item.id < s.nextId
  {
    forall id: nat
      ensures multiset(PendingIds(s.pending))[id] <= if id < s.nextId then 1 else 0
    {
      EventsAreConserved(s, [], id);
    }
    forall i, j | 0 <= i < j < |s.pending|
      ensures s.pending[i].item.id != s.pending[j].item.id
    {
      if s.pending[i].item.id == s.pending[j].item.id {
        AtMostOnce(s.pending, i, j);
      }
    }
    forall x | x in s.pending
      ensures x.item.id < s.nextId
    {
      var i :| 0 <= i < |s.pending| && s.pending[i] == x;
      assert PendingIds(s.pending)[i] == x.item.id;
      assert x.item.id in multiset(PendingIds(s.pending));
    }
  }

  /** An event that is taken out is gone. */
  lemma RemovedIsGone<P>(s: Evtd<P>, k: nat)
    requires Accounted(s) && k < |s.pending|
    ensures forall x :: x in RemoveAt(s.pending, k) ==> x in s.pending && x.item.id != s.pending[k].item.id
  {
    PendingIdsAreUnique(s);
    forall x | x in RemoveAt(s.pending, k)
      ensures x in s.pending && x.item.id != s.pending[k].item.id
    {
      var i :| 0 <= i < |s.pending| - 1 && RemoveAt(s.pending, k)[i] == x;
      assert x == s.pending[if i < k then i else i + 1];
    }
  }

  // ---------------------------------------------------------------------------------------------
  // Clients that share the dispatcher leave each other's events alone

  /** Both queues hold the same events of the handlers that `mine` picks. */
  ghost predicate SameFor<P(!new)>(mine: P -> bool, q: seq<Entry<Event<P>>>, q': seq<Entry<Event<P>>>)
  {
    forall x: Entry<Event<P>> :: mine(x.item.handler) ==> (x in q' <==> x in q)
  }

  /** Only events of others have that identity. */
  ghost predicate NotMine<P>(mine: P -> bool, q: seq<Entry<Event<P>>>, id: nat)
  {
    forall x :: x in q && x.item.id == id ==> !mine(x.item.handler)
  }

  lemma CancelSameFor<P(!new)>(mine: P -> bool, s: Evtd<P>, id: nat, q: seq<Entry<Event<P>>>)
    requires NotMine(mine, s.pending, id) && q == CancelPending(s, id).pending
    ensures SameFor(mine, s.pending, q) && |q| <= |s.pending|
  {
    var k := IndexOf(s.pending, id);
    if k >= 0 {
      assert s.pending[k] in s.pending;
      RemoveMembers(s.pending, k);
    }
  }

  lemma RestartSameFor<P(!new)>(mine: P -> bool, s: Evtd<P>, id: nat, delay: int, q: seq<Entry<Event<P>>>)
    requires NotMine(mine, s.pending, id) && q == RestartPending(s, id, delay).pending
    ensures SameFor(mine, s.pending, q) && |q| == |s.pending|
  {
    var k := IndexOf(s.pending, id);
    if k >= 0 {
      assert s.pending[k] in s.pending;
      RestartMembers(s.pending, k, s.now + delay);
    }
  }

  lemma ScheduleSameFor<P(!new)>(mine: P -> bool, s: Evtd<P>, h: P, delay: int, memory: bool, q: seq<Entry<Event<P>>>)
    requires !mine(h) && q == Schedule(s, h, delay, memory).pending
    ensures SameFor(mine, s.pending, q) && (|s.pending| <= MAX_PENDING ==> |q| <= MAX_PENDING)
  {
    AddMembers(s.pending, Entry(s.now + delay, Event(s.nextId, h)));
  }

  /** A client that schedules for itself and holds handles of its own events only. */
  ghost predicate Minds<P>(mine: P -> bool, s: Evtd<P>, a: Action<P>)
  {
    match a
    case ExecuteIn(h, _, _) => !mine(h)
    case Cancel(id) => NotMine(mine, s.pending, id)
    case Restart(id, _) => NotMine(mine, s.pending, id)
    case _ => true
  }

  lemma OthersKeepMine<P(!new)>(mine: P -> bool, s: Evtd<P>, a: Action<P>)
    requires Minds(mine, s, a)
    ensures SameFor(mine, s.pending, Do(s, a).pending)
    ensures |s.pending| <= MAX_PENDING ==> |Do(s, a).pending| <= MAX_PENDING
  {
    match a {
      case ExecuteIn(h, delay, memory) => ScheduleSameFor(mine, s, h, delay, memory, Do(s, a).pending);
      case Cancel(id) => CancelSameFor(mine, s, id, Do(s, a).pending);
      case Restart(id, delay) => RestartSameFor(mine, s, id, delay, Do(s, a).pending);
      case _ =>
    }
  }

  // ---------------------------------------------------------------------------------------------
  // The queue of handlers is first in, first out

  ghost predicate Queued<P>(s: Evtd<P>)
  {
    s.past.enqueued == s.past.executed + s.callQueue
  }

  /** In every run the executed handlers are a prefix of the enqueued ones; the queue holds the rest, in order. */
  lemma {:induction false} QueueIsFifo<P>(s: Evtd<P>, run: seq<Label<P>>)
    requires Queued(s) && Legal(s, run)
    ensures Queued(Run(s, run))
    decreases |run|
  {
    if run != [] {
      var s' := Next(s, run[0]);
      match run[0] {
        case Pop =>
          assert s.callQueue == [s.callQueue[0]] + s'.callQueue;
        case Call(Execute(h, memory)) =>
          assert s'.past.enqueued == s'.past.executed + s'.callQueue;
        case _ =>
      }
      QueueIsFifo(s', run[1..]);
    }
  }

  // ---------------------------------------------------------------------------------------------
  // Events fire in the order of their due times

  /** Time does not run backwards and nothing is scheduled for the past. */
  predicate OrderlyLabel<P>(s: Evtd<P>, l: Label<P>)
  {
    match l
    case Tick(t) => s.now <= t
    case Call(ExecuteIn(_, delay, _)) => 0 <= delay
    case Call(Restart(_, delay)) => 0 <= delay
    case _ => true
  }

  predicate Orderly<P>(s: Evtd<P>, run: seq<Label<P>>)
    requires Legal(s, run)
    decreases |run|
  {
    run != [] ==> OrderlyLabel(s, run[0]) && Orderly(Next(s, run[0]), run[1..])
  }

  ghost predicate PastInOrder(f: seq<Firing>, now: int)
  {
    && (forall i, j :: 0 <= i < j < |f| ==> f[i].due <= f[j].due && f[i].at <= f[j].at)
    && (forall i :: 0 <= i < |f| ==> f[i].due <= f[i].at <= now)
  }

  ghost predicate InOrder<P>(s: Evtd<P>)
  {
    var f := s.past.fired;
    && Sorted(s.pending)
    && PastInOrder(f, s.now)
    && (f != [] ==> forall x :: x in s.pending ==> f[|f| - 1].due <= x.due)
  }

  lemma ScheduleKeepsOrder<P>(s: Evtd<P>, h: P, delay: int, memory: bool)
    requires InOrder(s) && 0 <= delay
    ensures InOrder(Schedule(s, h, delay, memory))
  {
    AddKeepsSorted(s.pending, Entry(s.now + delay, Event(s.nextId, h)));
    AddMembers(s.pending, Entry(s.now + delay, Event(s.nextId, h)));
  }

  lemma CancelKeepsOrder<P>(s: Evtd<P>, id: nat)
    requires InOrder(s)
    ensures InOrder(CancelPending(s, id))
  {
    var k := IndexOf(s.pending, id);
    if k >= 0 {
      RemoveKeepsSorted(s.pending, k);
      RemoveMembers(s.pending, k);
    }
  }

  /** The order only depends on the clock, the past, and the set of pending events being sorted. */
  lemma QueueChangeKeepsOrder<P>(s: Evtd<P>, q: seq<Entry<Event<P>>>)
    requires InOrder(s) && Sorted(q)
    requires forall x :: x in q ==> s.now <= x.due || x in s.pending
    ensures InOrder(s.(pending := q))
  {
  }

  lemma RestartQueue<P>(q: seq<Entry<Event<P>>>, k: nat, t: int) returns (q': seq<Entry<Event<P>>>)
    requires k < |q| && Sorted(q)
    ensures q' == TimeEvents.Restart(q, k, t) && Sorted(q')
    ensures forall x :: x in q' ==> x.due == t || x in q
  {
    q' := TimeEvents.Restart(q, k, t);
    RestartKeepsSorted(q, k, t);
    RestartMembers(q, k, t);
  }

  lemma RestartKeepsOrder<P>(s: Evtd<P>, id: nat, delay: int)
    requires InOrder(s) && 0 <= delay
    ensures InOrder(RestartPending(s, id, delay))
  {
    var k := IndexOf(s.pending, id);
    if k >= 0 {
      var q := RestartQueue(s.pending, k, s.now + delay);
      QueueChangeKeepsOrder(s, q);
    }
  }

  lemma FireKeepsOrder<P>(s: Evtd<P>)
    requires InOrder(s) && Due(s)
    ensures InOrder(FireTop(s))
  {
    assert s.pending[0] in s.pending;
  }

  lemma NextKeepsOrder<P>(s: Evtd<P>, l: Label<P>)
    requires InOrder(s) && Enabled(s, l) && OrderlyLabel(s, l)
    ensures InOrder(Next(s, l))
  {
    match l {
      case Call(ExecuteIn(h, delay, memory)) => ScheduleKeepsOrder(s, h, delay, memory);
      case Call(Cancel(id)) => CancelKeepsOrder(s, id);
      case Call(Restart(id, delay)) => RestartKeepsOrder(s, id, delay);
      case Fire => FireKeepsOrder(s);
      case _ =>
    }
  }

  lemma {:induction false} RunKeepsOrder<P>(s: Evtd<P>, run: seq<Label<P>>)
    requires InOrder(s) && Legal(s, run) && Orderly(s, run)
    ensures InOrder(Run(s, run))
    decreases |run|
  {
    if run != [] {
      NextKeepsOrder(s, run[0]);
      RunKeepsOrder(Next(s, run[0]), run[1..]);
    }
  }

  /** Across all steps of a run, due times of fired events never decrease, and no event fires before it is due. */
  lemma FiredInDueOrder<P>(run: seq<Label<P>>, i: nat, j: nat)
    requires Legal(Init<P>(), run) && Orderly(Init<P>(), run)
    requires i <= j < |Run(Init<P>(), run).past.fired|
    ensures var f := Run(Init<P>(), run).past.fired;
            f[i].due <= f[j].due && f[i].at <= f[j].at && f[i].due <= f[i].at
  {
    RunKeepsOrder(Init<P>(), run);
  }

  lemma ScheduleKeepsSorted<P>(s: Evtd<P>, h: P, delay: int, memory: bool, q: seq<Entry<Event<P>>>)
    requires Sorted(s.pending) && q == Schedule(s, h, delay, memory).pending
    ensures Sorted(q)
  {
    AddKeepsSorted(s.pending, Entry(s.now + delay, Event(s.nextId, h)));
  }

  lemma CancelKeepsSorted<P>(s: Evtd<P>, id: nat, q: seq<Entry<Event<P>>>)
    requires Sorted(s.pending) && q == CancelPending(s, id).pending
    ensures Sorted(q)
  {
    var k := IndexOf(s.pending, id);
    if k >= 0 {
      RemoveKeepsSorted(s.pending, k);
    }
  }

  lemma RestartStaysSorted<P>(s: Evtd<P>, id: nat, delay: int) returns (q: seq<Entry<Event<P>>>)
    requires Sorted(s.pending)
    ensures RestartPending(s, id, delay) == s.(pending := q) && Sorted(q)
  {
    q := s.pending;
    var k := IndexOf(s.pending, id);
    if k >= 0 {
      q := RestartQueue(s.pending, k, s.now + delay);
    }
  }

  lemma NextKeepsSorted<P>(s: Evtd<P>, l: Label<P>, s': Evtd<P>)
    requires Sorted(s.pending) && Enabled(s, l) && s' == Next(s, l)
    ensures Sorted(s'.pending)
  {
    match l {
      case Call(ExecuteIn(h, delay, memory)) => ScheduleKeepsSorted(s, h, delay, memory, s'.pending);
      case Call(Cancel(id)) => CancelKeepsSorted(s, id, s'.pending);
      case Call(Restart(id, delay)) => var q := RestartStaysSorted(s, id, delay);
      case _ =>
    }
  }

  /** The container is sorted in every run, whatever the delays and however the clock is set. */
  lemma {:induction false} PendingIsSorted<P>(s: Evtd<P>, run: seq<Label<P>>)
    requires Sorted(s.pending) && Legal(s, run)
    ensures Sorted(Run(s, run).pending)
    decreases |run|
  {
    if run != [] {
      NextKeepsSorted(s, run[0], Next(s, run[0]));
      PendingIsSorted(Next(s, run[0]), run[1..]);
    }
  }

  /** So when the timed loop ends, not only the first event but none at all is due. */
  lemma NothingDueIsLeft<P>(run: seq<Label<P>>)
    requires Legal(Init<P>(), run) && !Due(Run(Init<P>(), run))
    ensures var s := Run(Init<P>(), run);
            forall i :: 0 <= i < |s.pending| ==> s.now < s.pending[i].due
  {
    PendingIsSorted(Init<P>(), run);
  }

  // ---------------------------------------------------------------------------------------------
  // Whether events due at the same time fire in the order they were scheduled

  predicate Before(due: int, id: nat, due': int, id': nat)
  {
    due < due' || (due == due' && id < id')
  }

  ghost predicate StableQueue<P>(q: seq<Entry<Event<P>>>, n: nat)
  {
    && (forall i :: 0 <= i < |q| ==> q[i].item.id < n)
    && (forall i, j :: 0 <= i < j < |q| ==> Before(q[i].due, q[i].item.id, q[j].due, q[j].item.id))
  }

  ghost predicate StablePast(f: seq<Firing>, n: nat)
  {
    && (forall i :: 0 <= i < |f| ==> f[i].id < n)
    && (forall i, j :: 0 <= i < j < |f| ==> Before(f[i].due, f[i].id, f[j].due, f[j].id))
  }

  ghost predicate Stable<P>(s: Evtd<P>)
  {
    var f, q := s.past.fired, s.pending;
    && InOrder(s)
    && StableQueue(q, s.nextId)
    && StablePast(f, s.nextId)
    && (f != [] ==> forall x :: x in q ==> Before(f[|f| - 1].due, f[|f| - 1].id, x.due, x.item.id))
  }

  lemma InsertStable<P>(q: seq<Entry<Event<P>>>, r: seq<Entry<Event<P>>>, p: nat, n: nat, e: Entry<Event<P>>)
    requires StableQueue(q, n) && e.item.id == n && p <= |q| && |r| == |q| + 1
    requires forall i :: 0 <= i < p ==> r[i] == q[i] && q[i].due <= e.due
    requires r[p] == e && forall i :: p < i < |r| ==> r[i] == q[i - 1] && e.due < r[i].due
    ensures StableQueue(r, n + 1)
  {
  }

  lemma AddStable<P>(q: seq<Entry<Event<P>>>, n: nat, e: Entry<Event<P>>)
    requires Sorted(q) && StableQueue(q, n) && e.item.id == n
    ensures StableQueue(Add(q, e), n + 1)
  {
    DownToPlaces(q, |q|, e.due);
    InsertStable(q, Add(q, e), DownTo(q, |q|, e.due), n, e);
  }

  lemma RemoveStable<P>(q: seq<Entry<Event<P>>>, k: nat, n: nat)
    requires k < |q| && StableQueue(q, n)
    ensures StableQueue(RemoveAt(q, k), n)
  {
  }

  lemma PendingChangeKeepsStable<P>(s: Evtd<P>, s': Evtd<P>)
    requires Stable(s) && InOrder(s') && s.nextId <= s'.nextId && s'.past.fired == s.past.fired
    requires StableQueue(s'.pending, s'.nextId)
    requires forall x :: x in s'.pending ==> x in s.pending || (s.now <= x.due && x.item.id == s.nextId)
    ensures Stable(s')
  {
  }

  lemma ScheduleKeepsStable<P>(s: Evtd<P>, h: P, delay: int, memory: bool)
    requires Stable(s) && 0 <= delay
    ensures Stable(Schedule(s, h, delay, memory))
  {
    ScheduleKeepsOrder(s, h, delay, memory);
    if CanSchedule(s, memory) {
      var s' := Schedule(s, h, delay, memory);
      ScheduledQueue(s.pending, s.now + delay, Event(s.nextId, h), s'.pending);
      PendingChangeKeepsStable(s, s');
    }
  }

  lemma ScheduledQueue<P>(q: seq<Entry<Event<P>>>, due: int, item: Event<P>, r: seq<Entry<Event<P>>>)
    requires Sorted(q) && StableQueue(q, item.id) && r == Add(q, Entry(due, item))
    ensures StableQueue(r, item.id + 1) && forall x :: x in r ==> x in q || (x.due == due && x.item.id == item.id)
  {
    AddStable(q, item.id, Entry(due, item));
    AddMembers(q, Entry(due, item));
  }

  lemma CancelKeepsStable<P>(s: Evtd<P>, id: nat)
    requires Stable(s)
    ensures Stable(CancelPending(s, id))
  {
    var k := IndexOf(s.pending, id);
    if k >= 0 {
      CancelKeepsOrder(s, id);
      RemoveStable(s.pending, k, s.nextId);
      RemoveMembers(s.pending, k);
      PendingChangeKeepsStable(s, CancelPending(s, id));
    }
  }

  lemma FireKeepsStable<P>(s: Evtd<P>)
    requires Stable(s) && Due(s)
    ensures Stable(FireTop(s))
  {
    FireKeepsOrder(s);
    assert s.pending[0] in s.pending;
  }

  /** Among other events due at the same time, an event from earlier on belongs to the front, a later one to the end. */
  ghost predicate FitsByAge<P>(others: seq<Entry<Event<P>>>, e: Entry<Event<P>>, fromEarlier: bool)
  {
    forall i :: 0 <= i < |others| && others[i].due == e.due ==>
      if fromEarlier then e.item.id < others[i].item.id else others[i].item.id < e.item.id
  }

  lemma InsertStableIff<P>(q: seq<Entry<Event<P>>>, p: nat, e: Entry<Event<P>>, n: nat, r: seq<Entry<Event<P>>>)
    requires StableQueue(q, n) && e.item.id < n && p <= |q| && r == InsertAt(q, p, e)
    ensures StableQueue(r, n) <==>
              && (forall i :: 0 <= i < p ==> Before(q[i].due, q[i].item.id, e.due, e.item.id))
              && (forall i :: p <= i < |q| ==> Before(e.due, e.item.id, q[i].due, q[i].item.id))
  {
    assert forall i :: 0 <= i < p ==> r[i] == q[i];
    assert r[p] == e;
    assert forall i :: p <= i < |q| ==> r[i + 1] == q[i];
    assert forall i :: p < i < |r| ==> r[i] == q[i - 1];
  }

  /** A restart for another time keeps the queue in order of due times and ages iff the event's age fits its new place. */
  lemma RestartKeepsAgesIff<P>(q: seq<Entry<Event<P>>>, k: nat, t: int, n: nat, r: seq<Entry<Event<P>>>)
    requires StableQueue(q, n) && k < |q| && t != q[k].due && r == TimeEvents.Restart(q, k, t)
    ensures StableQueue(r, n) <==> FitsByAge(RemoveAt(q, k), Entry(t, q[k].item), q[k].due < t)
  {
    var rest, p, e := RemoveAt(q, k), RestartPosition(q, k, t), Entry(t, q[k].item);
    assert Sorted(q);
    RestartPlaces(q, k, t);
    RemoveStable(q, k, n);
    InsertStableIff(rest, p, e, n, r);
    FitsIff(rest, p, e, q[k].due < t);
  }

  lemma FitsIff<P>(q: seq<Entry<Event<P>>>, p: nat, e: Entry<Event<P>>, fromEarlier: bool)
    requires p <= |q|
    requires forall i :: 0 <= i < p ==> q[i].due < e.due || (q[i].due == e.due && !fromEarlier)
    requires forall i :: p <= i < |q| ==> e.due < q[i].due || (q[i].due == e.due && fromEarlier)
    ensures FitsByAge(q, e, fromEarlier) <==>
              && (forall i :: 0 <= i < p ==> Before(q[i].due, q[i].item.id, e.due, e.item.id))
              && (forall i :: p <= i < |q| ==> Before(e.due, e.item.id, q[i].due, q[i].item.id))
  {
  }

  /** What restarting the k-th event for t must respect: the ages of the events due then, and of the last one fired. */
  ghost predicate FitsAt<P>(q: seq<Entry<Event<P>>>, f: seq<Firing>, k: nat, t: int)
    requires k < |q|
  {
    t == q[k].due ||
    (&& FitsByAge(RemoveAt(q, k), Entry(t, q[k].item), q[k].due < t)
     && (f != [] && f[|f| - 1].due == t ==> f[|f| - 1].id < q[k].item.id))
  }

  ghost predicate KeepsTies<P>(s: Evtd<P>, id: nat, delay: int)
  {
    var k := IndexOf(s.pending, id);
    k < 0 || FitsAt(s.pending, s.past.fired, k, s.now + delay)
  }

  lemma RestartKeepsTiesIff<P>(s: Evtd<P>, id: nat, delay: int, s': Evtd<P>)
    requires Stable(s) && 0 <= delay && s' == RestartPending(s, id, delay)
    ensures Stable(s') <==> KeepsTies(s, id, delay)
  {
    var k := IndexOf(s.pending, id);
    if k >= 0 {
      RestartKeepsOrder(s, id, delay);
      RestartFitsIff(s, k, s.now + delay, s'.pending, s');
    }
  }

  lemma RestartFitsIff<P>(s: Evtd<P>, k: nat, t: int, r: seq<Entry<Event<P>>>, s': Evtd<P>)
    requires Stable(s) && k < |s.pending| && InOrder(s') && s' == s.(pending := r)
    requires r == TimeEvents.Restart(s.pending, k, t)
    ensures Stable(s') <==> FitsAt(s.pending, s.past.fired, k, t)
  {
    if t == s.pending[k].due {
      SameTimeStays(s.pending, k);
    } else {
      RestartKeepsAgesIff(s.pending, k, t, s.nextId, r);
      RestartMembers(s.pending, k, t);
      LastBeforeIff(s, s', Entry(t, s.pending[k].item));
    }
  }

  lemma LastBeforeIff<P>(s: Evtd<P>, s': Evtd<P>, e: Entry<Event<P>>)
    requires Stable(s) && InOrder(s') && s'.past == s.past && s'.nextId == s.nextId && e in s'.pending
    requires forall x :: x in s'.pending ==> x == e || x in s.pending
    ensures var f := s.past.fired;
            Stable(s') <==> StableQueue(s'.pending, s.nextId)
                            && (f != [] && f[|f| - 1].due == e.due ==> f[|f| - 1].id < e.item.id)
  {
  }

  lemma SameTimeStays<P>(q: seq<Entry<Event<P>>>, k: nat)
    requires k < |q| && Sorted(q)
    ensures TimeEvents.Restart(q, k, q[k].due) == q
  {
    var rest := RemoveAt(q, k);
    assert k < |rest| ==> rest[k] == q[k + 1];
    assert RestartPosition(q, k, q[k].due) == k;
  }

  ghost predicate LabelKeepsTies<P>(s: Evtd<P>, l: Label<P>)
  {
    l.Call? && l.a.Restart? ==> KeepsTies(s, l.a.id, l.a.delay)
  }

  lemma NextKeepsStableIff<P>(s: Evtd<P>, l: Label<P>)
    requires Stable(s) && Enabled(s, l) && OrderlyLabel(s, l)
    ensures Stable(Next(s, l)) <==> LabelKeepsTies(s, l)
  {
    match l {
      case Call(ExecuteIn(h, delay, memory)) => ScheduleKeepsStable(s, h, delay, memory);
      case Call(Cancel(id)) => CancelKeepsStable(s, id);
      case Call(Restart(id, delay)) => RestartKeepsTiesIff(s, id, delay, Next(s, l));
      case Fire => FireKeepsStable(s);
      case _ =>
    }
  }

  /** At every moment of the run, pending and fired events are in order of due times and, among equals, of age. */
  ghost predicate StableThroughout<P>(s: Evtd<P>, run: seq<Label<P>>)
    requires Legal(s, run)
    decreases |run|
  {
    Stable(s) && (run != [] ==> StableThroughout(Next(s, run[0]), run[1..]))
  }

  ghost predicate TiesKept<P>(s: Evtd<P>, run: seq<Label<P>>)
    requires Legal(s, run)
    decreases |run|
  {
    run != [] ==> LabelKeepsTies(s, run[0]) && TiesKept(Next(s, run[0]), run[1..])
  }

  /** That is so iff every restart in the run respects ages. */
  lemma {:induction false} StableIffTiesKept<P>(s: Evtd<P>, run: seq<Label<P>>)
    requires Stable(s) && Legal(s, run) && Orderly(s, run)
    ensures StableThroughout(s, run) <==> TiesKept(s, run)
    ensures TiesKept(s, run) ==> Stable(Run(s, run))
    decreases |run|
  {
    if run != [] {
      NextKeepsStableIff(s, run[0]);
      if LabelKeepsTies(s, run[0]) {
        StableIffTiesKept(Next(s, run[0]), run[1..]);
      }
    }
  }

  /** Events due at the same time then fire in the order they were scheduled; without restarts this is always so. */
  lemma TiesFireInScheduleOrder<P>(run: seq<Label<P>>, i: nat, j: nat)
    requires Legal(Init<P>(), run) && Orderly(Init<P>(), run) && TiesKept(Init<P>(), run)
    requires i < j < |Run(Init<P>(), run).past.fired|
    ensures var f := Run(Init<P>(), run).past.fired;
            f[i].due < f[j].due || (f[i].due == f[j].due && f[i].id < f[j].id)
  {
    StableIffTiesKept(Init<P>(), run);
  }

  lemma {:induction false} WithoutRestartsTiesAreKept<P>(s: Evtd<P>, run: seq<Label<P>>)
    requires Legal(s, run) && forall l :: l in run ==> !(l.Call? && l.a.Restart?)
    ensures TiesKept(s, run)
    decreases |run|
  {
    if run != [] {
      WithoutRestartsTiesAreKept(Next(s, run[0]), run[1..]);
    }
  }

  /** A restart that does not respect ages: the event restarted for time 10 overtakes the older one. */
  lemma RestartOvertakes()
    ensures var run: seq<Label<int>> := [Call(ExecuteIn(0, 10, true)), Call(ExecuteIn(0, 5, true)),
                                         Call(Action.Restart(1, 10)), Tick(10), Fire, Fire];
            && Legal(Init<int>(), run)
            && Run(Init<int>(), run).past.fired == [Firing(1, 10, 10), Firing(0, 10, 10)]
  {
    var s1 := Next(Init<int>(), Call(ExecuteIn(0, 10, true)));
    assert s1.pending == [Entry(10, Event(0, 0))];
    var s2 := Next(s1, Call(ExecuteIn(0, 5, true)));
    assert s2.pending == [Entry(5, Event(1, 0)), Entry(10, Event(0, 0))];
    var s3 := Next(s2, Call(Action.Restart(1, 10)));
    assert IndexOf(s2.pending, 1) == 0;
    assert RemoveAt(s2.pending, 0) == [Entry(10, Event(0, 0))];
    assert s3.pending == [Entry(10, Event(1, 0)), Entry(10, Event(0, 0))];
    FireBoth(s3, 1, 0);
  }

  lemma FireBoth(s: Evtd<int>, first: nat, second: nat)
    requires s.pending == [Entry(10, Event(first, 0)), Entry(10, Event(second, 0))] && s.past.fired == []
    ensures Legal(s, [Tick(10), Fire, Fire])
    ensures Run(s, [Tick(10), Fire, Fire]).past.fired == [Firing(first, 10, 10), Firing(second, 10, 10)]
  {
    var s1 := Next(s, Tick(10));
    var s2 := Next(s1, Fire);
    var s3 := Next(s2, Fire);
    assert Run(s3, []) == s3;
    assert Run(s2, [Fire]) == s3;
    assert Run(s1, [Fire, Fire]) == s3;
  }

  // ---------------------------------------------------------------------------------------------
  // The timed loop makes progress when handlers schedule for the future

  ghost function DueCount<P>(q: seq<Entry<Event<P>>>, t: int): (n: nat)
  {
    if q == [] then 0 else (if q[0].due <= t then 1 else 0) + DueCount(q[1..], t)
  }

  lemma {:induction false} DueCountConcat<P>(a: seq<Entry<Event<P>>>, b: seq<Entry<Event<P>>>, t: int)
    ensures DueCount(a + b, t) == DueCount(a, t) + DueCount(b, t)
  {
    if a == [] {
      assert a + b == b;
    } else {
      assert (a + b)[1..] == a[1..] + b;
      DueCountConcat(a[1..], b, t);
    }
  }

  lemma DueCountInsert<P>(q: seq<Entry<Event<P>>>, p: nat, e: Entry<Event<P>>, t: int)
    requires p <= |q|
    ensures DueCount(InsertAt(q, p, e), t) == DueCount(q, t) + if e.due <= t then 1 else 0
  {
    DueCountConcat(q[..p] + [e], q[p..], t);
    DueCountConcat(q[..p], [e], t);
    DueCountConcat(q[..p], q[p..], t);
    assert q[..p] + q[p..] == q;
    assert DueCount([e], t) == if e.due <= t then 1 else 0;
  }

  lemma DueCountRemove<P>(q: seq<Entry<Event<P>>>, k: nat, t: int)
    requires k < |q|
    ensures DueCount(q, t) == DueCount(RemoveAt(q, k), t) + if q[k].due <= t then 1 else 0
  {
    DueCountInsert(RemoveAt(q, k), k, q[k], t);
    assert InsertAt(RemoveAt(q, k), k, q[k]) == q;
  }

  /** Inside the timed loop, with handlers that schedule and restart with positive delays only. */
  predicate Future<P>(l: Label<P>)
  {
    match l
    case Fire => true
    case Call(ExecuteIn(_, delay, _)) => 0 < delay
    case Call(Restart(_, delay)) => 0 < delay
    case Call(_) => true
    case _ => false
  }

  lemma DueCountRestart<P>(q: seq<Entry<Event<P>>>, k: nat, t': int, t: int)
    requires k < |q| && t < t'
    ensures DueCount(TimeEvents.Restart(q, k, t'), t) <= DueCount(q, t)
  {
    DueCountRemove(q, k, t);
    DueCountInsert(RemoveAt(q, k), RestartPosition(q, k, t'), Entry(t', q[k].item), t);
  }

  lemma DueCountAdd<P>(q: seq<Entry<Event<P>>>, e: Entry<Event<P>>, t: int)
    requires t < e.due
    ensures DueCount(Add(q, e), t) == DueCount(q, t)
  {
    DueCountInsert(q, DownTo(q, |q|, e.due), e, t);
  }

  lemma CallMakesNothingDue<P>(s: Evtd<P>, a: Action<P>)
    requires Future(Call(a))
    ensures Do(s, a).now == s.now && Do(s, a).past.fired == s.past.fired
    ensures DueCount(Do(s, a).pending, s.now) <= DueCount(s.pending, s.now)
  {
    match a {
      case ExecuteIn(h, delay, memory) =>
        DueCountAdd(s.pending, Entry(s.now + delay, Event(s.nextId, h)), s.now);
      case Cancel(id) =>
        CancelMakesNothingDue(s, id);
      case Restart(id, delay) =>
        RestartMakesNothingDue(s, id, delay);
      case _ =>
    }
  }

  lemma CancelMakesNothingDue<P>(s: Evtd<P>, id: nat)
    ensures DueCount(CancelPending(s, id).pending, s.now) <= DueCount(s.pending, s.now)
  {
    if IndexOf(s.pending, id) >= 0 {
      DueCountRemove(s.pending, IndexOf(s.pending, id), s.now);
    }
  }

  lemma RestartMakesNothingDue<P>(s: Evtd<P>, id: nat, delay: int)
    requires 0 < delay
    ensures DueCount(RestartPending(s, id, delay).pending, s.now) <= DueCount(s.pending, s.now)
  {
    if IndexOf(s.pending, id) >= 0 {
      DueCountRestart(s.pending, IndexOf(s.pending, id), s.now + delay, s.now);
    }
  }

  /** Each iteration of such a loop leaves strictly fewer due events. */
  lemma NextMakesProgress<P>(s: Evtd<P>, l: Label<P>)
    requires Enabled(s, l) && Future(l)
    ensures var s' := Next(s, l);
            && s'.now == s.now
            && |s'.past.fired| == |s.past.fired| + (if l == Fire then 1 else 0)
            && DueCount(s'.pending, s.now) + (if l == Fire then 1 else 0) <= DueCount(s.pending, s.now)
  {
    if l.Call? {
      CallMakesNothingDue(s, l.a);
    }
  }

  /** Such a loop fires at most as many events as were due when it began. */
  lemma {:induction false} TimedLoopIsBounded<P>(s: Evtd<P>, run: seq<Label<P>>)
    requires Legal(s, run) && forall i :: 0 <= i < |run| ==> Future(run[i])
    ensures var s' := Run(s, run);
            |s'.past.fired| - |s.past.fired| + DueCount(s'.pending, s.now) <= DueCount(s.pending, s.now)
    decreases |run|
  {
    if run != [] {
      NextMakesProgress(s, run[0]);
      TimedLoopIsBounded(Next(s, run[0]), run[1..]);
    }
  }
}
