/**
 * The dispatcher as an object (src/libxively/event_dispatcher/xi_event_dispatcher.c): its time events are
 * the event objects of the sorted vector, its queue is a linked list of nodes, and its callers hold
 * handles that point to their pending events.
 */
module DispatcherObject {
  import opened Common
  import opened Vectors
  import opened TimeEvents
  import opened Dispatcher
  import LinkedList

  // ---------------------------------------------------------------------------------------------
  // The state that the objects stand for

  ghost function EventOf<P>(x: Entry<TimeEvent<P>>): (e: Entry<Event<P>>)
  {
    Entry(x.due, Event(x.item.id, x.item.handler))
  }

  ghost function Events<P>(q: seq<Entry<TimeEvent<P>>>): (events: seq<Entry<Event<P>>>)
  {
    seq(|q|, i requires 0 <= i < |q| => EventOf(q[i]))
  }

  ghost function Values<P>(nodes: seq<LinkedList.Node<P>>): (values: seq<P>)
  {
    seq(|nodes|, i requires 0 <= i < |nodes| => nodes[i].value)
  }

  lemma {:induction false} EventsDownTo<P>(q: seq<Entry<TimeEvent<P>>>, k: nat, t: int)
    requires k <= |q|
    ensures DownTo(Events(q), k, t) == DownTo(q, k, t)
  {
    if k != 0 && t < q[k - 1].due {
      EventsDownTo(q, k - 1, t);
    }
  }

  lemma {:induction false} EventsUpTo<P>(q: seq<Entry<TimeEvent<P>>>, k: nat, t: int)
    requires k <= |q|
    ensures UpTo(Events(q), k, t) == UpTo(q, k, t)
    decreases |q| - k
  {
    if k != |q| && q[k].due < t {
      EventsUpTo(q, k + 1, t);
    }
  }

  lemma EventsInsert<P>(q: seq<Entry<TimeEvent<P>>>, p: nat, x: Entry<TimeEvent<P>>)
    requires p <= |q|
    ensures Events(InsertAt(q, p, x)) == InsertAt(Events(q), p, EventOf(x))
  {
  }

  lemma EventsRemove<P>(q: seq<Entry<TimeEvent<P>>>, k: nat)
    requires k < |q|
    ensures Events(RemoveAt(q, k)) == RemoveAt(Events(q), k)
  {
  }

  lemma EventsAdd<P>(q: seq<Entry<TimeEvent<P>>>, x: Entry<TimeEvent<P>>)
    ensures Events(Add(q, x)) == Add(Events(q), EventOf(x))
  {
    EventsDownTo(q, |q|, x.due);
    EventsInsert(q, DownTo(q, |q|, x.due), x);
  }

  lemma EventsRestart<P>(q: seq<Entry<TimeEvent<P>>>, k: nat, t: int)
    requires k < |q|
    ensures Events(TimeEvents.Restart(q, k, t)) == TimeEvents.Restart(Events(q), k, t)
  {
    var rest := RemoveAt(q, k);
    EventsRemove(q, k);
    EventsDownTo(rest, k, t);
    EventsUpTo(rest, k, t);
    EventsInsert(rest, RestartPosition(q, k, t), Entry(t, q[k].item));
  }

  // ---------------------------------------------------------------------------------------------
  // Handles

  /**
   * handles[id] is what the caller of the id-th successful request holds. It points to that event exactly
   * as long as the event is pending.
   */
  ghost predicate Linking<P>(handles: seq<EventHandle<P>>, q: seq<Entry<TimeEvent<P>>>)
    reads handles, set x | x in q :: x.item
  {
    && (forall i, j :: 0 <= i < j < |handles| ==> handles[i] != handles[j])
    && (forall x :: x in q ==> x.item.id < |handles| && x.item.handle == handles[x.item.id])
    && (forall id :: 0 <= id < |handles| && handles[id].event != null ==> PointsInto(handles[id], id, q))
  }

  ghost predicate PointsInto<P>(h: EventHandle<P>, id: nat, q: seq<Entry<TimeEvent<P>>>)
    reads h
  {
    exists i :: 0 <= i < |q| && q[i].item == h.event && q[i].item.id == id
  }

  /** A handle is null iff its event is not pending any more; otherwise it leads to the event's position. */
  lemma HandleTells<P>(v: Vector<TimeEvent?<P>>, handles: seq<EventHandle<P>>, q: seq<Entry<TimeEvent<P>>>, id: nat)
    requires Holds(v, q) && Linking(handles, q) && id < |handles|
    ensures handles[id].event != null <==> IndexOf(Events(q), id) >= 0
    ensures handles[id].event != null ==>
              && handles[id].event.handle == handles[id]
              && IndexOf(Events(q), id) == handles[id].event.position
              && q[IndexOf(Events(q), id)].item == handles[id].event
  {
    var k := IndexOf(Events(q), id);
    if k >= 0 {
      assert At(v, k, q[k]) && q[k] in q;
    }
    if handles[id].event != null {
      assert PointsInto(handles[id], id, q);
      var i :| 0 <= i < |q| && q[i].item == handles[id].event && q[i].item.id == id;
      assert Events(q)[i].item.id == id && At(v, i, q[i]) && q[i] in q;
    }
  }

  lemma LinkingAdded<P>(handles: seq<EventHandle<P>>, q: seq<Entry<TimeEvent<P>>>, h: EventHandle<P>,
                        x: Entry<TimeEvent<P>>)
    requires Linking(handles, q) && h !in handles
    requires x.item.id == |handles| && x.item.handle == h && h.event == x.item
    ensures Linking(handles + [h], Add(q, x))
  {
    var all, r := handles + [h], Add(q, x);
    AddMembers(q, x);
    forall id | 0 <= id < |all| && all[id].event != null
      ensures PointsInto(all[id], id, r)
    {
      assert x in r;
      if id < |handles| {
        assert PointsInto(handles[id], id, q);
        var i :| 0 <= i < |q| && q[i].item == handles[id].event && q[i].item.id == id;
        assert q[i] in r;
      }
    }
  }

  /** The sizes a vector goes through while it doubles within the range of its index type. */
  predicate DoublingSize(n: nat)
  {
    n == 2 || n == 4 || n == 8 || n == 16 || n == 32 || n == 64
  }

  /** The vector holds these events in order of due times, and the handles are right. */
  ghost predicate Tied<P>(v: Vector<TimeEvent?<P>>, handles: seq<EventHandle<P>>, q: seq<Entry<TimeEvent<P>>>)
    reads v, v.data, handles, set x | x in q :: x.item, set x | x in q :: x.item.handle
  {
    Linking(handles, q) && Holds(v, q) && Sorted(q)
  }

  lemma {:induction false} NeighboursSorted<E>(q: seq<Entry<E>>)
    requires forall i :: 0 < i < |q| ==> q[i - 1].due <= q[i].due
    ensures Sorted(q)
  {
    if q != [] {
      var n := |q| - 1;
      NeighboursSorted(q[..n]);
      forall i, j | 0 <= i < j < |q|
        ensures q[i].due <= q[j].due
      {
        if j == n {
          assert q[..n][i].due <= q[..n][n - 1].due;
        } else {
          assert q[..n][i].due <= q[..n][j].due;
        }
      }
    }
  }

  method AddLinked<P>(v: Vector<TimeEvent?<P>>, e: TimeEvent<P>, h: EventHandle<P>,
                      ghost handles: seq<EventHandle<P>>, ghost q: seq<Entry<TimeEvent<P>>>)
    returns (ok: bool, ghost r: seq<Entry<TimeEvent<P>>>)
    requires Tied(v, handles, q) && v.managed && DoublingSize(v.data.Length)
    requires e.handle == null && h.event == null && e.id == |handles| && h !in handles
    requires forall x :: x in q ==> x.item != e
    modifies v`data, v`elemNo, v.data, (set x | x in q :: x.item)`position, e`position, e`handle, h
    ensures ok == (|q| < MAX_PENDING) && DoublingSize(v.data.Length)
    ensures v.data == old(v.data) || fresh(v.data)
    ensures Tied(v, if ok then handles + [h] else handles, r) && forall x :: x in r ==> x.item == e || x in q
    ensures Events(r) == if ok then Add(Events(q), Entry(e.due, Event(e.id, e.handler))) else Events(q)
  {
    ok := AddEvent(v, e, h, true, q);
    assert forall x :: x in q ==> x.item.handle == old(x.item.handle);
    assert forall id {:trigger handles[id]} :: 0 <= id < |handles| && handles[id].event != null ==> old(PointsInto(handles[id], id, q));
    assert Linking(handles, q);
    r := q;
    if ok {
      r := AddedQueue(handles, q, h, Entry(e.due, e));
    }
  }

  lemma AddedQueue<P>(handles: seq<EventHandle<P>>, q: seq<Entry<TimeEvent<P>>>, h: EventHandle<P>, x: Entry<TimeEvent<P>>)
    returns (r: seq<Entry<TimeEvent<P>>>)
    requires Linking(handles, q) && Sorted(q) && h !in handles
    requires x.item.id == |handles| && x.item.handle == h && h.event == x.item
    ensures r == Add(q, x) && Linking(handles + [h], r) && Sorted(r) && forall y :: y in r ==> y == x || y in q
    ensures Events(r) == Add(Events(q), EventOf(x))
  {
    r := Add(q, x);
    LinkingAdded(handles, q, h, x);
    AddMembers(q, x);
    AddKeepsSorted(q, x);
    EventsAdd(q, x);
  }

  lemma IdsAreIssued<P>(handles: seq<EventHandle<P>>, q: seq<Entry<TimeEvent<P>>>)
    requires Linking(handles, q)
    ensures forall i :: 0 <= i < |q| ==> Events(q)[i].item.id < |handles|
  {
    forall i | 0 <= i < |q|
      ensures Events(q)[i].item.id < |handles|
    {
      assert q[i] in q;
    }
  }

  /** Once the handle of the k-th event is cleared, that event may go. */
  lemma LinkingRemoved<P>(handles: seq<EventHandle<P>>, q: seq<Entry<TimeEvent<P>>>, k: nat, r: seq<Entry<TimeEvent<P>>>)
    requires k < |q| && r == RemoveAt(q, k)
    requires forall i, j :: 0 <= i < j < |handles| ==> handles[i] != handles[j]
    requires forall x :: x in q ==> x.item.id < |handles| && x.item.handle == handles[x.item.id]
    requires handles[q[k].item.id].event == null
    requires forall id :: 0 <= id < |handles| && handles[id].event != null ==> PointsInto(handles[id], id, q)
    ensures Linking(handles, r)
  {
    RemoveMembers(q, k);
    forall id | 0 <= id < |handles| && handles[id].event != null
      ensures PointsInto(handles[id], id, r)
    {
      var i :| 0 <= i < |q| && q[i].item == handles[id].event && q[i].item.id == id;
      assert q[i] == r[if i < k then i else i - 1];
    }
  }

  /** The same events, but for the k-th one, which is now due at t. */
  ghost predicate SameItems<P>(q: seq<Entry<TimeEvent<P>>>, k: nat, t: int, r: seq<Entry<TimeEvent<P>>>)
    requires k < |q|
  {
    && Entry(t, q[k].item) in r
    && (forall x :: x in q ==> x == q[k] || x in r)
    && (forall x :: x in r ==> x.item == q[k].item || x in q)
  }

  lemma LinkingRestarted<P>(handles: seq<EventHandle<P>>, q: seq<Entry<TimeEvent<P>>>, k: nat, t: int,
                            r: seq<Entry<TimeEvent<P>>>)
    requires k < |q| && SameItems(q, k, t, r) && Linking(handles, q)
    ensures Linking(handles, r)
  {
    assert q[k] in q;
    forall id | 0 <= id < |handles| && handles[id].event != null
      ensures PointsInto(handles[id], id, r)
    {
      assert PointsInto(handles[id], id, q);
      var i :| 0 <= i < |q| && q[i].item == handles[id].event && q[i].item.id == id;
      var x := if i == k then Entry(t, q[k].item) else q[i];
      assert x in r || q[i] == q[k];
    }
  }

  method CancelLinked<P>(v: Vector<TimeEvent?<P>>, h: EventHandle<P>, ghost id: nat,
                         ghost handles: seq<EventHandle<P>>, ghost q: seq<Entry<TimeEvent<P>>>)
    returns (ghost k: nat, ghost r: seq<Entry<TimeEvent<P>>>)
    requires Tied(v, handles, q) && id < |handles| && h == handles[id] && h.event != null
    modifies v.data, v`elemNo, (set x | x in q :: x.item)`position, h
    ensures k == IndexOf(Events(q), id) && k < |q| && h.event == null
    ensures Tied(v, handles, r) && forall x :: x in r ==> x in q
    ensures Events(r) == RemoveAt(Events(q), k)
  {
    HandleTells(v, handles, q, id);
    k := h.event.position;
    r := RemoveAt(q, k);
    var _ := CancelEvent(v, h, q);
    assert forall x :: x in q ==> x.item.handle == old(x.item.handle);
    assert forall j {:trigger handles[j]} :: 0 <= j < |handles| && handles[j].event != null ==> old(PointsInto(handles[j], j, q));
    assert q[k] in q;
    LinkingRemoved(handles, q, k, r);
    RemoveMembers(q, k);
    RemoveKeepsSorted(q, k);
    EventsRemove(q, k);
  }

  method RestartLinked<P>(v: Vector<TimeEvent?<P>>, h: EventHandle<P>, newTime: int, ghost id: nat,
                          ghost handles: seq<EventHandle<P>>, ghost q: seq<Entry<TimeEvent<P>>>)
    returns (ghost k: nat, ghost r: seq<Entry<TimeEvent<P>>>)
    requires Tied(v, handles, q) && id < |handles| && h == handles[id] && h.event != null
    modifies v.data, (set x | x in q :: x.item)`position, h.event`due
    ensures k == IndexOf(Events(q), id) && k < |q|
    ensures Tied(v, handles, r) && forall x :: x in r ==> x.item == q[k].item || x in q
    ensures Events(r) == TimeEvents.Restart(Events(q), k, newTime)
  {
    HandleTells(v, handles, q, id);
    k := h.event.position;
    r := RestartHeld(v, h, newTime, q);
    assert forall x :: x in q ==> x.item.handle == old(x.item.handle);
    assert forall id {:trigger handles[id]} :: 0 <= id < |handles| && handles[id].event != null ==> old(PointsInto(handles[id], id, q));
    assert Linking(handles, q);
    LinkingRestarted(handles, q, k, newTime, r);
  }

  method RestartHeld<P>(v: Vector<TimeEvent?<P>>, h: EventHandle<P>, newTime: int, ghost q: seq<Entry<TimeEvent<P>>>)
    returns (ghost r: seq<Entry<TimeEvent<P>>>)
    requires Holds(v, q) && Sorted(q) && h.event != null
    requires 0 <= h.event.position < |q| && q[h.event.position].item == h.event
    modifies v.data, (set x | x in q :: x.item)`position, h.event`due
    ensures Holds(v, r) && Sorted(r) && SameItems(q, old(h.event.position), newTime, r)
    ensures Events(r) == TimeEvents.Restart(Events(q), old(h.event.position), newTime)
  {
    ghost var k := h.event.position;
    r := TimeEvents.Restart(q, k, newTime);
    RestartMembers(q, k, newTime);
    RestartKeepsSorted(q, k, newTime);
    EventsRestart(q, k, newTime);
    var _ := RestartEvent(v, h, newTime, q);
  }

  /** Taking the first event clears its handle. */
  method TakeLinked<P>(v: Vector<TimeEvent?<P>>, ghost handles: seq<EventHandle<P>>, ghost q: seq<Entry<TimeEvent<P>>>)
    returns (e: TimeEvent<P>, ghost r: seq<Entry<TimeEvent<P>>>)
    requires Tied(v, handles, q) && q != []
    modifies v.data, v`elemNo, (set x | x in q :: x.item)`position, set x | x in q :: x.item.handle
    ensures e.id < |handles| && handles[e.id].event == null
    ensures Tied(v, handles, r) && forall x :: x in r ==> x in q
    ensures Events(q) == [Entry(e.due, Event(e.id, e.handler))] + Events(r)
  {
    assert q[0] in q;
    e := GetTop(v, q);
    r := q[1..];
  }

  // ---------------------------------------------------------------------------------------------
  // The queue of handlers

  lemma ValuesSnoc<P>(nodes: seq<LinkedList.Node<P>>, node: LinkedList.Node<P>)
    ensures Values(nodes + [node]) == Values(nodes) + [node.value]
  {
  }

  class CallQueue<P> {
    var head: LinkedList.Node?<P>
    ghost var nodes: seq<LinkedList.Node<P>>
    ghost var handlers: seq<P> // what the nodes hold
    ghost var Repr: set<object>

    ghost predicate NodeKept(i: nat)
      requires i < |nodes| == |handlers|
      reads this, Repr
    {
      && nodes[i] in Repr && nodes[i].next == LinkedList.NodeAt(nodes, i + 1, null)
      && nodes[i] !in nodes[..i] && handlers[i] == nodes[i].value
    }

    /** The null-terminated list consists of the nodes, and they hold the handlers. */
    ghost predicate Valid()
      reads this, Repr
    {
      && this in Repr && head == LinkedList.NodeAt(nodes, 0, null) && |handlers| == |nodes|
      && forall i :: 0 <= i < |nodes| ==> NodeKept(i)
    }

    lemma Unfolded()
      requires Valid()
      ensures LinkedList.IsList(head, nodes) && handlers == Values(nodes) && forall n :: n in nodes ==> n in Repr
    {
      forall i | 0 <= i < |nodes|
        ensures nodes[i] in Repr && nodes[i].next == LinkedList.NodeAt(nodes, i + 1, null) && handlers[i] == nodes[i].value
      {
        assert NodeKept(i);
      }
      forall i, j | 0 <= i < j < |nodes|
        ensures nodes[i] != nodes[j]
      {
        assert NodeKept(j) && nodes[i] in nodes[..j];
      }
    }

    constructor ()
      ensures Valid() && fresh(Repr) && handlers == []
    {
      head, nodes, handlers, Repr := null, [], [], {this};
    }

    method Enqueue(h: P)
      requires Valid()
      modifies Repr
      ensures Valid() && fresh(Repr - old(Repr))
      ensures handlers == old(handlers) + [h]
    {
      Unfolded();
      var node := new LinkedList.Node(h);
      var list := LinkedList.PushBack(head, node, nodes, [node]);
      ValuesSnoc(nodes, node);
      Adopt(list, nodes + [node], Repr + {node});
    }

    /** The queue now consists of these nodes. */
    method Adopt(list: LinkedList.Node?<P>, ghost nodes: seq<LinkedList.Node<P>>, ghost repr: set<object>)
      requires LinkedList.IsList(list, nodes) && this in repr && forall n :: n in nodes ==> n in repr
      modifies this
      ensures Valid() && head == list && this.nodes == nodes && handlers == Values(nodes) && Repr == repr
    {
      head, this.nodes, handlers, Repr := list, nodes, Values(nodes), repr;
      forall i | 0 <= i < |nodes|
        ensures NodeKept(i)
      {
        assert nodes[i] in nodes;
      }
    }

    method Dequeue() returns (h: P)
      requires Valid() && head != null
      modifies Repr
      ensures Valid() && Repr == old(Repr)
      ensures old(handlers) == [h] + handlers
    {
      Unfolded();
      var list, node := LinkedList.Pop(head, nodes);
      h := node.value;
      Adopt(list, nodes[1..], Repr);
    }
  }

  // ---------------------------------------------------------------------------------------------
  // The time events

  class EventContainer<P> {
    const events: Vector<TimeEvent?<P>>
    var handles: seq<EventHandle<P>> // what the callers hold
    ghost var queue: seq<Entry<TimeEvent<P>>>
    ghost var pending: seq<Entry<Event<P>>> // the events that the queue holds
    ghost var Repr: set<object>

    ghost predicate EventKept(i: nat)
      requires i < |queue| == |pending|
      reads this, events, Repr
    {
      var e := queue[i].item;
      && events.data in Repr && e in Repr && e.id < |handles| && e.handle == handles[e.id] && handles[e.id] in Repr
      && At(events, i, queue[i]) && (i > 0 ==> queue[i - 1].due <= queue[i].due) && pending[i] == EventOf(queue[i])
    }

    ghost predicate HandleKept(id: nat)
      requires id < |handles|
      reads this, Repr
    {
      && handles[id] in Repr && handles[id] !in handles[..id]
      && (handles[id].event != null ==> PointsInto(handles[id], id, queue))
    }

    /** The vector holds the events in order, and each handle points to its event while that is pending. */
    ghost predicate Valid()
      reads this, events, Repr
    {
      && this in Repr && events in Repr && events.data in Repr
      && events.managed && DoublingSize(events.data.Length) && events.Valid()
      && |pending| == |queue| == events.elemNo
      && (forall i :: 0 <= i < |queue| ==> EventKept(i))
      && (forall id :: 0 <= id < |handles| ==> HandleKept(id))
    }

    constructor ()
      ensures Valid() && fresh(Repr) && pending == [] && handles == []
    {
      var v := new Vector<TimeEvent?<P>>(null);
      events, handles, queue, pending := v, [], [], [];
      Repr := {this, v, v.data};
    }

    /** Schedules an event and gives its caller a handle, unless memory or the vector's index range is exhausted. */
    method Schedule(h: P, due: int, memory: bool) returns (ok: bool)
      requires Valid()
      modifies Repr
      ensures Valid() && fresh(Repr - old(Repr))
      ensures ok == (memory && old(|pending|) < MAX_PENDING)
      ensures pending == if ok then Add(old(pending), Entry(due, Event(old(|handles|), h))) else old(pending)
      ensures |handles| == old(|handles|) + if ok then 1 else 0
    {
      if !memory {
        return false;
      }
      Unfolded();
      var handle := new EventHandle<P>();
      var e := new TimeEvent<P>(h, due, |handles|);
      ok := Insert(e, handle);
    }

    /** What the container is, seen as a whole. */
    lemma Unfolded()
      requires Valid()
      ensures Tied(events, handles, queue) && pending == Events(queue)
      ensures (forall x :: x in queue ==> x.item in Repr) && (forall h :: h in handles ==> h in Repr)
    {
      forall id | 0 <= id < |handles|
        ensures handles[id] in Repr && (handles[id].event != null ==> PointsInto(handles[id], id, queue))
      {
        assert HandleKept(id);
      }
      forall i, j | 0 <= i < j < |handles|
        ensures handles[i] != handles[j]
      {
        assert HandleKept(j) && handles[i] in handles[..j];
      }
      forall i | 0 <= i < |queue|
        ensures queue[i].item in Repr && queue[i].item.id < |handles| && queue[i].item.handle == handles[queue[i].item.id]
        ensures At(events, i, queue[i]) && (i > 0 ==> queue[i - 1].due <= queue[i].due) && pending[i] == EventOf(queue[i])
      {
        assert EventKept(i);
      }
      assert pending == Events(queue);
      NeighboursSorted(queue);
    }

    /** The container now holds these events. */
    method Adopt(handles: seq<EventHandle<P>>, ghost q: seq<Entry<TimeEvent<P>>>, ghost repr: set<object>)
      requires this in repr && events in repr && events.data in repr
      requires (forall x :: x in q ==> x.item in repr) && (forall h :: h in handles ==> h in repr)
      requires events.managed && DoublingSize(events.data.Length)
      requires Tied(events, handles, q)
      modifies this`handles, this`queue, this`pending, this`Repr
      ensures Valid() && this.handles == handles && queue == q && pending == Events(q) && Repr == repr
    {
      this.handles, queue, pending, Repr := handles, q, Events(q), repr;
      assert Linking(handles, q);
      forall i | 0 <= i < |queue|
        ensures EventKept(i)
      {
        assert queue[i] in queue && handles[queue[i].item.id] in handles;
      }
      forall id | 0 <= id < |handles|
        ensures HandleKept(id)
      {
        assert handles[id] in handles;
      }
    }

    method Insert(e: TimeEvent<P>, handle: EventHandle<P>) returns (ok: bool)
      requires Tied(events, handles, queue) && pending == Events(queue)
      requires this in Repr && events in Repr && events.data in Repr && events.managed && DoublingSize(events.data.Length)
      requires (forall x :: x in queue ==> x.item in Repr) && (forall h :: h in handles ==> h in Repr)
      requires e !in Repr && handle !in Repr && e.handle == null && handle.event == null && e.id == |handles|
      modifies Repr, e, handle
      ensures Valid() && Repr == old(Repr) + {events.data, e, handle}
      ensures events.data == old(events.data) || fresh(events.data)
      ensures ok == (old(|queue|) < MAX_PENDING)
      ensures pending == if ok then Add(old(pending), Entry(old(e.due), Event(e.id, e.handler))) else old(pending)
      ensures handles == if ok then old(handles) + [handle] else old(handles)
    {
      ghost var r;
      ok, r := AddLinked(events, e, handle, handles, queue);
      Adopt(if ok then handles + [handle] else handles, r, Repr + {events.data, e, handle});
    }

    /** Cancels the event under a caller's handle, if that is not null. */
    method Cancel(id: nat) returns (found: bool)
      requires Valid()
      modifies Repr
      ensures Valid() && Repr == old(Repr) && handles == old(handles)
      ensures found == (IndexOf(old(pending), id) >= 0)
      ensures id < |handles| ==> handles[id].event == null
      ensures pending == if found then RemoveAt(old(pending), IndexOf(old(pending), id)) else old(pending)
    {
      found := id < |handles| && handles[id].event != null;
      Unfolded();
      IdsAreIssued(handles, queue);
      if id < |handles| {
        HandleTells(events, handles, queue, id);
      }
      if found {
        ghost var k, r := CancelLinked(events, handles[id], id, handles, queue);
        Adopt(handles, r, Repr);
      }
    }

    /** Gives the event under a caller's handle a new time, if the handle is not null. */
    method Restart(id: nat, newTime: int) returns (found: bool)
      requires Valid()
      modifies Repr
      ensures Valid() && Repr == old(Repr) && handles == old(handles)
      ensures found == (IndexOf(old(pending), id) >= 0)
      ensures pending == if found then TimeEvents.Restart(old(pending), IndexOf(old(pending), id), newTime)
                            else old(pending)
    {
      found := id < |handles| && handles[id].event != null;
      Unfolded();
      IdsAreIssued(handles, queue);
      if id < |handles| {
        HandleTells(events, handles, queue, id);
      }
      if found {
        ghost var k, r := RestartLinked(events, handles[id], newTime, id, handles, queue);
        assert queue[k] in queue;
        Adopt(handles, r, Repr);
      }
    }

    /** The time of the first event, before which no other event is due. */
    method EarliestTime() returns (r: Option<int>)
      requires Valid()
      ensures r == if pending == [] then None else Some(pending[0].due)
      ensures r.Some? ==> forall x :: x in pending ==> r.value <= x.due
    {
      Unfolded();
      var e := PeekTop(events, queue);
      if e == null {
        return None;
      }
      assert At(events, 0, queue[0]);
      return Some(e.due);
    }

    /** Takes the first event out; its caller's handle is null from then on. */
    method Take() returns (e: TimeEvent<P>)
      requires Valid() && pending != []
      modifies Repr
      ensures Valid() && Repr == old(Repr) && handles == old(handles)
      ensures old(pending) == [Entry(e.due, Event(e.id, e.handler))] + pending
      ensures e.id < |handles| && handles[e.id].event == null
    {
      Unfolded();
      ghost var r;
      e, r := TakeLinked(events, handles, queue);
      Adopt(handles, r, Repr);
    }

    /** What a caller learns from its handle. */
    lemma HandleIsPending(id: nat)
      requires Valid()
      ensures forall h :: h in handles ==> h in Repr
      ensures id < |handles| && handles[id].event != null <==> IndexOf(pending, id) >= 0
    {
      Unfolded();
      IdsAreIssued(handles, queue);
      if id < |handles| {
        HandleTells(events, handles, queue, id);
      }
    }
  }

  lemma ScheduleIs<P>(s: Evtd<P>, h: P, delay: int, memory: bool, t: Evtd<P>)
    requires t == s.(pending := t.pending, nextId := t.nextId)
    requires if CanSchedule(s, memory)
             then t.pending == Add(s.pending, Entry(s.now + delay, Event(s.nextId, h))) && t.nextId == s.nextId + 1
             else t.pending == s.pending && t.nextId == s.nextId
    ensures t == Schedule(s, h, delay, memory)
  {
  }

  // ---------------------------------------------------------------------------------------------
  // The dispatcher itself

  class EventDispatcher<P> {
    var now: int
    const timers: EventContainer<P>
    const queue: CallQueue<P>
    var onEmpty: Option<P>
    var stop: bool
    ghost var past: History<P>
    ghost var Repr: set<object>

    ghost function State(): (s: Evtd<P>)
      reads this, timers, queue
    {
      Evtd(now, timers.pending, queue.handlers, onEmpty, stop, |timers.handles|, past)
    }

    /** The linked queue holds exactly the handlers that were enqueued and not yet executed, in that order. */
    ghost predicate Valid()
      reads this, Repr
    {
      && this in Repr && timers in Repr && timers.Repr <= Repr && queue in Repr && queue.Repr <= Repr
      && this !in timers.Repr && this !in queue.Repr && timers.Repr !! queue.Repr
      && timers.events in timers.Repr && timers.Valid() && queue.Valid()
      && past.enqueued == past.executed + queue.handlers
    }

    constructor ()
      ensures Valid() && fresh(Repr) && State() == Init()
    {
      now, onEmpty, stop := 0, None, false;
      var t := new EventContainer<P>();
      var q := new CallQueue<P>();
      timers, queue := t, q;
      past := History([], [], [], []);
      Repr := {this} + t.Repr + q.Repr;
    }

    method SetClock(t: int)
      requires Valid()
      modifies this`now
      ensures Valid() && State() == Next(old(State()), Tick(t))
    {
      now := t;
    }

    method Enqueue(h: P, memory: bool) returns (ok: bool)
      requires Valid()
      modifies Repr
      ensures Valid() && fresh(Repr - old(Repr))
      ensures State() == Do(old(State()), Execute(h, memory)) && ok == memory
    {
      ok := memory;
      if memory {
        queue.Enqueue(h);
        past := past.(enqueued := past.enqueued + [h]);
        Repr := Repr + queue.Repr;
      }
    }

    /** Schedules an event, unless memory or the container's index range is exhausted. */
    method ScheduleIn(h: P, delay: int, memory: bool) returns (id: Option<nat>)
      requires Valid()
      modifies Repr
      ensures Valid() && fresh(Repr - old(Repr))
      ensures State() == Schedule(old(State()), h, delay, memory)
      ensures id == if old(CanSchedule(State(), memory)) then Some(old(State()).nextId) else None
    {
      ghost var s := State();
      var ok := timers.Schedule(h, now + delay, memory);
      Repr := Repr + timers.Repr;
      ScheduleIs(s, h, delay, memory, State());
      id := if ok then Some(|timers.handles| - 1) else None;
    }

    /** Whether the handle that a caller got for this event is not null. */
    predicate IsPending(id: nat)
      requires Valid()
      reads Repr
      ensures IsPending(id) <==> IndexOf(State().pending, id) >= 0
    {
      timers.HandleIsPending(id);
      id < |timers.handles| && timers.handles[id].event != null
    }

    method CancelById(id: nat) returns (found: bool)
      requires Valid()
      modifies Repr
      ensures Valid() && Repr == old(Repr)
      ensures State() == CancelPending(old(State()), id)
      ensures id < |timers.handles| ==> timers.handles[id].event == null
      ensures found == (IndexOf(old(State()).pending, id) >= 0)
    {
      found := timers.Cancel(id);
      if found {
        past := past.(cancelled := past.cancelled + [id]);
      }
    }

    method RestartById(id: nat, delay: int) returns (found: bool)
      requires Valid()
      modifies Repr
      ensures Valid() && Repr == old(Repr)
      ensures State() == RestartPending(old(State()), id, delay)
      ensures found == (IndexOf(old(State()).pending, id) >= 0)
    {
      found := timers.Restart(id, now + delay);
    }

    method Perform(a: Action<P>)
      requires Valid()
      modifies Repr
      ensures Valid() && fresh(Repr - old(Repr)) && now == old(now)
      ensures Leads(old(State()), [Call(a)], State())
    {
      ghost var s := State();
      match a {
        case Execute(h, memory) => var _ := Enqueue(h, memory);
        case ExecuteIn(h, delay, memory) => var _ := ScheduleIn(h, delay, memory);
        case Cancel(id) => var _ := CancelById(id);
        case Restart(id, delay) => var _ := RestartById(id, delay);
        case ContinueWhenEmpty(h) => onEmpty := Some(h);
        case Stop => stop := true;
      }
      CallLeads(s, a, State());
    }

    /** The time of the earliest event, if any is pending. */
    method GetTimeOfEarliestEvent() returns (r: Option<int>)
      requires Valid()
      ensures r.None? <==> State().pending == []
      ensures r.Some? ==> exists x :: x in State().pending && x.due == r.value
      ensures r.Some? ==> forall x :: x in State().pending ==> r.value <= x.due
    {
      r := timers.EarliestTime();
      assert r.Some? ==> timers.pending[0] in timers.pending;
    }

    method PerformAll(actions: seq<Action<P>>)
      requires Valid()
      modifies Repr
      ensures Valid() && fresh(Repr - old(Repr)) && now == old(now)
      ensures Leads(old(State()), Calls(actions), State())
    {
      ghost var s := State();
      for i := 0 to |actions|
        invariant Valid() && fresh(Repr - old(Repr)) && now == s.now
        invariant Leads(s, Calls(actions[..i]), State())
      {
        ghost var t := State();
        Perform(actions[i]);
        OneMoreCall(s, actions, i, t, State());
      }
      assert actions[..|actions|] == actions;
    }

    /** Takes the first node out of the queue; its handler is to be invoked. */
    method PopFirst() returns (handler: P)
      requires Valid() && queue.head != null
      modifies Repr
      ensures Valid() && fresh(Repr - old(Repr))
      ensures old(State()).callQueue != [] && handler == old(State()).callQueue[0] && now == old(now)
      ensures Leads(old(State()), [Pop], State())
    {
      handler := queue.Dequeue();
      past := past.(executed := past.executed + [handler]);
    }

    /** Takes the first queued handler, if any, and invokes it. */
    method SingleStep(newStep: int, r: Reaction<P>) returns (any: bool)
      requires Valid()
      modifies Repr
      ensures Valid() && fresh(Repr - old(Repr)) && now == newStep
      ensures any == (old(State()).callQueue != [])
      ensures Leads(Next(old(State()), Tick(newStep)), if any then Invocation(Pop, r) else [], State())
      ensures old(now) == newStep ==> Leads(old(State()), if any then Invocation(Pop, r) else [], State())
      ensures any && r == Reaction([], false) ==> |State().callQueue| < |old(State()).callQueue|
    {
      SetClock(newStep);
      ghost var s := State();
      any := queue.head != null;
      if any {
        var _ := PopFirst();
        ghost var t := State();
        PerformAll(r.actions);
        Invoked(s, Pop, t, r, State(), State());
      }
    }

    /** Takes the first event out of the container; the handle its caller holds is null when the handler runs. */
    method TakeFirst() returns (handler: P, ghost id: nat)
      requires Valid() && State().pending != []
      modifies Repr
      ensures Valid() && fresh(Repr - old(Repr))
      ensures State() == FireTop(old(State())) && now == old(now)
      ensures handler == old(State()).pending[0].item.handler && id == old(State()).pending[0].item.id
      ensures !IsPending(id)
    {
      var e := timers.Take();
      handler, id := e.handler, e.id;
      past := past.(fired := past.fired + [Firing(e.id, e.due, now)]);
    }

    /** Takes the first due event and invokes its handler. */
    method FireFirst(r: Reaction<P>)
      requires Valid() && Due(State())
      modifies Repr
      ensures Valid() && fresh(Repr - old(Repr)) && now == old(now)
      ensures Leads(old(State()), Invocation(Fire, r), State())
      ensures r == Reaction([], false) ==> |State().pending| < |old(State()).pending|
    {
      ghost var s := State();
      var _, _ := TakeFirst();
      ghost var t := State();
      assert Leads(s, [Fire], t);
      PerformAll(r.actions);
      ghost var u := State();
      if r.fatal {
        Perform(Stop);
      }
      Invoked(s, Fire, t, r, u, State());
    }

    /** Fires due events until none is due. */
    method FireAllDue(rs: seq<Reaction<P>>) returns (n: nat)
      requires Valid()
      modifies Repr
      ensures Valid() && fresh(Repr - old(Repr)) && now == old(now)
      ensures !Due(State()) && Leads(old(State()), Invocations(Fire, rs, 0, n), State())
    {
      ghost var s := State();
      n := 0;
      var top := timers.EarliestTime();
      while top.Some?
        invariant Valid() && fresh(Repr - old(Repr)) && now == s.now
        invariant top == if State().pending == [] then None else Some(State().pending[0].due)
        invariant Leads(s, Invocations(Fire, rs, 0, n), State())
        decreases if n < |rs| then |rs| - n else 0, |State().pending|
      {
        if top.value <= now {
          ghost var t := State();
          FireFirst(ReactionAt(rs, n));
          OneMoreInvocation(s, Fire, rs, 0, n, t, State());
          n := n + 1;
          top := timers.EarliestTime();
        } else {
          break;
        }
      }
    }

    /** One round of the loop below. */
    method DrainOne(newStep: int, rs: seq<Reaction<P>>, n: nat, m: nat, ghost s: Evtd<P>) returns (any: bool)
      requires Valid() && now == newStep && Leads(s, Invocations(Pop, rs, n, n + m), State())
      modifies Repr
      ensures Valid() && fresh(Repr - old(Repr)) && now == newStep
      ensures Leads(s, Invocations(Pop, rs, n, if any then n + m + 1 else n + m), State())
      ensures !any ==> State().callQueue == []
      ensures any && |rs| <= n + m ==> |State().callQueue| < |old(State()).callQueue|
    {
      ghost var t := State();
      any := SingleStep(newStep, ReactionAt(rs, n + m));
      if any {
        OneMoreInvocation(s, Pop, rs, n, n + m, t, State());
      } else {
        LeadsNowhere(t, State());
      }
    }

    /** Executes queued handlers until none is queued. */
    method DrainQueue(newStep: int, rs: seq<Reaction<P>>, n: nat) returns (m: nat)
      requires Valid() && now == newStep
      modifies Repr
      ensures Valid() && fresh(Repr - old(Repr))
      ensures State().callQueue == [] && Leads(old(State()), Invocations(Pop, rs, n, n + m), State())
    {
      ghost var s := State();
      m := 0;
      var any := true;
      while any
        invariant Valid() && fresh(Repr - old(Repr)) && now == newStep
        invariant Leads(s, Invocations(Pop, rs, n, n + m), State())
        invariant !any ==> State().callQueue == []
        decreases any, if n + m < |rs| then |rs| - (n + m) else 0, |State().callQueue|
      {
        any := DrainOne(newStep, rs, n, m, s);
        m := if any then m + 1 else m;
      }
    }

    /** The handler for the empty container is called only once and disposed of after that. */
    method CallOnEmpty(r: Reaction<P>)
      requires Valid()
      modifies Repr
      ensures Valid() && fresh(Repr - old(Repr))
      ensures Leads(old(State()), EmptyPart(old(State()), r), State())
    {
      ghost var s := State();
      var top := timers.EarliestTime();
      if top.None? && onEmpty.Some? {
        PerformAll(r.actions);
        EmptyInvoked(s, r, State());
        onEmpty := None;
      }
    }

    /**
     * One step at a given time: n due events are fired until none is due, then m queued handlers are
     * executed until none is queued, then the handler for the empty container gets its turn.
     */
    method Step(newStep: int, rs: seq<Reaction<P>>) returns (n: nat, m: nat, ghost s1: Evtd<P>, ghost s2: Evtd<P>)
      requires Valid()
      modifies Repr
      ensures Valid() && fresh(Repr - old(Repr))
      ensures Stepped(Next(old(State()), Tick(newStep)), rs, n, m, s1, s2, State())
    {
      SetClock(newStep);
      n := FireAllDue(rs);
      s1 := State();
      m := DrainQueue(newStep, rs, n);
      s2 := State();
      CallOnEmpty(ReactionAt(rs, n + m));
    }
  }
}
