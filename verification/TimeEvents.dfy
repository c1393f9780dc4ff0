/**
 * The container of time events (src/libxively/event_dispatcher/xi_time_event.c): a vector of events
 * sorted by execution time in which every event knows its own position, so that a handle reaches
 * its event in constant time.
 */
module TimeEvents {
  import opened Vectors

  // ---------------------------------------------------------------------------------------------
  // What the operations do to the order of events

  datatype Entry<+E> = Entry(due: int, item: E)

  ghost predicate Sorted<E>(q: seq<Entry<E>>)
  {
    forall i, j :: 0 <= i < j < |q| ==> q[i].due <= q[j].due
  }

  function InsertAt<E>(q: seq<E>, p: nat, e: E): (r: seq<E>)
    requires p <= |q|
  {
    q[..p] + [e] + q[p..]
  }

  function RemoveAt<E>(q: seq<E>, k: nat): (r: seq<E>)
    requires k < |q|
  {
    q[..k] + q[k + 1..]
  }

  /** Where an entry due at t comes to rest when bubbled from k to the front: behind its equals. */
  function DownTo<E>(q: seq<Entry<E>>, k: nat, t: int): (p: nat)
    requires k <= |q|
    ensures p <= k
  {
    if k == 0 || q[k - 1].due <= t then k else DownTo(q, k - 1, t)
  }

  lemma {:induction false} DownToPlaces<E>(q: seq<Entry<E>>, k: nat, t: int)
    requires k <= |q|
    ensures DownTo(q, k, t) == 0 || q[DownTo(q, k, t) - 1].due <= t
    ensures forall i :: DownTo(q, k, t) <= i < k ==> t < q[i].due
  {
    if k != 0 && t < q[k - 1].due {
      DownToPlaces(q, k - 1, t);
    }
  }

  /** Where an entry due at t comes to rest when bubbled from k to the end: before its equals. */
  function UpTo<E>(q: seq<Entry<E>>, k: nat, t: int): (p: nat)
    requires k <= |q|
    ensures k <= p <= |q|
    decreases |q| - k
  {
    if k == |q| || t <= q[k].due then k else UpTo(q, k + 1, t)
  }

  lemma {:induction false} UpToPlaces<E>(q: seq<Entry<E>>, k: nat, t: int)
    requires k <= |q|
    ensures UpTo(q, k, t) == |q| || t <= q[UpTo(q, k, t)].due
    ensures forall i :: k <= i < UpTo(q, k, t) ==> q[i].due < t
    decreases |q| - k
  {
    if k != |q| && q[k].due < t {
      UpToPlaces(q, k + 1, t);
    }
  }

  function Add<E>(q: seq<Entry<E>>, e: Entry<E>): (r: seq<Entry<E>>)
  {
    InsertAt(q, DownTo(q, |q|, e.due), e)
  }

  function Restart<E>(q: seq<Entry<E>>, k: nat, t: int): (r: seq<Entry<E>>)
    requires k < |q|
  {
    InsertAt(RemoveAt(q, k), RestartPosition(q, k, t), Entry(t, q[k].item))
  }

  function RestartPosition<E>(q: seq<Entry<E>>, k: nat, t: int): (p: nat)
    requires k < |q|
    ensures p < |q|
  {
    var rest := RemoveAt(q, k);
    if t < q[k].due then DownTo(rest, k, t) else UpTo(rest, k, t)
  }

  lemma RemoveKeepsSorted<E>(q: seq<Entry<E>>, k: nat)
    requires Sorted(q) && k < |q|
    ensures Sorted(RemoveAt(q, k))
  {
  }

  lemma InsertKeepsSorted<E>(q: seq<Entry<E>>, p: nat, e: Entry<E>)
    requires Sorted(q) && p <= |q|
    requires p > 0 ==> q[p - 1].due <= e.due
    requires p < |q| ==> e.due <= q[p].due
    ensures Sorted(InsertAt(q, p, e))
  {
  }

  lemma InsertContents<E>(q: seq<E>, p: nat, e: E)
    requires p <= |q|
    ensures multiset(InsertAt(q, p, e)) == multiset(q) + multiset{e}
  {
    assert q == q[..p] + q[p..];
  }

  lemma AddKeepsSorted<E>(q: seq<Entry<E>>, e: Entry<E>)
    requires Sorted(q)
    ensures Sorted(Add(q, e))
  {
    DownToPlaces(q, |q|, e.due);
    InsertKeepsSorted(q, DownTo(q, |q|, e.due), e);
  }

  lemma AddMembers<E>(q: seq<Entry<E>>, e: Entry<E>)
    ensures forall x :: x in Add(q, e) <==> x == e || x in q
  {
    InsertMembers(q, DownTo(q, |q|, e.due), e);
  }

  lemma InsertMembers<E>(q: seq<E>, p: nat, e: E)
    requires p <= |q|
    ensures forall x :: x in InsertAt(q, p, e) <==> x == e || x in q
  {
    forall x | x in q
      ensures x in InsertAt(q, p, e)
    {
      assert q == q[..p] + q[p..];
    }
  }

  lemma RemoveMembers<E>(q: seq<E>, k: nat)
    requires k < |q|
    ensures forall x :: x in RemoveAt(q, k) ==> x in q
    ensures forall x :: x in q ==> x == q[k] || x in RemoveAt(q, k)
  {
    assert q == q[..k] + [q[k]] + q[k + 1..];
  }

  /** Adding keeps the order and loses nothing; the new event goes behind all events due at the same time. */
  lemma AddIsStableInsertion<E>(q: seq<Entry<E>>, e: Entry<E>)
    requires Sorted(q)
    ensures Sorted(Add(q, e)) && multiset(Add(q, e)) == multiset(q) + multiset{e}
    ensures exists p: nat :: p <= |q| && Add(q, e) == InsertAt(q, p, e)
              && (forall i :: 0 <= i < p ==> q[i].due <= e.due) && (forall i :: p <= i < |q| ==> e.due < q[i].due)
  {
    var p := DownTo(q, |q|, e.due);
    DownToPlaces(q, |q|, e.due);
    AddKeepsSorted(q, e);
    InsertContents(q, p, e);
  }

  /**
   * An event restarted for a later time goes before all events already due then; one restarted for an
   * earlier time goes behind them.
   */
  lemma RestartPlaces<E>(q: seq<Entry<E>>, k: nat, t: int)
    requires Sorted(q) && k < |q|
    ensures var p, rest := RestartPosition(q, k, t), RemoveAt(q, k);
            && (forall i :: 0 <= i < p ==> rest[i].due <= t)
            && (forall i :: p <= i < |rest| ==> t <= rest[i].due)
            && (q[k].due < t ==> forall i :: 0 <= i < p ==> rest[i].due < t)
            && (t < q[k].due ==> forall i :: p <= i < |rest| ==> t < rest[i].due)
  {
    var p, rest := RestartPosition(q, k, t), RemoveAt(q, k);
    forall i | 0 <= i < |rest|
      ensures i < k ==> rest[i].due <= q[k].due
      ensures i >= k ==> rest[i].due >= q[k].due
    {
    }
    RemoveKeepsSorted(q, k);
    DownToPlaces(rest, k, t);
    UpToPlaces(rest, k, t);
  }

  lemma RestartKeepsSorted<E>(q: seq<Entry<E>>, k: nat, t: int)
    requires Sorted(q) && k < |q|
    ensures Sorted(Restart(q, k, t))
  {
    RestartPlaces(q, k, t);
    RemoveKeepsSorted(q, k);
    InsertKeepsSorted(RemoveAt(q, k), RestartPosition(q, k, t), Entry(t, q[k].item));
  }

  /** Restarting changes one due time only. */
  lemma RestartContents<E>(q: seq<Entry<E>>, k: nat, t: int)
    requires k < |q|
    ensures multiset(Restart(q, k, t)) == multiset(q) - multiset{q[k]} + multiset{Entry(t, q[k].item)}
  {
    assert q == q[..k] + [q[k]] + q[k + 1..];
    InsertContents(RemoveAt(q, k), RestartPosition(q, k, t), Entry(t, q[k].item));
  }

  lemma RestartMembers<E>(q: seq<Entry<E>>, k: nat, t: int)
    requires k < |q|
    ensures forall x :: x in Restart(q, k, t) ==> x == Entry(t, q[k].item) || x in q
    ensures Entry(t, q[k].item) in Restart(q, k, t)
    ensures forall x :: x in q ==> x == q[k] || x in Restart(q, k, t)
  {
    RemoveMembers(q, k);
    InsertMembers(RemoveAt(q, k), RestartPosition(q, k, t), Entry(t, q[k].item));
  }

  // ---------------------------------------------------------------------------------------------
  // The operations themselves, on event objects

  /** The client's end of an event: null once the event has left the container. */
  class EventHandle<P> {
    var event: TimeEvent?<P>

    constructor ()
      ensures event == null
    {
      event := null;
    }
  }

  class TimeEvent<P> {
    const handler: P
    ghost const id: nat // which event this is, among all that were ever scheduled
    var due: int
    var position: int
    var handle: EventHandle?<P>

    constructor (handler: P, due: int, ghost id: nat)
      ensures this.handler == handler && this.due == due && this.id == id && handle == null
    {
      this.handler := handler;
      this.id := id;
      this.due := due;
      position := -1;
      handle := null;
    }
  }

  /** Cell i holds the event of x; the event knows its position, and its handle points back to it. */
  ghost predicate At<P>(v: Vector<TimeEvent?<P>>, i: int, x: Entry<TimeEvent<P>>)
    reads v, v.data, x.item, x.item.handle
  {
    && 0 <= i < v.data.Length
    && v.data[i] == x.item
    && x.item.due == x.due
    && x.item.position == i
    && (x.item.handle != null ==> x.item.handle.event == x.item)
  }

  /** The vector holds the events of q in that order. */
  ghost predicate Holds<P>(v: Vector<TimeEvent?<P>>, q: seq<Entry<TimeEvent<P>>>)
    reads v, v.data, set x | x in q :: x.item, set x | x in q :: x.item.handle
  {
    && v.Valid()
    && |q| == v.elemNo
    && forall i :: 0 <= i < |q| ==> At(v, i, q[i])
  }

  /** The vector holds the events of rest with e among them at position p. */
  ghost predicate HoldsWith<P>(v: Vector<TimeEvent?<P>>, rest: seq<Entry<TimeEvent<P>>>, p: nat, e: Entry<TimeEvent<P>>)
    reads v, v.data, e.item, e.item.handle, set x | x in rest :: x.item, set x | x in rest :: x.item.handle
  {
    && v.Valid()
    && p <= |rest| && v.elemNo == |rest| + 1
    && At(v, p, e)
    && (forall i :: 0 <= i < p ==> At(v, i, rest[i]))
    && (forall i :: p <= i < |rest| ==> At(v, i + 1, rest[i]))
  }

  lemma HoldsInserted<P>(v: Vector<TimeEvent?<P>>, rest: seq<Entry<TimeEvent<P>>>, p: nat, e: Entry<TimeEvent<P>>)
    requires HoldsWith(v, rest, p, e)
    ensures Holds(v, InsertAt(rest, p, e))
  {
    var q := InsertAt(rest, p, e);
    forall i | 0 <= i < |q|
      ensures At(v, i, q[i])
    {
      assert i > p ==> At(v, (i - 1) + 1, rest[i - 1]);
    }
  }

  lemma HoldsRemoved<P>(v: Vector<TimeEvent?<P>>, q: seq<Entry<TimeEvent<P>>>, k: nat)
    requires Holds(v, q) && k < |q|
    ensures HoldsWith(v, RemoveAt(q, k), k, q[k])
    ensures forall x :: x in RemoveAt(q, k) ==> x in q && x.item != q[k].item
  {
    var rest := RemoveAt(q, k);
    forall i | 0 <= i < |rest|
      ensures i < k ==> rest[i] == q[i] && At(v, i, rest[i])
      ensures i >= k ==> rest[i] == q[i + 1] && At(v, i + 1, rest[i])
    {
    }
  }

  method SwapEvents<P>(v: Vector<TimeEvent?<P>>, i: nat, j: nat, ghost x: Entry<TimeEvent<P>>, ghost y: Entry<TimeEvent<P>>)
    requires v.Valid() && i < v.elemNo && j < v.elemNo && i != j && At(v, i, x) && At(v, j, y)
    modifies v.data, {x.item, y.item}`position
    ensures At(v, i, y) && At(v, j, x)
    ensures forall k :: 0 <= k < v.elemNo && k != i && k != j ==> v.data[k] == old(v.data[k])
  {
    var lhs, rhs := v.data[i], v.data[j];
    ghost var before := v.Contents();
    v.SwapElems(i, j);
    assert forall k :: 0 <= k < v.elemNo ==> v.data[k] == v.Contents()[k];
    lhs.position := j;
    rhs.position := i;
  }

  /** Swaps the travelling event e with its neighbour rest[p]: towards the end, or towards the front. */
  method SwapNeighbours<P>(v: Vector<TimeEvent?<P>>, i: nat, j: nat, ghost rest: seq<Entry<TimeEvent<P>>>, ghost p: nat,
                        ghost e: Entry<TimeEvent<P>>, ghost up: bool)
    requires p < |rest| && i == p && j == p + 1 && HoldsWith(v, rest, if up then p else p + 1, e)
    modifies v.data, {e.item, rest[p].item}`position
    ensures HoldsWith(v, rest, if up then p + 1 else p, e)
  {
    SwapEvents(v, i, j, if up then e else rest[p], if up then rest[p] else e);
    assert forall k :: 0 <= k < p ==> old(At(v, k, rest[k])) && At(v, k, rest[k]);
    assert forall k :: p < k < |rest| ==> old(At(v, k + 1, rest[k])) && At(v, k + 1, rest[k]);
  }

  /** Bubbles one event towards the front until the event before it is not later. */
  method BubbleDown<P>(v: Vector<TimeEvent?<P>>, k: nat, ghost rest: seq<Entry<TimeEvent<P>>>, ghost e: Entry<TimeEvent<P>>)
    returns (p: nat)
    requires HoldsWith(v, rest, k, e)
    modifies v.data, {e.item}`position, (set x | x in rest :: x.item)`position
    ensures p == DownTo(rest, k, e.due) && HoldsWith(v, rest, p, e)
  {
    p := k;
    while p != 0
      invariant p <= k && HoldsWith(v, rest, p, e)
      invariant DownTo(rest, k, e.due) == DownTo(rest, p, e.due)
    {
      assert At(v, p - 1, rest[p - 1]);
      var cmp, elem := v.data[p - 1], v.data[p];
      if elem.due < cmp.due {
        SwapNeighbours(v, cmp.position, elem.position, rest, p - 1, e, false);
        p := p - 1;
      } else {
        break;
      }
    }
  }

  /** Bubbles one event towards the end until the event behind it is not earlier. */
  method BubbleUp<P>(v: Vector<TimeEvent?<P>>, k: nat, ghost rest: seq<Entry<TimeEvent<P>>>, ghost e: Entry<TimeEvent<P>>)
    returns (p: nat)
    requires HoldsWith(v, rest, k, e)
    modifies v.data, {e.item}`position, (set x | x in rest :: x.item)`position
    ensures p == UpTo(rest, k, e.due) && HoldsWith(v, rest, p, e)
  {
    p := k;
    var end := v.elemNo - 1;
    while p != end
      invariant k <= p <= end && HoldsWith(v, rest, p, e)
      invariant UpTo(rest, k, e.due) == UpTo(rest, p, e.due)
      decreases end - p
    {
      assert At(v, p + 1, rest[p]);
      var cmp, elem := v.data[p + 1], v.data[p];
      if elem.due > cmp.due {
        SwapNeighbours(v, elem.position, cmp.position, rest, p, e, true);
        p := p + 1;
      } else {
        break;
      }
    }
  }

  method MoveToTheEnd<P>(v: Vector<TimeEvent?<P>>, k: nat, ghost rest: seq<Entry<TimeEvent<P>>>, ghost e: Entry<TimeEvent<P>>)
    requires HoldsWith(v, rest, k, e)
    modifies v.data, {e.item}`position, (set x | x in rest :: x.item)`position
    ensures HoldsWith(v, rest, |rest|, e)
  {
    var index := k;
    while index < v.elemNo - 1
      invariant k <= index <= |rest| && HoldsWith(v, rest, index, e)
    {
      assert At(v, index + 1, rest[index]);
      SwapNeighbours(v, index, index + 1, rest, index, e, true);
      index := index + 1;
    }
  }

  /** Takes a new event in unless the vector cannot grow, and ties it to the caller's handle, if any. */
  method AddEvent<P>(v: Vector<TimeEvent?<P>>, e: TimeEvent<P>, h: EventHandle?<P>, memory: bool,
                  ghost q: seq<Entry<TimeEvent<P>>>)
    returns (ok: bool)
    requires Holds(v, q) && e.handle == null && forall x :: x in q ==> x.item != e
    requires h != null ==> h.event == null
    modifies v`data, v`elemNo, v.data, (set x | x in q :: x.item)`position, e`position, e`handle, h
    ensures ok == old(v.elemNo < v.data.Length || (v.managed && memory && v.data.Length < 64))
    ensures v.data.Length == if ok && old(v.elemNo == v.data.Length) then 2 * old(v.data.Length) else old(v.data.Length)
    ensures Holds(v, if ok then Add(q, Entry(e.due, e)) else q)
    ensures ok ==> e.handle == h && (h != null ==> h.event == e)
    ensures !ok && h != null ==> h.event == null
    ensures v.data == old(v.data) || fresh(v.data)
  {
    ok := Append(v, e, memory, q);
    if ok {
      var p := BubbleDown(v, v.elemNo - 1, q, Entry(e.due, e));
      if h != null {
        Attach(v, q, p, Entry(e.due, e), h);
      }
      HoldsInserted(v, q, p, Entry(e.due, e));
    }
  }

  method Append<P>(v: Vector<TimeEvent?<P>>, e: TimeEvent<P>, memory: bool, ghost q: seq<Entry<TimeEvent<P>>>)
    returns (ok: bool)
    requires Holds(v, q) && e.handle == null && forall x :: x in q ==> x.item != e
    modifies v`data, v`elemNo, v.data, e`position
    ensures ok == old(v.elemNo < v.data.Length || (v.managed && memory && v.data.Length < 64))
    ensures v.data.Length == if ok && old(v.elemNo == v.data.Length) then 2 * old(v.data.Length) else old(v.data.Length)
    ensures if ok then HoldsWith(v, q, |q|, Entry(e.due, e)) else Holds(v, q)
    ensures v.data == old(v.data) || fresh(v.data)
  {
    ghost var before := v.Contents();
    ok := v.Push(e, memory);
    assert forall i :: 0 <= i < |q| ==> v.data[i] == v.Contents()[i] == before[i];
    if ok {
      e.position := v.elemNo - 1;
    }
    assert forall i :: 0 <= i < |q| ==> old(At(v, i, q[i])) && q[i] in q && At(v, i, q[i]);
  }

  method Attach<P>(v: Vector<TimeEvent?<P>>, ghost rest: seq<Entry<TimeEvent<P>>>, ghost p: nat, e: Entry<TimeEvent<P>>,
                h: EventHandle<P>)
    requires HoldsWith(v, rest, p, e) && h.event == null
    modifies h, e.item`handle
    ensures HoldsWith(v, rest, p, e) && e.item.handle == h && h.event == e.item
  {
    h.event := e.item;
    e.item.handle := h;
    assert forall k :: 0 <= k < p ==> old(At(v, k, rest[k])) && At(v, k, rest[k]);
    assert forall k :: p <= k < |rest| ==> old(At(v, k + 1, rest[k])) && At(v, k + 1, rest[k]);
  }

  method PeekTop<P>(v: Vector<TimeEvent?<P>>, ghost q: seq<Entry<TimeEvent<P>>>) returns (e: TimeEvent?<P>)
    requires Holds(v, q)
    ensures e == if q == [] then null else q[0].item
  {
    if v.elemNo == 0 {
      return null;
    }
    assert At(v, 0, q[0]);
    return v.data[0];
  }

  /** Clears the client's handle of an event that left the container. */
  method Dispose<P>(e: TimeEvent<P>)
    modifies e.handle
    ensures e.handle != null ==> e.handle.event == null
  {
    if e.handle != null {
      e.handle.event := null;
    }
  }

  method RemoveLast<P>(v: Vector<TimeEvent?<P>>, ghost q: seq<Entry<TimeEvent<P>>>, ghost e: Entry<TimeEvent<P>>)
    requires HoldsWith(v, q, |q|, e)
    modifies v.data, v`elemNo, e.item.handle
    ensures Holds(v, q)
    ensures e.item.handle != null ==> e.item.handle.event == null
  {
    var last := v.data[v.elemNo - 1];
    ghost var before := v.Contents();
    v.Del(v.elemNo - 1);
    assert forall i :: 0 <= i < |q| ==> v.data[i] == v.Contents()[i] == before[i];
    Dispose(last);
    assert forall i :: 0 <= i < |q| ==> old(At(v, i, q[i])) && At(v, i, q[i]);
  }

  /** Removes and returns the event with the least execution time, with its handle cleared. */
  method GetTop<P>(v: Vector<TimeEvent?<P>>, ghost q: seq<Entry<TimeEvent<P>>>) returns (e: TimeEvent?<P>)
    requires Holds(v, q)
    modifies v.data, v`elemNo, (set x | x in q :: x.item)`position, set x | x in q :: x.item.handle
    ensures q == [] ==> e == null && Holds(v, q)
    ensures q != [] ==> e == q[0].item && Holds(v, q[1..]) && e.due == q[0].due
    ensures q != [] && e.handle != null ==> e.handle.event == null
  {
    if v.elemNo == 0 {
      return null;
    }
    HoldsRemoved(v, q, 0);
    assert q[0] in q;
    e := v.data[0];
    if v.elemNo > 1 {
      MoveToTheEnd(v, 0, RemoveAt(q, 0), q[0]);
    }
    RemoveLast(v, RemoveAt(q, 0), q[0]);
    assert RemoveAt(q, 0) == q[1..];
  }

  /** Gives a pending event a new time; a handle whose position is out of range is refused. */
  method RestartEvent<P>(v: Vector<TimeEvent?<P>>, h: EventHandle<P>, newTime: int, ghost q: seq<Entry<TimeEvent<P>>>)
    returns (ok: bool)
    requires Holds(v, q) && h.event != null
    requires 0 <= h.event.position < |q| ==> q[h.event.position].item == h.event
    modifies v.data, (set x | x in q :: x.item)`position, h.event`due
    ensures ok == old(0 <= h.event.position < |q|)
    ensures Holds(v, if ok then Restart(q, old(h.event.position), newTime) else q)
  {
    var index := h.event.position;
    if index >= v.elemNo || index < 0 {
      return false;
    }
    ghost var rest, moved := RemoveAt(q, index), Entry(newTime, q[index].item);
    HoldsRemoved(v, q, index);
    assert q[index] in q;
    var e := v.data[index];
    var oldTime := e.due;
    e.due := newTime;
    var p: nat;
    if newTime < oldTime {
      p := BubbleDown(v, index, rest, moved);
    } else {
      p := BubbleUp(v, index, rest, moved);
    }
    HoldsInserted(v, rest, p, moved);
    return true;
  }

  /** Takes a pending event out and clears its handle; all other events keep their order. */
  method CancelEvent<P>(v: Vector<TimeEvent?<P>>, h: EventHandle<P>, ghost q: seq<Entry<TimeEvent<P>>>)
    returns (e: TimeEvent?<P>)
    requires Holds(v, q) && h.event != null && h.event.handle == h
    requires 0 <= h.event.position < |q| ==> q[h.event.position].item == h.event
    modifies v.data, v`elemNo, (set x | x in q :: x.item)`position, h
    ensures e == if old(0 <= h.event.position < |q|) then old(h.event) else null
    ensures Holds(v, if e != null then RemoveAt(q, old(h.event.position)) else q)
    ensures e != null ==> h.event == null
  {
    var index := h.event.position;
    if index >= v.elemNo || index < 0 {
      return null;
    }
    HoldsRemoved(v, q, index);
    assert q[index] in q;
    if index < v.elemNo - 1 {
      MoveToTheEnd(v, index, RemoveAt(q, index), q[index]);
    }
    e := v.data[v.elemNo - 1];
    RemoveLast(v, RemoveAt(q, index), q[index]);
  }
}
