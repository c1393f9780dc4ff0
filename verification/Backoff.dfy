/**
 * Connection backoff (src/libxively/xi_backoff_status_api.c): an index into two look-up tables that
 * rises with every failed connection and falls through cooldown events that reschedule themselves.
 */
module Backoff {
  import opened Common
  import opened TimeEvents
  import opened Dispatcher
  import opened DispatcherObject

  const INT32_MAX := 0x7fff_ffff

  datatype Job = Cooldown | OtherJob(tag: int)

  datatype Class = NoBackoff | Recoverable | Terminal

  /** The states of a connection that the classification tells apart. */
  datatype ConnState =
    | StateOk | StateWritten
    | ConnectionResetByPeer | UnacceptableProtocolVersion | IdentifierRejected | BadUsernameOrPassword | NotAuthorized
    | OtherState(code: int)

  /** Penalties and decay times by index; both tables have the same length. */
  datatype Luts = Luts(penalty: seq<int>, decay: seq<int>)

  predicate ValidLuts(luts: Luts)
  {
    && 0 < |luts.penalty| == |luts.decay| <= 127
    && (forall i :: 0 <= i < |luts.penalty| ==> 0 <= luts.penalty[i] <= INT32_MAX)
    && (forall i :: 0 <= i < |luts.decay| ==> 0 <= luts.decay[i])
  }

  const SHIPPED := Luts([0, 2, 4, 8, 16, 32, 64, 128, 256, 512], [4, 4, 8, 16, 30, 30, 30, 30, 30, 30])

  // ---------------------------------------------------------------------------------------------
  // The penalty

  /** The penalty for an index and a random 32-bit draw, spread by half the previous penalty to both sides. */
  function Penalty(lut: seq<int>, i: nat, draw: nat): (p: int)
    requires i < |lut| && lut[Max(i - 1, 0)] >= 0
  {
    var full := if i == 0 then 0 else lut[i - 1];
    var half := Max(full / 2, 1);
    Max(lut[i] + draw % (full + 1) - half, lut[0])
  }

  /** The C arithmetic on `int32_t` does not overflow. */
  predicate Representable(lut: seq<int>)
  {
    && (forall i :: 0 <= i < |lut| ==> 0 <= lut[i] <= INT32_MAX)
    && (forall i :: 0 < i < |lut| ==> lut[i] + lut[i - 1] <= INT32_MAX)
  }

  /** Starts at 0, goes on with at least 2, and at least doubles from there. */
  predicate Doubling(lut: seq<int>)
  {
    && |lut| > 0 && lut[0] == 0
    && (|lut| > 1 ==> lut[1] >= 2)
    && (forall i :: 1 < i < |lut| ==> 2 * lut[i - 1] <= lut[i])
  }

  lemma {:induction false} DoublingGrows(lut: seq<int>, i: nat)
    requires Doubling(lut) && 0 < i < |lut|
    ensures lut[i] >= 2 && lut[i] >= 2 * lut[i - 1]
  {
    if i > 1 {
      DoublingGrows(lut, i - 1);
    }
  }

  function Low(lut: seq<int>, i: nat): (p: int)
    requires i < |lut|
  {
    if i == 0 then 0 else lut[i] - Max(lut[i - 1] / 2, 1)
  }

  function High(lut: seq<int>, i: nat): (p: int)
    requires i < |lut|
  {
    if i == 0 then 0 else Low(lut, i) + lut[i - 1]
  }

  lemma BandBounds(lut: seq<int>, i: nat)
    requires Doubling(lut) && i < |lut|
    ensures 0 <= Low(lut, i) <= High(lut, i)
    ensures i > 0 ==> lut[i - 1] >= 0
  {
    if i > 0 {
      DoublingGrows(lut, i);
    }
    if i > 1 {
      DoublingGrows(lut, i - 1);
    }
  }

  /** Clamping never applies beyond index 0: the penalty is the low end of the band plus the reduced draw. */
  lemma PenaltyIsLowPlusDraw(lut: seq<int>, i: nat, draw: nat)
    requires Doubling(lut) && Representable(lut) && i < |lut|
    ensures Penalty(lut, i, draw) == Low(lut, i) + draw % (if i == 0 then 1 else lut[i - 1] + 1)
  {
    BandBounds(lut, i);
    var r := draw % (if i == 0 then 1 else lut[i - 1] + 1);
    assert r >= 0;
  }

  /** The possible penalties for an index are exactly an interval: no draw leaves it and every value is drawn. */
  lemma PenaltyBand(lut: seq<int>, i: nat, p: int)
    requires Doubling(lut) && Representable(lut) && i < |lut|
    ensures (exists draw: nat :: draw <= 0xffff_ffff && Penalty(lut, i, draw) == p) <==> Low(lut, i) <= p <= High(lut, i)
  {
    BandBounds(lut, i);
    if Low(lut, i) <= p <= High(lut, i) {
      var draw: nat := p - Low(lut, i);
      var m := if i == 0 then 1 else lut[i - 1] + 1;
      SmallModulo(draw, m);
      PenaltyIsLowPlusDraw(lut, i, draw);
    }
    forall draw: nat | draw <= 0xffff_ffff && Penalty(lut, i, draw) == p
      ensures Low(lut, i) <= p <= High(lut, i)
    {
      PenaltyInBand(lut, i, draw);
    }
  }

  lemma PenaltyInBand(lut: seq<int>, i: nat, draw: nat)
    requires Doubling(lut) && Representable(lut) && i < |lut|
    ensures Low(lut, i) <= Penalty(lut, i, draw) <= High(lut, i)
  {
    BandBounds(lut, i);
    PenaltyIsLowPlusDraw(lut, i, draw);
  }

  lemma SmallModulo(x: nat, m: nat)
    requires x < m
    ensures x % m == x
  {
  }

  /** Whatever the draws, a higher index means a strictly higher penalty. */
  lemma {:induction false} BandsAreDisjoint(lut: seq<int>, i: nat, j: nat, draw: nat, draw': nat)
    requires Doubling(lut) && Representable(lut) && i < j < |lut|
    ensures Penalty(lut, i, draw) < Penalty(lut, j, draw')
    decreases j
  {
    PenaltyInBand(lut, i, draw);
    PenaltyInBand(lut, j, draw');
    AdjacentBands(lut, j);
    if i + 1 < j {
      BandsAreDisjoint(lut, i, j - 1, draw, 0);
      PenaltyInBand(lut, j - 1, 0);
    }
  }

  lemma AdjacentBands(lut: seq<int>, j: nat)
    requires Doubling(lut) && 0 < j < |lut|
    ensures High(lut, j - 1) < Low(lut, j)
  {
    DoublingGrows(lut, j);
    if j > 1 {
      DoublingGrows(lut, j - 1);
    }
  }

  lemma ShippedTablesQualify()
    ensures ValidLuts(SHIPPED) && Doubling(SHIPPED.penalty) && Representable(SHIPPED.penalty)
  {
    var p := SHIPPED.penalty;
    assert |p| == 10 && p[0] == 0 && p[1] == 2 && p[2] == 4 && p[3] == 8 && p[4] == 16;
    assert p[5] == 32 && p[6] == 64 && p[7] == 128 && p[8] == 256 && p[9] == 512;
    assert Doubling(p) && Representable(p);
    var d := SHIPPED.decay;
    assert |d| == 10 && forall i :: 0 <= i < |d| ==> 0 <= d[i];
  }

  // ---------------------------------------------------------------------------------------------
  // The status, and the operations as functions of it

  /** `nextUpdate` is the handle of the cooldown event; the dispatcher clears it when the event leaves. */
  datatype Status = Status(evtd: Evtd<Job>, class_: Class, index: nat, nextUpdate: Option<nat>)

  function InitStatus(): (b: Status)
  {
    Status(Init(), NoBackoff, 0, None)
  }

  function Classify(state: ConnState): (c: Class)
  {
    match state
    case ConnectionResetByPeer => Terminal
    case UnacceptableProtocolVersion => Terminal
    case IdentifierRejected => Terminal
    case BadUsernameOrPassword => Terminal
    case NotAuthorized => Terminal
    case StateOk => NoBackoff
    case StateWritten => NoBackoff
    case OtherState(_) => Recoverable
  }

  /** Moves the pending cooldown to the decay time of the current index, or schedules one. */
  function RestartUpdateTime(luts: Luts, b: Status, memory: bool): (b': Status)
    requires ValidLuts(luts) && b.index < |luts.decay|
  {
    match b.nextUpdate
    case Some(id) => b.(evtd := RestartPending(b.evtd, id, luts.decay[b.index]))
    case None =>
      b.(evtd := Schedule(b.evtd, Cooldown, luts.decay[b.index], memory),
         nextUpdate := if CanSchedule(b.evtd, memory) then Some(b.evtd.nextId) else None)
  }

  function Inc(luts: Luts, b: Status, memory: bool): (b': Status)
    requires ValidLuts(luts) && b.index < |luts.decay|
  {
    RestartUpdateTime(luts, b.(index := Min(b.index + 1, |luts.penalty| - 1)), memory)
  }

  function Dec(b: Status): (b': Status)
  {
    b.(index := Max(b.index - 1, 0))
  }

  function Update(luts: Luts, b: Status, state: ConnState, memory: bool): (b': Status)
    requires ValidLuts(luts) && b.index < |luts.decay|
  {
    var b1 := b.(class_ := Classify(state));
    if b1.class_ == NoBackoff then b1 else Inc(luts, b1, memory)
  }

  function ApplyCooldown(luts: Luts, b: Status, memory: bool): (b': Status)
    requires ValidLuts(luts) && b.index < |luts.decay|
  {
    var b1 := if b.class_ == NoBackoff then Dec(b) else b;
    if b1.index > 0 then RestartUpdateTime(luts, b1, memory) else b1
  }

  function CancelUpdate(b: Status): (b': Status)
  {
    match b.nextUpdate
    case Some(id) => b.(evtd := CancelPending(b.evtd, id), nextUpdate := None)
    case None => b
  }

  // ---------------------------------------------------------------------------------------------
  // Runs

  /** `Cool` is the dispatcher firing the cooldown event: the handle is cleared, then the handler runs. */
  datatype BackoffStep =
    | Clock(t: int)
    | Report(state: ConnState, memory: bool)
    | Cool(memory: bool)
    | CancelCooldown
    | Other(a: Action<Job>)
    | FireOther

  predicate OwnBusiness(b: Status, a: Action<Job>)
  {
    match a
    case Execute(h, _) => h.OtherJob?
    case ExecuteIn(h, _, _) => h.OtherJob?
    case Cancel(id) => NotACooldown(b, id)
    case Restart(id, _) => NotACooldown(b, id)
    case ContinueWhenEmpty(h) => h.OtherJob?
    case Stop => true
  }

  predicate NotACooldown(b: Status, id: nat)
  {
    forall x :: x in b.evtd.pending && x.item.id == id ==> x.item.handler.OtherJob?
  }

  predicate Possible(luts: Luts, b: Status, l: BackoffStep)
  {
    && ValidLuts(luts) && b.index < |luts.decay|
    && match l
       case Cool(_) => Due(b.evtd) && b.evtd.pending[0].item.handler == Cooldown
       case FireOther => Due(b.evtd) && b.evtd.pending[0].item.handler.OtherJob?
       case Other(a) => OwnBusiness(b, a)
       case _ => true
  }

  function After(luts: Luts, b: Status, l: BackoffStep): (b': Status)
    requires Possible(luts, b, l)
  {
    match l
    case Clock(t) => b.(evtd := b.evtd.(now := t))
    case Report(state, memory) => Update(luts, b, state, memory)
    case Cool(memory) => ApplyCooldown(luts, b.(evtd := FireTop(b.evtd), nextUpdate := None), memory)
    case CancelCooldown => CancelUpdate(b)
    case Other(a) => b.(evtd := Do(b.evtd, a))
    case FireOther => b.(evtd := FireTop(b.evtd))
  }

  predicate CanRun(luts: Luts, b: Status, run: seq<BackoffStep>)
    decreases |run|
  {
    run != [] ==> Possible(luts, b, run[0]) && CanRun(luts, After(luts, b, run[0]), run[1..])
  }

  function RunBackoff(luts: Luts, b: Status, run: seq<BackoffStep>): (b': Status)
    requires CanRun(luts, b, run)
    decreases |run|
  {
    if run == [] then b else RunBackoff(luts, After(luts, b, run[0]), run[1..])
  }

  /** A needed cooldown event is taken by the dispatcher. */
  predicate Served(luts: Luts, b: Status, l: BackoffStep)
    requires Possible(luts, b, l)
  {
    match l
    case Report(state, memory) =>
      Classify(state) != NoBackoff && b.nextUpdate.None? ==> CanSchedule(b.evtd, memory)
    case Cool(memory) => memory
    case _ => true
  }

  // ---------------------------------------------------------------------------------------------
  // The operations themselves

  /** The status in which the handle was last given for `next`; it counts as long as it is not null. */
  function StatusOf(evtd: Evtd<Job>, class_: Class, index: nat, next: Option<nat>): (b: Status)
  {
    Status(evtd, class_, index, if next.Some? && IndexOf(evtd.pending, next.value) >= 0 then next else None)
  }

  /** Every pending cooldown is the one the handle was last given for. */
  ghost predicate OnlyMine(q: seq<Entry<Event<Job>>>, next: Option<nat>)
  {
    forall x :: x in q && x.item.handler == Cooldown ==> next == Some(x.item.id)
  }

  lemma MemberIsFound(q: seq<Entry<Event<Job>>>, x: Entry<Event<Job>>)
    requires x in q
    ensures IndexOf(q, x.item.id) >= 0
  {
    var i :| 0 <= i < |q| && q[i] == x;
  }

  /** The branch for a handle that is not null. */
  lemma CooldownMoved(luts: Luts, s: Evtd<Job>, c: Class, i: nat, id: nat, memory: bool, s': Evtd<Job>)
    requires ValidLuts(luts) && i < |luts.decay| && IndexOf(s.pending, id) >= 0 && OnlyMine(s.pending, Some(id))
    requires s' == RestartPending(s, id, luts.decay[i])
    ensures StatusOf(s', c, i, Some(id)) == RestartUpdateTime(luts, StatusOf(s, c, i, Some(id)), memory)
    ensures OnlyMine(s'.pending, Some(id))
  {
    MovedIsMine(s.pending, IndexOf(s.pending, id), s.now + luts.decay[i], id, s'.pending);
  }

  lemma MovedIsMine(q: seq<Entry<Event<Job>>>, k: nat, t: int, id: nat, r: seq<Entry<Event<Job>>>)
    requires k < |q| && q[k].item.id == id && OnlyMine(q, Some(id)) && r == TimeEvents.Restart(q, k, t)
    ensures IndexOf(r, id) >= 0 && OnlyMine(r, Some(id))
  {
    RestartMembers(q, k, t);
    MemberIsFound(r, Entry(t, q[k].item));
  }

  /** The branch for a null handle. */
  lemma CooldownAdded(luts: Luts, s: Evtd<Job>, c: Class, i: nat, next: Option<nat>, memory: bool, s': Evtd<Job>,
                      next': Option<nat>)
    requires ValidLuts(luts) && i < |luts.decay| && OnlyMine(s.pending, next)
    requires next.Some? ==> IndexOf(s.pending, next.value) < 0
    requires s' == Schedule(s, Cooldown, luts.decay[i], memory)
    requires next' == if CanSchedule(s, memory) then Some(s.nextId) else None
    ensures StatusOf(s', c, i, next') == RestartUpdateTime(luts, StatusOf(s, c, i, next), memory)
    ensures OnlyMine(s'.pending, next')
  {
    var e := Entry(s.now + luts.decay[i], Event(s.nextId, Cooldown));
    forall x | x in s.pending
      ensures x.item.handler != Cooldown
    {
      MemberIsFound(s.pending, x);
    }
    AddMembers(s.pending, e);
    if CanSchedule(s, memory) {
      MemberIsFound(s'.pending, e);
    }
  }

  /** Once the handle is null, no cooldown is pending. */
  lemma NoneIsMine(q: seq<Entry<Event<Job>>>, r: seq<Entry<Event<Job>>>, id: nat)
    requires OnlyMine(q, Some(id)) && IndexOf(r, id) < 0 && forall x :: x in r ==> x in q
    ensures OnlyMine(r, None) && OnlyMine(r, Some(id))
  {
    forall x | x in r
      ensures x.item.handler != Cooldown
    {
      MemberIsFound(r, x);
    }
  }

  class BackoffStatus {
    const dispatcher: EventDispatcher<Job>
    const luts: Luts
    var class_: Class
    var index: nat
    var nextUpdate: Option<nat> // the handle, by the event it was last given for

    ghost function Value(): (b: Status)
      reads this, dispatcher, dispatcher.timers, dispatcher.queue
    {
      StatusOf(dispatcher.State(), class_, index, nextUpdate)
    }

    /** Every pending cooldown is the one under the handle. */
    ghost predicate Valid()
      reads this, dispatcher, dispatcher.Repr
    {
      && this !in dispatcher.Repr && dispatcher.Valid()
      && ValidLuts(luts) && index < |luts.decay|
      && OnlyMine(dispatcher.State().pending, nextUpdate)
    }

    constructor (luts: Luts)
      requires ValidLuts(luts)
      ensures Valid() && fresh(dispatcher.Repr) && this.luts == luts && Value() == InitStatus()
    {
      this.luts := luts;
      var d := new EventDispatcher<Job>();
      dispatcher := d;
      class_, index, nextUpdate := NoBackoff, 0, None;
    }

    method IncPenalty(memory: bool)
      requires Valid()
      modifies this, dispatcher.Repr
      ensures Valid() && fresh(dispatcher.Repr - old(dispatcher.Repr)) && Value() == Inc(luts, old(Value()), memory)
    {
      ghost var b := Value();
      index := Min(index + 1, |luts.penalty| - 1);
      assert Value() == b.(index := index);
      RestartTime(memory);
    }

    method DecPenalty()
      requires Valid()
      modifies this`index
      ensures Valid() && Value() == Dec(old(Value()))
    {
      index := Max(index - 1, 0);
    }

    method GetPenalty(draw: nat) returns (p: int)
      requires Valid()
      ensures p == Penalty(luts.penalty, index, draw)
      ensures Doubling(luts.penalty) && Representable(luts.penalty) ==>
                Low(luts.penalty, index) <= p <= High(luts.penalty, index)
    {
      var previous := Max(index - 1, 0);
      var fullRange := if index == 0 then 0 else luts.penalty[previous];
      var halfRange := Max(fullRange / 2, 1);
      p := Max(luts.penalty[index] + draw % (fullRange + 1) - halfRange, luts.penalty[0]);
      if Doubling(luts.penalty) && Representable(luts.penalty) {
        PenaltyInBand(luts.penalty, index, draw);
      }
    }

    method UpdatePenalty(state: ConnState, memory: bool) returns (c: Class)
      requires Valid()
      modifies this, dispatcher.Repr
      ensures Valid() && fresh(dispatcher.Repr - old(dispatcher.Repr))
      ensures Value() == Update(luts, old(Value()), state, memory) && c == Classify(state)
    {
      c := Classify(state);
      class_ := c;
      if c != NoBackoff {
        IncPenalty(memory);
      }
    }

    method RestartTime(memory: bool)
      requires Valid()
      modifies this, dispatcher.Repr
      ensures Valid() && fresh(dispatcher.Repr - old(dispatcher.Repr)) && index == old(index)
      ensures Value() == RestartUpdateTime(luts, old(Value()), memory)
    {
      ghost var s := dispatcher.State();
      if nextUpdate.Some? && dispatcher.IsPending(nextUpdate.value) {
        var _ := dispatcher.RestartById(nextUpdate.value, luts.decay[index]);
        CooldownMoved(luts, s, class_, index, nextUpdate.value, memory, dispatcher.State());
      } else {
        ghost var next := nextUpdate;
        nextUpdate := dispatcher.ScheduleIn(Cooldown, luts.decay[index], memory);
        CooldownAdded(luts, s, class_, index, next, memory, dispatcher.State(), nextUpdate);
      }
    }

    /** The dispatcher fires the cooldown: the handle is null before anything else happens. */
    method CoolDown(memory: bool)
      requires Valid() && Possible(luts, Value(), Cool(memory))
      modifies this, dispatcher.Repr
      ensures Valid() && fresh(dispatcher.Repr - old(dispatcher.Repr)) && Value() == After(luts, old(Value()), Cool(memory))
    {
      ghost var q := dispatcher.State().pending;
      assert q[0] in q;
      var _, id := dispatcher.TakeFirst();
      assert nextUpdate == Some(id) && !dispatcher.IsPending(id);
      NoneIsMine(q, dispatcher.State().pending, id);
      if class_ == NoBackoff {
        DecPenalty();
      }
      if index > 0 {
        RestartTime(memory);
      }
    }

    method CancelEvent()
      requires Valid()
      modifies this, dispatcher.Repr
      ensures Valid() && fresh(dispatcher.Repr - old(dispatcher.Repr)) && Value() == CancelUpdate(old(Value()))
    {
      ghost var q := dispatcher.State().pending;
      if nextUpdate.Some? && dispatcher.IsPending(nextUpdate.value) {
        var _ := dispatcher.CancelById(nextUpdate.value);
        assert !dispatcher.IsPending(nextUpdate.value);
        RemoveMembers(q, IndexOf(q, nextUpdate.value));
        NoneIsMine(q, dispatcher.State().pending, nextUpdate.value);
      }
    }
  }
}
