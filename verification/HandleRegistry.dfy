/**
 * Handles for objects (src/libxively/xi_handle.c): a handle is the index of the vector cell that
 * holds the object, and a cleared cell is reused before the vector grows.
 */
module HandleRegistry {
  import opened Common
  import opened Vectors

  const MAX_TIMED_EVENTS := 64
  const MAX_CONTEXTS := 10

  datatype Outcome = Ok | NotFound | NoMoreResources

  type Slots<O> = seq<Option<O>>

  // ---------------------------------------------------------------------------------------------
  // What the operations do to the slots

  function SlotOf<O(==)>(slots: Slots<O>, cell: Option<O>): (r: int)
    ensures -1 <= r < |slots|
    ensures r == -1 <==> cell !in slots
    ensures r != -1 ==> slots[r] == cell && forall k :: 0 <= k < r ==> slots[k] != cell
  {
    FirstIndex(slots, c => c == cell)
  }

  /** A handle is an `int32_t`, but the vector reads it as an `int8_t`. */
  function ObjectFor<O>(slots: Slots<O>, handle: int): (r: Option<O>)
    ensures 0 <= handle < |slots| && |slots| <= 127 ==> r == slots[handle]
    ensures 127 < handle < 256 ==> r == None
    ensures -128 <= handle < 0 ==> r == None
  {
    var i := Int8(handle);
    if |slots| <= i || i < 0 then None else slots[i]
  }

  /** `pushed` says whether the vector could take one more element. */
  function Register<O(==)>(slots: Slots<O>, max: int, o: O, pushed: bool): (r: (Slots<O>, Outcome))
  {
    var free := SlotOf(slots, None);
    if free >= 0 then (slots[free := Some(o)], Ok)
    else if |slots| >= max then (slots, NoMoreResources)
    else if pushed then (slots + [Some(o)], Ok)
    else (slots, Ok)
  }

  function Delete<O(==)>(slots: Slots<O>, o: O): (r: (Slots<O>, Outcome))
  {
    var i := SlotOf(slots, Some(o));
    if i < 0 then (slots, NotFound) else (slots[i := None], Ok)
  }

  // ---------------------------------------------------------------------------------------------
  // The operations themselves, on a vector

  ghost predicate ValidTable<O>(v: Vector<Option<O>>)
    reads v
  {
    v.Valid() && v.managed && v.data.Length in {2, 4, 8, 16, 32, 64}
  }

  method FindHandle<O(==)>(v: Vector<Option<O>>, o: O) returns (handle: int, r: Outcome)
    requires v.Valid()
    ensures handle == SlotOf(v.Contents(), Some(o))
    ensures r == if Some(o) in v.Contents() then Ok else NotFound
  {
    handle := v.Find(c => c == Some(o));
    if handle < 0 {
      return -1, NotFound;
    }
    return handle, Ok;
  }

  method ObjectForHandle<O>(v: Vector<Option<O>>, handle: int) returns (r: Option<O>)
    requires v.Valid()
    ensures r == ObjectFor(v.Contents(), handle)
  {
    var i := Int8(handle);
    if v.elemNo <= i || i < 0 {
      return None;
    }
    return v.data[i];
  }

  method DeleteHandle<O(==)>(v: Vector<Option<O>>, o: O) returns (r: Outcome)
    requires v.Valid()
    modifies v.data
    ensures v.Valid() && (v.Contents(), r) == Delete(old(v.Contents()), o)
  {
    var i := v.Find(c => c == Some(o));
    if i < 0 {
      return NotFound;
    }
    v.data[i] := None;
    return Ok;
  }

  /** Within the limits the library uses, only a lack of memory can keep the vector from growing. */
  method RegisterHandle<O(==)>(v: Vector<Option<O>>, max: int, o: O, memory: bool) returns (r: Outcome)
    requires ValidTable(v) && max <= 64
    modifies v`data, v`elemNo, v.data
    ensures ValidTable(v) && (v.data == old(v.data) || fresh(v.data))
    ensures (v.Contents(), r)
         == Register(old(v.Contents()), max, o, memory || old(v.elemNo < v.data.Length))
    ensures v.data.Length <= old(Max(v.data.Length, 2 * v.elemNo))
  {
    var i := v.Find(c => c == None);
    if i < 0 {
      if v.elemNo >= max {
        return NoMoreResources;
      }
      var _ := v.Push(Some(o), memory);
    } else {
      v.data[i] := Some(o);
    }
    return Ok;
  }

  /** The table of contexts: at most 10 handles, in a vector that stays far inside its index range. */
  method RegisterContext<O(==)>(v: Vector<Option<O>>, context: O, memory: bool) returns (r: Outcome)
    requires ValidTable(v) && v.elemNo <= MAX_CONTEXTS && v.data.Length <= 16
    modifies v`data, v`elemNo, v.data
    ensures ValidTable(v) && v.elemNo <= MAX_CONTEXTS && v.data.Length <= 16
    ensures (v.Contents(), r)
         == Register(old(v.Contents()), MAX_CONTEXTS, context, memory || old(v.elemNo < v.data.Length))
    ensures r == NoMoreResources <==> old(v.elemNo) == MAX_CONTEXTS && None !in old(v.Contents())
  {
    ghost var slots := v.Contents();
    assert |slots| == v.elemNo && (SlotOf(slots, None) >= 0 <==> None in slots);
    r := RegisterHandle(v, MAX_CONTEXTS, context, memory);
    assert v.elemNo == |v.Contents()|;
  }

  // ---------------------------------------------------------------------------------------------
  // Runs of registrations and deletions refine a partial map from handles to objects

  datatype Op<O> = Reg(o: O, pushed: bool) | Del(o: O)

  function Apply<O(==)>(slots: Slots<O>, max: int, op: Op<O>): (r: Slots<O>)
  {
    match op
    case Reg(o, pushed) => Register(slots, max, o, pushed).0
    case Del(o) => Delete(slots, o).0
  }

  function Run<O(==)>(slots: Slots<O>, max: int, ops: seq<Op<O>>): (r: Slots<O>)
    decreases |ops|
  {
    if ops == [] then slots else Run(Apply(slots, max, ops[0]), max, ops[1..])
  }

  /** Registrations are of objects that are not registered at that moment. */
  predicate FreshRegs<O(==)>(slots: Slots<O>, max: int, ops: seq<Op<O>>)
    decreases |ops|
  {
    ops != [] ==>
      && (ops[0].Reg? ==> Some(ops[0].o) !in slots)
      && FreshRegs(Apply(slots, max, ops[0]), max, ops[1..])
  }

  ghost predicate Distinct<O(!new)>(slots: Slots<O>)
  {
    forall i, j :: 0 <= i < j < |slots| && slots[i] == slots[j] ==> slots[i] == None
  }

  ghost function Live<O(!new)>(slots: Slots<O>): (m: map<nat, O>)
  {
    map h: nat | h < |slots| && slots[h].Some? :: slots[h].value
  }

  /** The least handle that names no object. */
  ghost predicate LeastFree<O(!new)>(slots: Slots<O>, h: nat)
  {
    h !in Live(slots) && forall k: nat :: k < h ==> k in Live(slots)
  }

  /**
   * One operation on the partial map: a registration takes the least free handle, unless the table is
   * full or cannot grow; a deletion removes exactly the object's own handle.
   */
  lemma ApplyRefinesMap<O(!new)>(slots: Slots<O>, max: int, op: Op<O>)
    requires Distinct(slots) && |slots| <= max
    requires op.Reg? ==> Some(op.o) !in slots
    ensures Distinct(Apply(slots, max, op)) && |Apply(slots, max, op)| <= max
    ensures match op
            case Reg(o, pushed) =>
              if None in slots || (|slots| < max && pushed)
              then exists h: nat :: LeastFree(slots, h) && Live(Apply(slots, max, op)) == Live(slots)[h := o]
              else Live(Apply(slots, max, op)) == Live(slots)
            case Del(o) =>
              Live(Apply(slots, max, op)) == map h: nat | h in Live(slots) && Live(slots)[h] != o :: Live(slots)[h]
  {
    var after := Apply(slots, max, op);
    match op {
      case Reg(o, pushed) =>
        var free := SlotOf(slots, None);
        if free >= 0 {
          assert LeastFree(slots, free);
          assert Live(after) == Live(slots)[free := o];
        } else if |slots| < max && pushed {
          assert LeastFree(slots, |slots|);
          assert Live(after) == Live(slots)[|slots| := o];
        }
      case Del(o) =>
    }
  }

  /** What the answers tell: a full table is reported, but a table that could not grow answers as if it had. */
  lemma OutcomeTells<O(!new)>(slots: Slots<O>, max: int, o: O, pushed: bool)
    requires |slots| <= max && Some(o) !in slots
    ensures var (after, r) := Register(slots, max, o, pushed);
            && (r == NoMoreResources <==> |Live(slots)| == max)
            && (r == Ok && Some(o) !in after <==> |Live(slots)| == |slots| < max && !pushed)
            && (Delete(after, o).1 == Ok <==> Some(o) in after)
            && (Delete(after, o).1 == NotFound <==> Some(o) !in after)
  {
    CountLive(slots);
    var free := SlotOf(slots, None);
    if free >= 0 {
      assert slots[free := Some(o)][free] == Some(o);
    } else {
      assert (slots + [Some(o)])[|slots|] == Some(o);
    }
  }

  /** There are as many live handles as slots iff no slot is cleared. */
  lemma {:induction false} CountLive<O(!new)>(slots: Slots<O>)
    ensures |Live(slots)| <= |slots|
    ensures |Live(slots)| == |slots| <==> None !in slots
  {
    if slots != [] {
      var n := |slots| - 1;
      CountLive(slots[..n]);
      assert slots == slots[..n] + [slots[n]];
      assert Live(slots).Keys == Live(slots[..n]).Keys + if slots[n].Some? then {n} else {};
      assert n !in Live(slots[..n]);
    }
  }

  /** Through any run, an object that is not deleted keeps its handle, and the handle finds it. */
  lemma {:induction false} HandlesAreStable<O(!new)>(slots: Slots<O>, max: int, ops: seq<Op<O>>, h: nat)
    requires Distinct(slots) && |slots| <= max <= 127 && FreshRegs(slots, max, ops)
    requires h in Live(slots)
    requires Op.Del(Live(slots)[h]) !in ops
    ensures var end := Run(slots, max, ops);
            && Distinct(end) && |end| <= max
            && h in Live(end) && Live(end)[h] == Live(slots)[h]
            && ObjectFor(end, h) == Some(Live(slots)[h])
            && SlotOf(end, Some(Live(slots)[h])) == h
    decreases |ops|
  {
    if ops != [] {
      ApplyRefinesMap(slots, max, ops[0]);
      HandlesAreStable(Apply(slots, max, ops[0]), max, ops[1..], h);
    }
  }

  /** The handle of a deleted object names nothing until some later registration takes that slot. */
  lemma {:induction false} DeletedHandleIsEmpty<O(!new)>(slots: Slots<O>, max: int, o: O, ops: seq<Op<O>>)
    requires Distinct(slots) && |slots| <= max <= 127 && Some(o) in slots
    requires FreshRegs(Apply(slots, max, Op.Del(o)), max, ops)
    ensures var h := SlotOf(slots, Some(o));
            var end := Run(Apply(slots, max, Op.Del(o)), max, ops);
            ObjectFor(end, h) == None || exists op :: op in ops && op.Reg? && ObjectFor(end, h) == Some(op.o)
  {
    ApplyRefinesMap(slots, max, Op.Del(o));
    EmptyUntilReused(Apply(slots, max, Op.Del(o)), max, ops, SlotOf(slots, Some(o)));
  }

  lemma {:induction false} EmptyUntilReused<O(!new)>(slots: Slots<O>, max: int, ops: seq<Op<O>>, h: nat)
    requires Distinct(slots) && h < |slots| <= max <= 127 && FreshRegs(slots, max, ops)
    ensures h < |Run(slots, max, ops)| <= max
    ensures var c := Run(slots, max, ops)[h];
            c == None || c == slots[h] || exists op :: op in ops && op.Reg? && c == Some(op.o)
    decreases |ops|
  {
    if ops != [] {
      var s' := Apply(slots, max, ops[0]);
      ApplyRefinesMap(slots, max, ops[0]);
      EmptyUntilReused(s', max, ops[1..], h);
      assert s'[h] == slots[h] || s'[h] == None || (ops[0].Reg? && s'[h] == Some(ops[0].o));
      assert ops[0] in ops;
    }
  }

  lemma CongruentInRange(h: int, i: int, k: int)
    requires (h - i) % 256 == 0 && (h - k) % 256 == 0
    requires -128 <= i <= 127 && 0 <= k <= 127
    ensures i == k
  {
    var a, b := (h - i) / 256, (h - k) / 256;
    assert k - i == 256 * (a - b);
  }

  /** A handle finds an object iff a live slot is congruent to it modulo 256: 256 finds what 0 finds. */
  lemma WideHandlesAlias<O(!new)>(slots: Slots<O>, handle: int)
    requires |slots| <= 127
    ensures ObjectFor(slots, handle).Some? <==> exists k: nat :: k in Live(slots) && (handle - k) % 256 == 0
    ensures forall k: nat :: k in Live(slots) && (handle - k) % 256 == 0 ==>
              ObjectFor(slots, handle) == Some(Live(slots)[k])
  {
    var i := Int8(handle);
    forall k: nat | k in Live(slots) && (handle - k) % 256 == 0
      ensures k == i
    {
      CongruentInRange(handle, i, k);
    }
    if ObjectFor(slots, handle).Some? {
      assert i in Live(slots);
    }
  }
}
