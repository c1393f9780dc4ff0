/**
 * The growable vector (src/libxively/datastructures/xi_vector.c): an array with an `int8_t` element
 * count and capacity, doubling growth, and deletion by swapping with the last element.
 */
module Vectors {
  import opened Common

  const DEFAULT_CAPACITY := 2

  /** The answer of the n-th call of a removal predicate on a value; 1 asks for removal. */
  type Predicate<!T> = (nat, T) -> int

  class Vector<T> {
    var data: array<T>
    var elemNo: nat
    const managed: bool
    const zero: T // what a cleared cell holds

    ghost predicate Valid()
      reads this
    {
      elemNo <= data.Length && 0 < data.Length <= 127
    }

    ghost function Contents(): (s: seq<T>)
      reads this, data
      requires Valid()
    {
      data[..elemNo]
    }

    constructor (zero: T)
      ensures Valid() && fresh(data) && managed && this.zero == zero
      ensures Contents() == [] && data.Length == DEFAULT_CAPACITY
    {
      this.zero := zero;
      managed := true;
      data := new T[DEFAULT_CAPACITY](_ => zero);
      elemNo := 0;
    }

    constructor From(elems: array<T>, managed: bool, zero: T)
      requires 0 < elems.Length <= 127
      ensures Valid() && data == elems && this.managed == managed && this.zero == zero
      ensures Contents() == elems[..]
    {
      this.zero := zero;
      this.managed := managed;
      data := elems;
      elemNo := elems.Length;
    }

    /**
     * Growth succeeds for managed vectors when the allocator has memory and the new size is a
     * positive `int8_t`: a negative one becomes an allocation request no allocator can meet.
     */
    method Realloc(newSize: int, memory: bool) returns (ok: bool)
      requires Valid()
      requires -128 <= newSize <= 127 && newSize != 0 && newSize != data.Length
      requires newSize > 0 ==> elemNo <= newSize
      modifies this`data
      ensures Valid() && ok == (managed && memory && newSize > 0)
      ensures ok ==> fresh(data) && data.Length == newSize
      ensures !ok ==> data == old(data)
      ensures Contents() == old(Contents())
    {
      if !managed || !memory || newSize < 0 {
        return false;
      }
      var newData := new T[newSize](_ => zero);
      for i := 0 to elemNo
        invariant Valid() && data == old(data) && elemNo == old(elemNo)
        invariant newData[..i] == data[..i]
        invariant Contents() == old(Contents())
      {
        newData[i] := data[i];
      }
      data := newData;
      return true;
    }

    /** Appends, doubling a full array; doubling 64 or more wraps around in `int8_t` and fails. */
    method Push(x: T, memory: bool) returns (ok: bool)
      requires Valid()
      modifies this`data, this`elemNo, data
      ensures Valid() && (data == old(data) || fresh(data))
      ensures ok == (old(elemNo < data.Length || (managed && memory && data.Length < 64)))
      ensures Contents() == if ok then old(Contents()) + [x] else old(Contents())
      ensures data.Length == if ok && old(elemNo == data.Length) then 2 * old(data.Length) else old(data.Length)
    {
      if elemNo + 1 > data.Length {
        ok := Realloc(Int8(data.Length * 2), memory);
        if !ok {
          return;
        }
      }
      data[elemNo] := x;
      elemNo := elemNo + 1;
      ok := true;
    }

    method SwapElems(i: nat, j: nat)
      requires Valid() && i < elemNo && j < elemNo
      modifies data
      ensures Contents() == old(Contents())[i := old(Contents()[j])][j := old(Contents()[i])]
    {
      data[i], data[j] := data[j], data[i];
    }

    /** Deletes by moving the last element into the hole. */
    method Del(index: nat)
      requires Valid() && index < elemNo
      modifies data, this`elemNo
      ensures Valid() && elemNo == old(elemNo) - 1
      ensures Contents() == SwapDelete(old(Contents()), index)
    {
      if index != elemNo - 1 {
        SwapElems(index, elemNo - 1);
      }
      elemNo := elemNo - 1;
      data[elemNo] := zero;
    }

    /** The first index holding an element that compares equal, or -1. */
    method Find(matches: T -> bool) returns (r: int)
      requires Valid()
      ensures -1 <= r < elemNo
      ensures r == FirstIndex(Contents(), matches)
    {
      for i := 0 to elemNo
        invariant FirstIndex(Contents(), matches) == IndexFrom(Contents(), matches, i)
      {
        if matches(data[i]) {
          return i;
        }
      }
      return -1;
    }

    /**
     * Deletes every element on which the predicate answers 1. The predicate sees each original element
     * exactly once, in reverse order, although deletions move elements during the iteration.
     */
    method RemoveIf(pred: Predicate<T>) returns (asked: seq<T>)
      requires Valid()
      modifies data, this`elemNo
      ensures Valid()
      ensures asked == Reverse(old(Contents()))
      ensures multiset(Contents()) == Kept(asked, pred)
    {
      ghost var original, kept := Contents(), [];
      var i := elemNo - 1;
      asked := [];
      RemovingBounds(original, pred);
      while i >= 0
        invariant Valid() && Removing(original, Contents(), i, asked, kept, pred)
      {
        RemoveStep(original, Contents(), i, asked, kept, pred);
        var x := data[i];
        kept := if pred(|asked|, x) == 1 then Rotate(kept) else [x] + kept;
        if pred(|asked|, x) == 1 {
          Del(i);
        }
        asked := asked + [x];
        i := i - 1;
      }
      RemovingEnds(original, Contents(), asked, kept, pred);
    }
  }

  // ---------------------------------------------------------------------------------------------
  // What the methods compute

  function SwapDelete<T>(s: seq<T>, k: nat): (r: seq<T>)
    requires k < |s|
  {
    s[k := s[|s| - 1]][..|s| - 1]
  }

  function IndexFrom<T>(s: seq<T>, matches: T -> bool, i: nat): (r: int)
    requires i <= |s|
    ensures r == -1 || i <= r < |s|
    ensures r == -1 ==> forall k :: i <= k < |s| ==> !matches(s[k])
    ensures r != -1 ==> matches(s[r]) && forall k :: i <= k < r ==> !matches(s[k])
    decreases |s| - i
  {
    if i == |s| then -1 else if matches(s[i]) then i else IndexFrom(s, matches, i + 1)
  }

  function FirstIndex<T>(s: seq<T>, matches: T -> bool): (r: int)
    ensures -1 <= r < |s|
    ensures r == -1 ==> forall k :: 0 <= k < |s| ==> !matches(s[k])
    ensures r != -1 ==> matches(s[r]) && forall k :: 0 <= k < r ==> !matches(s[k])
  {
    IndexFrom(s, matches, 0)
  }

  ghost function Reverse<T>(s: seq<T>): (r: seq<T>)
    ensures |r| == |s|
  {
    if s == [] then [] else Reverse(s[1..]) + [s[0]]
  }

  lemma {:induction false} ReverseAt<T>(s: seq<T>, k: nat)
    requires k < |s|
    ensures Reverse(s)[k] == s[|s| - 1 - k]
  {
    if k < |s| - 1 {
      ReverseAt(s[1..], k);
    }
  }

  /** The multiset of values whose call was not answered with 1. */
  ghost function Kept<T>(asked: seq<T>, pred: Predicate<T>): (m: multiset<T>)
  {
    if asked == [] then multiset{}
    else
      var n := |asked| - 1;
      Kept(asked[..n], pred) + if pred(n, asked[n]) == 1 then multiset{} else multiset{asked[n]}
  }

  lemma KeptSnoc<T>(asked: seq<T>, x: T, pred: Predicate<T>)
    ensures Kept(asked + [x], pred)
         == Kept(asked, pred) + if pred(|asked|, x) == 1 then multiset{} else multiset{x}
  {
    assert (asked + [x])[..|asked|] == asked;
  }

  /** For a predicate on the value alone: exactly the values it rejects go, all others stay. */
  lemma {:induction false} KeptByValue<T>(s: seq<T>, removes: T -> bool, pred: Predicate<T>)
    requires forall n, x :: pred(n, x) == 1 <==> removes(x)
    ensures forall x :: Kept(s, pred)[x] == if removes(x) then 0 else multiset(s)[x]
  {
    if s != [] {
      var n := |s| - 1;
      KeptByValue(s[..n], removes, pred);
      assert s == s[..n] + [s[n]];
    }
  }

  lemma {:induction false} ReversePermutes<T>(s: seq<T>)
    ensures multiset(Reverse(s)) == multiset(s)
  {
    if s != [] {
      ReversePermutes(s[1..]);
      assert s == [s[0]] + s[1..];
    }
  }

  /** The removal loop in front of position i: what is left of the vector, and what was asked. */
  ghost predicate Removing<T>(original: seq<T>, s: seq<T>, i: int, asked: seq<T>, kept: seq<T>, pred: Predicate<T>)
  {
    && -1 <= i < |original|
    && s == original[..i + 1] + kept
    && asked == Reverse(original[i + 1..])
    && multiset(kept) == Kept(asked, pred)
  }

  lemma RemovingBounds<T>(original: seq<T>, pred: Predicate<T>)
    ensures Removing(original, original, |original| - 1, [], [], pred)
  {
    assert original == original[..|original|] + [];
  }

  lemma RemovingEnds<T>(original: seq<T>, s: seq<T>, asked: seq<T>, kept: seq<T>, pred: Predicate<T>)
    requires Removing(original, s, -1, asked, kept, pred)
    ensures asked == Reverse(original) && multiset(s) == Kept(asked, pred)
  {
    assert original[0..] == original && s == kept;
  }

  lemma RemoveStep<T>(original: seq<T>, s: seq<T>, i: nat, asked: seq<T>, kept: seq<T>, pred: Predicate<T>)
    requires Removing(original, s, i, asked, kept, pred)
    ensures i < |s| && s[i] == original[i]
    ensures if pred(|asked|, s[i]) == 1
            then Removing(original, SwapDelete(s, i), i - 1, asked + [s[i]], Rotate(kept), pred)
            else Removing(original, s, i - 1, asked + [s[i]], [s[i]] + kept, pred)
  {
    var head, x := original[..i], original[i];
    assert original[..i + 1] == head + [x];
    assert s == head + [x] + kept && s == head + ([x] + kept);
    ReverseStep(original, i);
    KeptSnoc(asked, x, pred);
    if pred(|asked|, x) == 1 {
      SwapDeleteInside(head, x, kept);
    }
  }

  lemma ReverseStep<T>(s: seq<T>, i: nat)
    requires i < |s|
    ensures Reverse(s[i..]) == Reverse(s[i + 1..]) + [s[i]]
  {
    assert s[i..][1..] == s[i + 1..];
  }

  /** The last element moved to the front, which is what a deletion by swapping does to the elements behind. */
  function Rotate<T>(s: seq<T>): (r: seq<T>)
  {
    if s == [] then [] else [s[|s| - 1]] + s[..|s| - 1]
  }

  lemma SwapDeleteInside<T>(head: seq<T>, x: T, tail: seq<T>)
    ensures SwapDelete(head + [x] + tail, |head|) == head + Rotate(tail)
    ensures multiset(Rotate(tail)) == multiset(tail)
  {
    if tail != [] {
      assert tail == tail[..|tail| - 1] + [tail[|tail| - 1]];
    }
  }
}
