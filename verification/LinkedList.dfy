/**
 * Intrusive singly linked lists (src/libxively/datastructures/xi_list.h). A list is its first node; the
 * operations rewrite `next` pointers in place and return the new first node.
 */
module LinkedList {

  class Node<T> {
    const value: T
    var next: Node?<T>

    constructor (value: T)
      ensures this.value == value && next == null
    {
      this.value := value;
      next := null;
    }
  }

  /** The k-th node, or what comes after the last one. */
  ghost function NodeAt<T>(s: seq<Node<T>>, k: nat, end: Node?<T>): (n: Node?<T>)
  {
    if k < |s| then s[k] else end
  }

  /** Each node points to its successor in the sequence, and the last one points to `end`. */
  ghost predicate Linked<T>(s: seq<Node<T>>, end: Node?<T>)
    reads s
  {
    forall k :: 0 <= k < |s| ==> s[k].next == NodeAt(s, k + 1, end)
  }

  ghost predicate Distinct<T>(s: seq<Node<T>>)
  {
    forall i, j :: 0 <= i < j < |s| ==> s[i] != s[j]
  }

  /** The null-terminated list that starts at `head` consists of exactly these nodes, in this order. */
  ghost predicate IsList<T>(head: Node?<T>, s: seq<Node<T>>)
    reads s
  {
    head == NodeAt(s, 0, null) && Linked(s, null) && Distinct(s)
  }

  ghost predicate Apart<T>(s: seq<Node<T>>, t: seq<Node<T>>)
  {
    forall x :: x in s ==> x !in t
  }

  /** Appends a node, or a chain of nodes. */
  method PushBack<T>(list: Node?<T>, elem: Node<T>, ghost s: seq<Node<T>>, ghost chain: seq<Node<T>>)
    returns (list': Node?<T>)
    requires IsList(list, s) && IsList(elem, chain) && Apart(s, chain)
    modifies s
    ensures IsList(list', s + chain)
  {
    if list == null {
      assert s + chain == chain;
      return elem;
    }
    var prev, curr := list, list.next;
    ghost var k := 0;
    while curr != null
      invariant 0 <= k < |s| && prev == s[k] && curr == NodeAt(s, k + 1, null)
      decreases |s| - k
      modifies {}
    {
      prev := curr;
      curr := curr.next;
      k := k + 1;
    }
    prev.next := elem;
    forall i | 0 <= i < |s + chain|
      ensures (s + chain)[i].next == NodeAt(s + chain, i + 1, null)
    {
      assert i >= |s| ==> (s + chain)[i] == chain[i - |s|] && chain[i - |s|] !in s;
    }
    assert forall i, j :: 0 <= i < |s| <= j < |s + chain| ==> s[i] in s && (s + chain)[j] in chain;
    return list;
  }

  /** Takes the first node of a non-empty list and detaches it. */
  method Pop<T>(list: Node<T>, ghost s: seq<Node<T>>) returns (list': Node?<T>, out: Node<T>)
    requires IsList(list, s)
    modifies list
    ensures s != [] && out == list && out.next == null && IsList(list', s[1..])
  {
    out := list;
    list' := out.next;
    assert list' == NodeAt(s, 1, null);
    out.next := null;
    forall k | 0 <= k < |s[1..]|
      ensures s[1..][k].next == NodeAt(s[1..], k + 1, null)
    {
      assert s[1..][k] == s[k + 1];
    }
  }

  /** Detaches a node wherever it is in the list; a node that is not in the list is left alone. */
  method Drop<T>(list: Node?<T>, elem: Node<T>, ghost s: seq<Node<T>>) returns (list': Node?<T>, ghost k: int)
    requires IsList(list, s)
    modifies s, elem
    ensures -1 <= k < |s| && (k == -1 <==> elem !in s)
    ensures k >= 0 ==> elem == s[k] && elem.next == null && IsList(list', s[..k] + s[k + 1..])
    ensures k == -1 ==> IsList(list', s) && elem.next == old(elem.next)
  {
    var prev, curr := list, list;
    ghost var i := 0;
    while curr != null && curr != elem
      invariant 0 <= i <= |s| && curr == NodeAt(s, i, null)
      invariant prev == if i == 0 then curr else s[i - 1]
      invariant elem !in s[..i]
      decreases |s| - i
      modifies {}
    {
      prev := curr;
      curr := curr.next;
      i := i + 1;
    }
    list', k := list, -1;
    if curr == elem {
      assert i < |s| && s[i] == elem && (i > 0 ==> s[i - 1] != s[i]);
      k := i;
      list' := CutOut(list, elem, if prev == curr then null else prev, s, k);
    }
  }

  method CutOut<T>(list: Node?<T>, elem: Node<T>, prev: Node?<T>, ghost s: seq<Node<T>>, ghost i: nat)
    returns (list': Node?<T>)
    requires IsList(list, s) && i < |s| && elem == s[i] && prev == if i == 0 then null else s[i - 1]
    modifies {prev, elem} - {null}
    ensures elem.next == null && IsList(list', s[..i] + s[i + 1..])
  {
    list' := list;
    if prev == null {
      list' := elem.next;
    } else {
      prev.next := elem.next;
    }
    elem.next := null;
    assert forall j :: 0 <= j < i - 1 ==> s[j] != elem && s[j] != prev && s[j].next == s[j + 1];
    assert forall j :: i < j < |s| ==> s[j] != elem && s[j] != prev && s[j].next == NodeAt(s, j + 1, null);
    Spliced(list', s, i);
  }

  lemma Spliced<T>(list: Node?<T>, s: seq<Node<T>>, i: nat)
    requires i < |s| && Distinct(s)
    requires list == if i == 0 then NodeAt(s, 1, null) else s[0]
    requires forall j :: 0 <= j < i - 1 ==> s[j].next == s[j + 1]
    requires forall j :: i < j < |s| ==> s[j].next == NodeAt(s, j + 1, null)
    requires i > 0 ==> s[i - 1].next == NodeAt(s, i + 1, null)
    ensures IsList(list, s[..i] + s[i + 1..])
  {
    var r := s[..i] + s[i + 1..];
    assert forall j {:trigger r[j]} :: 0 <= j < |r| ==> r[j] == s[if j < i then j else j + 1];
    SplicedLinks(s, r, i);
    SplicedDistinct(s, r, i);
  }

  lemma SplicedDistinct<T>(s: seq<Node<T>>, r: seq<Node<T>>, i: nat)
    requires i < |s| && |r| == |s| - 1 && Distinct(s)
    requires forall j {:trigger r[j]} :: 0 <= j < |r| ==> r[j] == s[if j < i then j else j + 1]
    ensures Distinct(r)
  {
  }

  lemma SplicedLinks<T>(s: seq<Node<T>>, r: seq<Node<T>>, i: nat)
    requires i < |s| && |r| == |s| - 1
    requires forall j {:trigger r[j]} :: 0 <= j < |r| ==> r[j] == s[if j < i then j else j + 1]
    requires forall j :: 0 <= j < i - 1 ==> s[j].next == s[j + 1]
    requires forall j :: i < j < |s| ==> s[j].next == NodeAt(s, j + 1, null)
    requires i > 0 ==> s[i - 1].next == NodeAt(s, i + 1, null)
    ensures Linked(r, null)
  {
    forall j | 0 <= j < |r|
      ensures r[j].next == NodeAt(r, j + 1, null)
    {
      if j >= i {
        assert r[j] == s[j + 1] && s[j + 1].next == NodeAt(s, (j + 1) + 1, null);
        assert j + 1 < |r| ==> r[j + 1] == s[j + 2];
      } else if j == i - 1 {
        assert r[j] == s[i - 1];
        assert i < |r| ==> r[i] == s[i + 1];
      } else {
        assert r[j] == s[j] && r[j + 1] == s[j + 1];
      }
    }
  }

  // ---------------------------------------------------------------------------------------------
  // Splitting a list by a predicate on nodes and their positions

  type Pick<!T> = (T, nat) -> int

  /** The nodes among the first n for which the predicate answers 1 at their original position. */
  ghost function Picked<T>(s: seq<Node<T>>, pred: Pick<T>, n: nat): (r: seq<Node<T>>)
    requires n <= |s|
  {
    if n == 0 then []
    else if pred(s[n - 1].value, n - 1) == 1 then Picked(s, pred, n - 1) + [s[n - 1]]
    else Picked(s, pred, n - 1)
  }

  ghost function Left<T>(s: seq<Node<T>>, pred: Pick<T>, n: nat): (r: seq<Node<T>>)
    requires n <= |s|
  {
    if n == 0 then []
    else if pred(s[n - 1].value, n - 1) == 1 then Left(s, pred, n - 1)
    else Left(s, pred, n - 1) + [s[n - 1]]
  }

  /** What `out` holds: its old first node, if any, and then the picked nodes; without any, it is unchanged. */
  ghost function OutNodes<T>(out: seq<Node<T>>, picked: seq<Node<T>>): (r: seq<Node<T>>)
  {
    if picked == [] then out else (if out == [] then [] else [out[0]]) + picked
  }

  lemma {:induction false} PickedMembers<T>(s: seq<Node<T>>, pred: Pick<T>, n: nat)
    requires n <= |s|
    ensures forall x :: x in Picked(s, pred, n) ==> x in s[..n]
  {
    if n > 0 {
      PickedMembers(s, pred, n - 1);
      assert s[..n] == s[..n - 1] + [s[n - 1]];
    }
  }

  lemma {:induction false} LeftMembers<T>(s: seq<Node<T>>, pred: Pick<T>, n: nat)
    requires n <= |s|
    ensures forall x :: x in Left(s, pred, n) ==> x in s[..n]
  {
    if n > 0 {
      LeftMembers(s, pred, n - 1);
      assert s[..n] == s[..n - 1] + [s[n - 1]];
    }
  }

  lemma AppendDistinct<T>(s: seq<Node<T>>, x: Node<T>)
    requires Distinct(s) && x !in s
    ensures Distinct(s + [x])
  {
  }

  lemma {:induction false} HalvesDistinct<T>(s: seq<Node<T>>, pred: Pick<T>, n: nat)
    requires n <= |s| && Distinct(s)
    ensures Distinct(Picked(s, pred, n)) && Distinct(Left(s, pred, n))
    ensures Apart(Left(s, pred, n), Picked(s, pred, n))
  {
    if n > 0 {
      PickedMembers(s, pred, n - 1);
      LeftMembers(s, pred, n - 1);
      HalvesDistinct(s, pred, n - 1);
      assert s[n - 1] !in s[..n - 1];
      if pred(s[n - 1].value, n - 1) == 1 {
        AppendDistinct(Picked(s, pred, n - 1), s[n - 1]);
      } else {
        AppendDistinct(Left(s, pred, n - 1), s[n - 1]);
      }
    }
  }

  /** No node is lost or created: the two halves together are the original nodes. */
  lemma {:induction false} HalvesPartition<T>(s: seq<Node<T>>, pred: Pick<T>, n: nat)
    requires n <= |s|
    ensures multiset(Picked(s, pred, n)) + multiset(Left(s, pred, n)) == multiset(s[..n])
  {
    if n > 0 {
      var p, l, x := Picked(s, pred, n - 1), Left(s, pred, n - 1), s[n - 1];
      HalvesPartition(s, pred, n - 1);
      assert s[..n] == s[..n - 1] + [x];
      OneMore(p, l, s[..n - 1], x);
    }
  }

  lemma OneMore<A>(p: seq<A>, l: seq<A>, all: seq<A>, x: A)
    requires multiset(p) + multiset(l) == multiset(all)
    ensures multiset(p + [x]) + multiset(l) == multiset(all + [x])
    ensures multiset(p) + multiset(l + [x]) == multiset(all + [x])
  {
    Snoc(p, x);
    Snoc(l, x);
    Snoc(all, x);
  }

  /** Each picked node sits in the output behind exactly the nodes picked before it: the original order is kept. */
  lemma {:induction false} PickedKeepsOrder<T>(s: seq<Node<T>>, pred: Pick<T>, n: nat, i: nat)
    requires i < n <= |s|
    ensures pred(s[i].value, i) == 1 ==>
              |Picked(s, pred, i)| < |Picked(s, pred, n)| && Picked(s, pred, n)[|Picked(s, pred, i)|] == s[i]
    ensures pred(s[i].value, i) != 1 ==>
              |Left(s, pred, i)| < |Left(s, pred, n)| && Left(s, pred, n)[|Left(s, pred, i)|] == s[i]
    ensures |Picked(s, pred, i)| + |Left(s, pred, i)| == i
  {
    HalvesCount(s, pred, i);
    if i < n - 1 {
      PickedKeepsOrder(s, pred, n - 1, i);
    }
  }

  lemma {:induction false} HalvesCount<T>(s: seq<Node<T>>, pred: Pick<T>, n: nat)
    requires n <= |s|
    ensures |Picked(s, pred, n)| + |Left(s, pred, n)| == n
  {
    if n > 0 {
      HalvesCount(s, pred, n - 1);
    }
  }

  /** A split loses nodes iff something is picked while the output already has two nodes or more. */
  lemma SplitLosesNothing<T>(s: seq<Node<T>>, o: seq<Node<T>>, pred: Pick<T>)
    ensures var picked, left := Picked(s, pred, |s|), Left(s, pred, |s|);
            multiset(OutNodes(o, picked)) + multiset(left) == multiset(o) + multiset(s) <==> |o| <= 1 || picked == []
  {
    HalvesPartition(s, pred, |s|);
    assert s[..|s|] == s;
    Regrouped(o, Picked(s, pred, |s|), multiset(Left(s, pred, |s|)), multiset(s));
  }

  /** Otherwise the picked nodes are behind those that were there. */
  lemma PickedGoBehind<T>(o: seq<Node<T>>, picked: seq<Node<T>>)
    ensures OutNodes(o, picked) == o + picked <==> |o| <= 1 || picked == []
  {
    if 1 < |o| && picked != [] {
      assert |OutNodes(o, picked)| < |o + picked|;
    }
  }

  lemma Regrouped<T>(o: seq<Node<T>>, picked: seq<Node<T>>, left: multiset<Node<T>>, all: multiset<Node<T>>)
    requires multiset(picked) + left == all
    ensures multiset(OutNodes(o, picked)) + left == multiset(o) + all <==> |o| <= 1 || picked == []
  {
    var out := OutNodes(o, picked);
    if picked == [] || |o| <= 1 {
      assert out == if o == [] then picked else o + picked;
      assert multiset(out) == multiset(o) + multiset(picked);
    } else {
      assert |multiset(out) + left| < |multiset(o) + all|;
    }
  }

  lemma Snoc<A>(s: seq<A>, x: A)
    ensures multiset(s + [x]) == multiset(s) + multiset{x}
  {
  }

  /** Everything the loop knows about identities with n nodes behind it: nothing is in two places. */
  ghost predicate Separate<T>(s: seq<Node<T>>, o: seq<Node<T>>, left: seq<Node<T>>, picked: seq<Node<T>>, n: nat)
  {
    && Distinct(s) && Distinct(left) && Distinct(picked) && Distinct(OutNodes(o, picked))
    && Apart(left, picked) && Apart(left, o)
    && (forall k :: n <= k < |s| ==> s[k] !in left && s[k] !in picked && s[k] !in o)
  }

  lemma HalvesSeparate<T>(s: seq<Node<T>>, o: seq<Node<T>>, pred: Pick<T>, n: nat)
    requires n <= |s| && Distinct(s) && Distinct(o) && Apart(s, o)
    ensures Separate(s, o, Left(s, pred, n), Picked(s, pred, n), n)
    ensures forall x :: x in Left(s, pred, n) || x in Picked(s, pred, n) ==> x in s
  {
    var left, picked := Left(s, pred, n), Picked(s, pred, n);
    HalvesDistinct(s, pred, n);
    PickedMembers(s, pred, n);
    LeftMembers(s, pred, n);
    forall x | x in left || x in picked
      ensures x in s && x !in o
    {
      assert x in s[..n];
    }
    forall k | n <= k < |s|
      ensures s[k] !in left && s[k] !in picked && s[k] !in o
    {
      assert s[k] !in s[..n] && s[k] in s;
    }
    if picked != [] && o != [] {
      assert o[0] in o && o[0] !in picked;
    }
  }

  // The links among the nodes left behind, with the cursor as their end
  ghost predicate LeftLinked<T>(list: Node?<T>, prev: Node?<T>, left: seq<Node<T>>, curr: Node?<T>)
    reads left
  {
    && list == NodeAt(left, 0, curr) && Linked(left, curr)
    && prev == if left == [] then null else left[|left| - 1]
  }

  // The links among the nodes of the output
  ghost predicate OutLinked<T>(out: Node?<T>, outCurr: Node?<T>, o: seq<Node<T>>, picked: seq<Node<T>>)
    reads o, picked
  {
    && out == NodeAt(OutNodes(o, picked), 0, null) && Linked(OutNodes(o, picked), null)
    && outCurr == if picked == [] then out else picked[|picked| - 1]
  }

  // The links among the nodes still to be visited
  ghost predicate TailLinked<T>(curr: Node?<T>, s: seq<Node<T>>, n: nat)
    reads s
  {
    n <= |s| && curr == NodeAt(s, n, null) && forall k :: n <= k < |s| ==> s[k].next == NodeAt(s, k + 1, null)
  }

  method Unlink<T>(list: Node?<T>, curr: Node<T>, prev: Node?<T>, ghost left: seq<Node<T>>)
    returns (list': Node?<T>)
    requires LeftLinked(list, prev, left, curr) && Distinct(left) && curr !in left
    modifies {prev} - {null}
    ensures LeftLinked(list', prev, left, curr.next)
  {
    list' := list;
    if prev != null {
      prev.next := curr.next;
    } else {
      list' := curr.next;
    }
  }

  method AppendToOut<T>(out: Node?<T>, curr: Node<T>, outCurr: Node?<T>,
                        ghost o: seq<Node<T>>, ghost picked: seq<Node<T>>)
    returns (out': Node?<T>)
    requires OutLinked(out, outCurr, o, picked) && Distinct(OutNodes(o, picked))
    requires curr !in OutNodes(o, picked)
    modifies {outCurr} - {null}
    ensures var all := OutNodes(o, picked + [curr]);
            && out' == all[0] && all[|all| - 1] == curr
            && forall k :: 0 <= k < |all| - 1 ==> all[k].next == all[k + 1]
  {
    out' := out;
    ghost var before, all := OutNodes(o, picked), OutNodes(o, picked + [curr]);
    ghost var n := |all| - 1;
    assert picked != [] ==> all == before + [curr];
    assert forall k :: 0 <= k < n ==> all[k] == before[k] && all[k] != curr;
    assert n > 0 ==> all[n - 1] == outCurr;
    assert forall k :: 0 <= k < n - 1 ==> before[k].next == NodeAt(before, k + 1, null) && before[k] != outCurr;
    if outCurr != null {
      outCurr.next := curr;
    } else {
      out' := curr;
    }
    assert forall k :: 0 <= k < n - 1 ==> all[k].next == all[k + 1];
  }

  /** Moves the node under the cursor to the output; the cursor's link is read before it is cut. */
  method MoveToOut<T>(out: Node?<T>, curr: Node<T>, outCurr: Node?<T>, ghost o: seq<Node<T>>, ghost picked: seq<Node<T>>)
    returns (out': Node?<T>, curr': Node?<T>)
    requires OutLinked(out, outCurr, o, picked) && Distinct(OutNodes(o, picked))
    requires curr !in OutNodes(o, picked)
    modifies {curr, outCurr} - {null}
    ensures curr' == old(curr.next) && OutLinked(out', curr, o, picked + [curr])
  {
    ghost var all := OutNodes(o, picked + [curr]);
    assert outCurr != curr by { OutCursor(out, outCurr, o, picked); }
    out' := AppendToOut(out, curr, outCurr, o, picked);
    assert forall k :: 0 <= k < |all| - 1 ==> all[k] != curr by { OutGrows(o, picked, curr); }
    curr' := curr.next;
    curr.next := null;
  }

  lemma OutGrows<T>(o: seq<Node<T>>, picked: seq<Node<T>>, x: Node<T>)
    ensures var before, all := OutNodes(o, picked), OutNodes(o, picked + [x]);
            |all| > 0 && forall k :: 0 <= k < |all| - 1 ==> all[k] in before
  {
    var before, all := OutNodes(o, picked), OutNodes(o, picked + [x]);
    if picked != [] {
      assert all == before + [x];
    }
  }

  lemma OutCursor<T>(out: Node?<T>, outCurr: Node?<T>, o: seq<Node<T>>, picked: seq<Node<T>>)
    requires OutLinked(out, outCurr, o, picked)
    ensures outCurr != null ==> outCurr in OutNodes(o, picked)
  {
    if picked != [] {
      assert OutNodes(o, picked)[|OutNodes(o, picked)| - 1] == outCurr;
    }
  }

  /** Takes the node under the cursor out of the list and puts it at the end of the output. */
  method Move<T>(list: Node?<T>, out: Node?<T>, curr: Node<T>, prev: Node?<T>, outCurr: Node?<T>,
                 ghost left: seq<Node<T>>, ghost o: seq<Node<T>>, ghost picked: seq<Node<T>>)
    returns (list': Node?<T>, out': Node?<T>, curr': Node?<T>)
    requires LeftLinked(list, prev, left, curr) && Distinct(left)
    requires OutLinked(out, outCurr, o, picked) && Distinct(OutNodes(o, picked))
    requires Apart(left, OutNodes(o, picked)) && curr !in left && curr !in OutNodes(o, picked)
    modifies {curr, prev, outCurr} - {null}
    ensures curr' == old(curr.next)
    ensures LeftLinked(list', prev, left, curr') && OutLinked(out', curr, o, picked + [curr])
  {
    ghost var before := OutNodes(o, picked);
    assert prev != null ==> prev in left;
    assert forall k :: 0 <= k < |before| ==> before[k] in before && before[k] != prev;
    list' := Unlink(list, curr, prev, left);
    assert OutLinked(out, outCurr, o, picked);
    OutCursor(out, outCurr, o, picked);
    assert forall k :: 0 <= k < |left| ==> left[k] in left && left[k] != curr && left[k] != outCurr;
    out', curr' := MoveToOut(out, curr, outCurr, o, picked);
  }

  lemma OutMembers<T>(o: seq<Node<T>>, picked: seq<Node<T>>)
    ensures forall x :: x in OutNodes(o, picked) ==> x in picked || x in o
  {
  }

  /**
   * Splits a list by a predicate on nodes and positions: the list keeps the nodes that were not picked and
   * the output receives the picked ones, both in their original order and null-terminated. Of a non-empty
   * output only the first node stays in front of the picked nodes.
   */
  method SplitI<T>(list: Node?<T>, out: Node?<T>, pred: Pick<T>, ghost s: seq<Node<T>>, ghost o: seq<Node<T>>)
    returns (list': Node?<T>, out': Node?<T>)
    requires IsList(list, s) && IsList(out, o) && Apart(s, o)
    modifies s, o
    ensures IsList(list', Left(s, pred, |s|))
    ensures IsList(out', OutNodes(o, Picked(s, pred, |s|)))
  {
    list', out' := list, out;
    var curr, outCurr, prev: Node?<T> := list, out, null;
    var i := 0;
    assert OutNodes(o, []) == o;
    while curr != null
      invariant i <= |s| && Split(list', out', curr, prev, outCurr, s, o, pred, i)
      decreases |s| - i
    {
      list', out', curr, prev, outCurr := SplitStep(list', out', curr, prev, outCurr, pred, i, s, o);
      i := i + 1;
    }
    HalvesSeparate(s, o, pred, |s|);
  }

  /** The state of the loop with n nodes behind it. */
  ghost predicate Split<T>(list: Node?<T>, out: Node?<T>, curr: Node?<T>, prev: Node?<T>, outCurr: Node?<T>,
                           s: seq<Node<T>>, o: seq<Node<T>>, pred: Pick<T>, n: nat)
    requires n <= |s|
    reads s, o, Left(s, pred, n), Picked(s, pred, n)
  {
    && TailLinked(curr, s, n)
    && LeftLinked(list, prev, Left(s, pred, n), curr)
    && OutLinked(out, outCurr, o, Picked(s, pred, n))
  }

  method SplitStep<T>(list: Node?<T>, out: Node?<T>, curr: Node<T>, prev: Node?<T>, outCurr: Node?<T>,
                      pred: Pick<T>, i: nat, ghost s: seq<Node<T>>, ghost o: seq<Node<T>>)
    returns (list': Node?<T>, out': Node?<T>, curr': Node?<T>, prev': Node?<T>, outCurr': Node?<T>)
    requires Distinct(s) && Distinct(o) && Apart(s, o)
    requires i < |s| && Split(list, out, curr, prev, outCurr, s, o, pred, i)
    modifies s, o
    ensures Split(list', out', curr', prev', outCurr', s, o, pred, i + 1)
  {
    ghost var left, picked := Left(s, pred, i), Picked(s, pred, i);
    list', out', curr', prev', outCurr' := list, out, curr, prev, outCurr;
    HalvesSeparate(s, o, pred, i);
    if pred(curr.value, i) == 1 {
      CursorsAreNodes(prev, out, outCurr, s, o, left, picked, i);
      OutMembers(o, picked);
      OutCursor(out, outCurr, o, picked);
      assert forall k :: i < k < |s| ==> s[k] != curr && s[k] != prev && s[k] != outCurr;
      list', out', curr' := Move(list, out, curr, prev, outCurr, left, o, picked);
      outCurr' := curr;
    } else {
      LeaveInPlace(list, curr, prev, left);
      prev' := curr;
      curr' := curr.next;
    }
  }

  lemma CursorsAreNodes<T>(prev: Node?<T>, out: Node?<T>, outCurr: Node?<T>, s: seq<Node<T>>, o: seq<Node<T>>,
                           left: seq<Node<T>>, picked: seq<Node<T>>, n: nat)
    requires n < |s| && forall x :: x in left || x in picked ==> x in s
    requires prev == if left == [] then null else left[|left| - 1]
    requires OutLinked(out, outCurr, o, picked)
    ensures s[n] in s && (prev != null ==> prev in s) && (outCurr != null ==> outCurr in s || outCurr in o)
  {
  }

  lemma LeaveInPlace<T>(list: Node?<T>, curr: Node<T>, prev: Node?<T>, left: seq<Node<T>>)
    requires LeftLinked(list, prev, left, curr)
    ensures LeftLinked(list, curr, left + [curr], curr.next)
  {
    var all := left + [curr];
    forall k | 0 <= k < |all|
      ensures all[k].next == NodeAt(all, k + 1, curr.next)
    {
      assert k < |left| ==> all[k] == left[k];
    }
  }
}
