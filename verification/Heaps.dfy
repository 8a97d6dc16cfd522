/** Go's container/heap on a slice: the parent of index k is (k - 1) / 2 and
    comes first under `le`. Slices are values; the caller reassigns its field. */
module Heaps {
  import opened Sorting

  function Parent(k: nat): (p: nat)
    requires k > 0
    ensures p < k
  {
    (k - 1) / 2
  }

  ghost predicate IsHeap<T>(le: (T, T) -> bool, h: seq<T>) {
    forall k {:trigger h[k]} | 0 < k < |h| :: le(h[Parent(k)], h[k])
  }

  /** Only the element at `hole` may come before its parent, and even then the
      parent of `hole` comes before the children of `hole`. */
  ghost predicate HeapExceptUp<T>(le: (T, T) -> bool, h: seq<T>, hole: nat) {
    forall k {:trigger h[k]} | 0 < k < |h| ::
      && (k != hole ==> le(h[Parent(k)], h[k]))
      && (Parent(k) == hole && 0 < hole ==> le(h[Parent(hole)], h[k]))
  }

  /** Only the children of `hole` may come before it, and even then they come
      after the parent of `hole`. */
  ghost predicate HeapExceptDown<T>(le: (T, T) -> bool, h: seq<T>, hole: nat) {
    forall k {:trigger h[k]} | 0 < k < |h| ::
      && (Parent(k) != hole ==> le(h[Parent(k)], h[k]))
      && (Parent(k) == hole && 0 < hole ==> le(h[Parent(hole)], h[k]))
  }

  function Swap<T>(h: seq<T>, i: nat, j: nat): (r: seq<T>)
    requires i < |h| && j < |h|
    ensures |r| == |h| && multiset(r) == multiset(h)
  {
    h[i := h[j]][j := h[i]]
  }

  lemma UpStep<T(!new)>(le: (T, T) -> bool, h: seq<T>, j: nat)
    requires TotalPreorder(le) && 0 < j < |h| && HeapExceptUp(le, h, j)
    requires !le(h[Parent(j)], h[j])
    ensures HeapExceptUp(le, Swap(h, Parent(j), j), Parent(j))
  {
    var i := Parent(j);
    var r := Swap(h, i, j);
    assert le(h[j], h[i]);
    forall k | 0 < k < |r|
      ensures k != i ==> le(r[Parent(k)], r[k])
      ensures Parent(k) == i && 0 < i ==> le(r[Parent(i)], r[k])
    {
      var p := Parent(k);
      assert h[k] == h[k] && h[j] == h[j] && h[i] == h[i];
      if 0 < i {
        assert le(h[Parent(i)], h[i]);
      }
    }
  }

  lemma DownStep<T(!new)>(le: (T, T) -> bool, h: seq<T>, i: nat, j: nat)
    requires TotalPreorder(le) && 0 < j < |h| && Parent(j) == i && HeapExceptDown(le, h, i)
    requires !le(h[i], h[j])
    requires forall k | 0 < k < |h| && Parent(k) == i :: le(h[j], h[k])
    ensures HeapExceptDown(le, Swap(h, i, j), j)
  {
    var r := Swap(h, i, j);
    assert le(h[j], h[i]);
    forall k | 0 < k < |r|
      ensures Parent(k) != j ==> le(r[Parent(k)], r[k])
      ensures Parent(k) == j ==> le(r[Parent(j)], r[k])
    {
      var p := Parent(k);
      assert h[k] == h[k] && h[j] == h[j] && h[i] == h[i];
    }
  }

  /** The child picked by heap.down comes before its sibling. */
  lemma ChildBound<T(!new)>(le: (T, T) -> bool, h: seq<T>, i: nat, j: nat)
    requires TotalPreorder(le) && 0 < j < |h| && Parent(j) == i
    requires j == 2 * i + 1 ==> j + 1 < |h| ==> le(h[j], h[j + 1])
    requires j == 2 * i + 2 ==> le(h[j], h[j - 1])
    ensures forall k | 0 < k < |h| && Parent(k) == i :: le(h[j], h[k])
  {
    assert le(h[j], h[j]);
  }

  /** The root of a heap comes first among all its elements. */
  lemma {:induction false} RootIsFirst<T(!new)>(le: (T, T) -> bool, h: seq<T>, k: nat)
    requires TotalPreorder(le) && IsHeap(le, h) && k < |h|
    ensures le(h[0], h[k])
  {
    if k > 0 {
      RootIsFirst(le, h, Parent(k));
    }
  }

  /** heap.up: moves the element at `start` towards the root. */
  method SiftUp<T(!new)>(le: (T, T) -> bool, h: seq<T>, start: nat) returns (r: seq<T>)
    requires TotalPreorder(le) && start < |h| && HeapExceptUp(le, h, start)
    ensures IsHeap(le, r) && multiset(r) == multiset(h)
  {
    r := h;
    var j: nat := start;
    while j > 0 && !le(r[Parent(j)], r[j])
      invariant j < |r| == |h| && HeapExceptUp(le, r, j) && multiset(r) == multiset(h)
    {
      UpStep(le, r, j);
      r, j := Swap(r, Parent(j), j), Parent(j);
    }
  }

  /** heap.down: moves the element at `start` towards the leaves. */
  method SiftDown<T(!new)>(le: (T, T) -> bool, h: seq<T>, start: nat) returns (r: seq<T>)
    requires TotalPreorder(le) && start < |h| && HeapExceptDown(le, h, start)
    ensures IsHeap(le, r) && multiset(r) == multiset(h)
  {
    r := h;
    var i: nat := start;
    while 2 * i + 1 < |r|
      invariant i < |r| == |h| && HeapExceptDown(le, r, i) && multiset(r) == multiset(h)
    {
      var j: nat := 2 * i + 1;
      if j + 1 < |r| && !le(r[j], r[j + 1]) {
        j := j + 1;
      }
      ChildBound(le, r, i, j);
      if le(r[i], r[j]) {
        return;
      }
      DownStep(le, r, i, j);
      r, i := Swap(r, i, j), j;
    }
  }

  /** heap.Push. */
  method Push<T(!new)>(le: (T, T) -> bool, h: seq<T>, x: T) returns (r: seq<T>)
    requires TotalPreorder(le) && IsHeap(le, h)
    ensures IsHeap(le, r) && multiset(r) == multiset(h) + multiset{x}
  {
    r := SiftUp(le, h + [x], |h|);
  }

  /** heap.Pop: removes the root, which comes before everything that stays. */
  method Pop<T(!new)>(le: (T, T) -> bool, h: seq<T>) returns (x: T, r: seq<T>)
    requires TotalPreorder(le) && IsHeap(le, h) && h != []
    ensures IsHeap(le, r) && multiset(h) == multiset(r) + multiset{x}
    ensures forall y | y in h :: le(x, y)
  {
    var n := |h| - 1;
    x := h[0];
    forall k | 0 <= k < |h| ensures le(x, h[k]) { RootIsFirst(le, h, k); }
    var swapped := Swap(h, 0, n);
    assert swapped == swapped[..n] + [x];
    r := swapped[..n];
    if n > 0 {
      r := SiftDown(le, r, 0);
    }
  }

  /** items[0] = x followed by heap.Fix(items, 0). */
  method ReplaceRoot<T(!new)>(le: (T, T) -> bool, h: seq<T>, x: T) returns (r: seq<T>)
    requires TotalPreorder(le) && IsHeap(le, h) && h != []
    ensures IsHeap(le, r) && multiset(r) + multiset{h[0]} == multiset(h) + multiset{x}
  {
    RootReplaced(h, x);
    r := SiftDown(le, h[0 := x], 0);
  }

  lemma RootReplaced<T>(h: seq<T>, x: T)
    requires h != []
    ensures multiset(h[0 := x]) + multiset{h[0]} == multiset(h) + multiset{x}
  {
    assert h == [h[0]] + h[1..];
    assert h[0 := x] == [x] + h[1..];
  }
}
