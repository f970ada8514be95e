/**
 * The array-backed binary heap of the engine: the two candidate heaps of the
 * graph search and the expiry heap are this heap with different keys.  The
 * element with the smallest key is at the root; a heap with the largest score
 * at the root uses the negated score as its key.
 */
module BinaryHeap {

  function Parent(i: int): int
    requires 1 <= i
  {
    (i - 1) / 2
  }

  /** Element `i` has no smaller key than its parent. */
  predicate InOrder<T>(key: T -> real, h: seq<T>, i: int)
    requires 1 <= i < |h|
  {
    key(h[Parent(i)]) <= key(h[i])
  }

  /** Element `i`, a child of `hole`, has no smaller key than the parent of `hole`. */
  predicate InOrderAcross<T>(key: T -> real, h: seq<T>, hole: int, i: int)
    requires 1 <= hole < |h| && 1 <= i < |h|
  {
    Parent(i) == hole ==> key(h[Parent(hole)]) <= key(h[i])
  }

  ghost predicate IsHeap<T>(key: T -> real, h: seq<T>)
  {
    forall i :: 1 <= i < |h| ==> InOrder(key, h, i)
  }

  /** Heap order everywhere, except that element `hole` may be smaller than its
      parent; the children of `hole` are ordered with respect to its parent. */
  ghost predicate HeapExceptAbove<T>(key: T -> real, h: seq<T>, hole: int)
    requires 0 <= hole < |h|
  {
    && (forall i :: 1 <= i < |h| && i != hole ==> InOrder(key, h, i))
    && (hole > 0 ==> forall i :: 1 <= i < |h| ==> InOrderAcross(key, h, hole, i))
  }

  /** Heap order everywhere, except that element `hole` may be larger than its
      children; those are ordered with respect to the parent of `hole`. */
  ghost predicate HeapExceptBelow<T>(key: T -> real, h: seq<T>, hole: int)
    requires 0 <= hole < |h|
  {
    && (forall i :: 1 <= i < |h| && Parent(i) != hole ==> InOrder(key, h, i))
    && (hole > 0 ==> forall i :: 1 <= i < |h| ==> InOrderAcross(key, h, hole, i))
  }

  /** Exchanging two positions is a permutation. */
  lemma SwapPermutes<T>(h: seq<T>, i: int, j: int)
    requires 0 <= i < |h| && 0 <= j < |h|
    ensures multiset(h[i := h[j]][j := h[i]]) == multiset(h)
  {
  }

  /** The root of a heap has the smallest key of all. */
  lemma {:induction false} RootIsLeast<T>(key: T -> real, h: seq<T>, i: int)
    requires IsHeap(key, h)
    requires 0 <= i < |h|
    ensures key(h[0]) <= key(h[i])
    decreases i
  {
    if i > 0 {
      RootIsLeast(key, h, Parent(i));
      assert InOrder(key, h, i);
    }
  }

  /** Moving the hole's larger parent down moves the hole to the parent. */
  lemma SiftUpStep<T>(key: T -> real, h: seq<T>, i: int, p: int, swapped: seq<T>)
    requires 1 <= i < |h| && p == Parent(i)
    requires HeapExceptAbove(key, h, i) && key(h[i]) < key(h[p])
    requires swapped == h[p := h[i]][i := h[p]]
    ensures HeapExceptAbove(key, swapped, p)
  {
    forall c | 1 <= c < |h| && c != p
      ensures InOrder(key, swapped, c)
    {
      if c != i {
        assert InOrder(key, h, c);
        assert InOrderAcross(key, h, i, c);
      }
    }
    if p > 0 {
      assert InOrder(key, h, p);
      forall c | 1 <= c < |h|
        ensures InOrderAcross(key, swapped, p, c)
      {
        if c != i {
          assert InOrder(key, h, c);
        }
      }
    }
  }

  lemma SiftUpDone<T>(key: T -> real, h: seq<T>, i: int)
    requires 0 <= i < |h| && HeapExceptAbove(key, h, i)
    requires i > 0 ==> InOrder(key, h, i)
    ensures IsHeap(key, h)
  {
  }

  method SiftUp<T>(key: T -> real, start: seq<T>, k: nat) returns (h: seq<T>)
    requires k < |start|
    requires HeapExceptAbove(key, start, k)
    ensures IsHeap(key, h)
    ensures multiset(h) == multiset(start)
  {
    hide HeapExceptAbove, IsHeap;
    h := start;
    var i := k;
    while i > 0
      invariant 0 <= i < |h| == |start|
      invariant HeapExceptAbove(key, h, i)
      invariant multiset(h) == multiset(start)
    {
      var p := Parent(i);
      if key(h[p]) <= key(h[i]) {
        break;
      }
      SwapPermutes(h, p, i);
      SiftUpStep(key, h, i, p, h[p := h[i]][i := h[p]]);
      h := h[p := h[i]][i := h[p]];
      i := p;
    }
    SiftUpDone(key, h, i);
  }

  /** Moving the smaller child `j` up into the hole moves the hole to `j`. */
  lemma SiftDownStep<T>(key: T -> real, h: seq<T>, i: int, j: int, swapped: seq<T>)
    requires 0 <= i < j < |h|
    requires j == 2 * i + 1 || j == 2 * i + 2
    requires HeapExceptBelow(key, h, i)
    requires key(h[j]) <= key(h[2 * i + 1])
    requires 2 * i + 2 < |h| ==> key(h[j]) <= key(h[2 * i + 2])
    requires key(h[j]) < key(h[i])
    requires swapped == h[i := h[j]][j := h[i]]
    ensures HeapExceptBelow(key, swapped, j)
  {
    forall c | 1 <= c < |h| && Parent(c) != j
      ensures InOrder(key, swapped, c)
    {
      if Parent(c) == i {
        assert c == 2 * i + 1 || c == 2 * i + 2;
      } else if c == i {
        assert InOrderAcross(key, h, i, j);
      } else {
        assert InOrder(key, h, c);
      }
    }
    forall c | 1 <= c < |h|
      ensures InOrderAcross(key, swapped, j, c)
    {
      if Parent(c) == j {
        assert InOrder(key, h, c);
      }
    }
  }

  /** A hole no larger than its children is no hole. */
  lemma SiftDownDone<T>(key: T -> real, h: seq<T>, i: int)
    requires 0 <= i < |h|
    requires HeapExceptBelow(key, h, i)
    requires 2 * i + 1 < |h| ==> key(h[i]) <= key(h[2 * i + 1])
    requires 2 * i + 2 < |h| ==> key(h[i]) <= key(h[2 * i + 2])
    ensures IsHeap(key, h)
  {
    forall c | 1 <= c < |h|
      ensures InOrder(key, h, c)
    {
      if Parent(c) == i {
        assert c == 2 * i + 1 || c == 2 * i + 2;
      }
    }
  }

  method SiftDown<T>(key: T -> real, start: seq<T>) returns (h: seq<T>)
    requires |start| > 0
    requires HeapExceptBelow(key, start, 0)
    ensures IsHeap(key, h)
    ensures multiset(h) == multiset(start)
  {
    hide HeapExceptBelow, IsHeap;
    h := start;
    var i := 0;
    while true
      invariant 0 <= i < |h| == |start|
      invariant HeapExceptBelow(key, h, i)
      invariant multiset(h) == multiset(start)
      decreases |start| - i
    {
      var l := 2 * i + 1;
      if l >= |h| {
        SiftDownDone(key, h, i);
        break;
      }
      var j := l;
      var r := l + 1;
      if r < |h| && key(h[r]) < key(h[l]) {
        j := r;
      }
      if key(h[i]) <= key(h[j]) {
        SiftDownDone(key, h, i);
        break;
      }
      SwapPermutes(h, i, j);
      SiftDownStep(key, h, i, j, h[i := h[j]][j := h[i]]);
      h := h[i := h[j]][j := h[i]];
      i := j;
    }
  }

  lemma AppendedExceptAbove<T>(key: T -> real, h: seq<T>, x: T)
    requires IsHeap(key, h)
    ensures HeapExceptAbove(key, h + [x], |h|)
  {
    forall c | 1 <= c < |h|
      ensures InOrder(key, h + [x], c)
    {
      assert InOrder(key, h, c);
    }
  }

  /** The last element takes the root's place. */
  lemma ReplacedExceptBelow<T>(key: T -> real, h: seq<T>, x: T, r: seq<T>)
    requires IsHeap(key, h) && 2 <= |h| && r == h[..|h| - 1][0 := x]
    ensures HeapExceptBelow(key, r, 0)
  {
    forall c | 1 <= c < |r| && Parent(c) != 0
      ensures InOrder(key, r, c)
    {
      assert InOrder(key, h, c);
    }
  }

  method Push<T>(key: T -> real, h: seq<T>, x: T) returns (r: seq<T>)
    requires IsHeap(key, h)
    ensures IsHeap(key, r)
    ensures multiset(r) == multiset(h) + multiset{x}
  {
    AppendedExceptAbove(key, h, x);
    r := SiftUp(key, h + [x], |h|);
  }

  /** Removes the root, which is a least element. */
  method Pop<T>(key: T -> real, h: seq<T>) returns (x: T, r: seq<T>)
    requires IsHeap(key, h)
    requires |h| > 0
    ensures IsHeap(key, r)
    ensures multiset(h) == multiset(r) + multiset{x}
    ensures x == h[0]
    ensures forall y :: y in h ==> key(x) <= key(y)
  {
    x := h[0];
    var last := h[|h| - 1];
    r := h[..|h| - 1];
    assert h == r + [last];
    if |r| > 0 {
      assert r[0] == h[0];
      assert multiset(r[0 := last]) == multiset(r) - multiset{x} + multiset{last};
      ReplacedExceptBelow(key, h, last, r[0 := last]);
      r := SiftDown(key, r[0 := last]);
    }
    forall y | y in h
      ensures key(x) <= key(y)
    {
      var i :| 0 <= i < |h| && h[i] == y;
      RootIsLeast(key, h, i);
    }
  }
}
