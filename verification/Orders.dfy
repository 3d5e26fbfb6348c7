/**
 Total preorders, and the contracts of Go's `container/heap` and `sort` packages:
 a heap is any arrangement of its elements with a least one in front.
 */
module Orders {

  /** `le` compares any two elements, and is transitive. */
  ghost predicate TotalPreorder<T(!new)>(le: (T, T) -> bool) {
    && (forall x, y :: le(x, y) || le(y, x))
    && (forall x, y, z :: le(x, y) && le(y, z) ==> le(x, z))
  }

  /** No element of `s` comes before its front. */
  ghost predicate FrontLeast<T>(s: seq<T>, le: (T, T) -> bool) {
    forall i :: 0 <= i < |s| ==> le(s[0], s[i])
  }

  ghost predicate Sorted<T>(s: seq<T>, le: (T, T) -> bool) {
    forall i, j :: 0 <= i < j < |s| ==> le(s[i], s[j])
  }

  /** heap.Init: rearranges a slice so that a least element is in front. */
  method HeapInit<T(!new)>(s: seq<T>, le: (T, T) -> bool) returns (h: seq<T>)
    requires TotalPreorder(le)
    ensures multiset(h) == multiset(s)
    ensures |h| == |s|
    ensures FrontLeast(h, le)
  {
    h := s;
    var i := 1;
    while i < |h|
      invariant multiset(h) == multiset(s)
      invariant |h| == |s|
      invariant 1 <= i
      invariant forall j :: 0 <= j < i && j < |h| ==> le(h[0], h[j])
    {
      if !le(h[0], h[i]) {
        h := h[0 := h[i]][i := h[0]];
      }
      i := i + 1;
    }
  }

  /** heap.Push. */
  method HeapPush<T(!new)>(s: seq<T>, x: T, le: (T, T) -> bool) returns (h: seq<T>)
    requires TotalPreorder(le)
    ensures multiset(h) == multiset(s) + multiset{x}
    ensures |h| == |s| + 1
    ensures FrontLeast(h, le)
  {
    h := HeapInit(s + [x], le);
  }

  /** heap.Remove, and heap.Pop when `i` is 0. */
  method HeapRemove<T(!new)>(s: seq<T>, i: nat, le: (T, T) -> bool) returns (h: seq<T>)
    requires TotalPreorder(le)
    requires i < |s|
    ensures multiset(s) == multiset(h) + multiset{s[i]}
    ensures |h| + 1 == |s|
    ensures FrontLeast(h, le)
  {
    assert s == s[..i] + [s[i]] + s[i + 1..];
    h := HeapInit(s[..i] + s[i + 1..], le);
  }

  /** sort.Sort. */
  method Sort<T(!new)>(s: seq<T>, le: (T, T) -> bool) returns (r: seq<T>)
    requires TotalPreorder(le)
    ensures multiset(r) == multiset(s)
    ensures |r| == |s|
    ensures Sorted(r, le)
  {
    r := [];
    var rest := s;
    while |rest| > 0
      invariant multiset(r) + multiset(rest) == multiset(s)
      invariant |r| + |rest| == |s|
      invariant Sorted(r, le)
      invariant forall i, j :: 0 <= i < |r| && 0 <= j < |rest| ==> le(r[i], rest[j])
      decreases |rest|
    {
      var h := HeapInit(rest, le);
      forall i, j | 0 <= i < |r| && 0 <= j < |h| ensures le(r[i], h[j]) {
        assert h[j] in multiset(h);
        assert h[j] in rest;
      }
      assert h == [h[0]] + h[1..];
      r, rest := r + [h[0]], h[1..];
    }
  }
}
