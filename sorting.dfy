/** `List<T>.Sort` with a comparison: the list is an array reordered in
    place until it is ordered by the comparison. The library's introsort is
    replaced by an insertion sort that meets the same contract (ordered,
    a permutation of the input); stability is not promised by either. */
module Sorting {

  /** `le` orders every pair (totality) and chains (transitivity): what
      `List.Sort` needs of a comparison to produce an ordered list. */
  ghost predicate TotalPreorder<T(!new)>(le: (T, T) -> bool)
  {
    && (forall x, y :: le(x, y) || le(y, x))
    && (forall x, y, z :: le(x, y) && le(y, z) ==> le(x, z))
  }

  ghost predicate SortedBy<T>(s: seq<T>, le: (T, T) -> bool)
  {
    forall i, j :: 0 <= i < j < |s| ==> le(s[i], s[j])
  }

  /** Sorts `a` in place by `le`. */
  method SortBy<T(!new)>(a: array<T>, le: (T, T) -> bool)
    requires TotalPreorder(le)
    modifies a
    ensures SortedBy(a[..], le)
    ensures multiset(a[..]) == multiset(old(a[..]))
  {
    var i := 0;
    while i < a.Length
      invariant 0 <= i <= a.Length
      invariant SortedBy(a[..i], le)
      invariant multiset(a[..]) == multiset(old(a[..]))
    {
      Insert(a, i, le);
      i := i + 1;
    }
    assert a[..] == a[..a.Length];
  }

  /** Moves `a[i]` left past every element it must precede, so that
      `a[..i + 1]` becomes ordered. */
  method Insert<T(!new)>(a: array<T>, i: int, le: (T, T) -> bool)
    requires TotalPreorder(le)
    requires 0 <= i < a.Length && SortedBy(a[..i], le)
    modifies a
    ensures SortedBy(a[..i + 1], le)
    ensures multiset(a[..]) == multiset(old(a[..]))
    ensures a[i + 1..] == old(a[i + 1..])
  {
    var j := i;
    while j > 0 && !le(a[j - 1], a[j])
      invariant 0 <= j <= i
      invariant forall p, q :: 0 <= p < q <= i && p != j && q != j ==> le(a[p], a[q])
      invariant forall q :: j < q <= i ==> le(a[j], a[q])
      invariant multiset(a[..]) == multiset(old(a[..]))
      invariant a[i + 1..] == old(a[i + 1..])
      decreases j
    {
      Swap(a, j - 1, j);
      j := j - 1;
    }
    forall p, q | 0 <= p < q <= i
      ensures le(a[p], a[q])
    {
      if q == j && p < j - 1 {
        assert le(a[p], a[j - 1]);
      }
    }
  }

  method Swap<T>(a: array<T>, p: int, q: int)
    requires 0 <= p < q < a.Length
    modifies a
    ensures a[p] == old(a[q]) && a[q] == old(a[p])
    ensures forall k :: 0 <= k < a.Length && k != p && k != q ==> a[k] == old(a[k])
    ensures multiset(a[..]) == multiset(old(a[..]))
  {
    ghost var s := a[..];
    a[p], a[q] := a[q], a[p];
    assert a[..] == s[p := s[q]][q := s[p]];
  }
}
