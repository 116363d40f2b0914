/** rqsort (cutils.c): quicksort with a fat pivot, a fixed stack, a depth limit that falls back on
    heapsort, and insertion sort for small segments. */
module RqSort {

  /** A comparison function in the style of qsort that orders every two elements consistently. */
  ghost predicate TotalPreorder<T(!new)>(cmp: (T, T) -> int) {
    && (forall x, y :: cmp(x, y) < 0 <==> cmp(y, x) > 0)
    && (forall x, y, z :: cmp(x, y) <= 0 && cmp(y, z) <= 0 ==> cmp(x, z) <= 0)
  }

  lemma Flip<T(!new)>(cmp: (T, T) -> int, x: T, y: T)
    requires TotalPreorder(cmp)
    ensures cmp(x, y) < 0 <==> cmp(y, x) > 0
    ensures cmp(x, y) == 0 <==> cmp(y, x) == 0
    ensures cmp(x, x) == 0
  {
  }

  lemma Chain<T(!new)>(cmp: (T, T) -> int, x: T, y: T, z: T)
    requires TotalPreorder(cmp) && cmp(x, y) <= 0 && cmp(y, z) <= 0
    ensures cmp(x, z) <= 0
    ensures cmp(x, y) < 0 || cmp(y, z) < 0 ==> cmp(x, z) < 0
  {
  }

  /** `t` is `s` with the elements between `lo` and `hi` in another order. */
  ghost predicate Shuffled<T>(s: seq<T>, t: seq<T>, lo: int, hi: int) {
    && |s| == |t|
    && 0 <= lo <= hi <= |s|
    && (forall k :: 0 <= k < lo || hi <= k < |s| ==> s[k] == t[k])
    && multiset(s[lo..hi]) == multiset(t[lo..hi])
  }

  lemma ShuffledSelf<T>(s: seq<T>, lo: int, hi: int)
    requires 0 <= lo <= hi <= |s|
    ensures Shuffled(s, s, lo, hi)
  {
  }

  lemma ShuffledAll<T>(s: seq<T>, t: seq<T>, lo: int, hi: int)
    requires Shuffled(s, t, lo, hi)
    ensures multiset(s) == multiset(t)
  {
    assert s == s[..lo] + s[lo..hi] + s[hi..];
    assert t == t[..lo] + t[lo..hi] + t[hi..];
    assert s[..lo] == t[..lo] && s[hi..] == t[hi..];
  }

  lemma ShuffledWider<T>(s: seq<T>, t: seq<T>, lo: int, hi: int, lo1: int, hi1: int)
    requires Shuffled(s, t, lo, hi) && 0 <= lo1 <= lo && hi <= hi1 <= |s|
    ensures Shuffled(s, t, lo1, hi1)
  {
    assert s[lo1..hi1] == s[lo1..lo] + s[lo..hi] + s[hi..hi1];
    assert t[lo1..hi1] == t[lo1..lo] + t[lo..hi] + t[hi..hi1];
    assert s[lo1..lo] == t[lo1..lo] && s[hi..hi1] == t[hi..hi1];
  }

  lemma ShuffledTrans<T>(s: seq<T>, t: seq<T>, u: seq<T>, lo: int, hi: int)
    requires Shuffled(s, t, lo, hi) && Shuffled(t, u, lo, hi)
    ensures Shuffled(s, u, lo, hi)
  {
  }

  /** Every element in the shuffled part was there before, at some place. */
  lemma ShuffledFrom<T>(s: seq<T>, t: seq<T>, lo: int, hi: int, k: int) returns (j: int)
    requires Shuffled(s, t, lo, hi) && lo <= k < hi
    ensures lo <= j < hi && s[j] == t[k]
  {
    assert t[lo..hi][k - lo] == t[k];
    assert t[k] in multiset(t[lo..hi]);
    assert t[k] in s[lo..hi];
    var i :| 0 <= i < |s[lo..hi]| && s[lo..hi][i] == t[k];
    j := lo + i;
  }

  function Swapped<T>(s: seq<T>, i: int, j: int): seq<T>
    requires 0 <= i < |s| && 0 <= j < |s|
  {
    s[i := s[j]][j := s[i]]
  }

  lemma SwappedShuffles<T>(s: seq<T>, i: int, j: int, lo: int, hi: int)
    requires 0 <= lo <= i < hi <= |s| && lo <= j < hi
    ensures Shuffled(s, Swapped(s, i, j), lo, hi)
  {
    var t := Swapped(s, i, j);
    var u := s[lo..hi];
    assert t[lo..hi] == u[i - lo := u[j - lo]][j - lo := u[i - lo]];
  }

  /** Exchanges two elements inside the segment from `lo` to `hi`, whose content was `was`. */
  method Swap<T>(a: array<T>, i: int, j: int, ghost lo: int, ghost hi: int, ghost was: seq<T>)
    requires 0 <= lo <= i < hi <= a.Length && lo <= j < hi
    requires Shuffled(was, a[..], lo, hi)
    modifies a
    ensures a[..] == Swapped(old(a[..]), i, j)
    ensures Shuffled(was, a[..], lo, hi)
  {
    ghost var s := a[..];
    a[i], a[j] := a[j], a[i];
    assert a[..] == Swapped(s, i, j);
    SwappedShuffles(s, i, j, lo, hi);
    ShuffledTrans(was, s, a[..], lo, hi);
  }

  /** `t` is `s` with the `m` elements from `x` on exchanged for those from `y` on. */
  ghost predicate Exchanged<T(!new)>(s: seq<T>, t: seq<T>, x: int, y: int, m: int) {
    && |t| == |s| && 0 <= x && 0 <= m && x + m <= y && y + m <= |s|
    && (forall k :: x <= k < x + m ==> t[k] == s[k + (y - x)])
    && (forall k :: y <= k < y + m ==> t[k] == s[k - (y - x)])
    && (forall k :: 0 <= k < |s| && !(x <= k < x + m) && !(y <= k < y + m) ==> t[k] == s[k])
  }

  lemma ExchangedNone<T(!new)>(s: seq<T>, x: int, y: int)
    requires 0 <= x <= y <= |s|
    ensures Exchanged(s, s, x, y, 0)
  {
  }

  lemma ExchangedStep<T(!new)>(s: seq<T>, t: seq<T>, x: int, y: int, m: int)
    requires Exchanged(s, t, x, y, m) && x + m < y && y + m < |s|
    ensures Exchanged(s, Swapped(t, x + m, y + m), x, y, m + 1)
  {
  }

  /** The exchange of two blocks of `span` elements that do not overlap. */
  method SwapBlock<T(!new)>(a: array<T>, x: int, y: int, span: nat, ghost lo: int, ghost hi: int, ghost was: seq<T>)
    requires 0 <= lo <= x && x + span <= y && y + span <= hi <= a.Length
    requires Shuffled(was, a[..], lo, hi)
    modifies a
    ensures Exchanged(old(a[..]), a[..], x, y, span)
    ensures Shuffled(was, a[..], lo, hi)
  {
    hide Shuffled, Exchanged, Swapped;
    ghost var s := a[..];
    ExchangedNone(s, x, y);
    var m := 0;
    while m < span
      invariant 0 <= m <= span
      invariant Exchanged(s, a[..], x, y, m)
      invariant Shuffled(was, a[..], lo, hi)
    {
      ExchangedStep(s, a[..], x, y, m);
      Swap(a, x + m, y + m, lo, hi, was);
      m := m + 1;
    }
  }

  /** `s` is in order from `lo` to `hi`. */
  ghost predicate InOrder<T(!new)>(cmp: (T, T) -> int, s: seq<T>, lo: int, hi: int) {
    0 <= lo <= hi <= |s| && forall i, j :: lo <= i < j < hi ==> cmp(s[i], s[j]) <= 0
  }

  /** In order from `lo` to `i` inclusive but for the element at `j`, which none after exceeds. */
  ghost predicate Inserting<T(!new)>(cmp: (T, T) -> int, s: seq<T>, lo: int, i: int, j: int) {
    && 0 <= lo <= j <= i < |s|
    && (forall k, m :: lo <= k < m <= i && k != j && m != j ==> cmp(s[k], s[m]) <= 0)
    && (forall m :: j < m <= i ==> cmp(s[j], s[m]) <= 0)
  }

  lemma InsertStart<T(!new)>(cmp: (T, T) -> int, s: seq<T>, lo: int, i: int)
    requires InOrder(cmp, s, lo, i) && i < |s|
    ensures Inserting(cmp, s, lo, i, i)
  {
  }

  lemma InsertStep<T(!new)>(cmp: (T, T) -> int, s: seq<T>, lo: int, i: int, j: int)
    requires TotalPreorder(cmp) && Inserting(cmp, s, lo, i, j) && lo < j && cmp(s[j - 1], s[j]) > 0
    ensures Inserting(cmp, Swapped(s, j, j - 1), lo, i, j - 1)
  {
    hide TotalPreorder;
    Flip(cmp, s[j - 1], s[j]);
  }

  lemma InsertEnd<T(!new)>(cmp: (T, T) -> int, s: seq<T>, lo: int, i: int, j: int)
    requires TotalPreorder(cmp) && Inserting(cmp, s, lo, i, j) && (lo < j ==> cmp(s[j - 1], s[j]) <= 0)
    ensures InOrder(cmp, s, lo, i + 1)
  {
    hide TotalPreorder;
    forall k | lo <= k < j
      ensures cmp(s[k], s[j]) <= 0
    {
      if k < j - 1 { Chain(cmp, s[k], s[j - 1], s[j]); }
    }
  }

  lemma FewInOrder<T(!new)>(cmp: (T, T) -> int, s: seq<T>, lo: int, hi: int)
    requires 0 <= lo <= hi <= |s| && hi <= lo + 1
    ensures InOrder(cmp, s, lo, hi)
  {
  }

  /** The final pass on a small segment. */
  method InsertionSort<T(!new)>(a: array<T>, cmp: (T, T) -> int, lo: nat, n: nat)
    requires TotalPreorder(cmp) && lo + n <= a.Length
    modifies a
    ensures InOrder(cmp, a[..], lo, lo + n)
    ensures Shuffled(old(a[..]), a[..], lo, lo + n)
  {
    hide Shuffled, TotalPreorder, InOrder, Inserting, Swapped;
    ghost var was := a[..];
    ShuffledSelf(was, lo, lo + n);
    FewInOrder(cmp, was, lo, lo + n - if n > 0 then n - 1 else 0);
    var i := lo + 1;
    while i < lo + n
      invariant lo < i
      invariant InOrder(cmp, a[..], lo, if i < lo + n then i else lo + n)
      invariant Shuffled(was, a[..], lo, lo + n)
    {
      InsertStart(cmp, a[..], lo, i);
      var j := i;
      while j > lo && cmp(a[j - 1], a[j]) > 0
        invariant lo <= j <= i
        invariant Inserting(cmp, a[..], lo, i, j)
        invariant Shuffled(was, a[..], lo, lo + n)
      {
        InsertStep(cmp, a[..], lo, i, j);
        Swap(a, j, j - 1, lo, lo + n, was);
        j := j - 1;
      }
      InsertEnd(cmp, a[..], lo, i, j);
      i := i + 1;
    }
  }

  predicate IsChild(r: int, c: int) {
    c == 2 * r + 1 || c == 2 * r + 2
  }

  /** Among the `n` elements from `lo` on, read as a binary heap, no node from `first` on other
      than `hole` is smaller than a child of its. */
  ghost predicate HeapBut<T(!new)>(cmp: (T, T) -> int, s: seq<T>, lo: int, n: int, first: int, hole: int) {
    && 0 <= lo && lo + n <= |s| && 0 <= first
    && (forall r, c :: IsChild(r, c) && first <= r && r != hole && c < n ==> cmp(s[lo + r], s[lo + c]) >= 0)
  }

  ghost predicate Heap<T(!new)>(cmp: (T, T) -> int, s: seq<T>, lo: int, n: int, first: int) {
    HeapBut(cmp, s, lo, n, first, -1)
  }

  /** The children of the hole are no larger than its parent. */
  ghost predicate Bridged<T(!new)>(cmp: (T, T) -> int, s: seq<T>, lo: int, n: int, first: int, hole: int) {
    && 0 <= lo && lo + n <= |s| && 0 <= first
    && (forall q, c :: IsChild(q, hole) && IsChild(hole, c) && first <= q && c < n ==> cmp(s[lo + q], s[lo + c]) >= 0)
  }

  lemma SiftStep<T(!new)>(cmp: (T, T) -> int, s: seq<T>, lo: int, n: int, first: int, r: int, c: int)
    requires TotalPreorder(cmp) && first <= r && IsChild(r, c) && c < n
    requires HeapBut(cmp, s, lo, n, first, r) && Bridged(cmp, s, lo, n, first, r)
    requires forall d :: IsChild(r, d) && d < n ==> cmp(s[lo + c], s[lo + d]) >= 0
    requires cmp(s[lo + r], s[lo + c]) <= 0
    ensures var t := Swapped(s, lo + r, lo + c);
            HeapBut(cmp, t, lo, n, first, c) && Bridged(cmp, t, lo, n, first, c)
  {
    hide TotalPreorder;
    var t := Swapped(s, lo + r, lo + c);
    Flip(cmp, s[lo + r], s[lo + c]);
    forall q, d | IsChild(q, d) && first <= q && q != c && d < n
      ensures cmp(t[lo + q], t[lo + d]) >= 0
    {
      if q == r {
        assert cmp(s[lo + c], s[lo + d]) >= 0;
      } else if d == r {
        assert IsChild(q, r) && IsChild(r, c);
      }
    }
  }

  lemma SiftEnd<T(!new)>(cmp: (T, T) -> int, s: seq<T>, lo: int, n: int, first: int, r: int)
    requires HeapBut(cmp, s, lo, n, first, r) && first <= r
    requires forall d :: IsChild(r, d) && d < n ==> cmp(s[lo + r], s[lo + d]) >= 0
    ensures Heap(cmp, s, lo, n, first)
  {
  }

  /** The inner loop of heapsortx: moves element `first` down to its place. */
  method SiftDown<T(!new)>(a: array<T>, cmp: (T, T) -> int, lo: nat, n: nat, first: nat)
    requires TotalPreorder(cmp) && lo + n <= a.Length && first < n
    requires HeapBut(cmp, a[..], lo, n, first, first)
    modifies a
    ensures Heap(cmp, a[..], lo, n, first)
    ensures Shuffled(old(a[..]), a[..], lo, lo + n)
  {
    hide Shuffled, TotalPreorder, HeapBut, Bridged, Heap, Swapped;
    ghost var was := a[..];
    ShuffledSelf(was, lo, lo + n);
    var r := first;
    assert Bridged(cmp, a[..], lo, n, first, r) by { NothingAbove(cmp, a[..], lo, n, first); }
    while 2 * r + 1 < n
      invariant first <= r < n
      invariant HeapBut(cmp, a[..], lo, n, first, r) && Bridged(cmp, a[..], lo, n, first, r)
      invariant Shuffled(was, a[..], lo, lo + n)
    {
      var c := 2 * r + 1;
      if c < n - 1 && cmp(a[lo + c], a[lo + c + 1]) <= 0 {
        c := c + 1;
      }
      BiggerChild(cmp, a[..], lo, n, r, c);
      if cmp(a[lo + r], a[lo + c]) > 0 {
        BreakHere(cmp, a[..], lo, n, r, c);
        break;
      }
      SiftStep(cmp, a[..], lo, n, first, r, c);
      ghost var s := a[..];
      Swap(a, lo + r, lo + c, lo, lo + n, was);
      r := c;
    }
    SiftEnd(cmp, a[..], lo, n, first, r);
  }

  lemma NothingAbove<T(!new)>(cmp: (T, T) -> int, s: seq<T>, lo: int, n: int, first: int)
    requires 0 <= lo && lo + n <= |s| && 0 <= first
    ensures Bridged(cmp, s, lo, n, first, first)
  {
  }

  lemma BiggerChild<T(!new)>(cmp: (T, T) -> int, s: seq<T>, lo: int, n: int, r: int, c: int)
    requires TotalPreorder(cmp) && 0 <= lo && lo + n <= |s| && 0 <= r && 2 * r + 1 < n
    requires c == if 2 * r + 2 < n && cmp(s[lo + 2 * r + 1], s[lo + 2 * r + 2]) <= 0 then 2 * r + 2 else 2 * r + 1
    ensures IsChild(r, c) && c < n
    ensures forall d :: IsChild(r, d) && d < n ==> cmp(s[lo + c], s[lo + d]) >= 0
  {
    hide TotalPreorder;
    Flip(cmp, s[lo + c], s[lo + c]);
    if 2 * r + 2 < n {
      Flip(cmp, s[lo + 2 * r + 1], s[lo + 2 * r + 2]);
    }
  }

  lemma BreakHere<T(!new)>(cmp: (T, T) -> int, s: seq<T>, lo: int, n: int, r: int, c: int)
    requires TotalPreorder(cmp) && 0 <= lo && lo + n <= |s| && 0 <= r && IsChild(r, c) && c < n
    requires forall d :: IsChild(r, d) && d < n ==> cmp(s[lo + c], s[lo + d]) >= 0
    requires cmp(s[lo + r], s[lo + c]) > 0
    ensures forall d :: IsChild(r, d) && d < n ==> cmp(s[lo + r], s[lo + d]) >= 0
  {
    hide TotalPreorder;
    forall d | IsChild(r, d) && d < n
      ensures cmp(s[lo + r], s[lo + d]) >= 0
    {
      Flip(cmp, s[lo + r], s[lo + c]);
      Flip(cmp, s[lo + c], s[lo + d]);
      Chain(cmp, s[lo + d], s[lo + c], s[lo + r]);
      Flip(cmp, s[lo + r], s[lo + d]);
    }
  }

  /** The root of a heap is its greatest element. */
  lemma {:induction false} RootIsMax<T(!new)>(cmp: (T, T) -> int, s: seq<T>, lo: int, n: int, k: nat)
    requires TotalPreorder(cmp) && Heap(cmp, s, lo, n, 0) && k < n
    ensures cmp(s[lo], s[lo + k]) >= 0
  {
    hide TotalPreorder;
    Flip(cmp, s[lo], s[lo]);
    if k > 0 {
      var q := (k - 1) / 2;
      RootIsMax(cmp, s, lo, n, q);
      assert IsChild(q, k);
      Flip(cmp, s[lo + q], s[lo + k]);
      Flip(cmp, s[lo], s[lo + q]);
      Chain(cmp, s[lo + k], s[lo + q], s[lo]);
      Flip(cmp, s[lo], s[lo + k]);
    }
  }

  /** From `m` on the elements are in order and none before is greater. */
  ghost predicate TailSorted<T(!new)>(cmp: (T, T) -> int, s: seq<T>, lo: int, m: int, hi: int) {
    && 0 <= lo <= m <= hi <= |s|
    && (forall i, j :: lo <= i < j < hi && m <= j ==> cmp(s[i], s[j]) <= 0)
  }

  /** The greatest element of the heap goes to the front of the tail. */
  lemma TailGrows<T(!new)>(cmp: (T, T) -> int, s: seq<T>, lo: int, n: int, hi: int)
    requires TotalPreorder(cmp) && Heap(cmp, s, lo, n, 0) && n > 0 && TailSorted(cmp, s, lo, lo + n, hi)
    ensures var t := Swapped(s, lo, lo + n - 1);
            TailSorted(cmp, t, lo, lo + n - 1, hi) && HeapBut(cmp, t, lo, n - 1, 0, 0)
  {
    hide TotalPreorder;
    var t := Swapped(s, lo, lo + n - 1);
    forall i, j | lo <= i < j < hi && lo + n - 1 <= j
      ensures cmp(t[i], t[j]) <= 0
    {
      if j == lo + n - 1 {
        var k := if i == lo then n - 1 else i - lo;
        RootIsMax(cmp, s, lo, n, k);
        Flip(cmp, s[lo], s[lo + k]);
      }
    }
  }

  lemma TailKept<T(!new)>(cmp: (T, T) -> int, s: seq<T>, t: seq<T>, lo: int, m: int, hi: int)
    requires TailSorted(cmp, s, lo, m, hi) && Shuffled(s, t, lo, m)
    ensures TailSorted(cmp, t, lo, m, hi)
  {
    forall i, j | lo <= i < j < hi && m <= j
      ensures cmp(t[i], t[j]) <= 0
    {
      if i < m {
        var k := ShuffledFrom(s, t, lo, m, i);
      }
    }
  }

  /** The first loop of heapsortx. */
  method MakeHeap<T(!new)>(a: array<T>, cmp: (T, T) -> int, lo: nat, n: nat)
    requires TotalPreorder(cmp) && lo + n <= a.Length
    modifies a
    ensures Heap(cmp, a[..], lo, n, 0)
    ensures Shuffled(old(a[..]), a[..], lo, lo + n)
  {
    hide Shuffled, TotalPreorder, Heap, HeapBut;
    ghost var was, hi := a[..], lo + n;
    ShuffledSelf(was, lo, hi);
    var i := n / 2;
    HeapLeaves(cmp, a[..], lo, n);
    while i > 0
      invariant 0 <= i <= n / 2
      invariant Heap(cmp, a[..], lo, n, i)
      invariant Shuffled(was, a[..], lo, hi)
    {
      i := i - 1;
      ghost var s := a[..];
      HeapOpens(cmp, s, lo, n, i);
      SiftDown(a, cmp, lo, n, i);
      ShuffledTrans(was, s, a[..], lo, hi);
    }
  }

  /** heapsortx. */
  method HeapSort<T(!new)>(a: array<T>, cmp: (T, T) -> int, lo: nat, n: nat)
    requires TotalPreorder(cmp) && lo + n <= a.Length
    modifies a
    ensures InOrder(cmp, a[..], lo, lo + n)
    ensures Shuffled(old(a[..]), a[..], lo, lo + n)
  {
    hide Shuffled, TotalPreorder, Heap, HeapBut, TailSorted, InOrder, Swapped;
    ghost var was, hi := a[..], lo + n;
    if n > 1 {
      MakeHeap(a, cmp, lo, n);
      var i := n - 1;
      TailEmpty(cmp, a[..], lo, hi);
      while i > 0
        invariant 0 <= i < n
        invariant Heap(cmp, a[..], lo, i + 1, 0) && TailSorted(cmp, a[..], lo, lo + i + 1, hi)
        invariant Shuffled(was, a[..], lo, hi)
      {
        ghost var s := a[..];
        TailGrows(cmp, s, lo, i + 1, hi);
        Swap(a, lo, lo + i, lo, hi, was);
        s := a[..];
        SiftDown(a, cmp, lo, i, 0);
        DrainStep(cmp, was, s, a[..], lo, i, hi);
        i := i - 1;
      }
      TailDone(cmp, a[..], lo, hi);
    } else {
      ShuffledSelf(was, lo, hi);
      FewInOrder(cmp, was, lo, hi);
    }
  }

  lemma DrainStep<T(!new)>(cmp: (T, T) -> int, was: seq<T>, s: seq<T>, t: seq<T>, lo: int, i: int, hi: int)
    requires Shuffled(was, s, lo, hi) && 0 <= i && lo + i <= hi && Shuffled(s, t, lo, lo + i)
    requires TailSorted(cmp, s, lo, lo + i, hi)
    ensures TailSorted(cmp, t, lo, lo + i, hi) && Shuffled(was, t, lo, hi)
  {
    TailKept(cmp, s, t, lo, lo + i, hi);
    ShuffledWider(s, t, lo, lo + i, lo, hi);
    ShuffledTrans(was, s, t, lo, hi);
  }

  lemma HeapLeaves<T(!new)>(cmp: (T, T) -> int, s: seq<T>, lo: int, n: int)
    requires 0 <= lo && 0 <= n && lo + n <= |s|
    ensures Heap(cmp, s, lo, n, n / 2)
  {
  }

  lemma HeapOpens<T(!new)>(cmp: (T, T) -> int, s: seq<T>, lo: int, n: int, i: int)
    requires Heap(cmp, s, lo, n, i + 1) && 0 <= i
    ensures HeapBut(cmp, s, lo, n, i, i)
  {
  }

  lemma TailEmpty<T(!new)>(cmp: (T, T) -> int, s: seq<T>, lo: int, hi: int)
    requires 0 <= lo <= hi <= |s|
    ensures TailSorted(cmp, s, lo, hi, hi)
  {
  }

  lemma TailDone<T(!new)>(cmp: (T, T) -> int, s: seq<T>, lo: int, hi: int)
    requires TailSorted(cmp, s, lo, lo + 1, hi)
    ensures InOrder(cmp, s, lo, hi)
  {
  }

  ghost predicate Between<T(!new)>(cmp: (T, T) -> int, u: T, v: T, w: T) {
    (cmp(u, v) <= 0 && cmp(v, w) <= 0) || (cmp(w, v) <= 0 && cmp(v, u) <= 0)
  }

  /** med3: of three places, one whose element lies between the other two. */
  method Med3<T(!new)>(a: array<T>, cmp: (T, T) -> int, x: nat, y: nat, z: nat) returns (m: nat)
    requires TotalPreorder(cmp) && x < a.Length && y < a.Length && z < a.Length
    ensures || (m == x && Between(cmp, a[y], a[x], a[z]))
            || (m == y && Between(cmp, a[x], a[y], a[z]))
            || (m == z && Between(cmp, a[x], a[z], a[y]))
  {
    hide TotalPreorder;
    Flip(cmp, a[x], a[y]);
    Flip(cmp, a[y], a[z]);
    Flip(cmp, a[x], a[z]);
    m :=
      if cmp(a[x], a[y]) < 0 then
        (if cmp(a[y], a[z]) < 0 then y else if cmp(a[x], a[z]) < 0 then z else x)
      else
        (if cmp(a[y], a[z]) > 0 then y else if cmp(a[x], a[z]) < 0 then x else z);
  }

  datatype Side = Less | Same | Greater

  function SideOf<T>(cmp: (T, T) -> int, p: T, x: T): Side {
    if cmp(p, x) > 0 then Less else if cmp(p, x) == 0 then Same else Greater
  }

  /** Every element from `lo` to `hi` is on the given side of `p`. */
  ghost predicate AllOn<T(!new)>(cmp: (T, T) -> int, s: seq<T>, lo: int, hi: int, p: T, side: Side) {
    0 <= lo <= hi <= |s| && forall k :: lo <= k < hi ==> SideOf(cmp, p, s[k]) == side
  }

  /** The state of the partition loop: elements equal to the pivot at both ends, smaller ones up
      to `i`, greater ones from `j` on, the rest still to be looked at. */
  ghost predicate Parted<T(!new)>(cmp: (T, T) -> int, s: seq<T>, lo: int, lt: int, i: int, j: int, gt: int, hi: int) {
    && 0 <= lo < lt <= i <= j <= gt <= hi <= |s|
    && AllOn(cmp, s, lo, lt, s[lo], Same) && AllOn(cmp, s, lt, i, s[lo], Side.Less)
    && AllOn(cmp, s, j, gt, s[lo], Greater) && AllOn(cmp, s, gt, hi, s[lo], Same)
  }

  lemma PartedStart<T(!new)>(cmp: (T, T) -> int, s: seq<T>, lo: int, hi: int)
    requires TotalPreorder(cmp) && 0 <= lo < hi <= |s|
    ensures Parted(cmp, s, lo, lo + 1, lo + 1, hi, hi, hi)
  {
    Flip(cmp, s[lo], s[lo]);
  }

  lemma PartedSame<T(!new)>(cmp: (T, T) -> int, s: seq<T>, lo: int, lt: int, i: int, j: int, gt: int, hi: int)
    requires Parted(cmp, s, lo, lt, i, j, gt, hi) && i < j && cmp(s[lo], s[i]) == 0
    ensures Parted(cmp, Swapped(s, lt, i), lo, lt + 1, i + 1, j, gt, hi)
  {
  }

  lemma PartedLess<T(!new)>(cmp: (T, T) -> int, s: seq<T>, lo: int, lt: int, i: int, j: int, gt: int, hi: int)
    requires Parted(cmp, s, lo, lt, i, j, gt, hi) && i < j && cmp(s[lo], s[i]) > 0
    ensures Parted(cmp, s, lo, lt, i + 1, j, gt, hi)
  {
  }

  lemma PartedSameBack<T(!new)>(cmp: (T, T) -> int, s: seq<T>, lo: int, lt: int, i: int, j: int, gt: int, hi: int)
    requires Parted(cmp, s, lo, lt, i, j, gt, hi) && i < j && cmp(s[lo], s[j - 1]) == 0
    ensures Parted(cmp, Swapped(s, gt - 1, j - 1), lo, lt, i, j - 1, gt - 1, hi)
  {
  }

  lemma PartedGreater<T(!new)>(cmp: (T, T) -> int, s: seq<T>, lo: int, lt: int, i: int, j: int, gt: int, hi: int)
    requires Parted(cmp, s, lo, lt, i, j, gt, hi) && i < j && cmp(s[lo], s[j - 1]) < 0
    ensures Parted(cmp, s, lo, lt, i, j - 1, gt, hi)
  {
  }

  lemma PartedSwap<T(!new)>(cmp: (T, T) -> int, s: seq<T>, lo: int, lt: int, i: int, j: int, gt: int, hi: int)
    requires Parted(cmp, s, lo, lt, i, j, gt, hi) && i < j - 1
    requires cmp(s[lo], s[i]) < 0 && cmp(s[lo], s[j - 1]) > 0
    ensures Parted(cmp, Swapped(s, i, j - 1), lo, lt, i + 1, j - 1, gt, hi)
  {
  }

  /** The first inner loop of the partition: up to an element greater than the pivot. */
  method ScanUp<T(!new)>(a: array<T>, cmp: (T, T) -> int, lo: nat, lt: nat, i: nat, j: nat, ghost gt: nat,
                         ghost hi: nat, ghost was: seq<T>)
    returns (plt: nat, pi: nat)
    requires 0 <= lo < lt <= i <= j <= gt <= hi <= a.Length
    requires Parted(cmp, a[..], lo, lt, i, j, gt, hi) && Shuffled(was, a[..], lo, hi)
    modifies a
    ensures lo < plt <= pi <= j && i <= pi
    ensures Parted(cmp, a[..], lo, plt, pi, j, gt, hi) && Shuffled(was, a[..], lo, hi)
    ensures pi < j ==> cmp(a[lo], a[pi]) < 0
  {
    hide Shuffled, Parted;
    plt, pi := lt, i;
    while pi < j && cmp(a[lo], a[pi]) >= 0
      invariant lo < plt <= pi <= j && i <= pi
      invariant Parted(cmp, a[..], lo, plt, pi, j, gt, hi) && Shuffled(was, a[..], lo, hi)
    {
      ghost var s := a[..];
      if cmp(a[lo], a[pi]) == 0 {
        PartedSame(cmp, s, lo, plt, pi, j, gt, hi);
        Swap(a, plt, pi, lo, hi, was);
        plt := plt + 1;
      } else {
        PartedLess(cmp, s, lo, plt, pi, j, gt, hi);
      }
      pi := pi + 1;
    }
  }

  /** The second inner loop: down to an element smaller than the pivot, or to `i`. */
  method ScanDown<T(!new)>(a: array<T>, cmp: (T, T) -> int, lo: nat, ghost lt: nat, i: nat, j: nat, gt: nat,
                           ghost hi: nat, ghost was: seq<T>)
    returns (pj: nat, pgt: nat)
    requires 0 <= lo < lt <= i <= j <= gt <= hi <= a.Length && (i < j ==> cmp(a[lo], a[i]) < 0)
    requires Parted(cmp, a[..], lo, lt, i, j, gt, hi) && Shuffled(was, a[..], lo, hi)
    modifies a
    ensures pj < j && i <= pj + 1 <= pgt <= gt && a[lo] == old(a[lo])
    ensures Parted(cmp, a[..], lo, lt, i, pj + 1, pgt, hi) && Shuffled(was, a[..], lo, hi)
    ensures i < pj ==> cmp(a[lo], a[pj]) > 0 && a[i] == old(a[i])
    ensures i == pj ==> cmp(a[lo], a[i]) < 0
  {
    hide Shuffled, Parted;
    pj, pgt := j - 1, gt;
    while i < pj && cmp(a[lo], a[pj]) <= 0
      invariant pj < j && i <= pj + 1 <= pgt <= gt
      invariant a[lo] == old(a[lo]) && (i <= pj ==> a[i] == old(a[i]))
      invariant Parted(cmp, a[..], lo, lt, i, pj + 1, pgt, hi) && Shuffled(was, a[..], lo, hi)
    {
      ghost var s := a[..];
      if cmp(a[lo], a[pj]) == 0 {
        PartedSameBack(cmp, s, lo, lt, i, pj + 1, pgt, hi);
        pgt := pgt - 1;
        Swap(a, pgt, pj, lo, hi, was);
      } else {
        PartedGreater(cmp, s, lo, lt, i, pj + 1, pgt, hi);
      }
      pj := pj - 1;
    }
  }

  /** The partition loop of rqsort, on the segment whose first element is the pivot. */
  method Scan<T(!new)>(a: array<T>, cmp: (T, T) -> int, lo: nat, n: nat, ghost was: seq<T>)
    returns (plt: nat, pi: nat, pgt: nat)
    requires TotalPreorder(cmp) && 0 < n && lo + n <= a.Length
    requires Shuffled(was, a[..], lo, lo + n)
    modifies a
    ensures lo < plt <= pi <= pgt <= lo + n
    ensures Parted(cmp, a[..], lo, plt, pi, pi, pgt, lo + n)
    ensures Shuffled(was, a[..], lo, lo + n)
  {
    hide Shuffled, TotalPreorder, Parted;
    var top := lo + n;
    plt, pi, pgt := lo + 1, lo + 1, top;
    var pj := top;
    PartedStart(cmp, a[..], lo, top);
    while true
      invariant lo < plt <= pi <= pj <= pgt <= top
      invariant Parted(cmp, a[..], lo, plt, pi, pj, pgt, top)
      invariant Shuffled(was, a[..], lo, top)
      decreases pj - pi
    {
      plt, pi := ScanUp(a, cmp, lo, plt, pi, pj, pgt, top, was);
      pj, pgt := ScanDown(a, cmp, lo, plt, pi, pj, pgt, top, was);
      ghost var s := a[..];
      if pi >= pj {
        if pi == pj {
          PartedGreater(cmp, s, lo, plt, pi, pj + 1, pgt, top);
        }
        break;
      }
      PartedSwap(cmp, s, lo, plt, pi, pj + 1, pgt, top);
      Swap(a, pi, pj, lo, top, was);
      pi := pi + 1;
    }
  }

  /** Smaller elements, then those equal to the pivot, then greater ones. */
  ghost predicate Divided<T(!new)>(cmp: (T, T) -> int, s: seq<T>, lo: int, lt: int, gt: int, hi: int, p: T) {
    && 0 <= lo <= lt < gt <= hi <= |s|
    && AllOn(cmp, s, lo, lt, p, Side.Less) && AllOn(cmp, s, lt, gt, p, Same) && AllOn(cmp, s, gt, hi, p, Greater)
  }

  /** Swapping the shorter of two neighbouring blocks with the far end of the other is enough to
      exchange the blocks, up to order. */
  method Rotate<T(!new)>(a: array<T>, cmp: (T, T) -> int, ghost p: T, x: nat, y: nat, z: nat, ghost first: Side,
                         ghost second: Side, ghost lo: nat, ghost hi: nat, ghost was: seq<T>)
    requires lo <= x <= y <= z <= hi <= a.Length
    requires AllOn(cmp, a[..], x, y, p, first) && AllOn(cmp, a[..], y, z, p, second)
    requires Shuffled(was, a[..], lo, hi)
    modifies a
    ensures AllOn(cmp, a[..], x, x + (z - y), p, second) && AllOn(cmp, a[..], x + (z - y), z, p, first)
    ensures forall k :: 0 <= k < a.Length && !(x <= k < z) ==> a[k] == old(a[k])
    ensures Shuffled(was, a[..], lo, hi)
  {
    hide Shuffled;
    var span, span2 := y - x, z - y;
    if span > span2 {
      span := span2;
    }
    SwapBlock(a, x, z - span, span, lo, hi, was);
  }

  /** The two block exchanges that bring the copies of the pivot to the middle. */
  method Centre<T(!new)>(a: array<T>, cmp: (T, T) -> int, lo: nat, plt: nat, pi: nat, pgt: nat, top: nat,
                         ghost was: seq<T>)
    returns (lt: nat, gt: nat)
    requires Parted(cmp, a[..], lo, plt, pi, pi, pgt, top) && Shuffled(was, a[..], lo, top)
    modifies a
    ensures lt == lo + (pi - plt) && gt == top - (pgt - pi)
    ensures lo <= lt < gt <= top && Divided(cmp, a[..], lo, lt, gt, top, old(a[lo]))
    ensures Shuffled(was, a[..], lo, top)
  {
    hide Shuffled;
    ghost var p := a[lo];
    Rotate(a, cmp, p, lo, plt, pi, Same, Side.Less, lo, top, was);
    ghost var s := a[..];
    Rotate(a, cmp, p, pi, pgt, top, Greater, Same, lo, top, was);
    lt, gt := lo + (pi - plt), top - (pgt - pi);
  }

  /** A stack entry: a segment still to be sorted and the depth at which it was cut off. */
  datatype Segment = Segment(base: nat, count: nat, depth: nat)

  predicate Holds(e: Segment, i: int) {
    e.base <= i < e.base + e.count
  }

  ghost predicate Together(segs: seq<Segment>, i: int, j: int) {
    exists k :: 0 <= k < |segs| && Holds(segs[k], i) && Holds(segs[k], j)
  }

  predicate Apart(e: Segment, f: Segment) {
    e.base + e.count <= f.base || f.base + f.count <= e.base
  }

  /** The segments do not overlap, and every two elements are in order unless one segment holds
      them both. */
  ghost predicate Settled<T(!new)>(cmp: (T, T) -> int, s: seq<T>, segs: seq<Segment>) {
    && (forall k :: 0 <= k < |segs| ==> segs[k].base + segs[k].count <= |s|)
    && (forall k, m :: 0 <= k < m < |segs| ==> Apart(segs[k], segs[m]))
    && (forall i, j :: 0 <= i < j < |s| ==> cmp(s[i], s[j]) <= 0 || Together(segs, i, j))
  }

  lemma SettledPair<T(!new)>(cmp: (T, T) -> int, s: seq<T>, segs: seq<Segment>, e: Segment, t: seq<T>,
                             parts: seq<Segment>, i: int, j: int)
    requires Settled(cmp, s, segs + [e]) && Shuffled(s, t, e.base, e.base + e.count) && 0 <= i < j < |t|
    requires Holds(e, i) && Holds(e, j) ==> cmp(t[i], t[j]) <= 0 || Together(parts, i, j)
    ensures cmp(t[i], t[j]) <= 0 || Together(segs + parts, i, j)
  {
    if Holds(e, i) && Holds(e, j) {
      if Together(parts, i, j) {
        var k :| 0 <= k < |parts| && Holds(parts[k], i) && Holds(parts[k], j);
        assert (segs + parts)[|segs| + k] == parts[k];
      }
    } else {
      var i0, j0 := i, j;
      if Holds(e, i) { i0 := ShuffledFrom(s, t, e.base, e.base + e.count, i); }
      if Holds(e, j) { j0 := ShuffledFrom(s, t, e.base, e.base + e.count, j); }
      assert s[i0] == t[i] && s[j0] == t[j];
      if Together(segs + [e], i0, j0) {
        var k :| 0 <= k < |segs + [e]| && Holds((segs + [e])[k], i0) && Holds((segs + [e])[k], j0);
        assert k < |segs|;
        assert (segs + [e])[|segs|] == e && Apart((segs + [e])[k], (segs + [e])[|segs|]);
        assert (segs + parts)[k] == segs[k];
      }
    }
  }

  lemma SettledRefine<T(!new)>(cmp: (T, T) -> int, s: seq<T>, segs: seq<Segment>, e: Segment, t: seq<T>,
                               parts: seq<Segment>)
    requires Settled(cmp, s, segs + [e]) && Shuffled(s, t, e.base, e.base + e.count)
    requires forall i, j :: 0 <= i < j < |t| && Holds(e, i) && Holds(e, j) ==>
             cmp(t[i], t[j]) <= 0 || Together(parts, i, j)
    requires forall k :: 0 <= k < |parts| ==>
             e.base <= parts[k].base && parts[k].base + parts[k].count <= e.base + e.count
    requires forall k, m :: 0 <= k < m < |parts| ==> Apart(parts[k], parts[m])
    ensures Settled(cmp, t, segs + parts)
  {
    forall i, j | 0 <= i < j < |t|
      ensures cmp(t[i], t[j]) <= 0 || Together(segs + parts, i, j)
    {
      SettledPair(cmp, s, segs, e, t, parts, i, j);
    }
    forall k, m | 0 <= k < m < |segs + parts|
      ensures Apart((segs + parts)[k], (segs + parts)[m])
    {
      assert k < |segs| ==> Apart((segs + [e])[k], (segs + [e])[|segs|]);
      assert m < |segs| ==> Apart((segs + [e])[k], (segs + [e])[m]);
    }
    forall k | 0 <= k < |segs + parts|
      ensures (segs + parts)[k].base + (segs + parts)[k].count <= |t|
    {
      assert k < |segs| ==> (segs + [e])[k] == segs[k];
      assert (segs + [e])[|segs|] == e;
    }
  }

  /** A segment put in order is done with; an empty one may stand in its place. */
  lemma SettledSorted<T(!new)>(cmp: (T, T) -> int, s: seq<T>, segs: seq<Segment>, e: Segment, t: seq<T>, depth: nat)
    requires Settled(cmp, s, segs + [e]) && Shuffled(s, t, e.base, e.base + e.count)
    requires InOrder(cmp, t, e.base, e.base + e.count)
    ensures Settled(cmp, t, segs) && Settled(cmp, t, segs + [Segment(e.base, 0, depth)])
  {
    hide Settled, Shuffled;
    SettledRefine(cmp, s, segs, e, t, []);
    SettledRefine(cmp, s, segs, e, t, [Segment(e.base, 0, depth)]);
    assert segs + [] == segs;
  }

  lemma DividedInOrder<T(!new)>(cmp: (T, T) -> int, t: seq<T>, lo: int, lt: int, gt: int, hi: int, p: T, i: int, j: int)
    requires TotalPreorder(cmp) && Divided(cmp, t, lo, lt, gt, hi, p) && lo <= i < j < hi
    ensures cmp(t[i], t[j]) <= 0 || j < lt || gt <= i
  {
    if j >= lt && i < gt {
      hide TotalPreorder;
      Flip(cmp, p, t[i]);
      Chain(cmp, t[i], p, t[j]);
    }
  }

  /** A divided segment leaves its two outer parts to be sorted, in either order. */
  lemma SettledSplit<T(!new)>(cmp: (T, T) -> int, s: seq<T>, segs: seq<Segment>, e: Segment, t: seq<T>,
                              lt: nat, gt: nat, p: T, x: Segment, y: Segment)
    requires TotalPreorder(cmp)
    requires Settled(cmp, s, segs + [e]) && Shuffled(s, t, e.base, e.base + e.count)
    requires Divided(cmp, t, e.base, lt, gt, e.base + e.count, p)
    requires var hi := e.base + e.count;
             || (x.base == e.base && x.base + x.count == lt && y.base == gt && y.base + y.count == hi)
             || (y.base == e.base && y.base + y.count == lt && x.base == gt && x.base + x.count == hi)
    ensures Settled(cmp, t, segs + [x] + [y])
  {
    hide Settled, Shuffled, TotalPreorder;
    var parts := [x, y];
    assert parts[0] == x && parts[1] == y;
    forall i, j | 0 <= i < j < |t| && Holds(e, i) && Holds(e, j)
      ensures cmp(t[i], t[j]) <= 0 || Together(parts, i, j)
    {
      DividedInOrder(cmp, t, e.base, lt, gt, e.base + e.count, p, i, j);
      assert Holds(x, i) && Holds(x, j) ==> Holds(parts[0], i) && Holds(parts[0], j);
      assert Holds(y, i) && Holds(y, j) ==> Holds(parts[1], i) && Holds(parts[1], j);
    }
    SettledRefine(cmp, s, segs, e, t, parts);
    assert segs + parts == segs + [x] + [y];
  }

  /** The stack depths, from the bottom up: strictly increasing, from 1. */
  predicate Climbing(segs: seq<Segment>, depth: int) {
    && (forall k :: 0 <= k < |segs| ==> k < segs[k].depth <= depth)
    && (forall k, m :: 0 <= k < m < |segs| ==> segs[k].depth < segs[m].depth)
  }

  /** The same between segments, or the first entry alone, which has depth 0. */
  predicate Deepening(segs: seq<Segment>) {
    (|segs| == 1 && segs[0].depth == 0) || Climbing(segs, 50)
  }

  /** What remains to be done, for termination. */
  function Work(segs: seq<Segment>): nat {
    if segs == [] then 0 else Work(segs[..|segs| - 1]) + 2 * segs[|segs| - 1].count + 1
  }

  lemma WorkSnoc(segs: seq<Segment>, e: Segment)
    ensures Work(segs + [e]) == Work(segs) + 2 * e.count + 1
  {
    assert (segs + [e])[..|segs|] == segs;
  }

  /** One division of a segment: choice of the pivot, partition, centring. */
  method Divide<T(!new)>(a: array<T>, cmp: (T, T) -> int, ptr: nat, nmemb: nat) returns (lt: nat, gt: nat, ghost p: T)
    requires TotalPreorder(cmp) && 6 < nmemb && ptr + nmemb <= a.Length
    modifies a
    ensures ptr <= lt < gt <= ptr + nmemb
    ensures Divided(cmp, a[..], ptr, lt, gt, ptr + nmemb, p)
    ensures Shuffled(old(a[..]), a[..], ptr, ptr + nmemb)
  {
    hide TotalPreorder, Shuffled, Parted, Divided, Between, Swapped;
    ghost var was := a[..];
    ShuffledSelf(was, ptr, ptr + nmemb);
    var m4 := nmemb / 4;
    var m := Med3(a, cmp, ptr + m4, ptr + 2 * m4, ptr + 3 * m4);
    Swap(a, ptr, m, ptr, ptr + nmemb, was);
    var plt, pi, pgt := Scan(a, cmp, ptr, nmemb, was);
    p := a[ptr];
    lt, gt := Centre(a, cmp, ptr, plt, pi, pgt, ptr + nmemb, was);
  }

  /** Cuts a segment in two, the larger part to go on the stack. */
  method Cut<T(!new)>(a: array<T>, cmp: (T, T) -> int, ptr: nat, nmemb: nat, depth: nat, ghost segs: seq<Segment>,
                      ghost d0: nat, ghost was: seq<T>)
    returns (stacked: Segment, kept: Segment)
    requires TotalPreorder(cmp) && 6 < nmemb
    requires Settled(cmp, a[..], segs + [Segment(ptr, nmemb, d0)]) && Shuffled(was, a[..], 0, a.Length)
    modifies a
    ensures stacked.depth == depth && kept.depth == depth
    ensures kept.count <= stacked.count && kept.count + stacked.count < nmemb
    ensures Settled(cmp, a[..], segs + [stacked] + [kept]) && Shuffled(was, a[..], 0, a.Length)
  {
    hide TotalPreorder, Shuffled, Settled, Divided;
    ghost var e, s := Segment(ptr, nmemb, d0), a[..];
    SettledWithin(cmp, s, segs, e);
    var lt, gt; ghost var p;
    lt, gt, p := Divide(a, cmp, ptr, nmemb);
    ShuffledOn(was, s, a[..], ptr, ptr + nmemb);
    if lt - ptr > ptr + nmemb - gt {
      stacked, kept := Segment(ptr, lt - ptr, depth), Segment(gt, ptr + nmemb - gt, depth);
    } else {
      stacked, kept := Segment(gt, ptr + nmemb - gt, depth), Segment(ptr, lt - ptr, depth);
    }
    SettledSplit(cmp, s, segs, e, a[..], lt, gt, p, stacked, kept);
  }

  /** Sorts a segment for good: by insertion, or by heapsort when divisions go too deep. */
  method Finish<T(!new)>(a: array<T>, cmp: (T, T) -> int, ptr: nat, nmemb: nat, heap: bool, ghost segs: seq<Segment>,
                         ghost depth: nat, ghost was: seq<T>)
    requires TotalPreorder(cmp)
    requires Settled(cmp, a[..], segs + [Segment(ptr, nmemb, depth)]) && Shuffled(was, a[..], 0, a.Length)
    modifies a
    ensures Settled(cmp, a[..], segs) && Settled(cmp, a[..], segs + [Segment(ptr, 0, depth)])
    ensures Shuffled(was, a[..], 0, a.Length)
  {
    hide TotalPreorder, Shuffled, Settled, InOrder;
    ghost var e, s := Segment(ptr, nmemb, depth), a[..];
    SettledWithin(cmp, s, segs, e);
    if heap {
      HeapSort(a, cmp, ptr, nmemb);
    } else {
      InsertionSort(a, cmp, ptr, nmemb);
    }
    ShuffledOn(was, s, a[..], ptr, ptr + nmemb);
    SettledSorted(cmp, s, segs, e, a[..], depth);
  }

  /** rqsort: for every comparison function that is a total preorder the array ends up in order,
      with the same elements; no index of the fixed stack is ever out of range. */
  method RqSort<T(!new)>(a: array<T>, cmp: (T, T) -> int)
    requires TotalPreorder(cmp)
    modifies a
    ensures InOrder(cmp, a[..], 0, a.Length)
    ensures multiset(a[..]) == multiset(old(a[..]))
  {
    hide TotalPreorder, Shuffled, Settled, InOrder, Climbing, Work, Deepening;
    ghost var was := a[..];
    if a.Length < 2 {
      FewInOrder(cmp, was, 0, a.Length);
      return;
    }
    var stack := new Segment[50];
    stack[0] := Segment(0, a.Length, 0);
    var sp := 1;
    SettledStart(cmp, was);
    ShuffledSelf(was, 0, a.Length);
    FirstDeepens(Segment(0, a.Length, 0));
    assert stack[..sp] == [Segment(0, a.Length, 0)];
    while sp > 0
      invariant 0 <= sp <= 50
      invariant Deepening(stack[..sp])
      invariant Settled(cmp, a[..], stack[..sp]) && Shuffled(was, a[..], 0, a.Length)
      decreases Work(stack[..sp])
    {
      ghost var work := Work(stack[..sp]);
      ghost var all := stack[..sp];
      sp := sp - 1;
      var ptr, nmemb, depth := stack[sp].base, stack[sp].count, stack[sp].depth;
      assert all == stack[..sp] + [Segment(ptr, nmemb, depth)];
      Popped(stack[..sp], Segment(ptr, nmemb, depth));
      ghost var level := depth;
      while nmemb > 6
        invariant 0 <= sp <= 50 && level == depth <= 50
        invariant Climbing(stack[..sp], depth)
        invariant Settled(cmp, a[..], stack[..sp] + [Segment(ptr, nmemb, depth)])
        invariant Shuffled(was, a[..], 0, a.Length)
        invariant Work(stack[..sp]) + 2 * nmemb + 1 <= work
      {
        ghost var segs := stack[..sp];
        depth := depth + 1;
        if depth > 50 {
          Finish(a, cmp, ptr, nmemb, true, segs, level, was);
          nmemb := 0;
          assert stack[..sp] == segs;
          break;
        }
        var stacked, kept := Cut(a, cmp, ptr, nmemb, depth, segs, level, was);
        Pushed(segs, stacked, level);
        stack[sp] := stacked;
        sp := sp + 1;
        assert stack[..sp] == segs + [stacked];
        ptr, nmemb := kept.base, kept.count;
        level := depth;
      }
      ghost var segs := stack[..sp];
      Finish(a, cmp, ptr, nmemb, false, segs, level, was);
      assert stack[..sp] == segs;
      ClimbingDeepens(segs, level);
    }
    SettledEnd(cmp, a[..]);
    ShuffledAll(was, a[..], 0, a.Length);
  }

  lemma FirstDeepens(e: Segment)
    requires e.depth == 0
    ensures Deepening([e])
  {
  }

  lemma ClimbingDeepens(segs: seq<Segment>, depth: nat)
    requires Climbing(segs, depth) && depth <= 50
    ensures Deepening(segs)
  {
  }

  lemma Popped(segs: seq<Segment>, e: Segment)
    requires Deepening(segs + [e])
    ensures Climbing(segs, e.depth) && e.depth <= 50
    ensures Work(segs + [e]) == Work(segs) + 2 * e.count + 1
  {
    WorkSnoc(segs, e);
    var all := segs + [e];
    assert all[|segs|] == e;
    forall k | 0 <= k < |segs|
      ensures k < segs[k].depth < e.depth
    {
      assert all[k] == segs[k];
    }
    forall k, m | 0 <= k < m < |segs|
      ensures segs[k].depth < segs[m].depth
    {
      assert all[k] == segs[k] && all[m] == segs[m];
    }
  }

  lemma Pushed(segs: seq<Segment>, e: Segment, depth: nat)
    requires Climbing(segs, depth) && e.depth == depth + 1
    ensures Climbing(segs + [e], depth + 1) && |segs| <= depth
    ensures Work(segs + [e]) == Work(segs) + 2 * e.count + 1
  {
    WorkSnoc(segs, e);
    hide Work;
    var all := segs + [e];
    assert segs != [] ==> |segs| - 1 < segs[|segs| - 1].depth <= depth;
    forall k | 0 <= k < |all|
      ensures k < all[k].depth <= depth + 1
    {
      assert k < |segs| ==> all[k] == segs[k];
    }
  }

  lemma SettledStart<T(!new)>(cmp: (T, T) -> int, s: seq<T>)
    ensures Settled(cmp, s, [Segment(0, |s|, 0)])
  {
    var segs := [Segment(0, |s|, 0)];
    forall i, j | 0 <= i < j < |s|
      ensures Together(segs, i, j)
    {
      assert Holds(segs[0], i) && Holds(segs[0], j);
    }
  }

  lemma SettledWithin<T(!new)>(cmp: (T, T) -> int, s: seq<T>, segs: seq<Segment>, e: Segment)
    requires Settled(cmp, s, segs + [e])
    ensures e.base + e.count <= |s|
  {
    assert (segs + [e])[|segs|] == e;
  }

  lemma SettledEnd<T(!new)>(cmp: (T, T) -> int, s: seq<T>)
    requires Settled(cmp, s, [])
    ensures InOrder(cmp, s, 0, |s|)
  {
  }

  lemma ShuffledOn<T>(was: seq<T>, s: seq<T>, t: seq<T>, lo: int, hi: int)
    requires Shuffled(was, s, 0, |s|) && Shuffled(s, t, lo, hi)
    ensures Shuffled(was, t, 0, |s|)
  {
    ShuffledWider(s, t, lo, hi, 0, |s|);
    ShuffledTrans(was, s, t, 0, |s|);
  }
}
