// `data.sort((a, b) => Date.parse(a.created_at) - Date.parse(b.created_at))`:
// a stable ascending sort of the fetched batch by creation time.

module TimeOrder {
  import opened Tweets

  predicate Sorted(s: seq<Tweet>) {
    forall i, j :: 0 <= i < j < |s| ==> s[i].createdAt <= s[j].createdAt
  }

  /** The tweets of `s` created at time `k`, in their order in `s`. */
  function AtTime(s: seq<Tweet>, k: int): seq<Tweet>
  {
    if s == [] then []
    else AtTime(s[..|s| - 1], k) + (if s[|s| - 1].createdAt == k then [s[|s| - 1]] else [])
  }

  /** Places `x` after every element of `r` created no later than it. */
  function Insert(r: seq<Tweet>, x: Tweet): seq<Tweet>
  {
    if r == [] || r[|r| - 1].createdAt <= x.createdAt then r + [x]
    else Insert(r[..|r| - 1], x) + [r[|r| - 1]]
  }

  /** The stably sorted batch: each element is inserted after everything
      before it that is not later. */
  function SortByTime(s: seq<Tweet>): seq<Tweet>
  {
    if s == [] then [] else Insert(SortByTime(s[..|s| - 1]), s[|s| - 1])
  }

  lemma {:induction false} InsertPermutes(r: seq<Tweet>, x: Tweet)
    ensures multiset(Insert(r, x)) == multiset(r) + multiset{x}
    decreases |r|
  {
    if !(r == [] || r[|r| - 1].createdAt <= x.createdAt) {
      var init := r[..|r| - 1];
      assert r == init + [r[|r| - 1]];
      InsertPermutes(init, x);
    }
  }

  lemma {:induction false} InsertSorted(r: seq<Tweet>, x: Tweet)
    requires Sorted(r)
    ensures Sorted(Insert(r, x))
    decreases |r|
  {
    if !(r == [] || r[|r| - 1].createdAt <= x.createdAt) {
      var last := r[|r| - 1];
      var init := r[..|r| - 1];
      InsertSorted(init, x);
      InsertPermutes(init, x);
      var q' := Insert(init, x);
      forall e | e in q' ensures e.createdAt <= last.createdAt {
        assert e in multiset(init) + multiset{x};
      }
    }
  }

  /** The sorted batch is in non-decreasing time order and holds exactly
      the fetched tweets. */
  lemma {:induction false} SortByTimeCorrect(s: seq<Tweet>)
    ensures Sorted(SortByTime(s))
    ensures multiset(SortByTime(s)) == multiset(s)
  {
    if s != [] {
      var init := s[..|s| - 1];
      assert s == init + [s[|s| - 1]];
      SortByTimeCorrect(init);
      InsertSorted(SortByTime(init), s[|s| - 1]);
      InsertPermutes(SortByTime(init), s[|s| - 1]);
    }
  }

  lemma AtTimeAppend(s: seq<Tweet>, x: Tweet, k: int)
    ensures AtTime(s + [x], k) == AtTime(s, k) + (if x.createdAt == k then [x] else [])
  {
    assert (s + [x])[..|s|] == s;
  }

  lemma {:induction false} InsertStable(r: seq<Tweet>, x: Tweet, k: int)
    ensures AtTime(Insert(r, x), k) == AtTime(r, k) + (if x.createdAt == k then [x] else [])
    decreases |r|
  {
    if r == [] || r[|r| - 1].createdAt <= x.createdAt {
      AtTimeAppend(r, x, k);
    } else {
      var last := r[|r| - 1];
      var init := r[..|r| - 1];
      assert r == init + [last];
      InsertStable(init, x, k);
      AtTimeAppend(Insert(init, x), last, k);
      AtTimeAppend(init, last, k);
    }
  }

  /** The sort is stable: tweets created at the same time keep their
      relative order. */
  lemma {:induction false} SortIsStable(s: seq<Tweet>, k: int)
    ensures AtTime(SortByTime(s), k) == AtTime(s, k)
  {
    if s != [] {
      var init := s[..|s| - 1];
      SortIsStable(init, k);
      InsertStable(SortByTime(init), s[|s| - 1], k);
      AtTimeAppend(init, s[|s| - 1], k);
      assert s == init + [s[|s| - 1]];
    }
  }

  /** Where `Insert` puts `x`: after the prefix `r[..j]` of elements not
      later than it, before the suffix of later ones. */
  lemma {:induction false} InsertAt(r: seq<Tweet>, x: Tweet, j: nat)
    requires j <= |r|
    requires j == 0 || r[j - 1].createdAt <= x.createdAt
    requires forall k :: j <= k < |r| ==> r[k].createdAt > x.createdAt
    ensures Insert(r, x) == r[..j] + [x] + r[j..]
    decreases |r|
  {
    if j < |r| {
      var init := r[..|r| - 1];
      InsertAt(init, x, j);
      assert r[..j] == init[..j];
      assert r[j..] == init[j..] + [r[|r| - 1]];
    }
  }

  /** The inner loop of the insertion step: moves every element of the
      sorted prefix `a[..i]` created later than `x` one place right, and
      returns the index of the gap left for `x`. */
  method ShiftLater(a: array<Tweet>, i: nat, x: Tweet) returns (j: nat)
    requires i < a.Length
    modifies a
    ensures j <= i
    ensures j == 0 || old(a[j - 1]).createdAt <= x.createdAt
    ensures forall k :: j <= k < i ==> old(a[k]).createdAt > x.createdAt
    ensures forall k :: 0 <= k < j ==> a[k] == old(a[k])
    ensures forall k :: j < k <= i ==> a[k] == old(a[k - 1])
    ensures forall k :: i < k < a.Length ==> a[k] == old(a[k])
  {
    j := i;
    while j > 0 && a[j - 1].createdAt > x.createdAt
      invariant 0 <= j <= i
      invariant forall k :: 0 <= k < j ==> a[k] == old(a[k])
      invariant forall k :: j < k <= i ==> a[k] == old(a[k - 1])
      invariant forall k :: j <= k < i ==> old(a[k]).createdAt > x.createdAt
      invariant forall k :: i < k < a.Length ==> a[k] == old(a[k])
    {
      a[j] := a[j - 1];
      j := j - 1;
    }
  }

  /** One step of the in-place insertion sort: drops `a[i]` into place in
      the sorted prefix `a[..i]`. */
  method InsertLast(a: array<Tweet>, i: nat)
    requires i < a.Length
    modifies a
    ensures a[..i + 1] == Insert(old(a[..i]), old(a[i]))
    ensures a[i + 1..] == old(a[i + 1..])
  {
    var x := a[i];
    ghost var r := a[..i];
    var j := ShiftLater(a, i, x);
    a[j] := x;
    InsertAt(r, x, j);
    assert a[..i + 1] == r[..j] + [x] + r[j..];
  }

  /** Sorts the fetched array in place by creation time, stably. */
  method SortInPlace(a: array<Tweet>)
    modifies a
    ensures a[..] == SortByTime(old(a[..]))
  {
    ghost var input := a[..];
    var i := 0;
    while i < a.Length
      invariant 0 <= i <= a.Length
      invariant a[..i] == SortByTime(input[..i])
      invariant a[i..] == input[i..]
    {
      InsertLast(a, i);
      assert input[..i + 1][..i] == input[..i];
      i := i + 1;
    }
    assert input[..a.Length] == input;
  }
}
