/** The ordering `sort.Strings` uses and an in-place sort by it. Go compares
    strings byte by byte in their UTF-8 encoding, which orders them the same
    way as comparing their code points one by one. */
module StringSort {

  /** `a` sorts at or before `b`: lexicographic order on code points, a
      proper prefix first. */
  predicate Below(a: string, b: string)
    decreases |a|
  {
    |a| == 0 || (|b| > 0 && (a[0] < b[0] || (a[0] == b[0] && Below(a[1..], b[1..]))))
  }

  lemma {:induction false} BelowReflexive(a: string)
    ensures Below(a, a)
    decreases |a|
  {
    if |a| > 0 {
      BelowReflexive(a[1..]);
    }
  }

  lemma {:induction false} BelowTotal(a: string, b: string)
    ensures Below(a, b) || Below(b, a)
    decreases |a|
  {
    if |a| > 0 && |b| > 0 && a[0] == b[0] {
      BelowTotal(a[1..], b[1..]);
    }
  }

  lemma {:induction false} BelowTransitive(a: string, b: string, c: string)
    requires Below(a, b) && Below(b, c)
    ensures Below(a, c)
    decreases |a|
  {
    if |a| > 0 && a[0] == b[0] && b[0] == c[0] {
      BelowTransitive(a[1..], b[1..], c[1..]);
    }
  }

  lemma {:induction false} BelowAntisymmetric(a: string, b: string)
    requires Below(a, b) && Below(b, a)
    ensures a == b
    decreases |a|
  {
    if |a| > 0 {
      BelowAntisymmetric(a[1..], b[1..]);
      assert a == [a[0]] + a[1..] && b == [b[0]] + b[1..];
    }
  }

  /** Every element sorts at or before every later one. */
  ghost predicate Sorted(s: seq<string>) {
    forall i, j :: 0 <= i < j < |s| ==> Below(s[i], s[j])
  }

  /** Every element sorts at or before the next one, up to position `n`. */
  ghost predicate AdjacentSorted(s: seq<string>, n: int) {
    forall k :: 0 < k < n && k < |s| ==> Below(s[k - 1], s[k])
  }

  lemma {:induction false} AdjacentSortedIsSorted(s: seq<string>)
    requires AdjacentSorted(s, |s|)
    ensures Sorted(s)
  {
    forall i, j | 0 <= i < j < |s|
      ensures Below(s[i], s[j])
    {
      ChainBelow(s, i, j);
    }
  }

  lemma {:induction false} ChainBelow(s: seq<string>, i: int, j: int)
    requires 0 <= i < j < |s| && AdjacentSorted(s, |s|)
    ensures Below(s[i], s[j])
    decreases j - i
  {
    if i + 1 < j {
      ChainBelow(s, i + 1, j);
      BelowTransitive(s[i], s[i + 1], s[j]);
    }
  }

  lemma SortedTail(s: seq<string>)
    requires |s| > 0 && Sorted(s)
    ensures Sorted(s[1..])
  {
    forall i, j | 0 <= i < j < |s| - 1
      ensures Below(s[1..][i], s[1..][j])
    {
      assert s[1..][i] == s[i + 1] && s[1..][j] == s[j + 1];
    }
  }

  /** Two sorted orderings of the same strings start with the same one. */
  lemma SortedSameHead(a: seq<string>, b: seq<string>)
    requires |a| > 0 && |b| > 0 && Sorted(a) && Sorted(b) && multiset(a) == multiset(b)
    ensures a[0] == b[0]
  {
    assert a[0] in multiset(b);
    var k :| 0 <= k < |b| && b[k] == a[0];
    assert b[0] in multiset(a);
    var m :| 0 <= m < |a| && a[m] == b[0];
    if k == 0 { BelowReflexive(b[0]); }
    if m == 0 { BelowReflexive(a[0]); }
    assert Below(b[0], b[k]) && Below(a[0], a[m]);
    BelowAntisymmetric(a[0], b[0]);
  }

  /** Sorting determines its result: two sorted orderings of the same
      strings are the same sequence. */
  lemma {:induction false} SortedPermutationUnique(a: seq<string>, b: seq<string>)
    requires Sorted(a) && Sorted(b) && multiset(a) == multiset(b)
    ensures a == b
    decreases |a|
  {
    assert |a| == |multiset(a)| == |multiset(b)| == |b|;
    if |a| > 0 {
      SortedSameHead(a, b);
      assert a == [a[0]] + a[1..] && b == [b[0]] + b[1..];
      assert multiset(a) == multiset{a[0]} + multiset(a[1..]);
      assert multiset(b) == multiset{b[0]} + multiset(b[1..]);
      assert multiset(a[1..]) == multiset(a) - multiset{a[0]};
      assert multiset(b[1..]) == multiset(b) - multiset{b[0]};
      SortedTail(a);
      SortedTail(b);
      SortedPermutationUnique(a[1..], b[1..]);
    }
  }

  /** Exchanges `a[j - 1]` and `a[j]`. */
  method SwapDown(a: array<string>, j: int)
    requires 0 < j < a.Length
    modifies a
    ensures a[j - 1] == old(a[j]) && a[j] == old(a[j - 1])
    ensures forall k :: 0 <= k < a.Length && k != j - 1 && k != j ==> a[k] == old(a[k])
    ensures multiset(a[..]) == multiset(old(a[..]))
  {
    a[j - 1], a[j] := a[j], a[j - 1];
  }

  /** Moves `a[i]` down into the sorted prefix `a[..i]`. */
  method InsertDown(a: array<string>, i: int)
    requires 0 < i < a.Length && AdjacentSorted(a[..], i)
    modifies a
    ensures AdjacentSorted(a[..], i + 1)
    ensures forall k :: i < k < a.Length ==> a[k] == old(a[k])
    ensures multiset(a[..]) == multiset(old(a[..]))
  {
    var j := i;
    while j > 0 && !Below(a[j - 1], a[j])
      invariant 0 <= j <= i
      invariant forall k :: 0 < k <= i && k != j ==> Below(a[k - 1], a[k])
      invariant 0 < j < i ==> Below(a[j - 1], a[j + 1])
      invariant forall k :: i < k < a.Length ==> a[k] == old(a[k])
      invariant multiset(a[..]) == multiset(old(a[..]))
    {
      BelowTotal(a[j - 1], a[j]);
      SwapDown(a, j);
      j := j - 1;
    }
  }

  /** Sorts `a` in place (insertion by adjacent swaps). */
  method SortStrings(a: array<string>)
    modifies a
    ensures Sorted(a[..])
    ensures multiset(a[..]) == multiset(old(a[..]))
  {
    var i := 1;
    while i < a.Length
      invariant a.Length == 0 || 1 <= i <= a.Length
      invariant AdjacentSorted(a[..], i)
      invariant multiset(a[..]) == multiset(old(a[..]))
    {
      InsertDown(a, i);
      i := i + 1;
    }
    AdjacentSortedIsSorted(a[..]);
  }
}
