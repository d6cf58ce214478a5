/** JavaScript's ordering of strings and the in-place sort the adapter screen
    applies to fetched lists with the comparator `(a, b) => (a.k > b.k) ? 1 : -1`. */
module Ordering {

  /** JavaScript's `a > b` on two strings: the first differing character
      decides, and a proper prefix sorts before the longer string. */
  predicate Greater(a: string, b: string)
    decreases |a|
  {
    if a == [] then false
    else if b == [] then true
    else if a[0] != b[0] then a[0] > b[0]
    else Greater(a[1..], b[1..])
  }

  lemma {:induction false} GreaterAsymmetric(a: string, b: string)
    ensures Greater(a, b) ==> !Greater(b, a)
    decreases |a|
  {
    if a != [] && b != [] && a[0] == b[0] {
      GreaterAsymmetric(a[1..], b[1..]);
    }
  }

  /** "Not greater" is transitive, so a list with no adjacent pair out of
      order has no pair out of order at all. */
  lemma {:induction false} NotGreaterTransitive(a: string, b: string, c: string)
    requires !Greater(a, b) && !Greater(b, c)
    ensures !Greater(a, c)
    decreases |a|
  {
    if a != [] && b != [] && c != [] && a[0] == b[0] == c[0] {
      NotGreaterTransitive(a[1..], b[1..], c[1..]);
    }
  }

  /** Every two entries are in the order the comparator asks for: the
      comparator would swap no pair. */
  predicate Sorted<T>(s: seq<T>, key: T -> string)
  {
    forall i, j :: 0 <= i < j < |s| ==> !Greater(key(s[i]), key(s[j]))
  }

  /** Neighbours in s[lo..hi] are in order. */
  predicate AdjacentSorted<T>(s: seq<T>, lo: int, hi: int, key: T -> string)
  {
    0 <= lo <= hi <= |s| &&
    forall k :: lo < k < hi ==> !Greater(key(s[k - 1]), key(s[k]))
  }

  lemma {:induction false} AdjacentSortedIsSorted<T>(s: seq<T>, key: T -> string)
    requires AdjacentSorted(s, 0, |s|, key)
    ensures Sorted(s, key)
    decreases |s|
  {
    if |s| > 1 {
      var init := s[..|s| - 1];
      assert AdjacentSorted(init, 0, |init|, key) by {
        forall k | 0 < k < |init| ensures !Greater(key(init[k - 1]), key(init[k])) {
          assert init[k - 1] == s[k - 1] && init[k] == s[k];
        }
      }
      AdjacentSortedIsSorted(init, key);
      forall i | 0 <= i < |s| - 1
        ensures !Greater(key(s[i]), key(s[|s| - 1]))
      {
        ToLastNotGreater(s, key, i);
      }
      forall i, j | 0 <= i < j < |s|
        ensures !Greater(key(s[i]), key(s[j]))
      {
        if j < |s| - 1 {
          assert init[i] == s[i] && init[j] == s[j];
        }
      }
    }
  }

  /** In a list whose neighbours are in order, entry i is not greater than
      the last entry. */
  lemma {:induction false} ToLastNotGreater<T>(s: seq<T>, key: T -> string, i: int)
    requires AdjacentSorted(s, 0, |s|, key)
    requires 0 <= i < |s|
    ensures !Greater(key(s[i]), key(s[|s| - 1]))
    decreases |s| - i
  {
    if i == |s| - 1 {
      GreaterAsymmetric(key(s[i]), key(s[i]));
    } else {
      ToLastNotGreater(s, key, i + 1);
      NotGreaterTransitive(key(s[i]), key(s[i + 1]), key(s[|s| - 1]));
    }
  }

  method Swap<T>(a: array<T>, i: int, j: int)
    requires 0 <= i < j < a.Length
    modifies a
    ensures a[i] == old(a[j]) && a[j] == old(a[i])
    ensures forall m :: 0 <= m < a.Length && m != i && m != j ==> a[m] == old(a[m])
    ensures multiset(a[..]) == multiset(old(a[..]))
  {
    a[i], a[j] := a[j], a[i];
  }

  /** `a.sort((x, y) => (key(x) > key(y)) ? 1 : -1)`, as an insertion sort
      that moves an entry left while the comparator says its left neighbour
      is greater. The result is sorted and a permutation of the input; the
      order among equal keys is left to the algorithm. */
  method SortByKey<T>(a: array<T>, key: T -> string)
    modifies a
    ensures Sorted(a[..], key)
    ensures multiset(a[..]) == multiset(old(a[..]))
  {
    if a.Length == 0 {
      return;
    }
    var i := 1;
    while i < a.Length
      invariant 1 <= i <= a.Length
      invariant AdjacentSorted(a[..], 0, i, key)
      invariant multiset(a[..]) == multiset(old(a[..]))
    {
      var j := i;
      while j > 0 && Greater(key(a[j - 1]), key(a[j]))
        invariant 0 <= j <= i
        invariant AdjacentSorted(a[..], 0, j, key)
        invariant AdjacentSorted(a[..], j, i + 1, key)
        invariant 0 < j < i ==> !Greater(key(a[j - 1]), key(a[j + 1]))
        invariant multiset(a[..]) == multiset(old(a[..]))
      {
        GreaterAsymmetric(key(a[j - 1]), key(a[j]));
        Swap(a, j - 1, j);
        j := j - 1;
      }
      i := i + 1;
    }
    AdjacentSortedIsSorted(a[..], key);
  }
}
