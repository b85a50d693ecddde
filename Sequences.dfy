/**
 * The collection operations the bundler uses: LINQ's `Where` over a list,
 * and `List<T>.Sort` with a comparer, whose ordering is only known to be a
 * total preorder (the culture-sensitive `string.CompareTo`).
 */
module Sequences {

  // ---------------------------------------------------------------------
  // Where
  // ---------------------------------------------------------------------

  /** `s.Where(f)`: the elements of `s` that satisfy `f`, in their order. */
  function Filter<T>(f: T -> bool, s: seq<T>): (r: seq<T>)
    ensures |r| <= |s|
    ensures forall x :: x in r ==> x in s && f(x)
  {
    if s == [] then [] else (if f(s[0]) then [s[0]] else []) + Filter(f, s[1..])
  }

  /** Filtering a concatenation filters each part and keeps them in order. */
  lemma {:induction false} FilterAppend<T>(f: T -> bool, a: seq<T>, b: seq<T>)
    ensures Filter(f, a + b) == Filter(f, a) + Filter(f, b)
    decreases |a|
  {
    if a == [] {
      assert a + b == b;
    } else {
      assert (a + b)[0] == a[0];
      assert (a + b)[1..] == a[1..] + b;
      FilterAppend(f, a[1..], b);
    }
  }

  /** Each element occurs in the filtered sequence as often as in the input, or not at all. */
  lemma {:induction false} FilterCount<T>(f: T -> bool, s: seq<T>, x: T)
    ensures multiset(Filter(f, s))[x] == if f(x) then multiset(s)[x] else 0
    decreases |s|
  {
    if s != [] {
      FilterCount(f, s[1..], x);
      assert s == [s[0]] + s[1..];
      assert multiset(s) == multiset([s[0]]) + multiset(s[1..]);
    }
  }

  /** A sequence all of whose elements pass is left unchanged. */
  lemma {:induction false} FilterKeepsAll<T>(f: T -> bool, s: seq<T>)
    requires forall x :: x in s ==> f(x)
    ensures Filter(f, s) == s
    decreases |s|
  {
    if s != [] {
      assert s[0] in s;
      assert forall x :: x in s[1..] ==> x in s;
      FilterKeepsAll(f, s[1..]);
      assert [s[0]] + s[1..] == s;
    }
  }

  // ---------------------------------------------------------------------
  // Orderings
  // ---------------------------------------------------------------------

  /** `le` is a total preorder: every two strings compare, and comparisons chain. */
  ghost predicate TotalPreorder(le: (string, string) -> bool) {
    && (forall x, y :: le(x, y) || le(y, x))
    && (forall x, y, z :: le(x, y) && le(y, z) ==> le(x, z))
  }

  /** `s` is non-decreasing when each element is compared by its `key`. */
  ghost predicate SortedBy(s: seq<string>, key: string -> string, le: (string, string) -> bool) {
    forall i, j :: 0 <= i < j < |s| ==> le(key(s[i]), key(s[j]))
  }

  /** Lexicographic order on Unicode scalar values, an ordinal comparison of strings. */
  predicate OrdinalLe(a: string, b: string)
    decreases |a|
  {
    if a == [] then true
    else if b == [] then false
    else if a[0] != b[0] then a[0] < b[0]
    else OrdinalLe(a[1..], b[1..])
  }

  lemma {:induction false} OrdinalLeTotal(a: string, b: string)
    ensures OrdinalLe(a, b) || OrdinalLe(b, a)
    decreases |a|
  {
    if a != [] && b != [] && a[0] == b[0] {
      OrdinalLeTotal(a[1..], b[1..]);
    }
  }

  lemma {:induction false} OrdinalLeTransitive(a: string, b: string, c: string)
    requires OrdinalLe(a, b) && OrdinalLe(b, c)
    ensures OrdinalLe(a, c)
    decreases |a|
  {
    if a != [] && b != [] && c != [] && a[0] == b[0] && b[0] == c[0] {
      OrdinalLeTransitive(a[1..], b[1..], c[1..]);
    }
  }

  /** The ordinal order is one of the orders the sort may be given. */
  lemma OrdinalLeIsTotalPreorder()
    ensures TotalPreorder(OrdinalLe)
  {
    forall x, y ensures OrdinalLe(x, y) || OrdinalLe(y, x) {
      OrdinalLeTotal(x, y);
    }
    forall x, y, z | OrdinalLe(x, y) && OrdinalLe(y, z) ensures OrdinalLe(x, z) {
      OrdinalLeTransitive(x, y, z);
    }
  }

  // ---------------------------------------------------------------------
  // List<string>.Sort
  // ---------------------------------------------------------------------

  /** The first `n` elements of `s` are non-decreasing by `key`. */
  ghost predicate SortedPrefix(s: seq<string>, n: int, key: string -> string, le: (string, string) -> bool) {
    forall p, q :: 0 <= p < q < n && q < |s| ==> le(key(s[p]), key(s[q]))
  }

  /**
   * Sorts the list's backing array in place by `key` under `le`. The order
   * of elements with equal keys is not specified, as it is not for .NET's
   * unstable sort.
   */
  method SortInPlace(a: array<string>, key: string -> string, le: (string, string) -> bool)
    requires TotalPreorder(le)
    modifies a
    ensures SortedBy(a[..], key, le)
    ensures multiset(a[..]) == multiset(old(a[..]))
  {
    for i := 0 to a.Length
      invariant SortedPrefix(a[..], i, key, le)
      invariant multiset(a[..]) == multiset(old(a[..]))
    {
      InsertLast(a, i, key, le);
    }
  }

  /** Moves `a[i]` left past every larger element, extending the sorted prefix by one. */
  method InsertLast(a: array<string>, i: int, key: string -> string, le: (string, string) -> bool)
    requires TotalPreorder(le)
    requires 0 <= i < a.Length && SortedPrefix(a[..], i, key, le)
    modifies a
    ensures SortedPrefix(a[..], i + 1, key, le)
    ensures multiset(a[..]) == multiset(old(a[..]))
  {
    var j := i;
    while j > 0 && !le(key(a[j - 1]), key(a[j]))
      invariant 0 <= j <= i
      invariant Inserting(a[..], j, i, key, le)
      invariant multiset(a[..]) == multiset(old(a[..]))
    {
      ghost var s := a[..];
      a[j - 1], a[j] := a[j], a[j - 1];
      assert a[..] == s[j - 1 := s[j]][j := s[j - 1]];
      SwapStep(s, j, i, key, le);
      j := j - 1;
    }
    InsertionDone(a[..], j, i, key, le);
  }

  /**
   * While `s[j]` moves left through the first `i + 1` elements: every pair
   * not involving position `j` is in order, and `s[j]` is not above anything
   * to its right.
   */
  ghost predicate Inserting(s: seq<string>, j: int, i: int, key: string -> string, le: (string, string) -> bool)
    requires 0 <= j <= i < |s|
  {
    && (forall p, q :: 0 <= p < q <= i && p != j && q != j ==> le(key(s[p]), key(s[q])))
    && (forall q :: j < q <= i ==> le(key(s[j]), key(s[q])))
  }

  /** Swapping `s[j]` with a larger left neighbour keeps the insertion going one place further left. */
  lemma SwapStep(s: seq<string>, j: int, i: int, key: string -> string, le: (string, string) -> bool)
    requires TotalPreorder(le)
    requires 0 < j <= i < |s| && Inserting(s, j, i, key, le) && !le(key(s[j - 1]), key(s[j]))
    ensures Inserting(s[j - 1 := s[j]][j := s[j - 1]], j - 1, i, key, le)
  {
    var t := s[j - 1 := s[j]][j := s[j - 1]];
    assert le(key(s[j]), key(s[j - 1]));
    forall q | j - 1 < q <= i
      ensures le(key(t[j - 1]), key(t[q]))
    {
      if q > j {
        assert le(key(s[j]), key(s[q]));
      }
    }
    forall p, q | 0 <= p < q <= i && p != j - 1 && q != j - 1
      ensures le(key(t[p]), key(t[q]))
    {
      if q == j {
        assert le(key(s[p]), key(s[j - 1]));
      } else if p == j {
        assert le(key(s[j - 1]), key(s[q]));
      }
    }
  }

  /** Once `s[j]` is not below its left neighbour, the first `i + 1` elements are sorted. */
  lemma InsertionDone(s: seq<string>, j: int, i: int, key: string -> string, le: (string, string) -> bool)
    requires TotalPreorder(le)
    requires 0 <= j <= i < |s| && Inserting(s, j, i, key, le)
    requires j > 0 ==> le(key(s[j - 1]), key(s[j]))
    ensures SortedPrefix(s, i + 1, key, le)
  {
    forall p, q | 0 <= p < q <= i
      ensures le(key(s[p]), key(s[q]))
    {
      if q == j && p < j - 1 {
        assert le(key(s[p]), key(s[j - 1]));
      } else if p == j - 1 && q > j {
        assert le(key(s[j]), key(s[q]));
      }
    }
  }
}
