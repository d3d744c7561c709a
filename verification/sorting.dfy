/**
 * A stable insertion sort under a total preorder: the order both the
 * database's `orderBy` and JavaScript's `Array.prototype.sort` produce.
 */
module Sorting {

  import opened Seqs

  /** `le` is total and transitive. */
  ghost predicate IsTotalPreorder<T(!new)>(le: (T, T) -> bool) {
    && (forall a, b :: le(a, b) || le(b, a))
    && (forall a, b, c :: le(a, b) && le(b, c) ==> le(a, c))
  }

  /** Totality with both arguments equal. */
  lemma Reflexive<T(!new)>(le: (T, T) -> bool, x: T)
    requires IsTotalPreorder(le)
    ensures le(x, x)
  {
    var a, b := x, x;
    assert le(a, b) || le(b, a);
  }

  predicate SortedBy<T>(s: seq<T>, le: (T, T) -> bool) {
    forall i, j :: 0 <= i < j < |s| ==> le(s[i], s[j])
  }

  /** `x` placed before the first element it is `le` to. */
  function InsertBy<T(!new)>(x: T, s: seq<T>, le: (T, T) -> bool): (r: seq<T>)
    requires IsTotalPreorder(le) && SortedBy(s, le)
    ensures SortedBy(r, le)
    ensures multiset(r) == multiset(s) + multiset{x}
  {
    if s == [] || le(x, s[0]) then
      if s != [] then LeadsSorted(x, s, le); ConsSorted(x, s, le); [x] + s
      else [x]
    else
      var t := InsertBy(x, s[1..], le);
      assert s == [s[0]] + s[1..];
      HeadBeforeInsert(x, s, t, le);
      ConsSorted(s[0], t, le);
      [s[0]] + t
  }

  /** An element `le` every element of a sorted sequence may lead it. */
  lemma ConsSorted<T>(x: T, t: seq<T>, le: (T, T) -> bool)
    requires SortedBy(t, le)
    requires forall k :: 0 <= k < |t| ==> le(x, t[k])
    ensures SortedBy([x] + t, le)
  {
    forall i, j | 0 <= i < j < |[x] + t| ensures le(([x] + t)[i], ([x] + t)[j]) {
      assert ([x] + t)[j] == t[j - 1];
      if i > 0 {
        assert ([x] + t)[i] == t[i - 1];
      }
    }
  }

  /** An element `le` the head of a sorted sequence is `le` all of it. */
  lemma LeadsSorted<T(!new)>(x: T, s: seq<T>, le: (T, T) -> bool)
    requires IsTotalPreorder(le) && SortedBy(s, le) && s != [] && le(x, s[0])
    ensures forall k :: 0 <= k < |s| ==> le(x, s[k])
  {
    forall k | 0 < k < |s| ensures le(x, s[k]) {
      assert le(s[0], s[k]);
    }
  }

  /** When `x` goes after the head, the head is `le` everything the insertion leaves behind it. */
  lemma HeadBeforeInsert<T(!new)>(x: T, s: seq<T>, t: seq<T>, le: (T, T) -> bool)
    requires IsTotalPreorder(le) && SortedBy(s, le) && s != [] && !le(x, s[0])
    requires multiset(t) == multiset(s[1..]) + multiset{x}
    ensures forall k :: 0 <= k < |t| ==> le(s[0], t[k])
  {
    forall k | 0 <= k < |t| ensures le(s[0], t[k]) {
      assert t[k] in multiset(t);
      if t[k] != x {
        assert t[k] in multiset(s[1..]);
        var j :| 0 <= j < |s[1..]| && s[1..][j] == t[k];
        assert s[j + 1] == t[k];
      }
    }
  }

  /** The elements of `s` rearranged into `le` order. */
  function SortBy<T(!new)>(s: seq<T>, le: (T, T) -> bool): (r: seq<T>)
    requires IsTotalPreorder(le)
    ensures SortedBy(r, le)
    ensures multiset(r) == multiset(s)
  {
    if s == [] then []
    else
      assert s == [s[0]] + s[1..];
      InsertBy(s[0], SortBy(s[1..], le), le)
  }

  /** `s[i]` is `le` every element of `s`. */
  predicate IsLeastAt<T>(s: seq<T>, le: (T, T) -> bool, i: int) {
    0 <= i < |s| && forall j :: 0 <= j < |s| ==> le(s[i], s[j])
  }

  /** `s[i]` is the earliest element of `s` that is `le` every element. */
  predicate IsFirstLeastAt<T>(s: seq<T>, le: (T, T) -> bool, i: int) {
    IsLeastAt(s, le, i) && forall k :: 0 <= k < i ==> !IsLeastAt(s, le, k)
  }

  /**
   * Stability at the head: the first element of the sorted arrangement is
   * the earliest element of `s` that is `le` every element.
   */
  lemma SortByHeadIsFirstLeast<T(!new)>(s: seq<T>, le: (T, T) -> bool) returns (i: nat)
    requires IsTotalPreorder(le) && s != []
    ensures IsFirstLeastAt(s, le, i) && SortBy(s, le)[0] == s[i]
  {
    i := HeadByIsFirstLeast(s, le);
    SortByHeadIsHeadBy(s, le);
  }

  /** The element an insertion sort puts first, found in one pass from the back. */
  function HeadBy<T>(s: seq<T>, le: (T, T) -> bool): T
    requires s != []
  {
    if |s| == 1 then s[0]
    else
      var h := HeadBy(s[1..], le);
      if le(s[0], h) then s[0] else h
  }

  lemma {:induction false} SortByHeadIsHeadBy<T(!new)>(s: seq<T>, le: (T, T) -> bool)
    requires IsTotalPreorder(le) && s != []
    ensures SortBy(s, le)[0] == HeadBy(s, le)
  {
    SortByHead(s, le);
    if |s| > 1 {
      SortByHeadIsHeadBy(s[1..], le);
    }
  }

  /** The head of the sorted arrangement: the first element, unless the sorted rest's head must go before it. */
  lemma SortByHead<T(!new)>(s: seq<T>, le: (T, T) -> bool)
    requires IsTotalPreorder(le) && s != []
    ensures var rest := SortBy(s[1..], le);
      SortBy(s, le)[0] == if rest == [] || le(s[0], rest[0]) then s[0] else rest[0]
  {
  }

  lemma {:induction false} HeadByIsFirstLeast<T(!new)>(s: seq<T>, le: (T, T) -> bool) returns (i: nat)
    requires IsTotalPreorder(le) && s != []
    ensures IsFirstLeastAt(s, le, i) && HeadBy(s, le) == s[i]
  {
    if |s| == 1 {
      Reflexive(le, s[0]);
      i := 0;
    } else {
      var i' := HeadByIsFirstLeast(s[1..], le);
      if le(s[0], s[1..][i']) {
        LeadingHeadIsLeast(s, le, i');
        i := 0;
      } else {
        LaterHeadIsFirstLeast(s, le, i');
        i := i' + 1;
      }
    }
  }

  /** A first element `le` the least element of the rest is least. */
  lemma LeadingHeadIsLeast<T(!new)>(s: seq<T>, le: (T, T) -> bool, i': nat)
    requires IsTotalPreorder(le) && s != []
    requires IsLeastAt(s[1..], le, i') && le(s[0], s[1..][i'])
    ensures IsFirstLeastAt(s, le, 0)
  {
    forall j | 0 <= j < |s| ensures le(s[0], s[j]) {
      if j == 0 {
        Reflexive(le, s[0]);
      } else {
        assert s[j] == s[1..][j - 1];
        assert le(s[1..][i'], s[1..][j - 1]);
      }
    }
  }

  /**
   * When the first element is not `le` the earliest least element of the
   * rest, that element is the earliest least element of the whole.
   */
  lemma LaterHeadIsFirstLeast<T(!new)>(s: seq<T>, le: (T, T) -> bool, i': nat)
    requires IsTotalPreorder(le) && s != []
    requires IsFirstLeastAt(s[1..], le, i') && !le(s[0], s[1..][i'])
    ensures IsFirstLeastAt(s, le, i' + 1) && s[i' + 1] == s[1..][i']
  {
    var i := i' + 1;
    assert s[i] == s[1..][i'];
    forall j | 0 <= j < |s| ensures le(s[i], s[j]) {
      if j == 0 {
        assert le(s[0], s[i]) || le(s[i], s[0]);
      } else {
        assert s[j] == s[1..][j - 1];
      }
    }
    forall k | 0 <= k < i ensures !IsLeastAt(s, le, k) {
      if k > 0 {
        assert !IsLeastAt(s[1..], le, k - 1);
        var j :| 0 <= j < |s[1..]| && !le(s[1..][k - 1], s[1..][j]);
        assert !le(s[k], s[j + 1]);
      }
    }
  }

  /** Filtering a sorted sequence keeps it sorted. */
  lemma {:induction false} FilterSorted<T(!new)>(s: seq<T>, keep: T -> bool, le: (T, T) -> bool)
    requires SortedBy(s, le)
    ensures SortedBy(Filter(s, keep), le)
  {
    if s != [] {
      FilterSorted(s[1..], keep, le);
      var rest := Filter(s[1..], keep);
      forall y | y in rest ensures le(s[0], y) {
        var j :| 0 <= j < |s[1..]| && s[1..][j] == y;
        assert s[j + 1] == y;
      }
    }
  }
}
