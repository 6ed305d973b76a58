/**
 * The Python list operations the section widget relies on: sorting in
 * reverse order, and deleting a set of positions from a list of rows.
 */
module ListOps {

  predicate Distinct<T(==)>(s: seq<T>)
  {
    forall i, j :: 0 <= i < j < |s| ==> s[i] != s[j]
  }

  predicate Descending(s: seq<int>)
  {
    forall i, j :: 0 <= i < j < |s| ==> s[i] >= s[j]
  }

  predicate StrictlyDescending(s: seq<int>)
  {
    forall i, j :: 0 <= i < j < |s| ==> s[i] > s[j]
  }

  function InsertDescending(x: int, s: seq<int>): (r: seq<int>)
    requires Descending(s)
    ensures Descending(r)
    ensures multiset(r) == multiset(s) + multiset{x}
  {
    if s == [] then [x]
    else if x >= s[0] then [x] + s
    else
      var rest := InsertDescending(x, s[1..]);
      InsertBelowHead(x, s, rest);
      [s[0]] + rest
  }

  /** Inserting below the head keeps the head first. */
  lemma InsertBelowHead(x: int, s: seq<int>, rest: seq<int>)
    requires Descending(s) && s != [] && x < s[0]
    requires Descending(rest) && multiset(rest) == multiset(s[1..]) + multiset{x}
    ensures Descending([s[0]] + rest)
    ensures multiset([s[0]] + rest) == multiset(s) + multiset{x}
  {
    assert s == [s[0]] + s[1..];
    forall k | 0 <= k < |rest|
      ensures rest[k] <= s[0]
    {
      assert rest[k] in multiset(rest);
      assert rest[k] == x || rest[k] in s[1..];
    }
    var r := [s[0]] + rest;
    forall i, j | 0 <= i < j < |r|
      ensures r[i] >= r[j]
    {
      if i > 0 {
        assert r[i] == rest[i - 1] && r[j] == rest[j - 1];
      } else {
        assert r[j] == rest[j - 1];
      }
    }
  }

  /** `list.sort(reverse=True)`: the same elements, largest first. */
  function SortDescending(s: seq<int>): (r: seq<int>)
    ensures Descending(r)
    ensures multiset(r) == multiset(s)
  {
    if s == [] then []
    else
      assert s == [s[0]] + s[1..];
      InsertDescending(s[0], SortDescending(s[1..]))
  }

  lemma {:induction false} DistinctOccursOnce<T>(s: seq<T>, x: T)
    requires Distinct(s)
    ensures multiset(s)[x] <= 1
    decreases |s|
  {
    if s != [] {
      assert s == [s[0]] + s[1..];
      DistinctOccursOnce(s[1..], x);
      if x == s[0] {
        assert x !in s[1..];
      }
    }
  }

  lemma RepeatOccursTwice<T>(s: seq<T>, i: nat, j: nat)
    requires i < j < |s| && s[i] == s[j]
    ensures multiset(s)[s[i]] >= 2
  {
    assert s == s[..j] + s[j..];
    assert s[i] in s[..j];
    assert s[j] in s[j..];
  }

  /** Sorting a list without repeats gives a strictly decreasing list. */
  lemma SortDistinctIsStrict(s: seq<int>)
    requires Distinct(s)
    ensures StrictlyDescending(SortDescending(s))
  {
    var r := SortDescending(s);
    forall i, j | 0 <= i < j < |r|
      ensures r[i] > r[j]
    {
      if r[i] == r[j] {
        RepeatOccursTwice(r, i, j);
        DistinctOccursOnce(s, r[i]);
        assert false;
      }
    }
  }

  /** Entries of a strictly decreasing list drop by at least one per step. */
  lemma {:induction false} StrictGap(s: seq<int>, j: nat)
    requires StrictlyDescending(s)
    requires j < |s|
    ensures s[j] <= s[0] - j
  {
    if j > 0 {
      StrictGap(s, j - 1);
      assert s[j] < s[j - 1];
    }
  }

  /** The rows of s whose positions are not in `removed`, in their order. */
  function Keep<T>(s: seq<T>, removed: set<int>): (r: seq<T>)
    ensures |r| <= |s|
    decreases |s|
  {
    if s == [] then []
    else Keep(s[..|s| - 1], removed) + (if |s| - 1 in removed then [] else [s[|s| - 1]])
  }

  lemma {:induction false} KeepNothing<T>(s: seq<T>, removed: set<int>)
    requires forall i :: 0 <= i < |s| ==> i !in removed
    ensures Keep(s, removed) == s
    decreases |s|
  {
    if s != [] {
      KeepNothing(s[..|s| - 1], removed);
    }
  }

  /** Positions that all lie above r leave the first r + 1 rows in place. */
  lemma {:induction false} KeepPrefix<T>(s: seq<T>, removed: set<int>, r: nat)
    requires r < |s|
    requires forall x :: x in removed ==> x > r
    ensures |Keep(s, removed)| > r
    ensures Keep(s, removed)[..r + 1] == s[..r + 1]
    decreases |s|
  {
    var s' := s[..|s| - 1];
    if r == |s| - 1 {
      KeepNothing(s', removed);
      assert s' + [s[|s| - 1]] == s;
    } else {
      KeepPrefix(s', removed, r);
      assert s'[..r + 1] == s[..r + 1];
    }
  }

  /**
   * Deleting the row at r from a list from which only rows above r were
   * deleted is the same as deleting r along with them.
   */
  lemma {:induction false} KeepStep<T>(s: seq<T>, removed: set<int>, r: nat)
    requires r < |s|
    requires forall x :: x in removed ==> x > r
    ensures |Keep(s, removed)| > r
    ensures Keep(s, removed + {r}) == Keep(s, removed)[..r] + Keep(s, removed)[r + 1..]
    decreases |s|
  {
    KeepPrefix(s, removed, r);
    var s' := s[..|s| - 1];
    if r == |s| - 1 {
      KeepNothing(s', removed);
      KeepNothing(s', removed + {r});
      assert Keep(s, removed) == s' + [s[r]];
    } else {
      KeepStep(s', removed, r);
      var tail := if |s| - 1 in removed then [] else [s[|s| - 1]];
      assert Keep(s, removed + {r}) == Keep(s', removed + {r}) + tail;
      assert Keep(s, removed) == Keep(s', removed) + tail;
      DeleteBeforeTail(Keep(s', removed), tail, r);
    }
  }

  /** Deleting position r of k + tail, where r lies inside k. */
  lemma DeleteBeforeTail<T>(k: seq<T>, tail: seq<T>, r: nat)
    requires r < |k|
    ensures (k + tail)[..r] + (k + tail)[r + 1..] == k[..r] + k[r + 1..] + tail
  {
    assert (k + tail)[..r] == k[..r];
    assert (k + tail)[r + 1..] == k[r + 1..] + tail;
  }

  function Elements(s: seq<int>): set<int>
  {
    set x | x in s
  }

  /** Reordering a sequence keeps its length and its set of elements. */
  lemma PermutationElements(a: seq<int>, b: seq<int>)
    requires multiset(a) == multiset(b)
    ensures |a| == |b|
    ensures forall x :: x in a <==> x in b
    ensures Elements(a) == Elements(b)
  {
    assert |multiset(a)| == |multiset(b)|;
    assert forall x :: x in a <==> x in multiset(a);
    assert forall x :: x in b <==> x in multiset(b);
  }

  /**
   * Step k of deleting the positions of a strictly decreasing list one by
   * one: the rows below position order[k] are still the original rows, and
   * deleting that position deletes one more of the listed positions.
   */
  lemma DescendingRemovalStep<T>(s: seq<T>, order: seq<int>, k: nat)
    requires StrictlyDescending(order) && k < |order|
    requires forall i :: 0 <= i < |order| ==> 0 <= order[i] < |s| - 1
    ensures order[k] < |s| - 1 - k
    ensures |Keep(s, Elements(order[..k]))| > order[k]
    ensures Keep(s, Elements(order[..k]))[order[k]] == s[order[k]]
    ensures Keep(s, Elements(order[..k + 1]))
         == Keep(s, Elements(order[..k]))[..order[k]] + Keep(s, Elements(order[..k]))[order[k] + 1..]
  {
    var row := order[k];
    var done := Elements(order[..k]);
    assert forall x :: x in done ==> x > row;
    StrictGap(order, k);
    assert order[0] in order;
    assert order[k] in order;
    KeepPrefix(s, done, row);
    assert Keep(s, done)[row] == Keep(s, done)[..row + 1][row];
    KeepStep(s, done, row);
    assert order[..k + 1] == order[..k] + [row];
    assert Elements(order[..k + 1]) == done + {row};
  }
}
