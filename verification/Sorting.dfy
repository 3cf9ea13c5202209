/** What the library's `std::sort` computes: the ascending rearrangement of its input. */
module Sorting {

  ghost predicate Sorted(s: seq<int>) {
    forall i, j :: 0 <= i < j < |s| ==> s[i] <= s[j]
  }

  ghost predicate Rearranges(r: seq<int>, s: seq<int>) {
    multiset(r) == multiset(s)
  }

  function Insert(x: int, s: seq<int>): (r: seq<int>) {
    if s == [] || x <= s[0] then [x] + s else [s[0]] + Insert(x, s[1..])
  }

  /** Stands for `std::sort` on integers. */
  function SortedCopy(s: seq<int>): (r: seq<int>) {
    if s == [] then [] else Insert(s[0], SortedCopy(s[1..]))
  }

  lemma {:induction false} InsertRearranges(x: int, s: seq<int>)
    ensures multiset(Insert(x, s)) == multiset{x} + multiset(s)
    ensures |Insert(x, s)| == |s| + 1
    ensures forall y :: y in Insert(x, s) ==> y == x || y in s
  {
    if s != [] && s[0] < x {
      InsertRearranges(x, s[1..]);
      assert s == [s[0]] + s[1..];
    }
  }

  lemma {:induction false} InsertSorted(x: int, s: seq<int>)
    requires Sorted(s)
    ensures Sorted(Insert(x, s))
  {
    if s != [] && s[0] < x {
      var rest := Insert(x, s[1..]);
      InsertSorted(x, s[1..]);
      InsertRearranges(x, s[1..]);
      PrependSorted(s[0], rest);
    }
  }

  lemma PrependSorted(x: int, s: seq<int>)
    requires Sorted(s)
    requires forall y :: y in s ==> x <= y
    ensures Sorted([x] + s)
  {
    var r := [x] + s;
    forall i, j | 0 <= i < j < |r| ensures r[i] <= r[j] {
      assert r[j] in s;
    }
  }

  lemma {:induction false} SortedCopyCorrect(s: seq<int>)
    ensures Sorted(SortedCopy(s))
    ensures Rearranges(SortedCopy(s), s)
    ensures |SortedCopy(s)| == |s|
    ensures forall y :: y in SortedCopy(s) <==> y in s
  {
    if s != [] {
      SortedCopyCorrect(s[1..]);
      InsertRearranges(s[0], SortedCopy(s[1..]));
      InsertSorted(s[0], SortedCopy(s[1..]));
      assert s == [s[0]] + s[1..];
    }
    SameItems(SortedCopy(s), s);
  }

  lemma SameItems(r: seq<int>, s: seq<int>)
    requires Rearranges(r, s)
    ensures forall y :: y in r <==> y in s
  {
    forall y ensures y in r <==> y in s {
      assert y in multiset(r) <==> y in multiset(s);
    }
  }

  /** A value occurs twice in a sequence exactly when its multiplicity is at least two. */
  lemma TwiceInSequence(s: seq<int>, x: int)
    ensures multiset(s)[x] >= 2 <==> exists i, j :: 0 <= i < j < |s| && s[i] == x && s[j] == x
  {
    if i :| 0 <= i < |s| && s[i] == x {
      var rest := RemoveAt(s, i);
      if multiset(s)[x] >= 2 {
        assert x in rest;
        var k :| 0 <= k < |rest| && rest[k] == x;
        assert s[if k < i then k else k + 1] == x;
      }
      if j, k :| 0 <= j < k < |s| && s[j] == x && s[k] == x {
        var other := if j == i then k else j;
        assert rest[if other < i then other else other - 1] == x;
      }
    }
  }

  lemma RemoveAt(s: seq<int>, i: nat) returns (rest: seq<int>)
    requires i < |s|
    ensures rest == s[..i] + s[i + 1..]
    ensures multiset(s) == multiset(rest) + multiset{s[i]}
  {
    rest := s[..i] + s[i + 1..];
    assert s == s[..i] + [s[i]] + s[i + 1..];
  }
}
