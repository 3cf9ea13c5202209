/**
 * The limited authority a certificate grants: lists of app ids and data centre ids, and an expiry.
 * A list holding exactly the one reserved item stands for "all items".
 */
module AuthScope {
  import opened Common
  import opened Sorting

  // Ids are unsigned 32-bit numbers; the code only compares them.
  type Items = seq<int>

  const RESERVED_ITEM: int := 0xFFFF_FFFF

  // The largest value of the 64-bit signed time type.
  const TIME_MAX: int := 0x7FFF_FFFF_FFFF_FFFF

  predicate IsAll(v: Items) {
    v == [RESERVED_ITEM]
  }

  /** Membership; the source looks the item up by binary search in the sorted list. */
  predicate HasItem(v: Items, x: int) {
    IsAll(v) || x in v
  }

  /** The reserved item appears only as the mark for "all". */
  predicate Unmixed(v: Items) {
    RESERVED_ITEM in v ==> IsAll(v)
  }

  ghost predicate StrictFrom(v: Items, k: nat) {
    forall i, j :: k <= i < j < |v| ==> v[i] < v[j]
  }

  /** The smallest item was listed more than once. */
  ghost predicate LeastRepeated(items: Items) {
    exists i, j :: 0 <= i < j < |items| && items[i] == items[j] && forall y :: y in items ==> items[i] <= y
  }

  /** Drops, from index `i` downwards, every item equal to the one before it. Stops at index 2. */
  function EraseDuplicates(v: Items, i: int): (r: Items)
    requires i < |v|
    decreases i
  {
    if i <= 1 then v
    else EraseDuplicates(if v[i - 1] == v[i] then v[..i] + v[i + 1..] else v, i - 1)
  }

  function SetupList(items: Items): Items {
    SortedCopyCorrect(items);
    EraseDuplicates(SortedCopy(items), |items| - 1)
  }

  /** Sorts the items, then erases duplicates from the back. */
  method Setup(items: Items) returns (v: Items)
    ensures v == SetupList(items)
  {
    v := SortedCopy(items);
    SortedCopyCorrect(items);
    var i := |v| - 1;
    while i > 1
      invariant i < |v|
      invariant EraseDuplicates(v, i) == SetupList(items)
      decreases i
    {
      if v[i - 1] == v[i] {
        v := v[..i] + v[i + 1..];
      }
      i := i - 1;
    }
  }

  /** `r` holds the items of `v` and keeps its first two. */
  ghost predicate ErasedTo(v: Items, r: Items) {
    && (forall x :: x in r <==> x in v)
    && (if |v| >= 2 then |r| >= 2 && r[..2] == v[..2] else r == v)
  }

  lemma ErasedFurther(v: Items, w: Items, r: Items)
    requires ErasedTo(v, w) && ErasedTo(w, r)
    ensures ErasedTo(v, r)
  {
  }

  lemma {:induction false} EraseDuplicatesCorrect(v: Items, i: int)
    requires i < |v| && Sorted(v) && StrictFrom(v, if i < 0 then 0 else i)
    ensures var r := EraseDuplicates(v, i); Sorted(r) && StrictFrom(r, 1) && ErasedTo(v, r)
    decreases i
  {
    if i > 1 {
      if v[i - 1] == v[i] {
        EraseDuplicate(v, i);
        var w := v[..i] + v[i + 1..];
        EraseDuplicatesCorrect(w, i - 1);
        ErasedFurther(v, w, EraseDuplicates(w, i - 1));
      } else {
        assert StrictFrom(v, i - 1);
        EraseDuplicatesCorrect(v, i - 1);
      }
    }
  }

  /**
   * The list is sorted, holds exactly the given items, and repeats none of them except that the
   * first two places hold the same item when the least one was given more than once.
   */
  lemma SetupListCorrect(items: Items)
    ensures Sorted(SetupList(items)) && StrictFrom(SetupList(items), 1)
    ensures forall x :: x in SetupList(items) <==> x in items
    ensures (|SetupList(items)| >= 2 && SetupList(items)[0] == SetupList(items)[1]) <==> LeastRepeated(items)
    ensures items != [] ==> SetupList(items) != []
  {
    SortedCopyCorrect(items);
    var s, r := SortedCopy(items), SetupList(items);
    EraseDuplicatesCorrect(s, |items| - 1);
    SortedLeast(items, s);
    if |s| >= 2 {
      assert r[0] == r[..2][0] == s[..2][0] && r[1] == r[..2][1] == s[..2][1];
    }
    if items != [] {
      assert items[0] in r;
    }
  }

  /** Erasing a duplicate keeps the items and the first two, and leaves the list strict from one place further down. */
  lemma EraseDuplicate(w: Items, i: nat)
    requires 2 <= i < |w| && w[i - 1] == w[i] && Sorted(w) && StrictFrom(w, i)
    ensures var v := w[..i] + w[i + 1..]; Sorted(v) && StrictFrom(v, i - 1) && ErasedTo(w, v)
  {
    var v := w[..i] + w[i + 1..];
    forall x | x in w ensures x in v {
      var k :| 0 <= k < |w| && w[k] == x;
      assert v[if k < i then k else k - 1] == x;
    }
    forall k, l | i - 1 <= k < l < |v| ensures v[k] < v[l] {
      assert w[i] < w[l + 1] && (k >= i ==> w[k + 1] < w[l + 1]);
    }
  }

  lemma SortedLeast(items: Items, s: Items)
    requires Sorted(s) && Rearranges(s, items)
    ensures (|s| >= 2 && s[0] == s[1]) <==> LeastRepeated(items)
  {
    SameItems(s, items);
    if |s| >= 2 && s[0] == s[1] {
      TwiceInSequence(s, s[0]);
      TwiceInSequence(items, s[0]);
      var i, j :| 0 <= i < j < |items| && items[i] == s[0] && items[j] == s[0];
      assert items[i] == items[j] && forall y :: y in items ==> items[i] <= y;
    }
    if LeastRepeated(items) {
      var i, j :| 0 <= i < j < |items| && items[i] == items[j] && forall y :: y in items ==> items[i] <= y;
      TwiceInSequence(items, items[i]);
      TwiceInSequence(s, items[i]);
      var k, l :| 0 <= k < l < |s| && s[k] == items[i] && s[l] == items[i];
      assert s[0] in items && s[0] <= s[1] <= s[l];
    }
  }

  /** The items two sorted lists share, with repetitions as often as both repeat them. */
  function SharedItems(a: Items, b: Items): (r: Items)
    decreases |a| + |b|
  {
    if a == [] || b == [] then []
    else if a[0] < b[0] then SharedItems(a[1..], b)
    else if b[0] < a[0] then SharedItems(a, b[1..])
    else [a[0]] + SharedItems(a[1..], b[1..])
  }

  function Meet(a: Items, b: Items): (r: Items) {
    if IsAll(a) then b else if IsAll(b) then a else SharedItems(a, b)
  }

  /** Neither list may be empty unless one of them is "all". */
  predicate Intersectable(a: Items, b: Items) {
    IsAll(a) || IsAll(b) || (a != [] && b != [])
  }

  /** Scans both lists in parallel. */
  method SetIntersection(a: Items, b: Items) returns (r: Items)
    requires Intersectable(a, b)
    ensures r == Meet(a, b)
  {
    if IsAll(a) {
      return b;
    }
    if IsAll(b) {
      return a;
    }
    r := [];
    var i, j := 0, 0;
    while true
      invariant 0 <= i < |a| && 0 <= j < |b|
      invariant r + SharedItems(a[i..], b[j..]) == SharedItems(a, b)
      decreases |a| + |b| - i - j
    {
      if a[i] < b[j] {
        assert a[i..][1..] == a[i + 1..];
        i := i + 1;
        if i == |a| { break; }
      } else if b[j] < a[i] {
        assert b[j..][1..] == b[j + 1..];
        j := j + 1;
        if j == |b| { break; }
      } else {
        assert a[i..][1..] == a[i + 1..] && b[j..][1..] == b[j + 1..];
        r := r + [a[i]];
        i := i + 1;
        if i == |a| { break; }
        j := j + 1;
        if j == |b| { break; }
      }
    }
  }

  lemma {:induction false} SharedItemsCounted(a: Items, b: Items)
    requires Sorted(a) && Sorted(b)
    ensures multiset(SharedItems(a, b)) == multiset(a) * multiset(b)
    decreases |a| + |b|
  {
    if a != [] && b != [] {
      if a[0] < b[0] {
        SharedItemsCounted(a[1..], b);
        UnsharedHead(a, b);
      } else if b[0] < a[0] {
        SharedItemsCounted(a, b[1..]);
        UnsharedHead(b, a);
      } else {
        SharedItemsCounted(a[1..], b[1..]);
        assert a == [a[0]] + a[1..] && b == [b[0]] + b[1..];
      }
    }
  }

  /** A head smaller than everything in the other list is shared with none of it. */
  lemma UnsharedHead(a: Items, b: Items)
    requires Sorted(b) && a != [] && b != [] && a[0] < b[0]
    ensures multiset(a) * multiset(b) == multiset(a[1..]) * multiset(b)
    ensures multiset(b) * multiset(a) == multiset(b) * multiset(a[1..])
  {
    assert a == [a[0]] + a[1..];
    assert a[0] !in multiset(b);
  }

  lemma SharedItemsMembers(a: Items, b: Items)
    requires Sorted(a) && Sorted(b)
    ensures forall x :: x in SharedItems(a, b) <==> x in a && x in b
  {
    SharedItemsCounted(a, b);
    forall x ensures x in SharedItems(a, b) <==> x in a && x in b {
      assert x in multiset(SharedItems(a, b)) <==> x in multiset(a) && x in multiset(b);
    }
  }

  lemma {:induction false} SharedItemsSorted(a: Items, b: Items)
    requires Sorted(a) && Sorted(b)
    ensures Sorted(SharedItems(a, b))
    decreases |a| + |b|
  {
    if a != [] && b != [] {
      if a[0] < b[0] {
        SharedItemsSorted(a[1..], b);
      } else if b[0] < a[0] {
        SharedItemsSorted(a, b[1..]);
      } else {
        SharedItemsSorted(a[1..], b[1..]);
        SharedItemsMembers(a[1..], b[1..]);
        PrependSorted(a[0], SharedItems(a[1..], b[1..]));
      }
    }
  }

  /** Of two sorted lists, even with repeats, the parallel scan yields their sorted intersection. */
  lemma SharedItemsCorrect(a: Items, b: Items)
    requires Sorted(a) && Sorted(b)
    ensures Sorted(SharedItems(a, b))
    ensures multiset(SharedItems(a, b)) == multiset(a) * multiset(b)
    ensures forall x :: x in SharedItems(a, b) <==> x in a && x in b
  {
    SharedItemsCounted(a, b);
    SharedItemsMembers(a, b);
    SharedItemsSorted(a, b);
  }

  /**
   * The intersection authorises exactly what both lists authorise, unless two proper lists share
   * nothing but one reserved item: the result then reads as "all".
   */
  lemma MeetExactness(a: Items, b: Items)
    requires Sorted(a) && Sorted(b)
    ensures (forall x :: x != RESERVED_ITEM ==> (HasItem(Meet(a, b), x) <==> HasItem(a, x) && HasItem(b, x)))
       <==> (IsAll(a) || IsAll(b) || multiset(a) * multiset(b) != multiset{RESERVED_ITEM})
  {
    SharedItemsCorrect(a, b);
    var r := SharedItems(a, b);
    if !IsAll(a) && !IsAll(b) {
      if multiset(r) == multiset{RESERVED_ITEM} {
        assert |r| == |multiset(r)| == 1 && r[0] in multiset(r);
        assert HasItem(Meet(a, b), 0);
        assert 0 !in multiset(r);
      }
    }
  }

  /** A certificate list that mixes the reserved item with others can be intersected into "all". */
  lemma MixedListsWiden()
    ensures Meet([5, RESERVED_ITEM], [7, RESERVED_ITEM]) == [RESERVED_ITEM]
    ensures HasItem(Meet([5, RESERVED_ITEM], [7, RESERVED_ITEM]), 6)
  {
    assert SharedItems([5, RESERVED_ITEM][1..], [7, RESERVED_ITEM][1..]) == [RESERVED_ITEM];
    assert SharedItems([5, RESERVED_ITEM][1..], [7, RESERVED_ITEM]) == [RESERVED_ITEM];
  }

  lemma MeetUnmixed(a: Items, b: Items)
    requires Sorted(a) && Sorted(b) && Unmixed(a) && Unmixed(b)
    ensures Sorted(Meet(a, b)) && Unmixed(Meet(a, b))
    ensures forall x :: x != RESERVED_ITEM ==> (HasItem(Meet(a, b), x) <==> HasItem(a, x) && HasItem(b, x))
  {
    SharedItemsCorrect(a, b);
    MeetExactness(a, b);
    if !IsAll(a) && !IsAll(b) {
      assert RESERVED_ITEM !in multiset(a);
    }
  }

  /** Whatever the lists, the intersection authorises everything both of them do. */
  lemma MeetAllows(a: Items, b: Items, x: int)
    requires Sorted(a) && Sorted(b) && HasItem(a, x) && HasItem(b, x)
    ensures HasItem(Meet(a, b), x)
  {
    SharedItemsCorrect(a, b);
  }

  datatype Scope = Scope(pops: Items, apps: Items, expiry: int)

  const ALL_SCOPE := Scope([RESERVED_ITEM], [RESERVED_ITEM], TIME_MAX)
  const EMPTY_SCOPE := Scope([], [], 0)

  function Min(x: int, y: int): int {
    if x <= y then x else y
  }

  function MeetScope(a: Scope, b: Scope): Scope {
    Scope(Meet(a.pops, b.pops), Meet(a.apps, b.apps), Min(a.expiry, b.expiry))
  }

  /** The authority both scopes grant. */
  method IntersectScopes(a: Scope, b: Scope) returns (r: Scope)
    requires Intersectable(a.pops, b.pops) && Intersectable(a.apps, b.apps)
    ensures r == MeetScope(a, b)
  {
    var pops := SetIntersection(a.pops, b.pops);
    var apps := SetIntersection(a.apps, b.apps);
    r := Scope(pops, apps, Min(a.expiry, b.expiry));
  }

  /** The lists are sorted, as `Setup` and the intersection leave them, and authorise something. */
  ghost predicate Usable(s: Scope) {
    s.pops != [] && s.apps != [] && Sorted(s.pops) && Sorted(s.apps) && s.expiry > 0
  }

  lemma MeetScopeUsable(a: Scope, b: Scope)
    requires Usable(a) && Usable(b)
    requires MeetScope(a, b).pops != [] && MeetScope(a, b).apps != []
    ensures Usable(MeetScope(a, b))
  {
    SharedItemsCorrect(a.pops, b.pops);
    SharedItemsCorrect(a.apps, b.apps);
  }
}
