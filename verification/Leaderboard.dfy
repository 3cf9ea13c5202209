/** The results screen's ordered list: the first result delivered for each player, by score. */
module Leaderboard {
  import opened Common

  datatype Delivery = Delivery(playerId: uint32, name: string, time: real, points: int, score: int)

  predicate IsHigher(newer: Delivery, stored: Delivery) {
    newer.score > stored.score
  }

  /** Before the first entry with a lower score, or at the end. */
  function Inserted(entries: seq<Delivery>, d: Delivery): seq<Delivery> {
    if entries == [] || IsHigher(d, entries[0]) then [d] + entries
    else [entries[0]] + Inserted(entries[1..], d)
  }

  function Ids(s: seq<Delivery>): set<uint32> {
    set d | d in s :: d.playerId
  }

  class ResultsDisplay {
    var sortedResults: seq<Delivery>
    var storedIds: set<uint32>

    ghost predicate Valid()
      reads this
    {
      storedIds == Ids(sortedResults)
    }

    constructor ()
      ensures Valid() && sortedResults == []
    {
      sortedResults, storedIds := [], {};
    }

    method InsertResult(result: Delivery)
      requires Valid()
      modifies this
      ensures Valid()
      ensures sortedResults == AfterDelivery(old(sortedResults), result)
    {
      if result.playerId in storedIds {
        return;
      }
      InsertedItems(sortedResults, result);
      storedIds := storedIds + {result.playerId};
      var i := 0;
      while i < |sortedResults|
        invariant i <= |sortedResults| && sortedResults == old(sortedResults)
        invariant storedIds == Ids(Inserted(sortedResults, result))
        invariant sortedResults[..i] + Inserted(sortedResults[i..], result) == Inserted(sortedResults, result)
      {
        InsertedFrom(sortedResults, result, i);
        var higher := GetIfNewScoreIsHigher(result, sortedResults[i]);
        if higher {
          sortedResults := sortedResults[..i] + [result] + sortedResults[i..];
          return;
        }
        i := i + 1;
      }
      InsertedAtEnd(sortedResults, result);
      sortedResults := sortedResults + [result];
    }

    method GetIfNewScoreIsHigher(newer: Delivery, stored: Delivery) returns (higher: bool)
      ensures higher == IsHigher(newer, stored)
    {
      higher := newer.score > stored.score;
    }
  }

  /** A second delivery for a player changes nothing. */
  function AfterDelivery(entries: seq<Delivery>, d: Delivery): seq<Delivery> {
    if d.playerId in Ids(entries) then entries else Inserted(entries, d)
  }

  /** What is done at place `i`, if no place before it was right. */
  lemma InsertedFrom(entries: seq<Delivery>, d: Delivery, i: nat)
    requires i < |entries|
    ensures entries[..i] + Inserted(entries[i..], d)
         == if IsHigher(d, entries[i]) then entries[..i] + [d] + entries[i..]
            else entries[..i + 1] + Inserted(entries[i + 1..], d)
  {
    var rest := entries[i..];
    assert rest[0] == entries[i] && rest[1..] == entries[i + 1..];
    TakeOneMore(entries, i);
    Associative(entries[..i], [d], rest);
    Associative(entries[..i], [entries[i]], Inserted(rest[1..], d));
  }

  lemma InsertedAtEnd(entries: seq<Delivery>, d: Delivery)
    ensures entries[..|entries|] + Inserted(entries[|entries|..], d) == entries + [d]
  {
  }

  lemma {:induction false} InsertedItems(entries: seq<Delivery>, d: Delivery)
    ensures |Inserted(entries, d)| == |entries| + 1
    ensures forall e :: e in Inserted(entries, d) <==> e == d || e in entries
    ensures Ids(Inserted(entries, d)) == Ids(entries) + {d.playerId}
  {
    if entries != [] && !IsHigher(d, entries[0]) {
      InsertedItems(entries[1..], d);
      assert entries == [entries[0]] + entries[1..];
    }
    ItemsGiveIds(entries, d);
  }

  lemma ItemsGiveIds(entries: seq<Delivery>, d: Delivery)
    requires forall e :: e in Inserted(entries, d) <==> e == d || e in entries
    ensures Ids(Inserted(entries, d)) == Ids(entries) + {d.playerId}
  {
    assert d in Inserted(entries, d);
    forall id | id in Ids(entries) ensures id in Ids(Inserted(entries, d)) {
      var e :| e in entries && e.playerId == id;
      assert e in Inserted(entries, d);
    }
  }

  // ---------- what the list should be ----------

  /** The first delivery for each player, in the order they came. */
  function Firsts(stream: seq<Delivery>): seq<Delivery> {
    if stream == [] then []
    else
      var before, d := Firsts(stream[..|stream| - 1]), stream[|stream| - 1];
      if d.playerId in Ids(before) then before else before + [d]
  }

  function List(stream: seq<Delivery>): seq<Delivery> {
    if stream == [] then [] else AfterDelivery(List(stream[..|stream| - 1]), stream[|stream| - 1])
  }

  /** Where a player's result is in a list; past the end if it is not there. */
  function Place(s: seq<Delivery>, id: uint32): nat {
    if s == [] || s[0].playerId == id then 0 else 1 + Place(s[1..], id)
  }

  /** No player twice. */
  ghost predicate OncePerPlayer(s: seq<Delivery>) {
    forall i, j :: 0 <= i < j < |s| ==> s[i].playerId != s[j].playerId
  }

  ghost predicate SameItems(a: seq<Delivery>, b: seq<Delivery>) {
    |a| == |b| && forall d :: d in a <==> d in b
  }

  /** `a` comes before `b`: by higher score, or by earlier delivery when scores are equal. */
  predicate Ahead(a: Delivery, b: Delivery, order: seq<Delivery>) {
    a.score > b.score || (a.score == b.score && Place(order, a.playerId) < Place(order, b.playerId))
  }

  ghost predicate Ranked(entries: seq<Delivery>, order: seq<Delivery>) {
    forall i, j :: 0 <= i < j < |entries| ==> Ahead(entries[i], entries[j], order)
  }

  lemma {:induction false} PlaceBounds(s: seq<Delivery>, id: uint32)
    ensures Place(s, id) <= |s|
    ensures Place(s, id) < |s| <==> id in Ids(s)
    ensures Place(s, id) < |s| ==> s[Place(s, id)].playerId == id
  {
    if s != [] && s[0].playerId != id {
      PlaceBounds(s[1..], id);
      assert s == [s[0]] + s[1..];
      assert id in Ids(s) <==> id in Ids(s[1..]) by {
        if d :| d in s && d.playerId == id {
          assert d in s[1..];
        }
      }
    } else if s != [] {
      assert s[0] in s;
    }
  }

  lemma {:induction false} PlaceAppend(s: seq<Delivery>, d: Delivery, id: uint32)
    ensures id in Ids(s) ==> Place(s + [d], id) == Place(s, id)
    ensures id !in Ids(s) ==> Place(s + [d], id) == if d.playerId == id then |s| else |s| + 1
  {
    PlaceBounds(s, id);
    if s != [] && s[0].playerId != id {
      assert (s + [d])[1..] == s[1..] + [d];
      PlaceAppend(s[1..], d, id);
      PlaceBounds(s[1..], id);
    }
  }

  // ---------- the list is the ranking ----------

  lemma {:induction false} FirstsOnce(stream: seq<Delivery>)
    ensures OncePerPlayer(Firsts(stream))
  {
    if stream != [] {
      var before, d := Firsts(stream[..|stream| - 1]), stream[|stream| - 1];
      FirstsOnce(stream[..|stream| - 1]);
      if d.playerId !in Ids(before) {
        forall i | 0 <= i < |before| ensures before[i].playerId != d.playerId {
          assert before[i] in before;
        }
      }
    }
  }

  lemma {:induction false} SameIds(a: seq<Delivery>, b: seq<Delivery>)
    requires SameItems(a, b)
    ensures Ids(a) == Ids(b)
  {
  }

  /** Inserting the newest delivery into a ranked list leaves it ranked. */
  lemma {:induction false} InsertedRanked(entries: seq<Delivery>, d: Delivery, order: seq<Delivery>)
    requires Ranked(entries, order)
    requires forall e :: e in entries ==> Place(order, e.playerId) < Place(order, d.playerId)
    ensures Ranked(Inserted(entries, d), order)
  {
    var r := Inserted(entries, d);
    if entries == [] {
    } else if IsHigher(d, entries[0]) {
      forall i, j | 0 <= i < j < |r| ensures Ahead(r[i], r[j], order) {
        if i == 0 && j > 1 {
          assert Ahead(entries[0], entries[j - 1], order);
        }
      }
    } else {
      var rest := Inserted(entries[1..], d);
      InsertedRanked(entries[1..], d, order);
      InsertedItems(entries[1..], d);
      assert Ahead(entries[0], d, order) by {
        assert entries[0] in entries;
      }
      forall i, j | 0 <= i < j < |r| ensures Ahead(r[i], r[j], order) {
        if i == 0 {
          assert rest[j - 1] in rest;
          if rest[j - 1] != d {
            var k :| 0 <= k < |entries[1..]| && entries[1..][k] == rest[j - 1];
            assert entries[k + 1] == rest[j - 1];
          }
        } else {
          assert Ahead(rest[i - 1], rest[j - 1], order);
        }
      }
    }
  }

  lemma RankedAlike(entries: seq<Delivery>, order: seq<Delivery>, order': seq<Delivery>)
    requires Ranked(entries, order)
    requires forall e :: e in entries ==> Place(order', e.playerId) == Place(order, e.playerId)
    ensures Ranked(entries, order')
  {
    forall i, j | 0 <= i < j < |entries| ensures Ahead(entries[i], entries[j], order') {
      assert Ahead(entries[i], entries[j], order) && entries[i] in entries && entries[j] in entries;
    }
  }

  /**
   * Whatever deliveries come, lost, repeated or out of order: the list holds the first one for each
   * player, in descending order of score, equal scores in the order they came.
   */
  lemma {:induction false} ListIsRanking(stream: seq<Delivery>)
    ensures SameItems(List(stream), Firsts(stream))
    ensures OncePerPlayer(Firsts(stream))
    ensures Ranked(List(stream), Firsts(stream))
  {
    FirstsOnce(stream);
    if stream != [] {
      var before, d := stream[..|stream| - 1], stream[|stream| - 1];
      var entries, order := List(before), Firsts(before);
      ListIsRanking(before);
      SameIds(entries, order);
      if d.playerId !in Ids(order) {
        InsertedItems(entries, d);
        forall e | e in entries
          ensures Place(order + [d], e.playerId) == Place(order, e.playerId) < Place(order + [d], d.playerId)
        {
          assert e.playerId in Ids(entries);
          PlaceAppend(order, d, e.playerId);
          PlaceAppend(order, d, d.playerId);
          PlaceBounds(order, e.playerId);
        }
        RankedAlike(entries, order, order + [d]);
        InsertedRanked(entries, d, order + [d]);
      }
    }
  }

  /** Two rankings of the same results are the same list. */
  lemma {:induction false} RankingUnique(a: seq<Delivery>, b: seq<Delivery>, order: seq<Delivery>)
    requires SameItems(a, b) && Ranked(a, order) && Ranked(b, order)
    ensures a == b
  {
    if a != [] {
      FirstSame(a, b, order);
      RestSame(a, b, order);
      RankingUnique(a[1..], b[1..], order);
      assert a == [a[0]] + a[1..] && b == [b[0]] + b[1..];
    }
  }

  lemma FirstSame(a: seq<Delivery>, b: seq<Delivery>, order: seq<Delivery>)
    requires SameItems(a, b) && Ranked(a, order) && Ranked(b, order) && a != []
    ensures a[0] == b[0]
  {
    assert a[0] in b && b[0] in a;
    var i :| 0 <= i < |b| && b[i] == a[0];
    var j :| 0 <= j < |a| && a[j] == b[0];
    assert i > 0 ==> Ahead(b[0], b[i], order);
    assert j > 0 ==> Ahead(a[0], a[j], order);
  }

  lemma RestSame(a: seq<Delivery>, b: seq<Delivery>, order: seq<Delivery>)
    requires SameItems(a, b) && Ranked(a, order) && Ranked(b, order) && a != [] && a[0] == b[0]
    ensures SameItems(a[1..], b[1..]) && Ranked(a[1..], order) && Ranked(b[1..], order)
  {
    forall d ensures d in a[1..] <==> d in a && d != a[0] {
      InRest(a, d, order);
    }
    forall d ensures d in b[1..] <==> d in b && d != b[0] {
      InRest(b, d, order);
    }
    forall i, j | 0 <= i < j < |a| - 1
      ensures Ahead(a[1..][i], a[1..][j], order) && Ahead(b[1..][i], b[1..][j], order)
    {
      assert Ahead(a[i + 1], a[j + 1], order) && Ahead(b[i + 1], b[j + 1], order);
    }
  }

  lemma InRest(a: seq<Delivery>, d: Delivery, order: seq<Delivery>)
    requires Ranked(a, order) && a != []
    ensures d in a[1..] <==> d in a && d != a[0]
  {
    if d in a[1..] {
      var i :| 0 <= i < |a[1..]| && a[1..][i] == d;
      assert Ahead(a[0], a[i + 1], order);
    }
  }

  /** Streams in which the players' first results come in the same order give the same list. */
  lemma OnlyFirstsMatter(s: seq<Delivery>, t: seq<Delivery>)
    requires Firsts(s) == Firsts(t)
    ensures List(s) == List(t)
  {
    ListIsRanking(s);
    ListIsRanking(t);
    RankingUnique(List(s), List(t), Firsts(s));
  }
}
