/** Collecting samples in a table of fixed size and estimating percentiles from it. */
module Percentile {
  import opened Common
  import opened Reservoir
  import opened Sorting

  // ---------- sorting positions by value ----------

  function ValueAt(stream: seq<int>, p: nat): int {
    if p < |stream| then stream[p] else 0
  }

  function Values(stream: seq<int>, s: seq<nat>): (v: seq<int>)
    ensures |v| == |s|
  {
    seq(|s|, i requires 0 <= i < |s| => ValueAt(stream, s[i]))
  }

  function InsertBy(stream: seq<int>, p: nat, s: seq<nat>): (r: seq<nat>) {
    if s == [] || ValueAt(stream, p) <= ValueAt(stream, s[0]) then [p] + s
    else [s[0]] + InsertBy(stream, p, s[1..])
  }

  /** The positions in ascending order of their values. */
  function SortedBy(stream: seq<int>, s: seq<nat>): (r: seq<nat>) {
    if s == [] then [] else InsertBy(stream, s[0], SortedBy(stream, s[1..]))
  }

  lemma {:induction false} InsertByRearranges(stream: seq<int>, p: nat, s: seq<nat>)
    ensures multiset(InsertBy(stream, p, s)) == multiset{p} + multiset(s)
  {
    if s != [] && ValueAt(stream, s[0]) < ValueAt(stream, p) {
      InsertByRearranges(stream, p, s[1..]);
      assert s == [s[0]] + s[1..];
    }
  }

  lemma {:induction false} SortedByRearranges(stream: seq<int>, s: seq<nat>)
    ensures multiset(SortedBy(stream, s)) == multiset(s)
  {
    if s != [] {
      SortedByRearranges(stream, s[1..]);
      InsertByRearranges(stream, s[0], SortedBy(stream, s[1..]));
      assert s == [s[0]] + s[1..];
    }
  }

  lemma ValuesCons(stream: seq<int>, p: nat, s: seq<nat>)
    ensures Values(stream, [p] + s) == [ValueAt(stream, p)] + Values(stream, s)
  {
  }

  lemma {:induction false} InsertByValues(stream: seq<int>, p: nat, s: seq<nat>)
    ensures Values(stream, InsertBy(stream, p, s)) == Insert(ValueAt(stream, p), Values(stream, s))
  {
    if s == [] || ValueAt(stream, p) <= ValueAt(stream, s[0]) {
      ValuesCons(stream, p, s);
    } else {
      InsertByValues(stream, p, s[1..]);
      ValuesCons(stream, s[0], InsertBy(stream, p, s[1..]));
      assert Values(stream, s)[1..] == Values(stream, s[1..]);
    }
  }

  lemma {:induction false} SortedByValues(stream: seq<int>, s: seq<nat>)
    ensures Values(stream, SortedBy(stream, s)) == SortedCopy(Values(stream, s))
  {
    if s != [] {
      SortedByValues(stream, s[1..]);
      InsertByValues(stream, s[0], SortedBy(stream, s[1..]));
      assert Values(stream, s)[1..] == Values(stream, s[1..]);
    }
  }

  /** Positions already in order of their values stay where they are. */
  lemma {:induction false} SortedByIdle(stream: seq<int>, s: seq<nat>)
    requires Sorted(Values(stream, s))
    ensures SortedBy(stream, s) == s
  {
    if s != [] {
      var rest := s[1..];
      assert Values(stream, rest) == Values(stream, s)[1..];
      SortedByIdle(stream, rest);
      if rest != [] {
        assert Values(stream, s)[0] <= Values(stream, s)[1];
      }
      assert s == [s[0]] + rest;
    }
  }

  /** Whether a query comes after so many items and these draws. */
  type Timing = (nat, seq<nat>) -> bool

  /** Sorting when queried, by the values of this stream. */
  function SortingMix(stream: seq<int>, queried: Timing): Mix {
    (n: nat, c: seq<nat>, s: seq<nat>) => if queried(n, c) then SortedBy(stream, s) else s
  }

  lemma SortingRearranges(stream: seq<int>, queried: Timing)
    ensures Rearranging(SortingMix(stream, queried))
  {
    forall n: nat, c: seq<nat>, s: seq<nat> ensures multiset(SortingMix(stream, queried)(n, c, s)) == multiset(s) {
      SortedByRearranges(stream, s);
    }
  }

  // ---------- percentiles ----------

  /** Conversion of a real to an integer, toward zero. */
  function Truncated(x: real): int {
    if x >= 0.0 then x.Floor else -(-x).Floor
  }

  lemma TowardZero(x: real)
    ensures 0.0 <= x ==> 0.0 <= Truncated(x) as real <= x < Truncated(x) as real + 1.0
    ensures x <= 0.0 ==> Truncated(x) as real - 1.0 < x <= Truncated(x) as real <= 0.0
  {
  }

  function Lerp(l: real, r: real, t: real): real {
    l + (r - l) * t
  }

  /** The value at a fractional index of sorted samples. */
  function ValueAtIndex(s: seq<int>, x: real): int
    requires s != []
  {
    if x <= 0.0 then s[0]
    else if Truncated(x) >= |s| - 1 then s[|s| - 1]
    else Truncated(Lerp(s[Truncated(x)] as real, s[Truncated(x) + 1] as real, x - Truncated(x) as real))
  }

  function FractionalIndex(pct: real, size: int): real {
    pct * (size - 1) as real
  }

  function PercentileOf(s: seq<int>, pct: real): int {
    if s == [] then 0 else ValueAtIndex(s, FractionalIndex(pct, |s|))
  }

  lemma TruncatedMonotone(x: real, y: real)
    requires x <= y
    ensures Truncated(x) <= Truncated(y)
  {
  }

  lemma LerpBetween(l: real, r: real, t: real, u: real)
    requires l <= r && 0.0 <= t <= u <= 1.0
    ensures l <= Lerp(l, r, t) <= Lerp(l, r, u) <= r
  {
    var d := r - l;
    assert 0.0 <= d * t && d * t <= d * u && d * u <= d * 1.0;
  }

  /** The order statistic just below a fractional index, and the one just above. */
  function LowerNeighbour(s: seq<int>, x: real): int
    requires s != []
  {
    if x <= 0.0 then s[0] else if Truncated(x) >= |s| - 1 then s[|s| - 1] else s[Truncated(x)]
  }

  function UpperNeighbour(s: seq<int>, x: real): int
    requires s != []
  {
    if x <= 0.0 then s[0] else if Truncated(x) >= |s| - 1 then s[|s| - 1] else s[Truncated(x) + 1]
  }

  lemma BetweenNeighbours(s: seq<int>, x: real)
    requires s != [] && Sorted(s)
    ensures LowerNeighbour(s, x) <= ValueAtIndex(s, x) <= UpperNeighbour(s, x)
  {
    if 0.0 < x && Truncated(x) < |s| - 1 {
      var i := Truncated(x);
      var l, r := s[i] as real, s[i + 1] as real;
      LerpBetween(l, r, x - i as real, x - i as real);
      TruncatedMonotone(l, Lerp(l, r, x - i as real));
      TruncatedMonotone(Lerp(l, r, x - i as real), r);
    }
  }

  /** A greater index never yields a smaller value. */
  lemma IndexMonotone(s: seq<int>, x: real, y: real)
    requires s != [] && Sorted(s) && x <= y
    ensures ValueAtIndex(s, x) <= ValueAtIndex(s, y)
  {
    BetweenNeighbours(s, x);
    BetweenNeighbours(s, y);
    TruncatedMonotone(x, y);
    if 0.0 < x && Truncated(y) < |s| - 1 {
      var i, j := Truncated(x), Truncated(y);
      if i == j {
        var l, r := s[i] as real, s[i + 1] as real;
        LerpBetween(l, r, x - i as real, y - i as real);
        TruncatedMonotone(Lerp(l, r, x - i as real), Lerp(l, r, y - i as real));
      } else {
        assert s[i + 1] <= s[j];
      }
    }
  }

  lemma ScaledMonotone(p: real, q: real, size: int)
    requires p <= q && 1 <= size
    ensures FractionalIndex(p, size) <= FractionalIndex(q, size)
  {
    var k := (size - 1) as real;
    assert 0.0 <= (q - p) * k;
  }

  lemma PercentileMonotone(s: seq<int>, p: real, q: real)
    requires Sorted(s) && p <= q
    ensures PercentileOf(s, p) <= PercentileOf(s, q)
  {
    if s != [] {
      ScaledMonotone(p, q, |s|);
      IndexMonotone(s, FractionalIndex(p, |s|), FractionalIndex(q, |s|));
    }
  }

  /** At the percentile of one of the samples the estimate is that sample. */
  lemma PercentileOfSample(s: seq<int>, i: nat)
    requires i < |s| && |s| > 1
    ensures PercentileOf(s, i as real / (|s| - 1) as real) == s[i]
  {
    var k := (|s| - 1) as real;
    assert FractionalIndex(i as real / k, |s|) == i as real && Truncated(i as real) == i;
    if 0 < i < |s| - 1 {
      assert Lerp(s[i] as real, s[i + 1] as real, 0.0) == s[i] as real;
    }
  }

  /** Two values, weighted by how near to the second one is. */
  function Weighted(l: int, r: int, t: real): real {
    (1.0 - t) * l as real + t * r as real
  }

  lemma DifferenceTimes(x: real, y: real, z: real)
    ensures (x - y) * z == x * z - y * z
  {
  }

  lemma BetweenWeights(l: int, r: int, t: real)
    ensures Weighted(l, r, t) == Lerp(l as real, r as real, t)
  {
    var a, b := l as real, r as real;
    DifferenceTimes(1.0, t, a);
    DifferenceTimes(b, a, t);
    assert t * a == a * t && t * b == b * t;
  }

  lemma TruncatedBetween(x: real, i: nat)
    requires i as real <= x < (i + 1) as real
    ensures Truncated(x) == i
  {
  }

  lemma ValueInside(s: seq<int>, x: real, i: nat)
    requires i + 1 < |s| && 0.0 < x && Truncated(x) == i
    ensures ValueAtIndex(s, x) == Truncated(Lerp(s[i] as real, s[i + 1] as real, x - i as real))
  {
  }

  lemma LerpStart(l: int, r: int)
    ensures Truncated(Lerp(l as real, r as real, 0.0)) == l
  {
    assert Lerp(l as real, r as real, 0.0) == l as real;
  }

  /** At a fractional index the two samples next to it count by their nearness. */
  lemma ValueWeighted(s: seq<int>, x: real, i: nat)
    requires i + 1 < |s| && i as real <= x < (i + 1) as real
    ensures ValueAtIndex(s, x) == Truncated(Weighted(s[i], s[i + 1], x - i as real))
  {
    BetweenWeights(s[i], s[i + 1], x - i as real);
    TruncatedBetween(x, i);
    if x == 0.0 {
      LerpStart(s[0], s[1]);
    } else {
      ValueInside(s, x, i);
    }
  }

  lemma IndexBounds(pct: real, size: int)
    requires 1 <= size
    ensures pct <= 0.0 ==> FractionalIndex(pct, size) <= 0.0
    ensures 1.0 <= pct ==> FractionalIndex(pct, size) >= (size - 1) as real
  {
    ScaledMonotone(if pct <= 0.0 then pct else 0.0, 0.0, size);
    ScaledMonotone(1.0, if 1.0 <= pct then pct else 1.0, size);
  }

  lemma PercentileOutside(s: seq<int>, pct: real)
    ensures s == [] ==> PercentileOf(s, pct) == 0
    ensures s != [] && pct <= 0.0 ==> PercentileOf(s, pct) == s[0]
    ensures s != [] && 1.0 <= pct ==> PercentileOf(s, pct) == s[|s| - 1]
  {
    if s != [] {
      IndexBounds(pct, |s|);
    }
    if s != [] && 1.0 <= pct {
      TruncatedMonotone((|s| - 1) as real, FractionalIndex(pct, |s|));
    }
  }

  lemma PercentileAt(s: seq<int>, pct: real, x: real, i: nat)
    requires i + 1 < |s| && x == FractionalIndex(pct, |s|) && i as real <= x < (i + 1) as real
    ensures PercentileOf(s, pct) == Truncated(Weighted(s[i], s[i + 1], x - i as real))
  {
    ValueWeighted(s, x, i);
  }

  /**
   * The samples divide the percentiles from 0 to 1 evenly; between two of them the estimate is the
   * average of both, weighted by nearness. Outside it is the first or the last.
   */
  lemma PercentileWeighted(s: seq<int>, pct: real, i: nat)
    requires s != []
    ensures pct <= 0.0 ==> PercentileOf(s, pct) == s[0]
    ensures 1.0 <= pct ==> PercentileOf(s, pct) == s[|s| - 1]
    ensures var x := pct * (|s| - 1) as real;
      i + 1 < |s| && i as real <= x < (i + 1) as real ==>
        PercentileOf(s, pct) == Truncated(Weighted(s[i], s[i + 1], x - i as real))
  {
    PercentileOutside(s, pct);
    var x := pct * (|s| - 1) as real;
    if i + 1 < |s| && i as real <= x < (i + 1) as real {
      PercentileAt(s, pct, x, i);
    }
  }

  // ---------- the generator ----------

  class PercentileGenerator {
    const max: nat
    const samples: array<int>
    var count: nat
    var total: nat
    var needSort: bool
    // Everything added so far, and for each sample the position it came from.
    ghost var history: seq<int>
    ghost var origin: seq<nat>

    ghost predicate Valid()
      reads this, samples
    {
      && 0 < max == samples.Length
      && total == |history| && count == |origin| && count == (if total <= max then total else max)
      && DistinctBelow(origin, total)
      && samples[..count] == Values(history, origin)
      && (!needSort ==> Sorted(samples[..count]))
    }

    constructor (max: nat)
      requires 0 < max
      ensures Valid() && fresh(samples) && this.max == max && history == []
    {
      this.max := max;
      samples := new int[max];
      count, total, needSort := 0, 0, false;
      history, origin := [], [];
    }

    method Clear()
      requires Valid()
      modifies this
      ensures Valid() && history == []
    {
      count, total, needSort := 0, 0, false;
      history, origin := [], [];
    }

    /** Adds a sample; `draw` is the random number taken if the table is full. */
    method AddSample(x: int, draw: nat)
      requires Valid() && draw <= total
      modifies this, samples
      ensures Valid() && history == old(history) + [x]
      ensures origin == Kept(old(origin), old(total), draw, max)
      ensures samples[..count] == Kept(old(samples[..count]), x, draw, max)
      ensures old(count) < max ==> samples[..count] == old(samples[..count]) + [x]
      ensures old(count) == max && draw < max ==> samples[draw] == x
      ensures forall i :: 0 <= i < old(count) && (old(count) < max || i != draw) ==> samples[i] == old(samples[i])
    {
      ghost var before := samples[..count];
      if count < max {
        samples[count] := x;
        count := count + 1;
        needSort := true;
      } else if draw < max {
        samples[draw] := x;
        needSort := true;
      }
      KeptDistinct(origin, total, draw, max);
      KeptValues(history, x, origin, draw, max);
      origin := Kept(origin, total, draw, max);
      history := history + [x];
      total := total + 1;
      assert samples[..count] == Kept(before, x, draw, max);
    }

    method Sort(force: bool)
      requires Valid()
      modifies this, samples
      ensures Valid() && !needSort && history == old(history)
      ensures origin == SortedBy(history, old(origin))
      ensures samples[..count] == SortedCopy(old(samples[..count]))
    {
      SortedByValues(history, origin);
      if force || needSort {
        SortedByRearranges(history, origin);
        RearrangedBelow(SortedBy(history, origin), origin, total);
        origin := SortedBy(history, origin);
        StoreSorted();
        needSort := false;
      } else {
        SortedByIdle(history, origin);
      }
    }

    method StoreSorted()
      requires count <= samples.Length
      modifies samples
      ensures samples[..count] == SortedCopy(old(samples[..count])) && Sorted(samples[..count])
    {
      var sorted := SortedCopy(samples[..count]);
      SortedCopyCorrect(samples[..count]);
      forall i | 0 <= i < count {
        samples[i] := sorted[i];
      }
      assert samples[..count] == sorted;
    }

    /** An estimate of a percentile, from the samples in order. */
    method GetPercentile(pct: real) returns (r: int)
      requires Valid()
      modifies this, samples
      ensures Valid() && history == old(history)
      ensures origin == if old(count) < 1 then old(origin) else SortedBy(history, old(origin))
      ensures r == PercentileOf(SortedCopy(old(samples[..count])), pct)
    {
      if count < 1 {
        return 0;
      }
      Sort(false);
      var index := FractionalIndex(pct, count);
      if index <= 0.0 {
        return samples[0];
      }
      var i := Truncated(index);
      if i >= count - 1 {
        return samples[count - 1];
      }
      var l, r' := samples[i] as real, samples[i + 1] as real;
      r := Truncated(Lerp(l, r', index - i as real));
    }
  }

  lemma KeptValues(history: seq<int>, x: int, origin: seq<nat>, draw: nat, max: nat)
    requires |origin| <= max && DistinctBelow(origin, |history|)
    ensures Values(history + [x], Kept(origin, |history|, draw, max)) == Kept(Values(history, origin), x, draw, max)
  {
    forall i | 0 <= i < |origin| ensures ValueAt(history + [x], origin[i]) == ValueAt(history, origin[i]) {
      assert origin[i] in origin;
    }
  }

  // ---------- a whole stream ----------

  lemma {:induction false} InsertByAlike(a: seq<int>, b: seq<int>, p: nat, s: seq<nat>)
    requires ValueAt(a, p) == ValueAt(b, p) && forall q :: q in s ==> ValueAt(a, q) == ValueAt(b, q)
    ensures InsertBy(a, p, s) == InsertBy(b, p, s)
  {
    if s != [] {
      InsertByAlike(a, b, p, s[1..]);
    }
  }

  /** Only the values of the positions sorted matter. */
  lemma {:induction false} SortedByAlike(a: seq<int>, b: seq<int>, s: seq<nat>)
    requires forall q :: q in s ==> ValueAt(a, q) == ValueAt(b, q)
    ensures SortedBy(a, s) == SortedBy(b, s)
  {
    if s != [] {
      var rest := s[1..];
      SortedByAlike(a, b, rest);
      SortedByRearranges(a, rest);
      forall q | q in SortedBy(a, rest) ensures ValueAt(a, q) == ValueAt(b, q) {
        assert q in multiset(rest);
        assert q in rest;
      }
      InsertByAlike(a, b, s[0], SortedBy(a, rest));
    }
  }

  /** A sequence of draws for `n` items: every draw is in the range asked for. */
  ghost predicate InRange(draws: seq<nat>, n: nat, max: nat) {
    |draws| == Extra(n, max) && forall k :: 0 <= k < |draws| ==> draws[k] <= max + k
  }

  lemma {:induction false} DrawsInRange(c: seq<nat>, n: nat, max: nat)
    ensures c in Draws(n, max) <==> InRange(c, n, max)
    decreases n
  {
    DrawsSize(n, max);
    if n > max {
      var m := n - 1;
      assert Draws(m + 1, max) == Draws(n, max);
      if c != [] {
        var c', r := c[..|c| - 1], c[|c| - 1];
        assert c == c' + [r];
        DrawsStep(c', r, m, max);
        DrawsInRange(c', m, max);
      }
    }
  }

  lemma RetainedLast(d: seq<nat>, n: nat, max: nat, mix: Mix)
    requires Rearranging(mix) && |d| == Extra(n + 1, max)
    ensures Retained(d, n + 1, max, mix)
         == mix(n + 1, d, Kept(Retained(d[..Extra(n, max)], n, max, mix), n, if n < max then 0 else d[n - max], max))
  {
  }

  lemma RetainedFrom(draws: seq<nat>, n: nat, max: nat, mix: Mix)
    requires Rearranging(mix) && Extra(n + 1, max) <= |draws|
    ensures Retained(draws[..Extra(n + 1, max)], n + 1, max, mix)
         == mix(n + 1, draws[..Extra(n + 1, max)],
                Kept(Retained(draws[..Extra(n, max)], n, max, mix), n, if n < max then 0 else draws[n - max], max))
  {
    var d := draws[..Extra(n + 1, max)];
    RetainedLast(d, n, max, mix);
    assert d[..Extra(n, max)] == draws[..Extra(n, max)];
  }

  function QueriedTable(stream: seq<int>, s: seq<nat>, query: bool): seq<nat> {
    if query then SortedBy(stream, s) else s
  }

  method AddAndQuery(g: PercentileGenerator, x: int, draw: nat, query: bool, pct: real)
    requires g.Valid() && draw <= g.total
    modifies g, g.samples
    ensures g.Valid() && g.history == old(g.history) + [x]
    ensures g.origin == QueriedTable(g.history, Kept(old(g.origin), old(g.total), draw, g.max), query)
  {
    g.AddSample(x, draw);
    if query {
      var _ := g.GetPercentile(pct);
    }
  }

  lemma MixAlike(stream: seq<int>, n: nat, queried: Timing, c: seq<nat>, s: seq<nat>)
    requires n <= |stream| && DistinctBelow(s, n)
    ensures SortingMix(stream, queried)(n, c, s) == QueriedTable(stream[..n], s, queried(n, c))
  {
    SortedByAlike(stream, stream[..n], s);
  }

  /** The table's positions when the first `n` items have been added. */
  ghost function TableAfter(stream: seq<int>, draws: seq<nat>, n: nat, max: nat, queried: Timing): seq<nat>
    requires n <= |stream| && |draws| == Extra(|stream|, max)
  {
    SortingRearranges(stream, queried);
    Retained(draws[..Extra(n, max)], n, max, SortingMix(stream, queried))
  }

  function DrawAt(draws: seq<nat>, n: nat, max: nat): nat {
    if n < max || n - max >= |draws| then 0 else draws[n - max]
  }

  predicate QueriedAt(queried: Timing, draws: seq<nat>, n: nat, max: nat)
    requires Extra(n, max) <= |draws|
  {
    queried(n, draws[..Extra(n, max)])
  }

  lemma DrawAtBound(draws: seq<nat>, n: nat, size: nat, max: nat)
    requires draws in Draws(size, max)
    ensures |draws| == Extra(size, max) && DrawAt(draws, n, max) <= n
  {
    DrawsInRange(draws, size, max);
  }

  lemma TableKept(stream: seq<int>, draws: seq<nat>, n: nat, max: nat, queried: Timing)
    requires n < |stream| && |draws| == Extra(|stream|, max)
    ensures |TableAfter(stream, draws, n, max, queried)| <= max
    ensures DistinctBelow(Kept(TableAfter(stream, draws, n, max, queried), n, DrawAt(draws, n, max), max), n + 1)
  {
    SortingRearranges(stream, queried);
    RetainedDistinct(draws[..Extra(n, max)], n, max, SortingMix(stream, queried));
    KeptDistinct(TableAfter(stream, draws, n, max, queried), n, DrawAt(draws, n, max), max);
  }

  lemma TableStep(stream: seq<int>, draws: seq<nat>, n: nat, max: nat, queried: Timing)
    requires n < |stream| && |draws| == Extra(|stream|, max)
    ensures |TableAfter(stream, draws, n, max, queried)| <= max
    ensures TableAfter(stream, draws, n + 1, max, queried)
         == QueriedTable(stream[..n + 1],
                         Kept(TableAfter(stream, draws, n, max, queried), n, DrawAt(draws, n, max), max),
                         QueriedAt(queried, draws, n + 1, max))
  {
    TableKept(stream, draws, n, max, queried);
    var kept := Kept(TableAfter(stream, draws, n, max, queried), n, DrawAt(draws, n, max), max);
    MixAlike(stream, n + 1, queried, draws[..Extra(n + 1, max)], kept);
    SortingRearranges(stream, queried);
    RetainedFrom(draws, n, max, SortingMix(stream, queried));
  }

  lemma TableAtEnd(stream: seq<int>, draws: seq<nat>, max: nat, queried: Timing)
    requires |draws| == Extra(|stream|, max)
    ensures Rearranging(SortingMix(stream, queried))
    ensures TableAfter(stream, draws, |stream|, max, queried)
         == Retained(draws, |stream|, max, SortingMix(stream, queried))
  {
    SortingRearranges(stream, queried);
    assert draws[..Extra(|stream|, max)] == draws;
  }

  /** The next item of a stream, and the query that may come after it. */
  method CollectNext(g: PercentileGenerator, stream: seq<int>, draws: seq<nat>, n: nat, queried: Timing, pct: real)
    requires g.Valid() && n < |stream| && draws in Draws(|stream|, g.max) && |draws| == Extra(|stream|, g.max)
    requires g.history == stream[..n] && g.origin == TableAfter(stream, draws, n, g.max, queried)
    modifies g, g.samples
    ensures g.Valid() && g.history == stream[..n + 1]
    ensures g.origin == TableAfter(stream, draws, n + 1, g.max, queried)
  {
    DrawAtBound(draws, n, |stream|, g.max);
    TableStep(stream, draws, n, g.max, queried);
    TakeOneMore(stream, n);
    AddAndQuery(g, stream[n], DrawAt(draws, n, g.max), QueriedAt(queried, draws, n + 1, g.max), pct);
  }

  /**
   * Adds a whole stream, asking for a percentile after some of the items: the table then holds
   * what the counting theorems are about.
   */
  method Collect(max: nat, stream: seq<int>, draws: seq<nat>, queried: Timing, pct: real)
    returns (g: PercentileGenerator)
    requires 0 < max && draws in Draws(|stream|, max)
    ensures fresh(g) && g.Valid() && g.max == max && g.history == stream
    ensures Rearranging(SortingMix(stream, queried)) && |draws| == Extra(|stream|, max)
    ensures g.origin == Retained(draws, |stream|, max, SortingMix(stream, queried))
  {
    DrawAtBound(draws, 0, |stream|, max);
    g := new PercentileGenerator(max);
    var n := 0;
    while n < |stream|
      invariant n <= |stream| && fresh(g) && fresh(g.samples) && g.Valid()
      invariant g.max == max && g.history == stream[..n]
      invariant g.origin == TableAfter(stream, draws, n, max, queried)
    {
      CollectNext(g, stream, draws, n, queried, pct);
      n := n + 1;
    }
    assert stream[..n] == stream;
    TableAtEnd(stream, draws, max, queried);
  }
}
