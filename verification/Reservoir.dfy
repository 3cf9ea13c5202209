/**
 * Keeping a random subset of a stream that may be longer than the table: counted over all
 * sequences of random draws, every subset of the stream is kept equally often, even when the table
 * is rearranged between additions.
 */
module Reservoir {
  import opened Common
  import Sorting

  /** The table after one more item; `draw` counts only if the table is full. */
  function Kept<T>(table: seq<T>, x: T, draw: nat, max: nat): (r: seq<T>)
    requires |table| <= max
    ensures |r| == if |table| < max then |table| + 1 else max
  {
    if |table| < max then table + [x]
    else if draw < max then table[draw := x]
    else table
  }

  /** How many draws matter once `n` items have been added. */
  function Extra(n: nat, max: nat): nat {
    if n <= max then 0 else n - max
  }

  /**
   * What may happen to the table between additions: it is rearranged, as sorting does. Whether and how
   * may depend on the number of items so far, the draws so far and the table.
   */
  type Mix = (nat, seq<nat>, seq<nat>) -> seq<nat>

  ghost predicate Rearranging(mix: Mix) {
    forall n: nat, c: seq<nat>, s: seq<nat> :: multiset(mix(n, c, s)) == multiset(s)
  }

  lemma MixKeeps(mix: Mix, n: nat, c: seq<nat>, s: seq<nat>)
    requires Rearranging(mix)
    ensures |mix(n, c, s)| == |s|
    ensures forall p :: p in mix(n, c, s) <==> p in s
  {
    assert multiset(mix(n, c, s)) == multiset(s);
    assert |mix(n, c, s)| == |multiset(mix(n, c, s))| && |s| == |multiset(s)|;
    forall p ensures p in mix(n, c, s) <==> p in s {
      assert p in multiset(mix(n, c, s)) <==> p in multiset(s);
    }
  }

  /** The stream positions held in the table after `n` items, given the draws made. */
  ghost function Retained(draws: seq<nat>, n: nat, max: nat, mix: Mix): (r: seq<nat>)
    requires Rearranging(mix) && |draws| == Extra(n, max)
    ensures |r| == if n <= max then n else max
    decreases n
  {
    if n == 0 then []
    else
      var before := Retained(draws[..Extra(n - 1, max)], n - 1, max, mix);
      var draw := if n <= max then 0 else draws[n - 1 - max];
      MixKeeps(mix, n, draws, Kept(before, n - 1, draw, max));
      mix(n, draws, Kept(before, n - 1, draw, max))
  }

  ghost function Below(n: nat): (s: set<nat>)
    ensures |s| == n && forall r: nat :: r in s <==> r < n
  {
    if n == 0 then {} else Below(n - 1) + {n - 1}
  }

  /** Every sequence of draws for `n` items: the item at position `k` draws a number up to `k`. */
  ghost function Draws(n: nat, max: nat): set<seq<nat>> {
    if n <= max then {[]} else Extended(Draws(n - 1, max), _ => Below(n))
  }

  /** Sequences of `a`, each extended by one of the numbers `next` allows it. */
  ghost function Extended(a: set<seq<nat>>, next: seq<nat> -> set<nat>): set<seq<nat>> {
    set c, r | c in a && r in next(c) :: c + [r]
  }

  lemma InExtended(a: set<seq<nat>>, next: seq<nat> -> set<nat>, d: seq<nat>)
    ensures d in Extended(a, next) <==> d != [] && d[..|d| - 1] in a && d[|d| - 1] in next(d[..|d| - 1])
  {
    if d != [] {
      assert d == d[..|d| - 1] + [d[|d| - 1]];
    }
    if d in Extended(a, next) {
      var c, r :| c in a && r in next(c) && d == c + [r];
      assert d[..|d| - 1] == c;
    }
  }

  lemma {:induction false} DrawsSize(n: nat, max: nat)
    ensures forall c :: c in Draws(n, max) ==> |c| == Extra(n, max)
  {
    if n > max {
      DrawsSize(n - 1, max);
    }
  }

  // ---------- counting ----------

  ghost function Suffixed(c: seq<nat>, next: set<nat>): set<seq<nat>> {
    set r | r in next :: c + [r]
  }

  lemma {:induction false} SuffixCount(c: seq<nat>, next: set<nat>)
    ensures |Suffixed(c, next)| == |next|
  {
    if next != {} {
      var r :| r in next;
      var rest := next - {r};
      SuffixCount(c, rest);
      assert Suffixed(c, next) == Suffixed(c, rest) + {c + [r]};
      assert c + [r] !in Suffixed(c, rest) by {
        forall r' | r' in rest ensures c + [r'] != c + [r] {
          assert (c + [r'])[|c|] == r' != (c + [r])[|c|];
        }
      }
    }
  }

  lemma ExtendedSplit(a: set<seq<nat>>, c: seq<nat>, next: seq<nat> -> set<nat>)
    requires c in a
    ensures |Extended(a, next)| == |Extended(a - {c}, next)| + |next(c)|
  {
    forall d ensures d in Suffixed(c, next(c)) <==> d != [] && d[..|d| - 1] == c && d[|d| - 1] in next(c) {
      if d != [] {
        assert d == d[..|d| - 1] + [d[|d| - 1]];
      }
    }
    forall d ensures d in Extended(a, next) <==> d in Extended(a - {c}, next) || d in Suffixed(c, next(c)) {
      InExtended(a, next, d);
      InExtended(a - {c}, next, d);
    }
    forall d | d in Suffixed(c, next(c)) ensures d !in Extended(a - {c}, next) {
      InExtended(a - {c}, next, d);
    }
    assert Extended(a, next) == Extended(a - {c}, next) + Suffixed(c, next(c));
    SuffixCount(c, next(c));
  }

  lemma {:induction false} ExtendedCount(a: set<seq<nat>>, next: seq<nat> -> set<nat>, k: nat)
    requires forall c :: c in a ==> |next(c)| == k
    ensures |Extended(a, next)| == |a| * k
  {
    if a == {} {
      assert Extended(a, next) == {};
    } else {
      var c :| c in a;
      ExtendedCount(a - {c}, next, k);
      ExtendedSplit(a, c, next);
      OneMore(|a - {c}|, k);
    }
  }

  lemma OneMore(n: nat, k: nat)
    ensures (n + 1) * k == n * k + k
  {
  }

  // ---------- one more item ----------

  ghost function Items(s: seq<nat>): set<nat> {
    set p | p in s
  }

  /** Different positions of a stream of `n` items. */
  ghost predicate DistinctBelow(s: seq<nat>, n: nat) {
    Distinct(s) && forall p :: p in s ==> p < n
  }

  lemma RearrangedBelow(r: seq<nat>, s: seq<nat>, n: nat)
    requires multiset(r) == multiset(s) && DistinctBelow(s, n)
    ensures DistinctBelow(r, n)
  {
    forall i, j | 0 <= i < j < |r| ensures r[i] != r[j] {
      if r[i] == r[j] {
        Sorting.TwiceInSequence(r, r[i]);
        Sorting.TwiceInSequence(s, r[i]);
        assert false;
      }
    }
    forall p | p in r ensures p < n {
      assert p in multiset(s);
      assert p in s;
    }
  }

  lemma KeptDistinct(table: seq<nat>, n: nat, draw: nat, max: nat)
    requires DistinctBelow(table, n) && |table| <= max
    ensures DistinctBelow(Kept(table, n, draw, max), n + 1)
  {
    var t := Kept(table, n, draw, max);
    forall i, j | 0 <= i < j < |t| ensures t[i] != t[j] {
      assert i < |table| ==> table[i] in table;
      assert j < |table| ==> table[j] in table;
    }
  }

  lemma MixedDistinct(table: seq<nat>, n: nat, draws: seq<nat>, draw: nat, max: nat, mix: Mix)
    requires Rearranging(mix) && DistinctBelow(table, n) && |table| <= max
    ensures DistinctBelow(mix(n + 1, draws, Kept(table, n, draw, max)), n + 1)
  {
    var kept := Kept(table, n, draw, max);
    KeptDistinct(table, n, draw, max);
    assert multiset(mix(n + 1, draws, kept)) == multiset(kept);
    RearrangedBelow(mix(n + 1, draws, kept), kept, n + 1);
  }

  lemma DistinctStep(draws: seq<nat>, n: nat, max: nat, mix: Mix)
    requires Rearranging(mix) && |draws| == Extra(n + 1, max)
    requires DistinctBelow(Retained(draws[..Extra(n, max)], n, max, mix), n)
    ensures DistinctBelow(Retained(draws, n + 1, max, mix), n + 1)
  {
    var before := Retained(draws[..Extra(n, max)], n, max, mix);
    var draw := if n < max then 0 else draws[n - max];
    assert Retained(draws, n + 1, max, mix) == mix(n + 1, draws, Kept(before, n, draw, max));
    MixedDistinct(before, n, draws, draw, max, mix);
  }

  /** The table holds that many different positions of the stream. */
  lemma {:induction false} RetainedDistinct(draws: seq<nat>, n: nat, max: nat, mix: Mix)
    requires Rearranging(mix) && |draws| == Extra(n, max)
    ensures DistinctBelow(Retained(draws, n, max, mix), n)
    decreases n
  {
    if n > 0 {
      var m := n - 1;
      assert Retained(draws, m + 1, max, mix) == Retained(draws, n, max, mix);
      RetainedDistinct(draws[..Extra(m, max)], m, max, mix);
      DistinctStep(draws, m, max, mix);
    }
  }

  lemma DistinctItems(s: seq<nat>)
    requires Distinct(s)
    ensures |Items(s)| == |s|
  {
    if s != [] {
      var rest := s[..|s| - 1];
      DistinctItems(rest);
      assert s == rest + [s[|s| - 1]];
      assert Items(s) == Items(rest) + {s[|s| - 1]};
    }
  }

  lemma MixKeepsItems(mix: Mix, n: nat, c: seq<nat>, s: seq<nat>)
    requires Rearranging(mix)
    ensures Items(mix(n, c, s)) == Items(s)
  {
    MixKeeps(mix, n, c, s);
  }

  lemma RetainedWithRoom(n: nat, max: nat, mix: Mix)
    requires Rearranging(mix) && n < max
    ensures Retained([], n + 1, max, mix) == mix(n + 1, [], Retained([], n, max, mix) + [n])
  {
  }

  lemma RetainedEarly(n: nat, max: nat, mix: Mix)
    requires Rearranging(mix) && n < max
    ensures Items(Retained([], n + 1, max, mix)) == Items(Retained([], n, max, mix)) + {n}
  {
    var before := Retained([], n, max, mix);
    RetainedWithRoom(n, max, mix);
    MixKeepsItems(mix, n + 1, [], before + [n]);
    assert Items(before + [n]) == Items(before) + {n};
  }

  lemma EarlyStep(n: nat, max: nat, mix: Mix)
    requires Rearranging(mix) && n < max && Items(Retained([], n, max, mix)) == Below(n)
    ensures Items(Retained([], n + 1, max, mix)) == Below(n + 1)
  {
    RetainedEarly(n, max, mix);
  }

  lemma EarlyNone(max: nat, mix: Mix)
    requires Rearranging(mix)
    ensures Items(Retained([], 0, max, mix)) == Below(0)
  {
  }

  /** As long as there is room everything is kept. */
  lemma EarlyItems(n: nat, max: nat, mix: Mix)
    requires Rearranging(mix) && n <= max
    ensures Items(Retained([], n, max, mix)) == Below(n)
  {
    EarlyNone(max, mix);
    for k := 0 to n
      invariant Items(Retained([], k, max, mix)) == Below(k)
    {
      EarlyStep(k, max, mix);
    }
  }

  lemma RetainedStep(c: seq<nat>, r: nat, n: nat, max: nat, mix: Mix)
    requires Rearranging(mix) && max <= n && |c| == n - max
    ensures Retained(c + [r], n + 1, max, mix) == mix(n + 1, c + [r], Kept(Retained(c, n, max, mix), n, r, max))
  {
    assert (c + [r])[..n - max] == c;
  }

  lemma ItemsStep(c: seq<nat>, r: nat, n: nat, max: nat, mix: Mix)
    requires Rearranging(mix) && max <= n && |c| == n - max
    ensures Items(Retained(c + [r], n + 1, max, mix)) == Items(Kept(Retained(c, n, max, mix), n, r, max))
  {
    RetainedStep(c, r, n, max, mix);
    MixKeepsItems(mix, n + 1, c + [r], Kept(Retained(c, n, max, mix), n, r, max));
  }

  /** Afterwards a draw below `max` replaces what is in that slot, another one changes nothing. */
  lemma LateItems(c: seq<nat>, r: nat, n: nat, max: nat, mix: Mix)
    requires Rearranging(mix) && max <= n && |c| == n - max
    ensures var before := Retained(c, n, max, mix);
      Items(Retained(c + [r], n + 1, max, mix)) == if r < max then Items(before) - {before[r]} + {n} else Items(before)
  {
    ItemsStep(c, r, n, max, mix);
    RetainedDistinct(c, n, max, mix);
    KeptItems(Retained(c, n, max, mix), n, r, max);
  }

  lemma KeptItems(table: seq<nat>, n: nat, r: nat, max: nat)
    requires |table| == max && DistinctBelow(table, n)
    ensures Items(Kept(table, n, r, max)) == if r < max then Items(table) - {table[r]} + {n} else Items(table)
  {
    if r < max {
      Replaced(table, r, n);
    }
  }

  lemma Replaced(s: seq<nat>, r: nat, x: nat)
    requires Distinct(s) && r < |s| && x !in s
    ensures Items(s[r := x]) == Items(s) - {s[r]} + {x}
  {
    forall p ensures p in s[r := x] <==> p == x || (p in s && p != s[r]) {
      if i :| 0 <= i < |s| && s[i] == p && i != r {
        assert s[r := x][i] == p;
      }
      assert s[r := x][r] == x;
    }
  }

  // ---------- every position is kept equally often ----------

  /** The sequences of draws after which position `p` is kept. */
  ghost function Keeping(p: nat, n: nat, max: nat, mix: Mix): set<seq<nat>>
    requires Rearranging(mix)
  {
    set c | c in Draws(n, max) && |c| == Extra(n, max) && p in Retained(c, n, max, mix)
  }

  ghost function SlotOf(s: seq<nat>, p: nat): nat {
    if i :| 0 <= i < |s| && s[i] == p then i else 0
  }

  /** The draws that leave position `p` where it is. */
  ghost function Sparing(c: seq<nat>, p: nat, n: nat, max: nat, mix: Mix): set<nat>
    requires Rearranging(mix)
  {
    if |c| == Extra(n, max) then Below(n + 1) - {SlotOf(Retained(c, n, max, mix), p)} else {}
  }

  lemma DrawsStep(c: seq<nat>, r: nat, n: nat, max: nat)
    requires max <= n
    ensures c + [r] in Draws(n + 1, max) <==> c in Draws(n, max) && r <= n
    ensures c in Draws(n, max) ==> |c| == Extra(n, max)
  {
    assert (c + [r])[..|c|] == c;
    InExtended(Draws(n, max), _ => Below(n + 1), c + [r]);
    DrawsSize(n, max);
  }

  lemma KeptNewest(c: seq<nat>, r: nat, n: nat, max: nat, mix: Mix)
    requires Rearranging(mix) && max <= n && |c| == n - max
    ensures n in Retained(c + [r], n + 1, max, mix) <==> r < max
  {
    RetainedDistinct(c, n, max, mix);
    LateItems(c, r, n, max, mix);
    assert n in Retained(c + [r], n + 1, max, mix) <==> n in Items(Retained(c + [r], n + 1, max, mix));
  }

  /** An older position stays unless its own slot is drawn. */
  lemma KeptOlder(c: seq<nat>, r: nat, p: nat, n: nat, max: nat, mix: Mix)
    requires Rearranging(mix) && max <= n && |c| == n - max && p < n
    ensures p in Retained(c + [r], n + 1, max, mix)
       <==> p in Retained(c, n, max, mix) && r != SlotOf(Retained(c, n, max, mix), p)
  {
    var before := Retained(c, n, max, mix);
    RetainedDistinct(c, n, max, mix);
    LateItems(c, r, n, max, mix);
    assert p in Retained(c + [r], n + 1, max, mix) <==> p in Items(Retained(c + [r], n + 1, max, mix));
    assert p in before <==> p in Items(before);
    if p in before {
      var slot := SlotOf(before, p);
      assert before[slot] == p;
      assert r < max && r != slot ==> before[r] != p;
    }
  }

  lemma KeepingNewest(n: nat, max: nat, mix: Mix)
    requires Rearranging(mix) && 0 < max <= n
    ensures Keeping(n, n + 1, max, mix) == Extended(Draws(n, max), _ => Below(max))
  {
    var target := Extended(Draws(n, max), _ => Below(max));
    forall d ensures d in Keeping(n, n + 1, max, mix) <==> d in target {
      InExtended(Draws(n, max), _ => Below(max), d);
      DrawsSize(n + 1, max);
      if d != [] {
        var c, r := d[..|d| - 1], d[|d| - 1];
        assert d == c + [r];
        DrawsStep(c, r, n, max);
        if c in Draws(n, max) {
          KeptNewest(c, r, n, max, mix);
        }
      }
    }
  }

  lemma KeepingOlder(p: nat, n: nat, max: nat, mix: Mix)
    requires Rearranging(mix) && 0 < max <= n && p < n
    ensures Keeping(p, n + 1, max, mix) == Extended(Keeping(p, n, max, mix), c => Sparing(c, p, n, max, mix))
  {
    var target := Extended(Keeping(p, n, max, mix), c => Sparing(c, p, n, max, mix));
    forall d ensures d in Keeping(p, n + 1, max, mix) <==> d in target {
      InExtended(Keeping(p, n, max, mix), c => Sparing(c, p, n, max, mix), d);
      DrawsSize(n + 1, max);
      if d != [] {
        var c, r := d[..|d| - 1], d[|d| - 1];
        assert d == c + [r];
        DrawsStep(c, r, n, max);
        if c in Draws(n, max) {
          KeptOlder(c, r, p, n, max, mix);
        }
      }
    }
  }

  lemma DrawsCount(n: nat, max: nat)
    requires max <= n
    ensures |Draws(n + 1, max)| == |Draws(n, max)| * (n + 1)
  {
    ExtendedCount(Draws(n, max), _ => Below(n + 1), n + 1);
  }

  lemma SparingCount(c: seq<nat>, p: nat, n: nat, max: nat, mix: Mix)
    requires Rearranging(mix) && 0 < max <= n && c in Keeping(p, n, max, mix)
    ensures |Sparing(c, p, n, max, mix)| == n
  {
    var before := Retained(c, n, max, mix);
    assert before[SlotOf(before, p)] == p;
  }

  lemma NewestCount(n: nat, max: nat, mix: Mix)
    requires Rearranging(mix) && 0 < max <= n
    ensures |Keeping(n, n + 1, max, mix)| == |Draws(n, max)| * max
  {
    KeepingNewest(n, max, mix);
    ExtendedCount(Draws(n, max), _ => Below(max), max);
  }

  lemma OlderCount(p: nat, n: nat, max: nat, mix: Mix)
    requires Rearranging(mix) && 0 < max <= n && p < n
    ensures |Keeping(p, n + 1, max, mix)| == |Keeping(p, n, max, mix)| * n
  {
    KeepingOlder(p, n, max, mix);
    forall c | c in Keeping(p, n, max, mix) ensures |Sparing(c, p, n, max, mix)| == n {
      SparingCount(c, p, n, max, mix);
    }
    ExtendedCount(Keeping(p, n, max, mix), c => Sparing(c, p, n, max, mix), n);
  }

  lemma EarlyKept(p: nat, max: nat, mix: Mix)
    requires Rearranging(mix) && p < max
    ensures Keeping(p, max, max, mix) == Draws(max, max) == {[]}
  {
    EarlyItems(max, max, mix);
    assert p in Retained([], max, max, mix) by {
      assert p in Items(Retained([], max, max, mix));
    }
  }

  ghost predicate EquallyKept(p: nat, n: nat, max: nat, mix: Mix)
    requires Rearranging(mix)
  {
    |Keeping(p, n, max, mix)| * n == |Draws(n, max)| * max
  }

  lemma PositionStep(p: nat, m: nat, max: nat, mix: Mix)
    requires Rearranging(mix) && 0 < max <= m && p <= m && (p < m ==> EquallyKept(p, m, max, mix))
    ensures EquallyKept(p, m + 1, max, mix)
  {
    DrawsCount(m, max);
    if p == m {
      NewestCount(m, max, mix);
    } else {
      OlderCount(p, m, max, mix);
    }
    Commute(|Draws(m, max)|, max, m + 1);
  }

  lemma FirstPositions(p: nat, max: nat, mix: Mix)
    requires Rearranging(mix) && p < max
    ensures EquallyKept(p, max, max, mix)
  {
    EarlyKept(p, max, mix);
  }

  lemma EveryPosition(p: nat, n: nat, max: nat, mix: Mix)
    requires Rearranging(mix) && 0 < max <= n && p < n
    ensures EquallyKept(p, n, max, mix)
  {
    if p < max {
      FirstPositions(p, max, mix);
    }
    for m := max to n
      invariant p < m ==> EquallyKept(p, m, max, mix)
    {
      if p <= m {
        PositionStep(p, m, max, mix);
      }
    }
  }

  /** Of all sequences of draws, `max` in `n` keep a position: the sample favours none. */
  lemma EveryPositionEqually(p: nat, n: nat, max: nat, mix: Mix)
    requires Rearranging(mix) && 0 < max <= n && p < n
    ensures |Keeping(p, n, max, mix)| * n == |Draws(n, max)| * max
  {
    EveryPosition(p, n, max, mix);
  }

  lemma Commute(a: nat, b: nat, c: nat)
    ensures a * b * c == a * c * b
  {
  }

  // ---------- every subset is kept equally often ----------

  function Factorial(n: nat): (r: nat)
    ensures r > 0
  {
    if n == 0 then 1 else n * Factorial(n - 1)
  }

  /** The sequences of draws after which exactly the positions in `s` are kept. */
  ghost function Choosing(s: set<nat>, n: nat, max: nat, mix: Mix): set<seq<nat>>
    requires Rearranging(mix)
  {
    set c | c in Draws(n, max) && |c| == Extra(n, max) && Items(Retained(c, n, max, mix)) == s
  }

  /** Those after which all of `t` and one more position, out of `others`, are kept. */
  ghost function Covering(t: set<nat>, others: set<nat>, n: nat, max: nat, mix: Mix): set<seq<nat>>
    requires Rearranging(mix)
  {
    set c | c in Draws(n, max) && |c| == Extra(n, max)
         && t <= Items(Retained(c, n, max, mix)) && Items(Retained(c, n, max, mix)) - t <= others
  }

  /** The slots that hold none of `t`. */
  ghost function FreeSlots(c: seq<nat>, t: set<nat>, n: nat, max: nat, mix: Mix): set<nat>
    requires Rearranging(mix)
  {
    if |c| == Extra(n, max) && |Retained(c, n, max, mix)| == max
    then set i: nat | i in Below(max) && Retained(c, n, max, mix)[i] !in t
    else {}
  }

  lemma ChosenWithout(c: seq<nat>, r: nat, s: set<nat>, n: nat, max: nat, mix: Mix)
    requires Rearranging(mix) && max <= n && |c| == n - max && n !in s
    ensures Items(Retained(c + [r], n + 1, max, mix)) == s <==> Items(Retained(c, n, max, mix)) == s && r >= max
  {
    LateItems(c, r, n, max, mix);
    if r < max {
      assert n in Items(Retained(c + [r], n + 1, max, mix));
    }
  }

  lemma ChosenWith(c: seq<nat>, r: nat, t: set<nat>, n: nat, max: nat, mix: Mix)
    requires Rearranging(mix) && max <= n && |c| == n - max && n !in t && |t| == max - 1
    ensures Items(Retained(c + [r], n + 1, max, mix)) == t + {n}
       <==> t <= Items(Retained(c, n, max, mix)) && r in FreeSlots(c, t, n, max, mix)
  {
    var before := Retained(c, n, max, mix);
    RetainedDistinct(c, n, max, mix);
    LateItems(c, r, n, max, mix);
    DistinctItems(before);
    assert n !in Items(before);
    if r < max {
      var rest := Items(before) - {before[r]};
      assert before[r] in Items(before);
      assert rest + {n} == t + {n} <==> rest == t by {
        assert rest == rest + {n} - {n} && t == t + {n} - {n};
      }
      if t <= Items(before) && before[r] !in t {
        SameSizeSubset(t, rest);
      }
    }
  }

  lemma OneFreeSlot(c: seq<nat>, t: set<nat>, n: nat, max: nat, mix: Mix)
    requires Rearranging(mix) && 0 < max <= n && |c| == n - max && |t| == max - 1
    requires t <= Items(Retained(c, n, max, mix))
    ensures |FreeSlots(c, t, n, max, mix)| == 1
  {
    var before := Retained(c, n, max, mix);
    RetainedDistinct(c, n, max, mix);
    DistinctItems(before);
    var left := Items(before) - t;
    assert |left| == 1;
    var p :| p in left;
    var i :| 0 <= i < |before| && before[i] == p;
    assert left == {p} by {
      SameSizeSubset({p}, left);
    }
    forall j: nat | j in FreeSlots(c, t, n, max, mix) ensures j == i {
      assert before[j] in left;
    }
    assert FreeSlots(c, t, n, max, mix) == {i};
  }

  lemma ChoosingWithout(s: set<nat>, n: nat, max: nat, mix: Mix)
    requires Rearranging(mix) && max <= n && n !in s
    ensures Choosing(s, n + 1, max, mix) == Extended(Choosing(s, n, max, mix), _ => Below(n + 1) - Below(max))
  {
    var target := Extended(Choosing(s, n, max, mix), _ => Below(n + 1) - Below(max));
    forall d ensures d in Choosing(s, n + 1, max, mix) <==> d in target {
      InExtended(Choosing(s, n, max, mix), _ => Below(n + 1) - Below(max), d);
      DrawsSize(n + 1, max);
      if d != [] {
        var c, r := d[..|d| - 1], d[|d| - 1];
        assert d == c + [r];
        DrawsStep(c, r, n, max);
        if c in Draws(n, max) {
          ChosenWithout(c, r, s, n, max, mix);
        }
      }
    }
  }

  lemma ChoosingWith(t: set<nat>, n: nat, max: nat, mix: Mix)
    requires Rearranging(mix) && 0 < max <= n && n !in t && |t| == max - 1
    ensures Choosing(t + {n}, n + 1, max, mix)
         == Extended(Covering(t, Below(n) - t, n, max, mix), c => FreeSlots(c, t, n, max, mix))
  {
    var target := Extended(Covering(t, Below(n) - t, n, max, mix), c => FreeSlots(c, t, n, max, mix));
    forall d ensures d in Choosing(t + {n}, n + 1, max, mix) <==> d in target {
      InExtended(Covering(t, Below(n) - t, n, max, mix), c => FreeSlots(c, t, n, max, mix), d);
      DrawsSize(n + 1, max);
      if d != [] {
        assert d == d[..|d| - 1] + [d[|d| - 1]];
        ChoosingWithAt(d[..|d| - 1], d[|d| - 1], t, n, max, mix);
      }
    }
  }

  lemma ChoosingWithAt(c: seq<nat>, r: nat, t: set<nat>, n: nat, max: nat, mix: Mix)
    requires Rearranging(mix) && 0 < max <= n && n !in t && |t| == max - 1
    ensures c + [r] in Choosing(t + {n}, n + 1, max, mix)
       <==> c in Covering(t, Below(n) - t, n, max, mix) && r in FreeSlots(c, t, n, max, mix)
  {
    DrawsStep(c, r, n, max);
    if c in Draws(n, max) {
      ChosenWith(c, r, t, n, max, mix);
      RetainedDistinct(c, n, max, mix);
    }
  }

  lemma CoveringSplit(t: set<nat>, others: set<nat>, p: nat, n: nat, max: nat, mix: Mix)
    requires Rearranging(mix) && 0 < max <= n && |t| == max - 1 && p in others && p !in t
    ensures |Covering(t, others, n, max, mix)|
         == |Covering(t, others - {p}, n, max, mix)| + |Choosing(t + {p}, n, max, mix)|
  {
    forall c | c in Draws(n, max) && |c| == Extra(n, max) && t <= Items(Retained(c, n, max, mix))
      ensures p in Items(Retained(c, n, max, mix)) <==> Items(Retained(c, n, max, mix)) == t + {p}
    {
      var kept := Retained(c, n, max, mix);
      RetainedDistinct(c, n, max, mix);
      DistinctItems(kept);
      if p in Items(kept) {
        SameSizeSubset(t + {p}, Items(kept));
      }
    }
    var without, with_ := Covering(t, others - {p}, n, max, mix), Choosing(t + {p}, n, max, mix);
    assert Covering(t, others, n, max, mix) == without + with_;
    assert without !! with_;
  }

  lemma NothingCovered(t: set<nat>, n: nat, max: nat, mix: Mix)
    requires Rearranging(mix) && 0 < max <= n && |t| == max - 1
    ensures Covering(t, {}, n, max, mix) == {}
  {
    forall c | c in Covering(t, {}, n, max, mix) ensures false {
      var kept := Retained(c, n, max, mix);
      RetainedDistinct(c, n, max, mix);
      DistinctItems(kept);
      forall p: nat | p in Items(kept) ensures p in t {
        assert p !in t ==> p in Items(kept) - t;
      }
      SmallerSubset(Items(kept), t);
    }
  }

  lemma {:induction false} CoveringCount(t: set<nat>, others: set<nat>, n: nat, max: nat, mix: Mix)
    requires Rearranging(mix) && 0 < max <= n && |t| == max - 1 && t <= Below(n) && others <= Below(n) - t
    ensures |Covering(t, others, n, max, mix)| == |others| * Factorial(n - max)
    decreases n, 1, |others|
  {
    var orders := Factorial(n - max);
    if others == {} {
      NothingCovered(t, n, max, mix);
    } else {
      var p :| p in others;
      var rest := others - {p};
      assert |Covering(t, others, n, max, mix)| == |rest| * orders + orders by {
        CoveringSplit(t, others, p, n, max, mix);
        CoveringCount(t, rest, n, max, mix);
        EverySubsetEqually(t + {p}, n, max, mix);
      }
      OneMore(|rest|, orders);
    }
  }

  lemma CountWith(t: set<nat>, n: nat, max: nat, mix: Mix)
    requires Rearranging(mix) && 0 < max <= n && n !in t && |t| == max - 1
    ensures |Choosing(t + {n}, n + 1, max, mix)| == |Covering(t, Below(n) - t, n, max, mix)|
  {
    ChoosingWith(t, n, max, mix);
    forall c | c in Covering(t, Below(n) - t, n, max, mix) ensures |FreeSlots(c, t, n, max, mix)| == 1 {
      OneFreeSlot(c, t, n, max, mix);
    }
    ExtendedCount(Covering(t, Below(n) - t, n, max, mix), c => FreeSlots(c, t, n, max, mix), 1);
  }

  lemma CountWithout(s: set<nat>, n: nat, max: nat, mix: Mix)
    requires Rearranging(mix) && 0 < max <= n && n !in s
    ensures |Choosing(s, n + 1, max, mix)| == |Choosing(s, n, max, mix)| * (n + 1 - max)
  {
    ChoosingWithout(s, n, max, mix);
    assert Below(max) <= Below(n + 1) && |Below(n + 1) - Below(max)| == n + 1 - max;
    ExtendedCount(Choosing(s, n, max, mix), _ => Below(n + 1) - Below(max), n + 1 - max);
  }

  lemma AllOfThem(s: set<nat>, max: nat, mix: Mix)
    requires Rearranging(mix) && s <= Below(max) && |s| == max
    ensures Choosing(s, max, max, mix) == {[]}
  {
    EarlyItems(max, max, mix);
    SameSizeSubset(s, Below(max));
  }

  lemma RestCount(t: set<nat>, n: nat, max: nat)
    requires t <= Below(n) && |t| == max - 1 && 0 < max <= n
    ensures |Below(n) - t| == n + 1 - max
  {
  }

  lemma WithNewest(t: set<nat>, n: nat, max: nat, mix: Mix)
    requires Rearranging(mix) && 0 < max <= n && t <= Below(n) && |t| == max - 1
    ensures |Choosing(t + {n}, n + 1, max, mix)| == Factorial(n + 1 - max)
    decreases n, 2, 0
  {
    var others := Below(n) - t;
    RestCount(t, n, max);
    CountWith(t, n, max, mix);
    CoveringCount(t, others, n, max, mix);
  }

  lemma WithoutNewest(s: set<nat>, n: nat, max: nat, mix: Mix)
    requires Rearranging(mix) && 0 < max <= n && s <= Below(n) && |s| == max
    ensures |Choosing(s, n + 1, max, mix)| == Factorial(n + 1 - max)
    decreases n, 2, 0
  {
    assert |Choosing(s, n + 1, max, mix)| == |Choosing(s, n, max, mix)| * (n + 1 - max) by {
      NotBelow(s, n);
      CountWithout(s, n, max, mix);
    }
    assert |Choosing(s, n, max, mix)| == Factorial(n - max) by {
      EverySubsetEqually(s, n, max, mix);
    }
    FactorialStep(|Choosing(s, n + 1, max, mix)|, |Choosing(s, n, max, mix)|, n + 1 - max);
  }

  lemma OneMoreItem(s: set<nat>, n: nat, max: nat, mix: Mix)
    requires Rearranging(mix) && 0 < max <= n && s <= Below(n + 1) && |s| == max
    ensures |Choosing(s, n + 1, max, mix)| == Factorial(n + 1 - max)
    decreases n, 3, 0
  {
    var t := DropNewest(s, n);
    if n in s {
      WithNewest(t, n, max, mix);
    } else {
      WithoutNewest(s, n, max, mix);
    }
  }

  lemma FactorialStep(count: nat, fewer: nat, k: nat)
    requires k > 0 && count == fewer * k && fewer == Factorial(k - 1)
    ensures count == Factorial(k)
  {
  }

  lemma NotBelow(s: set<nat>, n: nat)
    requires s <= Below(n)
    ensures n !in s
  {
  }

  lemma DropNewest(s: set<nat>, n: nat) returns (t: set<nat>)
    requires s <= Below(n + 1)
    ensures n in s ==> s == t + {n} && |t| == |s| - 1 && t <= Below(n)
    ensures n !in s ==> s <= Below(n)
  {
    t := s - {n};
  }

  /**
   * Every subset of that size is what is kept after equally many sequences of draws: as many as
   * there are orders of the items left out.
   */
  lemma {:induction false} EverySubsetEqually(s: set<nat>, n: nat, max: nat, mix: Mix)
    requires Rearranging(mix) && 0 < max <= n && s <= Below(n) && |s| == max
    ensures |Choosing(s, n, max, mix)| == Factorial(n - max)
    decreases n, 0, 0
  {
    if n == max {
      AllOfThem(s, max, mix);
    } else {
      var m := n - 1;
      assert Choosing(s, m + 1, max, mix) == Choosing(s, n, max, mix);
      OneMoreItem(s, m, max, mix);
    }
  }

  lemma Regroup(fewer: nat, n: nat, f: nat, g: nat)
    requires fewer * f == g
    ensures fewer * n * f == n * g
  {
    Commute(fewer, n, f);
  }

  /** There are that many sequences of draws. */
  lemma {:induction false} AllDraws(n: nat, max: nat)
    requires max <= n
    ensures |Draws(n, max)| * Factorial(max) == Factorial(n)
    decreases n
  {
    if n > max {
      var m := n - 1;
      AllDraws(m, max);
      DrawsCount(m, max);
      Regroup(|Draws(m, max)|, n, Factorial(max), Factorial(m));
    }
  }
}
