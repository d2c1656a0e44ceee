/**
 * Looking a rank up in a range table (find_rate_for_place, find_bonus_for_place).
 * Several rules may cover one rank; the mode, a plain string as the selectors
 * pass it, decides which of them counts.
 */
module Resolver {
  import opened RangeTables

  const MaxRangeMode := "max_range"
  const FirstMode := "first"
  const MaxMode := "max"

  /** A rule covers a rank when from <= place <= to. */
  predicate Covers(r: Rule, place: int) {
    r.from <= place <= r.to
  }

  /** The positions of the covering rules, in table order. */
  function CoveringIndices(t: Table, place: int): (idx: seq<nat>)
    ensures forall k :: 0 <= k < |idx| ==> idx[k] < |t| && Covers(t[idx[k]], place)
    ensures forall k, l :: 0 <= k < l < |idx| ==> idx[k] < idx[l]
    ensures forall i :: 0 <= i < |t| && Covers(t[i], place) ==> i in idx
  {
    if t == [] then []
    else
      var rest := CoveringIndices(t[..|t| - 1], place);
      if Covers(t[|t| - 1], place) then rest + [|t| - 1] else rest
  }

  /** The rows the mask `from <= place & to >= place` keeps, in table order (app.py:55, 70). */
  function Matches(t: Table, place: int): (m: Table) {
    if t == [] then []
    else Matches(t[..|t| - 1], place) + if Covers(t[|t| - 1], place) then [t[|t| - 1]] else []
  }

  function Width(r: Rule): int {
    r.to - r.from
  }

  /** The order of sort_values(["width", "von_platz"]): narrower first, then lower from. */
  predicate NarrowerOrEqual(a: Rule, b: Rule) {
    Width(a) < Width(b) || (Width(a) == Width(b) && a.from <= b.from)
  }

  /**
   * The position that heads a stable sort of m by (width, from): a least rule,
   * and the first of the least ones.
   */
  function Narrowest(m: Table): (i: nat)
    requires m != []
    ensures i < |m|
    ensures forall j :: 0 <= j < |m| ==> NarrowerOrEqual(m[i], m[j])
    ensures forall j :: 0 <= j < i ==> !NarrowerOrEqual(m[j], m[i])
  {
    if |m| == 1 then 0
    else
      var k := Narrowest(m[..|m| - 1]);
      if NarrowerOrEqual(m[k], m[|m| - 1]) then k else |m| - 1
  }

  /** find_rate_for_place (app.py:49-61): any mode but "max_range" takes the first match. */
  function FindRate(place: int, tiers: Table, baseRate: real, matchMode: string): real {
    var m := Matches(tiers, place);
    if m == [] then baseRate
    else if matchMode == MaxRangeMode then m[Narrowest(m)].value
    else m[0].value
  }

  function Values(m: Table): (vals: seq<real>) {
    seq(|m|, k requires 0 <= k < |m| => m[k].value)
  }

  /** Python's max over a non-empty list. */
  function MaxOf(vals: seq<real>): (x: real)
    requires vals != []
    ensures x in vals
    ensures forall k :: 0 <= k < |vals| ==> vals[k] <= x
  {
    if |vals| == 1 then vals[0]
    else
      var x := MaxOf(vals[..|vals| - 1]);
      if vals[|vals| - 1] <= x then x else vals[|vals| - 1]
  }

  /** Python's sum, adding left to right. */
  function SumOf(vals: seq<real>): real {
    if vals == [] then 0.0 else SumOf(vals[..|vals| - 1]) + vals[|vals| - 1]
  }

  /** find_bonus_for_place (app.py:63-78): any mode but "first" and "max" sums. */
  function FindBonus(place: int, promos: Table, mode: string): real {
    var vals := Values(Matches(promos, place));
    if vals == [] then 0.0
    else if mode == FirstMode then vals[0]
    else if mode == MaxMode then MaxOf(vals)
    else SumOf(vals)
  }

  // ---------------------------------------------------------------------------
  // What the resolvers return

  /** The index of the first covering rule, when there is one. */
  predicate FirstCovering(t: Table, place: int, i: int) {
    0 <= i < |t| && Covers(t[i], place) && forall j :: 0 <= j < i ==> !Covers(t[j], place)
  }

  /** The k-th match is the rule at the k-th covering position. */
  lemma {:induction false} MatchesByIndex(t: Table, place: int)
    ensures |Matches(t, place)| == |CoveringIndices(t, place)|
    ensures forall k :: 0 <= k < |CoveringIndices(t, place)| ==>
      Matches(t, place)[k] == t[CoveringIndices(t, place)[k]]
  {
    if t != [] {
      var n := |t| - 1;
      var p := t[..n];
      MatchesByIndex(p, place);
      var pm, pidx := Matches(p, place), CoveringIndices(p, place);
      var m, idx := Matches(t, place), CoveringIndices(t, place);
      if Covers(t[n], place) {
        assert m == pm + [t[n]] && idx == pidx + [n];
      } else {
        assert m == pm && idx == pidx;
      }
      forall k | 0 <= k < |idx| ensures m[k] == t[idx[k]] {
        if k < |pidx| {
          assert m[k] == pm[k] == p[pidx[k]];
        }
      }
    }
  }

  lemma {:induction false} MatchesHead(t: Table, place: int, i: int)
    requires FirstCovering(t, place, i)
    ensures Matches(t, place) != [] && Matches(t, place)[0] == t[i]
  {
    MatchesByIndex(t, place);
    var idx := CoveringIndices(t, place);
    assert i in idx;
    var k :| 0 <= k < |idx| && idx[k] == i;
  }

  lemma {:induction false} MatchesEmpty(t: Table, place: int)
    ensures Matches(t, place) == [] <==> forall i :: 0 <= i < |t| ==> !Covers(t[i], place)
  {
    MatchesByIndex(t, place);
    var idx := CoveringIndices(t, place);
    if idx != [] {
      assert Covers(t[idx[0]], place);
    }
  }

  /** No covering tier: the rate is exactly the base rate, whatever the mode. */
  lemma RateFallback(place: int, tiers: Table, baseRate: real, matchMode: string)
    requires forall i :: 0 <= i < |tiers| ==> !Covers(tiers[i], place)
    ensures FindRate(place, tiers, baseRate, matchMode) == baseRate
  {
    MatchesEmpty(tiers, place);
  }

  /** Mode "first", or any mode but "max_range": the value of the earliest covering tier. */
  lemma RateFirst(place: int, tiers: Table, baseRate: real, matchMode: string, i: int)
    requires matchMode != MaxRangeMode
    requires FirstCovering(tiers, place, i)
    ensures FindRate(place, tiers, baseRate, matchMode) == tiers[i].value
  {
    MatchesHead(tiers, place, i);
  }

  /** The rule Narrowest picks among the matches, traced back to its table position. */
  lemma NarrowestPosition(place: int, tiers: Table)
    requires Matches(tiers, place) != []
    ensures var idx := CoveringIndices(tiers, place);
      var n := Narrowest(Matches(tiers, place));
      n < |idx| && Matches(tiers, place)[n] == tiers[idx[n]] &&
      (forall j :: 0 <= j < |tiers| && Covers(tiers[j], place) ==> NarrowerOrEqual(tiers[idx[n]], tiers[j])) &&
      (forall j :: 0 <= j < idx[n] && Covers(tiers[j], place) ==> !NarrowerOrEqual(tiers[j], tiers[idx[n]]))
  {
    var idx, m := CoveringIndices(tiers, place), Matches(tiers, place);
    MatchesByIndex(tiers, place);
    var n := Narrowest(m);
    var i := idx[n];
    forall j | 0 <= j < |tiers| && Covers(tiers[j], place)
      ensures NarrowerOrEqual(tiers[i], tiers[j])
      ensures j < i ==> !NarrowerOrEqual(tiers[j], tiers[i])
    {
      var k :| 0 <= k < |idx| && idx[k] == j;
      assert m[k] == tiers[j];
      if j < i {
        assert k < n;
      }
    }
  }

  /**
   * Mode "max_range": the value of a covering tier of least width, the lowest
   * from among those, and the earliest in table order among equals; never the
   * value of a tier that does not cover the rank.
   */
  lemma RateNarrowest(place: int, tiers: Table, baseRate: real)
    requires exists i :: 0 <= i < |tiers| && Covers(tiers[i], place)
    ensures exists i ::
              0 <= i < |tiers| && Covers(tiers[i], place) &&
              FindRate(place, tiers, baseRate, MaxRangeMode) == tiers[i].value &&
              (forall j :: 0 <= j < |tiers| && Covers(tiers[j], place) ==> NarrowerOrEqual(tiers[i], tiers[j])) &&
              (forall j :: 0 <= j < i && Covers(tiers[j], place) ==> !NarrowerOrEqual(tiers[j], tiers[i]))
  {
    MatchesEmpty(tiers, place);
    NarrowestPosition(place, tiers);
    var i := CoveringIndices(tiers, place)[Narrowest(Matches(tiers, place))];
    assert Covers(tiers[i], place);
    assert FindRate(place, tiers, baseRate, MaxRangeMode) == tiers[i].value;
  }

  /** No covering range: the bonus is 0, whatever the mode. */
  lemma BonusNone(place: int, promos: Table, mode: string)
    requires forall i :: 0 <= i < |promos| ==> !Covers(promos[i], place)
    ensures FindBonus(place, promos, mode) == 0.0
  {
    MatchesEmpty(promos, place);
  }

  /** Mode "first": the bonus of the earliest covering range. */
  lemma BonusFirst(place: int, promos: Table, i: int)
    requires FirstCovering(promos, place, i)
    ensures FindBonus(place, promos, FirstMode) == promos[i].value
  {
    MatchesHead(promos, place, i);
  }

  /** Mode "max": at least every covering bonus, and equal to one of them. */
  lemma BonusMax(place: int, promos: Table)
    requires exists i :: 0 <= i < |promos| && Covers(promos[i], place)
    ensures forall j :: 0 <= j < |promos| && Covers(promos[j], place) ==>
      promos[j].value <= FindBonus(place, promos, MaxMode)
    ensures exists j ::
              0 <= j < |promos| && Covers(promos[j], place) &&
              promos[j].value == FindBonus(place, promos, MaxMode)
  {
    var idx := CoveringIndices(promos, place);
    var m := Matches(promos, place);
    var vals := Values(m);
    MatchesByIndex(promos, place);
    MatchesEmpty(promos, place);
    var x := FindBonus(place, promos, MaxMode);
    assert x == MaxOf(vals);
    forall j | 0 <= j < |promos| && Covers(promos[j], place) ensures promos[j].value <= x {
      var k :| 0 <= k < |idx| && idx[k] == j;
      assert vals[k] == promos[j].value;
    }
    var k :| 0 <= k < |vals| && vals[k] == x;
    assert promos[idx[k]].value == x;
  }

  /** The sum of the covering bonuses, written independently over the whole table. */
  function CoveredTotal(t: Table, place: int): real {
    if t == [] then 0.0
    else (if Covers(t[0], place) then t[0].value else 0.0) + CoveredTotal(t[1..], place)
  }

  lemma {:induction false} CoveredTotalSnoc(t: Table, r: Rule, place: int)
    ensures CoveredTotal(t + [r], place) == CoveredTotal(t, place) + if Covers(r, place) then r.value else 0.0
  {
    if t != [] {
      CoveredTotalSnoc(t[1..], r, place);
      assert (t + [r])[1..] == t[1..] + [r];
    }
  }

  lemma {:induction false} SumOfMatches(t: Table, place: int)
    ensures SumOf(Values(Matches(t, place))) == CoveredTotal(t, place)
  {
    if t != [] {
      var p, last := t[..|t| - 1], t[|t| - 1];
      SumOfMatches(p, place);
      CoveredTotalSnoc(p, last, place);
      assert p + [last] == t;
      var vals := Values(Matches(t, place));
      if Covers(last, place) {
        assert vals[..|vals| - 1] == Values(Matches(p, place));
      } else {
        assert vals == Values(Matches(p, place));
      }
    }
  }

  /** Mode "sum", or any mode but "first" and "max": the total of all covering bonuses. */
  lemma BonusSum(place: int, promos: Table, mode: string)
    requires mode != FirstMode && mode != MaxMode
    ensures FindBonus(place, promos, mode) == CoveredTotal(promos, place)
  {
    SumOfMatches(promos, place);
  }
}
