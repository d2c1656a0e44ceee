/**
 * Scenario evaluation (compute_scenarios): the (rank, points) rows are coerced and
 * cleaned, then each surviving row, in order, gets a rate from the tiers, a bonus
 * from the bonus ranges, and the total points * rate + bonus.
 */
module Scenarios {
  import opened Wrappers
  import opened Frames
  import opened RangeTables
  import opened Resolver

  const PlaceColumn := "platz"
  const PointsColumn := "punkte"

  /** One what-if row: a final rank and a points total. */
  datatype Scenario = Scenario(place: int, points: real)

  /** A scenario with the rate, bonus and total computed for it. */
  datatype Payout = Payout(place: int, points: real, rate: real, bonus: real, total: real)

  /** The rows that survive dropna on both fields, in input order. */
  function WellFormedIndices(places: seq<Option<int>>, points: seq<Cell>): (idx: seq<nat>)
    requires |places| == |points|
    ensures forall k :: 0 <= k < |idx| ==> idx[k] < |places| && places[idx[k]].Some? && points[idx[k]].Some?
    ensures forall k, l :: 0 <= k < l < |idx| ==> idx[k] < idx[l]
    ensures forall i :: 0 <= i < |places| && places[i].Some? && points[i].Some? ==> i in idx
  {
    if places == [] then []
    else
      var n := |places| - 1;
      var rest := WellFormedIndices(places[..n], points[..n]);
      if places[n].Some? && points[n].Some? then rest + [n] else rest
  }

  /** A row both of whose fields survived coercion. */
  predicate WellFormed(places: seq<Option<int>>, points: seq<Cell>, i: int) {
    0 <= i < |places| && i < |points| && places[i].Some? && points[i].Some?
  }

  /** dropna on both fields (app.py:88): the well-formed rows as scenarios, in input order. */
  function Clean(places: seq<Option<int>>, points: seq<Cell>): (s: seq<Scenario>)
    requires |places| == |points|
  {
    var idx := WellFormedIndices(places, points);
    seq(|idx|, k requires 0 <= k < |idx| => Scenario(places[idx[k]].value, points[idx[k]].value))
  }

  /** The cleaning half of compute_scenarios (app.py:82-88). */
  function Scenarios(f: Frame): (r: Result<seq<Scenario>, Failure>)
    requires Rectangular(f)
    ensures r.Ok? <==> RankColumn(f, PlaceColumn).Ok? && NumberColumn(f, PointsColumn).Ok?
    ensures RankColumn(f, PlaceColumn).Err? ==> r.Err? && r.error == RankColumn(f, PlaceColumn).error
    ensures RankColumn(f, PlaceColumn).Ok? && r.Err? ==> r.error == DuplicateColumn(PointsColumn)
    ensures r.Ok? ==>
              |RankColumn(f, PlaceColumn).value| == |NumberColumn(f, PointsColumn).value| &&
              r.value == Clean(RankColumn(f, PlaceColumn).value, NumberColumn(f, PointsColumn).value)
  {
    var places :- RankColumn(f, PlaceColumn);
    var points :- NumberColumn(f, PointsColumn);
    Ok(Clean(places, points))
  }

  /** The first k entries of a strictly increasing sequence are k distinct numbers. */
  lemma {:induction false} DistinctCount(idx: seq<nat>, k: nat)
    requires forall a, b :: 0 <= a < b < |idx| ==> idx[a] < idx[b]
    requires k <= |idx|
    ensures |set l | 0 <= l < k :: idx[l]| == k
  {
    if k > 0 {
      DistinctCount(idx, k - 1);
      var sp := set l | 0 <= l < k - 1 :: idx[l];
      var s := set l | 0 <= l < k :: idx[l];
      assert s == sp + {idx[k - 1]};
      assert idx[k - 1] !in sp;
    }
  }

  /** In a strictly increasing sequence, positions are ordered as their entries are. */
  lemma IncreasingOrder(idx: seq<nat>, l: nat, k: nat)
    requires forall a, b :: 0 <= a < b < |idx| ==> idx[a] < idx[b]
    requires l < |idx| && k < |idx|
    ensures idx[l] < idx[k] <==> l < k
  {
    if k < l {
      assert idx[k] < idx[l];
    }
  }

  /** A well-formed row before the k-th kept one is one of the first k kept ones. */
  lemma WellFormedBefore(places: seq<Option<int>>, points: seq<Cell>, k: nat, j: int)
    requires |places| == |points|
    requires k < |WellFormedIndices(places, points)|
    requires 0 <= j < WellFormedIndices(places, points)[k] && WellFormed(places, points, j)
    ensures exists l :: 0 <= l < k && WellFormedIndices(places, points)[l] == j
  {
    var idx := WellFormedIndices(places, points);
    assert j in idx;
    var l :| 0 <= l < |idx| && idx[l] == j;
    IncreasingOrder(idx, l, k);
  }

  /** The well-formed rows before the k-th kept one are exactly the first k kept ones. */
  lemma WellFormedPrefix(places: seq<Option<int>>, points: seq<Cell>, k: nat)
    requires |places| == |points|
    requires k <= |WellFormedIndices(places, points)|
    ensures var idx := WellFormedIndices(places, points);
      var bound := if k < |idx| then idx[k] else |places|;
      (set j | 0 <= j < bound && WellFormed(places, points, j)) == set l | 0 <= l < k :: idx[l]
  {
    var idx := WellFormedIndices(places, points);
    var bound := if k < |idx| then idx[k] else |places|;
    var before := set j | 0 <= j < bound && WellFormed(places, points, j);
    var kept := set l | 0 <= l < k :: idx[l];
    forall j | j in before ensures j in kept {
      if k < |idx| {
        WellFormedBefore(places, points, k, j);
      } else {
        assert j in idx;
      }
    }
    forall l | 0 <= l < k ensures idx[l] in before {
      if k < |idx| {
        IncreasingOrder(idx, l, k);
      }
    }
  }

  /** There are as many scenarios as well-formed rows. */
  lemma CleanCount(places: seq<Option<int>>, points: seq<Cell>)
    requires |places| == |points|
    ensures |Clean(places, points)| == |set i | 0 <= i < |places| && WellFormed(places, points, i)|
  {
    var idx := WellFormedIndices(places, points);
    WellFormedPrefix(places, points, |idx|);
    DistinctCount(idx, |idx|);
  }

  /** The k-th scenario is the k-th well-formed row: cleaning keeps the input order. */
  lemma CleanInOrder(places: seq<Option<int>>, points: seq<Cell>, k: nat)
    requires |places| == |points|
    requires k < |Clean(places, points)|
    ensures exists i ::
              WellFormed(places, points, i) &&
              Clean(places, points)[k] == Scenario(places[i].value, points[i].value) &&
              |set j | 0 <= j < i && WellFormed(places, points, j)| == k
  {
    var idx := WellFormedIndices(places, points);
    var i := idx[k];
    WellFormedPrefix(places, points, k);
    DistinctCount(idx, k);
    assert WellFormed(places, points, i);
  }

  lemma {:induction false} AllWellFormedIndices(places: seq<Option<int>>, points: seq<Cell>)
    requires |places| == |points|
    requires forall i :: 0 <= i < |places| ==> places[i].Some? && points[i].Some?
    ensures WellFormedIndices(places, points) == seq(|places|, i => i)
  {
    if places != [] {
      var n := |places| - 1;
      AllWellFormedIndices(places[..n], points[..n]);
      assert seq(n, i => i) + [n] == seq(|places|, i => i);
    }
  }

  /** With every row well-formed, cleaning drops nothing and keeps the order. */
  lemma CleanOfCleanInput(places: seq<Option<int>>, points: seq<Cell>)
    requires |places| == |points|
    requires forall i :: 0 <= i < |places| ==> places[i].Some? && points[i].Some?
    ensures |Clean(places, points)| == |places|
    ensures forall i :: 0 <= i < |places| ==> Clean(places, points)[i] == Scenario(places[i].value, points[i].value)
  {
    AllWellFormedIndices(places, points);
  }

  /** The payout of one row (app.py:96). */
  function Total(points: real, rate: real, bonus: real): real {
    points * rate + bonus
  }

  /**
   * The loop of compute_scenarios (app.py:90-102): for each cleaned row, in order,
   * collect the rate, the bonus and the total, then attach them as new columns.
   */
  method Evaluate(rows: seq<Scenario>, tiers: Table, baseRate: real, promos: Table, promoMode: string, tierMode: string)
    returns (payouts: seq<Payout>)
    ensures |payouts| == |rows|
    ensures forall k :: 0 <= k < |rows| ==>
      payouts[k].place == rows[k].place && payouts[k].points == rows[k].points &&
      payouts[k].rate == FindRate(rows[k].place, tiers, baseRate, tierMode) &&
      payouts[k].bonus == FindBonus(rows[k].place, promos, promoMode) &&
      payouts[k].total == Total(rows[k].points, payouts[k].rate, payouts[k].bonus)
  {
    var rates, bonuses, totals := [], [], [];
    for k := 0 to |rows|
      invariant |rates| == k && |bonuses| == k && |totals| == k
      invariant forall j :: 0 <= j < k ==> rates[j] == FindRate(rows[j].place, tiers, baseRate, tierMode)
      invariant forall j :: 0 <= j < k ==> bonuses[j] == FindBonus(rows[j].place, promos, promoMode)
      invariant forall j :: 0 <= j < k ==> totals[j] == Total(rows[j].points, rates[j], bonuses[j])
    {
      var place, pts := rows[k].place, rows[k].points;
      var rate := FindRate(place, tiers, baseRate, tierMode);
      var bonus := FindBonus(place, promos, promoMode);
      var total := Total(pts, rate, bonus);
      rates, bonuses, totals := rates + [rate], bonuses + [bonus], totals + [total];
    }
    payouts := seq(|rows|, j requires 0 <= j < |rows| =>
      Payout(rows[j].place, rows[j].points, rates[j], bonuses[j], totals[j]));
  }

  /**
   * compute_scenarios (app.py:80-103): clean the scenario frame, then evaluate
   * every surviving row; a column access that raises fails the whole call.
   */
  method ComputeScenarios(scen: Frame, tiers: Table, baseRate: real, promos: Table, promoMode: string, tierMode: string)
    returns (out: Result<seq<Payout>, Failure>)
    requires Rectangular(scen)
    ensures out.Err? <==> Scenarios(scen).Err?
    ensures out.Err? ==> out.error == Scenarios(scen).error
    ensures out.Ok? ==> |out.value| == |Scenarios(scen).value|
    ensures out.Ok? ==> forall k :: 0 <= k < |out.value| ==>
      var s, p := Scenarios(scen).value[k], out.value[k];
      p.place == s.place && p.points == s.points &&
      p.rate == FindRate(s.place, tiers, baseRate, tierMode) &&
      p.bonus == FindBonus(s.place, promos, promoMode) &&
      p.total == s.points * p.rate + p.bonus
  {
    var cleaned := Scenarios(scen);
    if cleaned.Err? {
      return Err(cleaned.error);
    }
    var payouts := Evaluate(cleaned.value, tiers, baseRate, promos, promoMode, tierMode);
    out := Ok(payouts);
  }
}
