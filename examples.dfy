/**
 * The calculator's default configuration (app.py:109-125) and worked lookups on
 * it and on a few small overlapping tables.
 */
module Examples {
  import opened Wrappers
  import opened Frames
  import opened RangeTables
  import opened Resolver
  import opened Scenarios

  const DefaultBaseRate := 50.0

  /** 100 per point for ranks 3-6, 75 per point for ranks 7-999. */
  const DefaultTiers: Table := [Rule(3, 6, 100.0), Rule(7, 999, 75.0)]

  /** A promotion bonus of 500 for ranks 1-2. */
  const DefaultPromos: Table := [Rule(1, 2, 500.0)]

  const DefaultTiersFrame := Frame(
    [FromColumn, ToColumn, RateColumn],
    [[Some(3.0), Some(6.0), Some(100.0)], [Some(7.0), Some(999.0), Some(75.0)]])

  /** The default tier table is already in normal form. */
  lemma DefaultTiersNormal()
    ensures NormalizeTiers(DefaultTiersFrame) == Ok(DefaultTiers)
  {
    assert DefaultTiersFrame == ToFrame(DefaultTiers, RateColumn);
    AliasesKeepCanonical();
    assert Sorted(DefaultTiers);
    NormalizeOfNormal(DefaultTiers, TierAliases, RateColumn);
  }

  const DefaultPromosFrame := Frame(
    [FromColumn, ToColumn, BonusColumn],
    [[Some(1.0), Some(2.0), Some(500.0)]])

  /** The default bonus table is already in normal form. */
  lemma DefaultPromosNormal()
    ensures NormalizePromos(DefaultPromosFrame) == Ok(DefaultPromos)
  {
    assert DefaultPromosFrame == ToFrame(DefaultPromos, BonusColumn);
    AliasesKeepCanonical();
    assert Sorted(DefaultPromos);
    NormalizeOfNormal(DefaultPromos, PromoAliases, BonusColumn);
  }

  /** The points of the default what-if rows, for ranks 1 to 16 in order. */
  const DefaultPoints: seq<real> :=
    [73.0, 69.0, 67.0, 59.0, 51.0, 46.0, 35.0, 35.0, 32.0, 32.0, 31.0, 26.0, 23.0, 19.0, 11.0, 11.0]

  /** The default scenario frame, its headers already lower-cased. */
  const DefaultScenariosFrame := Frame(
    [PlaceColumn, PointsColumn],
    seq(16, i requires 0 <= i < 16 => [Some((i + 1) as real), Some(DefaultPoints[i])]))

  /** The default what-if rows as cleaning should return them: rank i + 1 with its points. */
  const DefaultRows: seq<Scenario> := seq(16, i requires 0 <= i < 16 => Scenario(i + 1, DefaultPoints[i]))

  /** Cleaning the default scenarios keeps all 16 rows, in order. */
  lemma DefaultScenarios()
    ensures Rectangular(DefaultScenariosFrame)
    ensures Scenarios.Scenarios(DefaultScenariosFrame) == Ok(DefaultRows)
  {
    var f := DefaultScenariosFrame;
    assert Rectangular(f);
    assert Locate(f.columns, PlaceColumn) == Unique(0) by {
      assert f.columns[0] == PlaceColumn && f.columns[1] != PlaceColumn;
    }
    assert Locate(f.columns, PointsColumn) == Unique(1) by {
      assert f.columns[1] == PointsColumn && f.columns[0] != PointsColumn;
    }
    forall i | 0 <= i < 16 ensures IntegralCell(f.rows[i][0]) && AsRank(f.rows[i][0]) == Some(i + 1) {
      assert f.rows[i][0] == Some((i + 1) as real);
      assert ((i + 1) as real).Floor == i + 1;
    }
    var places, points := RankColumn(f, PlaceColumn).value, NumberColumn(f, PointsColumn).value;
    CleanOfCleanInput(places, points);
    assert Clean(places, points) == DefaultRows;
  }

  /** Rank 1 with 73 points: no tier covers it, so the base rate; the 500 bonus; 4150 in all. */
  lemma DefaultRankOne(mode: string)
    ensures FindRate(1, DefaultTiers, DefaultBaseRate, mode) == 50.0
    ensures FindBonus(1, DefaultPromos, mode) == 500.0
    ensures Total(73.0, 50.0, 500.0) == 4150.0
  {
    RateFallback(1, DefaultTiers, DefaultBaseRate, mode);
    assert DefaultPromos[..0] == [];
    assert Matches(DefaultPromos, 1) == [Rule(1, 2, 500.0)];
    assert Values([Rule(1, 2, 500.0)]) == [500.0] && [500.0][..0] == [];
  }

  /** Rank 3 with 67 points: tier 3-6 gives 100 per point, no bonus, 6700 in all. */
  lemma DefaultRankThree(mode: string)
    ensures FindRate(3, DefaultTiers, DefaultBaseRate, mode) == 100.0
    ensures FindBonus(3, DefaultPromos, mode) == 0.0
    ensures Total(67.0, 100.0, 0.0) == 6700.0
  {
    assert FirstCovering(DefaultTiers, 3, 0);
    MatchesHead(DefaultTiers, 3, 0);
    BonusNone(3, DefaultPromos, mode);
  }

  /**
   * compute_scenarios on the whole default configuration, in any modes: one payout
   * per default row; rank 1 earns 4150 and rank 3 earns 6700.
   */
  method DefaultPayouts(promoMode: string, tierMode: string) returns (out: Result<seq<Payout>, Failure>)
    ensures out.Ok? && |out.value| == 16
    ensures out.value[0] == Payout(1, 73.0, 50.0, 500.0, 4150.0)
    ensures out.value[2] == Payout(3, 67.0, 100.0, 0.0, 6700.0)
  {
    DefaultScenarios();
    DefaultRankOne(tierMode);
    DefaultRankOne(promoMode);
    DefaultRankThree(tierMode);
    DefaultRankThree(promoMode);
    assert DefaultRows[0] == Scenario(1, 73.0) && DefaultRows[2] == Scenario(3, 67.0);
    out := ComputeScenarios(DefaultScenariosFrame, DefaultTiers, DefaultBaseRate, DefaultPromos, promoMode, tierMode);
  }

  /** Overlapping tiers 1-5 and 1-3: "max_range" takes the narrower, "first" the earlier. */
  lemma OverlappingTiers()
    ensures FindRate(2, [Rule(1, 5, 10.0), Rule(1, 3, 100.0)], 25.0, MaxRangeMode) == 100.0
    ensures FindRate(2, [Rule(1, 5, 10.0), Rule(1, 3, 100.0)], 25.0, FirstMode) == 10.0
  {
    var t := [Rule(1, 5, 10.0), Rule(1, 3, 100.0)];
    assert t[..1] == [Rule(1, 5, 10.0)] && t[..1][..0] == [];
    assert Matches(t, 2) == t;
  }

  /** Overlapping bonuses 1-1 (2500) and 1-2 (500) at rank 1: "max" gives 2500, "sum" 3000. */
  lemma OverlappingBonuses()
    ensures FindBonus(1, [Rule(1, 1, 2500.0), Rule(1, 2, 500.0)], MaxMode) == 2500.0
    ensures FindBonus(1, [Rule(1, 1, 2500.0), Rule(1, 2, 500.0)], "sum") == 3000.0
    ensures FindBonus(1, [Rule(1, 1, 2500.0), Rule(1, 2, 500.0)], FirstMode) == 2500.0
  {
    var t := [Rule(1, 1, 2500.0), Rule(1, 2, 500.0)];
    assert t[..1] == [Rule(1, 1, 2500.0)] && t[..1][..0] == [];
    assert Matches(t, 1) == t;
    assert Values(t) == [2500.0, 500.0];
    assert [2500.0, 500.0][..1] == [2500.0];
    assert [2500.0][..0] == [];
  }
}
