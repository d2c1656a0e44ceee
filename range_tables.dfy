/**
 * Rank-range tables and their normalisation (normalize_tiers, normalize_promos):
 * headers are renamed through an alias map, the two rank columns and the value
 * column are coerced, incomplete or inverted rows are dropped, and the rest is
 * stably sorted by (from, to).
 */
module RangeTables {
  import opened Wrappers
  import opened Frames

  /** One rule of a tier or bonus table: the inclusive ranks from..to and a value. */
  datatype Rule = Rule(from: int, to: int, value: real)

  type Table = seq<Rule>

  /** Header aliases of the tier editor (app.py:14-22). */
  const TierAliases: map<string, string> := map[
    "von" := "von_platz",
    "bis" := "bis_platz",
    "\U{20AC}/punkt" := "eur_pro_punkt",
    "euro pro punkt" := "eur_pro_punkt",
    "eur_pro_punkt" := "eur_pro_punkt",
    "von_platz" := "von_platz",
    "bis_platz" := "bis_platz"
  ]

  /** Header aliases of the bonus editor (app.py:34-40). */
  const PromoAliases: map<string, string> := map[
    "von" := "von_platz",
    "bis" := "bis_platz",
    "bonus" := "bonus_eur",
    "aufstiegsbonus" := "bonus_eur",
    "bonus_eur" := "bonus_eur"
  ]

  const FromColumn := "von_platz"
  const ToColumn := "bis_platz"
  const RateColumn := "eur_pro_punkt"
  const BonusColumn := "bonus_eur"

  /** A row after coercion and before cleaning: any field may be missing. */
  datatype RawRule = RawRule(from: Option<int>, to: Option<int>, value: Option<real>)

  /** The frame's rows read through the three canonical columns (app.py:23-26, 41-44). */
  function RawRules(f: Frame, aliases: map<string, string>, valueColumn: string): (r: Result<seq<RawRule>, Failure>)
    requires Rectangular(f)
    ensures r.Ok? ==> |r.value| == |f.rows|
  {
    var g := Frame(Renamed(aliases, f.columns), f.rows);
    var from :- RankColumn(g, FromColumn);
    var to :- RankColumn(g, ToColumn);
    var value :- NumberColumn(g, valueColumn);
    Ok(seq(|f.rows|, i requires 0 <= i < |f.rows| => RawRule(from[i], to[i], value[i])))
  }

  /**
   * Each raw rule holds the coerced cells of its row under the renamed headers:
   * the rank cells cast to integers, and the value cell, or None without a value column.
   */
  lemma RawRulesCells(f: Frame, aliases: map<string, string>, valueColumn: string)
    requires Rectangular(f)
    ensures var r := RawRules(f, aliases, valueColumn);
      r.Ok? ==>
      var cols := Renamed(aliases, f.columns);
      Locate(cols, FromColumn).Unique? && Locate(cols, ToColumn).Unique? &&
      !Locate(cols, valueColumn).Duplicated? &&
      forall i :: 0 <= i < |f.rows| ==>
        var row := f.rows[i];
        IntegralCell(row[Locate(cols, FromColumn).index]) &&
        IntegralCell(row[Locate(cols, ToColumn).index]) &&
        r.value[i].from == AsRank(row[Locate(cols, FromColumn).index]) &&
        r.value[i].to == AsRank(row[Locate(cols, ToColumn).index]) &&
        r.value[i].value == if Locate(cols, valueColumn).Unique? then row[Locate(cols, valueColumn).index] else None
  {
  }

  /** A row that survives cleaning: all three fields present and the range not inverted. */
  predicate Kept(r: RawRule) {
    r.from.Some? && r.to.Some? && r.value.Some? && r.from.value <= r.to.value
  }

  function AsRule(r: RawRule): Rule
    requires Kept(r)
  {
    Rule(r.from.value, r.to.value, r.value.value)
  }

  /** dropna followed by the from <= to filter (app.py:27-28, 45-46), keeping input order. */
  function Cleaned(raws: seq<RawRule>): (t: Table)
    ensures |t| <= |raws|
    ensures forall k :: 0 <= k < |t| ==> t[k].from <= t[k].to
  {
    if raws == [] then []
    else
      var last := raws[|raws| - 1];
      Cleaned(raws[..|raws| - 1]) + if Kept(last) then [AsRule(last)] else []
  }

  /** The positions of the rows cleaning keeps: every kept row, once, in input order. */
  function KeptIndices(raws: seq<RawRule>): (idx: seq<nat>)
    ensures forall k :: 0 <= k < |idx| ==> idx[k] < |raws| && Kept(raws[idx[k]])
    ensures forall k, l :: 0 <= k < l < |idx| ==> idx[k] < idx[l]
    ensures forall i :: 0 <= i < |raws| && Kept(raws[i]) ==> i in idx
  {
    if raws == [] then []
    else
      var n := |raws| - 1;
      var rest := KeptIndices(raws[..n]);
      if Kept(raws[n]) then rest + [n] else rest
  }

  /** The sort key order: by from, then by to. */
  predicate RuleLe(a: Rule, b: Rule) {
    a.from < b.from || (a.from == b.from && a.to <= b.to)
  }

  predicate Sorted(t: Table) {
    forall i, j :: 0 <= i < j < |t| ==> RuleLe(t[i], t[j])
  }

  predicate HasKey(r: Rule, from: int, to: int) {
    r.from == from && r.to == to
  }

  /** The rules of t whose key is (from, to), in table order. */
  function Keyed(t: Table, from: int, to: int): Table {
    if t == [] then []
    else Keyed(t[..|t| - 1], from, to) + if HasKey(t[|t| - 1], from, to) then [t[|t| - 1]] else []
  }

  /** Inserts r behind every rule whose key is not above r's: the step of a stable insertion sort. */
  function Insert(t: Table, r: Rule): Table {
    if t == [] || RuleLe(t[|t| - 1], r) then t + [r]
    else Insert(t[..|t| - 1], r) + [t[|t| - 1]]
  }

  /** sort_values(["von_platz", "bis_platz"]), which is stable for several keys. */
  function SortRules(t: Table): Table {
    if t == [] then [] else Insert(SortRules(t[..|t| - 1]), t[|t| - 1])
  }

  /** The whole pipeline shared by normalize_tiers and normalize_promos. */
  function Normalize(f: Frame, aliases: map<string, string>, valueColumn: string): Result<Table, Failure>
    requires Rectangular(f)
  {
    var raws :- RawRules(f, aliases, valueColumn);
    Ok(SortRules(Cleaned(raws)))
  }

  // ---------------------------------------------------------------------------
  // The sort

  lemma {:induction false} InsertPermutes(t: Table, r: Rule)
    ensures multiset(Insert(t, r)) == multiset(t) + multiset{r}
  {
    if t == [] || RuleLe(t[|t| - 1], r) {
    } else {
      var p := t[..|t| - 1];
      InsertPermutes(p, r);
      assert t == p + [t[|t| - 1]];
    }
  }

  lemma {:induction false} InsertSorted(t: Table, r: Rule)
    requires Sorted(t)
    ensures Sorted(Insert(t, r))
  {
    if t == [] || RuleLe(t[|t| - 1], r) {
    } else {
      var p, last := t[..|t| - 1], t[|t| - 1];
      InsertSorted(p, r);
      InsertPermutes(p, r);
      var u := Insert(p, r);
      forall k | 0 <= k < |u| ensures RuleLe(u[k], last) {
        assert u[k] in multiset(u);
      }
    }
  }

  lemma {:induction false} KeyedAppend(s: Table, u: Table, from: int, to: int)
    ensures Keyed(s + u, from, to) == Keyed(s, from, to) + Keyed(u, from, to)
  {
    if u == [] {
      assert s + u == s;
    } else {
      var p := u[..|u| - 1];
      KeyedAppend(s, p, from, to);
      assert (s + u)[..|s + u| - 1] == s + p;
    }
  }

  lemma KeyedSingle(r: Rule, from: int, to: int)
    ensures Keyed([r], from, to) == if HasKey(r, from, to) then [r] else []
  {
    assert [r][..0] == [];
  }

  lemma {:induction false} InsertKeyed(t: Table, r: Rule, from: int, to: int)
    ensures Keyed(Insert(t, r), from, to) == Keyed(t, from, to) + Keyed([r], from, to)
  {
    if t == [] || RuleLe(t[|t| - 1], r) {
      KeyedAppend(t, [r], from, to);
    } else {
      var p, last := t[..|t| - 1], t[|t| - 1];
      InsertKeyed(p, r, from, to);
      KeyedAppend(Insert(p, r), [last], from, to);
      KeyedAppend(p, [last], from, to);
      assert p + [last] == t;
      KeyedSingle(last, from, to);
      KeyedSingle(r, from, to);
    }
  }

  lemma {:induction false} SortRulesSorted(t: Table)
    ensures Sorted(SortRules(t))
  {
    if t != [] {
      SortRulesSorted(t[..|t| - 1]);
      InsertSorted(SortRules(t[..|t| - 1]), t[|t| - 1]);
    }
  }

  lemma {:induction false} SortRulesPermutes(t: Table)
    ensures multiset(SortRules(t)) == multiset(t)
  {
    if t != [] {
      var p := t[..|t| - 1];
      SortRulesPermutes(p);
      InsertPermutes(SortRules(p), t[|t| - 1]);
      assert t == p + [t[|t| - 1]];
    }
  }

  /** Stability: the rules that share a key keep their relative order. */
  lemma {:induction false} SortRulesStable(t: Table, from: int, to: int)
    ensures Keyed(SortRules(t), from, to) == Keyed(t, from, to)
  {
    if t != [] {
      var p, last := t[..|t| - 1], t[|t| - 1];
      SortRulesStable(p, from, to);
      InsertKeyed(SortRules(p), last, from, to);
      KeyedSingle(last, from, to);
    }
  }

  lemma {:induction false} SortRulesOfSorted(t: Table)
    requires Sorted(t)
    ensures SortRules(t) == t
  {
    if t != [] {
      var p, last := t[..|t| - 1], t[|t| - 1];
      assert Sorted(p) by {
        forall i, j | 0 <= i < j < |p| ensures RuleLe(p[i], p[j]) {
          assert p[i] == t[i] && p[j] == t[j];
        }
      }
      SortRulesOfSorted(p);
      if p != [] {
        assert RuleLe(p[|p| - 1], last) by {
          assert p[|p| - 1] == t[|t| - 2];
        }
      }
      assert SortRules(t) == Insert(p, last) == p + [last];
      assert t == p + [last];
    }
  }

  // ---------------------------------------------------------------------------
  // Cleaning

  /**
   * The k-th cleaned rule is the k-th kept row: cleaning keeps each complete,
   * non-inverted row exactly once, in input order, and nothing else.
   */
  lemma {:induction false} CleanedByIndex(raws: seq<RawRule>)
    ensures |Cleaned(raws)| == |KeptIndices(raws)|
    ensures forall k :: 0 <= k < |KeptIndices(raws)| ==>
      Cleaned(raws)[k] == AsRule(raws[KeptIndices(raws)[k]])
  {
    if raws != [] {
      var n := |raws| - 1;
      var p := raws[..n];
      CleanedByIndex(p);
      var pt, pidx := Cleaned(p), KeptIndices(p);
      var t, idx := Cleaned(raws), KeptIndices(raws);
      if Kept(raws[n]) {
        assert t == pt + [AsRule(raws[n])] && idx == pidx + [n];
      } else {
        assert t == pt && idx == pidx;
      }
      forall k | 0 <= k < |idx| ensures t[k] == AsRule(raws[idx[k]]) {
        if k < |pidx| {
          assert t[k] == pt[k] == AsRule(p[pidx[k]]);
        }
      }
    }
  }

  /** Cleaning keeps exactly the complete, non-inverted rows and invents none. */
  lemma {:induction false} CleanedMembers(raws: seq<RawRule>, r: Rule)
    ensures r in Cleaned(raws) <==> exists i :: 0 <= i < |raws| && Kept(raws[i]) && AsRule(raws[i]) == r
  {
    if raws != [] {
      var p := raws[..|raws| - 1];
      CleanedMembers(p, r);
      if r in Cleaned(p) {
        var i :| 0 <= i < |p| && Kept(p[i]) && AsRule(p[i]) == r;
        assert raws[i] == p[i];
      }
      if exists i :: 0 <= i < |raws| && Kept(raws[i]) && AsRule(raws[i]) == r {
        var i :| 0 <= i < |raws| && Kept(raws[i]) && AsRule(raws[i]) == r;
        if i < |p| {
          assert p[i] == raws[i];
        }
      }
    }
  }

  // ---------------------------------------------------------------------------
  // Normalisation

  /**
   * When normalisation raises: a rank column missing or shared by two headers, a
   * fractional rank anywhere in a rank column, or a value column shared by two
   * headers. A missing value column is no error: every row is then dropped.
   */
  lemma NormalizeSucceeds(f: Frame, aliases: map<string, string>, valueColumn: string)
    requires Rectangular(f)
    ensures var cols := Renamed(aliases, f.columns);
      Normalize(f, aliases, valueColumn).Ok? <==>
        Locate(cols, FromColumn).Unique? && Locate(cols, ToColumn).Unique? &&
        !Locate(cols, valueColumn).Duplicated? &&
        forall i :: 0 <= i < |f.rows| ==>
          IntegralCell(f.rows[i][Locate(cols, FromColumn).index]) &&
          IntegralCell(f.rows[i][Locate(cols, ToColumn).index])
    ensures var cols := Renamed(aliases, f.columns);
      Locate(cols, FromColumn).Absent? ==> Normalize(f, aliases, valueColumn) == Err(MissingColumn(FromColumn))
    ensures var cols := Renamed(aliases, f.columns);
      Locate(cols, FromColumn).Unique? && Locate(cols, ToColumn).Absent? &&
      (forall i :: 0 <= i < |f.rows| ==> IntegralCell(f.rows[i][Locate(cols, FromColumn).index])) ==>
        Normalize(f, aliases, valueColumn) == Err(MissingColumn(ToColumn))
  {
    var g := Frame(Renamed(aliases, f.columns), f.rows);
    assert Normalize(f, aliases, valueColumn).Ok? <==> RawRules(f, aliases, valueColumn).Ok?;
    assert RawRules(f, aliases, valueColumn).Ok? <==>
      RankColumn(g, FromColumn).Ok? && RankColumn(g, ToColumn).Ok? && NumberColumn(g, valueColumn).Ok?;
  }

  /**
   * A normalised table is sorted by (from, to), holds no inverted range, is a
   * permutation of the cleaned rows and keeps rules with equal keys in input order.
   */
  lemma NormalizeSpec(f: Frame, aliases: map<string, string>, valueColumn: string)
    requires Rectangular(f)
    ensures var r := Normalize(f, aliases, valueColumn);
      r.Ok? ==>
        var cleaned := Cleaned(RawRules(f, aliases, valueColumn).value);
        Sorted(r.value) &&
        (forall k :: 0 <= k < |r.value| ==> r.value[k].from <= r.value[k].to) &&
        multiset(r.value) == multiset(cleaned) &&
        forall from, to :: Keyed(r.value, from, to) == Keyed(cleaned, from, to)
  {
    var r := Normalize(f, aliases, valueColumn);
    if r.Ok? {
      var cleaned := Cleaned(RawRules(f, aliases, valueColumn).value);
      SortRulesSorted(cleaned);
      SortRulesPermutes(cleaned);
      forall from, to ensures Keyed(r.value, from, to) == Keyed(cleaned, from, to) {
        SortRulesStable(cleaned, from, to);
      }
      forall k | 0 <= k < |r.value| ensures r.value[k].from <= r.value[k].to {
        assert r.value[k] in multiset(cleaned);
      }
    }
  }

  /** The rules of a normalised table are exactly the rules of the kept rows. */
  lemma NormalizeMembers(f: Frame, aliases: map<string, string>, valueColumn: string, rule: Rule)
    requires Rectangular(f)
    requires Normalize(f, aliases, valueColumn).Ok?
    ensures var raws := RawRules(f, aliases, valueColumn).value;
      rule in Normalize(f, aliases, valueColumn).value <==>
        exists i :: 0 <= i < |raws| && Kept(raws[i]) && AsRule(raws[i]) == rule
  {
    var raws := RawRules(f, aliases, valueColumn).value;
    NormalizeSpec(f, aliases, valueColumn);
    assert rule in Normalize(f, aliases, valueColumn).value <==> rule in multiset(Cleaned(raws));
    CleanedMembers(raws, rule);
  }

  /** The editors' "Von > Bis" advisory (app.py:222-225). */
  predicate InvertedRangeWarning(t: Table) {
    |t| > 0 && exists i :: 0 <= i < |t| && t[i].from > t[i].to
  }

  /** The advisory can never fire on a normalised table. */
  lemma NormalizedNeverWarns(f: Frame, aliases: map<string, string>, valueColumn: string)
    requires Rectangular(f)
    requires Normalize(f, aliases, valueColumn).Ok?
    ensures !InvertedRangeWarning(Normalize(f, aliases, valueColumn).value)
  {
    NormalizeSpec(f, aliases, valueColumn);
  }

  /** A table written back as a frame under its canonical headers. */
  function ToFrame(t: Table, valueColumn: string): (f: Frame)
    ensures Rectangular(f)
  {
    Frame([FromColumn, ToColumn, valueColumn],
          seq(|t|, i requires 0 <= i < |t| => [Some(t[i].from as real), Some(t[i].to as real), Some(t[i].value)]))
  }

  function Lift(t: Table): seq<RawRule> {
    seq(|t|, i requires 0 <= i < |t| => RawRule(Some(t[i].from), Some(t[i].to), Some(t[i].value)))
  }

  lemma {:induction false} CleanedLift(t: Table)
    requires forall k :: 0 <= k < |t| ==> t[k].from <= t[k].to
    ensures Cleaned(Lift(t)) == t
  {
    if t != [] {
      var p := t[..|t| - 1];
      CleanedLift(p);
      assert Lift(t)[..|t| - 1] == Lift(p);
    }
  }

  /** The canonical headers of a written-back table resolve to its three columns. */
  lemma ToFrameHeaders(t: Table, valueColumn: string)
    requires valueColumn != FromColumn && valueColumn != ToColumn
    ensures var cols := ToFrame(t, valueColumn).columns;
      Locate(cols, FromColumn) == Unique(0) && Locate(cols, ToColumn) == Unique(1) &&
      Locate(cols, valueColumn) == Unique(2)
  {
    var cols := ToFrame(t, valueColumn).columns;
    assert cols[0] == FromColumn && cols[1] == ToColumn && cols[2] == valueColumn;
    AliasesKeepCanonical();
  }

  lemma ToFrameFrom(t: Table, valueColumn: string)
    requires valueColumn != FromColumn && valueColumn != ToColumn
    ensures var r := RankColumn(ToFrame(t, valueColumn), FromColumn);
      r.Ok? && |r.value| == |t| && forall i :: 0 <= i < |t| ==> r.value[i] == Some(t[i].from)
  {
    var f := ToFrame(t, valueColumn);
    ToFrameHeaders(t, valueColumn);
    assert forall i :: 0 <= i < |t| ==> f.rows[i][0] == Some(t[i].from as real);
  }

  lemma ToFrameTo(t: Table, valueColumn: string)
    requires valueColumn != FromColumn && valueColumn != ToColumn
    ensures var r := RankColumn(ToFrame(t, valueColumn), ToColumn);
      r.Ok? && |r.value| == |t| && forall i :: 0 <= i < |t| ==> r.value[i] == Some(t[i].to)
  {
    var f := ToFrame(t, valueColumn);
    ToFrameHeaders(t, valueColumn);
    assert forall i :: 0 <= i < |t| ==> f.rows[i][1] == Some(t[i].to as real);
  }

  lemma ToFrameValue(t: Table, valueColumn: string)
    requires valueColumn != FromColumn && valueColumn != ToColumn
    ensures var r := NumberColumn(ToFrame(t, valueColumn), valueColumn);
      r.Ok? && |r.value| == |t| && forall i :: 0 <= i < |t| ==> r.value[i] == Some(t[i].value)
  {
    var f := ToFrame(t, valueColumn);
    ToFrameHeaders(t, valueColumn);
    assert forall i :: 0 <= i < |t| ==> f.rows[i][2] == Some(t[i].value);
  }

  /** Reading a frame whose headers need no renaming zips its three columns. */
  lemma RawRulesOfColumns(f: Frame, aliases: map<string, string>, valueColumn: string,
                          from: seq<Option<int>>, to: seq<Option<int>>, value: seq<Cell>)
    requires Rectangular(f)
    requires Renamed(aliases, f.columns) == f.columns
    requires RankColumn(f, FromColumn) == Ok(from) && RankColumn(f, ToColumn) == Ok(to)
    requires NumberColumn(f, valueColumn) == Ok(value)
    ensures var r := RawRules(f, aliases, valueColumn);
      r.Ok? && |r.value| == |f.rows| &&
      forall i :: 0 <= i < |f.rows| ==> r.value[i] == RawRule(from[i], to[i], value[i])
  {
    assert Frame(Renamed(aliases, f.columns), f.rows) == f;
  }

  /** Reading a written-back table gives back each rule's three fields. */
  lemma RawRulesOfToFrame(t: Table, aliases: map<string, string>, valueColumn: string)
    requires Rename(aliases, FromColumn) == FromColumn && Rename(aliases, ToColumn) == ToColumn
    requires Rename(aliases, valueColumn) == valueColumn
    requires valueColumn != FromColumn && valueColumn != ToColumn
    ensures RawRules(ToFrame(t, valueColumn), aliases, valueColumn) == Ok(Lift(t))
  {
    var f := ToFrame(t, valueColumn);
    assert Renamed(aliases, f.columns) == f.columns by {
      assert f.columns == [FromColumn, ToColumn, valueColumn];
    }
    ToFrameFrom(t, valueColumn);
    ToFrameTo(t, valueColumn);
    ToFrameValue(t, valueColumn);
    var from, to, value := RankColumn(f, FromColumn).value, RankColumn(f, ToColumn).value, NumberColumn(f, valueColumn).value;
    RawRulesOfColumns(f, aliases, valueColumn, from, to, value);
    var raws := RawRules(f, aliases, valueColumn).value;
    assert forall i :: 0 <= i < |t| ==> raws[i] == Lift(t)[i];
    assert raws == Lift(t);
  }

  /** Normalising an already-normalised table returns it unchanged. */
  /**
   * A table already in normal form, written under its canonical headers, is
   * normalised to itself.
   */
  lemma NormalizeOfNormal(t: Table, aliases: map<string, string>, valueColumn: string)
    requires Sorted(t)
    requires forall k :: 0 <= k < |t| ==> t[k].from <= t[k].to
    requires Rename(aliases, FromColumn) == FromColumn && Rename(aliases, ToColumn) == ToColumn
    requires Rename(aliases, valueColumn) == valueColumn
    requires valueColumn != FromColumn && valueColumn != ToColumn
    ensures Normalize(ToFrame(t, valueColumn), aliases, valueColumn) == Ok(t)
  {
    RawRulesOfToFrame(t, aliases, valueColumn);
    CleanedLift(t);
    SortRulesOfSorted(t);
  }

  lemma NormalizeIdempotent(f: Frame, aliases: map<string, string>, valueColumn: string)
    requires Rectangular(f)
    requires Rename(aliases, FromColumn) == FromColumn && Rename(aliases, ToColumn) == ToColumn
    requires Rename(aliases, valueColumn) == valueColumn
    requires valueColumn != FromColumn && valueColumn != ToColumn
    requires Normalize(f, aliases, valueColumn).Ok?
    ensures Normalize(ToFrame(Normalize(f, aliases, valueColumn).value, valueColumn), aliases, valueColumn)
         == Normalize(f, aliases, valueColumn)
  {
    var t := Normalize(f, aliases, valueColumn).value;
    NormalizeSpec(f, aliases, valueColumn);
    NormalizeOfNormal(t, aliases, valueColumn);
  }

  /** normalize_tiers (app.py:11-29). */
  function NormalizeTiers(f: Frame): (r: Result<Table, Failure>)
    requires Rectangular(f)
    ensures r.Ok? ==> Sorted(r.value) && !InvertedRangeWarning(r.value)
  {
    NormalizeSpec(f, TierAliases, RateColumn);
    Normalize(f, TierAliases, RateColumn)
  }

  /** normalize_promos (app.py:31-47). */
  function NormalizePromos(f: Frame): (r: Result<Table, Failure>)
    requires Rectangular(f)
    ensures r.Ok? ==> Sorted(r.value) && !InvertedRangeWarning(r.value)
  {
    NormalizeSpec(f, PromoAliases, BonusColumn);
    Normalize(f, PromoAliases, BonusColumn)
  }

  /** Both alias maps send the canonical headers to themselves. */
  lemma AliasesKeepCanonical()
    ensures Rename(TierAliases, FromColumn) == FromColumn && Rename(TierAliases, ToColumn) == ToColumn
    ensures Rename(TierAliases, RateColumn) == RateColumn
    ensures Rename(PromoAliases, FromColumn) == FromColumn && Rename(PromoAliases, ToColumn) == ToColumn
    ensures Rename(PromoAliases, BonusColumn) == BonusColumn
    ensures RateColumn != FromColumn && RateColumn != ToColumn
    ensures BonusColumn != FromColumn && BonusColumn != ToColumn
    ensures FromColumn != ToColumn
  {
  }

  lemma NormalizeTiersIdempotent(f: Frame)
    requires Rectangular(f)
    requires NormalizeTiers(f).Ok?
    ensures NormalizeTiers(ToFrame(NormalizeTiers(f).value, RateColumn)) == NormalizeTiers(f)
  {
    AliasesKeepCanonical();
    NormalizeIdempotent(f, TierAliases, RateColumn);
  }

  lemma NormalizePromosIdempotent(f: Frame)
    requires Rectangular(f)
    requires NormalizePromos(f).Ok?
    ensures NormalizePromos(ToFrame(NormalizePromos(f).value, BonusColumn)) == NormalizePromos(f)
  {
    AliasesKeepCanonical();
    NormalizeIdempotent(f, PromoAliases, BonusColumn);
  }
}
