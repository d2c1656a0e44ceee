# Payout calculator rule engine

This project is a Dafny model of the rank-range rule engine of a football
payout calculator (the "Prämien-Rechner"). A club pays each player a per-point rate and a
promotion bonus, both chosen by the team's final rank. The model covers four parts:

- **Range tables** (`range_tables.dfy`). The tier table (rate per point) and the bonus table
  arrive as loosely-typed frames. Their headers are renamed through an alias map. The two
  rank columns are coerced to numbers and cast to integers, and the value column is coerced
  to numbers. Rows with a missing field or an inverted range (`von_platz > bis_platz`) are
  dropped. The rest is stably sorted by `(von_platz, bis_platz)`. These are
  `normalize_tiers` and `normalize_promos`.
- **Range resolution** (`resolver.dfy`). `find_rate_for_place` returns the rate of a
  covering tier under the tier mode (`first`, or `max_range`, which picks the narrowest
  tier), or the base rate when no tier covers the rank. `find_bonus_for_place` returns the
  first, the largest or the sum of the covering bonuses, or 0 when none covers the rank.
- **Scenario evaluation** (`scenarios.dfy`). `compute_scenarios` coerces and cleans the
  (rank, points) rows. Then, in a loop over the surviving rows in order, it collects a rate,
  a bonus and the total `points * rate + bonus` for each, and attaches them as columns.
- **Frames** (`frames.dfy`). This file models the pandas column access the three
  functions above rely on:
  - the column lookup;
  - `to_numeric(errors="coerce")`, with one `Option<real>` per cell;
  - the `Int64` cast;
  - the `get` with a NaN default.

`examples.dfy` checks the calculator's default configuration and a few overlapping tables
against the model. `wrappers.dfy` holds the `Option` and `Result` types.

Although the calculator is meant to drop malformed rows silently, these inputs raise in the
code, and the model follows the code. Each of these cases is a `Failure`:

- A rank column (`von_platz`, `bis_platz`, `platz`) that is missing. `df[col]` raises
  `KeyError`. For `platz`, `df.get` yields a plain float NaN, which has no `Int64` cast.
- Two headers that resolve to the same canonical name after renaming. The column access
  yields a frame, and `to_numeric` rejects it.
- A rank with a fractional part, such as 2.5. The `Int64` cast raises instead of dropping
  the row.

A missing value or points column is no error. It reads as all-NaN, so every row is dropped.

## Model

| member | source | states |
|---|---|---|
| Frames.Renamed | app.py:23 | renaming through an alias map (here and at app.py:41) keeps one header per column, in column order; `Rename` maps a header in the map to its alias and leaves any other unchanged |
| Frames.Locate | app.py:24-25 | a canonical name is absent exactly when no header carries it, duplicated exactly when two headers carry it, and otherwise resolves to the one column that has it |
| Frames.AsRank | app.py:25 | the Int64 cast of an integral cell keeps a missing cell missing and a number's value unchanged |
| Frames.RankColumn | app.py:24-25 | a rank column succeeds exactly when its header is unique and no cell has a fractional part; then it gives the integer of every cell in row order; a missing column fails with MissingColumn and a duplicated one with DuplicateColumn |
| Frames.NumberColumn | app.py:26 | a value column read with a NaN default fails only when its name is duplicated; a missing column reads as all-missing, a unique one as its cells |
| RangeTables.RawRules | app.py:23-26 | coercion yields one raw rule per input row, or the first failing column access; its cells are stated by RawRulesCells |
| RangeTables.RawRulesCells | app.py:23-26 | each coerced row holds the from, to and value cells of its input row under the renamed headers, and succeeds only with unique rank headers whose cells are all integral |
| RangeTables.AliasesKeepCanonical | app.py:14-22 | both alias maps send the canonical headers to themselves |
| RangeTables.Cleaned | app.py:27-28 | cleaning never adds rows and leaves no row with from > to; its exact contents are stated by CleanedByIndex |
| RangeTables.KeptIndices | app.py:27-28 | the positions dropna and the from <= to filter keep: strictly increasing, each a complete non-inverted row, and every such row among them |
| RangeTables.CleanedByIndex | app.py:27-28 | the cleaned table has one rule per kept position and its k-th rule carries the fields of the k-th kept row: each kept row appears once, in input order, and nothing else appears |
| RangeTables.CleanedMembers | app.py:27-28 | a rule survives cleaning exactly when some input row has all three fields, from <= to, and those fields (a set view of CleanedByIndex) |
| RangeTables.SortRules | app.py:29 | the stable sort by (from, to), whose order, permutation and stability are stated by SortRulesSorted, SortRulesPermutes and SortRulesStable |
| RangeTables.InsertPermutes | app.py:29 | one insertion step adds exactly the inserted rule |
| RangeTables.InsertSorted | app.py:29 | one insertion step keeps a table sorted by (from, to) |
| RangeTables.InsertKeyed | app.py:29 | one insertion step puts the new rule after every rule with the same key |
| RangeTables.SortRulesSorted | app.py:29 | the sort's output is ordered by from, then by to |
| RangeTables.SortRulesPermutes | app.py:29 | the sort's output is a permutation of its input |
| RangeTables.SortRulesStable | app.py:29 | the sort is stable: rules with equal (from, to) keep their input order |
| RangeTables.SortRulesOfSorted | app.py:29 | sorting a sorted table changes nothing |
| RangeTables.Normalize | app.py:23-29 | the pipeline shared by normalize_tiers and normalize_promos; when it fails is stated by NormalizeSucceeds, its result by NormalizeSpec with CleanedByIndex |
| RangeTables.NormalizeSucceeds | app.py:23-26 | normalisation fails exactly on a missing or duplicated rank header, a duplicated value header or a fractional rank; a missing from column, or a missing to column after an integral from column, gives MissingColumn |
| RangeTables.NormalizeSpec | app.py:24-29 | a normalised table is sorted by (from, to), has from <= to in every row, is a permutation of the cleaned rows, and keeps rules with equal keys in input order |
| RangeTables.NormalizeMembers | app.py:24-29 | a rule is in the normalised table exactly when some complete, non-inverted input row yields it; with NormalizeSpec and CleanedByIndex, the table is a permutation of the kept rows, each once |
| RangeTables.InvertedRangeWarning | app.py:222-225 | the advisory fires exactly on a non-empty table with some row whose from exceeds its to |
| RangeTables.NormalizedNeverWarns | app.py:222-225 | the "Von > Bis" advisory cannot fire on a normalised table |
| RangeTables.NormalizeOfNormal | app.py:23-29 | a table sorted by (from, to) without inverted ranges, written under its canonical headers, normalises to itself |
| RangeTables.NormalizeIdempotent | app.py:24-29 | writing a normalised table back under its canonical headers and normalising it again returns the same table |
| RangeTables.RawRulesOfToFrame | app.py:23-26 | reading back a table written under its canonical headers recovers every rule's three fields |
| RangeTables.NormalizeTiers | app.py:11-29 | normalize_tiers returns a table sorted by (from, to) on which the inverted-range advisory cannot fire |
| RangeTables.NormalizePromos | app.py:31-47 | normalize_promos returns a table sorted by (from, to) on which the inverted-range advisory cannot fire |
| RangeTables.NormalizeTiersIdempotent | app.py:11-29 | normalize_tiers is idempotent on its own output |
| RangeTables.NormalizePromosIdempotent | app.py:31-47 | normalize_promos is idempotent on its own output |
| Resolver.CoveringIndices | app.py:55 | the mask selects exactly the positions of the rules with from <= place <= to, in increasing order |
| Resolver.Matches | app.py:55 | the boolean mask (here and at app.py:70) keeps the covering rules in table order; its contents are stated by CoveringIndices with MatchesByIndex |
| Resolver.MatchesByIndex | app.py:55 | the k-th match is the rule at the k-th covering position |
| Resolver.MatchesEmpty | app.py:55-56 | there are no matches exactly when no rule covers the rank |
| Resolver.MatchesHead | app.py:61 | the first match is the earliest covering rule in table order |
| Resolver.Narrowest | app.py:59-60 | the head of the (width, from) sort is a least match, and the first among the least ones |
| Resolver.NarrowestPosition | app.py:58-60 | the rule the (width, from) sort puts first is, in table positions, narrower or equal to every covering rule and strictly narrower than every earlier covering rule |
| Resolver.FindRate | app.py:49-61 | find_rate_for_place; its three outcomes are stated by RateFallback, RateFirst and RateNarrowest |
| Resolver.RateFallback | app.py:55-57 | with no covering tier the rate is exactly the base rate, in every mode |
| Resolver.RateFirst | app.py:58-61 | in any mode other than "max_range" the rate is the value of the earliest covering tier |
| Resolver.RateNarrowest | app.py:58-60 | in mode "max_range" the rate is the value of a covering tier of least width, lowest from among those and earliest among equals; it never comes from a tier that does not cover the rank |
| Resolver.MaxOf | app.py:77 | max of a non-empty list is one of its elements and at least every element |
| Resolver.FindBonus | app.py:63-78 | find_bonus_for_place; its four outcomes are stated by BonusNone, BonusFirst, BonusMax and BonusSum |
| Resolver.BonusNone | app.py:70-72 | with no covering range the bonus is 0, in every mode |
| Resolver.BonusFirst | app.py:74-75 | in mode "first" the bonus is the value of the earliest covering range |
| Resolver.BonusMax | app.py:76-77 | in mode "max" the bonus is at least every covering value and equal to one of them |
| Resolver.SumOf | app.py:78 | Python's left-to-right sum of a list, 0 for the empty list; SumOfMatches relates it to the covering values |
| Resolver.SumOfMatches | app.py:73-78 | the left-to-right sum of the matched values equals the total of the covering values, summed over the whole table |
| Resolver.BonusSum | app.py:78 | in mode "sum", or any mode other than "first" and "max", the bonus is the total of all covering values |
| Scenarios.WellFormedIndices | app.py:88 | dropna keeps exactly the rows with both a rank and points, in increasing row order |
| Scenarios.Clean | app.py:88 | dropna on rank and points; its count and order are stated by CleanCount and CleanInOrder |
| Scenarios.Scenarios | app.py:82-88 | cleaning succeeds exactly when the platz column casts and the punkte column is not duplicated; a platz failure is passed on; the result is the well-formed rows |
| Scenarios.CleanCount | app.py:88 | there are as many cleaned scenarios as input rows with both fields present |
| Scenarios.CleanInOrder | app.py:88 | the k-th cleaned scenario is the k-th well-formed input row, with its rank and points |
| Scenarios.CleanOfCleanInput | app.py:88 | with every row well-formed, cleaning drops nothing and keeps the order |
| Scenarios.Total | app.py:96 | the payout of one row is points * rate + bonus |
| Scenarios.Evaluate | app.py:90-102 | one payout per row, in row order, with that row's rank and points, the tier resolver's rate, the bonus resolver's bonus, and total points * rate + bonus |
| Scenarios.ComputeScenarios | app.py:80-103 | compute_scenarios fails exactly when cleaning fails, with the same error; otherwise it returns one row per cleaned scenario, in order, with rate, bonus and total = points * rate + bonus |
| Examples.DefaultTiersNormal | app.py:110-115 | the default tier table is already in normal form |
| Examples.DefaultPromosNormal | app.py:116-121 | the default bonus table is already in normal form |
| Examples.DefaultScenarios | app.py:122-125 | cleaning the default scenario frame keeps all 16 rows, rank i + 1 with its points, in order |
| Examples.DefaultPayouts | app.py:80-125 | compute_scenarios on the defaults, in any modes, returns 16 payouts; rank 1 gets 50 per point, a 500 bonus and 4150, rank 3 gets 100 per point, no bonus and 6700 |
| Examples.DefaultRankOne | app.py:109-124 | with the defaults, rank 1 with 73 points gets rate 50, bonus 500 and total 4150 in every mode |
| Examples.DefaultRankThree | app.py:109-124 | with the defaults, rank 3 with 67 points gets rate 100, bonus 0 and total 6700 in every mode |
| Examples.OverlappingTiers | app.py:58-61 | for tiers 1-5 and 1-3 at rank 2, "max_range" takes the narrower tier and "first" the earlier one |
| Examples.OverlappingBonuses | app.py:73-78 | for bonuses 1-1 (2500) and 1-2 (500) at rank 1, "max" gives 2500, "sum" 3000 and "first" 2500 |

## Left out

- The Streamlit interface is not modelled: page setup, sidebar widgets, data editors, warnings and result display (app.py:8, 138-240). It is presentation only.
- Session-state seeding and the "load defaults" button are not modelled (app.py:128-135, 143-148). The core functions take their tables as plain arguments.
- CSV upload with delimiter sniffing and the CSV download with its byte-order mark are not modelled (app.py:105-106, 166-173). Both are file I/O.
- The average-rate figure and its locale formatting are not modelled (app.py:243-245). They are display only.
- `strip().lower()` on the headers (app.py:13, 33, 83) is not modelled. Headers reach the model already trimmed and lower-cased. The alias maps are plain lookups on those names.
- Parsing strings to numbers inside `to_numeric` is not modelled. Each cell arrives as the coercion's result: a finite number, or `None` for a blank, NaN or unparseable entry.
- Infinite cells are not modelled. `to_numeric` turns "inf" into an infinite float; an infinite rank makes the `Int64` cast raise, and an infinite rate, bonus or points value survives dropna and reaches the total. A `Cell` holds only finite reals.
- Frames.AsRank: the `Int64` range is not modelled. A finite integral rank outside it (such as 1e19) makes the cast raise, while the model accepts it as an unbounded integer.
- Columns other than the canonical ones are not modelled. pandas carries them along, but nothing downstream reads them, so the model keeps only the canonical fields of each row.
- The new column names the evaluator writes (`€/Punkt` and the other two) are not modelled. A payout is a record with named fields instead.
- Money is exact `real` arithmetic, not IEEE doubles. Rounding in `pts * rate + bonus` and in the bonus sum is not modelled.
- The tier and bonus modes are plain strings, as the selectors pass them. Any string other than the named modes behaves as the source's fall-through branch.
