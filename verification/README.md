# nflstats team-statistics engine in Dafny

This project models the engine of `nflstats.py`, a command-line tool that
aggregates NFL team statistics.

- **The selectors.** `parse_seq` turns the command line's year, week, team
  and site selectors into lists.
- **The store.** The `League` class holds a nested table keyed by team, year
  and week. Each cell has four buckets: `OWN`, `OPP`, `OWN_TOTAL` and
  `OPP_TOTAL`.
- **The game pass.** It reads every selected game. For each side it records:
  - the game, the opponent label and both scores;
  - the passing, rushing and sack numbers of the players, credited to the
    team's own bucket or to its opponent bucket.
- **The optional passes.**
  - Cumulative mode keeps running totals per team and year.
  - Rate mode derives seven rate statistics per bucket (completion
    percentage, yards per attempt, …) and, in cumulative mode, points per
    game.
- **The table.** `__repr__` renders a fixed-width text table.

## Layout

| file | module | contents |
|---|---|---|
| `wrappers.dfy` | `Wrappers` | `Option` and `Result` |
| `numerals.dfy` | `Numerals` | decimal text of integers (`str(n)`) |
| `taxonomy.dfy` | `Taxonomy` | the statistic keys, the key lists and `STAT_MAP` |
| `games.dfy` | `Games` | what the game provider returns: teams, games and player lines |
| `buckets.dfy` | `Buckets` | slots, buckets (a zero-default dictionary) and the store |
| `accumulation.dfy` | `Accumulation` | the game pass as functions on the store, with their effect, frame and mirror lemmas |
| `cumulative.dfy` | `Cumulative` | the running-total invariant and its closed form |
| `rates.dfy` | `Rates` | the rate and points-per-game derivation and its idempotence |
| `selector.dfy` | `Selector` | `parse_seq` as a function, its lemmas and the imperative `ParseSeq` |
| `render.dfy` | `Render` | the lines of the table and their shape |
| `league.dfy` | `NflStats` | the `League` class: the store as a field, with one method per source method, each proved against the functions above |

### Modelling choices

- **Store.** The nested dictionaries become one `map<Slot, Bucket>`, where
  `Slot(team, year, week, side)`.
  - A bucket is a map from keys to reals. Reading an absent key gives 0,
    like `defaultdict(lambda: 0)`.
  - A bucket also holds its `OPP` label and its `game` back-reference.
- **Configuration.** The class's configuration is fixed at construction:
  - the team list, the years, the weeks, `which_team` and `site`;
  - the `cum` and `rate` flags.
- **`Valid()`.** The store holds exactly the grid of roster teams, selected
  years, selected weeks and the four sides, and `which ⊆ roster codes`.
- **Provider calls become parameters:**
  - `ng.teams` becomes the `roster` sequence;
  - `ng.games(year, week)` becomes a function `provider: (int, int) -> seq<Game>`;
  - `str(float)` in the table becomes a function `show: real -> string`.

Behaviours of the source worth knowing:

- **Selection tokens** for teams and sites are kept exactly as typed
  (nflstats.py:394-396). A code typed in another case than the provider's
  list, such as `ind` for `IND`, is not acceptable, so the whole selection
  falls back to the default (nflstats.py:400-404).
- **The header and divider** are printed for every selected team, whether or
  not it has rows (nflstats.py:336-345).
- **Running totals** are carried only from week `w-1` of the same selection
  (nflstats.py:168-176). After a week that is not selected, the total
  restarts.
- **Rates** are computed on all four buckets, the totals included
  (nflstats.py:134).
- **`rushing_ypa`** is guarded only by `passing_cmp > 0`, not by the rushing
  attempts it divides by (nflstats.py:135, 151-153).
- **The `OPP` label of `OWN_TOTAL`** is written by `make_team_stats`, as the
  plain opponent code (nflstats.py:237, 247).

## Model

| member | source | states |
|---|---|---|
| NflStats.League.Structure | nflstats.py:103-115 | the new table holds exactly one bucket per roster team, selected year, selected week and side, and every bucket is empty |
| NflStats.League.constructor | nflstats.py:91-101 | the configuration is stored as given and the table is the empty grid of `structure` |
| NflStats.League.AddRushingStats | nflstats.py:178-191 | the table becomes the rushing-line fold for the selected team, which credits its own lines to OWN and its opponent's to OPP |
| NflStats.League.AddPassingStats | nflstats.py:193-206 | the table becomes the passing-line fold, credited the same way |
| NflStats.League.AddDefenseStats | nflstats.py:208-221 | the table becomes the sack fold, credited the other way round: the opponent's defenders to OWN and the team's to OPP |
| NflStats.League.Credit | nflstats.py:182-191 | the shared player-by-player, stat-by-stat loop is exactly the fold `CreditFold` |
| NflStats.League.Record | nflstats.py:232-237 | the side's game, OPP label, both scores and the OWN_TOTAL opponent code are written, and nothing else |
| NflStats.League.TakeGame | nflstats.py:230-250 | one game becomes the home step, then the away step, each gated by the site filter and the team selection |
| NflStats.League.MakeTeamStats | nflstats.py:223-250 | the table becomes the fold of every game over the years and weeks in order, and stays a valid grid |
| Accumulation.CreditFoldEffect | nflstats.py:178-221 | after a fold, OWN and OPP hold their old numbers plus the category's total over the crediting team's lines; every other slot, label and game reference is unchanged |
| Accumulation.CreditGameEffect | nflstats.py:238-240 | the three categories together add, key by key, the team's gain to OWN and its opponent's gain to OPP |
| Accumulation.RecordedSideEffect | nflstats.py:231-240 | a recorded side holds the game, its label, its score plus its gains, and its opponent's score plus the opponent's gains; only its OWN, OPP and OWN_TOTAL slots change |
| Accumulation.GameStepFrame | nflstats.py:230-250 | a game writes only the slots of a selected side at a selected site in its own week, and never an OPP_TOTAL bucket |
| Accumulation.RunFrame | nflstats.py:223-250 | the whole game pass leaves unselected teams, years and weeks and every OPP_TOTAL bucket as they were |
| Accumulation.ShareIsTeamTotal | nflstats.py:182-191 | the player-by-player sum a bucket receives equals the team total of the team whose lines it collects |
| Accumulation.GainSides | nflstats.py:178-221 | a team's gain into OWN equals its own gross numbers, which equal its opponent's gain into OPP |
| Accumulation.CreditedLine | nflstats.py:184-191 | a line of either team in a two-team game is credited to OWN or OPP exactly as its source team says |
| Accumulation.BothSidesRecorded | nflstats.py:231-250 | with both sites and both teams selected, a game on empty buckets leaves each team's OWN at its score plus its gains and its OPP at the opponent's score plus its gains |
| Accumulation.GameSymmetry | nflstats.py:231-250 | in that case the home OWN bucket mirrors the away OPP bucket on every key and the other way round |
| Accumulation.RunSymmetry | nflstats.py:223-250 | over a whole run, a week with a single game of a two-team pair ends with the two teams' buckets mirrored |
| NflStats.League.AccumulateWeek | nflstats.py:166-176 | one week's totals equal the previous week's total plus this week's number, or the week's own number when the previous week is absent; only that week's total buckets change |
| NflStats.League.CarryKey | nflstats.py:167-176 | for one key, the week's OWN_TOTAL and OPP_TOTAL become `CarryStep` of the old table: the previous week's total plus this week's number, or this week's number alone when week `w-1` is not selected |
| Cumulative.CarryStepEffect | nflstats.py:167-176 | that step writes the carried value into both total buckets and leaves every other key, label and slot unchanged |
| NflStats.League.CarryKeys | nflstats.py:166-176 | after the key loop, every listed key of both total buckets holds its carried value; unlisted keys, labels and other slots are unchanged |
| NflStats.League.AccumulateStats | nflstats.py:159-176 | every gross slot satisfies the running-total invariant; only total keys of total buckets change |
| Cumulative.TotalIsRunSum | nflstats.py:164-176 | under the invariant, a running total is the sum of the gross numbers over the consecutive selected weeks that end at its week |
| NflStats.League.RateBucket | nflstats.py:134-157 | the seven guarded assignments succeed exactly when the bucket does not divide by zero, and then give `WithRates` |
| Rates.RatesWritten | nflstats.py:134-157 | the seven assignments, in the source's order, leave the bucket exactly as `WithRates` does |
| Rates.WithRates | nflstats.py:134-157 | the rates change only rate keys and keep the labels; a bucket with `passing_cmp <= 0` is untouched |
| Rates.WithPpg | nflstats.py:128-133 | `ppg` is rounded points over recorded weeks, on total buckets in cumulative mode once a week is recorded; every other key is kept |
| Rates.RatedBucketHolds | nflstats.py:124-157 | a rated bucket keeps its raw keys and labels, holds all seven rounded quotients (cmp%, ypa, ypc, int%, td%, rushing_ypa, sk%) when `passing_cmp > 0`, and its `ppg` as above |
| Rates.RatedCmpPct | nflstats.py:136-138 | `passing_cmp%` is round(cmp / att × 100, 2) |
| Rates.RatedSkPct | nflstats.py:154-157 | `passing_sk%` is round(sk / (sk + att) × 100, 2) |
| Rates.RatedRushingYpa | nflstats.py:151-153 | `rushing_ypa` is round(rushing yards / rushing attempts, 2) |
| Rates.RatedPassingQuotients | nflstats.py:139-150 | passing_ypa is yards over attempts, passing_ypc yards over completions, passing_int% and passing_td% interceptions and touchdowns over attempts × 100, each rounded to two places |
| Rates.RatedPpg | nflstats.py:128-133 | the `ppg` of a rated bucket is the rounded points per recorded week on a total bucket in cumulative mode |
| Rates.RatedKeepsRaw | nflstats.py:117-157 | rating never changes a raw key, the OPP label or the game |
| Rates.RatedGuard | nflstats.py:135 | below the `passing_cmp > 0` guard no rate key changes |
| Rates.WithRatesIdempotent | nflstats.py:134-157 | applying the rates twice gives the same bucket as once |
| Rates.RatesIdempotent | nflstats.py:117-157 | a second rate pass over the whole table changes nothing and cannot fault |
| NflStats.League.PpgWeek | nflstats.py:128-133 | the week's buckets receive their `ppg` from the weeks counted so far |
| NflStats.League.RateWeek | nflstats.py:125-157 | a week's four buckets become their rated form, or the call reports the division by zero |
| NflStats.League.RateRun | nflstats.py:123-157 | with weeks visited in order and the counter kept, every week of a team-year is rated, or the call reports a fault |
| NflStats.League.MakeRateStats | nflstats.py:117-157 | the pass succeeds exactly when no bucket divides by zero, and then the table is `Rated(old table)` |
| NflStats.RatedWhole | nflstats.py:122-157 | rating every team-year of the grid rates the whole table |
| NflStats.League.Compile | nflstats.py:359-367 | the result is the game pass, then the running totals if `cum`, then the rates if `rate`; it fails only on a rate fault |
| Render.WeekRowsMeaning | nflstats.py:337-339 | every printed row is the row of a selected week whose OWN bucket has passing attempts (`has_stats`), every such week's row is printed, and there are at most as many rows as weeks |
| Render.HeaderWidth | nflstats.py:329-336 | the header is exactly as wide as the divider |
| Render.RowWidth | nflstats.py:340-355 | a data row is at least as wide as the divider |
| Render.YearBlocksWidth | nflstats.py:337-356 | every line of a team's year blocks is at least divider-wide |
| Render.SelectedTeamsHeaded | nflstats.py:326-336 | every selected team of the list gets its name line followed by the header and a divider, whether or not it has rows |
| Render.Rjust | nflstats.py:329 | `rjust` pads on the left with spaces to the width and keeps the text as its suffix |
| Render.Columns | nflstats.py:314-317 | the columns are ALL_STATS, or RATE_STATS in rate mode, all labelled |
| NflStats.League.Render | nflstats.py:310-357 | the output is the table's lines, each ended by a newline |
| NflStats.League.RenderSection | nflstats.py:327-356 | one team's section is its name, the header, a divider and its year blocks |
| NflStats.League.RenderYears | nflstats.py:337-356 | each selected year's rows are followed by a divider |
| NflStats.League.RenderWeeks | nflstats.py:338-355 | one row is appended for each week with stats |
| Render.UnlinesAppend | nflstats.py:325-357 | building the output line by line is the same as joining the lines |
| Taxonomy.KeySetsWellFormed | nflstats.py:69-75 | the key lists are duplicate-free, raw and rate keys are disjoint, and ALL_STATS has 9 keys and RATE_STATS 7 |
| Taxonomy.Label | nflstats.py:77-84 | every labelled key has a label that fits a six-wide cell |
| Numerals.NatStrValue | nflstats.py:341 | the decimal text of a number reads back as that number |
| Numerals.IntStrValue | nflstats.py:341 | `str(n)` starts with a minus sign exactly when n is negative, and the digits after it read back as the absolute value of n |
| Selector.ParseSeq | nflstats.py:377-405 | the imperative loops compute `Parsed` |
| Selector.ExpandToken | nflstats.py:389-399 | one token's loop computes `Token` |
| Selector.ExpandAll | nflstats.py:384-399 | the token loop computes `Expand`: the first failing token ends the parse with its error |
| Selector.AllAcceptable | nflstats.py:400-404 | the acceptance loop answers true exactly when every item is acceptable |
| Selector.JoinSplit | nflstats.py:384-385 | splitting then joining on the separator gives back the argument |
| Selector.SplitJoin | nflstats.py:384-385 | joining separator-free pieces then splitting gives back the pieces |
| Selector.SplitCount | nflstats.py:384 | a split has one more piece than there are separators |
| Selector.ParseIntNatStr | nflstats.py:393 | `int(str(n)) == n` for natural n |
| Selector.Range | nflstats.py:398 | `range(lo, hi)` is the numbers lo … hi-1 in order |
| Selector.RangeMembers | nflstats.py:398-399 | an item is in `range(lo, hi)` exactly when it is a number from lo up to but excluding hi |
| Selector.HyphensRejected | nflstats.py:390 | a token with two hyphens, or any hyphen in a name selector, raises AssertionError |
| Selector.RangeToken | nflstats.py:397-399 | `a-b` expands to exactly the numbers from a to b |
| Selector.NumberToken | nflstats.py:391-393 | a number token gives that one number |
| Selector.NameToken | nflstats.py:394-396 | a hyphen-free name token gives that name |
| Selector.ExpandMeaning | nflstats.py:389-399 | the expansion fails exactly when some token fails; otherwise each token's items are in it |
| Selector.Dedupe | nflstats.py:405 | `list(set(xs))` has no repeats and the same elements as xs |
| Selector.ParsedWellFormed | nflstats.py:383-405 | an absent or empty argument gives the default; any success is the default or a repeat-free list of acceptable items |
| Selector.ParsedSelects | nflstats.py:400-405 | when every item is acceptable the result holds exactly the items, without repeats |
| Selector.ParsedVerbatim | nflstats.py:400-405 | a repeat-free expansion whose items are all acceptable is returned with exactly those items; the order is the model's first-occurrence order, not set order |
| Selector.DocstringExample | nflstats.py:381 | `'1,3-5,9'` selects weeks 1, 3, 4, 5, 9 |
| Selector.ZeroWeekFallsBack | nflstats.py:400-404 | an unacceptable week such as 0 falls back to the default |

## Left out

- **The game provider (`nflgame`).** Its data are parameters of the model:
  the team list, `games(year, week)` and each game's player lines.
- **`str(float)` formatting.** Cell text comes from a `show` parameter.
- **Floating point.**
  - Real numbers are exact.
  - `round(x, 2)` is modelled as rounding the exact value half away from
    zero.
- **`game_player_stats`, `game_pbp` and `game_scoring_plays`.** These are
  display helpers that only read the provider's game objects. They are not
  part of this model.
- **`run`, `main`, argparse and the GUI file.** Printing and argument
  handling are not part of this model. The default and acceptable lists of
  `main` are the `Selector` constants.
- **Dictionary order.**
  - Teams are visited in an unspecified order.
  - Weeks are visited in ascending order. Python 2 iterates a dict of small
    integer keys in slot order, and a key k sits in slot k modulo the table
    size. With six or more selected weeks the table has 32 slots, so the
    order is ascending, as it is for the default 17 weeks. With five or
    fewer it has 8 slots, and a selection holding weeks on both sides of 8
    or of 16 can be visited out of order: for `-w 7-8` week 8 comes first.
  - The order of `list(set(…))` is not modelled. `Dedupe` keeps first
    occurrences.
- **Insert-on-read.** Reading an absent key of a `defaultdict` inserts a 0.
  Such an entry reads the same as an absent one, so it is not modelled.
- **Selections as sets.** `which_team` and `site` are only used for
  membership, so they are sets.
- **NflStats.League.constructor** requires `which_team ⊆` the codes of the
  team list. The source would raise `KeyError` on a selected code missing
  from the table. `main`'s acceptable list guarantees that this never
  happens.
- **NflStats.League.MakeRateStats** says nothing about the table when it
  reports a division by zero. The source raises mid-pass and leaves the
  buckets it had already rated.
- **NflStats.League.Compile** inherits that gap.
- **NflStats.League.AccumulateStats** and **NflStats.League.MakeRateStats**
  visit weeks in ascending order. For some selections of five or fewer
  weeks on both sides of 8 or of 16 (such as `-w 7-8`) the source visits
  them in slot order instead. Its running totals then start from the later week,
  and its games-played counter counts that week first. The model does not
  describe those tables.
- **Selector.ParsedVerbatim** returns the items in first-occurrence order.
  The source returns `list(set(…))` in set order: "7,8" gives `[8, 7]`, and
  team codes come in hash order. Only the items, not their order, are
  promised for the source.
- **Selector.ParseSeq** does not print its warning on stdout, and returns
  the exception as `Err`.
