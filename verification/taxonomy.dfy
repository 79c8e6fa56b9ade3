/** The fixed statistic keys of the engine and their column labels
    (PASSING_STATS, RUSHING_STATS, DEFENSE_STATS, ALL_STATS, RATE_STATS and
    STAT_MAP in nflstats.py). */
module Taxonomy {

  /** Every key a bucket may hold. `Pts` and `Ppg` are written by the engine
      but have no column label of their own. */
  datatype Key =
    | PassingCmp | PassingAtt | PassingYds | PassingTds | PassingInts
    | DefenseSk
    | RushingAtt | RushingYds | RushingTds
    | Pts | Ppg
    | PassingCmpPct | PassingYpa | PassingYpc | PassingIntPct | PassingTdPct
    | PassingSkPct | RushingYpa

  const PassingStats: seq<Key> := [PassingCmp, PassingAtt, PassingYds, PassingTds, PassingInts]
  const RushingStats: seq<Key> := [RushingAtt, RushingYds, RushingTds]
  const DefenseStats: seq<Key> := [DefenseSk]
  const AllStats: seq<Key> := PassingStats + DefenseStats + RushingStats
  const RateStats: seq<Key> :=
    [PassingCmpPct, PassingYpa, PassingYpc, PassingIntPct, PassingTdPct, PassingSkPct, RushingYpa]

  /** The keys the cumulative calculator sums: ALL_STATS + ['pts']. */
  const TotalStats: seq<Key> := AllStats + [Pts]

  predicate IsRate(k: Key) {
    k in RateStats
  }

  /** Raw keys: everything a rate computation reads and never writes. */
  predicate IsRaw(k: Key) {
    k in TotalStats
  }

  predicate Distinct<T(==)>(s: seq<T>) {
    forall i, j :: 0 <= i < j < |s| ==> s[i] != s[j]
  }

  /** STAT_MAP: the short column label of a labelled key. */
  function Label(k: Key): (s: string)
    requires k in AllStats || k in RateStats
    ensures 0 < |s| <= 6
  {
    match k
    case PassingCmp => "p_cmp"
    case PassingAtt => "p_att"
    case PassingYds => "p_yds"
    case PassingTds => "p_tds"
    case PassingInts => "p_ints"
    case DefenseSk => "p_sck"
    case RushingAtt => "r_att"
    case RushingYds => "r_yds"
    case RushingTds => "r_tds"
    case PassingCmpPct => "p_cmp%"
    case PassingYpa => "p_ypa"
    case PassingYpc => "p_ypc"
    case PassingIntPct => "p_int%"
    case PassingTdPct => "p_td%"
    case PassingSkPct => "p_sk%"
    case RushingYpa => "r_ypa"
  }

  /** The key lists are duplicate-free, raw and rate keys never overlap, and
      the category lists partition ALL_STATS. */
  /** A raw key is neither a rate key nor `ppg`. */
  lemma RawKey(k: Key)
    requires IsRaw(k)
    ensures !IsRate(k) && k != Ppg
  {
    KeySetsWellFormed();
  }

  lemma KeySetsWellFormed()
    ensures Distinct(PassingStats) && Distinct(RushingStats) && Distinct(DefenseStats)
    ensures Distinct(AllStats) && Distinct(RateStats) && Distinct(TotalStats)
    ensures forall k :: IsRaw(k) ==> !IsRate(k)
    ensures |AllStats| == 9 && |RateStats| == 7
  {
  }
}
