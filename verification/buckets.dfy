/** The aggregation store: for every (team, year, week) four buckets of
    statistics, each reading 0 for a key never written. */
module Buckets {
  import opened Wrappers
  import opened Taxonomy
  import opened Games

  /** The four bucket roles 'OWN', 'OPP', 'OWN_TOTAL', 'OPP_TOTAL'. */
  datatype Side = Own | Opp | OwnTotal | OppTotal

  const Sides: seq<Side> := [Own, Opp, OwnTotal, OppTotal]

  /** `self.teams[team][year][week][side]` */
  datatype Slot = Slot(team: Team, year: int, week: int, side: Side)

  /** A `defaultdict(lambda: 0)`: numeric keys, the 'OPP' label and the
      'game' back-reference. */
  datatype Bucket = Bucket(nums: map<Key, real>, opp: Option<string>, game: Option<Game>)

  const Empty: Bucket := Bucket(map[], None, None)

  type Store = map<Slot, Bucket>

  /** Reading a key: an unset key reads 0. */
  function Get(b: Bucket, k: Key): real {
    if k in b.nums then b.nums[k] else 0.0
  }

  /** `bucket[k] = x` */
  function Put(b: Bucket, k: Key, x: real): (r: Bucket)
    ensures Get(r, k) == x
    ensures forall j :: j != k ==> Get(r, j) == Get(b, j)
    ensures r.opp == b.opp && r.game == b.game
  {
    b.(nums := b.nums[k := x])
  }

  /** `bucket[k] += x` */
  function Add(b: Bucket, k: Key, x: real): (r: Bucket)
    ensures Get(r, k) == Get(b, k) + x
    ensures forall j :: j != k ==> Get(r, j) == Get(b, j)
    ensures r.opp == b.opp && r.game == b.game
  {
    Put(b, k, Get(b, k) + x)
  }

  /** Python truthiness of `bucket['OPP']`: set to a non-empty label. */
  predicate Recorded(b: Bucket) {
    b.opp.Some? && b.opp.value != ""
  }

  /** All four buckets of (t, year, week) exist for every team of `which`. */
  ghost predicate Ready(st: Store, which: set<Team>, year: int, week: int) {
    forall t, sd :: t in which ==> Slot(t, year, week, sd) in st
  }

  /** Every selected (team, year, week) has its four buckets. */
  ghost predicate Covers(st: Store, which: set<Team>, years: seq<int>, weeks: seq<int>) {
    forall t, y, w, sd :: t in which && y in years && w in weeks ==> Slot(t, y, w, sd) in st
  }

  lemma ReadySameKeys(st: Store, r: Store, which: set<Team>, year: int, week: int)
    requires r.Keys == st.Keys && Ready(st, which, year, week)
    ensures Ready(r, which, year, week)
  {
    forall t, sd | t in which ensures Slot(t, year, week, sd) in r {
      assert Slot(t, year, week, sd) in st.Keys;
    }
  }

  /** The running-total role that accumulates a gross role. */
  function TotalOf(sd: Side): Side
    requires sd == Own || sd == Opp
  {
    if sd == Own then OwnTotal else OppTotal
  }

  /** The running-total roles OWN_TOTAL and OPP_TOTAL. */
  predicate IsTotal(sd: Side) {
    sd == OwnTotal || sd == OppTotal
  }
}
