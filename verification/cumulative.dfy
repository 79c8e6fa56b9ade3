/** The running totals accumulate_stats writes (nflstats.py:159-176):
    OWN_TOTAL and OPP_TOTAL of a week are the previous week's totals plus
    this week's gross numbers when the previous week is selected, and this
    week's gross numbers alone otherwise. */
module Cumulative {
  import opened Taxonomy
  import opened Games
  import opened Buckets

  /** The total the calculator assigns to key `k` of the running-total
      bucket that accumulates the gross slot `s`. */
  function Carried(st: Store, s: Slot, k: Key): real
    requires s.side == Own || s.side == Opp
    requires s in st
  {
    var prev := Slot(s.team, s.year, s.week - 1, TotalOf(s.side));
    (if Slot(s.team, s.year, s.week - 1, s.side) in st && prev in st then Get(st[prev], k) else 0.0)
    + Get(st[s], k)
  }

  /** The running-total invariant as the source realises it: for every gross
      slot and every key of ALL_STATS + ['pts'], the total bucket holds the
      previous week's total plus this week's number, or just this week's
      number when the previous week is not selected. */
  ghost predicate Cumulated(st: Store) {
    forall s, k :: s in st && (s.side == Own || s.side == Opp) && k in TotalStats ==>
      && Slot(s.team, s.year, s.week, TotalOf(s.side)) in st
      && Get(st[Slot(s.team, s.year, s.week, TotalOf(s.side))], k) == Carried(st, s, k)
  }

  /** The sum of key `k` of the gross buckets of weeks lo..hi. */
  function Span(st: Store, t: Team, year: int, sd: Side, k: Key, lo: int, hi: int): real
    requires forall v :: lo <= v <= hi ==> Slot(t, year, v, sd) in st
    decreases hi - lo
  {
    if hi < lo then 0.0 else Span(st, t, year, sd, k, lo, hi - 1) + Get(st[Slot(t, year, hi, sd)], k)
  }

  /** Under the running-total invariant a running total is the sum of the gross numbers over the run
      of consecutive selected weeks that ends at its week: the total
      restarts after any week that is not selected. */
  lemma {:induction false} TotalIsRunSum(st: Store, t: Team, year: int, sd: Side, k: Key, lo: int, hi: int)
    requires Cumulated(st) && (sd == Own || sd == Opp) && k in TotalStats
    requires lo <= hi
    requires forall v :: lo <= v <= hi ==> Slot(t, year, v, sd) in st && Slot(t, year, v, TotalOf(sd)) in st
    requires Slot(t, year, lo - 1, sd) !in st
    ensures Get(st[Slot(t, year, hi, TotalOf(sd))], k) == Span(st, t, year, sd, k, lo, hi)
    decreases hi - lo
  {
    var gross, total := Slot(t, year, hi, sd), Slot(t, year, hi, TotalOf(sd));
    assert Get(st[total], k) == Carried(st, gross, k);
    if hi > lo {
      var before := Slot(t, year, hi - 1, TotalOf(sd));
      assert Slot(t, year, hi - 1, sd) in st && before in st;
      assert Carried(st, gross, k) == Get(st[before], k) + Get(st[gross], k);
      TotalIsRunSum(st, t, year, sd, k, lo, hi - 1);
    } else {
      assert Carried(st, gross, k) == Get(st[gross], k);
      assert Span(st, t, year, sd, k, lo, hi - 1) == 0.0;
    }
  }

  /** accumulate_stats on one key of one week: both running totals take
      their carried value. */
  function CarryStep(st: Store, t: Team, year: int, week: int, k: Key): (r: Store)
    requires forall sd :: Slot(t, year, week, sd) in st
    ensures r.Keys == st.Keys
  {
    var ownT, oppT := Slot(t, year, week, OwnTotal), Slot(t, year, week, OppTotal);
    st[ownT := Put(st[ownT], k, Carried(st, Slot(t, year, week, Own), k))]
      [oppT := Put(st[oppT], k, Carried(st, Slot(t, year, week, Opp), k))]
  }

  /** A key step writes key `k` of this week's two running totals and
      nothing else. */
  lemma CarryStepEffect(st: Store, t: Team, year: int, week: int, k: Key)
    requires forall sd :: Slot(t, year, week, sd) in st
    ensures var r := CarryStep(st, t, year, week, k);
            && (forall s :: s in st && s != Slot(t, year, week, OwnTotal) && s != Slot(t, year, week, OppTotal) ==>
                  r[s] == st[s])
            && (forall sd :: IsTotal(sd) ==>
                  && r[Slot(t, year, week, sd)].opp == st[Slot(t, year, week, sd)].opp
                  && r[Slot(t, year, week, sd)].game == st[Slot(t, year, week, sd)].game
                  && forall j :: j != k ==> Get(r[Slot(t, year, week, sd)], j) == Get(st[Slot(t, year, week, sd)], j))
            && Get(r[Slot(t, year, week, OwnTotal)], k) == Carried(st, Slot(t, year, week, Own), k)
            && Get(r[Slot(t, year, week, OppTotal)], k) == Carried(st, Slot(t, year, week, Opp), k)
  {
  }

  /** A carried total reads only the gross slot and the previous week's
      slots, so rewriting this week's totals does not change it. */
  lemma CarriedFrame(st: Store, r: Store, t: Team, year: int, week: int, k: Key)
    requires Slot(t, year, week, Own) in st && Slot(t, year, week, Opp) in st
    requires r.Keys == st.Keys
    requires forall s :: s in st && s != Slot(t, year, week, OwnTotal) && s != Slot(t, year, week, OppTotal) ==>
               r[s] == st[s]
    ensures Carried(r, Slot(t, year, week, Own), k) == Carried(st, Slot(t, year, week, Own), k)
    ensures Carried(r, Slot(t, year, week, Opp), k) == Carried(st, Slot(t, year, week, Opp), k)
  {
    assert Slot(t, year, week - 1, OwnTotal) in st ==> r[Slot(t, year, week - 1, OwnTotal)] == st[Slot(t, year, week - 1, OwnTotal)];
    assert Slot(t, year, week - 1, OppTotal) in st ==> r[Slot(t, year, week - 1, OppTotal)] == st[Slot(t, year, week - 1, OppTotal)];
  }

  /** The running-total invariant at one week of one team and year, for both gross sides. */
  ghost predicate WeekDone(st: Store, t: Team, year: int, week: int) {
    forall sd, k :: (sd == Own || sd == Opp) && k in TotalStats && Slot(t, year, week, sd) in st ==>
      && Slot(t, year, week, TotalOf(sd)) in st
      && Get(st[Slot(t, year, week, TotalOf(sd))], k) == Carried(st, Slot(t, year, week, sd), k)
  }

  /** The running-total invariant at a week reads only that week's and the previous week's slots. */
  lemma WeekDoneFrame(st: Store, r: Store, t: Team, year: int, week: int)
    requires WeekDone(st, t, year, week)
    requires r.Keys == st.Keys
    requires forall s :: s in st && s.team == t && s.year == year && (s.week == week || s.week == week - 1) ==>
               r[s] == st[s]
    ensures WeekDone(r, t, year, week)
  {
    forall sd, k | (sd == Own || sd == Opp) && k in TotalStats && Slot(t, year, week, sd) in r
      ensures Slot(t, year, week, TotalOf(sd)) in r
      ensures Get(r[Slot(t, year, week, TotalOf(sd))], k) == Carried(r, Slot(t, year, week, sd), k)
    {
      var s := Slot(t, year, week, sd);
      var prev := Slot(t, year, week - 1, TotalOf(sd));
      assert s in st && r[s] == st[s];
      assert Slot(t, year, week, TotalOf(sd)) in st;
      assert prev in st ==> r[prev] == st[prev];
      CarriedSame(st, r, s, k);
    }
  }

  /** Carried reads only the slot itself and the previous week's slots. */
  lemma CarriedSame(st: Store, r: Store, s: Slot, k: Key)
    requires (s.side == Own || s.side == Opp) && s in st && r.Keys == st.Keys && r[s] == st[s]
    requires var prev := Slot(s.team, s.year, s.week - 1, TotalOf(s.side));
             prev in st ==> r[prev] == st[prev]
    ensures Carried(r, s, k) == Carried(st, s, k)
  {
  }

  lemma CumulatedByWeeks(st: Store)
    requires forall s :: s in st ==> WeekDone(st, s.team, s.year, s.week)
    ensures Cumulated(st)
  {
  }

  /** Only the keys of ALL_STATS + ['pts'] of the running-total buckets may
      differ between `st` and `r`. */
  ghost predicate TotalsOnly(st: Store, r: Store) {
    && r.Keys == st.Keys
    && (forall s :: s in st && !IsTotal(s.side) ==> r[s] == st[s])
    && (forall s :: s in st ==> r[s].opp == st[s].opp && r[s].game == st[s].game)
    && (forall s, k :: s in st && k !in TotalStats ==> Get(r[s], k) == Get(st[s], k))
  }

  lemma TotalsOnlyTrans(a: Store, b: Store, c: Store)
    requires TotalsOnly(a, b) && TotalsOnly(b, c)
    ensures TotalsOnly(a, c)
  {
  }

  /** Writing the running totals of week `w` keeps the running-total invariant at every earlier week. */
  lemma EarlierWeeksKept(st: Store, r: Store, t: Team, year: int, w: int, done: set<int>)
    requires forall v :: v in done ==> WeekDone(st, t, year, v) && v < w
    requires r.Keys == st.Keys
    requires forall s :: s in st && s != Slot(t, year, w, OwnTotal) && s != Slot(t, year, w, OppTotal) ==> r[s] == st[s]
    ensures forall v :: v in done ==> WeekDone(r, t, year, v)
  {
    forall v | v in done
      ensures WeekDone(r, t, year, v)
    {
      WeekDoneFrame(st, r, t, year, v);
    }
  }
}
