/** The rate statistics make_rate_stats derives (nflstats.py:117-157). */
module Rates {
  import opened Taxonomy
  import opened Games
  import opened Buckets

  /** Python 2's `round(x, 2)` on the exact value: the nearest multiple of
      0.01, halves rounded away from zero. */
  function Round2(x: real): real
  {
    if x >= 0.0 then ((x * 100.0 + 0.5).Floor as real) / 100.0
    else -((((-x) * 100.0 + 0.5).Floor as real) / 100.0)
  }

  /** A bucket on which the rate computation divides by zero: the guard
      `passing_cmp > 0` passes, but passing attempts, rushing attempts (whose
      quotient is not guarded at all) or sacks plus attempts are zero. */
  predicate Faulty(b: Bucket) {
    && Get(b, PassingCmp) > 0.0
    && (Get(b, PassingAtt) == 0.0 || Get(b, RushingAtt) == 0.0
        || Get(b, DefenseSk) + Get(b, PassingAtt) == 0.0)
  }

  /** The seven rate keys computed from a bucket's raw numbers. */
  function RateValues(cmp: real, att: real, yds: real, tds: real, ints: real,
                      sk: real, ratt: real, ryds: real): map<Key, real>
    requires att != 0.0 && ratt != 0.0 && sk + att != 0.0 && cmp != 0.0
  {
    map[PassingCmpPct := Round2(cmp / att * 100.0),
        PassingYpa := Round2(yds / att),
        PassingYpc := Round2(yds / cmp),
        PassingIntPct := Round2(ints / att * 100.0),
        PassingTdPct := Round2(tds / att * 100.0),
        RushingYpa := Round2(ryds / ratt),
        PassingSkPct := Round2(sk / (sk + att) * 100.0)]
  }

  /** The rate assignments on one bucket: nothing unless `passing_cmp > 0`;
      the seven assignments write distinct keys, so they amount to one
      map union. */
  function WithRates(b: Bucket): (r: Bucket)
    requires !Faulty(b)
    ensures forall k :: !IsRate(k) ==> Get(r, k) == Get(b, k)
    ensures r.opp == b.opp && r.game == b.game
    ensures Get(b, PassingCmp) <= 0.0 ==> r == b
  {
    if Get(b, PassingCmp) > 0.0 then
      var vals := RateValues(Get(b, PassingCmp), Get(b, PassingAtt), Get(b, PassingYds), Get(b, PassingTds),
                             Get(b, PassingInts), Get(b, DefenseSk), Get(b, RushingAtt), Get(b, RushingYds));
      assert vals.Keys == set k | k in RateStats;
      b.(nums := b.nums + vals)
    else b
  }

  /** The recorded weeks of (t, year) up to and including `week`: the weeks
      the counter `weeks` has counted when it reaches `week`. */
  function PlayedWeeks(st: Store, t: Team, year: int, week: int): set<Slot> {
    set s | s in st && s.team == t && s.year == year && s.side == Own && s.week <= week && Recorded(st[s])
  }

  ghost predicate RateFault(st: Store) {
    exists s :: s in st && Faulty(st[s])
  }

  /** The number of recorded weeks the counter holds at slot `s`'s week. */
  function Played(st: Store, s: Slot): nat {
    |PlayedWeeks(st, s.team, s.year, s.week)|
  }

  /** In cumulative mode, `side['ppg'] = round(side['pts'] / weeks, 2)` on the
      running-total buckets once the counter is positive. */
  function WithPpg(st: Store, s: Slot, cum: bool): (r: Bucket)
    requires s in st
    ensures forall k :: k != Ppg ==> Get(r, k) == Get(st[s], k)
    ensures r.opp == st[s].opp && r.game == st[s].game
    ensures Get(r, Ppg) == if cum && IsTotal(s.side) && Played(st, s) > 0
                           then Round2(Get(st[s], Pts) / Played(st, s) as real) else Get(st[s], Ppg)
  {
    var n := Played(st, s);
    if cum && IsTotal(s.side) && n > 0 then Put(st[s], Ppg, Round2(Get(st[s], Pts) / n as real)) else st[s]
  }

  /** Setting 'ppg' touches no key the division-by-zero test reads. */
  lemma PpgKeepsFault(st: Store, s: Slot, cum: bool)
    requires s in st
    ensures Faulty(WithPpg(st, s, cum)) == Faulty(st[s])
  {
    var p := WithPpg(st, s, cum);
    assert Get(p, PassingCmp) == Get(st[s], PassingCmp) && Get(p, PassingAtt) == Get(st[s], PassingAtt);
    assert Get(p, RushingAtt) == Get(st[s], RushingAtt) && Get(p, DefenseSk) == Get(st[s], DefenseSk);
  }

  /** What make_rate_stats leaves in slot `s`: `ppg` first, then the rates. */
  function RatedBucket(st: Store, s: Slot, cum: bool): Bucket
    requires s in st && !Faulty(st[s])
  {
    PpgKeepsFault(st, s, cum);
    WithRates(WithPpg(st, s, cum))
  }

  /** The whole store after make_rate_stats, when no bucket faults. */
  function Rated(st: Store, cum: bool): (r: map<Slot, Bucket>)
    requires !RateFault(st)
    ensures r.Keys == st.Keys
  {
    map s | s in st :: RatedBucket(st, s, cum)
  }

  lemma RatedKeepsRaw(st: Store, s: Slot, cum: bool)
    requires s in st && !Faulty(st[s])
    ensures RatedBucket(st, s, cum).opp == st[s].opp && RatedBucket(st, s, cum).game == st[s].game
    ensures forall k :: IsRaw(k) ==> Get(RatedBucket(st, s, cum), k) == Get(st[s], k)
  {
    var b1 := WithPpg(st, s, cum);
    PpgKeepsFault(st, s, cum);
    RatesKeepRaw(b1);
    forall k | IsRaw(k)
      ensures Get(b1, k) == Get(st[s], k)
    {
      RawKey(k);
    }
  }

  lemma RatedGuard(st: Store, s: Slot, cum: bool)
    requires s in st && !Faulty(st[s]) && Get(st[s], PassingCmp) <= 0.0
    ensures forall k :: IsRate(k) ==> Get(RatedBucket(st, s, cum), k) == Get(st[s], k)
  {
    assert forall k :: IsRate(k) ==> k != Ppg;
  }

  /** The vector of rate values a non-faulty bucket with `passing_cmp > 0` receives. */
  function RateVector(b: Bucket): map<Key, real>
    requires !Faulty(b) && Get(b, PassingCmp) > 0.0
  {
    RateValues(Get(b, PassingCmp), Get(b, PassingAtt), Get(b, PassingYds), Get(b, PassingTds),
               Get(b, PassingInts), Get(b, DefenseSk), Get(b, RushingAtt), Get(b, RushingYds))
  }

  lemma RatedVector(st: Store, s: Slot, cum: bool)
    requires s in st && !Faulty(st[s]) && Get(st[s], PassingCmp) > 0.0
    ensures RatedBucket(st, s, cum).nums == WithPpg(st, s, cum).nums + RateVector(st[s])
  {
    var b1 := WithPpg(st, s, cum);
    RatesOver(b1, st[s]);
  }

  /** The rates written into a bucket depend only on its raw numbers, which
      setting 'ppg' leaves alone. */
  lemma RatesOver(b: Bucket, raw: Bucket)
    requires !Faulty(raw) && Get(raw, PassingCmp) > 0.0
    requires forall k :: IsRaw(k) ==> Get(b, k) == Get(raw, k)
    ensures !Faulty(b) && WithRates(b).nums == b.nums + RateVector(raw)
  {
    assert IsRaw(PassingCmp) && IsRaw(PassingAtt) && IsRaw(PassingYds) && IsRaw(PassingTds);
    assert IsRaw(PassingInts) && IsRaw(DefenseSk) && IsRaw(RushingAtt) && IsRaw(RushingYds);
    assert RateVector(b) == RateVector(raw);
  }

  lemma RatedSkPct(st: Store, s: Slot, cum: bool)
    requires s in st && !Faulty(st[s]) && Get(st[s], PassingCmp) > 0.0
    ensures var b, r := st[s], RatedBucket(st, s, cum);
            Get(r, PassingSkPct) == Round2(Get(b, DefenseSk) / (Get(b, DefenseSk) + Get(b, PassingAtt)) * 100.0)
  {
    RatedVector(st, s, cum);
  }

  lemma RatedCmpPct(st: Store, s: Slot, cum: bool)
    requires s in st && !Faulty(st[s]) && Get(st[s], PassingCmp) > 0.0
    ensures var b, r := st[s], RatedBucket(st, s, cum);
            Get(r, PassingCmpPct) == Round2(Get(b, PassingCmp) / Get(b, PassingAtt) * 100.0)
  {
    RatedVector(st, s, cum);
  }

  lemma RatedRushingYpa(st: Store, s: Slot, cum: bool)
    requires s in st && !Faulty(st[s]) && Get(st[s], PassingCmp) > 0.0
    ensures var b, r := st[s], RatedBucket(st, s, cum);
            Get(r, RushingYpa) == Round2(Get(b, RushingYds) / Get(b, RushingAtt))
  {
    RatedVector(st, s, cum);
  }

  lemma RatedPassingQuotients(st: Store, s: Slot, cum: bool)
    requires s in st && !Faulty(st[s]) && Get(st[s], PassingCmp) > 0.0
    ensures var b, r := st[s], RatedBucket(st, s, cum);
            && Get(r, PassingYpa) == Round2(Get(b, PassingYds) / Get(b, PassingAtt))
            && Get(r, PassingYpc) == Round2(Get(b, PassingYds) / Get(b, PassingCmp))
            && Get(r, PassingIntPct) == Round2(Get(b, PassingInts) / Get(b, PassingAtt) * 100.0)
            && Get(r, PassingTdPct) == Round2(Get(b, PassingTds) / Get(b, PassingAtt) * 100.0)
  {
    RatedVector(st, s, cum);
    RateVectorPassing(st[s]);
  }

  /** The four passing quotients of the rate vector, read off `RateValues`. */
  lemma RateVectorPassing(b: Bucket)
    requires !Faulty(b) && Get(b, PassingCmp) > 0.0
    ensures var v := RateVector(b);
            && PassingYpa in v && v[PassingYpa] == Round2(Get(b, PassingYds) / Get(b, PassingAtt))
            && PassingYpc in v && v[PassingYpc] == Round2(Get(b, PassingYds) / Get(b, PassingCmp))
            && PassingIntPct in v && v[PassingIntPct] == Round2(Get(b, PassingInts) / Get(b, PassingAtt) * 100.0)
            && PassingTdPct in v && v[PassingTdPct] == Round2(Get(b, PassingTds) / Get(b, PassingAtt) * 100.0)
  {
  }

  lemma RatedPpg(st: Store, s: Slot, cum: bool)
    requires s in st && !Faulty(st[s])
    ensures Get(RatedBucket(st, s, cum), Ppg) == if cum && IsTotal(s.side) && Played(st, s) > 0
                                                 then Round2(Get(st[s], Pts) / Played(st, s) as real) else Get(st[s], Ppg)
  {
    assert !IsRate(Ppg);
  }

  /** What a rated bucket holds: raw keys and labels as before; rate keys
      written only when `passing_cmp > 0`, sk% as sacks over sacks plus
      attempts; `ppg` only in cumulative mode, on a running-total bucket,
      once the count of recorded weeks so far is positive. */
  lemma RatedBucketHolds(st: Store, s: Slot, cum: bool)
    requires s in st && !Faulty(st[s])
    ensures var b, r := st[s], RatedBucket(st, s, cum);
            && r.opp == b.opp && r.game == b.game
            && (forall k :: IsRaw(k) ==> Get(r, k) == Get(b, k))
            && (Get(b, PassingCmp) <= 0.0 ==> forall k :: IsRate(k) ==> Get(r, k) == Get(b, k))
            && (Get(b, PassingCmp) > 0.0 ==>
                  && Get(r, PassingSkPct) == Round2(Get(b, DefenseSk) / (Get(b, DefenseSk) + Get(b, PassingAtt)) * 100.0)
                  && Get(r, PassingCmpPct) == Round2(Get(b, PassingCmp) / Get(b, PassingAtt) * 100.0)
                  && Get(r, PassingYpa) == Round2(Get(b, PassingYds) / Get(b, PassingAtt))
                  && Get(r, PassingYpc) == Round2(Get(b, PassingYds) / Get(b, PassingCmp))
                  && Get(r, PassingIntPct) == Round2(Get(b, PassingInts) / Get(b, PassingAtt) * 100.0)
                  && Get(r, PassingTdPct) == Round2(Get(b, PassingTds) / Get(b, PassingAtt) * 100.0)
                  && Get(r, RushingYpa) == Round2(Get(b, RushingYds) / Get(b, RushingAtt)))
            && Get(r, Ppg) == if cum && IsTotal(s.side) && Played(st, s) > 0
                              then Round2(Get(b, Pts) / Played(st, s) as real) else Get(b, Ppg)
  {
    RatedKeepsRaw(st, s, cum);
    if Get(st[s], PassingCmp) > 0.0 {
      RatedSkPct(st, s, cum);
      RatedCmpPct(st, s, cum);
      RatedRushingYpa(st, s, cum);
      RatedPassingQuotients(st, s, cum);
    } else {
      RatedGuard(st, s, cum);
    }
    RatedPpg(st, s, cum);
  }

  /** Rates read only raw keys and write only rate keys, so a second pass
      over a bucket changes nothing. */
  lemma WithRatesIdempotent(b: Bucket)
    requires !Faulty(b)
    ensures !Faulty(WithRates(b)) && WithRates(WithRates(b)) == WithRates(b)
  {
    var r := WithRates(b);
    RatesKeepRaw(b);
    if Get(b, PassingCmp) > 0.0 {
      RatesOver(b, b);
      RatesOver(r, b);
      assert r.nums + RateVector(b) == r.nums;
    }
  }

  /** Writing the rates leaves every raw key as it was. */
  lemma RatesKeepRaw(b: Bucket)
    requires !Faulty(b)
    ensures forall k :: IsRaw(k) ==> Get(WithRates(b), k) == Get(b, k)
  {
    KeySetsWellFormed();
  }

  /** Rating changes no label, so the recorded-week counts are the same
      before and after. */
  lemma PlayedUnchanged(st: Store, r: Store, s: Slot)
    requires r.Keys == st.Keys
    requires forall x :: x in st ==> r[x].opp == st[x].opp
    ensures Played(r, s) == Played(st, s)
  {
    assert PlayedWeeks(r, s.team, s.year, s.week) == PlayedWeeks(st, s.team, s.year, s.week);
  }

  lemma RatedAt(st: Store, cum: bool, x: Slot)
    requires !RateFault(st) && x in st
    ensures Rated(st, cum)[x] == RatedBucket(st, x, cum)
  {
  }

  lemma RatedSlot(st: Store, cum: bool, x: Slot)
    requires !RateFault(st) && x in st
    ensures Rated(st, cum)[x].opp == st[x].opp && !Faulty(Rated(st, cum)[x])
  {
    RatedAt(st, cum, x);
    RatedKeepsRaw(st, x, cum);
    RawKeepsFault(st[x], RatedBucket(st, x, cum));
  }

  /** Whether a bucket faults depends on its raw keys only. */
  lemma RawKeepsFault(b: Bucket, r: Bucket)
    requires forall k :: IsRaw(k) ==> Get(r, k) == Get(b, k)
    ensures Faulty(r) == Faulty(b)
  {
    assert IsRaw(PassingCmp) && IsRaw(PassingAtt) && IsRaw(RushingAtt) && IsRaw(DefenseSk);
  }

  lemma RatedLabels(st: Store, cum: bool)
    requires !RateFault(st)
    ensures forall x :: x in st ==> Rated(st, cum)[x].opp == st[x].opp && !Faulty(Rated(st, cum)[x])
  {
    forall x | x in st ensures Rated(st, cum)[x].opp == st[x].opp && !Faulty(Rated(st, cum)[x]) {
      RatedSlot(st, cum, x);
    }
  }

  /** Rate derivation is idempotent on the whole store. */
  lemma RatesIdempotent(st: Store, cum: bool)
    requires !RateFault(st)
    ensures !RateFault(Rated(st, cum))
    ensures Rated(Rated(st, cum), cum) == Rated(st, cum)
  {
    RatedFixed(st, cum);
    RatedIdentity(Rated(st, cum), cum);
  }

  /** A store whose every bucket is its own rated form is its own rated store. */
  lemma RatedIdentity(r: Store, cum: bool)
    requires !RateFault(r)
    requires forall s :: s in r ==> RatedBucket(r, s, cum) == r[s]
    ensures Rated(r, cum) == r
  {
    forall s | s in r ensures Rated(r, cum)[s] == r[s] {
      RatedAt(r, cum, s);
    }
  }

  /** Every bucket of a rated store is its own rated form. */
  lemma RatedFixed(st: Store, cum: bool)
    requires !RateFault(st)
    ensures !RateFault(Rated(st, cum))
    ensures forall s :: s in Rated(st, cum) ==> RatedBucket(Rated(st, cum), s, cum) == Rated(st, cum)[s]
  {
    var r := Rated(st, cum);
    RatedLabels(st, cum);
    forall s | s in r ensures RatedBucket(r, s, cum) == r[s] {
      RatedAt(st, cum, s);
      RatedAgain(st, r, s, cum);
    }
  }

  /** Writing back the value a key already holds changes nothing. */
  lemma PutPresent(b: Bucket, k: Key, v: real)
    requires k in b.nums && Get(b, k) == v
    ensures Put(b, k, v) == b
  {
    assert b.nums[k := v] == b.nums;
  }

  lemma PpgStored(st: Store, s: Slot, cum: bool)
    requires s in st && !Faulty(st[s])
    requires cum && IsTotal(s.side) && Played(st, s) > 0
    ensures var r := RatedBucket(st, s, cum);
            Ppg in r.nums && Get(r, Ppg) == Round2(Get(r, Pts) / Played(st, s) as real)
  {
    RatedKeepsRaw(st, s, cum);
    RatedPpg(st, s, cum);
  }

  /** The `ppg` a second pass writes is the one already there. */
  lemma PpgAgain(st: Store, r: Store, s: Slot, cum: bool)
    requires s in st && !Faulty(st[s])
    requires r.Keys == st.Keys && r[s] == RatedBucket(st, s, cum)
    requires forall x :: x in st ==> r[x].opp == st[x].opp
    ensures WithPpg(r, s, cum) == r[s]
  {
    PlayedUnchanged(st, r, s);
    if cum && IsTotal(s.side) && Played(st, s) > 0 {
      PpgStored(st, s, cum);
      PutPresent(r[s], Ppg, Round2(Get(r[s], Pts) / Played(r, s) as real));
    }
  }

  lemma RatedAgain(st: Store, r: Store, s: Slot, cum: bool)
    requires s in st && !Faulty(st[s]) && r.Keys == st.Keys
    requires !Faulty(r[s]) && r[s] == RatedBucket(st, s, cum)
    requires forall x :: x in st ==> r[x].opp == st[x].opp
    ensures RatedBucket(r, s, cum) == r[s]
  {
    var p := WithPpg(st, s, cum);
    PpgKeepsFault(st, s, cum);
    assert r[s] == WithRates(p);
    PpgAgain(st, r, s, cum);
    RatedFromPpg(r, s, cum, p);
  }

  /** A bucket that already holds its `ppg` and its rates is its own rated form. */
  lemma RatedFromPpg(r: Store, s: Slot, cum: bool, p: Bucket)
    requires s in r && !Faulty(r[s]) && !Faulty(p)
    requires WithPpg(r, s, cum) == r[s] && r[s] == WithRates(p)
    ensures RatedBucket(r, s, cum) == r[s]
  {
    WithRatesIdempotent(p);
  }

  /** The rate vector written key by key, as the seven assignments do. */
  lemma RateVectorInOrder(b: Bucket)
    requires !Faulty(b) && Get(b, PassingCmp) > 0.0
    ensures var cmp, att, yds := Get(b, PassingCmp), Get(b, PassingAtt), Get(b, PassingYds);
            var tds, ints, sk := Get(b, PassingTds), Get(b, PassingInts), Get(b, DefenseSk);
            var ratt, ryds := Get(b, RushingAtt), Get(b, RushingYds);
            b.nums + RateVector(b)
            == b.nums[PassingCmpPct := Round2(cmp / att * 100.0)][PassingYpa := Round2(yds / att)]
                     [PassingYpc := Round2(yds / cmp)][PassingIntPct := Round2(ints / att * 100.0)]
                     [PassingTdPct := Round2(tds / att * 100.0)][RushingYpa := Round2(ryds / ratt)]
                     [PassingSkPct := Round2(sk / (sk + att) * 100.0)]
  {
  }

  lemma WithRatesVector(b: Bucket)
    requires !Faulty(b) && Get(b, PassingCmp) > 0.0
    ensures WithRates(b) == b.(nums := b.nums + RateVector(b))
  {
  }

  /** make_rate_stats' seven assignments, in the source's order, write what
      WithRates does. */
  lemma RatesWritten(b: Bucket, m: map<Key, real>)
    requires !Faulty(b) && Get(b, PassingCmp) > 0.0
    requires var cmp, att, yds := Get(b, PassingCmp), Get(b, PassingAtt), Get(b, PassingYds);
             var tds, ints, sk := Get(b, PassingTds), Get(b, PassingInts), Get(b, DefenseSk);
             var ratt, ryds := Get(b, RushingAtt), Get(b, RushingYds);
             m == b.nums[PassingCmpPct := Round2(cmp / att * 100.0)][PassingYpa := Round2(yds / att)]
                        [PassingYpc := Round2(yds / cmp)][PassingIntPct := Round2(ints / att * 100.0)]
                        [PassingTdPct := Round2(tds / att * 100.0)][RushingYpa := Round2(ryds / ratt)]
                        [PassingSkPct := Round2(sk / (sk + att) * 100.0)]
    ensures b.(nums := m) == WithRates(b)
  {
    RateVectorInOrder(b);
    WithRatesVector(b);
  }
}
