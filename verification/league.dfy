/** The League class of nflstats.py (nflstats.py:86-367): the nested
    statistics table, filled game by game, then turned into running totals
    and rate statistics, and printed as a table. */
module NflStats {
  import opened Wrappers
  import opened Taxonomy
  import opened Games
  import opened Buckets
  import opened Accumulation
  import opened Cumulative
  import opened Rates
  import opened Render

  /** The codes of the provider's team list (`team[0] for team in ng.teams`). */
  function Codes(roster: seq<TeamInfo>): set<Team> {
    set t | t in roster :: t.code
  }

  /** The slots `structure` creates: every team of the list, every selected
      year and week, all four sides. */
  predicate InGrid(s: Slot, codes: set<Team>, years: seq<int>, weeks: seq<int>) {
    s.team in codes && s.year in years && s.week in weeks
  }

  lemma CodesSnoc(roster: seq<TeamInfo>, i: nat)
    requires i < |roster|
    ensures Codes(roster[..i + 1]) == Codes(roster[..i]) + {roster[i].code}
  {
    assert roster[..i + 1] == roster[..i] + [roster[i]];
  }

  lemma Pick<T>(s: set<T>) returns (x: T)
    requires s != {}
    ensures x in s
  {
    x :| x in s;
  }

  /** The smallest element of a non-empty set of weeks: the order in which
      the table's weeks are visited. */
  lemma LeastExists(s: set<int>) returns (m: int)
    requires s != {}
    ensures m in s && forall v :: v in s ==> m <= v
    decreases |s|
  {
    var x := Pick(s);
    var rest := s - {x};
    if rest == {} {
      m := x;
      assert forall v :: v in s ==> v == x || v in rest;
    } else {
      var m' := LeastExists(rest);
      m := if x < m' then x else m';
      assert forall v :: v in s ==> v == x || v in rest;
    }
  }

  /** The recorded OWN buckets of (t, year) among the weeks `done`. */
  ghost function PlayedAmong(st: Store, t: Team, year: int, done: set<int>): set<Slot> {
    set s | s in st && s.team == t && s.year == year && s.side == Own && s.week in done && Recorded(st[s])
  }

  /** Counting the weeks of (t, year) in ascending order: once `w`, the least
      week not yet visited, is visited, the counted weeks are exactly the
      recorded ones up to `w`. */
  /** Moving the least unvisited week to the visited ones keeps every
      visited week before every unvisited one. */
  lemma Advance(todo: set<int>, done: set<int>, w: int)
    requires forall a, b :: a in done && b in todo ==> a < b
    requires w in todo && forall v :: v in todo ==> w <= v
    ensures forall a, b :: a in done + {w} && b in todo - {w} ==> a < b
  {
  }

  lemma PlayedStep(st: Store, t: Team, year: int, weeks: seq<int>, todo: set<int>, done: set<int>, w: int)
    requires forall v :: Slot(t, year, v, Own) in st <==> v in weeks
    requires forall v :: v in weeks <==> v in todo || v in done
    requires forall a, b :: a in done && b in todo ==> a < b
    requires w in todo && forall v :: v in todo ==> w <= v
    ensures Played(st, Slot(t, year, w, Own)) == |PlayedAmong(st, t, year, done + {w})|
    ensures |PlayedAmong(st, t, year, done + {w})|
            == |PlayedAmong(st, t, year, done)| + (if Recorded(st[Slot(t, year, w, Own)]) then 1 else 0)
  {
    PlayedIsAmong(st, t, year, weeks, todo, done, w);
    assert w !in done;
    PlayedAmongGrows(st, t, year, done, w);
  }

  /** With the weeks before `w` done, the weeks counted up to `w` are the done ones and `w`. */
  lemma PlayedIsAmong(st: Store, t: Team, year: int, weeks: seq<int>, todo: set<int>, done: set<int>, w: int)
    requires forall v :: Slot(t, year, v, Own) in st <==> v in weeks
    requires forall v :: v in weeks <==> v in todo || v in done
    requires forall a, b :: a in done && b in todo ==> a < b
    requires w in todo && forall v :: v in todo ==> w <= v
    ensures PlayedWeeks(st, t, year, w) == PlayedAmong(st, t, year, done + {w})
  {
    forall s | s in st && s.team == t && s.year == year && s.side == Own
      ensures s.week <= w <==> s.week in done + {w}
    {
      assert s == Slot(t, year, s.week, Own);
    }
  }

  /** Adding an unseen week adds its OWN slot when that week was played. */
  lemma PlayedAmongGrows(st: Store, t: Team, year: int, done: set<int>, w: int)
    requires Slot(t, year, w, Own) in st && w !in done
    ensures |PlayedAmong(st, t, year, done + {w})|
            == |PlayedAmong(st, t, year, done)| + (if Recorded(st[Slot(t, year, w, Own)]) then 1 else 0)
  {
    var own := Slot(t, year, w, Own);
    var before, after := PlayedAmong(st, t, year, done), PlayedAmong(st, t, year, done + {w});
    assert own !in before;
    if Recorded(st[own]) {
      assert after == before + {own};
    } else {
      assert after == before;
    }
  }

  /** What make_rate_stats leaves in slot `s` of `orig`, where it does not
      divide by zero. */
  ghost function Target(orig: Store, s: Slot, cum: bool): Bucket {
    if s in orig && !Faulty(orig[s]) then RatedBucket(orig, s, cum) else Empty
  }

  /** The buckets of (t, year) in the weeks `done` hold what make_rate_stats
      derives from `orig`. */
  ghost predicate RatedWeeks(orig: Store, st: Store, t: Team, year: int, done: set<int>, cum: bool) {
    forall s {:trigger Target(orig, s, cum)} :: s in st && s.team == t && s.year == year && s.week in done ==>
      s in orig && !Faulty(orig[s]) && st[s] == Target(orig, s, cum)
  }

  lemma RatedWeeksStep(orig: Store, st: Store, r: Store, t: Team, year: int, w: int, done: set<int>, cum: bool)
    requires RatedWeeks(orig, st, t, year, done, cum)
    requires r.Keys == st.Keys && st.Keys == orig.Keys
    requires forall sd :: Slot(t, year, w, sd) in orig && !Faulty(orig[Slot(t, year, w, sd)])
    requires forall sd :: r[Slot(t, year, w, sd)] == RatedBucket(orig, Slot(t, year, w, sd), cum)
    requires forall s :: s in r && !(s.team == t && s.year == year && s.week == w) ==> r[s] == st[s]
    ensures RatedWeeks(orig, r, t, year, done + {w}, cum)
  {
    forall s | s in r && s.team == t && s.year == year && s.week in done + {w}
      ensures s in orig && !Faulty(orig[s]) && r[s] == Target(orig, s, cum)
    {
      var b := Target(orig, s, cum);
      if s.week == w {
        assert s == Slot(t, year, w, s.side);
      }
    }
  }

  lemma RatedWeeksWithin(orig: Store, st: Store, t: Team, year: int, done: set<int>, fewer: set<int>, cum: bool)
    requires RatedWeeks(orig, st, t, year, done, cum) && fewer <= done
    ensures RatedWeeks(orig, st, t, year, fewer, cum)
  {
    forall s | s in st && s.team == t && s.year == year && s.week in fewer
      ensures s in orig && !Faulty(orig[s]) && st[s] == Target(orig, s, cum)
    {
      var b := Target(orig, s, cum);
    }
  }

  /** Where the weeks `done` have been rated, none of their buckets faulted. */
  lemma RatedWeeksSound(orig: Store, st: Store, t: Team, year: int, done: set<int>, cum: bool)
    requires RatedWeeks(orig, st, t, year, done, cum) && st.Keys == orig.Keys
    ensures forall s :: s in orig && s.team == t && s.year == year && s.week in done ==> !Faulty(orig[s])
  {
    forall s | s in orig && s.team == t && s.year == year && s.week in done
      ensures !Faulty(orig[s])
    {
      var b := Target(orig, s, cum);
    }
  }

  /** Rating another team or year leaves these buckets as they were. */
  lemma RatedWeeksFrame(orig: Store, st: Store, r: Store, t: Team, year: int, done: set<int>, cum: bool)
    requires RatedWeeks(orig, st, t, year, done, cum)
    requires r.Keys == st.Keys
    requires forall s :: s in st && s.team == t && s.year == year ==> r[s] == st[s]
    ensures RatedWeeks(orig, r, t, year, done, cum)
  {
    forall s | s in r && s.team == t && s.year == year && s.week in done
      ensures s in orig && !Faulty(orig[s]) && r[s] == Target(orig, s, cum)
    {
      var b := Target(orig, s, cum);
    }
  }

  /** Once every team and year of the table is rated, nothing faulted and
      the table is the rated store. */
  lemma RatedWhole(orig: Store, st: Store, codes: set<Team>, years: seq<int>, weeks: seq<int>, cum: bool)
    requires forall s :: s in orig ==> InGrid(s, codes, years, weeks)
    requires st.Keys == orig.Keys
    requires forall c, y :: c in codes && y in years ==> RatedWeeks(orig, st, c, y, (set w | w in weeks), cum)
    ensures !RateFault(orig)
    ensures st == Rated(orig, cum)
  {
    forall s | s in orig
      ensures !Faulty(orig[s]) && st[s] == RatedBucket(orig, s, cum)
    {
      assert RatedWeeks(orig, st, s.team, s.year, (set w | w in weeks), cum);
      var b := Target(orig, s, cum);
    }
    RatedEverywhere(orig, st, cum);
  }

  /** A store holding the rated bucket in every slot is the rated store. */
  lemma RatedEverywhere(orig: Store, st: Store, cum: bool)
    requires st.Keys == orig.Keys
    requires forall s :: s in orig ==> !Faulty(orig[s]) && st[s] == RatedBucket(orig, s, cum)
    ensures !RateFault(orig) && st == Rated(orig, cum)
  {
    assert !RateFault(orig);
    var r := Rated(orig, cum);
    forall s | s in orig
      ensures st[s] == r[s]
    {
      RatedAt(orig, cum, s);
    }
    SameStore(st, r);
  }

  /** Two stores with the same slots and the same bucket in each are equal. */
  lemma SameStore(a: Store, b: Store)
    requires a.Keys == b.Keys && forall s :: s in a ==> a[s] == b[s]
    ensures a == b
  {
  }

  class League {
    /** `ng.teams`, the provider's team list. */
    const roster: seq<TeamInfo>
    /** `self.year`, `self.week`, `self.which_team`, `self.site` */
    const years: seq<int>
    const weeks: seq<int>
    const which: set<Team>
    const site: set<string>
    /** `self.cum`, `self.rate` */
    const cum: bool
    const rate: bool
    /** `self.teams`, flattened: team, year, week and side to a bucket. */
    var store: Store

    /** The table holds exactly the slots `structure` made, and every selected
        team is one of them. */
    ghost predicate Valid()
      reads this
    {
      && (forall s :: s in store <==> InGrid(s, Codes(roster), years, weeks))
      && which <= Codes(roster)
    }

    /** structure: an empty bucket for every team, selected year and week, and side. */
    static method Structure(roster: seq<TeamInfo>, years: seq<int>, weeks: seq<int>) returns (st: Store)
      ensures forall s :: s in st <==> InGrid(s, Codes(roster), years, weeks)
      ensures forall s :: s in st ==> st[s] == Empty
    {
      st := map[];
      for i := 0 to |roster|
        invariant forall s :: s in st <==> InGrid(s, Codes(roster[..i]), years, weeks)
        invariant forall s :: s in st ==> st[s] == Empty
      {
        var code := roster[i].code;
        CodesSnoc(roster, i);
        for j := 0 to |years|
          invariant forall s :: s in st <==> InGrid(s, Codes(roster[..i]), years, weeks)
                                             || (s.team == code && s.year in years[..j] && s.week in weeks)
          invariant forall s :: s in st ==> st[s] == Empty
        {
          for k := 0 to |weeks|
            invariant forall s :: s in st <==> InGrid(s, Codes(roster[..i]), years, weeks)
                                               || (s.team == code && s.year in years[..j] && s.week in weeks)
                                               || (s.team == code && s.year == years[j] && s.week in weeks[..k])
            invariant forall s :: s in st ==> st[s] == Empty
          {
            for m := 0 to |Sides|
              invariant forall s :: s in st <==> InGrid(s, Codes(roster[..i]), years, weeks)
                                                 || (s.team == code && s.year in years[..j] && s.week in weeks)
                                                 || (s.team == code && s.year == years[j] && s.week in weeks[..k])
                                                 || (s.team == code && s.year == years[j] && s.week == weeks[k]
                                                     && s.side in Sides[..m])
              invariant forall s :: s in st ==> st[s] == Empty
            {
              st := st[Slot(code, years[j], weeks[k], Sides[m]) := Empty];
            }
            assert Sides[..|Sides|] == [Own, Opp, OwnTotal, OppTotal];
            forall sd: Side ensures sd in Sides[..|Sides|] {
              match sd
              case Own => assert Sides[..|Sides|][0] == Own;
              case Opp => assert Sides[..|Sides|][1] == Opp;
              case OwnTotal => assert Sides[..|Sides|][2] == OwnTotal;
              case OppTotal => assert Sides[..|Sides|][3] == OppTotal;
            }
            assert weeks[..k + 1] == weeks[..k] + [weeks[k]];
          }
          assert years[..j + 1] == years[..j] + [years[j]];
        }
      }
      assert roster[..|roster|] == roster;
    }

    /** __init__: the selection and an empty table. */
    constructor(roster: seq<TeamInfo>, years: seq<int>, weeks: seq<int>, which: set<Team>, site: set<string>,
                cum: bool, rate: bool)
      requires which <= Codes(roster)
      ensures Valid()
      ensures this.roster == roster && this.years == years && this.weeks == weeks
      ensures this.which == which && this.site == site && this.cum == cum && this.rate == rate
      ensures forall s :: s in store ==> store[s] == Empty
    {
      this.roster := roster;
      this.years := years;
      this.weeks := weeks;
      this.which := which;
      this.site := site;
      this.cum := cum;
      this.rate := rate;
      var st := Structure(roster, years, weeks);
      this.store := st;
    }

    /** Every selected team has its four buckets in every selected week. */
    lemma ValidCoversTeam(code: Team)
      requires Valid() && code in which
      ensures Covers(store, {code}, years, weeks)
    {
    }

    lemma ValidReady()
      requires Valid()
      ensures forall y, w :: y in years && w in weeks ==> Ready(store, which, y, w)
      ensures Covers(store, which, years, weeks)
    {
    }

    /** The loops of add_*_stats(wt, year, week, game) over one category's
        player lines and its stats. */
    method Credit(wt: Team, year: int, week: int, g: Game, keys: seq<Key>, sacks: bool, lines: seq<Line>)
      requires Slot(wt, year, week, Own) in store && Slot(wt, year, week, Opp) in store
      modifies this
      ensures store == CreditFold(old(store), wt, year, week, g, keys, sacks, lines)
    {
      ghost var st0 := store;
      var own, opp := Slot(wt, year, week, Own), Slot(wt, year, week, Opp);
      for i := 0 to |lines|
        invariant store == CreditFold(st0, wt, year, week, g, keys, sacks, lines[..i])
      {
        var l := lines[i];
        ghost var prev := store;
        for j := 0 to |keys|
          invariant store == LineStep(prev, wt, year, week, g, keys[..j], sacks, l)
        {
          var k := keys[j];
          assert keys[..j + 1][..j] == keys[..j];
          if ToOwn(g, wt, sacks, l) {
            store := store[own := Add(store[own], k, Val(l, k))];
          } else if ToOpp(g, wt, sacks, l) {
            store := store[opp := Add(store[opp], k, Val(l, k))];
          }
        }
        assert keys[..|keys|] == keys;
        assert lines[..i + 1][..i] == lines[..i];
      }
      assert lines[..|lines|] == lines;
    }

    /** add_defense_stats: sacks go to the OWN bucket of the team sacked. */
    method AddDefenseStats(wt: Team, year: int, week: int, g: Game)
      requires Slot(wt, year, week, Own) in store && Slot(wt, year, week, Opp) in store
      modifies this
      ensures store == CreditFold(old(store), wt, year, week, g, DefenseStats, true, DefenseLines(g.defense))
    {
      Credit(wt, year, week, g, DefenseStats, true, DefenseLines(g.defense));
    }

    /** add_passing_stats */
    method AddPassingStats(wt: Team, year: int, week: int, g: Game)
      requires Slot(wt, year, week, Own) in store && Slot(wt, year, week, Opp) in store
      modifies this
      ensures store == CreditFold(old(store), wt, year, week, g, PassingStats, false, PassingLines(g.passing))
    {
      Credit(wt, year, week, g, PassingStats, false, PassingLines(g.passing));
    }

    /** add_rushing_stats */
    method AddRushingStats(wt: Team, year: int, week: int, g: Game)
      requires Slot(wt, year, week, Own) in store && Slot(wt, year, week, Opp) in store
      modifies this
      ensures store == CreditFold(old(store), wt, year, week, g, RushingStats, false, RushingLines(g.rushing))
    {
      Credit(wt, year, week, g, RushingStats, false, RushingLines(g.rushing));
    }

    /** The five assignments of make_team_stats for one recorded side. */
    method Record(t: Team, year: int, week: int, g: Game, tag: string, totalTag: string, ownPts: int, oppPts: int)
      requires Ready(store, {t}, year, week)
      modifies this
      ensures store == RecordScore(old(store), t, year, week, g, tag, totalTag, ownPts, oppPts)
    {
      var own, opp, total := Slot(t, year, week, Own), Slot(t, year, week, Opp), Slot(t, year, week, OwnTotal);
      assert own in store && opp in store && total in store;
      store := store[own := store[own].(game := Some(g))];
      store := store[own := store[own].(opp := Some(tag))];
      store := store[own := Put(store[own], Pts, ownPts as real)];
      store := store[opp := Put(store[opp], Pts, oppPts as real)];
      store := store[total := store[total].(opp := Some(totalTag))];
    }

    /** One game of make_team_stats' loop: the home side, then the away side. */
    method TakeGame(year: int, week: int, g: Game)
      requires Ready(store, which, year, week)
      modifies this
      ensures store == GameStep(old(store), site, which, year, week, g)
    {
      if "home" in site && g.home in which {
        assert Ready(store, {g.home}, year, week);
        Record(g.home, year, week, g, g.away, g.away, g.scoreHome, g.scoreAway);
        AddDefenseStats(g.home, year, week, g);
        AddPassingStats(g.home, year, week, g);
        AddRushingStats(g.home, year, week, g);
      }
      ghost var mid := store;
      assert mid == HomeStep(old(store), site, which, year, week, g);
      ReadySameKeys(old(store), mid, which, year, week);
      if "away" in site && g.away in which {
        assert Ready(store, {g.away}, year, week);
        Record(g.away, year, week, g, "@ " + g.home, g.home, g.scoreAway, g.scoreHome);
        AddDefenseStats(g.away, year, week, g);
        AddPassingStats(g.away, year, week, g);
        AddRushingStats(g.away, year, week, g);
      }
    }

    /** make_team_stats: every selected year and week, every game the
        provider returns for it. */
    method MakeTeamStats(provider: (int, int) -> seq<Game>)
      requires Valid()
      modifies this
      ensures Valid()
      ensures store == YearsFold(old(store), site, which, years, weeks, provider)
    {
      ValidReady();
      for i := 0 to |years|
        invariant store == YearsFold(old(store), site, which, years[..i], weeks, provider)
        invariant store.Keys == old(store).Keys
      {
        var year := years[i];
        ghost var before := store;
        assert forall w :: w in weeks ==> Ready(store, which, year, w) by {
          forall w | w in weeks ensures Ready(store, which, year, w) {
            ReadySameKeys(old(store), store, which, year, w);
          }
        }
        for j := 0 to |weeks|
          invariant store == WeeksFold(before, site, which, year, weeks[..j], provider)
          invariant store.Keys == before.Keys
        {
          var week := weeks[j];
          var games := provider(year, week);
          ghost var start := store;
          ReadySameKeys(before, store, which, year, week);
          for k := 0 to |games|
            invariant store == GamesFold(start, site, which, year, week, games[..k])
            invariant store.Keys == start.Keys
          {
            ReadySameKeys(start, store, which, year, week);
            TakeGame(year, week, games[k]);
            assert games[..k + 1][..k] == games[..k];
          }
          assert games[..|games|] == games;
          assert weeks[..j + 1][..j] == weeks[..j];
        }
        assert weeks[..|weeks|] == weeks;
        assert years[..i + 1][..i] == years[..i];
      }
      assert years[..|years|] == years;
    }
  
    /** One key of accumulate_stats at one week: both running totals take
        the previous week's total plus this week's number, or this week's
        number alone when the previous week is not in the table. */
    method CarryKey(t: Team, y: int, w: int, k: Key)
      requires forall sd :: Slot(t, y, w, sd) in store
      requires w - 1 in weeks <==> Slot(t, y, w - 1, Own) in store && Slot(t, y, w - 1, OwnTotal) in store
      requires w - 1 in weeks <==> Slot(t, y, w - 1, Opp) in store && Slot(t, y, w - 1, OppTotal) in store
      modifies this
      ensures store == CarryStep(old(store), t, y, w, k)
    {
      var own, opp := Slot(t, y, w, Own), Slot(t, y, w, Opp);
      var ownT, oppT := Slot(t, y, w, OwnTotal), Slot(t, y, w, OppTotal);
      var ownSum, oppSum;
      if w - 1 in weeks {
        ownSum := Get(store[Slot(t, y, w - 1, OwnTotal)], k) + Get(store[own], k);
        oppSum := Get(store[Slot(t, y, w - 1, OppTotal)], k) + Get(store[opp], k);
      } else {
        ownSum := Get(store[own], k);
        oppSum := Get(store[opp], k);
      }
      store := store[ownT := Put(store[ownT], k, ownSum)][oppT := Put(store[oppT], k, oppSum)];
    }

    /** The loop of accumulate_stats over the keys of one week. */
    method CarryKeys(t: Team, y: int, w: int, keys: seq<Key>)
      requires forall sd :: Slot(t, y, w, sd) in store
      requires w - 1 in weeks <==> Slot(t, y, w - 1, Own) in store && Slot(t, y, w - 1, OwnTotal) in store
      requires w - 1 in weeks <==> Slot(t, y, w - 1, Opp) in store && Slot(t, y, w - 1, OppTotal) in store
      modifies this
      ensures store.Keys == old(store).Keys
      ensures forall s :: s in store && s != Slot(t, y, w, OwnTotal) && s != Slot(t, y, w, OppTotal) ==>
                store[s] == old(store)[s]
      ensures forall sd :: IsTotal(sd) ==>
                store[Slot(t, y, w, sd)].opp == old(store)[Slot(t, y, w, sd)].opp
                && store[Slot(t, y, w, sd)].game == old(store)[Slot(t, y, w, sd)].game
      ensures forall sd, k :: IsTotal(sd) && k !in keys ==>
                Get(store[Slot(t, y, w, sd)], k) == Get(old(store)[Slot(t, y, w, sd)], k)
      ensures forall k :: k in keys ==>
                && Get(store[Slot(t, y, w, OwnTotal)], k) == Carried(old(store), Slot(t, y, w, Own), k)
                && Get(store[Slot(t, y, w, OppTotal)], k) == Carried(old(store), Slot(t, y, w, Opp), k)
    {
      var own, opp := Slot(t, y, w, Own), Slot(t, y, w, Opp);
      var ownT, oppT := Slot(t, y, w, OwnTotal), Slot(t, y, w, OppTotal);
      ghost var st0 := store;
      for j := 0 to |keys|
        invariant store.Keys == st0.Keys
        invariant forall s :: s in store && s != ownT && s != oppT ==> store[s] == st0[s]
        invariant store[ownT].opp == st0[ownT].opp && store[ownT].game == st0[ownT].game
        invariant store[oppT].opp == st0[oppT].opp && store[oppT].game == st0[oppT].game
        invariant forall k :: k !in keys[..j] ==>
                    Get(store[ownT], k) == Get(st0[ownT], k) && Get(store[oppT], k) == Get(st0[oppT], k)
        invariant forall k :: k in keys[..j] ==>
                    Get(store[ownT], k) == Carried(st0, own, k) && Get(store[oppT], k) == Carried(st0, opp, k)
      {
        var k := keys[j];
        ghost var before := store;
        CarriedFrame(st0, before, t, y, w, k);
        CarryKey(t, y, w, k);
        CarryStepEffect(before, t, y, w, k);
        assert keys[..j + 1] == keys[..j] + [k];
      }
      assert keys[..|keys|] == keys;
    }

    /** accumulate_stats for one week: every key of ALL_STATS + ['pts'] of
        both running totals. */
    method AccumulateWeek(t: Team, y: int, w: int)
      requires Valid() && t in Codes(roster) && y in years && w in weeks
      modifies this
      ensures Valid()
      ensures WeekDone(store, t, y, w)
      ensures TotalsOnly(old(store), store)
      ensures forall s :: s in store && s != Slot(t, y, w, OwnTotal) && s != Slot(t, y, w, OppTotal) ==>
                store[s] == old(store)[s]
    {
      CarryKeys(t, y, w, TotalStats);
      var own, opp := Slot(t, y, w, Own), Slot(t, y, w, Opp);
      assert forall k :: Carried(store, own, k) == Carried(old(store), own, k);
      assert forall k :: Carried(store, opp, k) == Carried(old(store), opp, k);
    }

    /** accumulate_stats for one team and year: the weeks in ascending order. */
    method AccumulateRun(t: Team, y: int)
      requires Valid() && t in Codes(roster) && y in years
      modifies this
      ensures Valid()
      ensures forall w :: w in weeks ==> WeekDone(store, t, y, w)
      ensures TotalsOnly(old(store), store)
      ensures forall s :: s in store && !(s.team == t && s.year == y) ==> store[s] == old(store)[s]
    {
      var todo := set w | w in weeks;
      ghost var done: set<int> := {};
      while todo != {}
        invariant Valid()
        invariant forall w :: w in weeks <==> w in todo || w in done
        invariant forall a, b :: a in done && b in todo ==> a < b
        invariant forall w :: w in done ==> WeekDone(store, t, y, w)
        invariant TotalsOnly(old(store), store)
        invariant forall s :: s in store && !(s.team == t && s.year == y && s.week in done) ==> store[s] == old(store)[s]
        decreases todo
      {
        ghost var least := LeastExists(todo);
        var w :| w in todo && forall v :: v in todo ==> w <= v;
        ghost var before := store;
        AccumulateWeek(t, y, w);
        EarlierWeeksKept(before, store, t, y, w, done);
        TotalsOnlyTrans(old(store), before, store);
        todo := todo - {w};
        done := done + {w};
      }
    }

    /** accumulate_stats for one team: its years in turn. */
    method AccumulateTeam(t: Team)
      requires Valid() && t in Codes(roster)
      modifies this
      ensures Valid()
      ensures forall s :: s in store && s.team == t ==> WeekDone(store, s.team, s.year, s.week)
      ensures TotalsOnly(old(store), store)
      ensures forall s :: s in store && s.team != t ==> store[s] == old(store)[s]
    {
      var ys := set y | y in years;
      ghost var doneY: set<int> := {};
      while ys != {}
        invariant Valid()
        invariant forall y :: y in years <==> y in ys || y in doneY
        invariant forall y :: y in ys ==> y !in doneY
        invariant forall s :: s in store && s.team == t && s.year in doneY ==> WeekDone(store, s.team, s.year, s.week)
        invariant TotalsOnly(old(store), store)
        invariant forall s :: s in store && !(s.team == t && s.year in doneY) ==> store[s] == old(store)[s]
        decreases ys
      {
        ghost var first := LeastExists(ys);  // the witness the choice below needs
        var y :| y in ys;
        ghost var before := store;
        AccumulateRun(t, y);
        forall s | s in store && s.team == t && s.year in doneY
          ensures WeekDone(store, s.team, s.year, s.week)
        {
          WeekDoneFrame(before, store, s.team, s.year, s.week);
        }
        TotalsOnlyTrans(old(store), before, store);
        ys := ys - {y};
        doneY := doneY + {y};
      }
    }

    /** accumulate_stats: the running-total invariant on every team, year and week; the
        gross buckets, and every other key of the running totals, are left
        as they were. */
    method AccumulateStats()
      requires Valid()
      modifies this
      ensures Valid()
      ensures Cumulated(store)
      ensures TotalsOnly(old(store), store)
    {
      var teams := Codes(roster);
      ghost var doneT: set<Team> := {};
      while teams != {}
        invariant Valid()
        invariant forall c :: c in Codes(roster) <==> c in teams || c in doneT
        invariant forall c :: c in teams ==> c !in doneT
        invariant forall s :: s in store && s.team in doneT ==> WeekDone(store, s.team, s.year, s.week)
        invariant TotalsOnly(old(store), store)
        invariant forall s :: s in store && s.team !in doneT ==> store[s] == old(store)[s]
        decreases teams
      {
        var t :| t in teams;
        ghost var before := store;
        AccumulateTeam(t);
        forall s | s in store && s.team in doneT
          ensures WeekDone(store, s.team, s.year, s.week)
        {
          WeekDoneFrame(before, store, s.team, s.year, s.week);
        }
        TotalsOnlyTrans(old(store), before, store);
        teams := teams - {t};
        doneT := doneT + {t};
      }
      CumulatedByWeeks(store);
    }

    /** The seven rate assignments of make_rate_stats on one bucket, in the
        source's order; `ok` is false where one of them divides by zero. */
    static method RateBucket(b: Bucket) returns (r: Bucket, ok: bool)
      ensures ok <==> !Faulty(b)
      ensures ok ==> r == WithRates(b)
    {
      r := b;
      var cmp, att, yds := Get(b, PassingCmp), Get(b, PassingAtt), Get(b, PassingYds);
      var tds, ints, sk := Get(b, PassingTds), Get(b, PassingInts), Get(b, DefenseSk);
      var ratt, ryds := Get(b, RushingAtt), Get(b, RushingYds);
      if cmp > 0.0 {
        if att == 0.0 {
          return r, false;
        }
        var m := b.nums[PassingCmpPct := Round2(cmp / att * 100.0)][PassingYpa := Round2(yds / att)]
                       [PassingYpc := Round2(yds / cmp)][PassingIntPct := Round2(ints / att * 100.0)]
                       [PassingTdPct := Round2(tds / att * 100.0)];
        r := b.(nums := m);
        if ratt == 0.0 {
          return r, false;
        }
        m := m[RushingYpa := Round2(ryds / ratt)];
        r := b.(nums := m);
        if sk + att == 0.0 {
          return r, false;
        }
        m := m[PassingSkPct := Round2(sk / (sk + att) * 100.0)];
        r := b.(nums := m);
        RatesWritten(b, m);
      }
      ok := true;
    }

    /** The `ppg` step of make_rate_stats for one week: in cumulative mode,
        once the counter `n` is positive, both running totals get their
        points per recorded week. */
    method PpgWeek(t: Team, y: int, w: int, n: nat, ghost orig: Store)
      requires store.Keys == orig.Keys
      requires forall sd :: Slot(t, y, w, sd) in store && store[Slot(t, y, w, sd)] == orig[Slot(t, y, w, sd)]
      requires n == Played(orig, Slot(t, y, w, Own))
      modifies this
      ensures store.Keys == orig.Keys
      ensures forall sd :: store[Slot(t, y, w, sd)] == WithPpg(orig, Slot(t, y, w, sd), cum)
      ensures forall s :: s in store && !(s.team == t && s.year == y && s.week == w) ==> store[s] == old(store)[s]
    {
      var ownT, oppT := Slot(t, y, w, OwnTotal), Slot(t, y, w, OppTotal);
      if cum && n > 0 {
        store := store[ownT := Put(store[ownT], Ppg, Round2(Get(store[ownT], Pts) / n as real))];
        store := store[oppT := Put(store[oppT], Ppg, Round2(Get(store[oppT], Pts) / n as real))];
      }
      assert forall sd :: Played(orig, Slot(t, y, w, sd)) == n;
    }

    /** The rates of the four buckets of one week, in turn. */
    method RateSides(t: Team, y: int, w: int) returns (ok: bool)
      requires forall sd :: Slot(t, y, w, sd) in store
      modifies this
      ensures store.Keys == old(store).Keys
      ensures ok <==> forall sd :: !Faulty(old(store)[Slot(t, y, w, sd)])
      ensures ok ==> forall sd :: store[Slot(t, y, w, sd)] == WithRates(old(store)[Slot(t, y, w, sd)])
      ensures ok ==> forall s :: s in store && !(s.team == t && s.year == y && s.week == w) ==> store[s] == old(store)[s]
    {
      ghost var mid := store;
      var todo: set<Side> := {Own, Opp, OwnTotal, OppTotal};
      assert forall sd: Side :: sd in todo by {
        forall sd: Side ensures sd in todo {
          match sd
          case Own =>
          case Opp =>
          case OwnTotal =>
          case OppTotal =>
        }
      }
      while todo != {}
        invariant store.Keys == mid.Keys
        invariant forall s :: s in store && !(s.team == t && s.year == y && s.week == w) ==> store[s] == mid[s]
        invariant forall sd :: sd in todo ==> store[Slot(t, y, w, sd)] == mid[Slot(t, y, w, sd)]
        invariant forall sd :: sd !in todo ==>
                    !Faulty(mid[Slot(t, y, w, sd)]) && store[Slot(t, y, w, sd)] == WithRates(mid[Slot(t, y, w, sd)])
        decreases todo
      {
        var sd :| sd in todo;
        var slot := Slot(t, y, w, sd);
        var r, good := RateBucket(store[slot]);
        if !good {
          return false;
        }
        store := store[slot := r];
        todo := todo - {sd};
      }
      ok := true;
    }

    /** make_rate_stats for one week, once the counter `n` of recorded weeks
        has been brought up to it. */
    method RateWeek(t: Team, y: int, w: int, n: nat, ghost orig: Store) returns (ok: bool)
      requires store.Keys == orig.Keys
      requires forall sd :: Slot(t, y, w, sd) in store && store[Slot(t, y, w, sd)] == orig[Slot(t, y, w, sd)]
      requires n == Played(orig, Slot(t, y, w, Own))
      modifies this
      ensures store.Keys == orig.Keys
      ensures ok <==> forall sd :: !Faulty(orig[Slot(t, y, w, sd)])
      ensures ok ==> forall sd :: store[Slot(t, y, w, sd)] == RatedBucket(orig, Slot(t, y, w, sd), cum)
      ensures ok ==> forall s :: s in store && !(s.team == t && s.year == y && s.week == w) ==> store[s] == old(store)[s]
    {
      PpgWeek(t, y, w, n, orig);
      forall sd ensures Faulty(store[Slot(t, y, w, sd)]) == Faulty(orig[Slot(t, y, w, sd)]) {
        PpgKeepsFault(orig, Slot(t, y, w, sd), cum);
      }
      ok := RateSides(t, y, w);
    }

    /** make_rate_stats for one team and year: the counter starts at zero and
        the weeks are visited in ascending order. */
    method RateRun(t: Team, y: int, ghost orig: Store) returns (ok: bool)
      requires forall s: Slot :: s.team == t && s.year == y ==> (s in orig <==> s.week in weeks)
      requires store.Keys == orig.Keys
      requires forall s :: s in store && s.team == t && s.year == y ==> store[s] == orig[s]
      modifies this
      ensures store.Keys == orig.Keys
      ensures ok <==> forall s :: s in orig && s.team == t && s.year == y ==> !Faulty(orig[s])
      ensures ok ==> RatedWeeks(orig, store, t, y, (set w | w in weeks), cum)
      ensures ok ==> forall s :: s in store && !(s.team == t && s.year == y) ==> store[s] == old(store)[s]
    {
      var todo := set w | w in weeks;
      ghost var done: set<int> := {};
      var n := 0;
      while todo != {}
        invariant store.Keys == orig.Keys
        invariant forall v :: v in weeks <==> v in todo || v in done
        invariant forall a, b :: a in done && b in todo ==> a < b
        invariant n == |PlayedAmong(orig, t, y, done)|
        invariant RatedWeeks(orig, store, t, y, done, cum)
        invariant forall s :: s in store && !(s.team == t && s.year == y && s.week in done) ==> store[s] == old(store)[s]
        decreases todo
      {
        ghost var least := LeastExists(todo);
        var w :| w in todo && forall v :: v in todo ==> w <= v;
        PlayedStep(orig, t, y, weeks, todo, done, w);
        assert forall sd :: Slot(t, y, w, sd) in store && store[Slot(t, y, w, sd)] == orig[Slot(t, y, w, sd)];
        if Recorded(store[Slot(t, y, w, Own)]) {
          n := n + 1;
        }
        ghost var before := store;
        ok := RateWeek(t, y, w, n, orig);
        if !ok {
          assert exists sd :: Faulty(orig[Slot(t, y, w, sd)]);
          return;
        }
        RatedWeeksStep(orig, before, store, t, y, w, done, cum);
        Advance(todo, done, w);
        todo := todo - {w};
        done := done + {w};
      }
      assert forall v :: v in weeks ==> v in done;
      RatedWeeksWithin(orig, store, t, y, done, (set w | w in weeks), cum);
      RatedWeeksSound(orig, store, t, y, done, cum);
      ok := true;
    }

    /** make_rate_stats for one team: its years in turn, the counter
        restarting with each. */
    method RateTeam(t: Team, ghost orig: Store) returns (ok: bool)
      requires forall s: Slot :: s.team == t ==> (s in orig <==> s.year in years && s.week in weeks)
      requires store.Keys == orig.Keys
      requires forall s :: s in store && s.team == t ==> store[s] == orig[s]
      modifies this
      ensures store.Keys == orig.Keys
      ensures ok <==> forall s :: s in orig && s.team == t ==> !Faulty(orig[s])
      ensures ok ==> forall y :: y in years ==> RatedWeeks(orig, store, t, y, (set w | w in weeks), cum)
      ensures ok ==> forall s :: s in store && s.team != t ==> store[s] == old(store)[s]
    {
      ghost var all := set w | w in weeks;
      var ys := set y | y in years;
      ghost var doneY: set<int> := {};
      while ys != {}
        invariant store.Keys == orig.Keys
        invariant forall y :: y in years <==> y in ys || y in doneY
        invariant forall y :: y in ys ==> y !in doneY
        invariant forall y :: y in doneY ==> RatedWeeks(orig, store, t, y, all, cum)
        invariant forall s :: s in store && !(s.team == t && s.year in doneY) ==> store[s] == old(store)[s]
        decreases ys
      {
        ghost var first := LeastExists(ys);  // the witness the choice below needs
        var y :| y in ys;
        ghost var before := store;
        ok := RateRun(t, y, orig);
        if !ok {
          return;
        }
        forall v | v in doneY
          ensures RatedWeeks(orig, store, t, v, all, cum)
        {
          RatedWeeksFrame(orig, before, store, t, v, all, cum);
        }
        ys := ys - {y};
        doneY := doneY + {y};
      }
      forall s | s in orig && s.team == t
        ensures !Faulty(orig[s])
      {
        RatedWeeksSound(orig, store, t, s.year, all, cum);
      }
      ok := true;
    }

    /** make_rate_stats: when no bucket divides by zero, the table becomes
        the rated store; otherwise the source raises, and `ok` is false. */
    method MakeRateStats() returns (ok: bool)
      requires Valid()
      modifies this
      ensures Valid()
      ensures ok <==> !RateFault(old(store))
      ensures ok ==> store == Rated(old(store), cum)
    {
      ghost var orig := store;
      ghost var all := set w | w in weeks;
      var teams := Codes(roster);
      ghost var doneT: set<Team> := {};
      while teams != {}
        invariant store.Keys == orig.Keys
        invariant forall c :: c in Codes(roster) <==> c in teams || c in doneT
        invariant forall c :: c in teams ==> c !in doneT
        invariant forall c, y :: c in doneT && y in years ==> RatedWeeks(orig, store, c, y, all, cum)
        invariant forall s :: s in store && s.team !in doneT ==> store[s] == orig[s]
        decreases teams
      {
        var t :| t in teams;
        ghost var before := store;
        ok := RateTeam(t, orig);
        if !ok {
          return;
        }
        forall c, y | c in doneT && y in years
          ensures RatedWeeks(orig, store, c, y, all, cum)
        {
          RatedWeeksFrame(orig, before, store, c, y, all, cum);
        }
        teams := teams - {t};
        doneT := doneT + {t};
      }
      RatedWhole(orig, store, Codes(roster), years, weeks, cum);
      ok := true;
    }

    /** The rows of one (team, year) in __repr__, appended to `out`: a row
        for each week with passing attempts. */
    method RenderWeeks(code: Team, year: int, show: real -> string, out0: string, ghost pre: seq<string>)
      returns (out: string)
      requires forall w, sd :: w in weeks ==> Slot(code, year, w, sd) in store
      requires out0 == Unlines(pre)
      ensures out == Unlines(pre + WeekRows(store, code, year, weeks, rate, cum, show))
    {
      out := out0;
      ghost var rows: seq<string> := [];
      assert pre + rows == pre;
      for k := 0 to |weeks|
        invariant rows == WeekRows(store, code, year, weeks[..k], rate, cum, show)
        invariant out == Unlines(pre + rows)
      {
        var week := weeks[k];
        WeekRowsStep(store, code, year, weeks, k, rate, cum, show);
        if HasStats(store, code, year, week) {
          var row := Row(store, code, year, week, rate, cum, show);
          UnlinesGrow(pre, rows, row);
          out := out + row + "\n";
          rows := rows + [row];
        }
      }
      assert weeks[..|weeks|] == weeks;
    }

    /** The year blocks of one team in __repr__, appended to `out`: each
        year's rows closed by a divider. */
    method RenderYears(code: Team, show: real -> string, out0: string, ghost pre: seq<string>)
      returns (out: string)
      requires Covers(store, {code}, years, weeks)
      requires out0 == Unlines(pre)
      ensures out == Unlines(pre + YearBlocks(store, code, years, weeks, rate, cum, show))
    {
      out := out0;
      ghost var blocks: seq<string> := [];
      assert pre + blocks == pre;
      for j := 0 to |years|
        invariant Covers(store, {code}, years[..j], weeks)
        invariant blocks == YearBlocks(store, code, years[..j], weeks, rate, cum, show)
        invariant out == Unlines(pre + blocks)
      {
        var year := years[j];
        YearBlocksStep(store, code, years, weeks, j, rate, cum, show);
        ghost var rows := WeekRows(store, code, year, weeks, rate, cum, show);
        out := RenderWeeks(code, year, show, out, pre + blocks);
        UnlinesGrow3(pre, blocks, rows, Divider(rate));
        out := out + Divider(rate) + "\n";
        blocks := blocks + rows + [Divider(rate)];
      }
      assert years[..|years|] == years;
    }

    /** One team's section of __repr__, appended to `out`: the name, the
        header, a divider, then the year blocks. */
    method RenderSection(t: TeamInfo, show: real -> string, out0: string, ghost lines: seq<string>) returns (out: string)
      requires Valid() && t.code in which
      requires out0 == Unlines(lines)
      ensures out == Unlines(lines + SectionLines(store, t, years, weeks, rate, cum, show))
    {
      ValidCoversTeam(t.code);
      ghost var head := [t.name, HeaderLine(rate), Divider(rate)];
      out := out0 + t.name + "\n" + HeaderLine(rate) + "\n" + Divider(rate) + "\n";
      UnlinesThree(lines, t.name, HeaderLine(rate), Divider(rate));
      out := RenderYears(t.code, show, out, lines + head);
      AppendAssoc(lines, head, YearBlocks(store, t.code, years, weeks, rate, cum, show));
    }

    /** __repr__: a section for every team of the provider's list that is
        selected, in the list's order. */
    method Render(show: real -> string) returns (out: string)
      requires Valid()
      ensures out == Unlines(TableLines(store, roster, which, years, weeks, rate, cum, show))
    {
      ValidReady();
      out := "";
      ghost var lines: seq<string> := [];
      for i := 0 to |roster|
        invariant lines == TableLines(store, roster[..i], which, years, weeks, rate, cum, show)
        invariant out == Unlines(lines)
      {
        var t := roster[i];
        if t.code in which {
          out := RenderSection(t, show, out, lines);
          lines := lines + SectionLines(store, t, years, weeks, rate, cum, show);
        }
        assert roster[..i + 1][..i] == roster[..i];
      }
      assert roster[..|roster|] == roster;
    }

    /** compile: the game pass, then the running totals in cumulative mode,
        then the rates in rate mode. `summed` is the table as the rate pass
        finds it. */
    method Compile(provider: (int, int) -> seq<Game>) returns (ok: bool, ghost summed: Store)
      requires Valid()
      modifies this
      ensures Valid()
      ensures !cum ==> summed == YearsFold(old(store), site, which, years, weeks, provider)
      ensures cum ==> Cumulated(summed) && TotalsOnly(YearsFold(old(store), site, which, years, weeks, provider), summed)
      ensures !rate ==> ok && store == summed
      ensures rate ==> (ok <==> !RateFault(summed)) && (ok ==> store == Rated(summed, cum))
    {
      MakeTeamStats(provider);
      if cum {
        AccumulateStats();
      }
      summed := store;
      ok := true;
      if rate {
        ok := MakeRateStats();
      }
    }
}
}
