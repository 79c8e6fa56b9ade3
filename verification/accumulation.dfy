/** How one game's scores and player lines are folded into the buckets
    (make_team_stats and the add_*_stats methods of nflstats.py), stated as
    functions on the store, with the facts the folds keep. */
module Accumulation {
  import opened Wrappers
  import opened Taxonomy
  import opened Games
  import opened Buckets

  /** `bucket[stat] += line[stat]` for every stat of `keys`, in order. */
  function CreditKeys(st: Store, s: Slot, keys: seq<Key>, l: Line): (r: Store)
    requires s in st
    ensures r.Keys == st.Keys
    decreases |keys|
  {
    if keys == [] then st
    else
      var prev := CreditKeys(st, s, keys[..|keys| - 1], l);
      var k := keys[|keys| - 1];
      prev[s := Add(prev[s], k, Val(l, k))]
  }

  lemma {:induction false} CreditKeysEffect(st: Store, s: Slot, keys: seq<Key>, l: Line)
    requires s in st && Distinct(keys)
    ensures forall t :: t in st && t != s ==> CreditKeys(st, s, keys, l)[t] == st[t]
    ensures CreditKeys(st, s, keys, l)[s].opp == st[s].opp
    ensures CreditKeys(st, s, keys, l)[s].game == st[s].game
    ensures forall k :: Get(CreditKeys(st, s, keys, l)[s], k)
                        == Get(st[s], k) + (if k in keys then Val(l, k) else 0.0)
    decreases |keys|
  {
    if keys != [] {
      var init := keys[..|keys| - 1];
      assert Distinct(init);
      CreditKeysEffect(st, s, init, l);
      forall k ensures k in keys <==> k in init || k == keys[|keys| - 1] {
        if k in keys {
          var i :| 0 <= i < |keys| && keys[i] == k;
          if i < |keys| - 1 { assert init[i] == k; }
        }
      }
      assert keys[|keys| - 1] !in init;
    }
  }

  /** Whether a line is credited to `wt`'s OWN bucket. Passing and rushing
      lines go to the player's own team; a defender's sacks go to the team he
      sacked (add_defense_stats tests the opponent first). */
  predicate ToOwn(g: Game, wt: Team, sacks: bool, l: Line) {
    if sacks then Opponent(g, l.team) == wt else l.team == wt
  }

  /** Whether a line is credited to `wt`'s OPP bucket (the `elif` branch). */
  predicate ToOpp(g: Game, wt: Team, sacks: bool, l: Line) {
    !ToOwn(g, wt, sacks, l) && (if sacks then l.team == wt else Opponent(g, l.team) == wt)
  }

  /** One pass of the loop over players in add_*_stats(wt, year, week, game). */
  function LineStep(st: Store, wt: Team, year: int, week: int, g: Game,
                    keys: seq<Key>, sacks: bool, l: Line): (r: Store)
    requires Slot(wt, year, week, Own) in st && Slot(wt, year, week, Opp) in st
    ensures r.Keys == st.Keys
  {
    if ToOwn(g, wt, sacks, l) then CreditKeys(st, Slot(wt, year, week, Own), keys, l)
    else if ToOpp(g, wt, sacks, l) then CreditKeys(st, Slot(wt, year, week, Opp), keys, l)
    else st
  }

  /** add_*_stats(wt, year, week, game) over the lines of one category. */
  function CreditFold(st: Store, wt: Team, year: int, week: int, g: Game,
                      keys: seq<Key>, sacks: bool, lines: seq<Line>): (r: Store)
    requires Slot(wt, year, week, Own) in st && Slot(wt, year, week, Opp) in st
    ensures r.Keys == st.Keys
    decreases |lines|
  {
    if lines == [] then st
    else
      var prev := CreditFold(st, wt, year, week, g, keys, sacks, lines[..|lines| - 1]);
      LineStep(prev, wt, year, week, g, keys, sacks, lines[|lines| - 1])
  }

  /** The sum of `k` over the lines credited to `wt`'s OWN bucket (`toOwn`)
      or to its OPP bucket. */
  function Share(g: Game, wt: Team, sacks: bool, toOwn: bool, lines: seq<Line>, k: Key): real {
    if lines == [] then 0.0
    else
      var l := lines[|lines| - 1];
      var credited := if toOwn then ToOwn(g, wt, sacks, l) else ToOpp(g, wt, sacks, l);
      Share(g, wt, sacks, toOwn, lines[..|lines| - 1], k) + (if credited then Val(l, k) else 0.0)
  }

  /** A category fold writes only `wt`'s OWN and OPP buckets of that week,
      adds to each key of the category exactly the share of that bucket, and
      leaves the labels alone. */
  lemma {:induction false} CreditFoldEffect(st: Store, wt: Team, year: int, week: int, g: Game,
                                            keys: seq<Key>, sacks: bool, lines: seq<Line>)
    requires Slot(wt, year, week, Own) in st && Slot(wt, year, week, Opp) in st
    requires Distinct(keys)
    ensures var r := CreditFold(st, wt, year, week, g, keys, sacks, lines);
            var own, opp := Slot(wt, year, week, Own), Slot(wt, year, week, Opp);
            && (forall t :: t in st && t != own && t != opp ==> r[t] == st[t])
            && r[own].opp == st[own].opp && r[own].game == st[own].game
            && r[opp].opp == st[opp].opp && r[opp].game == st[opp].game
            && (forall k :: Get(r[own], k) == Get(st[own], k)
                              + (if k in keys then Share(g, wt, sacks, true, lines, k) else 0.0))
            && (forall k :: Get(r[opp], k) == Get(st[opp], k)
                              + (if k in keys then Share(g, wt, sacks, false, lines, k) else 0.0))
    decreases |lines|
  {
    if lines != [] {
      var init := lines[..|lines| - 1];
      var l := lines[|lines| - 1];
      var prev := CreditFold(st, wt, year, week, g, keys, sacks, init);
      CreditFoldEffect(st, wt, year, week, g, keys, sacks, init);
      if ToOwn(g, wt, sacks, l) {
        CreditKeysEffect(prev, Slot(wt, year, week, Own), keys, l);
      } else if ToOpp(g, wt, sacks, l) {
        CreditKeysEffect(prev, Slot(wt, year, week, Opp), keys, l);
      }
    }
  }

  /** add_defense_stats, add_passing_stats and add_rushing_stats for team
      `t`, in the order make_team_stats calls them. */
  function CreditGame(st: Store, t: Team, year: int, week: int, g: Game): (r: Store)
    requires Slot(t, year, week, Own) in st && Slot(t, year, week, Opp) in st
    ensures r.Keys == st.Keys
  {
    var s1 := CreditFold(st, t, year, week, g, DefenseStats, true, DefenseLines(g.defense));
    var s2 := CreditFold(s1, t, year, week, g, PassingStats, false, PassingLines(g.passing));
    CreditFold(s2, t, year, week, g, RushingStats, false, RushingLines(g.rushing))
  }

  /** What team `t`'s OWN (`toOwn`) or OPP bucket gains on key `k` from one game. */
  function Gain(g: Game, t: Team, toOwn: bool, k: Key): real {
    if k in DefenseStats then Share(g, t, true, toOwn, DefenseLines(g.defense), k)
    else if k in PassingStats then Share(g, t, false, toOwn, PassingLines(g.passing), k)
    else if k in RushingStats then Share(g, t, false, toOwn, RushingLines(g.rushing), k)
    else 0.0
  }

  lemma CreditGameEffect(st: Store, t: Team, year: int, week: int, g: Game)
    requires Slot(t, year, week, Own) in st && Slot(t, year, week, Opp) in st
    ensures var r := CreditGame(st, t, year, week, g);
            var own, opp := Slot(t, year, week, Own), Slot(t, year, week, Opp);
            && (forall s :: s in st && s != own && s != opp ==> r[s] == st[s])
            && r[own].opp == st[own].opp && r[own].game == st[own].game
            && r[opp].opp == st[opp].opp && r[opp].game == st[opp].game
            && (forall k :: Get(r[own], k) == Get(st[own], k) + Gain(g, t, true, k))
            && (forall k :: Get(r[opp], k) == Get(st[opp], k) + Gain(g, t, false, k))
  {
    assert Distinct(DefenseStats) && Distinct(PassingStats) && Distinct(RushingStats);
    var own, opp := Slot(t, year, week, Own), Slot(t, year, week, Opp);
    var dl, pl, rl := DefenseLines(g.defense), PassingLines(g.passing), RushingLines(g.rushing);
    var s1 := CreditFold(st, t, year, week, g, DefenseStats, true, dl);
    var s2 := CreditFold(s1, t, year, week, g, PassingStats, false, pl);
    var r := CreditFold(s2, t, year, week, g, RushingStats, false, rl);
    CreditFoldEffect(st, t, year, week, g, DefenseStats, true, dl);
    CreditFoldEffect(s1, t, year, week, g, PassingStats, false, pl);
    CreditFoldEffect(s2, t, year, week, g, RushingStats, false, rl);
    forall k ensures Get(r[own], k) == Get(st[own], k) + Gain(g, t, true, k)
                 && Get(r[opp], k) == Get(st[opp], k) + Gain(g, t, false, k)
    {
      if k in DefenseStats {
        assert k !in PassingStats && k !in RushingStats;
      } else if k in PassingStats {
        assert k !in RushingStats;
      }
    }
  }

  /** The bookkeeping of one recorded side: the game, the OPP label, both
      scores and the plain opponent code on OWN_TOTAL. */
  function RecordScore(st: Store, t: Team, year: int, week: int, g: Game,
                       tag: string, totalTag: string, ownPts: int, oppPts: int): (r: Store)
    requires Ready(st, {t}, year, week)
    ensures r.Keys == st.Keys
  {
    var own, opp, total := Slot(t, year, week, Own), Slot(t, year, week, Opp), Slot(t, year, week, OwnTotal);
    var s1 := st[own := Put(st[own].(game := Some(g), opp := Some(tag)), Pts, ownPts as real)];
    var s2 := s1[opp := Put(s1[opp], Pts, oppPts as real)];
    s2[total := s2[total].(opp := Some(totalTag))]
  }

  /** The home branch of make_team_stats' loop body. */
  function HomeStep(st: Store, site: set<string>, which: set<Team>, year: int, week: int, g: Game): (r: Store)
    requires Ready(st, which, year, week)
    ensures r.Keys == st.Keys
  {
    if "home" in site && g.home in which then
      var s1 := RecordScore(st, g.home, year, week, g, g.away, g.away, g.scoreHome, g.scoreAway);
      CreditGame(s1, g.home, year, week, g)
    else st
  }

  /** The away branch of make_team_stats' loop body. */
  function AwayStep(st: Store, site: set<string>, which: set<Team>, year: int, week: int, g: Game): (r: Store)
    requires Ready(st, which, year, week)
    ensures r.Keys == st.Keys
  {
    if "away" in site && g.away in which then
      var s1 := RecordScore(st, g.away, year, week, g, "@ " + g.home, g.home, g.scoreAway, g.scoreHome);
      CreditGame(s1, g.away, year, week, g)
    else st
  }

  /** One game of make_team_stats. */
  function GameStep(st: Store, site: set<string>, which: set<Team>, year: int, week: int, g: Game): (r: Store)
    requires Ready(st, which, year, week)
    ensures r.Keys == st.Keys
  {
    AwayStep(HomeStep(st, site, which, year, week, g), site, which, year, week, g)
  }

  /** The slots one game may write: OWN, OPP and OWN_TOTAL of that week, for
      a side whose site is selected and whose team is in `which`. */
  predicate Writes(site: set<string>, which: set<Team>, year: int, week: int, g: Game, s: Slot) {
    && s.year == year && s.week == week && s.side != OppTotal
    && ((s.team == g.home && "home" in site && g.home in which)
        || (s.team == g.away && "away" in site && g.away in which))
  }

  /** The effect of one recorded side on its own buckets. */
  lemma RecordedSideEffect(st: Store, t: Team, year: int, week: int, g: Game,
                           tag: string, totalTag: string, ownPts: int, oppPts: int)
    requires Ready(st, {t}, year, week)
    ensures var r := CreditGame(RecordScore(st, t, year, week, g, tag, totalTag, ownPts, oppPts), t, year, week, g);
            var own, opp, total := Slot(t, year, week, Own), Slot(t, year, week, Opp), Slot(t, year, week, OwnTotal);
            && (forall s :: s in st && s != own && s != opp && s != total ==> r[s] == st[s])
            && r[own].opp == Some(tag) && r[own].game == Some(g)
            && r[total] == st[total].(opp := Some(totalTag))
            && (forall k :: Get(r[own], k) == (if k == Pts then ownPts as real else Get(st[own], k)) + Gain(g, t, true, k))
            && (forall k :: Get(r[opp], k) == (if k == Pts then oppPts as real else Get(st[opp], k)) + Gain(g, t, false, k))
  {
    var s1 := RecordScore(st, t, year, week, g, tag, totalTag, ownPts, oppPts);
    RecordScoreEffect(st, t, year, week, g, tag, totalTag, ownPts, oppPts);
    CreditGameEffect(s1, t, year, week, g);
  }

  /** The score, the labels and the game reference one side records. */
  lemma RecordScoreEffect(st: Store, t: Team, year: int, week: int, g: Game,
                          tag: string, totalTag: string, ownPts: int, oppPts: int)
    requires Ready(st, {t}, year, week)
    ensures var r := RecordScore(st, t, year, week, g, tag, totalTag, ownPts, oppPts);
            var own, opp, total := Slot(t, year, week, Own), Slot(t, year, week, Opp), Slot(t, year, week, OwnTotal);
            && own in r && opp in r
            && (forall s :: s in st && s != own && s != opp && s != total ==> r[s] == st[s])
            && r[own].opp == Some(tag) && r[own].game == Some(g)
            && r[total] == st[total].(opp := Some(totalTag))
            && (forall k :: Get(r[own], k) == if k == Pts then ownPts as real else Get(st[own], k))
            && (forall k :: Get(r[opp], k) == if k == Pts then oppPts as real else Get(st[opp], k))
  {
    assert Slot(t, year, week, Own) in st && Slot(t, year, week, Opp) in st && Slot(t, year, week, OwnTotal) in st;
  }

  /** A game writes only the slots `Writes` names: a side outside the site
      filter or outside `which`, any other week and every OPP_TOTAL bucket
      are left as they were. */
  lemma GameStepFrame(st: Store, site: set<string>, which: set<Team>, year: int, week: int, g: Game)
    requires Ready(st, which, year, week)
    ensures var r := GameStep(st, site, which, year, week, g);
            forall s :: s in st && !Writes(site, which, year, week, g, s) ==> r[s] == st[s]
  {
    var s1 := HomeStep(st, site, which, year, week, g);
    HomeStepFrame(st, site, which, year, week, g);
    ReadySameKeys(st, s1, which, year, week);
    AwayStepFrame(s1, site, which, year, week, g);
  }

  lemma HomeStepFrame(st: Store, site: set<string>, which: set<Team>, year: int, week: int, g: Game)
    requires Ready(st, which, year, week)
    ensures var r := HomeStep(st, site, which, year, week, g);
            forall s :: s in st && !Writes(site, which, year, week, g, s) ==> r[s] == st[s]
  {
    if "home" in site && g.home in which {
      RecordedSideFrame(st, g.home, year, week, g, g.away, g.away, g.scoreHome, g.scoreAway);
    }
  }

  lemma AwayStepFrame(st: Store, site: set<string>, which: set<Team>, year: int, week: int, g: Game)
    requires Ready(st, which, year, week)
    ensures var r := AwayStep(st, site, which, year, week, g);
            forall s :: s in st && !Writes(site, which, year, week, g, s) ==> r[s] == st[s]
  {
    if "away" in site && g.away in which {
      RecordedSideFrame(st, g.away, year, week, g, "@ " + g.home, g.home, g.scoreAway, g.scoreHome);
    }
  }

  /** One recorded side touches only its own OWN, OPP and OWN_TOTAL buckets of that week. */
  lemma RecordedSideFrame(st: Store, t: Team, year: int, week: int, g: Game,
                          tag: string, totalTag: string, ownPts: int, oppPts: int)
    requires Ready(st, {t}, year, week)
    ensures var r := CreditGame(RecordScore(st, t, year, week, g, tag, totalTag, ownPts, oppPts), t, year, week, g);
            forall s :: s in st && !(s.team == t && s.year == year && s.week == week && s.side != OppTotal)
                        ==> r[s] == st[s]
  {
    RecordedSideEffect(st, t, year, week, g, tag, totalTag, ownPts, oppPts);
  }

  /** The team whose lines a bucket collects: passing and rushing lines of
      the bucket's own team go to OWN and the opponent's to OPP; sacks go the
      other way round. */
  function Source(g: Game, t: Team, sacks: bool, toOwn: bool): Team {
    if sacks == toOwn then Opponent(g, t) else t
  }

  lemma CreditedLine(g: Game, t: Team, sacks: bool, toOwn: bool, l: Line)
    requires g.home != g.away && (t == g.home || t == g.away)
    requires l.team == g.home || l.team == g.away
    ensures (if toOwn then ToOwn(g, t, sacks, l) else ToOpp(g, t, sacks, l))
            <==> l.team == Source(g, t, sacks, toOwn)
  {
  }

  /** In a game between two distinct teams whose lines all belong to them,
      a bucket's share of a category is the total of the lines of the team
      `Source` names. */
  lemma {:induction false} ShareIsTeamTotal(g: Game, t: Team, sacks: bool, toOwn: bool, lines: seq<Line>, k: Key)
    requires g.home != g.away && (t == g.home || t == g.away)
    requires forall i :: 0 <= i < |lines| ==> lines[i].team == g.home || lines[i].team == g.away
    ensures Share(g, t, sacks, toOwn, lines, k) == TeamTotal(lines, Source(g, t, sacks, toOwn), k)
    decreases |lines|
  {
    if lines != [] {
      var init := lines[..|lines| - 1];
      ShareIsTeamTotal(g, t, sacks, toOwn, init, k);
      CreditedLine(g, t, sacks, toOwn, lines[|lines| - 1]);
    }
  }

  /** What a team's OWN bucket holds for a raw key after its game: its own
      players' passing and rushing totals, and the sacks the other team's
      defenders made. */
  function OwnGross(g: Game, t: Team, k: Key): real {
    if k in DefenseStats then TeamTotal(DefenseLines(g.defense), Opponent(g, t), k)
    else if k in PassingStats then TeamTotal(PassingLines(g.passing), t, k)
    else if k in RushingStats then TeamTotal(RushingLines(g.rushing), t, k)
    else 0.0
  }

  lemma GainSides(g: Game, t: Team, k: Key)
    requires TwoTeamGame(g) && (t == g.home || t == g.away)
    ensures Gain(g, t, true, k) == OwnGross(g, t, k) == Gain(g, Opponent(g, t), false, k)
  {
    var u := Opponent(g, t);
    assert Opponent(g, u) == t;
    var dl, pl, rl := DefenseLines(g.defense), PassingLines(g.passing), RushingLines(g.rushing);
    forall i | 0 <= i < |dl| ensures dl[i].team == g.home || dl[i].team == g.away {
      assert g.defense[i] in g.defense;
    }
    forall i | 0 <= i < |pl| ensures pl[i].team == g.home || pl[i].team == g.away {
      assert g.passing[i] in g.passing;
    }
    forall i | 0 <= i < |rl| ensures rl[i].team == g.home || rl[i].team == g.away {
      assert g.rushing[i] in g.rushing;
    }
    if k in DefenseStats {
      ShareIsTeamTotal(g, t, true, true, dl, k);
      ShareIsTeamTotal(g, u, true, false, dl, k);
    } else if k in PassingStats {
      ShareIsTeamTotal(g, t, false, true, pl, k);
      ShareIsTeamTotal(g, u, false, false, pl, k);
    } else if k in RushingStats {
      ShareIsTeamTotal(g, t, false, true, rl, k);
      ShareIsTeamTotal(g, u, false, false, rl, k);
    }
  }

  /** The buckets of both teams of `g` in (year, week) exist and are empty. */
  ghost predicate EmptyAt(st: Store, g: Game, year: int, week: int) {
    forall sd :: && Slot(g.home, year, week, sd) in st && st[Slot(g.home, year, week, sd)] == Empty
                 && Slot(g.away, year, week, sd) in st && st[Slot(g.away, year, week, sd)] == Empty
  }

  /** A bucket recorded from empty for side `t` of game `g`: the score
      `pts` under 'PTS' plus the side's gains on every key. */
  ghost predicate Credited(b: Bucket, pts: int, g: Game, t: Team, own: bool) {
    forall k :: Get(b, k) == (if k == Pts then pts as real else 0.0) + Gain(g, t, own, k)
  }

  /** One side recorded on empty OWN and OPP buckets; the other team's
      buckets are left alone. */
  lemma SideFromEmpty(st: Store, t: Team, year: int, week: int, g: Game,
                      tag: string, totalTag: string, ownPts: int, oppPts: int)
    requires Ready(st, {t}, year, week)
    requires st[Slot(t, year, week, Own)] == Empty && st[Slot(t, year, week, Opp)] == Empty
    ensures var r := CreditGame(RecordScore(st, t, year, week, g, tag, totalTag, ownPts, oppPts), t, year, week, g);
            && (forall s :: s in st && s.team != t ==> r[s] == st[s])
            && Credited(r[Slot(t, year, week, Own)], ownPts, g, t, true)
            && Credited(r[Slot(t, year, week, Opp)], oppPts, g, t, false)
            && r[Slot(t, year, week, Own)].opp == Some(tag)
            && r[Slot(t, year, week, OwnTotal)].opp == Some(totalTag)
  {
    RecordedSideEffect(st, t, year, week, g, tag, totalTag, ownPts, oppPts);
  }

  /** Both sides of a game recorded from empty buckets: each bucket holds
      its score and its gain. */
  lemma BothSidesRecorded(st: Store, site: set<string>, which: set<Team>, year: int, week: int, g: Game)
    requires Ready(st, which, year, week) && g.home != g.away
    requires "home" in site && "away" in site && g.home in which && g.away in which
    requires EmptyAt(st, g, year, week)
    ensures var r := GameStep(st, site, which, year, week, g);
            && Credited(r[Slot(g.home, year, week, Own)], g.scoreHome, g, g.home, true)
            && Credited(r[Slot(g.home, year, week, Opp)], g.scoreAway, g, g.home, false)
            && Credited(r[Slot(g.away, year, week, Own)], g.scoreAway, g, g.away, true)
            && Credited(r[Slot(g.away, year, week, Opp)], g.scoreHome, g, g.away, false)
            && r[Slot(g.home, year, week, Own)].opp == Some(g.away)
            && r[Slot(g.away, year, week, Own)].opp == Some("@ " + g.home)
            && r[Slot(g.home, year, week, OwnTotal)].opp == Some(g.away)
            && r[Slot(g.away, year, week, OwnTotal)].opp == Some(g.home)
  {
    var H, A := g.home, g.away;
    assert Ready(st, {H}, year, week) && st[Slot(H, year, week, Own)] == Empty && st[Slot(H, year, week, Opp)] == Empty;
    var s1 := HomeStep(st, site, which, year, week, g);
    SideFromEmpty(st, H, year, week, g, A, A, g.scoreHome, g.scoreAway);
    assert Slot(A, year, week, Own) in st && Slot(A, year, week, Opp) in st;
    ReadySameKeys(st, s1, which, year, week);
    assert Ready(s1, {A}, year, week);
    SideFromEmpty(s1, A, year, week, g, "@ " + H, H, g.scoreAway, g.scoreHome);
    assert Slot(H, year, week, Own) in s1 && Slot(H, year, week, Opp) in s1 && Slot(H, year, week, OwnTotal) in s1;
  }

  /** The mirror property for game `g` in (year, week): the home team's OWN bucket
      equals the away team's OPP bucket on every raw key and the other way
      round, each holding that side's player totals (sacks: the other side's
      defenders'); the scores and the labels are those of the game. */
  ghost predicate Symmetric(r: Store, g: Game, year: int, week: int) {
    && (forall sd :: Slot(g.home, year, week, sd) in r && Slot(g.away, year, week, sd) in r)
    && var hOwn, hOpp := r[Slot(g.home, year, week, Own)], r[Slot(g.home, year, week, Opp)];
       var aOwn, aOpp := r[Slot(g.away, year, week, Own)], r[Slot(g.away, year, week, Opp)];
       && (forall k :: k in AllStats ==> Get(hOwn, k) == OwnGross(g, g.home, k) == Get(aOpp, k))
       && (forall k :: k in AllStats ==> Get(aOwn, k) == OwnGross(g, g.away, k) == Get(hOpp, k))
       && Get(hOwn, Pts) == g.scoreHome as real && Get(hOpp, Pts) == g.scoreAway as real
       && Get(aOwn, Pts) == g.scoreAway as real && Get(aOpp, Pts) == g.scoreHome as real
       && hOwn.opp == Some(g.away) && aOwn.opp == Some("@ " + g.home)
       && r[Slot(g.home, year, week, OwnTotal)].opp == Some(g.away)
       && r[Slot(g.away, year, week, OwnTotal)].opp == Some(g.home)
  }

  /** The mirror property for one game recorded for both sides from empty buckets. */
  lemma GameSymmetry(st: Store, site: set<string>, which: set<Team>, year: int, week: int, g: Game)
    requires Ready(st, which, year, week) && TwoTeamGame(g)
    requires "home" in site && "away" in site && g.home in which && g.away in which
    requires EmptyAt(st, g, year, week)
    ensures Symmetric(GameStep(st, site, which, year, week, g), g, year, week)
  {
    var H, A := g.home, g.away;
    BothSidesRecorded(st, site, which, year, week, g);
    assert Ready(st, which, year, week);
    var r := GameStep(st, site, which, year, week, g);
    MirroredBuckets(r[Slot(H, year, week, Own)], r[Slot(A, year, week, Opp)], g, H, g.scoreHome);
    MirroredBuckets(r[Slot(A, year, week, Own)], r[Slot(H, year, week, Opp)], g, A, g.scoreAway);
  }

  /** A side's OWN bucket and its opponent's OPP bucket, both recorded from
      empty, agree with the side's gross totals and with each other. */
  lemma MirroredBuckets(own: Bucket, opp: Bucket, g: Game, t: Team, pts: int)
    requires TwoTeamGame(g) && (t == g.home || t == g.away)
    requires Credited(own, pts, g, t, true) && Credited(opp, pts, g, Opponent(g, t), false)
    ensures forall k :: k in AllStats ==> Get(own, k) == OwnGross(g, t, k) == Get(opp, k)
    ensures Get(own, Pts) == pts as real == Get(opp, Pts)
  {
    forall k | k in AllStats ensures Get(own, k) == OwnGross(g, t, k) == Get(opp, k) {
      GainSides(g, t, k);
    }
    GainSides(g, t, Pts);
  }

  /** The games of one (year, week), in the provider's order. */
  function GamesFold(st: Store, site: set<string>, which: set<Team>, year: int, week: int,
                     games: seq<Game>): (r: Store)
    requires Ready(st, which, year, week)
    ensures r.Keys == st.Keys
    decreases |games|
  {
    if games == [] then st
    else
      var prev := GamesFold(st, site, which, year, week, games[..|games| - 1]);
      GameStep(prev, site, which, year, week, games[|games| - 1])
  }

  /** The weeks of one year, each with the games `provider` returns. */
  function WeeksFold(st: Store, site: set<string>, which: set<Team>, year: int, weeks: seq<int>,
                     provider: (int, int) -> seq<Game>): (r: Store)
    requires forall w :: w in weeks ==> Ready(st, which, year, w)
    ensures r.Keys == st.Keys
    decreases |weeks|
  {
    if weeks == [] then st
    else
      var prev := WeeksFold(st, site, which, year, weeks[..|weeks| - 1], provider);
      var w := weeks[|weeks| - 1];
      ReadySameKeys(st, prev, which, year, w);
      GamesFold(prev, site, which, year, w, provider(year, w))
  }

  /** make_team_stats: every selected year and week, in the selection's order. */
  function YearsFold(st: Store, site: set<string>, which: set<Team>, years: seq<int>, weeks: seq<int>,
                     provider: (int, int) -> seq<Game>): (r: Store)
    requires forall y, w :: y in years && w in weeks ==> Ready(st, which, y, w)
    ensures r.Keys == st.Keys
    decreases |years|
  {
    if years == [] then st
    else
      var prev := YearsFold(st, site, which, years[..|years| - 1], weeks, provider);
      var y := years[|years| - 1];
      assert forall w :: w in weeks ==> Ready(prev, which, y, w) by {
        forall w | w in weeks ensures Ready(prev, which, y, w) {
          ReadySameKeys(st, prev, which, y, w);
        }
      }
      WeeksFold(prev, site, which, y, weeks, provider)
  }

  /** A slot no game of a list writes. */
  predicate GamesSpare(site: set<string>, which: set<Team>, year: int, week: int, games: seq<Game>, s: Slot) {
    forall i :: 0 <= i < |games| ==> !Writes(site, which, year, week, games[i], s)
  }

  predicate WeeksSpare(site: set<string>, which: set<Team>, year: int, weeks: seq<int>,
                       provider: (int, int) -> seq<Game>, s: Slot) {
    forall j :: 0 <= j < |weeks| ==> GamesSpare(site, which, year, weeks[j], provider(year, weeks[j]), s)
  }

  predicate YearsSpare(site: set<string>, which: set<Team>, years: seq<int>, weeks: seq<int>,
                       provider: (int, int) -> seq<Game>, s: Slot) {
    forall j :: 0 <= j < |years| ==> WeeksSpare(site, which, years[j], weeks, provider, s)
  }

  lemma {:induction false} GamesFoldFrame(st: Store, site: set<string>, which: set<Team>, year: int, week: int,
                                          games: seq<Game>, s: Slot)
    requires Ready(st, which, year, week) && s in st
    requires GamesSpare(site, which, year, week, games, s)
    ensures GamesFold(st, site, which, year, week, games)[s] == st[s]
    decreases |games|
  {
    if games != [] {
      var init := games[..|games| - 1];
      GamesFoldFrame(st, site, which, year, week, init, s);
      GameStepFrame(GamesFold(st, site, which, year, week, init), site, which, year, week, games[|games| - 1]);
    }
  }

  lemma {:induction false} WeeksFoldFrame(st: Store, site: set<string>, which: set<Team>, year: int, weeks: seq<int>,
                                          provider: (int, int) -> seq<Game>, s: Slot)
    requires forall w :: w in weeks ==> Ready(st, which, year, w)
    requires s in st && WeeksSpare(site, which, year, weeks, provider, s)
    ensures WeeksFold(st, site, which, year, weeks, provider)[s] == st[s]
    decreases |weeks|
  {
    if weeks != [] {
      var init := weeks[..|weeks| - 1];
      var w := weeks[|weeks| - 1];
      WeeksFoldFrame(st, site, which, year, init, provider, s);
      var prev := WeeksFold(st, site, which, year, init, provider);
      GamesFoldFrame(prev, site, which, year, w, provider(year, w), s);
    }
  }

  lemma {:induction false} YearsFoldFrame(st: Store, site: set<string>, which: set<Team>, years: seq<int>, weeks: seq<int>,
                                          provider: (int, int) -> seq<Game>, s: Slot)
    requires forall y, w :: y in years && w in weeks ==> Ready(st, which, y, w)
    requires s in st && YearsSpare(site, which, years, weeks, provider, s)
    ensures YearsFold(st, site, which, years, weeks, provider)[s] == st[s]
    decreases |years|
  {
    if years != [] {
      var init := years[..|years| - 1];
      var y := years[|years| - 1];
      YearsFoldFrame(st, site, which, init, weeks, provider, s);
      var prev := YearsFold(st, site, which, init, weeks, provider);
      forall w | w in weeks ensures Ready(prev, which, y, w) {
        ReadySameKeys(st, prev, which, y, w);
      }
      WeeksFoldFrame(prev, site, which, y, weeks, provider, s);
    }
  }

  /** Only `which`'s buckets are written, only in the selected years and
      weeks, and never an OPP_TOTAL bucket; a team's home (away) buckets are
      written only when 'home' ('away') is in the site filter. */
  lemma RunFrame(st: Store, site: set<string>, which: set<Team>, years: seq<int>, weeks: seq<int>,
                 provider: (int, int) -> seq<Game>)
    requires forall y, w :: y in years && w in weeks ==> Ready(st, which, y, w)
    ensures var r := YearsFold(st, site, which, years, weeks, provider);
            forall s :: s in st && (s.team !in which || s.year !in years || s.week !in weeks || s.side == OppTotal)
                        ==> r[s] == st[s]
  {
    forall s | s in st && (s.team !in which || s.year !in years || s.week !in weeks || s.side == OppTotal)
      ensures YearsFold(st, site, which, years, weeks, provider)[s] == st[s]
    {
      assert YearsSpare(site, which, years, weeks, provider, s) by {
        forall j | 0 <= j < |years| ensures WeeksSpare(site, which, years[j], weeks, provider, s) {
          assert years[j] in years;
          forall i | 0 <= i < |weeks| ensures GamesSpare(site, which, years[j], weeks[i], provider(years[j], weeks[i]), s) {
            assert weeks[i] in weeks;
          }
        }
      }
      YearsFoldFrame(st, site, which, years, weeks, provider, s);
    }
  }

  /** Symmetric and EmptyAt read only the eight buckets of the game's teams. */
  lemma SameBuckets(st: Store, r: Store, g: Game, year: int, week: int)
    requires forall sd :: Slot(g.home, year, week, sd) in st && Slot(g.away, year, week, sd) in st
    requires forall sd :: && Slot(g.home, year, week, sd) in r && r[Slot(g.home, year, week, sd)] == st[Slot(g.home, year, week, sd)]
                          && Slot(g.away, year, week, sd) in r && r[Slot(g.away, year, week, sd)] == st[Slot(g.away, year, week, sd)]
    ensures Symmetric(st, g, year, week) ==> Symmetric(r, g, year, week)
    ensures EmptyAt(st, g, year, week) ==> EmptyAt(r, g, year, week)
  {
    assert r[Slot(g.home, year, week, Own)] == st[Slot(g.home, year, week, Own)];
    assert r[Slot(g.home, year, week, Opp)] == st[Slot(g.home, year, week, Opp)];
    assert r[Slot(g.away, year, week, Own)] == st[Slot(g.away, year, week, Own)];
    assert r[Slot(g.away, year, week, Opp)] == st[Slot(g.away, year, week, Opp)];
    assert r[Slot(g.home, year, week, OwnTotal)] == st[Slot(g.home, year, week, OwnTotal)];
    assert r[Slot(g.away, year, week, OwnTotal)] == st[Slot(g.away, year, week, OwnTotal)];
  }

  /** A game at another position of the list that involves neither team. */
  predicate OnlyGameOf(games: seq<Game>, m: nat, g: Game) {
    && m < |games| && games[m] == g
    && forall i :: 0 <= i < |games| && i != m ==>
         games[i].home != g.home && games[i].home != g.away && games[i].away != g.home && games[i].away != g.away
  }

  /** A fold that writes none of the eight buckets keeps them. */
  lemma GamesSpareBoth(site: set<string>, which: set<Team>, year: int, week: int, games: seq<Game>, g: Game)
    requires forall i :: 0 <= i < |games| ==>
               games[i].home != g.home && games[i].home != g.away && games[i].away != g.home && games[i].away != g.away
    ensures forall sd :: GamesSpare(site, which, year, week, games, Slot(g.home, year, week, sd))
                         && GamesSpare(site, which, year, week, games, Slot(g.away, year, week, sd))
  {
  }

  lemma {:induction false} GamesSymmetry(st: Store, site: set<string>, which: set<Team>, year: int, week: int,
                                         games: seq<Game>, m: nat, g: Game)
    requires Ready(st, which, year, week) && TwoTeamGame(g) && OnlyGameOf(games, m, g)
    requires "home" in site && "away" in site && g.home in which && g.away in which
    requires EmptyAt(st, g, year, week)
    ensures Symmetric(GamesFold(st, site, which, year, week, games), g, year, week)
    decreases |games|
  {
    var init := games[..|games| - 1];
    var prev := GamesFold(st, site, which, year, week, init);
    ReadySameKeys(st, prev, which, year, week);
    if m == |games| - 1 {
      GamesSpareBoth(site, which, year, week, init, g);
      forall sd ensures prev[Slot(g.home, year, week, sd)] == st[Slot(g.home, year, week, sd)]
                     && prev[Slot(g.away, year, week, sd)] == st[Slot(g.away, year, week, sd)] {
        GamesFoldFrame(st, site, which, year, week, init, Slot(g.home, year, week, sd));
        GamesFoldFrame(st, site, which, year, week, init, Slot(g.away, year, week, sd));
      }
      SameBuckets(st, prev, g, year, week);
      GameSymmetry(prev, site, which, year, week, g);
    } else {
      GamesSymmetry(st, site, which, year, week, init, m, g);
      var last := games[|games| - 1];
      GamesSpareBoth(site, which, year, week, [last], g);
      forall sd ensures GameStep(prev, site, which, year, week, last)[Slot(g.home, year, week, sd)] == prev[Slot(g.home, year, week, sd)]
                     && GameStep(prev, site, which, year, week, last)[Slot(g.away, year, week, sd)] == prev[Slot(g.away, year, week, sd)] {
        GameStepFrame(prev, site, which, year, week, last);
      }
      SameBuckets(prev, GameStep(prev, site, which, year, week, last), g, year, week);
    }
  }

  lemma {:induction false} WeeksSymmetry(st: Store, site: set<string>, which: set<Team>, year: int, weeks: seq<int>,
                                         provider: (int, int) -> seq<Game>, j: nat, m: nat, g: Game)
    requires forall w :: w in weeks ==> Ready(st, which, year, w)
    requires j < |weeks| && Distinct(weeks) && TwoTeamGame(g) && OnlyGameOf(provider(year, weeks[j]), m, g)
    requires "home" in site && "away" in site && g.home in which && g.away in which
    requires EmptyAt(st, g, year, weeks[j])
    ensures Symmetric(WeeksFold(st, site, which, year, weeks, provider), g, year, weeks[j])
    decreases |weeks|
  {
    var w := weeks[j];
    var init := weeks[..|weeks| - 1];
    var last := weeks[|weeks| - 1];
    var prev := WeeksFold(st, site, which, year, init, provider);
    forall v | v in weeks ensures Ready(prev, which, year, v) {
      ReadySameKeys(st, prev, which, year, v);
    }
    var r := GamesFold(prev, site, which, year, last, provider(year, last));
    if j == |weeks| - 1 {
      forall sd ensures prev[Slot(g.home, year, w, sd)] == st[Slot(g.home, year, w, sd)]
                     && prev[Slot(g.away, year, w, sd)] == st[Slot(g.away, year, w, sd)] {
        WeeksFoldFrame(st, site, which, year, init, provider, Slot(g.home, year, w, sd));
        WeeksFoldFrame(st, site, which, year, init, provider, Slot(g.away, year, w, sd));
      }
      SameBuckets(st, prev, g, year, w);
      GamesSymmetry(prev, site, which, year, w, provider(year, w), m, g);
    } else {
      assert Distinct(init) && init[j] == w;
      WeeksSymmetry(st, site, which, year, init, provider, j, m, g);
      assert last != w;
      forall sd ensures r[Slot(g.home, year, w, sd)] == prev[Slot(g.home, year, w, sd)]
                     && r[Slot(g.away, year, w, sd)] == prev[Slot(g.away, year, w, sd)] {
        GamesFoldFrame(prev, site, which, year, last, provider(year, last), Slot(g.home, year, w, sd));
        GamesFoldFrame(prev, site, which, year, last, provider(year, last), Slot(g.away, year, w, sd));
      }
      SameBuckets(prev, r, g, year, w);
    }
  }

  /** The mirror property for a whole make_team_stats run: when a selected week
      holds game `g` and no other game of either team, both teams and both
      sites are selected, the selection lists have no repeats and the
      buckets start empty, the two teams' buckets end up symmetric. */
  lemma {:induction false} RunSymmetry(st: Store, site: set<string>, which: set<Team>, years: seq<int>, weeks: seq<int>,
                                       provider: (int, int) -> seq<Game>, i: nat, j: nat, m: nat, g: Game)
    requires forall y, w :: y in years && w in weeks ==> Ready(st, which, y, w)
    requires i < |years| && j < |weeks| && Distinct(years) && Distinct(weeks)
    requires TwoTeamGame(g) && OnlyGameOf(provider(years[i], weeks[j]), m, g)
    requires "home" in site && "away" in site && g.home in which && g.away in which
    requires EmptyAt(st, g, years[i], weeks[j])
    ensures Symmetric(YearsFold(st, site, which, years, weeks, provider), g, years[i], weeks[j])
    decreases |years|
  {
    var y, w := years[i], weeks[j];
    var init := years[..|years| - 1];
    var last := years[|years| - 1];
    var prev := YearsFold(st, site, which, init, weeks, provider);
    forall v | v in weeks ensures Ready(prev, which, last, v) {
      ReadySameKeys(st, prev, which, last, v);
    }
    var r := WeeksFold(prev, site, which, last, weeks, provider);
    if i == |years| - 1 {
      forall sd ensures prev[Slot(g.home, y, w, sd)] == st[Slot(g.home, y, w, sd)]
                     && prev[Slot(g.away, y, w, sd)] == st[Slot(g.away, y, w, sd)] {
        YearsFoldFrame(st, site, which, init, weeks, provider, Slot(g.home, y, w, sd));
        YearsFoldFrame(st, site, which, init, weeks, provider, Slot(g.away, y, w, sd));
      }
      SameBuckets(st, prev, g, y, w);
      WeeksSymmetry(prev, site, which, y, weeks, provider, j, m, g);
    } else {
      assert Distinct(init) && init[i] == y;
      RunSymmetry(st, site, which, init, weeks, provider, i, j, m, g);
      assert last != y;
      forall sd ensures r[Slot(g.home, y, w, sd)] == prev[Slot(g.home, y, w, sd)]
                     && r[Slot(g.away, y, w, sd)] == prev[Slot(g.away, y, w, sd)] {
        WeeksFoldFrame(prev, site, which, last, weeks, provider, Slot(g.home, y, w, sd));
        WeeksFoldFrame(prev, site, which, last, weeks, provider, Slot(g.away, y, w, sd));
      }
      SameBuckets(prev, r, g, y, w);
    }
  }
}
