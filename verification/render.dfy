/** The fixed-width table `League.__repr__` prints (nflstats.py:304-357). */
module Render {
  import opened Taxonomy
  import opened Games
  import opened Buckets
  import opened Numerals

  /** `c * n` */
  function Repeat(c: char, n: nat): (s: string)
    ensures |s| == n && forall i :: 0 <= i < n ==> s[i] == c
  {
    if n == 0 then "" else Repeat(c, n - 1) + [c]
  }

  /** `s.rjust(n)`: padded on the left with spaces to at least `n`
      characters; the text itself is kept whole, never truncated. */
  function Rjust(s: string, n: nat): (r: string)
    ensures |r| == if |s| >= n then |s| else n
    ensures r[|r| - |s|..] == s
    ensures forall i :: 0 <= i < |r| - |s| ==> r[i] == ' '
  {
    if |s| >= n then s else Repeat(' ', n - |s|) + s
  }

  /** `' '.join(cells)` */
  function JoinSp(cells: seq<string>): string {
    if |cells| == 0 then ""
    else if |cells| == 1 then cells[0]
    else cells[0] + " " + JoinSp(cells[1..])
  }

  /** Joined cells of width exactly `w` take `n * (w + 1) - 1` characters. */
  lemma {:induction false} JoinSpExact(cells: seq<string>, w: nat)
    requires |cells| >= 1 && forall i :: 0 <= i < |cells| ==> |cells[i]| == w
    ensures |JoinSp(cells)| == |cells| * (w + 1) - 1
  {
    if |cells| > 1 {
      JoinSpExact(cells[1..], w);
    }
  }

  /** Joined cells of width at least `w` take at least `n * (w + 1) - 1` characters. */
  lemma {:induction false} JoinSpAtLeast(cells: seq<string>, w: nat)
    requires |cells| >= 1 && forall i :: 0 <= i < |cells| ==> |cells[i]| >= w
    ensures |JoinSp(cells)| >= |cells| * (w + 1) - 1
  {
    if |cells| > 1 {
      JoinSpAtLeast(cells[1..], w);
    }
  }

  /** `which_stats`: the rate columns or the gross columns. */
  function Columns(rate: bool): (ks: seq<Key>)
    ensures |ks| > 0 && forall i :: 0 <= i < |ks| ==> ks[i] in AllStats || ks[i] in RateStats
  {
    if rate then RateStats else AllStats
  }

  /** The dashed rule under the header and after each year. */
  function Divider(rate: bool): (s: string)
    ensures |s| == (|Columns(rate)| * 2 + 5) * 7
    ensures forall i :: 0 <= i < |s| ==> s[i] == '-'
  {
    Repeat('-', (|Columns(rate)| * 2 + 5) * 7)
  }

  /** A table cell: `rjust(6)`, so at least six characters, exactly six for
      short text. */
  function Cell(s: string): (r: string)
    ensures |r| >= 6 && (|s| <= 6 ==> |r| == 6)
  {
    Rjust(s, 6)
  }

  function LabelCells(rate: bool): (r: seq<string>)
    ensures |r| == |Columns(rate)| && forall i :: 0 <= i < |r| ==> |r[i]| == 6
  {
    var ks := Columns(rate);
    seq(|ks|, i requires 0 <= i < |ks| => Cell(Label(ks[i])))
  }

  function HeaderLine(rate: bool): string {
    Cell("team") + Cell("year") + Cell("week")
    + " " + JoinSp(LabelCells(rate))
    + Cell("Pts") + Cell("oPts") + Cell("OPP")
    + JoinSp(LabelCells(rate))
  }

  /** `str(bucket[key])` for each column, through the number printer `show`. */
  function ValueCells(b: Bucket, ks: seq<Key>, show: real -> string): (r: seq<string>)
    ensures |r| == |ks| && forall i :: 0 <= i < |r| ==> |r[i]| >= 6
  {
    if |ks| == 0 then [] else [Cell(show(Get(b, ks[0])))] + ValueCells(b, ks[1..], show)
  }

  /** `str(bucket['OPP'])`; an unset label reads as the default 0. */
  function OppText(b: Bucket): string {
    if b.opp.Some? then b.opp.value else "0"
  }

  /** The key of the two points columns: `ppg` in cumulative rate tables,
      `pts` otherwise. */
  function PointsKey(rate: bool, cum: bool): Key {
    if rate && cum then Ppg else Pts
  }

  function RowLine(code: Team, year: int, week: int, mine: Bucket, theirs: Bucket,
                   rate: bool, cum: bool, show: real -> string): string
  {
    Cell(code) + Cell(IntStr(year)) + Cell(IntStr(week))
    + " " + JoinSp(ValueCells(mine, Columns(rate), show))
    + Cell(show(Get(mine, PointsKey(rate, cum)))) + Cell(show(Get(theirs, PointsKey(rate, cum))))
    + Cell(OppText(mine))
    + JoinSp(ValueCells(theirs, Columns(rate), show))
  }

  /** has_stats: the team threw at least one pass that week. */
  predicate HasStats(st: Store, code: Team, year: int, week: int)
    requires Slot(code, year, week, Own) in st
  {
    Get(st[Slot(code, year, week, Own)], PassingAtt) > 0.0
  }

  function Mine(cum: bool): Side {
    if cum then OwnTotal else Own
  }

  function Theirs(cum: bool): Side {
    if cum then OppTotal else Opp
  }

  /** The row of one (team, year, week). */
  function Row(st: Store, code: Team, year: int, week: int, rate: bool, cum: bool, show: real -> string): string
    requires forall sd :: Slot(code, year, week, sd) in st
  {
    RowLine(code, year, week, st[Slot(code, year, week, Mine(cum))], st[Slot(code, year, week, Theirs(cum))],
            rate, cum, show)
  }

  /** The rows of one year: the selected weeks that have stats, in order. */
  function WeekRows(st: Store, code: Team, year: int, weeks: seq<int>, rate: bool, cum: bool,
                    show: real -> string): seq<string>
    requires forall w, sd :: w in weeks ==> Slot(code, year, w, sd) in st
  {
    if |weeks| == 0 then []
    else
      var w := weeks[|weeks| - 1];
      WeekRows(st, code, year, weeks[..|weeks| - 1], rate, cum, show)
      + (if HasStats(st, code, year, w) then [Row(st, code, year, w, rate, cum, show)] else [])
  }

  /** Each year's rows followed by a divider. */
  function YearBlocks(st: Store, code: Team, years: seq<int>, weeks: seq<int>, rate: bool, cum: bool,
                      show: real -> string): seq<string>
    requires Covers(st, {code}, years, weeks)
  {
    if |years| == 0 then []
    else
      YearBlocks(st, code, years[..|years| - 1], weeks, rate, cum, show)
      + WeekRows(st, code, years[|years| - 1], weeks, rate, cum, show) + [Divider(rate)]
  }

  lemma WeekRowsStep(st: Store, code: Team, year: int, weeks: seq<int>, k: nat, rate: bool, cum: bool,
                     show: real -> string)
    requires forall w, sd :: w in weeks ==> Slot(code, year, w, sd) in st
    requires k < |weeks|
    ensures forall w, sd :: w in weeks[..k + 1] ==> Slot(code, year, w, sd) in st
    ensures WeekRows(st, code, year, weeks[..k + 1], rate, cum, show)
      == WeekRows(st, code, year, weeks[..k], rate, cum, show)
         + (if HasStats(st, code, year, weeks[k]) then [Row(st, code, year, weeks[k], rate, cum, show)] else [])
  {
    assert weeks[..k + 1][..k] == weeks[..k];
  }

  lemma YearBlocksStep(st: Store, code: Team, years: seq<int>, weeks: seq<int>, j: nat, rate: bool, cum: bool,
                       show: real -> string)
    requires Covers(st, {code}, years, weeks) && j < |years|
    ensures Covers(st, {code}, years[..j], weeks) && Covers(st, {code}, years[..j + 1], weeks)
    ensures YearBlocks(st, code, years[..j + 1], weeks, rate, cum, show)
      == YearBlocks(st, code, years[..j], weeks, rate, cum, show)
         + WeekRows(st, code, years[j], weeks, rate, cum, show) + [Divider(rate)]
  {
    assert years[..j + 1][..j] == years[..j];
  }

  /** One team's section: its name, the header, a divider, the year blocks. */
  function SectionLines(st: Store, t: TeamInfo, years: seq<int>, weeks: seq<int>, rate: bool, cum: bool,
                        show: real -> string): seq<string>
    requires Covers(st, {t.code}, years, weeks)
  {
    [t.name, HeaderLine(rate), Divider(rate)] + YearBlocks(st, t.code, years, weeks, rate, cum, show)
  }

  /** The whole table: a section for each team of the roster that is selected. */
  function TableLines(st: Store, roster: seq<TeamInfo>, which: set<Team>, years: seq<int>, weeks: seq<int>,
                      rate: bool, cum: bool, show: real -> string): seq<string>
    requires Covers(st, which, years, weeks)
  {
    if |roster| == 0 then []
    else
      var t := roster[|roster| - 1];
      TableLines(st, roster[..|roster| - 1], which, years, weeks, rate, cum, show)
      + (if t.code in which then SectionLines(st, t, years, weeks, rate, cum, show) else [])
  }

  /** The lines, each ended by a newline. */
  function Unlines(ls: seq<string>): string {
    if |ls| == 0 then "" else Unlines(ls[..|ls| - 1]) + ls[|ls| - 1] + "\n"
  }

  lemma UnlinesSnoc(ls: seq<string>, l: string)
    ensures Unlines(ls + [l]) == Unlines(ls) + l + "\n"
  {
    assert (ls + [l])[..|ls|] == ls;
  }

  lemma UnlinesGrow(a: seq<string>, b: seq<string>, l: string)
    ensures Unlines(a + (b + [l])) == Unlines(a + b) + l + "\n"
  {
    assert a + (b + [l]) == (a + b) + [l];
    UnlinesSnoc(a + b, l);
  }

  lemma UnlinesGrow3(a: seq<string>, b: seq<string>, c: seq<string>, l: string)
    ensures Unlines(a + (b + c + [l])) == Unlines(a + b + c) + l + "\n"
  {
    assert a + (b + c + [l]) == (a + b + c) + [l];
    UnlinesSnoc(a + b + c, l);
  }

  lemma AppendAssoc(a: seq<string>, b: seq<string>, c: seq<string>)
    ensures a + b + c == a + (b + c)
  {
  }

  lemma UnlinesThree(a: seq<string>, x: string, y: string, z: string)
    ensures Unlines(a + [x, y, z]) == Unlines(a) + x + "\n" + y + "\n" + z + "\n"
  {
    UnlinesSnoc(a, x);
    UnlinesSnoc(a + [x], y);
    assert a + [x] + [y] == a + [x, y];
    UnlinesSnoc(a + [x, y], z);
    assert a + [x, y] + [z] == a + [x, y, z];
  }

  lemma {:induction false} UnlinesAppend(a: seq<string>, b: seq<string>)
    ensures Unlines(a + b) == Unlines(a) + Unlines(b)
    decreases |b|
  {
    if |b| > 0 {
      var n := |b|;
      assert (a + b)[..|a + b| - 1] == a + b[..n - 1];
      UnlinesAppend(a, b[..n - 1]);
    } else {
      assert a + b == a;
    }
  }

  /** The header is exactly as wide as the divider: `(2n + 5) * 7` characters
      for `n` columns. */
  lemma HeaderWidth(rate: bool)
    ensures |HeaderLine(rate)| == |Divider(rate)| == (|Columns(rate)| * 2 + 5) * 7
  {
    JoinSpExact(LabelCells(rate), 6);
  }

  /** A data row is at least as wide as the divider; wider only where a cell's
      text exceeds six characters. */
  lemma RowWidth(code: Team, year: int, week: int, mine: Bucket, theirs: Bucket,
                 rate: bool, cum: bool, show: real -> string)
    ensures |RowLine(code, year, week, mine, theirs, rate, cum, show)| >= |Divider(rate)|
  {
    var own, opp := ValueCells(mine, Columns(rate), show), ValueCells(theirs, Columns(rate), show);
    JoinSpAtLeast(own, 6);
    JoinSpAtLeast(opp, 6);
  }

  /** A year's rows are exactly the rows of the selected weeks with stats. */
  lemma {:induction false} WeekRowsMeaning(st: Store, code: Team, year: int, weeks: seq<int>, rate: bool, cum: bool,
                                           show: real -> string)
    requires forall w, sd :: w in weeks ==> Slot(code, year, w, sd) in st
    ensures forall l :: l in WeekRows(st, code, year, weeks, rate, cum, show) ==>
              exists w :: w in weeks && HasStats(st, code, year, w) && l == Row(st, code, year, w, rate, cum, show)
    ensures forall w :: w in weeks && HasStats(st, code, year, w) ==>
              Row(st, code, year, w, rate, cum, show) in WeekRows(st, code, year, weeks, rate, cum, show)
    ensures |WeekRows(st, code, year, weeks, rate, cum, show)| <= |weeks|
  {
    if |weeks| > 0 {
      var pre := weeks[..|weeks| - 1];
      WeekRowsMeaning(st, code, year, pre, rate, cum, show);
      assert forall w :: w in weeks ==> w in pre || w == weeks[|weeks| - 1];
    }
  }

  /** Every line after a section's name line is at least as wide as the divider. */
  lemma {:induction false} YearBlocksWidth(st: Store, code: Team, years: seq<int>, weeks: seq<int>, rate: bool,
                                           cum: bool, show: real -> string)
    requires Covers(st, {code}, years, weeks)
    ensures forall l :: l in YearBlocks(st, code, years, weeks, rate, cum, show) ==> |l| >= |Divider(rate)|
  {
    if |years| > 0 {
      var y := years[|years| - 1];
      YearBlocksWidth(st, code, years[..|years| - 1], weeks, rate, cum, show);
      WeekRowsMeaning(st, code, y, weeks, rate, cum, show);
      forall l | l in WeekRows(st, code, y, weeks, rate, cum, show) ensures |l| >= |Divider(rate)| {
        var w :| w in weeks && HasStats(st, code, y, w) && l == Row(st, code, y, w, rate, cum, show);
        RowWidth(code, y, w, st[Slot(code, y, w, Mine(cum))], st[Slot(code, y, w, Theirs(cum))], rate, cum, show);
      }
    }
  }

  /** Every selected team of the roster gets its name, the header and a
      divider, whether or not it has rows. */
  lemma {:induction false} SelectedTeamsHeaded(st: Store, roster: seq<TeamInfo>, which: set<Team>, years: seq<int>,
                                               weeks: seq<int>, rate: bool, cum: bool, show: real -> string)
    requires Covers(st, which, years, weeks)
    ensures AllHeaded(TableLines(st, roster, which, years, weeks, rate, cum, show), roster, which, rate)
  {
    if |roster| > 0 {
      var pre := roster[..|roster| - 1];
      var last := roster[|roster| - 1];
      SelectedTeamsHeaded(st, pre, which, years, weeks, rate, cum, show);
      var before := TableLines(st, pre, which, years, weeks, rate, cum, show);
      var extra := TableSnoc(st, roster, which, years, weeks, rate, cum, show);
      assert roster == pre + [last];
      HeadedSnoc(before, extra, pre, last, which, rate);
    }
  }

  /** The table of a roster is the table of all but its last team followed by
      that team's section when it is selected. */
  lemma TableSnoc(st: Store, roster: seq<TeamInfo>, which: set<Team>, years: seq<int>, weeks: seq<int>,
                  rate: bool, cum: bool, show: real -> string) returns (extra: seq<string>)
    requires Covers(st, which, years, weeks) && |roster| > 0
    ensures var last := roster[|roster| - 1];
            && TableLines(st, roster, which, years, weeks, rate, cum, show)
               == TableLines(st, roster[..|roster| - 1], which, years, weeks, rate, cum, show) + extra
            && (last.code in which ==> |extra| >= 3 && extra[0] == last.name && extra[1] == HeaderLine(rate)
                                       && extra[2] == Divider(rate))
  {
    var last := roster[|roster| - 1];
    if last.code in which {
      CoversOne(st, which, years, weeks, last.code);
    }
    extra := if last.code in which then SectionLines(st, last, years, weeks, rate, cum, show) else [];
  }

  /** Appending the next team's lines keeps every earlier heading and adds its own when it is selected. */
  lemma HeadedSnoc(before: seq<string>, extra: seq<string>, pre: seq<TeamInfo>, last: TeamInfo, which: set<Team>,
                   rate: bool)
    requires AllHeaded(before, pre, which, rate)
    requires last.code in which ==> |extra| >= 3 && extra[0] == last.name && extra[1] == HeaderLine(rate)
                                    && extra[2] == Divider(rate)
    ensures AllHeaded(before + extra, pre + [last], which, rate)
  {
    forall t | t in pre + [last] && t.code in which ensures Headed(before + extra, t.name, rate) {
      if t in pre {
        HeadedExtends(before, extra, t.name, rate);
      } else {
        HeadedAt(before, extra, t.name, rate);
      }
    }
  }

  /** The four buckets of one selected team. */
  lemma CoversOne(st: Store, which: set<Team>, years: seq<int>, weeks: seq<int>, code: Team)
    requires Covers(st, which, years, weeks) && code in which
    ensures Covers(st, {code}, years, weeks)
  {
  }

  /** Every selected team of `roster` has its heading in `ls`. */
  ghost predicate AllHeaded(ls: seq<string>, roster: seq<TeamInfo>, which: set<Team>, rate: bool) {
    forall t :: t in roster && t.code in which ==> Headed(ls, t.name, rate)
  }

  /** `ls` holds the name line `name` followed by the header and a divider. */
  ghost predicate Headed(ls: seq<string>, name: string, rate: bool) {
    exists i :: 0 <= i && i + 2 < |ls| && ls[i] == name && ls[i + 1] == HeaderLine(rate) && ls[i + 2] == Divider(rate)
  }

  lemma HeadedExtends(a: seq<string>, b: seq<string>, name: string, rate: bool)
    requires Headed(a, name, rate)
    ensures Headed(a + b, name, rate)
  {
    var i :| 0 <= i && i + 2 < |a| && a[i] == name && a[i + 1] == HeaderLine(rate) && a[i + 2] == Divider(rate);
    assert (a + b)[i] == a[i] && (a + b)[i + 1] == a[i + 1] && (a + b)[i + 2] == a[i + 2];
  }

  lemma HeadedAt(a: seq<string>, b: seq<string>, name: string, rate: bool)
    requires |b| >= 3 && b[0] == name && b[1] == HeaderLine(rate) && b[2] == Divider(rate)
    ensures Headed(a + b, name, rate)
  {
    var i := |a|;
    assert (a + b)[i] == b[0] && (a + b)[i + 1] == b[1] && (a + b)[i + 2] == b[2];
  }
}
