/** What the game-data provider hands the engine: games with their final
    scores and the per-player statistic lines of each category. */
module Games {
  import opened Taxonomy

  /** A team's short code, e.g. "IND". */
  type Team = string

  /** An entry of the provider's team list: the code and the full name. */
  datatype TeamInfo = TeamInfo(code: Team, name: string)

  /** A player's line in `game.players.passing()`. */
  datatype Passer = Passer(team: Team, cmp: int, att: int, yds: int, tds: int, ints: int)

  /** A player's line in `game.players.rushing()`. */
  datatype Rusher = Rusher(team: Team, att: int, yds: int, tds: int)

  /** A player's line in `game.players.defense()`; sacks may be split (0.5). */
  datatype Defender = Defender(team: Team, sk: real)

  datatype Game = Game(
    home: Team, away: Team, scoreHome: int, scoreAway: int,
    passing: seq<Passer>, rushing: seq<Rusher>, defense: seq<Defender>)

  /** `game.away if game.home == team else game.home` */
  function Opponent(g: Game, team: Team): Team {
    if g.home == team then g.away else g.home
  }

  /** One player's numbers in one category, keyed as in the buckets: the
      fixed-field form of `player.__dict__[stat]`. */
  datatype Line = Line(team: Team, vals: map<Key, real>)

  function Val(l: Line, k: Key): real {
    if k in l.vals then l.vals[k] else 0.0
  }

  function PasserLine(p: Passer): Line {
    Line(p.team, map[PassingCmp := p.cmp as real, PassingAtt := p.att as real,
                     PassingYds := p.yds as real, PassingTds := p.tds as real,
                     PassingInts := p.ints as real])
  }

  function RusherLine(r: Rusher): Line {
    Line(r.team, map[RushingAtt := r.att as real, RushingYds := r.yds as real,
                     RushingTds := r.tds as real])
  }

  /** `float(player.__dict__['defense_sk'])` */
  function DefenderLine(d: Defender): Line {
    Line(d.team, map[DefenseSk := d.sk])
  }

  function PassingLines(ps: seq<Passer>): (r: seq<Line>)
    ensures |r| == |ps|
    ensures forall i :: 0 <= i < |ps| ==> r[i] == PasserLine(ps[i])
  {
    if ps == [] then [] else PassingLines(ps[..|ps| - 1]) + [PasserLine(ps[|ps| - 1])]
  }

  function RushingLines(rs: seq<Rusher>): (r: seq<Line>)
    ensures |r| == |rs|
    ensures forall i :: 0 <= i < |rs| ==> r[i] == RusherLine(rs[i])
  {
    if rs == [] then [] else RushingLines(rs[..|rs| - 1]) + [RusherLine(rs[|rs| - 1])]
  }

  function DefenseLines(ds: seq<Defender>): (r: seq<Line>)
    ensures |r| == |ds|
    ensures forall i :: 0 <= i < |ds| ==> r[i] == DefenderLine(ds[i])
  {
    if ds == [] then [] else DefenseLines(ds[..|ds| - 1]) + [DefenderLine(ds[|ds| - 1])]
  }

  /** The sum of `k` over the lines of players of team `t`. */
  function TeamTotal(lines: seq<Line>, t: Team, k: Key): real {
    if lines == [] then 0.0
    else
      var l := lines[|lines| - 1];
      TeamTotal(lines[..|lines| - 1], t, k) + (if l.team == t then Val(l, k) else 0.0)
  }

  /** Every player line of the game belongs to one of its two teams. */
  predicate TwoTeamGame(g: Game) {
    && g.home != g.away
    && (forall p :: p in g.passing ==> p.team == g.home || p.team == g.away)
    && (forall r :: r in g.rushing ==> r.team == g.home || r.team == g.away)
    && (forall d :: d in g.defense ==> d.team == g.home || d.team == g.away)
  }
}
