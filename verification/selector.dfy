/** parse_seq (nflstats.py:377-405): the command-line selectors for years,
    weeks, teams and sites. */
module Selector {
  import opened Wrappers
  import opened Numerals
  import opened Taxonomy

  /** An element of a selection: a year or week number, or a team or site name. */
  datatype Item = Num(n: int) | Word(w: string)

  /** The two exceptions parse_seq lets escape. */
  datatype ParseError = AssertionError | ValueError

  /** `str.split(sep)`: always at least one piece, none containing `sep`. */
  function Split(s: string, sep: char): (r: seq<string>)
    ensures |r| >= 1
    ensures forall i :: 0 <= i < |r| ==> sep !in r[i]
  {
    if |s| == 0 then [""]
    else
      var rest := Split(s[1..], sep);
      if s[0] == sep then [""] + rest
      else [[s[0]] + rest[0]] + rest[1..]
  }

  /** `sep.join(ps)` */
  function Join(ps: seq<string>, sep: char): string
    requires |ps| >= 1
  {
    if |ps| == 1 then ps[0] else ps[0] + [sep] + Join(ps[1..], sep)
  }

  function Count(s: string, c: char): nat {
    if |s| == 0 then 0 else (if s[0] == c then 1 else 0) + Count(s[1..], c)
  }

  /** Splitting yields one more piece than there are separators. */
  lemma {:induction false} SplitCount(s: string, sep: char)
    ensures |Split(s, sep)| == Count(s, sep) + 1
  {
    if |s| > 0 {
      SplitCount(s[1..], sep);
    }
  }

  /** Joining the pieces back gives the original string. */
  lemma {:induction false} JoinSplit(s: string, sep: char)
    ensures Join(Split(s, sep), sep) == s
  {
    if |s| > 0 {
      JoinSplit(s[1..], sep);
      var rest := Split(s[1..], sep);
      if s[0] != sep && |rest| > 1 {
        assert rest[1..][0] == rest[1];
        assert Join(rest, sep) == rest[0] + [sep] + Join(rest[1..], sep);
      }
    }
  }

  lemma {:induction false} SplitSeparated(a: string, b: string, sep: char)
    requires sep !in a
    ensures Split(a + [sep] + b, sep) == [a] + Split(b, sep)
  {
    if |a| > 0 {
      SplitSeparated(a[1..], b, sep);
      assert (a + [sep] + b)[1..] == a[1..] + [sep] + b;
      assert [a[0]] + a[1..] == a;
    } else {
      assert (a + [sep] + b)[1..] == b;
    }
  }

  /** Splitting a join of separator-free pieces gives the pieces back. */
  lemma {:induction false} SplitJoin(ps: seq<string>, sep: char)
    requires |ps| >= 1
    requires forall i :: 0 <= i < |ps| ==> sep !in ps[i]
    ensures Split(Join(ps, sep), sep) == ps
  {
    if |ps| == 1 {
      NoSeparator(ps[0], sep);
    } else {
      SplitJoin(ps[1..], sep);
      SplitSeparated(ps[0], Join(ps[1..], sep), sep);
    }
  }

  lemma {:induction false} NoSeparator(s: string, sep: char)
    requires sep !in s
    ensures Split(s, sep) == [s]
  {
    if |s| > 0 {
      NoSeparator(s[1..], sep);
      assert [s[0]] + s[1..] == s;
    }
  }

  /** The characters Python's `str.strip()` removes. */
  predicate IsSpace(c: char) {
    c == ' ' || c == '\t' || c == '\n' || c == '\r' || c as int == 11 || c as int == 12
  }

  function TrimLeft(s: string): (r: string)
    ensures |r| <= |s|
  {
    if |s| > 0 && IsSpace(s[0]) then TrimLeft(s[1..]) else s
  }

  function TrimRight(s: string): (r: string)
    ensures |r| <= |s|
  {
    if |s| > 0 && IsSpace(s[|s| - 1]) then TrimRight(s[..|s| - 1]) else s
  }

  function Strip(s: string): string {
    TrimLeft(TrimRight(s))
  }

  /** Python's `int(s)` on a string: surrounding whitespace, an optional
      sign, then one or more decimal digits; anything else is a ValueError,
      here `None`. */
  function ParseInt(s: string): Option<int> {
    var t := Strip(s);
    var neg := |t| > 0 && t[0] == '-';
    var d := if |t| > 0 && (t[0] == '+' || t[0] == '-') then t[1..] else t;
    if |d| > 0 && AllDigits(d) then Some(if neg then -(DigitsValue(d) as int) else DigitsValue(d)) else None
  }

  /** `int(str(n))` is `n`. */
  lemma ParseIntNatStr(n: nat)
    ensures ParseInt(NatStr(n)) == Some(n)
  {
    var s := NatStr(n);
    assert !IsSpace(s[|s| - 1]) && !IsSpace(s[0]);
    assert TrimRight(s) == s;
    assert TrimLeft(s) == s;
    NatStrValue(n);
  }

  /** `range(lo, hi)` as items. */
  function Range(lo: int, hi: int): (r: seq<Item>)
    ensures |r| == if hi <= lo then 0 else hi - lo
    ensures forall i :: 0 <= i < |r| ==> r[i] == Num(lo + i)
    decreases hi - lo
  {
    if hi <= lo then [] else Range(lo, hi - 1) + [Num(hi - 1)]
  }

  /** What one comma-separated token contributes to the selection. */
  function Token(tok: string, integer: bool): Result<seq<Item>, ParseError> {
    var hy := Split(tok, '-');
    if !(|hy| < 3 && !(|hy| > 1 && !integer)) then Err(AssertionError)
    else if |hy| == 1 then
      if integer then
        match ParseInt(hy[0])
        case None => Err(ValueError)
        case Some(n) => Ok([Num(n)])
      else Ok([Word(hy[0])])
    else
      match ParseInt(hy[0])
      case None => Err(ValueError)
      case Some(a) =>
        match ParseInt(hy[1])
        case None => Err(ValueError)
        case Some(b) => Ok(Range(a, b + 1))
  }

  /** The tokens expanded left to right; the first failing token's
      exception escapes. */
  function Expand(toks: seq<string>, integer: bool): Result<seq<Item>, ParseError> {
    if |toks| == 0 then Ok([])
    else
      match Expand(toks[..|toks| - 1], integer)
      case Err(e) => Err(e)
      case Ok(acc) =>
        match Token(toks[|toks| - 1], integer)
        case Err(e) => Err(e)
        case Ok(items) => Ok(acc + items)
  }

  /** `list(set(xs))`: each element once; the model keeps the first
      occurrence's position. */
  function Dedupe(xs: seq<Item>): (r: seq<Item>)
    ensures Distinct(r)
    ensures forall x :: x in r <==> x in xs
  {
    if |xs| == 0 then []
    else
      var d := Dedupe(xs[..|xs| - 1]);
      if xs[|xs| - 1] in d then d else d + [xs[|xs| - 1]]
  }

  /** parse_seq's result: the default for an absent or empty argument or
      when any element is not acceptable, otherwise the distinct elements. */
  function Parsed(arg: Option<string>, default: seq<Item>, acceptable: seq<Item>,
                  integer: bool): Result<seq<Item>, ParseError>
  {
    if arg.None? || arg.value == "" then Ok(default)
    else
      match Expand(Split(arg.value, ','), integer)
      case Err(e) => Err(e)
      case Ok(items) =>
        if forall x :: x in items ==> x in acceptable then Ok(Dedupe(items)) else Ok(default)
  }

  /** Once a prefix of the tokens fails, the whole expansion fails the same way. */
  lemma {:induction false} ExpandPrefixErr(toks: seq<string>, j: nat, integer: bool)
    requires j <= |toks| && Expand(toks[..j], integer).Err?
    ensures Expand(toks, integer) == Expand(toks[..j], integer)
    decreases |toks| - j
  {
    if j < |toks| {
      var n := |toks|;
      assert toks[..n - 1][..j] == toks[..j];
      ExpandPrefixErr(toks[..n - 1], j, integer);
    } else {
      assert toks[..j] == toks;
    }
  }

  /** The expansion fails exactly when some token fails, and otherwise
      holds exactly the items the tokens contribute. */
  lemma {:induction false} ExpandMeaning(toks: seq<string>, integer: bool)
    ensures Expand(toks, integer).Err? <==> exists i :: 0 <= i < |toks| && Token(toks[i], integer).Err?
    ensures Expand(toks, integer).Ok? ==>
              forall x :: x in Expand(toks, integer).value <==>
                exists i :: 0 <= i < |toks| && Token(toks[i], integer).Ok? && x in Token(toks[i], integer).value
  {
    if |toks| > 0 {
      var n := |toks|;
      var pre := toks[..n - 1];
      ExpandMeaning(pre, integer);
      var ep, last := Expand(pre, integer), Token(toks[n - 1], integer);
      assert forall i :: 0 <= i < n - 1 ==> pre[i] == toks[i];
      if ep.Err? {
        assert Expand(toks, integer) == ep;
        var i :| 0 <= i < |pre| && Token(pre[i], integer).Err?;
        assert Token(toks[i], integer).Err?;
      } else if last.Err? {
        assert Expand(toks, integer) == last;
      } else {
        assert Expand(toks, integer) == Ok(ep.value + last.value);
        ExpandItems(toks, integer, ep.value, last.value);
      }
    }
  }

  /** The items of an expansion whose last token succeeds, given the
      meaning of the shorter expansion. */
  lemma ExpandItems(toks: seq<string>, integer: bool, acc: seq<Item>, items: seq<Item>)
    requires |toks| > 0 && Token(toks[|toks| - 1], integer) == Ok(items)
    requires forall i :: 0 <= i < |toks| - 1 ==> Token(toks[i], integer).Ok?
    requires forall x :: x in acc <==>
               exists i :: 0 <= i < |toks| - 1 && Token(toks[i], integer).Ok? && x in Token(toks[i], integer).value
    ensures forall i :: 0 <= i < |toks| ==> Token(toks[i], integer).Ok?
    ensures forall x :: x in acc + items <==>
              exists i :: 0 <= i < |toks| && Token(toks[i], integer).Ok? && x in Token(toks[i], integer).value
  {
    var n := |toks|;
    forall x | x in acc + items
      ensures exists i :: 0 <= i < n && Token(toks[i], integer).Ok? && x in Token(toks[i], integer).value
    {
      if x !in acc {
        assert x in Token(toks[n - 1], integer).value;
      }
    }
  }

  /** Two or more hyphens in a token, or any hyphen when the selection is of
      names, fail the assertion. */
  lemma HyphensRejected(tok: string, integer: bool)
    requires Count(tok, '-') >= 2 || (!integer && Count(tok, '-') >= 1)
    ensures Token(tok, integer) == Err(AssertionError)
  {
    SplitCount(tok, '-');
  }

  /** `a-b` selects exactly the numbers from a to b, none when a > b. */
  lemma RangeToken(a: nat, b: nat)
    ensures Token(NatStr(a) + "-" + NatStr(b), true) == Ok(Range(a, b + 1))
    ensures forall x :: x in Token(NatStr(a) + "-" + NatStr(b), true).value <==>
                        exists i :: a <= i <= b && x == Num(i)
  {
    RangeSplit(a, b);
    ParseIntNatStr(a);
    ParseIntNatStr(b);
    RangeMembers(a, b + 1);
  }

  /** Cutting `a-b` at its hyphen gives back the two numerals. */
  lemma RangeSplit(a: nat, b: nat)
    ensures Split(NatStr(a) + "-" + NatStr(b), '-') == [NatStr(a), NatStr(b)]
  {
    var ps := [NatStr(a), NatStr(b)];
    assert Join(ps, '-') == NatStr(a) + "-" + NatStr(b) by {
      assert Join(ps[1..], '-') == NatStr(b);
    }
    assert forall i :: 0 <= i < |ps| ==> '-' !in ps[i] by {
      assert forall c :: c in NatStr(a) ==> IsDigit(c);
      assert forall c :: c in NatStr(b) ==> IsDigit(c);
    }
    SplitJoin(ps, '-');
  }

  /** The numbers `range(lo, hi)` yields are exactly those from lo up to but excluding hi. */
  lemma RangeMembers(lo: int, hi: int)
    ensures forall x :: x in Range(lo, hi) <==> exists i :: lo <= i < hi && x == Num(i)
  {
    var r := Range(lo, hi);
    forall x ensures x in r <==> exists i :: lo <= i < hi && x == Num(i) {
      if x in r {
        var k :| 0 <= k < |r| && r[k] == x;
        assert lo <= lo + k < hi;
      }
      if exists i :: lo <= i < hi && x == Num(i) {
        var i :| lo <= i < hi && x == Num(i);
        assert r[i - lo] == x;
      }
    }
  }

  /** A single number selects itself. */
  lemma NumberToken(n: nat)
    ensures Token(NatStr(n), true) == Ok([Num(n)])
  {
    assert forall c :: c in NatStr(n) ==> IsDigit(c);
    NoSeparator(NatStr(n), '-');
    ParseIntNatStr(n);
  }

  /** A hyphen-free name selects itself. */
  lemma NameToken(w: string)
    requires '-' !in w
    ensures Token(w, false) == Ok([Word(w)])
  {
    NoSeparator(w, '-');
  }

  /** Whatever parse_seq returns is the default or a duplicate-free list of
      acceptable elements; an absent or empty argument gives the default. */
  lemma ParsedWellFormed(arg: Option<string>, default: seq<Item>, acceptable: seq<Item>, integer: bool)
    ensures arg.None? || arg == Some("") ==> Parsed(arg, default, acceptable, integer) == Ok(default)
    ensures Parsed(arg, default, acceptable, integer).Ok? ==>
              var v := Parsed(arg, default, acceptable, integer).value;
              v == default ||
              ((forall x :: x in v ==> x in acceptable) && Distinct(v))
  {
  }

  /** When every element is acceptable, parse_seq selects exactly the
      elements the tokens name, each once. */
  lemma ParsedSelects(s: string, default: seq<Item>, acceptable: seq<Item>, integer: bool)
    requires s != "" && Expand(Split(s, ','), integer).Ok?
    requires forall x :: x in Expand(Split(s, ','), integer).value ==> x in acceptable
    ensures Parsed(Some(s), default, acceptable, integer).Ok?
    ensures var v := Parsed(Some(s), default, acceptable, integer).value;
            forall x :: x in v <==> exists i :: 0 <= i < |Split(s, ',')| && Token(Split(s, ',')[i], integer).Ok? &&
                                     x in Token(Split(s, ',')[i], integer).value
  {
    ExpandMeaning(Split(s, ','), integer);
  }

  /** The command-line defaults and acceptable values (nflstats.py:442-446). */
  const DefaultYears: seq<Item> := [Num(2013), Num(2014)]
  const AcceptableYears: seq<Item> :=
    [Num(2009), Num(2010), Num(2011), Num(2012), Num(2013), Num(2014), Num(2015)]
  const AllWeeks: seq<Item> :=
    [Num(1), Num(2), Num(3), Num(4), Num(5), Num(6), Num(7), Num(8), Num(9),
     Num(10), Num(11), Num(12), Num(13), Num(14), Num(15), Num(16), Num(17)]
  const AllSites: seq<Item> := [Word("home"), Word("away")]

  /** A duplicate-free list is its own deduplication. */
  lemma {:induction false} DedupeDistinct(xs: seq<Item>)
    requires Distinct(xs)
    ensures Dedupe(xs) == xs
  {
    if |xs| > 0 {
      var pre := xs[..|xs| - 1];
      DedupeDistinct(pre);
      assert xs[|xs| - 1] !in pre;
      assert pre + [xs[|xs| - 1]] == xs;
    }
  }

  lemma ExampleSplit()
    ensures Split("1,3-5,9", ',') == ["1", "3-5", "9"]
  {
    var toks := ["1", "3-5", "9"];
    assert Join(toks, ',') == "1,3-5,9";
    SplitJoin(toks, ',');
  }

  lemma SingleDigitToken(n: nat)
    requires n < 10
    ensures Token([DigitChar(n)], true) == Ok([Num(n)])
  {
    assert NatStr(n) == [DigitChar(n)];
    NumberToken(n);
  }

  lemma ExampleRange()
    ensures Token("3-5", true) == Ok([Num(3), Num(4), Num(5)])
  {
    assert NatStr(3) + "-" + NatStr(5) == "3-5";
    RangeToken(3, 5);
    assert Range(3, 6) == [Num(3), Num(4), Num(5)];
  }

  lemma ExpandSnoc(toks: seq<string>, tok: string, integer: bool, acc: seq<Item>, items: seq<Item>)
    requires Expand(toks, integer) == Ok(acc) && Token(tok, integer) == Ok(items)
    ensures Expand(toks + [tok], integer) == Ok(acc + items)
  {
    assert (toks + [tok])[..|toks|] == toks;
  }

  /** Membership in a range is membership in the interval. */
  lemma InRange(lo: int, hi: int, x: Item)
    ensures x in Range(lo, hi) <==> x.Num? && lo <= x.n < hi
  {
    var r := Range(lo, hi);
    if x.Num? && lo <= x.n < hi {
      assert r[x.n - lo] == x;
    }
  }

  lemma ExampleExpansion()
    ensures Expand(["1", "3-5", "9"], true) == Ok([Num(1), Num(3), Num(4), Num(5), Num(9)])
  {
    SingleDigitToken(1);
    SingleDigitToken(9);
    ExampleRange();
    var t0: seq<string> := [];
    var e0: seq<Item> := [];
    var t1, t2, t3 := t0 + ["1"], t0 + ["1", "3-5"], t0 + ["1", "3-5", "9"];
    var e1, e2, e3 := e0 + [Num(1)], e0 + [Num(1), Num(3), Num(4), Num(5)], e0 + [Num(1), Num(3), Num(4), Num(5), Num(9)];
    assert Expand(t0, true) == Ok(e0);
    assert t0 + ["1"] == t1 && e0 + [Num(1)] == e1;
    ExpandSnoc(t0, "1", true, e0, [Num(1)]);
    assert t1 + ["3-5"] == t2 && e1 + [Num(3), Num(4), Num(5)] == e2;
    ExpandSnoc(t1, "3-5", true, e1, [Num(3), Num(4), Num(5)]);
    assert t2 + ["9"] == t3 && e2 + [Num(9)] == e3;
    ExpandSnoc(t2, "9", true, e2, [Num(9)]);
    assert t3 == ["1", "3-5", "9"] && e3 == [Num(1), Num(3), Num(4), Num(5), Num(9)];
  }

  lemma ExampleAcceptable()
    ensures forall x :: x in [Num(1), Num(3), Num(4), Num(5), Num(9)] ==> x in AllWeeks
  {
    var w := AllWeeks;
    assert w[0] == Num(1) && w[2] == Num(3) && w[3] == Num(4) && w[4] == Num(5) && w[8] == Num(9);
  }

  lemma ExampleDistinct()
    ensures Distinct([Num(1), Num(3), Num(4), Num(5), Num(9)])
  {
  }

  /** A selection whose elements are all acceptable and distinct comes back
      with exactly those elements, in the order the model's `Dedupe` keeps
      (first occurrences); the set order of `list(set(…))` is not modelled. */
  lemma ParsedVerbatim(s: string, default: seq<Item>, acceptable: seq<Item>, integer: bool, items: seq<Item>)
    requires s != "" && Expand(Split(s, ','), integer) == Ok(items)
    requires forall x :: x in items ==> x in acceptable
    requires Distinct(items)
    ensures Parsed(Some(s), default, acceptable, integer) == Ok(items)
  {
    DedupeDistinct(items);
  }

  /** The docstring's example: `'1,3-5,9'` selects weeks 1, 3, 4, 5 and 9. */
  lemma DocstringExample()
    ensures Parsed(Some("1,3-5,9"), AllWeeks, AllWeeks, true) == Ok([Num(1), Num(3), Num(4), Num(5), Num(9)])
  {
    var items := [Num(1), Num(3), Num(4), Num(5), Num(9)];
    assert Expand(Split("1,3-5,9", ','), true) == Ok(items) by {
      ExampleSplit();
      ExampleExpansion();
    }
    assert forall x :: x in items ==> x in AllWeeks by {
      ExampleAcceptable();
    }
    ExampleDistinct();
    ParsedVerbatim("1,3-5,9", AllWeeks, AllWeeks, true, items);
  }

  /** Week 0 is not acceptable, so `'0'` falls back to every week. */
  lemma ZeroWeekFallsBack()
    ensures Parsed(Some("0"), AllWeeks, AllWeeks, true) == Ok(AllWeeks)
  {
    ZeroExpands();
    assert Num(0) in [Num(0)] && Num(0) !in AllWeeks;
  }

  /** `'0'` expands to week 0 alone. */
  lemma ZeroExpands()
    ensures Expand(Split("0", ','), true) == Ok([Num(0)])
  {
    SingleDigitToken(0);
    NoSeparator("0", ',');
    var t0: seq<string> := [];
    var e0: seq<Item> := [];
    assert Expand(t0, true) == Ok(e0);
    ExpandSnoc(t0, "0", true, e0, [Num(0)]);
    assert t0 + ["0"] == ["0"] && e0 + [Num(0)] == [Num(0)];
  }

  /** One pass of parse_seq's token loop: the hyphen check, `int()` and the
      `range` loop. */
  method ExpandToken(tok: string, integer: bool) returns (r: Result<seq<Item>, ParseError>)
    ensures r == Token(tok, integer)
  {
    var hy := Split(tok, '-');
    if !(|hy| < 3 && !(|hy| > 1 && !integer)) {
      return Err(AssertionError);
    }
    if |hy| == 1 {
      if integer {
        var n := ParseInt(hy[0]);
        if n.None? {
          return Err(ValueError);
        }
        return Ok([Num(n.value)]);
      }
      return Ok([Word(hy[0])]);
    }
    var a := ParseInt(hy[0]);
    if a.None? {
      return Err(ValueError);
    }
    var b := ParseInt(hy[1]);
    if b.None? {
      return Err(ValueError);
    }
    var items: seq<Item> := [];
    var j := a.value;
    while j <= b.value
      invariant a.value <= j && (j <= b.value + 1 || j == a.value)
      invariant items == Range(a.value, j)
      decreases b.value - j
    {
      items := items + [Num(j)];
      j := j + 1;
    }
    assert Range(a.value, j) == Range(a.value, b.value + 1);
    return Ok(items);
  }

  /** parse_seq's token loop: every comma-separated token expanded in order,
      the first failure ending the parse. */
  method ExpandAll(toks: seq<string>, integer: bool) returns (r: Result<seq<Item>, ParseError>)
    ensures r == Expand(toks, integer)
  {
    var items: seq<Item> := [];
    var i := 0;
    while i < |toks|
      invariant 0 <= i <= |toks|
      invariant Expand(toks[..i], integer) == Ok(items)
    {
      assert toks[..i + 1][..i] == toks[..i];
      var more := ExpandToken(toks[i], integer);
      if more.Err? {
        ExpandPrefixErr(toks, i + 1, integer);
        return Err(more.error);
      }
      items := items + more.value;
      i := i + 1;
    }
    assert toks[..i] == toks;
    return Ok(items);
  }

  /** parse_seq's acceptance loop: does every selected element belong to `acceptable`? */
  method AllAcceptable(items: seq<Item>, acceptable: seq<Item>) returns (ok: bool)
    ensures ok <==> forall x :: x in items ==> x in acceptable
  {
    var k := 0;
    while k < |items|
      invariant 0 <= k <= |items|
      invariant forall m :: 0 <= m < k ==> items[m] in acceptable
    {
      if items[k] !in acceptable {
        assert items[k] in items;
        return false;
      }
      k := k + 1;
    }
    return true;
  }

  /** The selector the command line runs: parse_seq with its loops. */
  method ParseSeq(arg: Option<string>, default: seq<Item>, acceptable: seq<Item>, integer: bool)
    returns (r: Result<seq<Item>, ParseError>)
    ensures r == Parsed(arg, default, acceptable, integer)
  {
    if arg.None? || arg.value == "" {
      return Ok(default);
    }
    var e := ExpandAll(Split(arg.value, ','), integer);
    if e.Err? {
      return Err(e.error);
    }
    var ok := AllAcceptable(e.value, acceptable);
    if !ok {
      return Ok(default);
    }
    return Ok(Dedupe(e.value));
  }
}
