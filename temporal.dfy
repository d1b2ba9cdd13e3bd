/** The token walk of parse_text over a dependency-parsed sentence: the years, (year, month) pairs
    and quarter mentions it collects, with find_year and find_quarters, and the final call of
    find_interval. A token refers to its head and children by index into the token sequence. */
module Temporal {
  import opened Common
  import opened Interval

  /** A parsed token: `text`, `lemma_` (lemmaForm), `shape_`, `dep_`, and `head` / `children` as indices. */
  datatype Tok = Tok(text: string, lemmaForm: string, shape: string, dep: string, head: nat, children: seq<nat>)

  /** Every index in cs names a token. */
  predicate InRange(toks: seq<Tok>, cs: seq<nat>) {
    forall j :: 0 <= j < |cs| ==> cs[j] < |toks|
  }

  /** What the parser guarantees: heads and children are tokens of the sentence, a "dddd" token is
      made of digits (its length is not constrained) and a "dddd.d" / "dddd.dd" token is digits up
      to its period, so that int() succeeds. */
  predicate WfTokens(toks: seq<Tok>) {
    Linked(toks) && DigitShapes(toks)
  }

  /** Heads and children are tokens of the sentence. */
  predicate Linked(toks: seq<Tok>) {
    forall i :: 0 <= i < |toks| ==> toks[i].head < |toks| && InRange(toks, toks[i].children)
  }

  /** A "dddd" token is digits, and so is a "dddd.d" / "dddd.dd" token up to its period, so `int()`
      does not raise. */
  predicate DigitShapes(toks: seq<Tok>) {
    forall i :: 0 <= i < |toks| ==>
      && (toks[i].shape == "dddd" ==> IsDigits(toks[i].text))
      && (IsDecimalShape(toks[i].shape) ==> IsDigits(IntegerPart(toks[i].text)))
  }

  /** The decimal shapes whose integer part is read as a year. */
  predicate IsDecimalShape(shape: string) {
    shape == "dddd.d" || shape == "dddd.dd"
  }

  // ---------------------------------------------------------------- find_year

  /** get_year_from_child: a pobj or nummod child of shape "dddd" gives its value, one of shape
      "dddd.d" or "dddd.dd" the value before its period, anything else nothing. */
  function GetYearFromChild(t: Tok): (r: Option<int>)
    ensures r.Some? <==> (t.dep == "pobj" || t.dep == "nummod") && (t.shape == "dddd" || IsDecimalShape(t.shape))
    ensures r.Some? && t.shape == "dddd" ==> r.value == DigitsValue(t.text)
    ensures r.Some? && t.shape != "dddd" ==> r.value == DigitsValue(IntegerPart(t.text))
  {
    if t.dep == "pobj" || t.dep == "nummod" then
      if t.shape == "dddd" then Some(DigitsValue(t.text))
      else if IsDecimalShape(t.shape) then Some(DigitsValue(IntegerPart(t.text)))
      else None
    else None
  }

  /** `lemma_.lower() == "year" or lemma_.lower() in "fys"`: the grandchild names a year, so its own
      children are tested instead of it. */
  predicate YearWord(lemmaForm: string) {
    Lower(lemmaForm) == "year" || Contains("fys", Lower(lemmaForm))
  }

  /** The last value present in xs: the last assignment `year = temp` that happened. */
  function LastSome(xs: seq<Option<int>>): Option<int> {
    if xs == [] then None
    else if xs[|xs| - 1].Some? then xs[|xs| - 1]
    else LastSome(xs[..|xs| - 1])
  }

  lemma LastSomeSnoc(xs: seq<Option<int>>, x: Option<int>)
    ensures LastSome(xs + [x]) == if x.Some? then x else LastSome(xs)
  {
    assert (xs + [x])[..|xs|] == xs;
  }

  /** LastSome is None exactly when nothing is present, and otherwise the value at a position
      after which nothing is present. */
  lemma {:induction false} LastSomeIsLast(xs: seq<Option<int>>)
    ensures LastSome(xs).None? <==> forall i :: 0 <= i < |xs| ==> xs[i].None?
    ensures LastSome(xs).Some? ==>
      exists i :: 0 <= i < |xs| && xs[i] == LastSome(xs) && forall j :: i < j < |xs| ==> xs[j].None?
  {
    if xs != [] && xs[|xs| - 1].None? {
      var p := xs[..|xs| - 1];
      LastSomeIsLast(p);
      assert forall i :: 0 <= i < |p| ==> xs[i] == p[i];
      if LastSome(p).Some? {
        var i :| 0 <= i < |p| && p[i] == LastSome(p) && forall j :: i < j < |p| ==> p[j].None?;
        assert xs[i] == LastSome(xs) && forall j :: i < j < |xs| ==> xs[j].None?;
      }
    }
  }

  /** The values tested for the great-grandchildren cs under a year-word grandchild, in order. */
  function GreatCandidates(toks: seq<Tok>, cs: seq<nat>): seq<Option<int>>
    requires InRange(toks, cs)
  {
    if cs == [] then [] else GreatCandidates(toks, cs[..|cs| - 1]) + [GetYearFromChild(toks[cs[|cs| - 1]])]
  }

  /** The values tested below the grandchildren cs, in order. */
  function GrandCandidates(toks: seq<Tok>, cs: seq<nat>): seq<Option<int>>
    requires Linked(toks) && InRange(toks, cs)
  {
    if cs == [] then []
    else
      var c := toks[cs[|cs| - 1]];
      GrandCandidates(toks, cs[..|cs| - 1])
        + (if YearWord(c.lemmaForm) then GreatCandidates(toks, c.children) else [GetYearFromChild(c)])
  }

  /** The values tested below the children cs of the quarter token, in traversal order. */
  function YearCandidates(toks: seq<Tok>, cs: seq<nat>): seq<Option<int>>
    requires Linked(toks) && InRange(toks, cs)
  {
    if cs == [] then [] else YearCandidates(toks, cs[..|cs| - 1]) + GrandCandidates(toks, toks[cs[|cs| - 1]].children)
  }

  /** find_year's answer: the last value found, in traversal order. */
  function QuarterYear(toks: seq<Tok>, q: nat): Option<int>
    requires Linked(toks) && q < |toks|
  {
    LastSome(YearCandidates(toks, toks[q].children))
  }

  /** year after the values xs were tested in turn: the last one present, else year unchanged. */
  function Over(year: Option<int>, xs: seq<Option<int>>): Option<int> {
    if LastSome(xs).Some? then LastSome(xs) else year
  }

  lemma {:induction false} LastSomeAppend(xs: seq<Option<int>>, ys: seq<Option<int>>)
    ensures LastSome(xs + ys) == Over(LastSome(xs), ys)
    decreases |ys|
  {
    if ys != [] {
      var p := ys[..|ys| - 1];
      assert (xs + ys)[..|xs + ys| - 1] == xs + p;
      LastSomeAppend(xs, p);
    } else {
      assert xs + ys == xs;
    }
  }

  /** The innermost loop of find_year: the great-grandchildren under a year word. */
  method TestGreatGrandchildren(toks: seq<Tok>, cs: seq<nat>, year0: Option<int>) returns (year: Option<int>)
    requires InRange(toks, cs)
    ensures year == Over(year0, GreatCandidates(toks, cs))
  {
    year := year0;
    var k := 0;
    while k < |cs|
      invariant 0 <= k <= |cs|
      invariant year == Over(year0, GreatCandidates(toks, cs[..k]))
    {
      assert cs[..k + 1][..k] == cs[..k];
      var temp := GetYearFromChild(toks[cs[k]]);
      LastSomeSnoc(GreatCandidates(toks, cs[..k]), temp);
      if temp.Some? {
        year := temp;
      }
      k := k + 1;
    }
    assert cs[..k] == cs;
  }

  lemma GrandCandidatesSnoc(toks: seq<Tok>, cs: seq<nat>, j: nat)
    requires Linked(toks) && InRange(toks, cs) && j < |cs|
    ensures var c := toks[cs[j]];
      GrandCandidates(toks, cs[..j + 1]) == GrandCandidates(toks, cs[..j])
        + (if YearWord(c.lemmaForm) then GreatCandidates(toks, c.children) else [GetYearFromChild(c)])
  {
    assert cs[..j + 1][..j] == cs[..j];
  }

  /** The middle loop of find_year: the grandchildren under one child of the quarter token. */
  method TestGrandchildren(toks: seq<Tok>, cs: seq<nat>, year0: Option<int>) returns (year: Option<int>)
    requires Linked(toks) && InRange(toks, cs)
    ensures year == Over(year0, GrandCandidates(toks, cs))
  {
    year := year0;
    var j := 0;
    while j < |cs|
      invariant 0 <= j <= |cs|
      invariant year == Over(year0, GrandCandidates(toks, cs[..j]))
    {
      GrandCandidatesSnoc(toks, cs, j);
      ghost var xs := GrandCandidates(toks, cs[..j]);
      var child2 := toks[cs[j]];
      if YearWord(child2.lemmaForm) {
        ghost var ys := GreatCandidates(toks, child2.children);
        year := TestGreatGrandchildren(toks, child2.children, year);
        OverAppend(year0, xs, ys);
      } else {
        var temp := GetYearFromChild(child2);
        if temp.Some? {
          year := temp;
        }
        OverAppend(year0, xs, [temp]);
      }
      j := j + 1;
    }
    assert cs[..j] == cs;
  }

  /** find_year: three nested loops over children, grandchildren and, under a year word,
      great-grandchildren, each found value overwriting the previous one. */
  method FindYear(toks: seq<Tok>, q: nat) returns (year: Option<int>)
    requires Linked(toks) && q < |toks|
    ensures year == QuarterYear(toks, q)
  {
    year := None;
    var cs1 := toks[q].children;
    var i := 0;
    while i < |cs1|
      invariant 0 <= i <= |cs1|
      invariant year == LastSome(YearCandidates(toks, cs1[..i]))
    {
      assert cs1[..i + 1][..i] == cs1[..i];
      var cs2 := toks[cs1[i]].children;
      LastSomeAppend(YearCandidates(toks, cs1[..i]), GrandCandidates(toks, cs2));
      year := TestGrandchildren(toks, cs2, year);
      i := i + 1;
    }
    assert cs1[..i] == cs1;
  }

  /** Testing xs and then ys is testing xs + ys. */
  lemma OverAppend(year: Option<int>, xs: seq<Option<int>>, ys: seq<Option<int>>)
    ensures Over(Over(year, xs), ys) == Over(year, xs + ys)
  {
    LastSomeAppend(xs, ys);
  }

  /** A quarter whose children have no children of their own gets no year: the quarter's own
      children are never tested. */
  lemma {:induction false} OwnChildrenNeverTested(toks: seq<Tok>, cs: seq<nat>)
    requires Linked(toks) && InRange(toks, cs)
    requires forall j :: 0 <= j < |cs| ==> toks[cs[j]].children == []
    ensures YearCandidates(toks, cs) == []
  {
    if cs != [] {
      OwnChildrenNeverTested(toks, cs[..|cs| - 1]);
    }
  }

  /** A year-word grandchild without children yields nothing, whatever its own shape and dep. */
  lemma {:induction false} YearWordWithoutChildrenIsSkipped(toks: seq<Tok>, cs: seq<nat>)
    requires Linked(toks) && InRange(toks, cs)
    requires forall j :: 0 <= j < |cs| ==> YearWord(toks[cs[j]].lemmaForm) && toks[cs[j]].children == []
    ensures GrandCandidates(toks, cs) == []
  {
    if cs != [] {
      YearWordWithoutChildrenIsSkipped(toks, cs[..|cs| - 1]);
    }
  }

  /** The empty lemma, "year", "FY" and "s" are year words; "fiscal" is not. */
  lemma YearWordExamples()
    ensures YearWord("") && YearWord("Year") && YearWord("FY") && YearWord("s")
    ensures !YearWord("fiscal")
  {
    assert OccursAt("fys", "", 0);
    assert Lower("FY") == "fy" && OccursAt("fys", "fy", 0);
    assert Lower("s") == "s" && OccursAt("fys", "s", 2);
    assert Lower("fiscal") == "fiscal";
  }

  // ---------------------------------------------------------------- find_quarters

  /** The last of cs whose dependency label is dep. */
  function LastWithDep(toks: seq<Tok>, cs: seq<nat>, dep: string): (r: Option<nat>)
    requires InRange(toks, cs)
    ensures r.Some? ==> r.value < |toks| && toks[r.value].dep == dep
  {
    if cs == [] then None
    else if toks[cs[|cs| - 1]].dep == dep then Some(cs[|cs| - 1])
    else LastWithDep(toks, cs[..|cs| - 1], dep)
  }

  /** LastWithDep is None exactly when no element has the label, and otherwise an element with
      the label after which none has it. */
  lemma {:induction false} LastWithDepIsLast(toks: seq<Tok>, cs: seq<nat>, dep: string)
    requires InRange(toks, cs)
    ensures LastWithDep(toks, cs, dep).None? <==> forall j :: 0 <= j < |cs| ==> toks[cs[j]].dep != dep
    ensures LastWithDep(toks, cs, dep).Some? ==>
      exists j :: 0 <= j < |cs| && cs[j] == LastWithDep(toks, cs, dep).value && toks[cs[j]].dep == dep
        && forall m :: j < m < |cs| ==> toks[cs[m]].dep != dep
  {
    if cs != [] && toks[cs[|cs| - 1]].dep != dep {
      var p := cs[..|cs| - 1];
      LastWithDepIsLast(toks, p, dep);
      assert forall j :: 0 <= j < |p| ==> cs[j] == p[j];
      if LastWithDep(toks, p, dep).Some? {
        var j :| 0 <= j < |p| && p[j] == LastWithDep(toks, p, dep).value && toks[p[j]].dep == dep
          && forall m :: j < m < |p| ==> toks[p[m]].dep != dep;
        assert cs[j] == LastWithDep(toks, cs, dep).value && forall m :: j < m < |cs| ==> toks[cs[m]].dep != dep;
      }
    }
  }

  /** The text of an optional token. */
  function TextOf(toks: seq<Tok>, c: Option<nat>): Option<string>
    requires c.Some? ==> c.value < |toks|
  {
    if c.Some? then Some(toks[c.value].text) else None
  }

  /** find_quarters' location: the last amod child of the quantity if there is one, else the last
      amod child of the quarter token. */
  function QuarterLocation(toks: seq<Tok>, q: nat): Option<string>
    requires Linked(toks) && q < |toks|
  {
    var quantity := LastWithDep(toks, toks[q].children, "nummod");
    var own := TextOf(toks, LastWithDep(toks, toks[q].children, "amod"));
    if quantity.None? then own
    else
      LastWithDepIsLast(toks, toks[q].children, "nummod");
      var inner := LastWithDep(toks, toks[quantity.value].children, "amod");
      if inner.Some? then TextOf(toks, inner) else own
  }

  /** find_quarters: quantity is the last nummod child; location the last amod child of the
      quantity, else the last amod child of the token, else None. */
  method FindQuarters(toks: seq<Tok>, q: nat) returns (location: Option<string>, quantity: Option<nat>)
    requires Linked(toks) && q < |toks|
    ensures quantity == LastWithDep(toks, toks[q].children, "nummod")
    ensures location == QuarterLocation(toks, q)
  {
    location, quantity := None, None;
    var cs := toks[q].children;
    var i := 0;
    while i < |cs|
      invariant 0 <= i <= |cs|
      invariant quantity == LastWithDep(toks, cs[..i], "nummod")
      invariant location == TextOf(toks, LastWithDep(toks, cs[..i], "amod"))
    {
      assert cs[..i + 1][..i] == cs[..i];
      var child := toks[cs[i]];
      if child.dep == "nummod" {
        quantity := Some(cs[i]);
      } else if child.dep == "amod" {
        location := Some(child.text);
      }
      i := i + 1;
    }
    assert cs[..i] == cs;
    if quantity.Some? {
      LastWithDepIsLast(toks, cs, "nummod");
      var ds := toks[quantity.value].children;
      ghost var own := location;
      var j := 0;
      while j < |ds|
        invariant 0 <= j <= |ds|
        invariant location == if LastWithDep(toks, ds[..j], "amod").Some? then TextOf(toks, LastWithDep(toks, ds[..j], "amod")) else own
      {
        assert ds[..j + 1][..j] == ds[..j];
        if toks[ds[j]].dep == "amod" {
          location := Some(toks[ds[j]].text);
        }
        j := j + 1;
      }
      assert ds[..j] == ds;
    }
  }

  // ---------------------------------------------------------------- parse_text

  /** Append v to key k's list, creating the list when k is absent. */
  function AddTo<T>(m: map<int, seq<T>>, k: int, v: T): (r: map<int, seq<T>>)
    ensures r.Keys == m.Keys + {k}
    ensures r[k] == (if k in m then m[k] else []) + [v]
    ensures forall j :: j in m && j != k ==> r[j] == m[j]
  {
    if k in m then m[k := m[k] + [v]] else m[k := [v]]
  }

  /** The year token t adds to `years`: a "dddd" token that is nummod under a misreporting term,
      or whose head's text is in "fys", or whose head is "dddd" under a head whose text is in
      "fys", or that is pobj; a decimal-shaped token only when pobj. */
  function TokenYear(toks: seq<Tok>, t: nat, terms: set<string>): Option<int>
    requires Linked(toks) && t < |toks|
  {
    var tok := toks[t];
    var head := toks[tok.head];
    if tok.shape == "dddd" then
      if (tok.dep == "nummod" && Lower(head.lemmaForm) in terms)
         || Contains("fys", Lower(head.text))
         || (head.shape == "dddd" && Contains("fys", Lower(toks[head.head].text)))
         || tok.dep == "pobj"
      then Some(DigitsValue(tok.text)) else None
    else if IsDecimalShape(tok.shape) && tok.dep == "pobj" then Some(DigitsValue(IntegerPart(tok.text)))
    else None
  }

  /** The (year, month) pair token t adds: a nummod "dddd" token under a month name. */
  function TokenMonth(toks: seq<Tok>, t: nat, monthNames: map<string, int>): Option<(int, int)>
    requires Linked(toks) && t < |toks|
  {
    var tok := toks[t];
    var name := Lower(toks[tok.head].text);
    if tok.shape == "dddd" && tok.dep == "nummod" && name in monthNames
    then Some((DigitsValue(tok.text), monthNames[name])) else None
  }

  /** The quarter mention token t adds: lemma exactly "quarter" and find_year finds a year. */
  function TokenQuarter(toks: seq<Tok>, t: nat): Option<(int, QuarterMention)>
    requires Linked(toks) && t < |toks|
  {
    if toks[t].lemmaForm == "quarter" && QuarterYear(toks, t).Some? then
      Some((QuarterYear(toks, t).value,
            QuarterMention(QuarterLocation(toks, t), LastWithDep(toks, toks[t].children, "nummod"))))
    else None
  }

  /** `years` after the first n tokens. */
  function YearsOf(toks: seq<Tok>, n: nat, terms: set<string>): seq<int>
    requires Linked(toks) && n <= |toks|
  {
    if n == 0 then []
    else
      var y := TokenYear(toks, n - 1, terms);
      YearsOf(toks, n - 1, terms) + (if y.Some? then [y.value] else [])
  }

  /** `months` after the first n tokens. */
  function MonthsOf(toks: seq<Tok>, n: nat, monthNames: map<string, int>): map<int, seq<int>>
    requires Linked(toks) && n <= |toks|
  {
    if n == 0 then map[]
    else
      var m := TokenMonth(toks, n - 1, monthNames);
      var before := MonthsOf(toks, n - 1, monthNames);
      if m.Some? then AddTo(before, m.value.0, m.value.1) else before
  }

  /** `quarters` after the first n tokens. */
  function QuartersOf(toks: seq<Tok>, n: nat): map<int, seq<QuarterMention>>
    requires Linked(toks) && n <= |toks|
  {
    if n == 0 then map[]
    else
      var m := TokenQuarter(toks, n - 1);
      var before := QuartersOf(toks, n - 1);
      if m.Some? then AddTo(before, m.value.0, m.value.1) else before
  }

  /** The year and month part of parse_text's loop body for token t. */
  method DateStep(toks: seq<Tok>, t: nat, terms: set<string>, monthNames: map<string, int>,
                  years0: seq<int>, months0: map<int, seq<int>>)
    returns (years: seq<int>, months: map<int, seq<int>>)
    requires WfTokens(toks) && t < |toks|
    ensures years == years0 + (if TokenYear(toks, t, terms).Some? then [TokenYear(toks, t, terms).value] else [])
    ensures months == if TokenMonth(toks, t, monthNames).Some?
      then AddTo(months0, TokenMonth(toks, t, monthNames).value.0, TokenMonth(toks, t, monthNames).value.1)
      else months0
  {
    years, months := years0, months0;
    var token := toks[t];
    var head := toks[token.head];
    if token.shape == "dddd" {
      if (token.dep == "nummod" && Lower(head.lemmaForm) in terms)
         || Contains("fys", Lower(head.text))
         || (head.shape == "dddd" && Contains("fys", Lower(toks[head.head].text)))
         || token.dep == "pobj" {
        years := years + [DigitsValue(token.text)];
      }
      if token.dep == "nummod" && Lower(head.text) in monthNames {
        var y := DigitsValue(token.text);
        if y in months {
          months := months[y := months[y] + [monthNames[Lower(head.text)]]];
        } else {
          months := months[y := [monthNames[Lower(head.text)]]];
        }
      }
    } else if token.shape == "dddd.d" || token.shape == "dddd.dd" {
      if token.dep == "pobj" {
        years := years + [DigitsValue(IntegerPart(token.text))];
      }
    }
  }

  /** The quarter part of parse_text's loop body for token t. */
  method QuarterStep(toks: seq<Tok>, t: nat, quarters0: map<int, seq<QuarterMention>>)
    returns (quarters: map<int, seq<QuarterMention>>)
    requires Linked(toks) && t < |toks|
    ensures quarters == if TokenQuarter(toks, t).Some?
      then AddTo(quarters0, TokenQuarter(toks, t).value.0, TokenQuarter(toks, t).value.1)
      else quarters0
  {
    quarters := quarters0;
    if toks[t].lemmaForm == "quarter" {
      var year := FindYear(toks, t);
      if year.Some? {
        var loc, qty := FindQuarters(toks, t);
        if year.value in quarters {
          quarters := quarters[year.value := quarters[year.value] + [QuarterMention(loc, qty)]];
        } else {
          quarters := quarters[year.value := [QuarterMention(loc, qty)]];
        }
      }
    }
  }

  /** The loop of parse_text: one pass over the tokens collecting years, months and quarters. */
  method CollectMentions(toks: seq<Tok>, terms: set<string>, monthNames: map<string, int>)
    returns (years: seq<int>, quarters: map<int, seq<QuarterMention>>, months: map<int, seq<int>>)
    requires WfTokens(toks)
    ensures years == YearsOf(toks, |toks|, terms)
    ensures months == MonthsOf(toks, |toks|, monthNames)
    ensures quarters == QuartersOf(toks, |toks|)
  {
    years, quarters, months := [], map[], map[];
    var t := 0;
    while t < |toks|
      invariant 0 <= t <= |toks|
      invariant years == YearsOf(toks, t, terms)
      invariant months == MonthsOf(toks, t, monthNames)
      invariant quarters == QuartersOf(toks, t)
    {
      years, months := DateStep(toks, t, terms, monthNames, years, months);
      quarters := QuarterStep(toks, t, quarters);
      t := t + 1;
    }
  }

  /** parse_text: collect the mentions, then find_interval on them with a fresh months dictionary. */
  method ParseText(toks: seq<Tok>, terms: set<string>, monthNames: map<string, int>, quarterTable: map<string, int>)
    returns (r: Result<Interval>)
    requires WfTokens(toks)
    ensures var quarters := QuartersOf(toks, |toks|);
      && (r.Success? <==> AllKnown(quarters, quarterTable))
      && (r.Success? ==>
            IsIntervalOf(YearsOf(toks, |toks|, terms),
                         MergeYears(MonthsOf(toks, |toks|, monthNames), quarters, quarters.Keys, quarterTable), r.value))
      && (r.Failure? ==>
            exists y, k :: y in quarters && 0 <= k < |quarters[y]|
              && !KnownLocation(quarters[y][k], quarterTable) && r.error == KeyError(quarters[y][k].location))
  {
    var years, quarters, months := CollectMentions(toks, terms, monthNames);
    var box := new MonthsByYear(months);
    r := FindInterval(years, quarters, box, quarterTable);
  }

  // ---------------------------------------------------------------- what the walk collects

  /** A year is collected exactly when some token's rule yields it. */
  lemma {:induction false} YearsAreTokenYears(toks: seq<Tok>, n: nat, terms: set<string>, x: int)
    requires Linked(toks) && n <= |toks|
    ensures x in YearsOf(toks, n, terms) <==> exists t :: 0 <= t < n && TokenYear(toks, t, terms) == Some(x)
  {
    if n > 0 {
      YearsAreTokenYears(toks, n - 1, terms, x);
    }
  }

  /** Month m is listed under year y exactly when some token's rule yields (y, m). */
  lemma {:induction false} MonthsAreTokenMonths(toks: seq<Tok>, n: nat, monthNames: map<string, int>, y: int, m: int)
    requires Linked(toks) && n <= |toks|
    ensures (y in MonthsOf(toks, n, monthNames) && m in MonthsOf(toks, n, monthNames)[y])
      <==> exists t :: 0 <= t < n && TokenMonth(toks, t, monthNames) == Some((y, m))
  {
    if n > 0 {
      MonthsAreTokenMonths(toks, n - 1, monthNames, y, m);
    }
  }

  /** A mention is listed under year y exactly when a quarter token yields it for y. */
  lemma {:induction false} QuartersAreTokenQuarters(toks: seq<Tok>, n: nat, y: int, q: QuarterMention)
    requires Linked(toks) && n <= |toks|
    ensures (y in QuartersOf(toks, n) && q in QuartersOf(toks, n)[y])
      <==> exists t :: 0 <= t < n && TokenQuarter(toks, t) == Some((y, q))
  {
    if n > 0 {
      QuartersAreTokenQuarters(toks, n - 1, y, q);
    }
  }
}
