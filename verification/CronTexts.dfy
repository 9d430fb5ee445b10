/** Cron fields as texts: what each of the forms one can write down is read as, in numbers,
    and which phrase describes it. `Cron` holds the code's phrases against a reference parser;
    here that parser's reading is held against the characters of the field. */
module CronTexts {
  import opened Basics
  import opened Text
  import opened Cron

  // ---- values --------------------------------------------------------------------------------

  /** The value `x`, as written, is the value or day `v`: Sunday may be written 0 or 7. */
  predicate Means(u: Unit, x: int, v: int) {
    x == v || (u == DayOfWeek && x == 7 && v == 0)
  }

  /** Every `step`-th value from `a`, as far as `b`. */
  ghost predicate Reached(u: Unit, a: int, b: int, step: int, v: int)
    requires step > 0
  {
    exists x: int :: a <= x <= b && (x - a) % step == 0 && Means(u, x, v)
  }

  /** The field is described, by a phrase that names exactly those values. */
  ghost predicate Reads(lex: Lexer, u: Unit, text: string, a: int, b: int, step: int)
    requires step > 0
  {
    var phrase := DescribeField(lex, u, text);
    phrase.Some? && forall v :: u.Domain(v) ==> (Says(u, phrase.value, v) <==> Reached(u, a, b, step, v))
  }

  /** The five fields' values, and how far round the next turn starts. */
  lemma FieldValues()
    ensures Minute.Lo() == 0 && Minute.Hi() == 59 && Hour.Lo() == 0 && Hour.Hi() == 23
    ensures DayOfMonth.Lo() == 1 && DayOfMonth.Hi() == 31 && Month.Lo() == 1 && Month.Hi() == 12
    ensures DayOfWeek.Lo() == 0 && DayOfWeek.Hi() == 7
    ensures forall u: Unit, v :: u.Domain(v) <==> u.Lo() <= v <= u.Hi() && !(u == DayOfWeek && v == 7)
  {
  }

  function MonthNumber(word: string): int {
    if word == "jan" then 1 else if word == "feb" then 2 else if word == "mar" then 3 else if word == "apr" then 4
    else if word == "may" then 5 else if word == "jun" then 6 else if word == "jul" then 7 else if word == "aug" then 8
    else if word == "sep" then 9 else if word == "oct" then 10 else if word == "nov" then 11 else if word == "dec" then 12
    else -1
  }

  function WeekdayNumber(word: string): int {
    if word == "sun" then 0 else if word == "mon" then 1 else if word == "tue" then 2 else if word == "wed" then 3
    else if word == "thu" then 4 else if word == "fri" then 5 else if word == "sat" then 6
    else -1
  }

  lemma MonthsTable(word: string)
    ensures word in Month.Names() <==> MonthNumber(word) >= 0
    ensures word in Month.Names() ==> Month.Names()[word] == MonthNumber(word)
  {
  }

  lemma WeekdaysTable(word: string)
    ensures word in DayOfWeek.Names() <==> WeekdayNumber(word) >= 0
    ensures word in DayOfWeek.Names() ==> DayOfWeek.Names()[word] == WeekdayNumber(word)
  {
  }

  lemma OthersHaveNoNames(u: Unit)
    ensures u != Month && u != DayOfWeek ==> u.Names() == map[]
  {
  }

  /** A value is an integer in the field's range, or, for months and weekdays, one of the
      English abbreviations in any case; anything else is an error. */
  lemma ValueText(lex: Lexer, u: Unit, token: string)
    ensures var word := lex.lower(Strip(lex.isSpace, token));
      var named := if u == Month then MonthNumber(word) else if u == DayOfWeek then WeekdayNumber(word) else -1;
      Resolve(lex, u, token) ==
        if named >= 0 then Some(named)
        else if lex.toInt(token).Some? && u.Lo() <= lex.toInt(token).value <= u.Hi() then lex.toInt(token)
        else None
  {
    hide Strip, Unit.Names, MonthNumber, WeekdayNumber;
    MonthsTable(lex.lower(Strip(lex.isSpace, token)));
    WeekdaysTable(lex.lower(Strip(lex.isSpace, token)));
    OthersHaveNoNames(u);
  }

  lemma ModMultiple(i: nat, step: int)
    requires step > 0
    ensures (i * step) % step == 0
  {
    var q, r := (i * step) / step, (i * step) % step;
    assert (i - q) * step == i * step - q * step == r;
    Multiples(i - q, step);
  }

  lemma FiresIsReached(u: Unit, p: Part, v: int)
    requires p.step > 0 && u.Lo() <= p.a && p.b <= u.Hi() && u.Domain(v)
    ensures Fires(u, p, v) <==> Reached(u, p.a, p.b, p.step, v)
  {
    hide Nth;
    if Fires(u, p, v) {
      var i: nat :| Nth(p.a, p.step, i) <= p.b && u.Pretty(Nth(p.a, p.step, i)) == v;
      NthIsReached(u, p, v, i);
    }
    if Reached(u, p.a, p.b, p.step, v) {
      var x: int :| p.a <= x <= p.b && (x - p.a) % p.step == 0 && Means(u, x, v);
      ReachedIsNth(u, p, v, x);
    }
  }

  lemma NthIsReached(u: Unit, p: Part, v: int, i: nat)
    requires p.step > 0 && u.Domain(v) && Nth(p.a, p.step, i) <= p.b && u.Pretty(Nth(p.a, p.step, i)) == v
    ensures Reached(u, p.a, p.b, p.step, v)
  {
    var x := p.a + i * p.step;
    ModMultiple(i, p.step);
    Multiples(i, p.step);
    var m := i * p.step;
    assert x - p.a == m && m % p.step == 0;
    assert m >= 0 by { if i == 0 { assert m == 0; } }
    assert Means(u, x, v);
  }

  lemma ReachedIsNth(u: Unit, p: Part, v: int, x: int)
    requires p.step > 0 && u.Lo() <= p.a && p.b <= u.Hi() && u.Domain(v)
    requires p.a <= x <= p.b && (x - p.a) % p.step == 0 && Means(u, x, v)
    ensures Fires(u, p, v)
  {
    DivExact(x - p.a, p.step);
    var i: nat := (x - p.a) / p.step;
    assert Nth(p.a, p.step, i) == x;
    assert u.Pretty(x) == v;
  }

  lemma ParsedReads(lex: Lexer, u: Unit, text: string, p: Part)
    requires u.Lo() <= p.a && p.b <= u.Hi() && p.step > 0
    requires ParseField(lex, u, text) == Some([p])
    ensures Reads(lex, u, text, p.a, p.b, p.step)
  {
    hide ParseField, DescribeField, Fires, Reached, Says;
    FieldIsHonest(lex, u, text);
    forall v | u.Domain(v) ensures FieldFires(u, [p], v) <==> Reached(u, p.a, p.b, p.step, v) {
      FiresIsReached(u, p, v);
      assert p in [p];
      assert forall q :: q in [p] ==> q == p;
    }
  }

  // ---- the forms -------------------------------------------------------------------------------

  predicate NoneOf(cs: string, s: string) {
    forall c :: c in cs ==> c !in s
  }

  lemma NoneOfAppend(cs: string, a: string, b: string)
    requires NoneOf(cs, a) && NoneOf(cs, b)
    ensures NoneOf(cs, a + b)
  {
  }

  /** White space around a field does not matter, so the forms below are given without. */
  lemma SpaceAround(lex: Lexer, u: Unit, text: string)
    ensures var bare := Strip(lex.isSpace, text);
      Strip(lex.isSpace, bare) == bare && DescribeField(lex, u, text) == DescribeField(lex, u, bare)
  {
    hide Strip;
    StripTrims(lex.isSpace, text);
    StripTrimmed(lex.isSpace, Strip(lex.isSpace, text));
  }

  /** `*` is every value. */
  lemma AsteriskText(lex: Lexer, u: Unit)
    requires KeepsAsterisk(lex)
    ensures DescribeField(lex, u, "*") == Some(Every)
    ensures Reads(lex, u, "*", u.Lo(), u.Hi(), 1)
  {
    hide Strip, Says, Reached, FieldFires;
    assert ParseField(lex, u, "*") == Some([Part(u.Lo(), u.Hi(), 1)]);
    ParsedReads(lex, u, "*", Part(u.Lo(), u.Hi(), 1));
  }

  /** A value alone is that value. */
  lemma SingleText(lex: Lexer, u: Unit, text: string)
    requires NoneOf("-/,", text) && text != "" && text != "*" && Strip(lex.isSpace, text) == text
    ensures var v := Resolve(lex, u, text);
      if v.Some? then DescribeField(lex, u, text) == Some(Single(u.Pretty(v.value))) && Reads(lex, u, text, v.value, v.value, 1)
      else DescribeField(lex, u, text) == None
  {
    hide Strip, Resolve, Says, Reached, FieldFires;
    assert '-' in "-/," && '/' in "-/," && ',' in "-/,";
    var v := Resolve(lex, u, text);
    if v.Some? {
      ParsedReads(lex, u, text, Part(v.value, v.value, 1));
    }
  }

  lemma EndpointsText(lex: Lexer, u: Unit, left: string, right: string)
    requires '-' !in left
    ensures '-' in left + "-" + right
    ensures var a, b := Resolve(lex, u, left), Resolve(lex, u, right);
      Endpoints(lex, u, left + "-" + right) ==
        if a.Some? && b.Some? && a.value <= b.value then Some((a.value, b.value)) else None
  {
    hide Resolve;
    PartitionIs(left, '-', right);
  }

  /** `a-b` is every value from `a` to `b`, and an error if either is none or they are the
      wrong way round. */
  lemma RangeText(lex: Lexer, u: Unit, left: string, right: string)
    requires '-' !in left && NoneOf("/,", left) && NoneOf("/,", right)
    requires var text := left + "-" + right; Strip(lex.isSpace, text) == text
    ensures var text := left + "-" + right;
      var a, b := Resolve(lex, u, left), Resolve(lex, u, right);
      if a.Some? && b.Some? && a.value <= b.value then Reads(lex, u, text, a.value, b.value, 1)
      else DescribeField(lex, u, text) == None
  {
    hide Strip, Resolve, Endpoints, Says, Reached, FieldFires, Reads, RangePhrase;
    var text := left + "-" + right;
    EndpointsText(lex, u, left, right);
    assert '/' in "/," && ',' in "/,";
    assert '/' !in text && ',' !in text && text != "*" && text != "";
    var e := Endpoints(lex, u, text);
    if e.Some? {
      ParsedReads(lex, u, text, Part(e.value.0, e.value.1, 1));
    }
  }

  /** What a field with a step, and no list, comes down to. */
  lemma SlashText(lex: Lexer, u: Unit, base: string, step: string)
    requires NoneOf("/,", base) && NoneOf("/,", step)
    requires Strip(lex.isSpace, base) == base
    requires var text := base + "/" + step; Strip(lex.isSpace, text) == text
    ensures var text := base + "/" + step;
      var n, r := lex.toInt(step), ParseRange(lex, u, base);
      && DescribeField(lex, u, text) == DescribePart(lex, u, text)
      && (if n.Some? && n.value > 0 && r.Some?
          then ParseField(lex, u, text) == Some([Part(r.value.a, if r.value.isValue then u.Hi() else r.value.b, n.value)])
          else ParseField(lex, u, text) == None)
  {
    hide Strip, ParseRange;
    var text := base + "/" + step;
    assert '/' in "/," && ',' in "/,";
    PartitionIs(base, '/', step);
    assert text != "" && ',' !in text;
  }

  /** `a-b/n` is every n-th value from `a`, as far as `b`. */
  lemma RangeStepText(lex: Lexer, u: Unit, left: string, right: string, step: string)
    requires '-' !in left && NoneOf("/,", left) && NoneOf("/,", right) && NoneOf("/,", step)
    requires var base := left + "-" + right;
      Strip(lex.isSpace, base) == base && Strip(lex.isSpace, base + "/" + step) == base + "/" + step
    ensures var text := left + "-" + right + "/" + step;
      var a, b, n := Resolve(lex, u, left), Resolve(lex, u, right), lex.toInt(step);
      if a.Some? && b.Some? && a.value <= b.value && n.Some? && n.value > 0 then Reads(lex, u, text, a.value, b.value, n.value)
      else DescribeField(lex, u, text) == None
  {
    hide Strip, Resolve, Endpoints, DescribeField, ParseField, Reads;
    var base := left + "-" + right;
    var text := base + "/" + step;
    NoneOfAppend("/,", left, "-");
    NoneOfAppend("/,", left + "-", right);
    EndpointsText(lex, u, left, right);
    assert base != "*";
    SlashText(lex, u, base, step);
    FieldIsHonest(lex, u, text);
    var e, n := Endpoints(lex, u, base), lex.toInt(step);
    if e.Some? && n.Some? && n.value > 0 {
      ParsedReads(lex, u, text, Part(e.value.0, e.value.1, n.value));
    }
  }

  /** `v/n` is every n-th value from `v` to the end of the field. */
  lemma StartStepText(lex: Lexer, u: Unit, start: string, step: string)
    requires NoneOf("-/,", start) && start != "*" && NoneOf("/,", step)
    requires Strip(lex.isSpace, start) == start && Strip(lex.isSpace, start + "/" + step) == start + "/" + step
    ensures var text := start + "/" + step;
      var a, n := Resolve(lex, u, start), lex.toInt(step);
      if a.Some? && n.Some? && n.value > 0 then Reads(lex, u, text, a.value, u.Hi(), n.value)
      else DescribeField(lex, u, text) == None
  {
    hide Strip, Resolve, DescribeField, ParseField, Reads;
    var text := start + "/" + step;
    assert '-' in "-/," && '/' in "-/," && ',' in "-/,";
    SlashText(lex, u, start, step);
    FieldIsHonest(lex, u, text);
    var a, n := Resolve(lex, u, start), lex.toInt(step);
    if a.Some? && n.Some? && n.value > 0 {
      ParsedReads(lex, u, text, Part(a.value, u.Hi(), n.value));
    }
  }

  /** Every n-th value from the first. */
  lemma WildcardStepText(lex: Lexer, u: Unit, step: string)
    requires KeepsAsterisk(lex) && NoneOf("/,", step) && Strip(lex.isSpace, "*/" + step) == "*/" + step
    ensures var n := lex.toInt(step);
      if n.Some? && n.value > 0 then Reads(lex, u, "*/" + step, u.Lo(), u.Hi(), n.value)
      else DescribeField(lex, u, "*/" + step) == None
  {
    hide Strip, DescribeField, ParseField, Reads;
    assert "*" + "/" + step == "*/" + step;
    SlashText(lex, u, "*", step);
    FieldIsHonest(lex, u, "*/" + step);
    var n := lex.toInt(step);
    if n.Some? && n.value > 0 {
      ParsedReads(lex, u, "*/" + step, Part(u.Lo(), u.Hi(), n.value));
    }
  }

  /** A comma list is valid exactly when every piece is, and says what any of them says. */
  lemma ListText(lex: Lexer, u: Unit, pieces: seq<string>)
    requires |pieces| >= 2 && forall i :: 0 <= i < |pieces| ==> ',' !in pieces[i]
    requires Strip(lex.isSpace, JoinWith(pieces, ',')) == JoinWith(pieces, ',')
    ensures var phrase := DescribeField(lex, u, JoinWith(pieces, ','));
      && (phrase.Some? <==> forall i :: 0 <= i < |pieces| ==> DescribeField(lex, u, pieces[i]).Some?)
      && (phrase.Some? ==> forall v ::
            Says(u, phrase.value, v) <==> exists i :: 0 <= i < |pieces| && Says(u, DescribeField(lex, u, pieces[i]).value, v))
  {
    hide Strip, DescribePart, Says;
    var text := JoinWith(pieces, ',');
    assert text == pieces[0] + [','] + JoinWith(pieces[1..], ',');
    SplitOnJoined(pieces, ',');
    PartsOf(lex, u, pieces);
    forall i | 0 <= i < |pieces| ensures DescribeField(lex, u, pieces[i]) == DescribePart(lex, u, pieces[i]) {
      StripKeepsOut(lex.isSpace, pieces[i], ',');
    }
    if DescribeField(lex, u, text).Some? {
      AnyOf(u, DescribeParts(lex, u, pieces).value);
    }
  }

  lemma AnyOf(u: Unit, ps: seq<Phrase>)
    ensures forall v :: Says(u, Alternatives(ps), v) <==> exists i :: 0 <= i < |ps| && Says(u, ps[i], v)
  {
    forall v ensures Says(u, Alternatives(ps), v) <==> exists i :: 0 <= i < |ps| && Says(u, ps[i], v) {
      if q :| q in ps && Says(u, q, v) {
        var i :| 0 <= i < |ps| && ps[i] == q;
        assert Says(u, ps[i], v);
      }
    }
  }

  lemma {:induction false} PartsOf(lex: Lexer, u: Unit, texts: seq<string>)
    ensures var ps := DescribeParts(lex, u, texts);
      && (ps.Some? <==> forall i :: 0 <= i < |texts| ==> DescribePart(lex, u, texts[i]).Some?)
      && (ps.Some? ==> |ps.value| == |texts| && forall i :: 0 <= i < |texts| ==> DescribePart(lex, u, texts[i]) == Some(ps.value[i]))
  {
    hide DescribePart;
    if texts != [] {
      PartsOf(lex, u, texts[1..]);
      assert forall i :: 0 < i < |texts| ==> texts[i] == texts[1..][i - 1];
    }
  }

  // ---- which phrase ------------------------------------------------------------------------------

  /** The element fires on one value only. */
  ghost predicate FiresOnce(u: Unit, p: Part) {
    forall v, w :: u.Domain(v) && u.Domain(w) && Fires(u, p, v) && Fires(u, p, w) ==> v == w
  }

  ghost predicate Ascending(vals: seq<int>) {
    forall i, j :: 0 <= i < j < |vals| ==> vals[i] < vals[j]
  }

  /** The firing set as a list: in order, without repetition, on the cycle. */
  lemma FiredSetLists(u: Unit, p: Part)
    requires p.step > 0 && u.Lo() <= p.a <= p.b <= u.Hi()
    ensures var vals := FiredSet(u, Range(p.a, p.b, p.step));
      && vals != [] && Ascending(vals)
      && (forall v :: v in vals <==> u.Domain(v) && Fires(u, p, v))
      && (|vals| == 1 <==> FiresOnce(u, p))
  {
    hide Fires, Range, Nth;
    var vals := FiredSet(u, Range(p.a, p.b, p.step));
    FiredSetNonEmpty(u, p.a, p.b, p.step);
    FiredSetPretty(u, p);
    RangeAscends(p);
    forall v ensures v in vals <==> u.Domain(v) && Fires(u, p, v) {
      FiredSetFires(u, p, v);
    }
    if |vals| > 1 {
      assert vals[0] in vals && vals[1] in vals && vals[0] < vals[1];
    }
  }

  lemma RangeAscends(p: Part)
    requires p.step > 0
    ensures Ascending(Range(p.a, p.b, p.step))
  {
    hide Nth;
    var r := Range(p.a, p.b, p.step);
    RangeTerms(p.a, p.b, p.step);
    forall i, j | 0 <= i < j < |r| ensures r[i] < r[j] {
      NthMonotone(p.a, p.step, i, j);
    }
  }

  /** An element that fires once is described by that one value, whatever its form. */
  lemma OneFiringIsSingle(lex: Lexer, u: Unit, text: string, v: int)
    requires ',' !in text && ParsePart(lex, u, text).Some?
    requires var p := ParsePart(lex, u, text).value; FiresOnce(u, p) && u.Domain(v) && Fires(u, p, v)
    ensures DescribeField(lex, u, text) == Some(Single(v))
  {
    hide Strip, FiredSet, Range, Endpoints, Resolve, FiresOnce, Fires;
    StripKeepsOut(lex.isSpace, text, ',');
    var p := ParsePart(lex, u, text).value;
    FiredSetLists(u, p);
    var vals := FiredSet(u, Range(p.a, p.b, p.step));
    assert vals == [vals[0]] && vals[0] == v;
    DomainPretty(u, v);
    if p.step == 1 {
      IntervalFiresOnce(u, p, v);
      OneElementRange(p.a, 1);
    }
  }

  lemma DomainPretty(u: Unit, v: int)
    ensures u.Domain(v) ==> u.Pretty(v) == v
  {
  }

  /** An interval that fires once is one value. */
  lemma IntervalFiresOnce(u: Unit, p: Part, v: int)
    requires p.step == 1 && u.Lo() <= p.a <= p.b <= u.Hi() && FiresOnce(u, p) && u.Domain(v) && Fires(u, p, v)
    ensures u.Pretty(p.a) == u.Pretty(p.b) == v && p.a == p.b
  {
    hide Fires;
    IntervalFires(u, p, u.Pretty(p.a));
    IntervalFires(u, p, u.Pretty(p.b));
    IntervalFires(u, p, u.Pretty(p.a + 1));
    assert u.Domain(u.Pretty(p.a)) && u.Domain(u.Pretty(p.b));
  }

  /** The list of a uniform element fills the cycle at its step: the converse of
      `Cron.EvenlySpacedIsUniform`. */
  lemma UniformIsEvenlySpaced(u: Unit, p: Part)
    requires p.step > 0 && u.Lo() <= p.a <= p.b <= u.Hi() && Uniform(u, p) && !FiresOnce(u, p)
    ensures EvenlySpaced(u, FiredSet(u, Range(p.a, p.b, p.step)), p.step)
  {
    hide Fires, FiredSet, Range, FiresOnce, Uniform;
    FiredSetLists(u, p);
    var vals := FiredSet(u, Range(p.a, p.b, p.step));
    var last := |vals| - 1;
    forall i | 0 <= i < last ensures vals[i + 1] == vals[i] + p.step {
      NextListed(u, p, vals, i);
    }
    LastWraps(u, p, vals);
    Progression(vals, p.step, last);
    assert (last + 1) * p.step == last * p.step + p.step;
  }

  lemma {:induction false} Progression(vals: seq<int>, step: int, i: nat)
    requires i < |vals| && forall j :: 0 <= j < |vals| - 1 ==> vals[j + 1] == vals[j] + step
    ensures vals[i] == vals[0] + i * step
  {
    if i > 0 {
      Progression(vals, step, i - 1);
      assert vals[(i - 1) + 1] == vals[i - 1] + step;
      assert i * step == (i - 1) * step + step;
    }
  }

  ghost predicate ListsFirings(u: Unit, p: Part, vals: seq<int>) {
    Ascending(vals) && forall v :: v in vals <==> u.Domain(v) && Fires(u, p, v)
  }

  /** What fires next after a value of the list is the next of the list. */
  lemma NextListed(u: Unit, p: Part, vals: seq<int>, i: nat)
    requires p.step > 0 && Uniform(u, p) && ListsFirings(u, p, vals) && i + 1 < |vals|
    ensures vals[i + 1] == vals[i] + p.step
  {
    hide Fires, Wrap;
    var v, d := vals[i], vals[i + 1] - vals[i];
    assert v in vals && vals[i + 1] in vals;
    assert NextAfter(u, p, v);
    WrapDomain(u, vals[i + 1]);
    assert After(u, v, d) == vals[i + 1];
    assert d >= p.step;
    assert u.Domain(v + p.step);
    WrapDomain(u, v + p.step);
    assert v + p.step in vals;
    var k :| 0 <= k < |vals| && vals[k] == v + p.step;
  }

  /** What fires next after the last is the first, one turn later. */
  lemma LastWraps(u: Unit, p: Part, vals: seq<int>)
    requires p.step > 0 && Uniform(u, p) && ListsFirings(u, p, vals) && |vals| > 1
    ensures vals[|vals| - 1] + p.step == vals[0] + u.CycleLen()
  {
    hide Fires, Wrap;
    var v, first := vals[|vals| - 1], vals[0];
    var d := first + u.CycleLen() - v;
    assert v in vals && first in vals && first < v;
    assert NextAfter(u, p, v);
    WrapDomain(u, first);
    assert After(u, v, d) == first;
    assert d >= p.step;
    var x := v + p.step;
    WrapDomain(u, x);
    WrapDomain(u, x - u.CycleLen());
    AboveLast(vals, x);
    assert !(u.Domain(x) && Fires(u, p, x));
    assert x >= u.Lo() + u.CycleLen();
    assert x - u.CycleLen() in vals;
    var k :| 0 <= k < |vals| && vals[k] == x - u.CycleLen();
  }

  lemma AboveLast(vals: seq<int>, x: int)
    requires Ascending(vals) && vals != [] && x > vals[|vals| - 1]
    ensures x !in vals
  {
  }

  /** What the code's two tests on the list come to. */
  lemma Spacing(u: Unit, p: Part)
    requires p.step > 0 && u.Lo() <= p.a <= p.b <= u.Hi()
    ensures var vals := FiredSet(u, Range(p.a, p.b, p.step));
      && vals != []
      && (|vals| == 1 <==> FiresOnce(u, p))
      && (|vals| > 1 ==> (EvenlySpaced(u, vals, p.step) <==> Uniform(u, p)))
  {
    hide Fires, FiredSet, Range, FiresOnce, Uniform, EvenlySpaced;
    FiredSetLists(u, p);
    var vals := FiredSet(u, Range(p.a, p.b, p.step));
    if |vals| > 1 && EvenlySpaced(u, vals, p.step) {
      EvenlySpacedIsUniform(u, p);
    }
    if |vals| > 1 && Uniform(u, p) {
      UniformIsEvenlySpaced(u, p);
    }
  }

  /** A wildcard step is put as a cadence exactly when it fires more than once at equal gaps
      round the whole cycle; otherwise its values are spelled out. */
  lemma WildcardPhrase(u: Unit, step: int)
    requires step > 0
    ensures var w, p := WildcardStepPhrase(u, step), Part(u.Lo(), u.Hi(), step);
      if step == 1 then w == Every
      else if FiresOnce(u, p) then w.Single?
      else if Uniform(u, p) then w == EveryN(step)
      else w.Listed?
  {
    hide FiredSet, Range, FiresOnce, Uniform, EvenlySpaced;
    Spacing(u, Part(u.Lo(), u.Hi(), step));
    var vals := FiredSet(u, Range(u.Lo(), u.Hi(), step));
    if |vals| > 1 {
      WholeFieldSteps(u, step, vals);
    }
  }

  /** So is a step from a value. */
  lemma StartPhrase(u: Unit, start: int, step: int)
    requires step > 0 && u.Lo() <= start <= u.Hi()
    ensures var w, p := StartStepPhrase(u, start, step), Part(start, u.Hi(), step);
      if FiresOnce(u, p) then w.Single?
      else if Uniform(u, p) then w == EveryNStarting(step, u.Pretty(start))
      else w.Listed?
  {
    hide FiredSet, Range, FiresOnce, Uniform, EvenlySpaced;
    Spacing(u, Part(start, u.Hi(), step));
  }

  /** A stepped range names its end, so that must be the whole field's or be fired on. */
  lemma RangeStepPhraseIs(u: Unit, p: Part)
    requires p.step > 0 && u.Lo() <= p.a <= p.b <= u.Hi() && u.Pretty(p.a) != u.Pretty(p.b)
    ensures var w := RangeStepPhrase(u, p.a, p.b, p.step);
      if FiresOnce(u, p) then w.Single?
      else if Uniform(u, p) && ((p.a == u.Lo() && p.b == u.Hi()) || (u.Domain(p.b) && Fires(u, p, p.b)))
      then w == EveryNFromThrough(p.step, u.Pretty(p.a), u.Pretty(p.b))
      else w.Listed?
  {
    hide Fires, FiredSet, Range, FiresOnce, Uniform, EvenlySpaced;
    Spacing(u, p);
    FiredSetNonEmpty(u, p.a, p.b, p.step);
    FiredSetLists(u, p);
    LastIsEnd(u, p, FiredSet(u, Range(p.a, p.b, p.step)));
  }

  /** A range whose ends read alike is a whole week, one value, or spelled out. */
  lemma DegeneratePhrase(u: Unit, p: Part)
    requires p.step > 0 && u.Lo() <= p.a <= p.b <= u.Hi() && u.Pretty(p.a) == u.Pretty(p.b)
    ensures var w := DegenerateRangePhrase(u, p.a, p.b, p.step);
      if FiresOnce(u, p) then w.Single?
      else if forall v :: u.Domain(v) ==> Fires(u, p, v) then w == Every
      else w.Listed?
  {
    hide Fires, FiredSet, Range, FiresOnce, Uniform, EvenlySpaced;
    Spacing(u, p);
    FullCycle(u, p);
  }

  /** A list as long as the cycle has every value of it. */
  lemma FullCycle(u: Unit, p: Part)
    requires p.step > 0 && u.Lo() <= p.a <= p.b <= u.Hi() && u.Pretty(p.a) == u.Pretty(p.b)
    ensures var vals := FiredSet(u, Range(p.a, p.b, p.step));
      |vals| > 1 ==> (|vals| == u.CycleLen() <==> forall v :: u.Domain(v) ==> Fires(u, p, v))
  {
    hide Fires, Range, Nth;
    var vals := FiredSet(u, Range(p.a, p.b, p.step));
    FiredSetLists(u, p);
    if u.DayOfWeek? {
      WeekCounts(Range(p.a, p.b, p.step));
    } else {
      OneElementRange(p.a, p.step);
    }
  }

  lemma WeekCounts(raw: seq<int>)
    ensures var vals := FiredSet(DayOfWeek, raw); |vals| == 7 <==> forall v :: DayOfWeek.Domain(v) ==> v in vals
  {
    var vals := FiredSet(DayOfWeek, raw);
    if forall v :: DayOfWeek.Domain(v) ==> v in vals {
      SevenDays(vals);
    }
  }

  lemma SevenDays(vals: seq<int>)
    requires forall v :: 0 <= v < 7 ==> v in vals
    ensures |vals| >= 7
  {
    SetOfSize(vals);
    SubsetSize({0, 1, 2, 3, 4, 5, 6}, SetOf(vals));
  }

  function SetOf(vals: seq<int>): set<int> {
    set v | v in vals
  }

  lemma {:induction false} SetOfSize(vals: seq<int>)
    ensures |SetOf(vals)| <= |vals|
  {
    if vals != [] {
      SetOfSize(vals[1..]);
      assert vals == [vals[0]] + vals[1..];
      assert SetOf(vals) == {vals[0]} + SetOf(vals[1..]);
    }
  }

  lemma {:induction false} SubsetSize(a: set<int>, b: set<int>)
    requires a <= b
    ensures |a| <= |b|
  {
    assert b == a + (b - a);
    assert |b| == |a| + |b - a|;
  }

  lemma LastIsEnd(u: Unit, p: Part, vals: seq<int>)
    requires p.step > 0 && u.Lo() <= p.a <= p.b <= u.Hi()
    requires vals == FiredSet(u, Range(p.a, p.b, p.step)) && vals != [] && ListsFirings(u, p, vals)
    ensures vals[|vals| - 1] == p.b <==> u.Domain(p.b) && Fires(u, p, p.b)
  {
    hide Fires, FiredSet, Range;
    var last := vals[|vals| - 1];
    assert last in vals;
    if p.b in vals {
      RangeWithin(p.a, p.b, p.step);
      FiredWithin(u, p);
      assert last <= p.b;
      var k :| 0 <= k < |vals| && vals[k] == p.b;
    }
  }

  lemma FiredWithin(u: Unit, p: Part)
    requires p.step > 0 && u.Lo() <= p.a <= p.b <= u.Hi()
    ensures forall v :: v in FiredSet(u, Range(p.a, p.b, p.step)) ==> v <= p.b
  {
    hide Range;
    RangeWithin(p.a, p.b, p.step);
  }

  lemma WholeFieldSteps(u: Unit, step: int, vals: seq<int>)
    requires step > 0 && |vals| > 1 && vals == FiredSet(u, Range(u.Lo(), u.Hi(), step))
    ensures step != 1 ==> (EvenlySpaced(u, vals, step) <==> u.CycleLen() % step == 0)
  {
    hide FiredSet, Range;
    if u.CycleLen() % step == 0 {
      if u.DayOfWeek? {
        SevenDivisors(step);
        if step == 7 {
          RangeOfSeven();
          SundayOnly(Range(0, 7, 7));
        }
      } else {
        DividingStepIsEven(u, step);
        NotAWeek(u, Range(u.Lo(), u.Hi(), step));
      }
    }
    if EvenlySpaced(u, vals, step) {
      ModMultiple(|vals|, step);
    }
  }

  lemma RangeOfSeven()
    ensures Range(0, 7, 7) == [0, 7]
  {
  }

  // ---- one expression, character by character ----------------------------------------------------

  /** Digits read as numbers and are neither white space nor upper case. */
  predicate ReadsDigits(lex: Lexer) {
    && (forall c :: c in "0159-*" ==> !lex.isSpace(c))
    && (forall s :: s in ["0", "1", "5", "9"] ==> lex.lower(s) == s)
    && lex.toInt("0") == Some(0) && lex.toInt("1") == Some(1) && lex.toInt("5") == Some(5) && lex.toInt("9") == Some(9)
  }

  /** "0 9 * * 1-5" runs at nine on Mondays to Fridays. */
  lemma NineOnWeekdays(lex: Lexer, t: seq<int>)
    requires ReadsDigits(lex) && Moment(t)
    ensures CronRuns(lex, ["0", "9", "*", "*", "1-5"], t) <==> t[0] == 0 && t[1] == 9 && 1 <= t[4] <= 5
  {
    hide FieldMatches, ReadsDigits;
    assert FIELDS[0] == Minute && FIELDS[1] == Hour && FIELDS[2] == DayOfMonth && FIELDS[3] == Month && FIELDS[4] == DayOfWeek;
    assert FIELDS[0].Domain(t[0]) && FIELDS[1].Domain(t[1]) && FIELDS[2].Domain(t[2]) && FIELDS[3].Domain(t[3]) && FIELDS[4].Domain(t[4]);
    NumberField(lex, Minute, "0", 0, t[0]);
    NumberField(lex, Hour, "9", 9, t[1]);
    StarField(lex, DayOfMonth, t[2]);
    StarField(lex, Month, t[3]);
    WeekdaysField(lex, t[4]);
  }

  /** "0 0 1 * 1" runs at midnight on the first of each month and on every Monday, not just on
      Mondays that are the first. */
  lemma FirstsAndMondays(lex: Lexer, t: seq<int>)
    requires ReadsDigits(lex) && Moment(t)
    ensures CronRuns(lex, ["0", "0", "1", "*", "1"], t) <==> t[0] == 0 && t[1] == 0 && (t[2] == 1 || t[4] == 1)
  {
    hide FieldMatches, ReadsDigits;
    assert FIELDS[0] == Minute && FIELDS[1] == Hour && FIELDS[2] == DayOfMonth && FIELDS[3] == Month && FIELDS[4] == DayOfWeek;
    assert FIELDS[0].Domain(t[0]) && FIELDS[1].Domain(t[1]) && FIELDS[2].Domain(t[2]) && FIELDS[3].Domain(t[3]) && FIELDS[4].Domain(t[4]);
    NumberField(lex, Minute, "0", 0, t[0]);
    NumberField(lex, Hour, "0", 0, t[1]);
    NumberField(lex, DayOfMonth, "1", 1, t[2]);
    StarField(lex, Month, t[3]);
    NumberField(lex, DayOfWeek, "1", 1, t[4]);
  }

  lemma NumberField(lex: Lexer, u: Unit, field: string, n: int, v: int)
    requires ReadsDigits(lex) && u.Domain(n) && u.Domain(v)
    requires (field == "0" && n == 0) || (field == "1" && n == 1) || (field == "5" && n == 5) || (field == "9" && n == 9)
    ensures FieldMatches(lex, u, field, v) <==> v == n
  {
    hide FieldMatches, Strip, Reached, Reads;
    StripTrimmed(lex.isSpace, field);
    ValueText(lex, u, field);
    SingleText(lex, u, field);
    Matches(lex, u, field, n, n, 1, v);
    ByOne(u, n, n, v);
  }

  lemma StarField(lex: Lexer, u: Unit, v: int)
    requires ReadsDigits(lex) && u.Domain(v)
    ensures FieldMatches(lex, u, "*", v)
  {
    hide FieldMatches, Strip;
    StripTrimmed(lex.isSpace, "*");
    AsteriskMatches(lex, u, v);
  }

  lemma WeekdaysField(lex: Lexer, v: int)
    requires ReadsDigits(lex) && DayOfWeek.Domain(v)
    ensures FieldMatches(lex, DayOfWeek, "1-5", v) <==> 1 <= v <= 5
  {
    hide FieldMatches, Strip, Reached, Reads;
    assert "1" + "-" + "5" == "1-5";
    StripTrimmed(lex.isSpace, "1");
    StripTrimmed(lex.isSpace, "5");
    StripTrimmed(lex.isSpace, "1-5");
    ValueText(lex, DayOfWeek, "1");
    ValueText(lex, DayOfWeek, "5");
    RangeText(lex, DayOfWeek, "1", "5");
    Matches(lex, DayOfWeek, "1-5", 1, 5, 1, v);
    ByOne(DayOfWeek, 1, 5, v);
  }

  lemma Matches(lex: Lexer, u: Unit, field: string, a: int, b: int, step: int, v: int)
    requires step > 0 && u.Domain(v) && Reads(lex, u, field, a, b, step)
    ensures FieldMatches(lex, u, field, v) <==> Reached(u, a, b, step, v)
  {
    hide DescribeField, ParseField, Says, Reached, FieldFires;
    FieldIsHonest(lex, u, field);
  }

  lemma ByOne(u: Unit, a: int, b: int, v: int)
    requires b < 7 || u != DayOfWeek
    ensures Reached(u, a, b, 1, v) <==> a <= v <= b
  {
    if a <= v <= b {
      assert (v - a) % 1 == 0 && Means(u, v, v);
    }
  }
}
