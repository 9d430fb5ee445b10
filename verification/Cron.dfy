/** The cron explainer. A field's phrase is structured, and has a meaning of its own: the
    values a reader takes it to name, on the field's cycle. Strings are only taken apart the
    way the code takes them apart; case folding and integer syntax are parameters. */
module Cron {
  import opened Basics
  import opened Text

  datatype Lexer = Lexer(isSpace: CharClass, lower: string -> string, toInt: string -> Option<int>, words: string -> seq<string>)

  datatype Unit = Minute | Hour | DayOfMonth | Month | DayOfWeek {
    function Lo(): int {
      if DayOfMonth? || Month? then 1 else 0
    }

    /** The largest value accepted: day-of-week 7 is Sunday again. */
    function Hi(): int {
      match this
      case Minute => 59
      case Hour => 23
      case DayOfMonth => 31
      case Month => 12
      case DayOfWeek => 7
    }

    function CycleLen(): int {
      if DayOfWeek? then 7 else Hi() - Lo() + 1
    }

    function Names(): (m: map<string, int>)
      ensures forall k :: k in m ==> Lo() <= m[k] <= Hi()
    {
      match this
      case Month =>
        map["jan" := 1, "feb" := 2, "mar" := 3, "apr" := 4, "may" := 5, "jun" := 6,
            "jul" := 7, "aug" := 8, "sep" := 9, "oct" := 10, "nov" := 11, "dec" := 12]
      case DayOfWeek => map["sun" := 0, "mon" := 1, "tue" := 2, "wed" := 3, "thu" := 4, "fri" := 5, "sat" := 6]
      case _ => map[]
    }

    /** How a value is rendered: both Sundays read alike. */
    function Pretty(v: int): int {
      if DayOfWeek? && v == 7 then 0 else v
    }

    /** The values of one turn of the cycle. */
    predicate Domain(v: int) {
      Lo() <= v < Lo() + CycleLen()
    }
  }

  const FIELDS: seq<Unit> := [Minute, Hour, DayOfMonth, Month, DayOfWeek]

  /** "every minute", "at minute 5", "on months 1, 4", "every 15 minutes", "every 2 hours
      starting at hour 1", "every 2 hours from hour 1 through hour 9", "every month from
      March through May", and phrases joined by ";". Values are as rendered. */
  datatype Phrase =
    | Every
    | Single(v: int)
    | Listed(vs: seq<int>)
    | EveryN(n: int)
    | EveryNStarting(n: int, start: int)
    | EveryNFromThrough(n: int, a: int, b: int)
    | EveryFromThrough(a: int, b: int)
    | Alternatives(ps: seq<Phrase>)

  // ---- the code: lists of values -----------------------------------------------------------

  /** Term `i` of the progression from `a`. */
  function Nth(a: int, step: int, i: int): int {
    a + i * step
  }

  /** `list(range(a, b + 1, step))`. */
  function Range(a: int, b: int, step: int): seq<int>
    requires step > 0
    decreases b - a
  {
    if a > b then [] else [a] + Range(a + step, b, step)
  }

  /** Day-of-week writes Sunday twice: fold 7 onto 0, then `sorted(set(...))`. */
  function FiredSet(u: Unit, vals: seq<int>): seq<int> {
    if u.DayOfWeek? then WeekDays(vals, 0) else vals
  }

  function WeekDays(vals: seq<int>, from: nat): (r: seq<int>)
    requires from <= 7
    ensures |r| <= 7 - from
    ensures forall d :: d in r <==> from <= d < 7 && (d in vals || (d == 0 && 7 in vals))
    ensures |r| == 7 - from ==> forall d :: from <= d < 7 ==> d in r
    ensures forall i, j :: 0 <= i < j < |r| ==> r[i] < r[j]
    decreases 7 - from
  {
    if from == 7 then []
    else
      var rest := WeekDays(vals, from + 1);
      assert forall k :: 0 <= k < |rest| ==> rest[k] in rest;
      if from in vals || (from == 0 && 7 in vals) then [from] + rest else rest
  }

  lemma FiredSetNonEmpty(u: Unit, a: int, b: int, step: int)
    requires step > 0 && u.Lo() <= a <= b <= u.Hi()
    ensures u.Pretty(a) in FiredSet(u, Range(a, b, step))
  {
  }

  // ---- the code: describing a field -----------------------------------------------------------

  /** A name, or an integer inside the field's range. */
  function Resolve(lex: Lexer, u: Unit, token: string): (r: Option<int>)
    ensures r.Some? ==> u.Lo() <= r.value <= u.Hi()
  {
    var key := lex.lower(Strip(lex.isSpace, token));
    if key in u.Names() then Some(u.Names()[key])
    else match lex.toInt(token)
      case Some(v) => if v < u.Lo() || v > u.Hi() then None else Some(v)
      case None => None
  }

  function SinglePhrase(u: Unit, v: int): Phrase {
    Single(u.Pretty(v))
  }

  function PrettyAll(u: Unit, vals: seq<int>): (r: seq<int>)
    ensures |r| == |vals| && forall i :: 0 <= i < |vals| ==> r[i] == u.Pretty(vals[i])
  {
    seq(|vals|, i requires 0 <= i < |vals| => u.Pretty(vals[i]))
  }

  function SetPhrase(u: Unit, vals: seq<int>): Phrase {
    if |vals| == 1 then SinglePhrase(u, vals[0]) else Listed(PrettyAll(u, vals))
  }

  /** A range whose endpoints read alike. */
  function DegenerateRangePhrase(u: Unit, a: int, b: int, step: int): Phrase
    requires step > 0
  {
    var vals := FiredSet(u, Range(a, b, step));
    if |vals| == 1 then SinglePhrase(u, vals[0])
    else if |vals| == u.CycleLen() then Every
    else SetPhrase(u, vals)
  }

  predicate EvenlySpaced(u: Unit, vals: seq<int>, step: int) {
    |vals| * step == u.CycleLen()
  }

  function WildcardStepPhrase(u: Unit, step: int): Phrase
    requires step > 0
  {
    if step == 1 then Every
    else
      var vals := FiredSet(u, Range(u.Lo(), u.Hi(), step));
      if |vals| == 1 || u.CycleLen() % step != 0 then SetPhrase(u, vals) else EveryN(step)
  }

  function RangeStepPhrase(u: Unit, a: int, b: int, step: int): Phrase
    requires step > 0 && u.Lo() <= a <= b <= u.Hi()
  {
    FiredSetNonEmpty(u, a, b, step);
    if u.Pretty(a) == u.Pretty(b) then DegenerateRangePhrase(u, a, b, step)
    else
      var vals := FiredSet(u, Range(a, b, step));
      if |vals| == 1 then SinglePhrase(u, vals[0])
      else
        var last := vals[|vals| - 1];
        var spansTheCycle := a == u.Lo() && b == u.Hi();
        if !(EvenlySpaced(u, vals, step) && spansTheCycle) && last != b then SetPhrase(u, vals)
        else if !EvenlySpaced(u, vals, step) && last == b then SetPhrase(u, vals)
        else EveryNFromThrough(step, u.Pretty(a), u.Pretty(b))
  }

  function StartStepPhrase(u: Unit, start: int, step: int): Phrase
    requires step > 0
  {
    var vals := FiredSet(u, Range(start, u.Hi(), step));
    if |vals| == 1 then SinglePhrase(u, vals[0])
    else if !EvenlySpaced(u, vals, step) then SetPhrase(u, vals)
    else EveryNStarting(step, u.Pretty(start))
  }

  function RangePhrase(u: Unit, a: int, b: int): Phrase
    requires a <= b
  {
    if u.Pretty(a) == u.Pretty(b) then DegenerateRangePhrase(u, a, b, 1)
    else EveryFromThrough(u.Pretty(a), u.Pretty(b))
  }

  /** The endpoints of `a-b`; `None` is a `ValueError`. */
  function Endpoints(lex: Lexer, u: Unit, s: string): (r: Option<(int, int)>)
    requires '-' in s
    ensures r.Some? ==> u.Lo() <= r.value.0 <= r.value.1 <= u.Hi()
  {
    var (aS, bS) := Partition(s, '-');
    match (Resolve(lex, u, aS), Resolve(lex, u, bS))
    case (Some(a), Some(b)) => if a > b then None else Some((a, b))
    case _ => None
  }

  /** One element of a comma list; `None` is a `ValueError`. */
  function DescribePart(lex: Lexer, u: Unit, text: string): Option<Phrase> {
    var raw := Strip(lex.isSpace, text);
    if raw == "" then None
    else if '/' in raw then
      var (baseS, stepS) := Partition(raw, '/');
      var base := Strip(lex.isSpace, baseS);
      match lex.toInt(stepS)
      case None => None
      case Some(step) =>
        if step <= 0 then None
        else if base == "*" then Some(WildcardStepPhrase(u, step))
        else if '-' in base then
          match Endpoints(lex, u, base)
          case Some((a, b)) => Some(RangeStepPhrase(u, a, b, step))
          case None => None
        else
          match Resolve(lex, u, base)
          case Some(start) => Some(StartStepPhrase(u, start, step))
          case None => None
    else if raw == "*" then Some(Every)
    else if '-' in raw then
      match Endpoints(lex, u, raw)
      case Some((a, b)) => Some(RangePhrase(u, a, b))
      case None => None
    else
      match Resolve(lex, u, raw)
      case Some(v) => Some(SinglePhrase(u, v))
      case None => None
  }

  function DescribeParts(lex: Lexer, u: Unit, parts: seq<string>): Option<seq<Phrase>>
    decreases |parts|
  {
    if parts == [] then Some([])
    else match DescribePart(lex, u, parts[0])
      case None => None
      case Some(p) =>
        match DescribeParts(lex, u, parts[1..])
        case None => None
        case Some(ps) => Some([p] + ps)
  }

  /** A comma list is described part by part. No part holds a comma, so describing one never
      comes back here. */
  function DescribeField(lex: Lexer, u: Unit, text: string): Option<Phrase> {
    var raw := Strip(lex.isSpace, text);
    if raw != "" && ',' in raw then
      match DescribeParts(lex, u, SplitOn(raw, ','))
      case Some(ps) => Some(Alternatives(ps))
      case None => None
    else DescribePart(lex, u, text)
  }

  // ---- what cron does -------------------------------------------------------------------------

  /** One list element: `a-b/step`, with `*` and single values spelled out. */
  datatype Part = Part(a: int, b: int, step: int)

  datatype Bounds = Bounds(a: int, b: int, isValue: bool)

  function ParseRange(lex: Lexer, u: Unit, s: string): (r: Option<Bounds>)
    ensures r.Some? ==> u.Lo() <= r.value.a <= r.value.b <= u.Hi() && (r.value.isValue ==> r.value.a == r.value.b)
  {
    if s == "*" then Some(Bounds(u.Lo(), u.Hi(), false))
    else if '-' in s then
      match Endpoints(lex, u, s)
      case Some((a, b)) => Some(Bounds(a, b, false))
      case None => None
    else
      match Resolve(lex, u, s)
      case Some(v) => Some(Bounds(v, v, true))
      case None => None
  }

  /** A step keeps every step-th value of its range; after a single value the range runs to
      the end of the field. */
  function ParsePart(lex: Lexer, u: Unit, text: string): (r: Option<Part>)
    ensures r.Some? ==> u.Lo() <= r.value.a <= r.value.b <= u.Hi() && r.value.step > 0
  {
    var s := Strip(lex.isSpace, text);
    if s == "" then None
    else if '/' in s then
      var (baseS, stepS) := Partition(s, '/');
      match (lex.toInt(stepS), ParseRange(lex, u, Strip(lex.isSpace, baseS)))
      case (Some(n), Some(r)) => if n <= 0 then None else Some(Part(r.a, if r.isValue then u.Hi() else r.b, n))
      case _ => None
    else
      match ParseRange(lex, u, s)
      case Some(r) => Some(Part(r.a, r.b, 1))
      case None => None
  }

  function ParseParts(lex: Lexer, u: Unit, parts: seq<string>): Option<seq<Part>>
    decreases |parts|
  {
    if parts == [] then Some([])
    else match (ParsePart(lex, u, parts[0]), ParseParts(lex, u, parts[1..]))
      case (Some(p), Some(ps)) => Some([p] + ps)
      case _ => None
  }

  function ParseField(lex: Lexer, u: Unit, text: string): Option<seq<Part>> {
    var s := Strip(lex.isSpace, text);
    if s != "" && ',' in s then ParseParts(lex, u, SplitOn(s, ','))
    else match ParsePart(lex, u, text)
      case Some(p) => Some([p])
      case None => None
  }

  /** Whether the element fires on the value (or day) `v`. */
  ghost predicate Fires(u: Unit, p: Part, v: int) {
    exists i: nat :: Nth(p.a, p.step, i) <= p.b && u.Pretty(Nth(p.a, p.step, i)) == v
  }

  ghost predicate FieldFires(u: Unit, parts: seq<Part>, v: int) {
    exists p :: p in parts && Fires(u, p, v)
  }

  // ---- what a phrase says -----------------------------------------------------------------------

  /** `x` carried round the cycle. */
  function Wrap(u: Unit, x: int): int {
    u.Lo() + (x - u.Lo()) % u.CycleLen()
  }

  /** How far after `a` the value `b` comes round. */
  function Gap(u: Unit, a: int, b: int): nat {
    (b - a) % u.CycleLen()
  }

  ghost predicate Says(u: Unit, p: Phrase, v: int)
    decreases p
  {
    match p
    case Every => true
    case Single(x) => v == x
    case Listed(xs) => v in xs
    case EveryN(n) => exists i: nat :: v == Nth(u.Lo(), n, i)
    case EveryNStarting(n, s) => exists i: nat :: Nth(0, n, i) < u.CycleLen() && v == Wrap(u, Nth(s, n, i))
    case EveryNFromThrough(n, a, b) => exists i: nat :: Nth(0, n, i) <= Gap(u, a, b) && v == Wrap(u, Nth(a, n, i))
    case EveryFromThrough(a, b) => Gap(u, a, v) <= Gap(u, a, b)
    case Alternatives(ps) => exists q :: q in ps && Says(u, q, v)
  }

  /** The phrase names exactly the values the element fires on. */
  ghost predicate Honest(u: Unit, phrase: Phrase, p: Part) {
    forall v :: u.Domain(v) ==> (Says(u, phrase, v) <==> Fires(u, p, v))
  }

  // ---- lists against progressions -----------------------------------------------------------------

  lemma {:induction false} RangeTerms(a: int, b: int, step: int)
    requires step > 0
    ensures var r := Range(a, b, step);
      && (forall i :: 0 <= i < |r| ==> r[i] == Nth(a, step, i))
      && b < Nth(a, step, |r|)
      && (if a <= b then r != [] && Nth(a, step, |r| - 1) <= b else r == [])
    decreases b - a
  {
    if a <= b {
      RangeTerms(a + step, b, step);
      var rest := Range(a + step, b, step);
      NthShift(a, step, |rest|);
      NthShift(a, step, |rest| - 1);
      forall i | 0 <= i < |rest| + 1 ensures ([a] + rest)[i] == Nth(a, step, i) {
        NthShift(a, step, i - 1);
      }
    }
  }

  lemma NthShift(a: int, step: int, i: int)
    ensures Nth(a, step, i + 1) == Nth(a + step, step, i)
  {
  }

  lemma {:induction false} Multiples(k: int, step: int)
    requires step > 0
    ensures k > 0 ==> k * step >= step
    ensures k <= 0 ==> k * step <= 0
    decreases if k < 0 then -k else k
  {
    if k > 0 {
      Multiples(k - 1, step);
      assert (k - 1) * step == k * step - step;
    } else if k < 0 {
      Multiples(k + 1, step);
      assert (k + 1) * step == k * step + step;
    }
  }

  lemma NthMonotone(a: int, step: int, i: int, j: int)
    requires step > 0
    ensures i < j <==> Nth(a, step, i) < Nth(a, step, j)
    ensures i < j ==> Nth(a, step, i) + step <= Nth(a, step, j)
  {
    Multiples(j - i, step);
    assert (j - i) * step == j * step - i * step;
  }

  /** The list holds exactly the terms that do not pass the end. */
  lemma RangeFires(u: Unit, p: Part, v: int)
    requires p.step > 0
    ensures Fires(u, p, v) <==> exists x :: x in Range(p.a, p.b, p.step) && u.Pretty(x) == v
  {
    var r := Range(p.a, p.b, p.step);
    RangeTerms(p.a, p.b, p.step);
    if Fires(u, p, v) {
      var i: nat :| Nth(p.a, p.step, i) <= p.b && u.Pretty(Nth(p.a, p.step, i)) == v;
      NthMonotone(p.a, p.step, i, |r|);
      assert r[i] in r;
    }
    if x :| x in r && u.Pretty(x) == v {
      var i :| 0 <= i < |r| && r[i] == x;
      NthMonotone(p.a, p.step, i, |r| - 1);
      NthMonotone(p.a, p.step, |r| - 1, i);
      assert Nth(p.a, p.step, i) <= p.b;
    }
  }

  /** ... and the fired set, after folding, exactly the values fired on. */
  lemma FiredSetFires(u: Unit, p: Part, v: int)
    requires p.step > 0 && u.Lo() <= p.a && p.b <= u.Hi()
    ensures v in FiredSet(u, Range(p.a, p.b, p.step)) <==> Fires(u, p, v)
  {
    RangeFires(u, p, v);
    RangeWithin(p.a, p.b, p.step);
  }

  lemma {:induction false} RangeWithin(a: int, b: int, step: int)
    requires step > 0
    ensures forall x :: x in Range(a, b, step) ==> a <= x <= b
    decreases b - a
  {
    if a <= b {
      RangeWithin(a + step, b, step);
    }
  }

  // ---- each phrase is honest ------------------------------------------------------------------

  lemma FiredSetPretty(u: Unit, p: Part)
    requires p.step > 0 && u.Lo() <= p.a && p.b <= u.Hi()
    ensures var vals := FiredSet(u, Range(p.a, p.b, p.step));
      PrettyAll(u, vals) == vals && forall x :: x in vals ==> u.Domain(x)
  {
    RangeWithin(p.a, p.b, p.step);
    var vals := FiredSet(u, Range(p.a, p.b, p.step));
    forall i | 0 <= i < |vals| ensures u.Pretty(vals[i]) == vals[i] {
      assert vals[i] in vals;
    }
  }

  lemma ListedIsHonest(u: Unit, p: Part)
    requires p.step > 0 && u.Lo() <= p.a && p.b <= u.Hi()
    ensures Honest(u, SetPhrase(u, FiredSet(u, Range(p.a, p.b, p.step))), p)
  {
    hide FiredSet, Fires, Range;
    var vals := FiredSet(u, Range(p.a, p.b, p.step));
    FiredSetPretty(u, p);
    forall v | u.Domain(v) ensures Says(u, SetPhrase(u, vals), v) <==> Fires(u, p, v) {
      FiredSetFires(u, p, v);
      if |vals| == 1 {
        assert vals == [vals[0]] && PrettyAll(u, vals)[0] == u.Pretty(vals[0]);
      }
    }
  }

  lemma OneElementRange(a: int, step: int)
    requires step > 0
    ensures Range(a, a, step) == [a]
  {
  }

  lemma WrapDomain(u: Unit, x: int)
    ensures u.Domain(x) ==> Wrap(u, x) == x
    ensures u.Domain(x) ==> Wrap(u, x + u.CycleLen()) == x
  {
  }

  lemma GapDomain(u: Unit, a: int, b: int)
    requires u.Domain(a) && u.Domain(b)
    ensures Gap(u, a, b) == if b >= a then b - a else b - a + u.CycleLen()
  {
  }

  /** Every day comes round within a week of any other. */
  lemma WeekFrom(x: int, v: int)
    requires DayOfWeek.Domain(x) && DayOfWeek.Domain(v)
    ensures var i := if v >= x then v - x else v - x + 7;
      0 <= i <= 6 && Nth(0, 1, i) == i && Wrap(DayOfWeek, Nth(x, 1, i)) == v
  {
    WrapDomain(DayOfWeek, v);
  }

  lemma NthAdd(a: int, step: int, i: int, n: int)
    ensures Nth(a, step, i + n) == Nth(a, step, i) + Nth(0, step, n)
  {
    assert (i + n) * step == i * step + n * step;
  }

  /** The terms of an evenly spaced range fill the cycle: term `|r|` would be the first again. */
  lemma EvenTerms(u: Unit, p: Part)
    requires p.step > 0 && u.Lo() <= p.a <= p.b <= u.Hi() && !u.DayOfWeek?
    requires EvenlySpaced(u, Range(p.a, p.b, p.step), p.step)
    ensures var n := |Range(p.a, p.b, p.step)|;
      && n > 0 && p.step <= u.CycleLen()
      && (forall i: nat :: (i < n <==> Nth(p.a, p.step, i) <= p.b) && (i < n <==> Nth(0, p.step, i) < u.CycleLen()))
      && (forall i: int :: Nth(p.a, p.step, i + n) == Nth(p.a, p.step, i) + u.CycleLen())
  {
    hide Range, Nth;
    RangeTerms(p.a, p.b, p.step);
    var n := |Range(p.a, p.b, p.step)|;
    EvenCycle(n, p.step, u.CycleLen());
    forall i: nat ensures (i < n <==> Nth(p.a, p.step, i) <= p.b) && (i < n <==> Nth(0, p.step, i) < u.CycleLen()) {
      NthMonotone(p.a, p.step, i, n);
      NthMonotone(p.a, p.step, n - 1, i);
      NthMonotone(p.a, p.step, n, i);
      NthMonotone(0, p.step, i, n);
    }
    forall i: int ensures Nth(p.a, p.step, i + n) == Nth(p.a, p.step, i) + u.CycleLen() {
      NthAdd(p.a, p.step, i, n);
    }
  }

  lemma EvenCycle(n: nat, step: int, cycle: int)
    requires step > 0 && n > 0 && n * step == cycle
    ensures step <= cycle && Nth(0, step, n) == cycle
  {
    Multiples(n, step);
  }

  /** Seven is prime: a week is evenly spaced only when every day fires. */
  lemma EvenWeek(vals: seq<int>, step: int)
    requires step > 0 && |vals| != 1 && EvenlySpaced(DayOfWeek, vals, step)
    ensures |vals| == 7 && step == 1
  {
    var n := |vals|;
    if n > 7 {
      Multiples(step, n);
    }
    assert n == 2 ==> 2 * step != 7;
    assert n == 3 ==> 3 * step != 7;
    assert n == 4 ==> 4 * step != 7;
    assert n == 5 ==> 5 * step != 7;
    assert n == 6 ==> 6 * step != 7;
  }

  lemma FullWeek(vals: seq<int>)
    ensures |FiredSet(DayOfWeek, vals)| == 7 ==> forall v :: DayOfWeek.Domain(v) ==> v in FiredSet(DayOfWeek, vals)
  {
  }

  lemma EveryDayFires(p: Part)
    requires p.step > 0 && 0 <= p.a <= p.b <= 7
    ensures |FiredSet(DayOfWeek, Range(p.a, p.b, p.step))| == 7 ==> forall v :: DayOfWeek.Domain(v) ==> Fires(DayOfWeek, p, v)
  {
    hide Range, FiredSet, Fires;
    FullWeek(Range(p.a, p.b, p.step));
    forall v | DayOfWeek.Domain(v) ensures v in FiredSet(DayOfWeek, Range(p.a, p.b, p.step)) <==> Fires(DayOfWeek, p, v) {
      FiredSetFires(DayOfWeek, p, v);
    }
  }

  lemma DegenerateIsHonest(u: Unit, p: Part)
    requires p.step > 0 && u.Lo() <= p.a <= p.b <= u.Hi() && u.Pretty(p.a) == u.Pretty(p.b)
    ensures Honest(u, DegenerateRangePhrase(u, p.a, p.b, p.step), p)
  {
    hide Fires, Range, FiredSet;
    ListedIsHonest(u, p);
    var vals := FiredSet(u, Range(p.a, p.b, p.step));
    if u.DayOfWeek? {
      if |vals| == 7 {
        EveryDayFires(p);
      }
    } else {
      OneElementRange(p.a, p.step);
      NotAWeek(u, [p.a]);
    }
  }

  lemma StartIsHonest(u: Unit, start: int, step: int)
    requires step > 0 && u.Lo() <= start <= u.Hi()
    ensures Honest(u, StartStepPhrase(u, start, step), Part(start, u.Hi(), step))
  {
    hide Range, Wrap, FiredSet, Nth;
    var p := Part(start, u.Hi(), step);
    ListedIsHonest(u, p);
    var vals := FiredSet(u, Range(start, u.Hi(), step));
    if |vals| != 1 && EvenlySpaced(u, vals, step) {
      if u.DayOfWeek? {
        EvenWeek(vals, step);
        EveryDayFires(p);
        WeekFromSaysAll(u.Pretty(start));
      } else {
        NotAWeek(u, Range(start, u.Hi(), step));
        EvenTerms(u, p);
        forall v | u.Domain(v) ensures Says(u, EveryNStarting(step, start), v) <==> Fires(u, p, v) {
          StartSays(u, p, v);
        }
      }
    }
  }

  lemma NotAWeek(u: Unit, vals: seq<int>)
    requires !u.DayOfWeek?
    ensures FiredSet(u, vals) == vals && forall v :: u.Pretty(v) == v
  {
  }

  lemma WeekFromSaysAll(s: int)
    requires 0 <= s < 7
    ensures forall v :: DayOfWeek.Domain(v) ==> Says(DayOfWeek, EveryNStarting(1, s), v)
  {
    hide Wrap, Nth;
    forall v | DayOfWeek.Domain(v) ensures Says(DayOfWeek, EveryNStarting(1, s), v) {
      var i: nat := if v >= s then v - s else v - s + 7;
      WeekFrom(s, v);
      assert Nth(0, 1, i) < 7 && v == Wrap(DayOfWeek, Nth(s, 1, i));
    }
  }

  /** On an evenly spaced part, going round the cycle from the start and stopping at the end
      of the field are the same thing. */
  lemma StartSays(u: Unit, p: Part, v: int)
    requires p.step > 0 && u.Lo() <= p.a <= p.b <= u.Hi() && !u.DayOfWeek? && u.Domain(v)
    requires forall i: nat :: Nth(p.a, p.step, i) <= p.b <==> Nth(0, p.step, i) < u.CycleLen()
    ensures Says(u, EveryNStarting(p.step, p.a), v) <==> Fires(u, p, v)
  {
    hide Wrap;
    if i: nat :| Nth(0, p.step, i) < u.CycleLen() && v == Wrap(u, Nth(p.a, p.step, i)) {
      Multiples(i, p.step);
      if i == 0 { assert Nth(p.a, p.step, 0) == p.a; } else { assert i * p.step > 0; }
      WrapDomain(u, Nth(p.a, p.step, i));
    }
    if i: nat :| Nth(p.a, p.step, i) <= p.b && u.Pretty(Nth(p.a, p.step, i)) == v {
      WrapDomain(u, v);
    }
  }

  lemma RangeSaysBetween(u: Unit, p: Part, v: int)
    requires p.step > 0 && u.Lo() <= p.a <= p.b <= u.Hi() && !u.DayOfWeek? && u.Domain(v)
    ensures Says(u, EveryNFromThrough(p.step, p.a, p.b), v) <==> Fires(u, p, v)
  {
    hide Wrap, Gap;
    GapDomain(u, p.a, p.b);
    if i: nat :| Nth(0, p.step, i) <= Gap(u, p.a, p.b) && v == Wrap(u, Nth(p.a, p.step, i)) {
      Multiples(i, p.step);
      WrapDomain(u, Nth(p.a, p.step, i));
      assert Nth(p.a, p.step, i) <= p.b && u.Pretty(Nth(p.a, p.step, i)) == v;
    }
    if i: nat :| Nth(p.a, p.step, i) <= p.b && u.Pretty(Nth(p.a, p.step, i)) == v {
      WrapDomain(u, v);
      assert Nth(0, p.step, i) <= Gap(u, p.a, p.b) && v == Wrap(u, Nth(p.a, p.step, i));
    }
  }

  /** A range that reaches every day without its ends reading alike is the whole week. */
  lemma WeekRangeSaysAll(a: int, b: int)
    requires 0 <= a <= b <= 7 && DayOfWeek.Pretty(a) != DayOfWeek.Pretty(b)
    ensures |FiredSet(DayOfWeek, Range(a, b, 1))| == 7 ==>
      forall v :: DayOfWeek.Domain(v) ==> Says(DayOfWeek, EveryNFromThrough(1, DayOfWeek.Pretty(a), DayOfWeek.Pretty(b)), v)
  {
    hide Range, FiredSet, Wrap, Gap, Nth;
    var vals := Range(a, b, 1);
    RangeWithin(a, b, 1);
    FullWeek(vals);
    if |FiredSet(DayOfWeek, vals)| == 7 {
      WeekHas(vals, 0);
      WeekHas(vals, 1);
      WeekHas(vals, 6);
      var x, y := DayOfWeek.Pretty(a), DayOfWeek.Pretty(b);
      GapDomain(DayOfWeek, x, y);
      assert Gap(DayOfWeek, x, y) == 6;
      forall v | DayOfWeek.Domain(v) ensures Says(DayOfWeek, EveryNFromThrough(1, x, y), v) {
        var i: nat := if v >= x then v - x else v - x + 7;
        WeekFrom(x, v);
        assert Nth(0, 1, i) <= Gap(DayOfWeek, x, y) && v == Wrap(DayOfWeek, Nth(x, 1, i));
      }
    }
  }

  lemma WeekHas(vals: seq<int>, d: int)
    requires d in FiredSet(DayOfWeek, vals)
    ensures d in vals || (d == 0 && 7 in vals)
  {
  }

  lemma RangeStepIsHonest(u: Unit, p: Part)
    requires p.step > 0 && u.Lo() <= p.a <= p.b <= u.Hi()
    ensures Honest(u, RangeStepPhrase(u, p.a, p.b, p.step), p)
  {
    hide Range, FiredSet, Fires, Nth, Wrap, DegenerateRangePhrase;
    if u.Pretty(p.a) == u.Pretty(p.b) {
      DegenerateIsHonest(u, p);
    } else {
      ListedIsHonest(u, p);
      FiredSetNonEmpty(u, p.a, p.b, p.step);
      var vals := FiredSet(u, Range(p.a, p.b, p.step));
      if |vals| != 1 && EvenlySpaced(u, vals, p.step) {
        if u.DayOfWeek? {
          EvenWeek(vals, p.step);
          EveryDayFires(p);
          WeekRangeSaysAll(p.a, p.b);
        } else {
          NotAWeek(u, Range(p.a, p.b, p.step));
          forall v | u.Domain(v) ensures Says(u, EveryNFromThrough(p.step, p.a, p.b), v) <==> Fires(u, p, v) {
            RangeSaysBetween(u, p, v);
          }
        }
      }
    }
  }

  /** With step 1 a part fires on what its interval covers. */
  lemma IntervalFires(u: Unit, p: Part, v: int)
    requires p.step == 1
    ensures Fires(u, p, v) <==> exists x: int :: p.a <= x <= p.b && u.Pretty(x) == v
  {
    if x: int :| p.a <= x <= p.b && u.Pretty(x) == v {
      assert Nth(p.a, 1, x - p.a) == x;
    }
    if i: nat :| Nth(p.a, p.step, i) <= p.b && u.Pretty(Nth(p.a, p.step, i)) == v {
      assert p.a <= Nth(p.a, 1, i);
    }
  }

  lemma RangeIsHonest(u: Unit, a: int, b: int)
    requires u.Lo() <= a <= b <= u.Hi()
    ensures Honest(u, RangePhrase(u, a, b), Part(a, b, 1))
  {
    hide Fires, DegenerateRangePhrase;
    var p := Part(a, b, 1);
    if u.Pretty(a) == u.Pretty(b) {
      DegenerateIsHonest(u, p);
    } else {
      forall v | u.Domain(v) ensures Says(u, EveryFromThrough(u.Pretty(a), u.Pretty(b)), v) <==> Fires(u, p, v) {
        IntervalFires(u, p, v);
        IntervalSays(u, a, b, v);
      }
    }
  }

  lemma IntervalSays(u: Unit, a: int, b: int, v: int)
    requires u.Lo() <= a <= b <= u.Hi() && u.Pretty(a) != u.Pretty(b) && u.Domain(v)
    ensures Gap(u, u.Pretty(a), v) <= Gap(u, u.Pretty(a), u.Pretty(b)) <==> exists x: int :: a <= x <= b && u.Pretty(x) == v
  {
    hide Gap;
    assert u.Pretty(v) == v && DayOfWeek.Pretty(7) == 0;
    GapDomain(u, u.Pretty(a), v);
    GapDomain(u, u.Pretty(a), u.Pretty(b));
  }

  lemma SevenDivisors(step: int)
    ensures step > 0 && 7 % step == 0 ==> step == 1 || step == 7
  {
    assert step > 7 ==> 7 % step == 7;
  }

  lemma {:induction false} NoWeekDays(vals: seq<int>, from: nat)
    requires 1 <= from <= 7 && forall d :: from <= d < 7 ==> d !in vals
    ensures WeekDays(vals, from) == []
    decreases 7 - from
  {
    if from < 7 {
      NoWeekDays(vals, from + 1);
    }
  }

  lemma SundayOnly(vals: seq<int>)
    requires vals == [0, 7]
    ensures FiredSet(DayOfWeek, vals) == [0]
  {
    NoWeekDays(vals, 1);
  }

  lemma WildcardIsHonest(u: Unit, step: int)
    requires step > 0
    ensures Honest(u, WildcardStepPhrase(u, step), Part(u.Lo(), u.Hi(), step))
  {
    hide FiredSet;
    var p := Part(u.Lo(), u.Hi(), step);
    ListedIsHonest(u, p);
    if step == 1 {
      EveryIsHonest(u);
    } else if u.CycleLen() % step == 0 {
      if u.DayOfWeek? {
        SevenDivisors(step);
        assert Range(0, 7, 7) == [0, 7];
        SundayOnly(Range(0, 7, 7));
      } else {
        forall v | u.Domain(v) ensures Says(u, EveryN(step), v) <==> Fires(u, p, v) {
        }
      }
    }
  }

  lemma EveryIsHonest(u: Unit)
    ensures Honest(u, Every, Part(u.Lo(), u.Hi(), 1))
  {
    hide Fires;
    var p := Part(u.Lo(), u.Hi(), 1);
    forall v | u.Domain(v) ensures Fires(u, p, v) {
      IntervalFires(u, p, v);
      assert u.Pretty(v) == v;
    }
  }

  lemma SingleIsHonest(u: Unit, x: int)
    requires u.Lo() <= x <= u.Hi()
    ensures Honest(u, SinglePhrase(u, x), Part(x, x, 1))
  {
    hide Fires;
    forall v | u.Domain(v) ensures v == u.Pretty(x) <==> Fires(u, Part(x, x, 1), v) {
      IntervalFires(u, Part(x, x, 1), v);
    }
  }

  /** Main theorem, one element: it is described exactly when it is valid, and then the
      phrase names exactly the values cron fires on. */
  lemma PartIsHonest(lex: Lexer, u: Unit, text: string)
    ensures DescribePart(lex, u, text).Some? <==> ParsePart(lex, u, text).Some?
    ensures DescribePart(lex, u, text).Some? ==> Honest(u, DescribePart(lex, u, text).value, ParsePart(lex, u, text).value)
  {
    hide Honest, WildcardStepPhrase, RangeStepPhrase, StartStepPhrase, RangePhrase, SinglePhrase, Endpoints, Resolve, Strip, Partition;
    if ParsePart(lex, u, text).Some? {
      var p := ParsePart(lex, u, text).value;
      WildcardIsHonest(u, p.step);
      RangeStepIsHonest(u, p);
      StartIsHonest(u, p.a, p.step);
      RangeIsHonest(u, p.a, p.b);
      SingleIsHonest(u, p.a);
      EveryIsHonest(u);
    }
  }

  lemma {:induction false} PartsAreHonest(lex: Lexer, u: Unit, texts: seq<string>)
    ensures DescribeParts(lex, u, texts).Some? <==> ParseParts(lex, u, texts).Some?
    ensures DescribeParts(lex, u, texts).Some? ==>
      var ps, qs := DescribeParts(lex, u, texts).value, ParseParts(lex, u, texts).value;
      |ps| == |qs| == |texts| && forall i :: 0 <= i < |ps| ==> Honest(u, ps[i], qs[i])
    decreases |texts|
  {
    hide DescribePart, ParsePart, Honest;
    if texts != [] {
      PartIsHonest(lex, u, texts[0]);
      PartsAreHonest(lex, u, texts[1..]);
    }
  }

  /** Main theorem: a field is described exactly when every element is valid, and then the
      phrase names exactly the firing set, comma lists being unions and both Sundays one day. */
  lemma FieldIsHonest(lex: Lexer, u: Unit, text: string)
    ensures DescribeField(lex, u, text).Some? <==> ParseField(lex, u, text).Some?
    ensures DescribeField(lex, u, text).Some? ==>
      forall v :: u.Domain(v) ==>
        (Says(u, DescribeField(lex, u, text).value, v) <==> FieldFires(u, ParseField(lex, u, text).value, v))
  {
    hide DescribePart, ParsePart, DescribeParts, ParseParts, Strip, SplitOn, Fires;
    PartIsHonest(lex, u, text);
    var s := Strip(lex.isSpace, text);
    PartsAreHonest(lex, u, SplitOn(s, ','));
    if DescribeField(lex, u, text).Some? {
      forall v | u.Domain(v)
        ensures Says(u, DescribeField(lex, u, text).value, v) <==> FieldFires(u, ParseField(lex, u, text).value, v)
      {
        if s != "" && ',' in s {
          UnionSays(u, DescribeParts(lex, u, SplitOn(s, ',')).value, ParseParts(lex, u, SplitOn(s, ',')).value, v);
        }
      }
    }
  }

  lemma UnionSays(u: Unit, ps: seq<Phrase>, qs: seq<Part>, v: int)
    requires |ps| == |qs| && u.Domain(v)
    requires forall i :: 0 <= i < |ps| ==> Honest(u, ps[i], qs[i])
    ensures Says(u, Alternatives(ps), v) <==> FieldFires(u, qs, v)
  {
    hide Fires;
    if q :| q in ps && Says(u, q, v) {
      var i :| 0 <= i < |ps| && ps[i] == q;
      assert Honest(u, ps[i], qs[i]) && qs[i] in qs;
    }
    if p :| p in qs && Fires(u, p, v) {
      var i :| 0 <= i < |qs| && qs[i] == p;
      assert Honest(u, ps[i], qs[i]) && ps[i] in ps;
    }
  }

  // ---- cadence ---------------------------------------------------------------------------------

  /** The element fires with all gaps equal, the one round the end of the cycle included. */
  ghost predicate Uniform(u: Unit, p: Part) {
    forall v :: u.Domain(v) && Fires(u, p, v) ==> NextAfter(u, p, v)
  }

  /** The value `d` after `v`. */
  function After(u: Unit, v: int, d: int): int {
    Wrap(u, v + d)
  }

  /** The next firing after `v` is exactly one step later. */
  ghost predicate NextAfter(u: Unit, p: Part, v: int) {
    && Fires(u, p, After(u, v, p.step))
    && forall d :: 0 < d < p.step ==> !Fires(u, p, After(u, v, d))
  }

  predicate ClaimsCadence(phrase: Phrase, n: int) {
    match phrase
    case EveryN(k) => k == n
    case EveryNStarting(k, _) => k == n
    case EveryNFromThrough(k, _, _) => k == n
    case _ => false
  }

  lemma EvenIsUniform(u: Unit, p: Part)
    requires p.step > 0 && u.Lo() <= p.a <= p.b <= u.Hi() && !u.DayOfWeek?
    requires EvenlySpaced(u, Range(p.a, p.b, p.step), p.step)
    ensures Uniform(u, p)
  {
    hide Wrap, Range, EvenlySpaced, Nth, NextAfter;
    EvenTerms(u, p);
    var n := |Range(p.a, p.b, p.step)|;
    forall v | u.Domain(v) && Fires(u, p, v) ensures NextAfter(u, p, v) {
      var i: nat :| Nth(p.a, p.step, i) <= p.b && u.Pretty(Nth(p.a, p.step, i)) == v;
      NotAWeek(u, []);
      TermIsUniform(u, p, i, n);
    }
  }

  lemma TermIsUniform(u: Unit, p: Part, i: nat, n: nat)
    requires p.step > 0 && u.Lo() <= p.a <= p.b <= u.Hi() && !u.DayOfWeek? && i < n
    requires p.step <= u.CycleLen()
    requires forall j: nat :: j < n <==> Nth(p.a, p.step, j) <= p.b
    requires forall j: int :: Nth(p.a, p.step, j + n) == Nth(p.a, p.step, j) + u.CycleLen()
    ensures NextAfter(u, p, Nth(p.a, p.step, i))
  {
    hide Wrap, Nth, Fires;
    var v := Nth(p.a, p.step, i);
    NextTerm(u, p, i, n);
    forall d | 0 < d < p.step ensures !Fires(u, p, After(u, v, d)) {
      NothingBetween(u, p, i, n, d);
    }
  }

  lemma NthSucc(a: int, step: int, i: int)
    ensures Nth(a, step, i + 1) == Nth(a, step, i) + step
    ensures Nth(a, step, 0) == a
  {
  }

  lemma NextTerm(u: Unit, p: Part, i: nat, n: nat)
    requires p.step > 0 && u.Lo() <= p.a <= p.b <= u.Hi() && !u.DayOfWeek? && i < n
    requires forall j: nat :: j < n <==> Nth(p.a, p.step, j) <= p.b
    requires forall j: int :: Nth(p.a, p.step, j + n) == Nth(p.a, p.step, j) + u.CycleLen()
    ensures Fires(u, p, Wrap(u, Nth(p.a, p.step, i) + p.step))
  {
    hide Wrap, Nth;
    NthSucc(p.a, p.step, i);
    NthSucc(p.a, p.step, 0);
    NthMonotone(p.a, p.step, 0, i + 1);
    if i + 1 < n {
      WrapDomain(u, Nth(p.a, p.step, i + 1));
      assert u.Pretty(Nth(p.a, p.step, i + 1)) == Nth(p.a, p.step, i + 1);
    } else {
      assert Nth(p.a, p.step, 0 + n) == p.a + u.CycleLen();
      WrapDomain(u, p.a);
      assert u.Pretty(Nth(p.a, p.step, 0)) == p.a;
    }
  }

  lemma NothingBetween(u: Unit, p: Part, i: nat, n: nat, d: int)
    requires p.step > 0 && u.Lo() <= p.a <= p.b <= u.Hi() && !u.DayOfWeek? && i < n
    requires p.step <= u.CycleLen() && 0 < d < p.step
    requires forall j: nat :: j < n <==> Nth(p.a, p.step, j) <= p.b
    requires forall j: int :: Nth(p.a, p.step, j + n) == Nth(p.a, p.step, j) + u.CycleLen()
    ensures !Fires(u, p, Wrap(u, Nth(p.a, p.step, i) + d))
  {
    hide Wrap, Nth;
    var x := Nth(p.a, p.step, i) + d;
    NthMonotone(p.a, p.step, 0, i);
    NthSucc(p.a, p.step, 0);
    WrapDomain(u, x);
    WrapDomain(u, x - u.CycleLen());
    forall j: nat | Nth(p.a, p.step, j) <= p.b ensures u.Pretty(Nth(p.a, p.step, j)) != Wrap(u, x) {
      assert Nth(p.a, p.step, j + n) == Nth(p.a, p.step, j) + u.CycleLen();
      NthMonotone(p.a, p.step, i, j);
      NthMonotone(p.a, p.step, i, j + n);
    }
  }

  lemma WeekIsUniform(p: Part)
    requires p.step == 1 && forall v :: DayOfWeek.Domain(v) ==> Fires(DayOfWeek, p, v)
    ensures Uniform(DayOfWeek, p)
  {
    hide Fires;
    forall v | DayOfWeek.Domain(v) ensures NextAfter(DayOfWeek, p, v) {
      assert DayOfWeek.Domain(After(DayOfWeek, v, 1));
    }
  }

  /** A list that is evenly spaced, folded or not, has a uniform cadence. */
  lemma EvenlySpacedIsUniform(u: Unit, p: Part)
    requires p.step > 0 && u.Lo() <= p.a <= p.b <= u.Hi()
    requires var vals := FiredSet(u, Range(p.a, p.b, p.step)); |vals| != 1 && EvenlySpaced(u, vals, p.step)
    ensures Uniform(u, p)
  {
    hide Range, FiredSet, Fires, Uniform;
    var vals := FiredSet(u, Range(p.a, p.b, p.step));
    if u.DayOfWeek? {
      EvenWeek(vals, p.step);
      EveryDayFires(p);
      WeekIsUniform(p);
    } else {
      NotAWeek(u, Range(p.a, p.b, p.step));
      EvenIsUniform(u, p);
    }
  }

  lemma DivExact(c: int, step: int)
    requires step > 0 && c % step == 0
    ensures (c / step) * step == c
  {
  }

  /** A step that divides the cycle fills it. */
  lemma DividingStepIsEven(u: Unit, step: int)
    requires step > 0 && !u.DayOfWeek? && u.CycleLen() % step == 0
    ensures EvenlySpaced(u, Range(u.Lo(), u.Hi(), step), step)
  {
    var lo, c := u.Lo(), u.CycleLen();
    DivExact(c, step);
    ExactRange(lo, u.Hi(), step, c / step);
  }

  lemma ExactRange(a: int, b: int, step: int, q: int)
    requires step > 0 && a <= b && Nth(a, step, q) == b + 1
    ensures |Range(a, b, step)| == q
  {
    hide Range, Nth;
    RangeTerms(a, b, step);
    var n := |Range(a, b, step)|;
    NthMonotone(a, step, n, q);
    NthMonotone(a, step, n - 1, q);
  }

  lemma WildcardCadence(u: Unit, step: int)
    requires step > 0 && WildcardStepPhrase(u, step).EveryN?
    ensures Uniform(u, Part(u.Lo(), u.Hi(), step)) && WildcardStepPhrase(u, step).n == step
  {
    hide FiredSet, Uniform, EvenlySpaced;
    if u.DayOfWeek? {
      SevenDivisors(step);
      assert Range(0, 7, 7) == [0, 7];
      SundayOnly(Range(0, 7, 7));
      assert false;
    } else {
      DividingStepIsEven(u, step);
      EvenIsUniform(u, Part(u.Lo(), u.Hi(), step));
    }
  }

  lemma StartCadence(u: Unit, start: int, step: int)
    requires step > 0 && u.Lo() <= start <= u.Hi() && StartStepPhrase(u, start, step).EveryNStarting?
    ensures Uniform(u, Part(start, u.Hi(), step)) && StartStepPhrase(u, start, step).n == step
  {
    hide Range, FiredSet, Uniform, EvenlySpaced;
    EvenlySpacedIsUniform(u, Part(start, u.Hi(), step));
  }

  lemma RangeStepCadence(u: Unit, p: Part)
    requires p.step > 0 && u.Lo() <= p.a <= p.b <= u.Hi() && RangeStepPhrase(u, p.a, p.b, p.step).EveryNFromThrough?
    ensures Uniform(u, p) && RangeStepPhrase(u, p.a, p.b, p.step).n == p.step
  {
    hide Range, FiredSet, Uniform, EvenlySpaced;
    FiredSetNonEmpty(u, p.a, p.b, p.step);
    EvenlySpacedIsUniform(u, p);
  }

  lemma OnlyStepsClaimCadence(u: Unit, a: int, b: int, step: int)
    requires step > 0
    ensures var w := WildcardStepPhrase(u, step); !w.EveryNStarting? && !w.EveryNFromThrough?
    ensures var w := StartStepPhrase(u, a, step); !w.EveryN? && !w.EveryNFromThrough?
    ensures u.Lo() <= a <= b <= u.Hi() ==> var w := RangeStepPhrase(u, a, b, step); !w.EveryN? && !w.EveryNStarting?
    ensures a <= b ==> var w := RangePhrase(u, a, b); !w.EveryN? && !w.EveryNStarting? && !w.EveryNFromThrough?
  {
    hide Range, FiredSet;
    if u.Lo() <= a <= b <= u.Hi() {
      FiredSetNonEmpty(u, a, b, step);
    }
  }

  /** An "every N" phrase is only ever used for an element whose gaps are all N. */
  lemma CadenceIsUniform(lex: Lexer, u: Unit, text: string, n: int)
    ensures var phrase, part := DescribePart(lex, u, text), ParsePart(lex, u, text);
      phrase.Some? && ClaimsCadence(phrase.value, n) ==> part.Some? && part.value.step == n && Uniform(u, part.value)
  {
    hide WildcardStepPhrase, RangeStepPhrase, StartStepPhrase, RangePhrase, Endpoints, Resolve, Strip, Partition, Uniform, Honest;
    PartIsHonest(lex, u, text);
    var phrase := DescribePart(lex, u, text);
    if phrase.Some? && ClaimsCadence(phrase.value, n) {
      var p := ParsePart(lex, u, text).value;
      OnlyStepsClaimCadence(u, p.a, p.b, p.step);
      match phrase.value {
        case EveryN(_) => WildcardCadence(u, p.step);
        case EveryNStarting(_, _) => StartCadence(u, p.a, p.step);
        case EveryNFromThrough(_, _, _) => RangeStepCadence(u, p);
      }
    }
  }

  // ---- the whole expression ---------------------------------------------------------------------

  datatype Payload = NoText | CronText(text: string)

  datatype Problem = NotAString | WrongFieldCount(n: nat) | BadField(index: nat)

  /** The joined phrases, or the minute, hour and month phrases with "either ... or ..." for
      the two day fields. */
  datatype Summary = All(phrases: seq<Phrase>) | EitherDay(phrases: seq<Phrase>, dom: Phrase, dow: Phrase)

  datatype Answer = Invalid(problem: Problem) | Valid(phrases: seq<Phrase>, domDowOr: bool, summary: Summary)

  function FirstBad(lex: Lexer, fields: seq<string>, from: nat): (r: nat)
    requires |fields| == 5 && from <= 5
    ensures from <= r <= 5
    ensures r < 5 ==> DescribeField(lex, FIELDS[r], fields[r]).None?
    ensures forall i :: from <= i < r ==> DescribeField(lex, FIELDS[i], fields[i]).Some?
    decreases 5 - from
  {
    if from == 5 || DescribeField(lex, FIELDS[from], fields[from]).None? then from else FirstBad(lex, fields, from + 1)
  }

  predicate Restricted(field: string) {
    field != "*" && field != "?"
  }

  /** The phrases of all five fields, and the summary built from them. */
  ghost predicate Explains(lex: Lexer, fields: seq<string>, answer: Answer)
    requires |fields| == 5
  {
    && answer.Valid? && |answer.phrases| == 5
    && (forall i :: 0 <= i < 5 ==> DescribeField(lex, FIELDS[i], fields[i]) == Some(answer.phrases[i]))
    && answer.domDowOr == (Restricted(fields[2]) && Restricted(fields[4]))
    && answer.summary == (if answer.domDowOr
         then EitherDay([answer.phrases[0], answer.phrases[1], answer.phrases[3]], answer.phrases[2], answer.phrases[4])
         else All(answer.phrases))
  }

  /** Describe the fields in order; the first bad one ends it. */
  method Compute(lex: Lexer, payload: Payload) returns (answer: Answer)
    ensures payload.NoText? ==> answer == Invalid(NotAString)
    ensures payload.CronText? ==>
      var fields := lex.words(payload.text);
      if |fields| != 5 then answer == Invalid(WrongFieldCount(|fields|))
      else if FirstBad(lex, fields, 0) < 5 then answer == Invalid(BadField(FirstBad(lex, fields, 0)))
      else Explains(lex, fields, answer)
  {
    hide DescribeField;
    if payload.NoText? {
      return Invalid(NotAString);
    }
    var fields := lex.words(payload.text);
    if |fields| != 5 {
      return Invalid(WrongFieldCount(|fields|));
    }
    var phrases: seq<Phrase> := [];
    for i := 0 to 5
      invariant |phrases| == i && FirstBad(lex, fields, 0) == FirstBad(lex, fields, i)
      invariant forall j :: 0 <= j < i ==> DescribeField(lex, FIELDS[j], fields[j]) == Some(phrases[j])
    {
      var phrase := DescribeField(lex, FIELDS[i], fields[i]);
      if phrase.None? {
        return Invalid(BadField(i));
      }
      phrases := phrases + [phrase.value];
    }
    var either := Restricted(fields[2]) && Restricted(fields[4]);
    var summary := if either then EitherDay(phrases[..2] + phrases[3..4], phrases[2], phrases[4]) else All(phrases);
    assert phrases[..2] + phrases[3..4] == [phrases[0], phrases[1], phrases[3]];
    return Valid(phrases, either, summary);
  }

  /** A minute on the calendar, in field order. */
  ghost predicate Moment(t: seq<int>) {
    |t| == 5 && forall i :: 0 <= i < 5 ==> FIELDS[i].Domain(t[i])
  }

  ghost predicate SummarySays(s: Summary, t: seq<int>)
    requires |t| == 5
  {
    match s
    case All(ps) => forall i :: 0 <= i < |ps| && i < 5 ==> Says(FIELDS[i], ps[i], t[i])
    case EitherDay(ps, dom, dow) =>
      && |ps| == 3
      && Says(Minute, ps[0], t[0]) && Says(Hour, ps[1], t[1]) && Says(Month, ps[2], t[3])
      && (Says(DayOfMonth, dom, t[2]) || Says(DayOfWeek, dow, t[4]))
  }

  ghost predicate FieldMatches(lex: Lexer, u: Unit, field: string, v: int) {
    ParseField(lex, u, field).Some? && FieldFires(u, ParseField(lex, u, field).value, v)
  }

  /** When a cron daemon runs the job: minute, hour and month must match; of the two day
      fields, both when one of them is an asterisk, either when neither is. */
  ghost predicate CronRuns(lex: Lexer, fields: seq<string>, t: seq<int>)
    requires |fields| == 5 && |t| == 5
  {
    var dom, dow := FieldMatches(lex, DayOfMonth, fields[2], t[2]), FieldMatches(lex, DayOfWeek, fields[4], t[4]);
    && FieldMatches(lex, Minute, fields[0], t[0])
    && FieldMatches(lex, Hour, fields[1], t[1])
    && FieldMatches(lex, Month, fields[3], t[3])
    && (if fields[2] != "*" && fields[4] != "*" then dom || dow else dom && dow)
  }

  /** A lone "?" is neither a name nor an integer, so it never gets past its field. */
  predicate NoQuestionMark(lex: Lexer) {
    && Strip(lex.isSpace, "?") == "?" && lex.toInt("?").None? && lex.lower("?") == "?"
  }

  lemma QuestionMarkIsInvalid(lex: Lexer, u: Unit)
    requires NoQuestionMark(lex)
    ensures DescribeField(lex, u, "?").None?
  {
    hide Strip;
  }

  /** Main theorem: a valid expression's summary holds at exactly the minutes cron runs it,
      the either-or rule included. */
  lemma SummaryIsHonest(lex: Lexer, fields: seq<string>, answer: Answer, t: seq<int>)
    requires NoQuestionMark(lex) && Moment(t)
    requires |fields| == 5 && Explains(lex, fields, answer)
    ensures SummarySays(answer.summary, t) <==> CronRuns(lex, fields, t)
  {
    hide DescribeField, ParseField, FieldFires, Says, NoQuestionMark;
    forall i | 0 <= i < 5 ensures Says(FIELDS[i], answer.phrases[i], t[i]) <==> FieldMatches(lex, FIELDS[i], fields[i], t[i]) {
      FieldIsHonest(lex, FIELDS[i], fields[i]);
    }
    QuestionMarkIsInvalid(lex, DayOfMonth);
    QuestionMarkIsInvalid(lex, DayOfWeek);
    assert DescribeField(lex, FIELDS[2], fields[2]).Some? && DescribeField(lex, FIELDS[4], fields[4]).Some?;
    assert FIELDS[0] == Minute && FIELDS[1] == Hour && FIELDS[3] == Month;
    assert Says(FIELDS[0], answer.phrases[0], t[0]) <==> FieldMatches(lex, Minute, fields[0], t[0]);
    assert Says(FIELDS[1], answer.phrases[1], t[1]) <==> FieldMatches(lex, Hour, fields[1], t[1]);
    assert Says(FIELDS[2], answer.phrases[2], t[2]) <==> FieldMatches(lex, DayOfMonth, fields[2], t[2]);
    assert Says(FIELDS[3], answer.phrases[3], t[3]) <==> FieldMatches(lex, Month, fields[3], t[3]);
    assert Says(FIELDS[4], answer.phrases[4], t[4]) <==> FieldMatches(lex, DayOfWeek, fields[4], t[4]);
  }

  // ---- the rule as POSIX words it ------------------------------------------------------------------

  /** The `crontab` utility, INPUT FILES, POSIX.1-2017: month and day of month together name
      dates; when they are restricted and the day of week is too, a date or a weekday will do. */
  ghost predicate PosixRuns(lex: Lexer, fields: seq<string>, t: seq<int>)
    requires |fields| == 5 && |t| == 5
  {
    var onDate := FieldMatches(lex, Month, fields[3], t[3]) && FieldMatches(lex, DayOfMonth, fields[2], t[2]);
    var onDay := FieldMatches(lex, DayOfWeek, fields[4], t[4]);
    && FieldMatches(lex, Minute, fields[0], t[0])
    && FieldMatches(lex, Hour, fields[1], t[1])
    && (if fields[4] == "*" then onDate
        else if fields[2] == "*" && fields[3] == "*" then onDay
        else onDate || onDay)
  }

  ghost predicate AlwaysMatches(lex: Lexer, u: Unit, field: string) {
    forall v :: u.Domain(v) ==> FieldMatches(lex, u, field, v)
  }

  /** Neither rule can be told from the other. */
  ghost predicate RulesAgree(lex: Lexer, fields: seq<string>)
    requires |fields| == 5
  {
    forall t :: Moment(t) ==> (CronRuns(lex, fields, t) <==> PosixRuns(lex, fields, t))
  }

  /** An asterisk stays an asterisk under `strip`. */
  predicate KeepsAsterisk(lex: Lexer) {
    Strip(lex.isSpace, "*") == "*"
  }

  lemma AsteriskMatches(lex: Lexer, u: Unit, v: int)
    requires KeepsAsterisk(lex) && u.Domain(v)
    ensures FieldMatches(lex, u, "*", v)
  {
    hide Strip;
    EveryIsHonest(u);
    var p := Part(u.Lo(), u.Hi(), 1);
    assert ParsePart(lex, u, "*") == Some(p);
    assert ParseField(lex, u, "*") == Some([p]);
    assert Says(u, Every, v) && Fires(u, p, v);
    assert p in [p];
  }

  /** A valid field matches at least one value. */
  lemma MatchesSomewhere(lex: Lexer, u: Unit, field: string) returns (v: int)
    requires ParseField(lex, u, field).Some?
    ensures u.Domain(v) && FieldMatches(lex, u, field, v)
  {
    hide Strip, ParsePart;
    var s := Strip(lex.isSpace, field);
    var parts := ParseField(lex, u, field).value;
    var p := parts[0];
    v := u.Pretty(p.a);
    assert Nth(p.a, p.step, 0) == p.a;
    assert Fires(u, p, v);
  }

  /** The rule the summary states and the rule POSIX words differ in one thing: a restricted
      month does not bind the weekday under POSIX. They agree on every minute exactly when
      month or weekday is an asterisk, or the month field names every month and either the
      day of month is restricted too or the weekday field names every day. */
  lemma RulesAgreeIff(lex: Lexer, fields: seq<string>)
    requires KeepsAsterisk(lex) && |fields| == 5
    requires forall i :: 0 <= i < 5 ==> ParseField(lex, FIELDS[i], fields[i]).Some?
    ensures RulesAgree(lex, fields) <==>
      || fields[3] == "*" || fields[4] == "*"
      || (AlwaysMatches(lex, Month, fields[3]) && (fields[2] != "*" || AlwaysMatches(lex, DayOfWeek, fields[4])))
  {
    hide ParseField, FieldFires, FieldMatches, Strip;
    if fields[3] == "*" || fields[4] == "*" || (AlwaysMatches(lex, Month, fields[3]) && (fields[2] != "*" || AlwaysMatches(lex, DayOfWeek, fields[4]))) {
      forall t | Moment(t) ensures CronRuns(lex, fields, t) <==> PosixRuns(lex, fields, t) {
        assert FIELDS[2].Domain(t[2]) && FIELDS[3].Domain(t[3]) && FIELDS[4].Domain(t[4]);
        AsteriskMatches(lex, DayOfMonth, t[2]);
        AsteriskMatches(lex, Month, t[3]);
        AsteriskMatches(lex, DayOfWeek, t[4]);
      }
    } else {
      assert FIELDS[0] == Minute && FIELDS[1] == Hour && FIELDS[3] == Month && FIELDS[4] == DayOfWeek;
      var minute := MatchesSomewhere(lex, FIELDS[0], fields[0]);
      var hour := MatchesSomewhere(lex, FIELDS[1], fields[1]);
      if !AlwaysMatches(lex, Month, fields[3]) {
        var month :| Month.Domain(month) && !FieldMatches(lex, Month, fields[3], month);
        var day := MatchesSomewhere(lex, FIELDS[4], fields[4]);
        RulesDiffer(lex, fields, [minute, hour, 1, month, day]);
      } else {
        var month := MatchesSomewhere(lex, FIELDS[3], fields[3]);
        var day :| DayOfWeek.Domain(day) && !FieldMatches(lex, DayOfWeek, fields[4], day);
        AsteriskMatches(lex, DayOfMonth, 1);
        RulesDiffer(lex, fields, [minute, hour, 1, month, day]);
      }
    }
  }

  lemma RulesDiffer(lex: Lexer, fields: seq<string>, t: seq<int>)
    requires |fields| == 5
    ensures Moment(t) && CronRuns(lex, fields, t) != PosixRuns(lex, fields, t) ==> !RulesAgree(lex, fields)
  {
    hide FieldMatches;
  }
}
