/** The evidence backstop for mined habits: words that share a stem are folded into groups,
    one group per concept, and a habit survives only if enough user lines name enough
    concepts. */
module Habits {

  const HABIT_MIN_STEM_LEN: nat := 5
  const HABIT_MIN_USER_LINES: nat := 3

  /** Equal, or the shorter word is long enough and begins the longer one. */
  predicate WordsMatch(a: string, b: string) {
    a == b ||
    (if |a| <= |b| then |a| >= HABIT_MIN_STEM_LEN && a <= b else |b| >= HABIT_MIN_STEM_LEN && b <= a)
  }

  // ---- the order of the fold -------------------------------------------------------------------

  predicate LexLess(a: string, b: string)
    requires |a| == |b|
  {
    a != "" && (a[0] < b[0] || (a[0] == b[0] && LexLess(a[1..], b[1..])))
  }

  /** `key=lambda w: (len(w), w)`. */
  predicate Precedes(a: string, b: string) {
    |a| < |b| || (|a| == |b| && LexLess(a, b))
  }

  lemma {:induction false} LexOrder(a: string, b: string)
    requires |a| == |b|
    ensures a == b || LexLess(a, b) || LexLess(b, a)
    ensures !(LexLess(a, b) && LexLess(b, a)) && (a == b ==> !LexLess(a, b))
  {
    if a != "" {
      LexOrder(a[1..], b[1..]);
      assert a == [a[0]] + a[1..] && b == [b[0]] + b[1..];
    }
  }

  lemma {:induction false} LexTransitive(a: string, b: string, c: string)
    requires |a| == |b| == |c| && LexLess(a, b) && LexLess(b, c)
    ensures LexLess(a, c)
  {
    if a[0] == b[0] == c[0] {
      LexTransitive(a[1..], b[1..], c[1..]);
    }
  }

  lemma PrecedesOrder(a: string, b: string)
    ensures a == b || Precedes(a, b) || Precedes(b, a)
    ensures !(Precedes(a, b) && Precedes(b, a)) && (a == b ==> !Precedes(a, b))
  {
    if |a| == |b| {
      LexOrder(a, b);
    }
  }

  lemma PrecedesTransitive(a: string, b: string, c: string)
    requires Precedes(a, b) && Precedes(b, c)
    ensures Precedes(a, c)
  {
    if |a| == |b| == |c| {
      LexTransitive(a, b, c);
    }
  }

  ghost predicate Ascending(ws: seq<string>) {
    forall i, j :: 0 <= i < j < |ws| ==> Precedes(ws[i], ws[j])
  }

  function Insert(ws: seq<string>, w: string): (r: seq<string>)
    ensures forall x :: x in r <==> x == w || x in ws
  {
    if ws == [] then [w]
    else
      assert ws == [ws[0]] + ws[1..];
      if ws[0] == w then ws
      else if Precedes(w, ws[0]) then [w] + ws
      else [ws[0]] + Insert(ws[1..], w)
  }

  /** `sorted(habit_words, ...)`, from any order the set may be iterated in. */
  function SortWords(words: seq<string>): (r: seq<string>)
    ensures forall x :: x in r <==> x in words
  {
    if words == [] then []
    else
      assert words == [words[0]] + words[1..];
      Insert(SortWords(words[1..]), words[0])
  }

  lemma {:induction false} InsertAscending(ws: seq<string>, w: string)
    requires Ascending(ws)
    ensures Ascending(Insert(ws, w))
  {
    if ws != [] && ws[0] != w {
      PrecedesOrder(w, ws[0]);
      if Precedes(w, ws[0]) {
        forall j | 0 <= j < |ws| ensures Precedes(w, ws[j]) {
          if j > 0 {
            PrecedesTransitive(w, ws[0], ws[j]);
          }
        }
      } else {
        InsertAscending(ws[1..], w);
        var rest := Insert(ws[1..], w);
        forall j | 0 <= j < |rest| ensures Precedes(ws[0], rest[j]) {
          assert rest[j] in rest;
          if rest[j] != w {
            var k :| 0 <= k < |ws[1..]| && ws[1..][k] == rest[j];
            assert Precedes(ws[0], ws[k + 1]);
          }
        }
      }
    }
  }

  lemma {:induction false} SortAscending(words: seq<string>)
    ensures Ascending(SortWords(words))
  {
    if words != [] {
      SortAscending(words[1..]);
      InsertAscending(SortWords(words[1..]), words[0]);
    }
  }

  /** An ascending list is determined by its members. */
  lemma {:induction false} AscendingUnique(a: seq<string>, b: seq<string>)
    requires Ascending(a) && Ascending(b) && forall x :: x in a <==> x in b
    ensures a == b
  {
    BothEmpty(a, b);
    if a != [] {
      FirstIsLeast(a, b);
      FirstIsLeast(b, a);
      PrecedesOrder(a[0], b[0]);
      TailMembers(a);
      TailMembers(b);
      AscendingUnique(a[1..], b[1..]);
    }
  }

  lemma BothEmpty(a: seq<string>, b: seq<string>)
    requires forall x :: x in a <==> x in b
    ensures a == [] <==> b == []
  {
    if a != [] { assert a[0] in b; }
    if b != [] { assert b[0] in a; }
  }

  lemma FirstIsLeast(a: seq<string>, b: seq<string>)
    requires Ascending(a) && a != [] && b != [] && forall x :: x in a <==> x in b
    ensures a[0] == b[0] || Precedes(a[0], b[0])
  {
    assert b[0] in a;
    var i :| 0 <= i < |a| && a[i] == b[0];
    assert i > 0 ==> Precedes(a[0], a[i]);
  }

  lemma TailMembers(a: seq<string>)
    requires Ascending(a) && a != []
    ensures forall x :: x in a[1..] <==> x in a && x != a[0]
  {
    assert a == [a[0]] + a[1..];
    forall i | 1 <= i < |a| ensures a[i] != a[0] {
      PrecedesOrder(a[0], a[i]);
    }
    assert forall x :: x in a[1..] ==> exists i :: 1 <= i < |a| && a[i] == x;
  }

  // ---- the fold ----------------------------------------------------------------------------------

  type Groups = seq<seq<string>>

  ghost predicate NonEmptyGroups(groups: Groups) {
    forall g :: 0 <= g < |groups| ==> groups[g] != []
  }

  /** The first group whose representative matches, or the number of groups. */
  function FindGroup(groups: Groups, w: string): (g: nat)
    requires NonEmptyGroups(groups)
    ensures g <= |groups|
    ensures g < |groups| ==> WordsMatch(groups[g][0], w)
    ensures forall h :: 0 <= h < g ==> !WordsMatch(groups[h][0], w)
  {
    if groups == [] || WordsMatch(groups[0][0], w) then 0 else 1 + FindGroup(groups[1..], w)
  }

  function Place(groups: Groups, w: string): (r: Groups)
    requires NonEmptyGroups(groups)
    ensures NonEmptyGroups(r)
  {
    var g := FindGroup(groups, w);
    if g < |groups| then groups[g := groups[g] + [w]] else groups + [[w]]
  }

  function Fold(ws: seq<string>): (r: Groups)
    ensures NonEmptyGroups(r)
  {
    if ws == [] then [] else Place(Fold(ws[..|ws| - 1]), ws[|ws| - 1])
  }

  function StemGroups(words: seq<string>): (r: Groups)
    ensures NonEmptyGroups(r)
  {
    Fold(SortWords(words))
  }

  lemma FirstMatch(groups: Groups, w: string, g: nat)
    requires NonEmptyGroups(groups) && g <= |groups|
    requires g < |groups| ==> WordsMatch(groups[g][0], w)
    requires forall h :: 0 <= h < g ==> !WordsMatch(groups[h][0], w)
    ensures Place(groups, w) == if g < |groups| then groups[g := groups[g] + [w]] else groups + [[w]]
  {
    assert g == FindGroup(groups, w);
  }

  lemma FoldSnoc(ws: seq<string>, i: nat)
    requires i < |ws|
    ensures Fold(ws[..i + 1]) == Place(Fold(ws[..i]), ws[i])
  {
    assert ws[..i + 1][..i] == ws[..i];
  }

  /** Words in order of length, then text; each joins the first group it matches, or opens
      one. */
  method HabitStemGroups(words: seq<string>) returns (stems: Groups)
    ensures stems == StemGroups(words)
  {
    hide Fold, Place, WordsMatch;
    stems := [];
    var ordered := SortWords(words);
    FoldNothing();
    assert ordered[..0] == [];
    for i := 0 to |ordered|
      invariant NonEmptyGroups(stems) && stems == Fold(ordered[..i])
    {
      var hw := ordered[i];
      FoldSnoc(ordered, i);
      var g := 0;
      while g < |stems| && !WordsMatch(stems[g][0], hw)
        invariant g <= |stems| && forall h :: 0 <= h < g ==> !WordsMatch(stems[h][0], hw)
      {
        g := g + 1;
      }
      FirstMatch(stems, hw, g);
      if g < |stems| {
        stems := stems[g := stems[g] + [hw]];
      } else {
        stems := stems + [[hw]];
      }
    }
    assert ordered[..|ordered|] == ordered;
  }

  lemma FoldNothing()
    ensures Fold([]) == []
  {
  }

  /** The grouping does not depend on the order in which the words come. */
  lemma GroupsOrderIndependent(a: seq<string>, b: seq<string>)
    requires forall x :: x in a <==> x in b
    ensures StemGroups(a) == StemGroups(b)
  {
    SortAscending(a);
    SortAscending(b);
    AscendingUnique(SortWords(a), SortWords(b));
  }

  // ---- what the groups are --------------------------------------------------------------------------

  /** `ws` folded: every word in one group, each group led by a word all its members match,
      and no two leaders match. */
  ghost predicate Folded(groups: Groups, ws: seq<string>) {
    && NonEmptyGroups(groups)
    && (forall w :: w in ws <==> exists g :: 0 <= g < |groups| && w in groups[g])
    && (forall g, w :: 0 <= g < |groups| && w in groups[g] ==> WordsMatch(groups[g][0], w) && |groups[g][0]| <= |w|)
    && (forall g, h :: 0 <= g < h < |groups| ==> !WordsMatch(groups[g][0], groups[h][0]))
  }

  lemma PlaceFolded(groups: Groups, ws: seq<string>, w: string)
    requires Folded(groups, ws) && forall x :: x in ws ==> |x| <= |w|
    ensures Folded(Place(groups, w), ws + [w])
  {
    var r := Place(groups, w);
    var k := FindGroup(groups, w);
    forall g | 0 <= g < |groups| ensures |groups[g][0]| <= |w| {
      assert groups[g][0] in groups[g];
    }
    if k < |groups| {
      assert r[k] == groups[k] + [w];
    }
    forall x ensures x in ws + [w] <==> exists g :: 0 <= g < |r| && x in r[g] {
      if x == w {
        assert x in r[k];
      }
      if g :| 0 <= g < |groups| && x in groups[g] {
        assert x in r[g];
      }
      if g :| 0 <= g < |r| && x in r[g] {
        assert g < |groups| && x != w ==> x in groups[g];
      }
    }
  }

  lemma {:induction false} FoldFolded(ws: seq<string>)
    requires Ascending(ws)
    ensures Folded(Fold(ws), ws)
  {
    if ws != [] {
      var front, last := ws[..|ws| - 1], ws[|ws| - 1];
      assert ws == front + [last];
      FoldFolded(front);
      forall x | x in front ensures |x| <= |last| {
        var i :| 0 <= i < |front| && front[i] == x;
        assert Precedes(ws[i], ws[|ws| - 1]);
      }
      PlaceFolded(Fold(front), front, last);
    }
  }

  /** Prefixes of one word are prefixes of each other. */
  lemma PrefixesNest(a: string, b: string, w: string)
    requires a <= w && b <= w && |a| <= |b|
    ensures a <= b
  {
  }

  /** A word no shorter than two leaders cannot match both. */
  lemma OneLeader(groups: Groups, ws: seq<string>, w: string, g: nat, h: nat)
    requires Folded(groups, ws) && g < |groups| && h < |groups|
    requires WordsMatch(groups[g][0], w) && WordsMatch(groups[h][0], w)
    requires |groups[g][0]| <= |w| && |groups[h][0]| <= |w|
    ensures g == h
  {
    var a, b := groups[g][0], groups[h][0];
    assert a <= w && b <= w;
    if |a| <= |b| {
      PrefixesNest(a, b, w);
    } else {
      PrefixesNest(b, a, w);
    }
    assert WordsMatch(a, b) && WordsMatch(b, a);
  }

  ghost predicate InGroup(groups: Groups, g: int, w: string) {
    0 <= g < |groups| && w in groups[g]
  }

  /** Every word is in exactly one group, and matches the leader of no other that is not longer. */
  lemma HomeGroup(words: seq<string>, w: string) returns (g: nat)
    requires w in words
    ensures var groups := StemGroups(words);
      && InGroup(groups, g, w)
      && (forall h :: InGroup(groups, h, w) ==> h == g)
      && (forall h :: 0 <= h < |groups| ==> (WordsMatch(groups[h][0], w) && |groups[h][0]| <= |w| <==> h == g))
  {
    var groups, ws := StemGroups(words), SortWords(words);
    SortAscending(words);
    FoldFolded(ws);
    g :| 0 <= g < |groups| && w in groups[g];
    forall h | 0 <= h < |groups| && WordsMatch(groups[h][0], w) && |groups[h][0]| <= |w| ensures h == g {
      OneLeader(groups, ws, w, g, h);
    }
  }

  /** A chain of words from the habit, each matching the next. */
  ghost predicate Chain(words: seq<string>, path: seq<string>) {
    && (forall i :: 0 <= i < |path| ==> path[i] in words)
    && (forall i :: 0 <= i < |path| - 1 ==> WordsMatch(path[i], path[i + 1]))
  }

  ghost predicate Connected(words: seq<string>, a: string, b: string) {
    exists path :: path != [] && Chain(words, path) && path[0] == a && path[|path| - 1] == b
  }

  ghost predicate SameGroup(groups: Groups, a: string, b: string) {
    exists g :: InGroup(groups, g, a) && InGroup(groups, g, b)
  }

  /** Matching words are in one group. */
  lemma MatchSameGroup(words: seq<string>, a: string, b: string)
    requires a in words && b in words && WordsMatch(a, b) && |a| <= |b|
    ensures SameGroup(StemGroups(words), a, b)
  {
    var groups, ws := StemGroups(words), SortWords(words);
    SortAscending(words);
    FoldFolded(ws);
    var g := HomeGroup(words, a);
    var h := HomeGroup(words, b);
    var lead := groups[g][0];
    assert lead <= a && a <= b;
    assert WordsMatch(lead, b) && |lead| <= |b|;
    OneLeader(groups, ws, b, g, h);
  }

  /** Every word is in exactly one group, and that is the one group whose leader it matches. */
  lemma EachWordOneGroup(words: seq<string>, w: string) returns (g: nat)
    requires w in words
    ensures var groups := StemGroups(words);
      && (forall h :: InGroup(groups, h, w) <==> h == g)
      && (forall h :: 0 <= h < |groups| ==> (WordsMatch(groups[h][0], w) <==> h == g))
  {
    hide WordsMatch, StemGroups;
    var groups := StemGroups(words);
    g := HomeGroup(words, w);
    GroupLeader(words, g, w);
    forall h | 0 <= h < |groups| && WordsMatch(groups[h][0], w) ensures h == g {
      var lead := groups[h][0];
      assert InGroup(groups, h, lead);
      GroupLeader(words, h, lead);
      if |lead| > |w| {
        Symmetric(lead, w);
        MatchSameGroup(words, w, lead);
        var k := HomeGroup(words, lead);
      }
    }
  }

  lemma {:induction false} ChainSameGroup(words: seq<string>, path: seq<string>)
    requires path != [] && Chain(words, path)
    ensures SameGroup(StemGroups(words), path[0], path[|path| - 1])
    decreases |path|
  {
    hide StemGroups;
    var g := HomeGroup(words, path[0]);
    if |path| > 1 {
      var rest := path[1..];
      forall i | 0 <= i < |rest| - 1 ensures WordsMatch(rest[i], rest[i + 1]) {
        assert WordsMatch(path[i + 1], path[i + 1 + 1]);
      }
      ChainSameGroup(words, rest);
      assert WordsMatch(path[0], path[0 + 1]);
      if |path[0]| <= |path[1]| {
        MatchSameGroup(words, path[0], path[1]);
      } else {
        MatchSameGroup(words, path[1], path[0]);
      }
      var k := HomeGroup(words, path[1]);
    }
  }

  lemma GroupLeader(words: seq<string>, g: int, w: string)
    requires InGroup(StemGroups(words), g, w)
    ensures var lead := StemGroups(words)[g][0];
      w in words && lead in words && WordsMatch(lead, w) && WordsMatch(w, lead)
  {
    hide WordsMatch;
    var groups, ws := StemGroups(words), SortWords(words);
    SortAscending(words);
    FoldFolded(ws);
    var lead := groups[g][0];
    assert lead in groups[g] && lead in ws && w in ws;
    Symmetric(lead, w);
  }

  lemma SameGroupConnected(words: seq<string>, g: int, a: string, b: string)
    requires InGroup(StemGroups(words), g, a) && InGroup(StemGroups(words), g, b)
    ensures Connected(words, a, b)
  {
    hide WordsMatch, StemGroups;
    GroupLeader(words, g, a);
    GroupLeader(words, g, b);
    var path := [a, StemGroups(words)[g][0], b];
    assert Chain(words, path) && path[0] == a && path[|path| - 1] == b;
  }

  lemma Symmetric(a: string, b: string)
    ensures WordsMatch(a, b) == WordsMatch(b, a)
  {
  }

  /** The groups are exactly the connected components of the match relation. */
  lemma GroupsAreComponents(words: seq<string>, a: string, b: string)
    requires a in words && b in words
    ensures SameGroup(StemGroups(words), a, b) <==> Connected(words, a, b)
  {
    hide StemGroups, Chain, InGroup;
    if g :| InGroup(StemGroups(words), g, a) && InGroup(StemGroups(words), g, b) {
      SameGroupConnected(words, g, a, b);
    }
    if path :| path != [] && Chain(words, path) && path[0] == a && path[|path| - 1] == b {
      ChainSameGroup(words, path);
    }
  }

  // ---- one user word ------------------------------------------------------------------------------

  /** A user word evidences a group when it matches any of its words. */
  predicate Evidences(group: seq<string>, u: string) {
    exists i :: 0 <= i < |group| && WordsMatch(u, group[i])
  }

  /** Two leaders both begin with the user word, which is long enough to count as a stem. */
  ghost predicate Straddles(groups: Groups, u: string)
    requires NonEmptyGroups(groups)
  {
    |u| >= HABIT_MIN_STEM_LEN && exists g, h :: 0 <= g < h < |groups| && u <= groups[g][0] && u <= groups[h][0]
  }

  /** The same, said of the habit's own words: `u` is long enough to be a stem, and begins two
      of them that are not connected. */
  ghost predicate SharesStem(words: seq<string>, u: string) {
    |u| >= HABIT_MIN_STEM_LEN &&
    exists a, b :: a in words && b in words && u <= a && u <= b && !Connected(words, a, b)
  }

  ghost predicate AtMostOneConcept(groups: Groups, u: string) {
    forall g, h :: 0 <= g < |groups| && 0 <= h < |groups| && Evidences(groups[g], u) && Evidences(groups[h], u) ==> g == h
  }

  /** A word that begins no leader evidences at most the group it extends. */
  lemma EvidenceLeader(groups: Groups, ws: seq<string>, u: string, g: nat)
    requires Folded(groups, ws) && g < |groups| && Evidences(groups[g], u)
    ensures var lead := groups[g][0];
      (WordsMatch(lead, u) && |lead| <= |u|) || (|u| >= HABIT_MIN_STEM_LEN && u <= lead)
  {
    var i :| 0 <= i < |groups[g]| && WordsMatch(u, groups[g][i]);
    var lead, hw := groups[g][0], groups[g][i];
    assert hw in groups[g] && WordsMatch(lead, hw) && |lead| <= |hw|;
    assert lead <= hw;
    if |lead| <= |u| {
      if |u| <= |hw| {
        PrefixesNest(lead, u, hw);
      }
    } else {
      PrefixesNest(u, lead, hw);
    }
  }

  lemma StraddlesConcepts(words: seq<string>, u: string)
    ensures AtMostOneConcept(StemGroups(words), u) <==> !Straddles(StemGroups(words), u)
  {
    var groups, ws := StemGroups(words), SortWords(words);
    SortAscending(words);
    FoldFolded(ws);
    if Straddles(groups, u) {
      var g, h :| 0 <= g < h < |groups| && u <= groups[g][0] && u <= groups[h][0];
      assert WordsMatch(u, groups[g][0]) && WordsMatch(u, groups[h][0]);
      assert Evidences(groups[g], u) && Evidences(groups[h], u);
    } else {
      forall g, h | 0 <= g < |groups| && 0 <= h < |groups| && Evidences(groups[g], u) && Evidences(groups[h], u) ensures g == h {
        EvidenceLeader(groups, ws, u, g);
        EvidenceLeader(groups, ws, u, h);
        TwoLeaders(groups, ws, u, g, h);
      }
    }
  }

  /** A stem of a word that no other group shares a stem with begins that word's leader. */
  lemma StemBeginsLeader(words: seq<string>, u: string, a: string, b: string, g: nat, h: nat)
    requires InGroup(StemGroups(words), g, a) && InGroup(StemGroups(words), h, b) && g != h
    requires |u| >= HABIT_MIN_STEM_LEN && u <= a && u <= b
    ensures u <= StemGroups(words)[g][0]
  {
    var groups, ws := StemGroups(words), SortWords(words);
    SortAscending(words);
    FoldFolded(ws);
    var lead := groups[g][0];
    assert WordsMatch(lead, a) && |lead| <= |a|;
    assert lead <= a;
    if |u| <= |lead| {
      PrefixesNest(u, lead, a);
    } else {
      PrefixesNest(lead, u, a);
      assert lead <= b && WordsMatch(lead, b);
      assert WordsMatch(groups[h][0], b) && |groups[h][0]| <= |b|;
      OneLeader(groups, ws, b, g, h);
    }
  }

  lemma StraddlesIffSharesStem(words: seq<string>, u: string)
    ensures Straddles(StemGroups(words), u) <==> SharesStem(words, u)
  {
    hide StemGroups, WordsMatch, Connected;
    var groups := StemGroups(words);
    if Straddles(groups, u) {
      var g, h :| 0 <= g < h < |groups| && u <= groups[g][0] && u <= groups[h][0];
      var a, b := groups[g][0], groups[h][0];
      assert InGroup(groups, g, a) && InGroup(groups, h, b);
      GroupLeader(words, g, a);
      GroupLeader(words, h, b);
      GroupsAreComponents(words, a, b);
      var ga := HomeGroup(words, a);
      var gb := HomeGroup(words, b);
      assert !SameGroup(groups, a, b);
    }
    if SharesStem(words, u) {
      var a, b :| a in words && b in words && u <= a && u <= b && !Connected(words, a, b);
      GroupsAreComponents(words, a, b);
      var g := HomeGroup(words, a);
      var h := HomeGroup(words, b);
      assert g != h by {
        assert g == h ==> SameGroup(groups, a, b);
      }
      StemBeginsLeader(words, u, a, b, g, h);
      StemBeginsLeader(words, u, b, a, h, g);
    }
  }

  /** One user word counts for one concept only -- exactly when it is not a stem of two of the
      habit's words that the habit does not otherwise connect. */
  lemma OneWordOneConcept(words: seq<string>, u: string)
    ensures AtMostOneConcept(StemGroups(words), u) <==> !SharesStem(words, u)
  {
    StraddlesConcepts(words, u);
    StraddlesIffSharesStem(words, u);
  }

  lemma TwoLeaders(groups: Groups, ws: seq<string>, u: string, g: nat, h: nat)
    requires Folded(groups, ws) && g < |groups| && h < |groups| && !Straddles(groups, u)
    requires var a := groups[g][0]; (WordsMatch(a, u) && |a| <= |u|) || (|u| >= HABIT_MIN_STEM_LEN && u <= a)
    requires var b := groups[h][0]; (WordsMatch(b, u) && |b| <= |u|) || (|u| >= HABIT_MIN_STEM_LEN && u <= b)
    ensures g == h
  {
    var a, b := groups[g][0], groups[h][0];
    if |a| <= |u| && |b| <= |u| {
      assert WordsMatch(a, u) && WordsMatch(b, u);
      OneLeader(groups, ws, u, g, h);
    } else if |a| <= |u| {
      assert WordsMatch(a, b) && |a| <= |b|;
      assert groups[h][0] in groups[h];
      OneLeader(groups, ws, b, g, h);
    } else if |b| <= |u| {
      assert WordsMatch(b, a) && |b| <= |a|;
      assert groups[g][0] in groups[g];
      OneLeader(groups, ws, a, g, h);
    }
  }

  lemma Mismatch(a: string, b: string, i: nat)
    requires i < |a| && i < |b| && a[i] != b[i]
    ensures !WordsMatch(a, b)
  {
  }

  lemma CheckedOrder()
    ensures SortWords(["checked", "checking", "status"]) == ["status", "checked", "checking"]
  {
    hide SortWords;
    var words, ordered := ["checked", "checking", "status"], ["status", "checked", "checking"];
    SortAscending(words);
    AscendingUnique(SortWords(words), ordered);
  }

  lemma CheckedGroups()
    ensures Fold(["status", "checked", "checking"]) == [["status"], ["checked"], ["checking"]]
  {
    hide Fold, Place, WordsMatch;
    var ordered := ["status", "checked", "checking"];
    Mismatch("status", "checked", 0);
    Mismatch("status", "checking", 0);
    Mismatch("checked", "checking", 5);
    FoldNothing();
    FoldSnoc(ordered, 0);
    FoldSnoc(ordered, 1);
    FoldSnoc(ordered, 2);
    assert ordered[..0] == [] && ordered[..3] == ordered;
    var none, one, two: Groups := [], [["status"]], [["status"], ["checked"]];
    FirstMatch(none, "status", 0);
    assert none + [["status"]] == one && Fold(ordered[..1]) == one;
    FirstMatch(one, "checked", 1);
    assert one + [["checked"]] == two && Fold(ordered[..2]) == two;
    FirstMatch(two, "checking", 2);
    assert two + [["checking"]] == [["status"], ["checked"], ["checking"]];
  }

  /** The concrete failure: "check" counts as two concepts of a habit that says "checked" and
      "checking". */
  lemma SharedStemCountsTwice()
    ensures var groups := StemGroups(["checked", "checking", "status"]);
      groups == [["status"], ["checked"], ["checking"]] && !AtMostOneConcept(groups, "check")
  {
    hide SortWords, Fold;
    CheckedOrder();
    CheckedGroups();
    assert "check" == "checked"[..5] && "check" == "checking"[..5];
    assert WordsMatch("check", ["checked"][0]) && WordsMatch("check", ["checking"][0]);
    var groups := StemGroups(["checked", "checking", "status"]);
    assert Evidences(groups[1], "check") && Evidences(groups[2], "check");
  }

  // ---- content words -------------------------------------------------------------------------------

  const HABIT_MIN_WORD_LEN: nat := 4

  predicate IsLetter(c: char) {
    'a' <= c <= 'z'
  }

  /** A maximal run of letters. */
  ghost predicate WholeRun(t: string, i: int, j: int) {
    && 0 <= i <= j <= |t|
    && (forall k :: i <= k < j ==> IsLetter(t[k]))
    && (i > 0 ==> !IsLetter(t[i - 1]))
    && (j < |t| ==> !IsLetter(t[j]))
  }

  /** The run `t[i..j]` is a content word. */
  ghost predicate ContentRun(t: string, filler: set<string>, i: int, j: int) {
    WholeRun(t, i, j) && j - i >= HABIT_MIN_WORD_LEN && t[i..j] !in filler
  }

  ghost predicate FoundBefore(t: string, filler: set<string>, w: string, k: nat) {
    exists i, j :: ContentRun(t, filler, i, j) && j < k && t[i..j] == w
  }

  /** `w` is one of the long enough letter runs of the lowercased text, and no filler. */
  ghost predicate IsContentWord(t: string, filler: set<string>, w: string) {
    exists i, j :: ContentRun(t, filler, i, j) && t[i..j] == w
  }

  ghost function ContentWordSet(t: string, filler: set<string>): (r: set<string>)
    ensures forall w :: w in r <==> IsContentWord(t, filler, w)
  {
    var r := set i, j | 0 <= i <= |t| && i <= j <= |t| && ContentRun(t, filler, i, j) :: t[i..j];
    assert forall w :: w in r ==> IsContentWord(t, filler, w);
    assert forall i, j :: ContentRun(t, filler, i, j) ==> t[i..j] in r;
    r
  }

  method ContentWords(lowered: string, filler: set<string>) returns (out: set<string>)
    ensures forall w :: w in out <==> IsContentWord(lowered, filler, w)
    ensures out == ContentWordSet(lowered, filler)
  {
    out := {};
    var word := "";
    ghost var s: nat := 0;
    for k := 0 to |lowered| + 1
      invariant s <= k && (k <= |lowered| || s == k)
      invariant k <= |lowered| ==> word == lowered[s..k] && (forall q :: s <= q < k ==> IsLetter(lowered[q]))
      invariant 0 < s <= |lowered| ==> !IsLetter(lowered[s - 1])
      invariant forall w :: w in out <==> FoundBefore(lowered, filler, w, k)
    {
      ghost var before := out;
      if k < |lowered| && IsLetter(lowered[k]) {
        word := word + [lowered[k]];
      } else {
        if |word| >= HABIT_MIN_WORD_LEN && word !in filler {
          out := out + {word};
        }
        word := "";
      }
      forall w ensures w in out <==> FoundBefore(lowered, filler, w, k + 1) {
        RunEnds(lowered, filler, w, s, k);
      }
      if !(k < |lowered| && IsLetter(lowered[k])) {
        s := k + 1;
      }
    }
  }

  /** Scanning past position `k` completes the run that ends there, if one does. */
  lemma RunEnds(t: string, filler: set<string>, w: string, s: nat, k: nat)
    requires s <= k <= |t| && (forall q :: s <= q < k ==> IsLetter(t[q])) && (s > 0 ==> !IsLetter(t[s - 1]))
    ensures FoundBefore(t, filler, w, k + 1) <==>
      FoundBefore(t, filler, w, k) || ((k == |t| || !IsLetter(t[k])) && ContentRun(t, filler, s, k) && w == t[s..k])
  {
    if i, j :| ContentRun(t, filler, i, j) && j < k + 1 && t[i..j] == w {
      if j == k {
        assert i == s;
      } else {
        assert FoundBefore(t, filler, w, k);
      }
    }
    if i, j :| ContentRun(t, filler, i, j) && j < k && t[i..j] == w {
      assert FoundBefore(t, filler, w, k + 1);
    }
  }

  // ---- the verdict ------------------------------------------------------------------------------------

  /** The concepts a user line names. */
  function Named(stems: Groups, line: set<string>): set<nat> {
    set g: nat | g < |stems| && exists u :: u in line && Evidences(stems[g], u)
  }

  function Required(stems: Groups): nat {
    if |stems| >= 3 then 2 else 1
  }

  function Hits(stems: Groups, lines: seq<set<string>>): (n: nat)
    ensures n <= |lines|
  {
    if lines == [] then 0
    else Hits(stems, lines[..|lines| - 1]) + if |Named(stems, lines[|lines| - 1])| >= Required(stems) then 1 else 0
  }

  predicate Supported(words: seq<string>, lines: seq<set<string>>) {
    words != [] && Hits(StemGroups(words), lines) >= HABIT_MIN_USER_LINES
  }

  /** The verdict depends on the set of habit words alone. */
  lemma SupportedOrderIndependent(a: seq<string>, b: seq<string>, lines: seq<set<string>>)
    requires forall x :: x in a <==> x in b
    ensures Supported(a, lines) == Supported(b, lines)
  {
    BothEmpty(a, b);
    GroupsOrderIndependent(a, b);
  }

  /** More lines never turn a supported habit down. */
  lemma {:induction false} HitsGrow(stems: Groups, lines: seq<set<string>>, k: nat)
    requires k <= |lines|
    ensures Hits(stems, lines[..k]) <= Hits(stems, lines)
    decreases |lines| - k
  {
    if k < |lines| {
      assert lines[..k + 1][..k] == lines[..k];
      HitsGrow(stems, lines, k + 1);
    } else {
      assert lines[..k] == lines;
    }
  }

  /** `for w in habit_words`: the elements of a set, in whatever order. */
  method Enumerate(words: set<string>) returns (ws: seq<string>)
    ensures forall x :: x in ws <==> x in words
  {
    ws := [];
    var left := words;
    while left != {}
      invariant forall x :: x in words <==> x in ws || x in left
      decreases |left|
    {
      var w :| w in left;
      ws := ws + [w];
      left := left - {w};
    }
  }

  method HabitSupported(habitWords: set<string>, lines: seq<set<string>>) returns (ok: bool)
    ensures forall ws :: (forall x :: x in ws <==> x in habitWords) ==> ok == Supported(ws, lines)
  {
    hide StemGroups, Hits;
    var words := Enumerate(habitWords);
    ok := false;
    if habitWords != {} {
      var w :| w in habitWords;
      assert words != [];
      var stems := HabitStemGroups(words);
      var required := if |stems| >= 3 then 2 else 1;
      var hits, k := 0, 0;
      NoHits(stems, lines);
      while k < |lines| && hits < HABIT_MIN_USER_LINES
        invariant k <= |lines| && hits == Hits(stems, lines[..k])
      {
        var matched := Named(stems, lines[k]);
        OneMoreLine(stems, lines, k);
        if |matched| >= required {
          hits := hits + 1;
        }
        k := k + 1;
      }
      HitsGrow(stems, lines, k);
      assert k == |lines| ==> lines[..k] == lines;
      ok := hits >= HABIT_MIN_USER_LINES;
    } else {
      NoMembers(words);
    }
    forall ws | forall x :: x in ws <==> x in habitWords ensures ok == Supported(ws, lines) {
      SupportedOrderIndependent(words, ws, lines);
    }
  }

  lemma NoMembers(ws: seq<string>)
    ensures (forall x :: x !in ws) ==> ws == []
  {
    if ws != [] {
      assert ws[0] in ws;
    }
  }

  lemma NoHits(stems: Groups, lines: seq<set<string>>)
    ensures Hits(stems, lines[..0]) == 0
  {
  }

  lemma OneMoreLine(stems: Groups, lines: seq<set<string>>, k: nat)
    requires k < |lines|
    ensures Hits(stems, lines[..k + 1]) == Hits(stems, lines[..k]) + if |Named(stems, lines[k])| >= Required(stems) then 1 else 0
  {
    assert lines[..k + 1][..k] == lines[..k];
  }

  // ---- from a fact and the transcripts to the verdict ------------------------------------------------

  const HABIT_PREFIX: string := "user.habit."

  /** `slug.replace("_", " ").replace(".", " ")`. */
  function Spaced(slug: string): (r: string)
    ensures |r| == |slug| && forall i :: 0 <= i < |slug| ==> r[i] == if slug[i] == '_' || slug[i] == '.' then ' ' else slug[i]
  {
    seq(|slug|, i requires 0 <= i < |slug| => if slug[i] == '_' || slug[i] == '.' then ' ' else slug[i])
  }

  /** How text becomes content words: the case folding and the filler words. */
  datatype Reader = Reader(lower: string -> string, filler: set<string>)

  ghost function WordsIn(reader: Reader, text: string): set<string> {
    ContentWordSet(reader.lower(text), reader.filler)
  }

  function HabitText(key: string, value: string): string
    requires HABIT_PREFIX <= key
  {
    Spaced(key[|HABIT_PREFIX|..]) + " " + value
  }

  ghost function LineWords(reader: Reader, userLines: seq<string>): (r: seq<set<string>>)
    ensures |r| == |userLines| && forall i :: 0 <= i < |userLines| ==> r[i] == WordsIn(reader, userLines[i])
  {
    seq(|userLines|, i requires 0 <= i < |userLines| => WordsIn(reader, userLines[i]))
  }

  /** The habit `key = value` is evidenced by the users' lines: its words, from slug and value,
      name at least one concept, and enough lines name enough of its concepts. */
  ghost predicate Evidenced(reader: Reader, key: string, value: string, userLines: seq<string>)
    requires HABIT_PREFIX <= key
  {
    exists ws :: (forall x :: x in ws <==> x in WordsIn(reader, HabitText(key, value))) && Supported(ws, LineWords(reader, userLines))
  }

  method HabitEvidenced(reader: Reader, key: string, value: string, userLines: seq<string>) returns (ok: bool)
    requires HABIT_PREFIX <= key
    ensures ok == Evidenced(reader, key, value, userLines)
  {
    hide Supported, ContentWordSet;
    var habitWords := ContentWords(reader.lower(HabitText(key, value)), reader.filler);
    var lines: seq<set<string>> := [];
    for i := 0 to |userLines|
      invariant |lines| == i && forall k :: 0 <= k < i ==> lines[k] == WordsIn(reader, userLines[k])
    {
      var words := ContentWords(reader.lower(userLines[i]), reader.filler);
      lines := lines + [words];
    }
    assert lines == LineWords(reader, userLines);
    ok := HabitSupported(habitWords, lines);
    assert habitWords == WordsIn(reader, HabitText(key, value));
    ghost var ws := Listing(habitWords);
    assert ok == Supported(ws, LineWords(reader, userLines));
  }

  /** Every finite set of words can be listed. */
  lemma Listing(words: set<string>) returns (ws: seq<string>)
    ensures forall x :: x in ws <==> x in words
    decreases |words|
  {
    if words == {} {
      ws := [];
    } else {
      var w :| w in words;
      ws := Listing(words - {w});
      ws := ws + [w];
    }
  }

  // ---- the verdict without groups ---------------------------------------------------------------------

  /** Equal, or one of at least five letters begins the other. */
  lemma MatchIs(a: string, b: string)
    ensures WordsMatch(a, b) <==> a == b || (|a| >= 5 && a <= b) || (|b| >= 5 && b <= a)
    ensures WordsMatch("morning", "mornings") && !WordsMatch("with", "without")
  {
    assert "morning" == "mornings"[..7];
  }

  /** A content word is a run of at least four letters, with none on either side, that is no
      filler. */
  lemma ContentWordText(t: string, filler: set<string>, w: string)
    ensures IsContentWord(t, filler, w) <==>
      && |w| >= 4 && w !in filler && (forall c :: c in w ==> 'a' <= c <= 'z')
      && exists i :: StandsAlone(t, w, i)
  {
    if IsContentWord(t, filler, w) {
      var i, j :| ContentRun(t, filler, i, j) && t[i..j] == w;
      assert StandsAlone(t, w, i);
    }
    if |w| >= 4 && w !in filler && (forall c :: c in w ==> 'a' <= c <= 'z') && exists i :: StandsAlone(t, w, i) {
      var i :| StandsAlone(t, w, i);
      var j := i + |w|;
      assert t[i..j] == w;
      forall k | i <= k < j ensures IsLetter(t[k]) {
        assert t[k] == w[k - i] && w[k - i] in w;
      }
      assert ContentRun(t, filler, i, j);
    }
  }

  ghost predicate StandsAlone(t: string, w: string, i: int) {
    && 0 <= i && i + |w| <= |t| && t[i..i + |w|] == w
    && (i > 0 ==> !('a' <= t[i - 1] <= 'z'))
    && (i + |w| < |t| ==> !('a' <= t[i + |w|] <= 'z'))
  }

  /** The line has a word that matches the habit's word `a`. */
  ghost predicate Mentions(words: seq<string>, line: set<string>, a: string) {
    a in words && exists u :: u in line && WordsMatch(u, a)
  }

  /** Two words of the habit that no chain of matching words connects. */
  ghost predicate Unrelated(words: seq<string>, a: string, b: string) {
    a in words && b in words && !Connected(words, a, b)
  }

  ghost predicate ThreeConcepts(words: seq<string>) {
    exists a, b, c :: Unrelated(words, a, b) && Unrelated(words, b, c) && Unrelated(words, a, c)
  }

  /** Enough of the habit in one line: two unrelated words of a habit with three or more
      unrelated ones, any word of another. */
  ghost predicate Enough(words: seq<string>, line: set<string>) {
    if ThreeConcepts(words) then exists a, b :: Mentions(words, line, a) && Mentions(words, line, b) && Unrelated(words, a, b)
    else exists a :: Mentions(words, line, a)
  }

  lemma UnrelatedGroups(words: seq<string>, a: string, b: string) returns (g: nat, h: nat)
    requires a in words && b in words
    ensures InGroup(StemGroups(words), g, a) && InGroup(StemGroups(words), h, b)
    ensures Unrelated(words, a, b) <==> g != h
  {
    hide StemGroups, Connected;
    g := HomeGroup(words, a);
    h := HomeGroup(words, b);
    GroupsAreComponents(words, a, b);
    if g == h {
      assert SameGroup(StemGroups(words), a, b);
    }
  }

  lemma LeadersUnrelated(words: seq<string>, g: nat, h: nat)
    requires g < |StemGroups(words)| && h < |StemGroups(words)| && g != h
    ensures Unrelated(words, StemGroups(words)[g][0], StemGroups(words)[h][0])
  {
    hide StemGroups, Connected;
    var groups := StemGroups(words);
    var a, b := groups[g][0], groups[h][0];
    assert InGroup(groups, g, a) && InGroup(groups, h, b);
    GroupLeader(words, g, a);
    GroupLeader(words, h, b);
    var g', h' := UnrelatedGroups(words, a, b);
    var ga := HomeGroup(words, a);
    var gb := HomeGroup(words, b);
  }

  lemma ThreeGroups(words: seq<string>)
    ensures ThreeConcepts(words) <==> |StemGroups(words)| >= 3
  {
    hide StemGroups, Unrelated;
    var groups := StemGroups(words);
    if |groups| >= 3 {
      LeadersUnrelated(words, 0, 1);
      LeadersUnrelated(words, 1, 2);
      LeadersUnrelated(words, 0, 2);
    }
    if ThreeConcepts(words) {
      var a, b, c :| Unrelated(words, a, b) && Unrelated(words, b, c) && Unrelated(words, a, c);
      ThreeHomes(words, a, b, c);
    }
  }

  lemma ThreeHomes(words: seq<string>, a: string, b: string, c: string)
    requires Unrelated(words, a, b) && Unrelated(words, b, c) && Unrelated(words, a, c)
    ensures |StemGroups(words)| >= 3
  {
    hide StemGroups, Connected;
    var g, h := UnrelatedGroups(words, a, b);
    var h', k := UnrelatedGroups(words, b, c);
    var g', k' := UnrelatedGroups(words, a, c);
    var ha := HomeGroup(words, a);
    var hb := HomeGroup(words, b);
    var hc := HomeGroup(words, c);
  }

  /** Some of the habit's words in a group is mentioned exactly when the group is named. */
  lemma NamedMentions(words: seq<string>, line: set<string>, g: nat)
    ensures g in Named(StemGroups(words), line) <==> exists a :: Mentions(words, line, a) && InGroup(StemGroups(words), g, a)
  {
    hide StemGroups, WordsMatch;
    var groups := StemGroups(words);
    if g in Named(groups, line) {
      var u :| u in line && Evidences(groups[g], u);
      var i :| 0 <= i < |groups[g]| && WordsMatch(u, groups[g][i]);
      var a := groups[g][i];
      assert InGroup(groups, g, a);
      GroupLeader(words, g, a);
      assert Mentions(words, line, a);
    }
    if a :| Mentions(words, line, a) && InGroup(groups, g, a) {
      var u :| u in line && WordsMatch(u, a);
      var i :| 0 <= i < |groups[g]| && groups[g][i] == a;
      assert Evidences(groups[g], u);
    }
  }

  lemma SizeAtLeast(s: set<nat>)
    ensures |s| >= 1 <==> exists x :: x in s
    ensures |s| >= 2 <==> exists x, y :: x in s && y in s && x != y
  {
    if x, y :| x in s && y in s && x != y {
      assert |s - {x}| == |s| - 1 && y in s - {x};
    }
    if |s| >= 2 {
      var x :| x in s;
      assert |s - {x}| >= 1;
      var y :| y in s - {x};
    }
  }

  lemma EnoughIff(words: seq<string>, line: set<string>)
    ensures |Named(StemGroups(words), line)| >= Required(StemGroups(words)) <==> Enough(words, line)
  {
    hide StemGroups, Mentions, Unrelated, Named;
    var groups := StemGroups(words);
    ThreeGroups(words);
    SizeAtLeast(Named(groups, line));
    forall g: nat ensures g in Named(groups, line) <==> exists a :: Mentions(words, line, a) && InGroup(groups, g, a) {
      NamedMentions(words, line, g);
    }
    if ThreeConcepts(words) {
      TwoNamed(words, line);
    } else {
      OneNamed(words, line);
    }
  }

  lemma OneNamed(words: seq<string>, line: set<string>)
    ensures (exists g: nat :: g in Named(StemGroups(words), line)) <==> exists a :: Mentions(words, line, a)
  {
    hide StemGroups, Named;
    if g: nat :| g in Named(StemGroups(words), line) {
      NamedMentions(words, line, g);
    }
    if a :| Mentions(words, line, a) {
      var g := HomeGroup(words, a);
      NamedMentions(words, line, g);
    }
  }

  lemma TwoNamed(words: seq<string>, line: set<string>)
    ensures (exists g: nat, h: nat :: g in Named(StemGroups(words), line) && h in Named(StemGroups(words), line) && g != h)
      <==> exists a, b :: Mentions(words, line, a) && Mentions(words, line, b) && Unrelated(words, a, b)
  {
    hide StemGroups, Named, Connected;
    var groups := StemGroups(words);
    if g: nat, h: nat :| g in Named(groups, line) && h in Named(groups, line) && g != h {
      NamedMentions(words, line, g);
      NamedMentions(words, line, h);
      var a :| Mentions(words, line, a) && InGroup(groups, g, a);
      var b :| Mentions(words, line, b) && InGroup(groups, h, b);
      var g', h' := UnrelatedGroups(words, a, b);
      var ga := HomeGroup(words, a);
      var gb := HomeGroup(words, b);
    }
    if a, b :| Mentions(words, line, a) && Mentions(words, line, b) && Unrelated(words, a, b) {
      var g, h := UnrelatedGroups(words, a, b);
      NamedMentions(words, line, g);
      NamedMentions(words, line, h);
    }
  }

  ghost predicate Hit(stems: Groups, line: set<string>) {
    |Named(stems, line)| >= Required(stems)
  }

  /** One more line with enough in it than `n`: some line with enough, and `n` before it. */
  lemma {:induction false} HitsLast(stems: Groups, lines: seq<set<string>>, n: nat)
    ensures Hits(stems, lines) > n <==> exists k :: 0 <= k < |lines| && Hit(stems, lines[k]) && Hits(stems, lines[..k]) >= n
    decreases |lines|
  {
    hide Named, Required;
    if lines != [] {
      var front := lines[..|lines| - 1];
      HitsLast(stems, front, n);
      assert forall k :: 0 <= k < |front| ==> front[k] == lines[k] && front[..k] == lines[..k];
    }
  }

  lemma OneHit(stems: Groups, lines: seq<set<string>>)
    ensures Hits(stems, lines) >= 1 <==> exists i :: 0 <= i < |lines| && Hit(stems, lines[i])
  {
    hide Hits, Hit;
    HitsLast(stems, lines, 0);
  }

  lemma TwoHits(stems: Groups, lines: seq<set<string>>)
    ensures Hits(stems, lines) >= 2 <==> exists i, j :: 0 <= i < j < |lines| && Hit(stems, lines[i]) && Hit(stems, lines[j])
  {
    hide Hits, Hit;
    HitsLast(stems, lines, 1);
    forall j | 0 <= j < |lines| ensures Hits(stems, lines[..j]) >= 1 <==> exists i :: 0 <= i < j && Hit(stems, lines[i]) {
      OneHit(stems, lines[..j]);
      assert forall i :: 0 <= i < j ==> lines[..j][i] == lines[i];
    }
  }

  lemma ThreeHits(stems: Groups, lines: seq<set<string>>)
    ensures Hits(stems, lines) >= 3 <==>
      exists i, j, k :: 0 <= i < j < k < |lines| && Hit(stems, lines[i]) && Hit(stems, lines[j]) && Hit(stems, lines[k])
  {
    hide Hits, Hit;
    HitsLast(stems, lines, 2);
    forall k | 0 <= k < |lines|
      ensures Hits(stems, lines[..k]) >= 2 <==> exists i, j :: 0 <= i < j < k && Hit(stems, lines[i]) && Hit(stems, lines[j])
    {
      TwoHits(stems, lines[..k]);
      assert forall i :: 0 <= i < k ==> lines[..k][i] == lines[i];
    }
  }

  /** Main theorem, in the words of the documentation: a habit is supported exactly when
      three separate lines each have enough of it. */
  lemma SupportedIff(words: seq<string>, lines: seq<set<string>>)
    ensures Supported(words, lines) <==>
      exists i, j, k :: 0 <= i < j < k < |lines| && Enough(words, lines[i]) && Enough(words, lines[j]) && Enough(words, lines[k])
  {
    hide StemGroups, Hits, Named, Required, Enough;
    ThreeHits(StemGroups(words), lines);
    forall k | 0 <= k < |lines| ensures Hit(StemGroups(words), lines[k]) <==> Enough(words, lines[k]) {
      EnoughIff(words, lines[k]);
    }
    forall k | 0 <= k < |lines| ensures Enough(words, lines[k]) ==> words != [] {
      EnoughHasWords(words, lines[k]);
    }
  }

  lemma EnoughHasWords(words: seq<string>, line: set<string>)
    ensures Enough(words, line) ==> words != []
  {
  }

  /** Where the habit's words come from: the slug, with underscores and dots for spaces, and
      the value. */
  lemma HabitTextIs(slug: string, value: string)
    ensures "user.habit." <= "user.habit." + slug
    ensures HabitText("user.habit." + slug, value) == Spaced(slug) + " " + value
    ensures |HabitText("user.habit." + slug, value)| == |slug| + 1 + |value|
  {
    assert ("user.habit." + slug)[|"user.habit."|..] == slug;
  }
}
