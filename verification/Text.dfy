/** Python string primitives the modelled code leans on: `strip`, `split`, `partition`.
    Which characters count as white space is a parameter, so every result about these
    functions holds for any character table. */
module Text {
  import opened Basics

  type CharClass = char -> bool

  function LStrip(isSpace: CharClass, s: string): (r: string)
  {
    if s == "" || !isSpace(s[0]) then s else LStrip(isSpace, s[1..])
  }

  function RStrip(isSpace: CharClass, s: string): (r: string)
  {
    if s == "" || !isSpace(s[|s| - 1]) then s else RStrip(isSpace, s[..|s| - 1])
  }

  function Strip(isSpace: CharClass, s: string): (r: string)
  {
    RStrip(isSpace, LStrip(isSpace, s))
  }

  /** The characters of `s` that are not white space, in order. */
  function Ink(isSpace: CharClass, s: string): string
  {
    if s == "" then "" else (if isSpace(s[0]) then "" else [s[0]]) + Ink(isSpace, s[1..])
  }

  lemma {:induction false} InkConcat(isSpace: CharClass, a: string, b: string)
    ensures Ink(isSpace, a + b) == Ink(isSpace, a) + Ink(isSpace, b)
  {
    if a == "" {
      assert a + b == b;
    } else {
      assert (a + b)[1..] == a[1..] + b;
      InkConcat(isSpace, a[1..], b);
    }
  }

  lemma {:induction false} InkLStrip(isSpace: CharClass, s: string)
    ensures Ink(isSpace, LStrip(isSpace, s)) == Ink(isSpace, s)
  {
    if s != "" && isSpace(s[0]) {
      InkLStrip(isSpace, s[1..]);
    }
  }

  lemma {:induction false} InkRStrip(isSpace: CharClass, s: string)
    ensures Ink(isSpace, RStrip(isSpace, s)) == Ink(isSpace, s)
  {
    if s != "" && isSpace(s[|s| - 1]) {
      var front, last := s[..|s| - 1], s[|s| - 1..];
      assert s == front + last && last[1..] == "";
      InkConcat(isSpace, front, last);
      InkRStrip(isSpace, front);
    }
  }

  /** Stripping never removes ink. */
  lemma InkStrip(isSpace: CharClass, s: string)
    ensures Ink(isSpace, Strip(isSpace, s)) == Ink(isSpace, s)
  {
    InkLStrip(isSpace, s);
    InkRStrip(isSpace, LStrip(isSpace, s));
  }

  /** `s.partition(c)` without the separator: what precedes the first `c` and what follows it. */
  function Partition(s: string, c: char): (r: (string, string))
    requires c in s
    ensures s == r.0 + [c] + r.1
    ensures c !in r.0
  {
    var i := IndexOf(s, c);
    (s[..i], s[i + 1..])
  }

  /** `s.split(c)`: always at least one piece, none of which contains `c`. */
  function SplitOn(s: string, c: char): (parts: seq<string>)
    ensures |parts| >= 1
    ensures forall p :: p in parts ==> c !in p
    decreases |s|
  {
    var i := IndexOf(s, c);
    if i == |s| then [s] else [s[..i]] + SplitOn(s[i + 1..], c)
  }

  // ---- what they mean on texts ----------------------------------------------------------------

  /** No white space at either end. */
  ghost predicate Trimmed(isSpace: CharClass, s: string) {
    s == "" || (!isSpace(s[0]) && !isSpace(s[|s| - 1]))
  }

  ghost predicate AllSpace(isSpace: CharClass, s: string) {
    forall i :: 0 <= i < |s| ==> isSpace(s[i])
  }

  lemma {:induction false} LStripIs(isSpace: CharClass, lead: string, s: string)
    requires AllSpace(isSpace, lead) && (s == "" || !isSpace(s[0]))
    ensures LStrip(isSpace, lead + s) == s
  {
    if lead == "" {
      assert lead + s == s;
    } else {
      assert (lead + s)[1..] == lead[1..] + s;
      LStripIs(isSpace, lead[1..], s);
    }
  }

  lemma {:induction false} RStripIs(isSpace: CharClass, s: string, tail: string)
    requires AllSpace(isSpace, tail) && (s == "" || !isSpace(s[|s| - 1]))
    ensures RStrip(isSpace, s + tail) == s
    decreases |tail|
  {
    if tail == "" {
      assert s + tail == s;
    } else {
      var front := tail[..|tail| - 1];
      assert (s + tail)[..|s + tail| - 1] == s + front;
      RStripIs(isSpace, s, front);
    }
  }

  /** `strip` takes off exactly the white space around a text. */
  lemma StripIs(isSpace: CharClass, lead: string, s: string, tail: string)
    requires AllSpace(isSpace, lead) && AllSpace(isSpace, tail) && Trimmed(isSpace, s)
    ensures Strip(isSpace, lead + s + tail) == s
  {
    if s == "" {
      var all := lead + tail;
      assert lead + s + tail == all && all + "" == all;
      LStripIs(isSpace, all, "");
    } else {
      assert lead + s + tail == lead + (s + tail);
      LStripIs(isSpace, lead, s + tail);
      RStripIs(isSpace, s, tail);
    }
  }

  lemma {:induction false} LStripEnds(isSpace: CharClass, s: string)
    ensures var r := LStrip(isSpace, s);
      (r == "" || !isSpace(r[0])) && |r| <= |s| && r == s[|s| - |r|..]
  {
    if s != "" && isSpace(s[0]) {
      LStripEnds(isSpace, s[1..]);
    }
  }

  lemma {:induction false} RStripEnds(isSpace: CharClass, s: string)
    ensures var r := RStrip(isSpace, s); (r == "" || !isSpace(r[|r| - 1])) && r <= s
    decreases |s|
  {
    if s != "" && isSpace(s[|s| - 1]) {
      RStripEnds(isSpace, s[..|s| - 1]);
    }
  }

  /** What is left has no white space at either end. */
  lemma StripTrims(isSpace: CharClass, s: string)
    ensures Trimmed(isSpace, Strip(isSpace, s))
  {
    LStripEnds(isSpace, s);
    RStripEnds(isSpace, LStrip(isSpace, s));
  }

  lemma StripTrimmed(isSpace: CharClass, s: string)
    requires Trimmed(isSpace, s)
    ensures Strip(isSpace, s) == s
  {
    StripIs(isSpace, "", s, "");
    assert "" + s + "" == s;
  }

  lemma StripKeepsOut(isSpace: CharClass, s: string, c: char)
    ensures c !in s ==> c !in Strip(isSpace, s)
  {
    hide LStrip, RStrip;
    LStripEnds(isSpace, s);
    RStripEnds(isSpace, LStrip(isSpace, s));
  }

  lemma PartitionIs(a: string, c: char, b: string)
    requires c !in a
    ensures c in a + [c] + b && Partition(a + [c] + b, c) == (a, b)
  {
    IndexOfFirst(a, c, b);
    assert (a + [c] + b)[|a|] == c;
    assert (a + [c] + b)[..|a|] == a && (a + [c] + b)[|a| + 1..] == b;
  }

  lemma SplitOnPiece(a: string, c: char, rest: string)
    requires c !in a
    ensures SplitOn(a, c) == [a]
    ensures SplitOn(a + [c] + rest, c) == [a] + SplitOn(rest, c)
  {
    IndexOfFirst(a, c, rest);
    assert (a + [c] + rest)[|a|] == c;
    assert (a + [c] + rest)[..|a|] == a && (a + [c] + rest)[|a| + 1..] == rest;
  }

  /** `c.join(parts)`. */
  function JoinWith(parts: seq<string>, c: char): string {
    if parts == [] then "" else if |parts| == 1 then parts[0] else parts[0] + [c] + JoinWith(parts[1..], c)
  }

  lemma JoinOne(a: string, c: char)
    ensures JoinWith([a], c) == a
  {
  }

  lemma JoinCons(a: string, parts: seq<string>, c: char)
    requires parts != []
    ensures JoinWith([a] + parts, c) == a + [c] + JoinWith(parts, c)
  {
    assert ([a] + parts)[1..] == parts;
  }

  /** Splitting undoes joining: no piece is lost, merged or made up. */
  lemma {:induction false} SplitOnJoined(parts: seq<string>, c: char)
    requires parts != [] && forall i :: 0 <= i < |parts| ==> c !in parts[i]
    ensures SplitOn(JoinWith(parts, c), c) == parts
  {
    hide SplitOn, JoinWith;
    if |parts| == 1 {
      assert parts == [parts[0]];
      JoinOne(parts[0], c);
      SplitOnPiece(parts[0], c, "");
    } else {
      assert parts == [parts[0]] + parts[1..];
      JoinCons(parts[0], parts[1..], c);
      SplitOnPiece(parts[0], c, JoinWith(parts[1..], c));
      SplitOnJoined(parts[1..], c);
    }
  }

  lemma {:induction false} JoinOfSplit(s: string, c: char)
    ensures JoinWith(SplitOn(s, c), c) == s
    decreases |s|
  {
    hide SplitOn, JoinWith;
    var i := IndexOf(s, c);
    if i < |s| {
      var rest := s[i + 1..];
      assert s == s[..i] + [c] + rest;
      JoinOfSplit(rest, c);
      SplitOnPiece(s[..i], c, rest);
      JoinCons(s[..i], SplitOn(rest, c), c);
    } else {
      SplitOnPiece(s, c, "");
      JoinOne(s, c);
    }
  }

  /** Nothing is left exactly when there was nothing but white space. */
  lemma BlankIff(isSpace: CharClass, s: string)
    ensures Strip(isSpace, s) == "" <==> AllSpace(isSpace, s)
  {
    if AllSpace(isSpace, s) {
      StripIs(isSpace, s, "", "");
      assert s + "" + "" == s;
    } else {
      var i :| 0 <= i < |s| && !isSpace(s[i]);
      InkStrip(isSpace, s);
      InkThere(isSpace, s, i);
    }
  }

  lemma {:induction false} InkThere(isSpace: CharClass, s: string, i: nat)
    requires i < |s| && !isSpace(s[i])
    ensures Ink(isSpace, s) != ""
  {
    if i > 0 {
      InkThere(isSpace, s[1..], i - 1);
    }
  }
}
