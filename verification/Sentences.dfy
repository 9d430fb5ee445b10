/** The incremental sentence splitter. Which characters are alphanumeric or white space is a
    parameter; the four terminators are fixed, and no alphanumeric character is one. */
module Sentences {
  import opened Basics
  import opened Text

  datatype Alphabet = Alphabet(isAlnum: CharClass, isSpace: CharClass)

  predicate IsTerminator(c: char) {
    c == '.' || c == '!' || c == '?' || c == '\n'
  }

  ghost predicate ValidAlphabet(t: Alphabet) {
    forall c :: IsTerminator(c) ==> !t.isAlnum(c)
  }

  predicate IsAsciiDigit(c: char) {
    '0' <= c <= '9'
  }

  predicate IsAsciiLetter(c: char) {
    'a' <= c <= 'z' || 'A' <= c <= 'Z'
  }

  /** Whether the splitter cuts after position `i` of `buffer`. */
  predicate Cuts(t: Alphabet, buffer: string, i: nat, final: bool)
    requires i < |buffer|
  {
    var c, n := buffer[i], |buffer|;
    IsTerminator(c) &&
    !(c == '.' && i > 0 && IsAsciiDigit(buffer[i - 1]) &&
      ((i + 1 < n && IsAsciiDigit(buffer[i + 1])) || (i + 1 == n && !final))) &&
    !(c == '.' && i > 0 && t.isAlnum(buffer[i - 1]) && i + 1 < n && IsAsciiLetter(buffer[i + 1])) &&
    !(c == '.' && i + 1 == n && !final && t.isAlnum(if i > 0 then buffer[i - 1] else buffer[n - 1]))
  }

  /** The first cut at or after `from`, or `|buffer|`. */
  function NextCut(t: Alphabet, buffer: string, from: nat, final: bool): (i: nat)
    requires from <= |buffer|
    ensures from <= i <= |buffer|
    decreases |buffer| - from
  {
    if from == |buffer| || Cuts(t, buffer, from, final) then from else NextCut(t, buffer, from + 1, final)
  }

  function NonEmpty(s: string): seq<string> {
    if s == "" then [] else [s]
  }

  /** The reference splitter: cut off the first sentence, strip it, drop it if nothing is
      left, and go on with the rest as if it were a text of its own. */
  function Split(t: Alphabet, text: string, final: bool): (r: (seq<string>, string))
    ensures final ==> r.1 == ""
    decreases |text|
  {
    var i := NextCut(t, text, 0, final);
    if i == |text| then
      if final then (NonEmpty(Strip(t.isSpace, text)), "") else ([], text)
    else
      Prepend(NonEmpty(Strip(t.isSpace, text[..i + 1])), Split(t, text[i + 1..], final))
  }

  function Prepend(ss: seq<string>, r: (seq<string>, string)): (seq<string>, string) {
    (ss + r.0, r.1)
  }

  lemma PrependNothing(r: (seq<string>, string))
    ensures Prepend([], r) == r
  {
    assert [] + r.0 == r.0;
  }

  lemma PrependTwice(a: seq<string>, b: seq<string>, r: (seq<string>, string))
    ensures Prepend(a, Prepend(b, r)) == Prepend(a + b, r)
  {
    assert a + (b + r.0) == (a + b) + r.0;
  }

  /** After a cut the text before it no longer matters: a terminator is not alphanumeric, so
      no decision in the rest depends on it. */
  lemma CutsShift(t: Alphabet, s: string, k: nat, i: nat, final: bool)
    requires ValidAlphabet(t)
    requires k <= |s| && i < |s| - k
    requires k > 0 ==> IsTerminator(s[k - 1])
    ensures Cuts(t, s[k..], i, final) == Cuts(t, s, k + i, final)
  {
    var b := s[k..];
    assert b[i] == s[k + i];
    assert i + 1 < |b| ==> b[i + 1] == s[k + i + 1];
    assert i > 0 ==> b[i - 1] == s[k + i - 1];
    if i == 0 && k > 0 {
      assert !t.isAlnum(s[k - 1]) && !IsAsciiDigit(s[k - 1]);
      assert i + 1 == |b| && IsTerminator(b[0]) ==> !t.isAlnum(b[0]);
    }
  }

  lemma {:induction false} NextCutShift(t: Alphabet, s: string, k: nat, from: nat, final: bool)
    requires ValidAlphabet(t)
    requires k <= |s| && from <= |s| - k
    requires k > 0 ==> IsTerminator(s[k - 1])
    ensures k + NextCut(t, s[k..], from, final) == NextCut(t, s, k + from, final)
    decreases |s| - from
  {
    if from < |s| - k {
      CutsShift(t, s, k, from, final);
      if !Cuts(t, s, k + from, final) {
        NextCutShift(t, s, k, from + 1, final);
      }
    }
  }

  lemma SplitAtCut(t: Alphabet, text: string, final: bool, i: nat, head: string, tail: string)
    requires i == NextCut(t, text, 0, final) < |text|
    requires head == text[..i + 1] && tail == text[i + 1..]
    ensures Split(t, text, final) == Prepend(NonEmpty(Strip(t.isSpace, head)), Split(t, tail, final))
  {
  }

  lemma AppendNonEmpty(ss: seq<string>, one: string)
    ensures ss + NonEmpty(one) == if one == "" then ss else ss + [one]
  {
    assert one == "" ==> ss + NonEmpty(one) == ss;
  }

  /** The same splitter in terms of positions in one buffer. */
  function SplitFrom(t: Alphabet, buffer: string, start: nat, final: bool): (seq<string>, string)
    requires start <= |buffer|
    decreases |buffer| - start
  {
    var i := NextCut(t, buffer, start, final);
    if i == |buffer| then
      if final then (NonEmpty(Strip(t.isSpace, buffer[start..])), "") else ([], buffer[start..])
    else
      Prepend(NonEmpty(Strip(t.isSpace, buffer[start..i + 1])), SplitFrom(t, buffer, i + 1, final))
  }

  lemma {:induction false} NextCutTerminates(t: Alphabet, buffer: string, from: nat, final: bool)
    requires from <= |buffer| && NextCut(t, buffer, from, final) < |buffer|
    ensures IsTerminator(buffer[NextCut(t, buffer, from, final)])
    decreases |buffer| - from
  {
    if !Cuts(t, buffer, from, final) {
      NextCutTerminates(t, buffer, from + 1, final);
    }
  }

  lemma SplitFromAtCut(t: Alphabet, buffer: string, start: nat, final: bool, i: nat)
    requires start <= |buffer| && i == NextCut(t, buffer, start, final) < |buffer|
    ensures SplitFrom(t, buffer, start, final) ==
      Prepend(NonEmpty(Strip(t.isSpace, buffer[start..i + 1])), SplitFrom(t, buffer, i + 1, final))
  {
  }

  lemma SplitFromAtEnd(t: Alphabet, buffer: string, start: nat, final: bool)
    requires start <= |buffer| == NextCut(t, buffer, start, final)
    ensures SplitFrom(t, buffer, start, final) ==
      if final then (NonEmpty(Strip(t.isSpace, buffer[start..])), "") else ([], buffer[start..])
  {
  }

  lemma SplitAtEnd(t: Alphabet, text: string, final: bool)
    requires |text| == NextCut(t, text, 0, final)
    ensures Split(t, text, final) == if final then (NonEmpty(Strip(t.isSpace, text)), "") else ([], text)
  {
  }

  lemma SplitFromStep(t: Alphabet, buffer: string, start: nat, final: bool, i: nat)
    requires start <= |buffer| && i == NextCut(t, buffer, start, final) < |buffer|
    requires NextCut(t, buffer[start..], 0, final) == i - start
    requires SplitFrom(t, buffer, i + 1, final) == Split(t, buffer[i + 1..], final)
    ensures SplitFrom(t, buffer, start, final) == Split(t, buffer[start..], final)
  {
    hide Split, SplitFrom, NextCut, Strip;
    SplitFromAtCut(t, buffer, start, final, i);
    SplitAtCut(t, buffer[start..], final, i - start, buffer[start..i + 1], buffer[i + 1..]);
  }

  lemma {:induction false} SplitFromIsSplit(t: Alphabet, buffer: string, start: nat, final: bool)
    requires ValidAlphabet(t)
    requires start <= |buffer| && (start > 0 ==> IsTerminator(buffer[start - 1]))
    ensures SplitFrom(t, buffer, start, final) == Split(t, buffer[start..], final)
    decreases |buffer| - start
  {
    hide Split, SplitFrom;
    NextCutShift(t, buffer, start, 0, final);
    var i := NextCut(t, buffer, start, final);
    if i == |buffer| {
      SplitFromAtEnd(t, buffer, start, final);
      SplitAtEnd(t, buffer[start..], final);
    } else {
      NextCutTerminates(t, buffer, start, final);
      SplitFromIsSplit(t, buffer, i + 1, final);
      SplitFromStep(t, buffer, start, final, i);
    }
  }

  /** What the running pass has found before position `i`: the sentences, and where the
      current one starts. */
  function ScanTo(t: Alphabet, buffer: string, i: nat, final: bool): (r: (seq<string>, nat))
    requires i <= |buffer|
    ensures r.1 <= i
  {
    if i == 0 then ([], 0)
    else
      var (ss, start) := ScanTo(t, buffer, i - 1, final);
      if Cuts(t, buffer, i - 1, final)
      then (ss + NonEmpty(Strip(t.isSpace, buffer[start..i])), i)
      else (ss, start)
  }

  lemma ScanToStep(t: Alphabet, buffer: string, i: nat, final: bool)
    requires i <= |buffer|
    ensures ScanTo(t, buffer, i, final) ==
      if i == 0 then ([], 0)
      else
        var (ss, start) := ScanTo(t, buffer, i - 1, final);
        if Cuts(t, buffer, i - 1, final)
        then (ss + NonEmpty(Strip(t.isSpace, buffer[start..i])), i)
        else (ss, start)
  {
  }

  lemma {:induction false} ScanToSplitFrom(t: Alphabet, buffer: string, i: nat, final: bool)
    requires i <= |buffer|
    ensures NextCut(t, buffer, ScanTo(t, buffer, i, final).1, final) == NextCut(t, buffer, i, final)
    ensures SplitFrom(t, buffer, 0, final) ==
      Prepend(ScanTo(t, buffer, i, final).0, SplitFrom(t, buffer, ScanTo(t, buffer, i, final).1, final))
  {
    hide SplitFrom, ScanTo;
    ScanToStep(t, buffer, i, final);
    if i == 0 {
      PrependNothing(SplitFrom(t, buffer, 0, final));
    } else {
      ScanToSplitFrom(t, buffer, i - 1, final);
      var (ss, start) := ScanTo(t, buffer, i - 1, final);
      if Cuts(t, buffer, i - 1, final) {
        SplitFromAtCut(t, buffer, start, final, i - 1);
        PrependTwice(ss, NonEmpty(Strip(t.isSpace, buffer[start..i])), SplitFrom(t, buffer, i, final));
      }
    }
  }

  /** The splitter as it runs: one pass over the buffer, looking at the characters around
      each terminator. */
  method SplitCompleteSentences(t: Alphabet, buffer: string, final: bool) returns (sentences: seq<string>, remainder: string)
    requires ValidAlphabet(t)
    ensures (sentences, remainder) == Split(t, buffer, final)
  {
    sentences := [];
    var start, n := 0, |buffer|;
    for i := 0 to n
      invariant (sentences, start) == ScanTo(t, buffer, i, final)
    {
      var c := buffer[i];
      if !IsTerminator(c) {
        continue;
      }
      if c == '.' && i > 0 && IsAsciiDigit(buffer[i - 1]) {
        if i + 1 < n && IsAsciiDigit(buffer[i + 1]) {
          continue;
        }
        if i + 1 == n && !final {
          continue;
        }
      }
      if c == '.' && i > 0 && t.isAlnum(buffer[i - 1]) && i + 1 < n && IsAsciiLetter(buffer[i + 1]) {
        continue;
      }
      if c == '.' && i + 1 == n && !final && t.isAlnum(if i > 0 then buffer[i - 1] else buffer[n - 1]) {
        continue;
      }
      var sentence := Strip(t.isSpace, buffer[start..i + 1]);
      AppendNonEmpty(sentences, sentence);
      if sentence != "" {
        sentences := sentences + [sentence];
      }
      start := i + 1;
    }
    remainder := buffer[start..];
    ghost var found := sentences;
    if final {
      var tail := Strip(t.isSpace, remainder);
      if tail != "" {
        sentences := sentences + [tail];
      }
      remainder := "";
    }
    PassEnd(t, buffer, final, found, start);
  }

  lemma PassEnd(t: Alphabet, buffer: string, final: bool, found: seq<string>, start: nat)
    requires ValidAlphabet(t)
    requires (found, start) == ScanTo(t, buffer, |buffer|, final)
    ensures var tail := Strip(t.isSpace, buffer[start..]);
      Split(t, buffer, final) ==
        if !final then (found, buffer[start..])
        else if tail != "" then (found + [tail], "")
        else (found, "")
  {
    SplitFromIsSplit(t, buffer, 0, final);
    assert buffer[0..] == buffer;
    ScanToSplitFrom(t, buffer, |buffer|, final);
    AppendNonEmpty(found, "");
    AppendNonEmpty(found, Strip(t.isSpace, buffer[start..]));
  }

  // ---- streaming -----------------------------------------------------------------------

  /** A cut taken early stays: more text never takes it back, and decisions that were not
      held back for the last character are final. */
  lemma CutsStable(t: Alphabet, a: string, b: string, i: nat, final: bool)
    requires i < |a|
    ensures Cuts(t, a, i, false) ==> Cuts(t, a + b, i, final)
    ensures i + 1 < |a| ==> Cuts(t, a, i, false) == Cuts(t, a + b, i, final)
  {
    var s := a + b;
    assert s[i] == a[i];
    assert i > 0 ==> s[i - 1] == a[i - 1];
    assert i + 1 < |a| ==> s[i + 1] == a[i + 1];
  }

  lemma {:induction false} FirstCutStable(t: Alphabet, a: string, b: string, from: nat, final: bool)
    requires from <= |a|
    requires NextCut(t, a, from, false) < |a|
    ensures NextCut(t, a + b, from, final) == NextCut(t, a, from, false)
    decreases |a| - from
  {
    CutsStable(t, a, b, from, final);
    if !Cuts(t, a, from, false) {
      FirstCutStable(t, a, b, from + 1, final);
    }
  }

  /** Splitting in two installments: what the first call returned, then the splitter on its
      remainder joined with the new text. */
  lemma {:induction false} SplitResume(t: Alphabet, a: string, b: string, final: bool)
    ensures var r := Split(t, a, false);
      Split(t, a + b, final) == Prepend(r.0, Split(t, r.1 + b, final))
    decreases |a|
  {
    var i := NextCut(t, a, 0, false);
    if i < |a| {
      var head, tail := a[..i + 1], a[i + 1..];
      FirstCutStable(t, a, b, 0, final);
      assert (a + b)[..i + 1] == head && (a + b)[i + 1..] == tail + b;
      SplitAtCut(t, a, false, i, head, tail);
      SplitAtCut(t, a + b, final, i, head, tail + b);
      SplitResume(t, tail, b, final);
      var r := Split(t, tail, false);
      PrependTwice(NonEmpty(Strip(t.isSpace, head)), r.0, Split(t, r.1 + b, final));
    } else {
      PrependNothing(Split(t, a + b, final));
    }
  }

  /** Feed the text chunk by chunk, carrying the remainder: what converse does. */
  function Stream(t: Alphabet, pending: string, chunks: seq<string>): (seq<string>, string)
    decreases |chunks|
  {
    if chunks == [] then ([], pending)
    else
      var r := Split(t, pending + chunks[0], false);
      Prepend(r.0, Stream(t, r.1, chunks[1..]))
  }

  lemma {:induction false} StreamIsSplit(t: Alphabet, pending: string, chunks: seq<string>, final: bool)
    requires ValidAlphabet(t)
    ensures var r := Stream(t, pending, chunks);
      Split(t, pending + Joined(chunks), final) == Prepend(r.0, Split(t, r.1, final))
    decreases |chunks|
  {
    if chunks == [] {
      assert pending + "" == pending;
      PrependNothing(Split(t, pending, final));
    } else {
      var r := Split(t, pending + chunks[0], false);
      assert pending + (chunks[0] + Joined(chunks[1..])) == (pending + chunks[0]) + Joined(chunks[1..]);
      SplitResume(t, pending + chunks[0], Joined(chunks[1..]), final);
      StreamIsSplit(t, r.1, chunks[1..], final);
      var q := Stream(t, r.1, chunks[1..]);
      PrependTwice(r.0, q.0, Split(t, q.1, final));
    }
  }

  /** Chunk independence: however the text is cut into chunks, the streamed sentences and
      the final flush are the sentences of the whole text. */
  lemma ChunkIndependence(t: Alphabet, chunks: seq<string>)
    requires ValidAlphabet(t)
    ensures var (ss, left) := Stream(t, "", chunks);
      ss + Split(t, left, true).0 == Split(t, Joined(chunks), true).0
  {
    assert "" + Joined(chunks) == Joined(chunks);
    StreamIsSplit(t, "", chunks, true);
  }

  /** Before the flush the streamed sentences are already a prefix of the final ones. */
  lemma StreamIsPrefix(t: Alphabet, chunks: seq<string>)
    requires ValidAlphabet(t)
    ensures Stream(t, "", chunks).0 <= Split(t, Joined(chunks), true).0
  {
    ChunkIndependence(t, chunks);
  }

  lemma JoinedNonEmpty(one: string, more: seq<string>)
    ensures Joined(NonEmpty(one) + more) == one + Joined(more)
  {
    if one == "" {
      assert NonEmpty(one) + more == more;
    } else {
      assert (NonEmpty(one) + more)[1..] == more;
    }
  }

  /** Nothing audible is lost: the sentences and the remainder carry all the ink of the text,
      in order. */
  lemma {:induction false} SplitKeepsInk(t: Alphabet, text: string, final: bool)
    ensures var r := Split(t, text, final);
      Ink(t.isSpace, Joined(r.0)) + Ink(t.isSpace, r.1) == Ink(t.isSpace, text)
    decreases |text|
  {
    var i := NextCut(t, text, 0, final);
    if i == |text| {
      TailKeepsInk(t, text);
      NothingAdded(Ink(t.isSpace, text));
    } else {
      var head, tail := text[..i + 1], text[i + 1..];
      SplitAtCut(t, text, final, i, head, tail);
      SliceJoin(text, i + 1);
      SplitKeepsInk(t, tail, final);
      HeadKeepsInk(t, head, tail, Split(t, tail, final));
    }
  }

  lemma SliceJoin(a: string, k: nat)
    requires k <= |a|
    ensures a[..k] + a[k..] == a
  {
  }

  lemma NothingAdded(a: string)
    ensures a + "" == a && "" + a == a
  {
  }

  lemma TailKeepsInk(t: Alphabet, text: string)
    ensures Ink(t.isSpace, Joined(NonEmpty(Strip(t.isSpace, text)))) == Ink(t.isSpace, text)
  {
    var one := Strip(t.isSpace, text);
    InkStrip(t.isSpace, text);
    JoinedNonEmpty(one, []);
    assert NonEmpty(one) + [] == NonEmpty(one) && one + "" == one;
  }

  lemma HeadKeepsInk(t: Alphabet, head: string, tail: string, r: (seq<string>, string))
    requires Ink(t.isSpace, Joined(r.0)) + Ink(t.isSpace, r.1) == Ink(t.isSpace, tail)
    ensures var q := Prepend(NonEmpty(Strip(t.isSpace, head)), r);
      Ink(t.isSpace, Joined(q.0)) + Ink(t.isSpace, q.1) == Ink(t.isSpace, head + tail)
  {
    var one := Strip(t.isSpace, head);
    InkConcat(t.isSpace, head, tail);
    InkStrip(t.isSpace, head);
    JoinedNonEmpty(one, r.0);
    InkConcat(t.isSpace, one, Joined(r.0));
    Associative(Ink(t.isSpace, head), Ink(t.isSpace, Joined(r.0)), Ink(t.isSpace, r.1));
  }

  // ---- where a sentence ends, on texts ----------------------------------------------------

  /** A period inside a number or a dotted name: "6.5", "apple.com". */
  ghost predicate Inner(t: Alphabet, text: string, i: nat) {
    && 0 < i < |text| - 1 && text[i] == '.'
    && var before, after := text[i - 1], text[i + 1];
       || ('0' <= before <= '9' && '0' <= after <= '9')
       || (t.isAlnum(before) && ('a' <= after <= 'z' || 'A' <= after <= 'Z'))
  }

  /** A period that more text could still make an inner one. */
  ghost predicate Undecided(t: Alphabet, text: string, i: nat) {
    0 < i == |text| - 1 && text[i] == '.' && (t.isAlnum(text[i - 1]) || '0' <= text[i - 1] <= '9')
  }

  ghost predicate EndsSentence(t: Alphabet, text: string, i: nat, final: bool) {
    i < |text| && text[i] in ['.', '!', '?', '\n'] && !Inner(t, text, i) && (final || !Undecided(t, text, i))
  }

  lemma CutsIffEnds(t: Alphabet, text: string, i: nat, final: bool)
    requires ValidAlphabet(t) && i < |text|
    ensures Cuts(t, text, i, final) <==> EndsSentence(t, text, i, final)
  {
  }

  lemma {:induction false} NextCutIs(t: Alphabet, text: string, from: nat, k: nat, final: bool)
    requires ValidAlphabet(t) && from <= k <= |text| && (k < |text| ==> EndsSentence(t, text, k, final))
    requires forall i: nat :: from <= i < k ==> !EndsSentence(t, text, i, final)
    ensures NextCut(t, text, from, final) == k
    decreases k - from
  {
    hide Cuts, EndsSentence;
    if from < |text| {
      CutsIffEnds(t, text, from, final);
    }
    if from < k {
      NextCutIs(t, text, from + 1, k, final);
    }
  }

  /** The first terminator that is neither an inner period nor one still undecided ends the
      first sentence, terminator included. */
  lemma FirstSentence(t: Alphabet, text: string, k: nat, final: bool)
    requires ValidAlphabet(t) && EndsSentence(t, text, k, final)
    requires forall i: nat :: i < k ==> !EndsSentence(t, text, i, final)
    ensures Split(t, text, final) == Prepend(NonEmpty(Strip(t.isSpace, text[..k + 1])), Split(t, text[k + 1..], final))
  {
    NextCutIs(t, text, 0, k, final);
    SplitAtCut(t, text, final, k, text[..k + 1], text[k + 1..]);
  }

  /** Without one the text is the last sentence, or, before the end of the reply, kept back
      whole. */
  lemma LastSentence(t: Alphabet, text: string, final: bool)
    requires ValidAlphabet(t) && forall i: nat :: i < |text| ==> !EndsSentence(t, text, i, final)
    ensures Split(t, text, final) == if final then (NonEmpty(Strip(t.isSpace, text)), "") else ([], text)
  {
    NextCutIs(t, text, 0, |text|, final);
    SplitAtEnd(t, text, final);
  }

  /** No terminator at all. */
  predicate Unbroken(s: string) {
    '.' !in s && '!' !in s && '?' !in s && '\n' !in s
  }

  lemma UnbrokenEnds(t: Alphabet, text: string, i: nat, final: bool)
    ensures i < |text| && EndsSentence(t, text, i, final) ==> text[i] == '.' || text[i] == '!' || text[i] == '?' || text[i] == '\n'
  {
  }

  /** A decimal point is no sentence end. */
  lemma DecimalPoint(t: Alphabet, a: string, d: char, e: char, b: string)
    requires ValidAlphabet(t) && Unbroken(a) && Unbroken(b) && '0' <= d <= '9' && '0' <= e <= '9'
    ensures Split(t, a + [d] + "." + [e] + b, true) == (NonEmpty(Strip(t.isSpace, a + [d] + "." + [e] + b)), "")
    ensures Split(t, a + [d] + "." + [e] + b, false) == ([], a + [d] + "." + [e] + b)
  {
    hide Split, Strip;
    AroundPeriod(a, d, e, b);
    InnerPeriod(t, a, d, e, b);
  }

  /** Nor is the dot of a domain name. */
  lemma DomainDot(t: Alphabet, a: string, d: char, e: char, b: string)
    requires ValidAlphabet(t) && Unbroken(a) && Unbroken(b) && Unbroken([d]) && t.isAlnum(d) && ('a' <= e <= 'z' || 'A' <= e <= 'Z')
    ensures Split(t, a + [d] + "." + [e] + b, true) == (NonEmpty(Strip(t.isSpace, a + [d] + "." + [e] + b)), "")
    ensures Split(t, a + [d] + "." + [e] + b, false) == ([], a + [d] + "." + [e] + b)
  {
    hide Split, Strip;
    AroundPeriod(a, d, e, b);
    InnerPeriod(t, a, d, e, b);
  }

  lemma AroundPeriod(a: string, d: char, e: char, b: string)
    ensures var text := a + [d] + "." + [e] + b;
      |text| == |a| + 3 + |b| && text[|a|] == d && text[|a| + 1] == '.' && text[|a| + 2] == e
  {
  }

  lemma InnerPeriod(t: Alphabet, a: string, d: char, e: char, b: string)
    requires ValidAlphabet(t) && Unbroken(a) && Unbroken(b) && Unbroken([d]) && Unbroken([e])
    requires Inner(t, a + [d] + "." + [e] + b, |a| + 1)
    ensures var text := a + [d] + "." + [e] + b;
      Split(t, text, true) == (NonEmpty(Strip(t.isSpace, text)), "") && Split(t, text, false) == ([], text)
  {
    hide Split, Strip, Inner;
    var text := a + [d] + "." + [e] + b;
    forall i: nat, final: bool | i < |text| ensures !EndsSentence(t, text, i, final) {
      UnbrokenEnds(t, text, i, final);
      if i < |a| {
        assert text[i] == a[i] && a[i] in a;
      } else if i > |a| + 2 {
        assert text[i] == b[i - |a| - 3] && text[i] in b;
      } else {
        assert text[|a|] == d && d in [d] && text[|a| + 2] == e && e in [e];
      }
    }
    LastSentence(t, text, true);
    LastSentence(t, text, false);
  }

  /** An exclamation mark, a question mark and a line break each end a sentence at once. */
  lemma StrongEnd(t: Alphabet, a: string, c: char, rest: string, final: bool)
    requires ValidAlphabet(t) && Unbroken(a) && (c == '!' || c == '?' || c == '\n')
    ensures Split(t, a + [c] + rest, final) == Prepend(NonEmpty(Strip(t.isSpace, a + [c])), Split(t, rest, final))
  {
    EndAt(t, a, c, rest, final);
  }

  /** So does a period, unless it has a digit on both sides or an alphanumeric before and an
      ASCII letter after it. At the very end it does so if the reply is over or nothing
      alphanumeric precedes it; otherwise it waits. */
  lemma PeriodEnd(t: Alphabet, a: string, rest: string, final: bool)
    requires ValidAlphabet(t) && Unbroken(a)
    ensures var text := a + "." + rest;
      var digitBefore := a != "" && '0' <= a[|a| - 1] <= '9';
      var alnumBefore := a != "" && t.isAlnum(a[|a| - 1]);
      var inner := rest != "" && ((digitBefore && '0' <= rest[0] <= '9') || (alnumBefore && ('a' <= rest[0] <= 'z' || 'A' <= rest[0] <= 'Z')));
      var waits := rest == "" && !final && (digitBefore || alnumBefore);
      && (!inner && !waits ==> Split(t, text, final) == Prepend(NonEmpty(Strip(t.isSpace, a + ".")), Split(t, rest, final)))
      && (waits ==> Split(t, text, final) == ([], text))
  {
    hide Split, Strip;
    var text := a + "." + rest;
    assert a + ['.'] + rest == text && text[|a|] == '.';
    assert a != "" ==> text[|a| - 1] == a[|a| - 1];
    assert rest != "" ==> text[|a| + 1] == rest[0];
    if EndsSentence(t, text, |a|, final) {
      EndAt(t, a, '.', rest, final);
    }
    if rest == "" && !EndsSentence(t, text, |a|, final) {
      forall i: nat | i < |text| ensures !EndsSentence(t, text, i, final) {
        UnbrokenEnds(t, text, i, final);
        if i < |a| {
          assert text[i] == a[i] && a[i] in a;
        }
      }
      LastSentence(t, text, final);
    }
  }

  lemma EndAt(t: Alphabet, a: string, c: char, rest: string, final: bool)
    requires ValidAlphabet(t) && Unbroken(a) && EndsSentence(t, a + [c] + rest, |a|, final)
    ensures Split(t, a + [c] + rest, final) == Prepend(NonEmpty(Strip(t.isSpace, a + [c])), Split(t, rest, final))
  {
    hide Split, Strip;
    var text := a + [c] + rest;
    assert text[..|a| + 1] == a + [c] && text[|a| + 1..] == rest;
    forall i: nat | i < |a| ensures !EndsSentence(t, text, i, final) {
      UnbrokenEnds(t, text, i, final);
      assert text[i] == a[i] && a[i] in a;
    }
    FirstSentence(t, text, |a|, final);
  }

  /** No sentence is empty or starts or ends with white space, and the remainder is the end
      of the text as it was. */
  lemma {:induction false} SentencesAreTrimmed(t: Alphabet, text: string, final: bool)
    ensures var (ss, left) := Split(t, text, final);
      && (forall s :: s in ss ==> s != "" && Trimmed(t.isSpace, s))
      && |left| <= |text| && left == text[|text| - |left|..]
    decreases |text|
  {
    hide Trimmed;
    var i := NextCut(t, text, 0, final);
    if i == |text| {
      StripTrims(t.isSpace, text);
    } else {
      StripTrims(t.isSpace, text[..i + 1]);
      SentencesAreTrimmed(t, text[i + 1..], final);
    }
  }
}
