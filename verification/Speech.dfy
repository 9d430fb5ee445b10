/** What `converse` says out loud: it splits the reply as it is decoded, synthesizes each
    completed sentence, and emits one numbered event per sentence that produced audio. */
module Speech {
  import opened Basics
  import opened Sentences

  const CONVERSE_MAX_SPOKEN_SENTENCES: nat := 5

  datatype Synthesis = Audio | NoAudio | Raises

  /** The outcome of the `k`-th synthesis of a reply, for the sentence it is given. */
  type Synthesizer = (nat, string) -> Synthesis

  datatype Event = Event(seqNo: nat, text: string)

  datatype Speaker = Speaker(pending: string, attempts: nat, spoken: nat, events: seq<Event>, failed: bool)

  function Silent(): Speaker {
    Speaker("", 0, 0, [], false)
  }

  /** Speak the sentences in order, until the cap is reached or a synthesis raises. */
  function SpeakAll(syn: Synthesizer, sp: Speaker, sentences: seq<string>): Speaker
    decreases |sentences|
  {
    if sentences == [] || sp.failed || sp.spoken >= CONVERSE_MAX_SPOKEN_SENTENCES then sp
    else
      var tried := sp.(attempts := sp.attempts + 1);
      match syn(sp.attempts, sentences[0])
      case Audio =>
        SpeakAll(syn, tried.(spoken := sp.spoken + 1, events := sp.events + [Event(sp.spoken, sentences[0])]), sentences[1..])
      case NoAudio => SpeakAll(syn, tried, sentences[1..])
      case Raises => tried.(failed := true)
  }

  /** One decoded piece. */
  function Absorb(t: Alphabet, syn: Synthesizer, sp: Speaker, piece: string): Speaker {
    if sp.failed || sp.spoken >= CONVERSE_MAX_SPOKEN_SENTENCES then sp
    else
      var r := Split(t, sp.pending + piece, false);
      SpeakAll(syn, sp.(pending := r.1), r.0)
  }

  function AbsorbAll(t: Alphabet, syn: Synthesizer, sp: Speaker, pieces: seq<string>): Speaker
    decreases |pieces|
  {
    if pieces == [] then sp else AbsorbAll(t, syn, Absorb(t, syn, sp, pieces[0]), pieces[1..])
  }

  /** The flush of the last partial sentence, on a turn that was not aborted. */
  function Flush(t: Alphabet, syn: Synthesizer, sp: Speaker): Speaker {
    if sp.failed || sp.spoken >= CONVERSE_MAX_SPOKEN_SENTENCES then sp
    else
      var r := Split(t, sp.pending, true);
      SpeakAll(syn, sp.(pending := r.1), r.0)
  }

  // ---- the reference ---------------------------------------------------------------------

  /** The sentences that yield audio, up to the first synthesis that raises; `k` is the
      number of the first attempt. */
  function Heard(syn: Synthesizer, sentences: seq<string>, k: nat): seq<string> {
    if sentences == [] then []
    else match syn(k, sentences[0])
      case Audio => [sentences[0]] + Heard(syn, sentences[1..], k + 1)
      case NoAudio => Heard(syn, sentences[1..], k + 1)
      case Raises => []
  }

  function Numbered(texts: seq<string>, from: nat): (r: seq<Event>)
    ensures |r| == |texts|
    ensures forall i :: 0 <= i < |texts| ==> r[i] == Event(from + i, texts[i])
  {
    seq(|texts|, i requires 0 <= i < |texts| => Event(from + i, texts[i]))
  }

  /** The events a listener should get for a reply made of `sentences`. */
  function Announced(syn: Synthesizer, sentences: seq<string>): seq<Event> {
    Numbered(Take(CONVERSE_MAX_SPOKEN_SENTENCES, Heard(syn, sentences, 0)), 0)
  }

  // ---- proofs ------------------------------------------------------------------------------

  ghost predicate Open(sp: Speaker) {
    !sp.failed && sp.spoken < CONVERSE_MAX_SPOKEN_SENTENCES
  }

  lemma OneMoreEvent(events: seq<Event>, text: string, more: seq<string>, room: nat, n: nat)
    requires room > 0
    ensures (events + [Event(n, text)]) + Numbered(Take(room - 1, more), n + 1) == events + Numbered(Take(room, [text] + more), n)
  {
    assert Take(room, [text] + more) == [text] + Take(room - 1, more);
    assert Numbered([text] + Take(room - 1, more), n) == [Event(n, text)] + Numbered(Take(room - 1, more), n + 1);
  }

  lemma OneAttempt(syn: Synthesizer, sp: Speaker, ss: seq<string>)
    requires Open(sp) && ss != []
    ensures var tried := sp.(attempts := sp.attempts + 1);
      var heard := tried.(spoken := sp.spoken + 1, events := sp.events + [Event(sp.spoken, ss[0])]);
      match syn(sp.attempts, ss[0])
      case Audio =>
        && SpeakAll(syn, sp, ss) == SpeakAll(syn, heard, ss[1..])
        && Heard(syn, ss, sp.attempts) == [ss[0]] + Heard(syn, ss[1..], sp.attempts + 1)
      case NoAudio =>
        && SpeakAll(syn, sp, ss) == SpeakAll(syn, tried, ss[1..])
        && Heard(syn, ss, sp.attempts) == Heard(syn, ss[1..], sp.attempts + 1)
      case Raises =>
        SpeakAll(syn, sp, ss) == tried.(failed := true) && Heard(syn, ss, sp.attempts) == []
  {
  }

  lemma NothingToSay(syn: Synthesizer, sp: Speaker, ss: seq<string>)
    requires sp.spoken <= CONVERSE_MAX_SPOKEN_SENTENCES
    requires ss == [] || sp.spoken == CONVERSE_MAX_SPOKEN_SENTENCES
    ensures SpeakAll(syn, sp, ss) == sp
    ensures Take(CONVERSE_MAX_SPOKEN_SENTENCES - sp.spoken, Heard(syn, ss, sp.attempts)) == []
  {
  }

  lemma {:induction false} SpeakAllEvents(syn: Synthesizer, sp: Speaker, ss: seq<string>)
    requires !sp.failed && sp.spoken <= CONVERSE_MAX_SPOKEN_SENTENCES
    ensures SpeakAll(syn, sp, ss).events ==
      sp.events + Numbered(Take(CONVERSE_MAX_SPOKEN_SENTENCES - sp.spoken, Heard(syn, ss, sp.attempts)), sp.spoken)
    decreases |ss|
  {
    hide SpeakAll, Heard;
    var room := CONVERSE_MAX_SPOKEN_SENTENCES - sp.spoken;
    assert sp.events + Numbered([], sp.spoken) == sp.events;
    if ss == [] || room == 0 {
      NothingToSay(syn, sp, ss);
    } else {
      OneAttempt(syn, sp, ss);
      var tried := sp.(attempts := sp.attempts + 1);
      match syn(sp.attempts, ss[0]) {
        case Audio =>
          SpeakAllEvents(syn, tried.(spoken := sp.spoken + 1, events := sp.events + [Event(sp.spoken, ss[0])]), ss[1..]);
          OneMoreEvent(sp.events, ss[0], Heard(syn, ss[1..], sp.attempts + 1), room, sp.spoken);
        case NoAudio =>
          SpeakAllEvents(syn, tried, ss[1..]);
        case Raises =>
      }
    }
  }

  lemma {:induction false} SpeakAllAppend(syn: Synthesizer, sp: Speaker, a: seq<string>, b: seq<string>)
    ensures SpeakAll(syn, sp, a + b) == SpeakAll(syn, SpeakAll(syn, sp, a), b)
    decreases |a|
  {
    if a == [] {
      assert a + b == b;
    } else if Open(sp) {
      assert (a + b)[1..] == a[1..] + b;
      var tried := sp.(attempts := sp.attempts + 1);
      match syn(sp.attempts, a[0]) {
        case Audio =>
          SpeakAllAppend(syn, tried.(spoken := sp.spoken + 1, events := sp.events + [Event(sp.spoken, a[0])]), a[1..], b);
        case NoAudio =>
          SpeakAllAppend(syn, tried, a[1..], b);
        case Raises =>
      }
    }
  }

  lemma {:induction false} PendingIsInert(syn: Synthesizer, sp: Speaker, p: string, ss: seq<string>)
    ensures SpeakAll(syn, sp.(pending := p), ss) == SpeakAll(syn, sp, ss).(pending := p)
    decreases |ss|
  {
    if ss != [] && Open(sp) {
      var tried := sp.(attempts := sp.attempts + 1);
      match syn(sp.attempts, ss[0]) {
        case Audio =>
          PendingIsInert(syn, tried.(spoken := sp.spoken + 1, events := sp.events + [Event(sp.spoken, ss[0])]), p, ss[1..]);
        case NoAudio =>
          PendingIsInert(syn, tried, p, ss[1..]);
        case Raises =>
      }
    }
  }

  /** Speaking piece by piece is speaking the streamed sentences in one go. */
  lemma {:induction false} AbsorbAllIsSpeakAll(t: Alphabet, syn: Synthesizer, sp: Speaker, pieces: seq<string>)
    ensures var s := Stream(t, sp.pending, pieces);
      var r, one := AbsorbAll(t, syn, sp, pieces), SpeakAll(syn, sp, s.0);
      && r == one.(pending := r.pending)
      && (Open(r) ==> r.pending == s.1)
    decreases |pieces|
  {
    if pieces != [] {
      if Open(sp) {
        var q := Split(t, sp.pending + pieces[0], false);
        var mid := SpeakAll(syn, sp.(pending := q.1), q.0);
        PendingIsInert(syn, sp, q.1, q.0);
        AbsorbAllIsSpeakAll(t, syn, mid, pieces[1..]);
        var rest := Stream(t, q.1, pieces[1..]);
        assert mid.pending == q.1;
        SpeakAllAppend(syn, sp, q.0, rest.0);
        PendingIsInert(syn, SpeakAll(syn, sp, q.0), q.1, rest.0);
      } else {
        AbsorbAllIsSpeakAll(t, syn, sp, pieces[1..]);
      }
    }
  }

  /** A turn that decodes to the end announces the first audible sentences of the batch
      split of its whole text, numbered from 0 and at most five. */
  lemma CompletedTurnEvents(t: Alphabet, syn: Synthesizer, pieces: seq<string>)
    requires ValidAlphabet(t)
    ensures Flush(t, syn, AbsorbAll(t, syn, Silent(), pieces)).events == Announced(syn, Split(t, Joined(pieces), true).0)
  {
    var s := Stream(t, "", pieces);
    var mid := AbsorbAll(t, syn, Silent(), pieces);
    var tail := Split(t, s.1, true).0;
    AbsorbAllIsSpeakAll(t, syn, Silent(), pieces);
    ChunkIndependence(t, pieces);
    SpeakAllAppend(syn, Silent(), s.0, tail);
    var one := SpeakAll(syn, Silent(), s.0);
    if Open(mid) {
      PendingIsInert(syn, one, Split(t, s.1, true).1, tail);
      assert mid.(pending := Split(t, s.1, true).1) == one.(pending := Split(t, s.1, true).1);
    }
    SpeakAllEvents(syn, Silent(), s.0 + tail);
    assert [] + Announced(syn, s.0 + tail) == Announced(syn, s.0 + tail);
  }

  lemma {:induction false} HeardPrefix(syn: Synthesizer, a: seq<string>, b: seq<string>, k: nat)
    ensures Heard(syn, a, k) <= Heard(syn, a + b, k)
    decreases |a|
  {
    if a != [] {
      assert (a + b)[1..] == a[1..] + b;
      HeardPrefix(syn, a[1..], b, k + 1);
    }
  }

  /** A turn cut short after `pieces` has announced a prefix of what the text decoded so far
      deserves. */
  lemma InterruptedTurnEvents(t: Alphabet, syn: Synthesizer, pieces: seq<string>)
    requires ValidAlphabet(t)
    ensures AbsorbAll(t, syn, Silent(), pieces).events == Announced(syn, Stream(t, "", pieces).0)
    ensures AbsorbAll(t, syn, Silent(), pieces).events <= Announced(syn, Split(t, Joined(pieces), true).0)
  {
    var s := Stream(t, "", pieces);
    var all := Split(t, Joined(pieces), true).0;
    AbsorbAllIsSpeakAll(t, syn, Silent(), pieces);
    SpeakAllEvents(syn, Silent(), s.0);
    assert [] + Announced(syn, s.0) == Announced(syn, s.0);
    ChunkIndependence(t, pieces);
    HeardPrefix(syn, s.0, Split(t, s.1, true).0, 0);
    var few, many := Heard(syn, s.0, 0), Heard(syn, all, 0);
    assert Take(CONVERSE_MAX_SPOKEN_SENTENCES, few) <= Take(CONVERSE_MAX_SPOKEN_SENTENCES, many);
  }

  lemma {:induction false} AbsorbAllSnoc(t: Alphabet, syn: Synthesizer, sp: Speaker, pieces: seq<string>, piece: string)
    ensures AbsorbAll(t, syn, sp, pieces + [piece]) == Absorb(t, syn, AbsorbAll(t, syn, sp, pieces), piece)
    decreases |pieces|
  {
    if pieces == [] {
      assert (pieces + [piece])[1..] == [];
    } else {
      assert (pieces + [piece])[1..] == pieces[1..] + [piece];
      AbsorbAllSnoc(t, syn, Absorb(t, syn, sp, pieces[0]), pieces[1..], piece);
    }
  }

  // ---- the code -------------------------------------------------------------------------------

  /** `for sentence in sentences: if spoken < MAX: speak_sentence(sentence)`; an exception
      leaves the loop. */
  method SpeakSentences(syn: Synthesizer, sp0: Speaker, sentences: seq<string>) returns (sp: Speaker)
    ensures sp == SpeakAll(syn, sp0, sentences)
  {
    sp := sp0;
    if sp.failed {
      return;
    }
    for i := 0 to |sentences|
      invariant !sp.failed
      invariant SpeakAll(syn, sp, sentences[i..]) == SpeakAll(syn, sp0, sentences)
    {
      assert sentences[i..][1..] == sentences[i + 1..];
      if sp.spoken < CONVERSE_MAX_SPOKEN_SENTENCES {
        var outcome := syn(sp.attempts, sentences[i]);
        sp := sp.(attempts := sp.attempts + 1);
        if outcome.Raises? {
          sp := sp.(failed := true);
          return;
        }
        if outcome.Audio? {
          sp := sp.(events := sp.events + [Event(sp.spoken, sentences[i])], spoken := sp.spoken + 1);
        }
      } else {
        CappedSpeakerIsDone(syn, sp, sentences[i..]);
        CappedSpeakerIsDone(syn, sp, sentences[i + 1..]);
      }
    }
  }

  lemma CappedSpeakerIsDone(syn: Synthesizer, sp: Speaker, ss: seq<string>)
    requires sp.spoken >= CONVERSE_MAX_SPOKEN_SENTENCES
    ensures SpeakAll(syn, sp, ss) == sp
  {
  }

  /** What the decode loop does with one piece of text, or with the end of the reply. */
  method Hear(t: Alphabet, syn: Synthesizer, sp0: Speaker, piece: string, final: bool) returns (sp: Speaker)
    requires ValidAlphabet(t) && !sp0.failed
    requires final ==> piece == ""
    ensures sp == if final then Flush(t, syn, sp0) else Absorb(t, syn, sp0, piece)
  {
    sp := sp0;
    if sp.spoken < CONVERSE_MAX_SPOKEN_SENTENCES {
      var pending := sp.pending + piece;
      assert final ==> pending == sp.pending;
      var sentences, rest := SplitCompleteSentences(t, pending, final);
      sp := SpeakSentences(syn, sp.(pending := rest), sentences);
    }
  }

  // ---- the reference, to the letter -------------------------------------------------------------

  /** Sentences that yield audio are heard, one that does not is passed over, and one whose
      synthesis raises ends it. */
  lemma {:induction false} HeardExact(syn: Synthesizer, a: seq<string>, x: string, b: seq<string>, k: nat)
    requires forall i :: 0 <= i < |a| ==> syn(k + i, a[i]).Audio?
    ensures Heard(syn, a, k) == a
    ensures Heard(syn, a + [x] + b, k) ==
      match syn(k + |a|, x)
      case Audio => a + [x] + Heard(syn, b, k + |a| + 1)
      case NoAudio => a + Heard(syn, b, k + |a| + 1)
      case Raises => a
    decreases |a|
  {
    if a == [] {
      assert (a + [x] + b)[1..] == b;
      assert a + Heard(syn, b, k + |a| + 1) == Heard(syn, b, k + |a| + 1);
    } else {
      assert (a + [x] + b)[1..] == a[1..] + [x] + b;
      forall i | 0 <= i < |a[1..]| ensures syn(k + 1 + i, a[1..][i]).Audio? {
        assert syn(k + (i + 1), a[i + 1]).Audio?;
      }
      HeardExact(syn, a[1..], x, b, k + 1);
      assert a == [a[0]] + a[1..];
    }
  }

  /** One event per sentence heard, numbered from 0, for the first five. */
  lemma AnnouncedExact(syn: Synthesizer, sentences: seq<string>)
    ensures var heard, events := Heard(syn, sentences, 0), Announced(syn, sentences);
      && |events| == (if |heard| <= 5 then |heard| else 5)
      && forall i :: 0 <= i < |events| ==> events[i] == Event(i, heard[i])
  {
  }
}
