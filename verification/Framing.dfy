/** Newline framing of the host link: a growing receive buffer, complete lines split off in
    order, and an unframed leftover past the cap dropped. */
module Framing {
  import opened Basics

  newtype byte = x: int | 0 <= x < 256

  type Bytes = seq<byte>

  const NEWLINE: byte := 10
  const MAX_FRAME_BYTES: nat := 8 * 1024 * 1024

  /** The newline split of a whole stream: its complete lines, and what is left over. */
  function Frames(s: Bytes): (r: (seq<Bytes>, Bytes))
    ensures NEWLINE !in r.1
    ensures r.0 == [] <==> NEWLINE !in s
    decreases |s|
  {
    var i := IndexOf(s, NEWLINE);
    if i == |s| then ([], s)
    else
      var r := Frames(s[i + 1..]);
      ([s[..i]] + r.0, r.1)
  }

  /** The lines, each with its newline, and then the leftover. */
  function Unframed(lines: seq<Bytes>, rest: Bytes): Bytes {
    if lines == [] then rest else lines[0] + [NEWLINE] + Unframed(lines[1..], rest)
  }

  lemma UnframedCons(line: Bytes, lines: seq<Bytes>, rest: Bytes)
    ensures Unframed([line] + lines, rest) == line + [NEWLINE] + Unframed(lines, rest)
    ensures Unframed([], rest) == rest
  {
    assert ([line] + lines)[1..] == lines;
  }

  /** Framing is undone by writing the newlines back, and no line holds one. */
  lemma {:induction false} UnframedFrames(s: Bytes)
    ensures Unframed(Frames(s).0, Frames(s).1) == s
    ensures forall k :: 0 <= k < |Frames(s).0| ==> NEWLINE !in Frames(s).0[k]
    decreases |s|
  {
    hide Frames, Unframed;
    var i := IndexOf(s, NEWLINE);
    FramesStep(s);
    if i < |s| {
      var more := Frames(s[i + 1..]);
      UnframedFrames(s[i + 1..]);
      UnframedCons(s[..i], more.0, more.1);
      assert s == s[..i] + [NEWLINE] + s[i + 1..];
    } else {
      UnframedCons(s, [], s);
    }
  }

  lemma FramesCons(line: Bytes, more: Bytes)
    requires NEWLINE !in line
    ensures Frames(line + [NEWLINE] + more) == ([line] + Frames(more).0, Frames(more).1)
  {
    hide Frames;
    var s := line + [NEWLINE] + more;
    IndexOfFirst(line, NEWLINE, more);
    assert s[..|line|] == line && s[|line| + 1..] == more;
    FramesStep(s);
  }

  /** Any lines without newlines, written one after another, are framed back as they were. */
  lemma {:induction false} FramesUnframed(lines: seq<Bytes>, rest: Bytes)
    requires NEWLINE !in rest && forall k :: 0 <= k < |lines| ==> NEWLINE !in lines[k]
    ensures Frames(Unframed(lines, rest)) == (lines, rest)
  {
    hide Frames;
    if lines == [] {
      FramesStep(rest);
    } else {
      FramesUnframed(lines[1..], rest);
      FramesCons(lines[0], Unframed(lines[1..], rest));
      assert lines == [lines[0]] + lines[1..];
    }
  }

  /** Split off every complete line, and drop an overlong leftover. */
  method DrainLines(buf: Bytes, maxFrame: nat) returns (lines: seq<Bytes>, remaining: Bytes, overflowed: bool)
    ensures lines == Frames(buf).0
    ensures overflowed <==> |Frames(buf).1| > maxFrame
    ensures remaining == if overflowed then [] else Frames(buf).1
  {
    lines := [];
    var rest := buf;
    while NEWLINE in rest
      invariant Frames(buf).0 == lines + Frames(rest).0 && Frames(buf).1 == Frames(rest).1
      decreases |rest|
    {
      var i := IndexOf(rest, NEWLINE);
      lines := lines + [rest[..i]];
      rest := rest[i + 1..];
    }
    assert Frames(rest) == ([], rest);
    overflowed := |rest| > maxFrame;
    remaining := if overflowed then [] else rest;
  }

  // ---- the stream -------------------------------------------------------------------------

  datatype Link = Link(lines: seq<Bytes>, buf: Bytes, drops: nat)

  /** What arrives over the link, chunk by chunk, from a buffer `buf`. */
  function Received(maxFrame: nat, buf: Bytes, chunks: seq<Bytes>): Link
    decreases |chunks|
  {
    if chunks == [] then Link([], buf, 0)
    else
      var (ls, rest) := Frames(buf + chunks[0]);
      var r := Received(maxFrame, if |rest| > maxFrame then [] else rest, chunks[1..]);
      Link(ls + r.lines, r.buf, r.drops + if |rest| > maxFrame then 1 else 0)
  }

  lemma FramesStep(s: Bytes)
    ensures var i := IndexOf(s, NEWLINE);
      Frames(s) == if i == |s| then ([], s) else ([s[..i]] + Frames(s[i + 1..]).0, Frames(s[i + 1..]).1)
  {
    hide IndexOf;
  }

  lemma {:induction false} FirstNewline(a: Bytes, b: Bytes)
    ensures IndexOf(a + b, NEWLINE) == if NEWLINE in a then IndexOf(a, NEWLINE) else |a| + IndexOf(b, NEWLINE)
  {
    if a == [] {
      assert a + b == b;
    } else if a[0] != NEWLINE {
      assert (a + b)[1..] == a[1..] + b;
      assert a == [a[0]] + a[1..];
      FirstNewline(a[1..], b);
    }
  }

  /** Splitting in two installments: the leftover of the first is carried over. */
  lemma {:induction false} FramesResume(a: Bytes, b: Bytes)
    ensures Frames(a + b).0 == Frames(a).0 + Frames(Frames(a).1 + b).0
    ensures Frames(a + b).1 == Frames(Frames(a).1 + b).1
    decreases |a|
  {
    hide Frames;
    var i := IndexOf(a, NEWLINE);
    FramesStep(a);
    if i < |a| {
      FirstNewline(a, b);
      var head, tail := a[..i], a[i + 1..];
      assert (a + b)[..i] == head && (a + b)[i + 1..] == tail + b;
      FramesStep(a + b);
      FramesResume(tail, b);
      Associative([head], Frames(tail).0, Frames(Frames(tail).1 + b).0);
    } else {
      assert [] + Frames(a + b).0 == Frames(a + b).0;
    }
  }

  /** A newline comes after the first leftover that had to be dropped. */
  ghost predicate NewlineAfterDrop(maxFrame: nat, buf: Bytes, chunks: seq<Bytes>)
    decreases |chunks|
  {
    chunks != [] &&
    var rest := Frames(buf + chunks[0]).1;
    if |rest| > maxFrame then NEWLINE in Joined(chunks[1..]) else NewlineAfterDrop(maxFrame, rest, chunks[1..])
  }

  /** The retained buffer never exceeds the cap between reads, whatever arrives. */
  lemma {:induction false} BufferBounded(maxFrame: nat, buf: Bytes, chunks: seq<Bytes>)
    requires |buf| <= maxFrame
    ensures |Received(maxFrame, buf, chunks).buf| <= maxFrame
    decreases |chunks|
  {
    if chunks != [] {
      var rest := Frames(buf + chunks[0]).1;
      BufferBounded(maxFrame, if |rest| > maxFrame then [] else rest, chunks[1..]);
    }
  }

  /** The first line received is no longer than what stands before the first newline. */
  lemma {:induction false} FirstLineNoLonger(maxFrame: nat, buf: Bytes, chunks: seq<Bytes>)
    requires NEWLINE in buf + Joined(chunks) && NEWLINE !in buf
    ensures var r := Received(maxFrame, buf, chunks);
      r.lines != [] && |r.lines[0]| <= IndexOf(buf + Joined(chunks), NEWLINE)
    decreases |chunks|
  {
    var c, j := chunks[0], Joined(chunks[1..]);
    assert buf + Joined(chunks) == (buf + c) + j;
    FirstNewline(buf + c, j);
    if NEWLINE in buf + c {
    } else {
      assert Frames(buf + c) == ([], buf + c);
      var rest := if |buf + c| > maxFrame then [] else buf + c;
      FirstNewline(rest, j);
      FirstLineNoLonger(maxFrame, rest, chunks[1..]);
    }
  }

  lemma {:induction false} NothingFramed(maxFrame: nat, buf: Bytes, chunks: seq<Bytes>)
    requires NEWLINE !in buf + Joined(chunks)
    ensures Received(maxFrame, buf, chunks).lines == []
    decreases |chunks|
  {
    if chunks != [] {
      var c, j := chunks[0], Joined(chunks[1..]);
      assert buf + Joined(chunks) == (buf + c) + j;
      NothingFramed(maxFrame, if |buf + c| > maxFrame then [] else buf + c, chunks[1..]);
    }
  }

  /** Once something is dropped, a later newline ends a line that has lost its beginning. */
  lemma DroppedLineDiffers(maxFrame: nat, rest: Bytes, chunks: seq<Bytes>)
    requires |rest| > maxFrame && NEWLINE !in rest
    ensures Received(maxFrame, [], chunks).lines == Frames(rest + Joined(chunks)).0 <==> NEWLINE !in Joined(chunks)
  {
    var j := Joined(chunks);
    assert [] + j == j;
    if NEWLINE in j {
      FirstLineNoLonger(maxFrame, [], chunks);
      FirstNewline(rest, j);
      assert |Frames(rest + j).0[0]| == IndexOf(rest + j, NEWLINE);
    } else {
      NothingFramed(maxFrame, [], chunks);
    }
  }

  lemma SamePrefix(a: seq<Bytes>, b: seq<Bytes>, c: seq<Bytes>)
    ensures a + b == a + c <==> b == c
  {
    if a + b == a + c {
      assert b == (a + b)[|a|..] && c == (a + c)[|a|..];
    }
  }

  /** Main theorem: the lines received are the newline split of the whole stream, for every
      way it is cut into reads, exactly when no newline follows a dropped leftover. */
  lemma {:induction false} FramingIsExact(maxFrame: nat, buf: Bytes, chunks: seq<Bytes>)
    requires NEWLINE !in buf
    ensures Received(maxFrame, buf, chunks).lines == Frames(buf + Joined(chunks)).0 <==> !NewlineAfterDrop(maxFrame, buf, chunks)
    decreases |chunks|
  {
    hide Frames;
    if chunks == [] {
      assert buf + [] == buf;
    } else {
      var c, j := chunks[0], Joined(chunks[1..]);
      assert buf + Joined(chunks) == (buf + c) + j;
      FramesResume(buf + c, j);
      var (ls, rest) := Frames(buf + c);
      if |rest| > maxFrame {
        DroppedLineDiffers(maxFrame, rest, chunks[1..]);
        SamePrefix(ls, Received(maxFrame, [], chunks[1..]).lines, Frames(rest + j).0);
      } else {
        FramingIsExact(maxFrame, rest, chunks[1..]);
        SamePrefix(ls, Received(maxFrame, rest, chunks[1..]).lines, Frames(rest + j).0);
      }
    }
  }

  /** In particular when nothing had to be dropped; the leftover is then exact too. */
  lemma {:induction false} NoDropNoLoss(maxFrame: nat, buf: Bytes, chunks: seq<Bytes>)
    requires NEWLINE !in buf && Received(maxFrame, buf, chunks).drops == 0
    ensures Received(maxFrame, buf, chunks) == Link(Frames(buf + Joined(chunks)).0, Frames(buf + Joined(chunks)).1, 0)
    decreases |chunks|
  {
    hide Frames;
    if chunks == [] {
      assert buf + [] == buf;
      FramesStep(buf);
    } else {
      var c, j := chunks[0], Joined(chunks[1..]);
      assert buf + Joined(chunks) == (buf + c) + j;
      FramesResume(buf + c, j);
      NoDropNoLoss(maxFrame, Frames(buf + c).1, chunks[1..]);
    }
  }

  // ---- the receive loop ---------------------------------------------------------------------

  /** What the handler sees: blank lines are skipped, and nothing after the first `stop`. */
  function Handled(blank: Bytes -> bool, stops: Bytes -> bool, lines: seq<Bytes>): seq<Bytes> {
    if lines == [] then []
    else if blank(lines[0]) then Handled(blank, stops, lines[1..])
    else if stops(lines[0]) then [lines[0]]
    else [lines[0]] + Handled(blank, stops, lines[1..])
  }

  /** Some line reaches the handler and makes it stop. */
  predicate Stopped(blank: Bytes -> bool, stops: Bytes -> bool, lines: seq<Bytes>) {
    lines != [] && ((!blank(lines[0]) && stops(lines[0])) || Stopped(blank, stops, lines[1..]))
  }

  lemma {:induction false} HandledAppend(blank: Bytes -> bool, stops: Bytes -> bool, a: seq<Bytes>, b: seq<Bytes>)
    ensures Handled(blank, stops, a + b) ==
      if Stopped(blank, stops, a) then Handled(blank, stops, a) else Handled(blank, stops, a) + Handled(blank, stops, b)
    ensures Stopped(blank, stops, a + b) <==> Stopped(blank, stops, a) || Stopped(blank, stops, b)
  {
    if a == [] {
      assert a + b == b;
    } else {
      assert (a + b)[1..] == a[1..] + b;
      HandledAppend(blank, stops, a[1..], b);
    }
  }

  /** The handler sees every line that is not blank, in order, the first `stop` included, and
      nothing after it. */
  lemma {:induction false} HandledExact(blank: Bytes -> bool, stops: Bytes -> bool, a: seq<Bytes>, x: Bytes, b: seq<Bytes>)
    requires forall i :: 0 <= i < |a| ==> !blank(a[i]) && !stops(a[i])
    ensures Handled(blank, stops, a) == a
    ensures blank(x) ==> Handled(blank, stops, a + [x] + b) == a + Handled(blank, stops, b)
    ensures !blank(x) && stops(x) ==> Handled(blank, stops, a + [x] + b) == a + [x]
    ensures !blank(x) && !stops(x) ==> Handled(blank, stops, a + [x] + b) == a + [x] + Handled(blank, stops, b)
  {
    if a == [] {
      assert (a + [x] + b)[1..] == b;
    } else {
      assert (a + [x] + b)[1..] == a[1..] + [x] + b;
      HandledExact(blank, stops, a[1..], x, b);
      assert a == [a[0]] + a[1..];
    }
  }

  lemma HandledCons(blank: Bytes -> bool, stops: Bytes -> bool, lines: seq<Bytes>, i: nat)
    requires i < |lines|
    ensures var rest := lines[i + 1..];
      && Handled(blank, stops, lines[i..]) ==
           (if blank(lines[i]) then Handled(blank, stops, rest) else if stops(lines[i]) then [lines[i]] else [lines[i]] + Handled(blank, stops, rest))
      && Stopped(blank, stops, lines[i..]) == ((!blank(lines[i]) && stops(lines[i])) || Stopped(blank, stops, rest))
  {
    assert lines[i..][1..] == lines[i + 1..];
  }

  lemma HandledNone(blank: Bytes -> bool, stops: Bytes -> bool)
    ensures Handled(blank, stops, []) == [] && !Stopped(blank, stops, [])
  {
  }

  /** One batch of lines. */
  method Dispatch(blank: Bytes -> bool, stops: Bytes -> bool, lines: seq<Bytes>) returns (handled: seq<Bytes>, stopped: bool)
    ensures handled == Handled(blank, stops, lines) && stopped == Stopped(blank, stops, lines)
  {
    hide Handled, Stopped;
    handled := [];
    assert lines[0..] == lines;
    for i := 0 to |lines|
      invariant Handled(blank, stops, lines) == handled + Handled(blank, stops, lines[i..])
      invariant Stopped(blank, stops, lines) == Stopped(blank, stops, lines[i..])
    {
      var line := lines[i];
      HandledCons(blank, stops, lines, i);
      if blank(line) {
        continue;
      }
      Onto(handled, line, Handled(blank, stops, lines[i + 1..]));
      handled := handled + [line];
      if stops(line) {
        return handled, true;
      }
    }
    assert lines[|lines|..] == [];
    HandledNone(blank, stops);
    stopped := false;
  }

  /** What the reads deliver up to the end of the stream, an empty read. */
  function UntilEof(recvs: seq<Bytes>): seq<Bytes> {
    if recvs == [] || recvs[0] == [] then [] else [recvs[0]] + UntilEof(recvs[1..])
  }

  /** Serve the link: read, split, dispatch, until the end of the stream or a `stop`. The
      handler sees the received lines in order, and the buffer stays within the cap. */
  method Run(recvs: seq<Bytes>, blank: Bytes -> bool, stops: Bytes -> bool, maxFrame: nat := MAX_FRAME_BYTES) returns (handled: seq<Bytes>, ghost kept: seq<Bytes>)
    ensures handled == Handled(blank, stops, Received(maxFrame, [], UntilEof(recvs)).lines)
    ensures forall i :: 0 <= i < |kept| ==> |kept[i]| <= maxFrame
  {
    hide Frames, Handled, Stopped, Received, UntilEof;
    var buf: Bytes := [];
    handled, kept := [], [];
    assert recvs[0..] == recvs;
    for k := 0 to |recvs|
      invariant |buf| <= maxFrame && forall i :: 0 <= i < |kept| ==> |kept[i]| <= maxFrame
      invariant Handled(blank, stops, Received(maxFrame, [], UntilEof(recvs)).lines)
        == handled + Handled(blank, stops, Received(maxFrame, buf, UntilEof(recvs[k..])).lines)
    {
      var chunk := recvs[k];
      ReadsCons(maxFrame, buf, recvs, k);
      if chunk == [] {
        HandledNone(blank, stops);
        return;
      }
      var lines, rest, overflowed := DrainLines(buf + chunk, maxFrame);
      var served, stopped := Dispatch(blank, stops, lines);
      var later := Received(maxFrame, rest, UntilEof(recvs[k + 1..])).lines;
      HandledAppend(blank, stops, lines, later);
      Associative(handled, served, Handled(blank, stops, later));
      handled := handled + served;
      if stopped {
        return;
      }
      buf := rest;
      kept := kept + [buf];
    }
    ReadsEnd(maxFrame, buf, recvs);
    HandledNone(blank, stops);
  }

  lemma ReadsEnd(maxFrame: nat, buf: Bytes, recvs: seq<Bytes>)
    ensures Received(maxFrame, buf, UntilEof(recvs[|recvs|..])).lines == []
  {
  }

  lemma ReadsCons(maxFrame: nat, buf: Bytes, recvs: seq<Bytes>, k: nat)
    requires k < |recvs|
    ensures var (ls, rest) := Frames(buf + recvs[k]);
      Received(maxFrame, buf, UntilEof(recvs[k..])).lines ==
        if recvs[k] == [] then []
        else ls + Received(maxFrame, if |rest| > maxFrame then [] else rest, UntilEof(recvs[k + 1..])).lines
  {
    hide Frames;
    assert recvs[k..][1..] == recvs[k + 1..];
    var more := UntilEof(recvs[k + 1..]);
    assert ([recvs[k]] + more)[1..] == more;
  }
}
