/** Cutting serial reads into lines. Both readers give the lines of the whole stream, however
    it was cut into reads, and hold the unfinished line back. */
module Lines {
  import opened Basics
  import opened Bytes
  import Capture

  const NEWLINE: Byte := 10

  // ---- The stream ------------------------------------------------------------------------------

  predicate Unbroken(s: Octets) {
    forall j | 0 <= j < |s| :: s[j] != NEWLINE
  }

  /** What follows the last newline. */
  function Held(s: Octets): Octets {
    if s == [] || s[|s| - 1] == NEWLINE then [] else Held(s[..|s| - 1]) + [s[|s| - 1]]
  }

  /** The finished lines of a stream. */
  function Finished(s: Octets): seq<Octets> {
    if s == [] then []
    else if s[|s| - 1] == NEWLINE then Finished(s[..|s| - 1]) + [Held(s[..|s| - 1])]
    else Finished(s[..|s| - 1])
  }

  /** Lines with their newlines. */
  function Terminated(lines: seq<Octets>): Octets {
    if lines == [] then [] else Terminated(lines[..|lines| - 1]) + lines[|lines| - 1] + [NEWLINE]
  }

  /** The one way to write the stream as lines without newlines and a rest without one. */
  lemma OneSplit(s: Octets, lines: seq<Octets>, rest: Octets)
    ensures lines == Finished(s) && rest == Held(s) <==>
            Terminated(lines) + rest == s && Unbroken(rest) && forall i | 0 <= i < |lines| :: Unbroken(lines[i])
  {
    SplitHolds(s);
    if Terminated(lines) + rest == s && Unbroken(rest) && forall i | 0 <= i < |lines| :: Unbroken(lines[i]) {
      SplitUnique(lines, rest);
    }
  }

  lemma {:induction false} SplitHolds(s: Octets)
    ensures Terminated(Finished(s)) + Held(s) == s && Unbroken(Held(s))
    ensures forall i | 0 <= i < |Finished(s)| :: Unbroken(Finished(s)[i])
    decreases |s|
  {
    if s != [] {
      var prev, last := s[..|s| - 1], s[|s| - 1];
      SplitHolds(prev);
      assert s == prev + [last];
      if last != NEWLINE {
        assert Terminated(Finished(s)) + Held(s) == Terminated(Finished(prev)) + Held(prev) + [last];
      }
    }
  }

  lemma {:induction false} SplitUnique(lines: seq<Octets>, rest: Octets)
    requires Unbroken(rest) && forall i | 0 <= i < |lines| :: Unbroken(lines[i])
    ensures Finished(Terminated(lines) + rest) == lines && Held(Terminated(lines) + rest) == rest
    decreases |lines|, |rest|
  {
    if rest != [] {
      var front, last := rest[..|rest| - 1], rest[|rest| - 1];
      SplitUnique(lines, front);
      assert rest == front + [last] && Terminated(lines) + rest == Terminated(lines) + front + [last];
    } else if lines != [] {
      var front, last := lines[..|lines| - 1], lines[|lines| - 1];
      SplitUnique(front, last);
      assert lines == front + [last] && Terminated(lines) + rest == Terminated(front) + last + [NEWLINE];
    }
  }

  /** A longer stream finishes the lines of the shorter one first; what was held back is
      read again with what follows. */
  lemma {:induction false} StreamGrows(s: Octets, more: Octets)
    ensures Finished(s + more) == Finished(s) + Finished(Held(s) + more)
    ensures Held(s + more) == Held(Held(s) + more)
    decreases |more|
  {
    if more == [] {
      assert s + more == s && Held(s) + more == Held(s);
      SplitHolds(s);
      UnbrokenSplit(Held(s));
    } else {
      var front, last := more[..|more| - 1], more[|more| - 1];
      StreamGrows(s, front);
      assert s + more == s + front + [last] && Held(s) + more == Held(s) + front + [last];
    }
  }

  lemma {:induction false} UnbrokenSplit(s: Octets)
    requires Unbroken(s)
    ensures Finished(s) == [] && Held(s) == s
  {
    if s != [] {
      UnbrokenSplit(s[..|s| - 1]);
    }
  }

  /** The position of the first newline, or the end. */
  function Break(s: Octets): (i: nat)
    ensures i <= |s| && Unbroken(s[..i]) && (i < |s| ==> s[i] == NEWLINE)
  {
    if s == [] || s[0] == NEWLINE then 0 else
      assert forall i | 1 <= i <= |s| :: s[..i] == [s[0]] + s[1..][..i - 1];
      1 + Break(s[1..])
  }

  lemma OneLine(line: Octets)
    requires Unbroken(line)
    ensures Finished(line + [NEWLINE]) == [line] && Held(line + [NEWLINE]) == []
  {
    UnbrokenSplit(line);
    assert (line + [NEWLINE])[..|line|] == line;
  }

  lemma LineThen(first: Octets, line: Octets, tail: Octets)
    requires Finished(first) == [line] && Held(first) == []
    ensures Finished(first + tail) == [line] + Finished(tail) && Held(first + tail) == Held(tail)
  {
    StreamGrows(first, tail);
    assert [] + tail == tail;
  }

  lemma FirstOf(s: Octets, line: Octets, tail: Octets)
    requires Unbroken(line) && s == (line + [NEWLINE]) + tail
    ensures Finished(s) == [line] + Finished(tail) && Held(s) == Held(tail)
  {
    OneLine(line);
    LineThen(line + [NEWLINE], line, tail);
  }

  /** Splitting at the first newline takes the first line off. */
  lemma FirstLine(s: Octets, k: nat)
    requires k < |s| && Unbroken(s[..k]) && s[k] == NEWLINE
    ensures Finished(s) == [s[..k]] + Finished(s[k + 1..]) && Held(s) == Held(s[k + 1..])
  {
    FirstOf(s, s[..k], s[k + 1..]);
  }

  // ---- SerialCapture._read_loop ----------------------------------------------------------------

  /** bytes.split on the newline. */
  function SplitAll(s: Octets): (r: seq<Octets>)
    ensures r == Finished(s) + [Held(s)]
    decreases |s|
  {
    var k := Break(s);
    if k == |s| then
      UnbrokenSplit(s[..k]);
      assert s[..k] == s;
      [s]
    else
      FirstLine(s, k);
      [s[..k]] + SplitAll(s[k + 1..])
  }

  /** How the text of a line is obtained from its bytes. */
  type Decoder = Octets -> string

  function Texts(text: Decoder, lines: seq<Octets>): (r: seq<string>)
    ensures |r| == |lines| && forall i | 0 <= i < |r| :: r[i] == text(lines[i])
  {
    seq(|lines|, i requires 0 <= i < |lines| => text(lines[i]))
  }

  function Tail(text: Decoder, held: Octets, suffix: string): seq<string> {
    if held == [] then [] else [text(held) + suffix]
  }

  /** What one more read adds. */
  lemma NextRead(text: Decoder, chunks: seq<Octets>, i: nat)
    requires i < |chunks|
    ensures Texts(text, Finished(Join(chunks[..i + 1])))
         == Texts(text, Finished(Join(chunks[..i]))) + Texts(text, Finished(Held(Join(chunks[..i])) + chunks[i]))
    ensures Held(Join(chunks[..i + 1])) == Held(Held(Join(chunks[..i])) + chunks[i]) && Unbroken(Held(Join(chunks[..i])))
  {
    JoinNext(chunks, i);
    StreamGrows(Join(chunks[..i]), chunks[i]);
    SplitHolds(Join(chunks[..i]));
  }

  /** A capture after it was fed lines: once closed it drops them. */
  function Fed(s: Capture.State, lines: seq<string>): Capture.State {
    if s.closed then s else s.(log := s.log + lines)
  }

  lemma FedTwice(s: Capture.State, first: seq<string>, second: seq<string>)
    ensures Fed(Fed(s, first), second) == Fed(s, first + second)
  {
    assert s.log + first + second == s.log + (first + second);
  }

  /** Feeding is the run of the capture that feeds each line. */
  lemma {:induction false} FedIsRun(s: Capture.State, lines: seq<string>)
    ensures Fed(s, lines) == Capture.Run(s, seq(|lines|, i requires 0 <= i < |lines| => Capture.Feed(lines[i])))
    decreases |lines|
  {
    if lines != [] {
      var ops := seq(|lines|, i requires 0 <= i < |lines| => Capture.Feed(lines[i]));
      FedIsRun(Capture.Step(s, ops[0]), lines[1..]);
      assert ops[1..] == seq(|lines[1..]|, i requires 0 <= i < |lines[1..]| => Capture.Feed(lines[1..][i]));
      FedTwice(s, [lines[0]], lines[1..]);
      assert lines == [lines[0]] + lines[1..];
    }
  }

  /** The reader thread: split, keep the last piece, feed the others. A read error, if any,
      is logged where it ends the loop. */
  method ReadLoop(cap: Capture.Recorder, text: Decoder, raw: Decoder, chunks: seq<Octets>, failure: Option<string>)
    requires cap.Valid()
    modifies cap
    ensures cap.Valid()
    ensures cap.Now() == Fed(old(cap.Now()), Texts(text, Finished(Join(chunks)))
                                             + (if failure.Some? then [failure.value] else [])
                                             + Tail(raw, Held(Join(chunks)), "  (unterminated)"))
  {
    var partial := ReadAll(cap, text, chunks);
    ghost var logged := Texts(text, Finished(Join(chunks)));
    if failure.Some? {
      cap.FeedLine(failure.value);
      FedTwice(old(cap.Now()), logged, [failure.value]);
      logged := logged + [failure.value];
    }
    if partial != [] {
      cap.FeedLine(raw(partial) + "  (unterminated)");
      FedTwice(old(cap.Now()), logged, [raw(partial) + "  (unterminated)"]);
    }
  }

  method ReadAll(cap: Capture.Recorder, text: Decoder, chunks: seq<Octets>) returns (partial: Octets)
    requires cap.Valid()
    modifies cap
    ensures cap.Valid()
    ensures cap.Now() == Fed(old(cap.Now()), Texts(text, Finished(Join(chunks)))) && partial == Held(Join(chunks))
  {
    partial := [];
    ghost var logged: seq<string> := [];
    for i := 0 to |chunks|
      invariant cap.Valid() && cap.Now() == Fed(old(cap.Now()), logged)
      invariant logged == Texts(text, Finished(Join(chunks[..i]))) && partial == Held(Join(chunks[..i]))
    {
      NextRead(text, chunks, i);
      ghost var more := Texts(text, Finished(partial + chunks[i]));
      partial := ReadOnce(cap, text, partial, chunks[i]);
      FedTwice(old(cap.Now()), logged, more);
      logged := logged + more;
    }
    assert chunks[..|chunks|] == chunks;
  }

  /** One turn of it. A read that times out is empty. */
  method ReadOnce(cap: Capture.Recorder, text: Decoder, partial: Octets, data: Octets) returns (held: Octets)
    requires cap.Valid() && Unbroken(partial)
    modifies cap
    ensures cap.Valid()
    ensures cap.Now() == Fed(old(cap.Now()), Texts(text, Finished(partial + data))) && held == Held(partial + data)
  {
    if data == [] {
      assert partial + data == partial;
      UnbrokenSplit(partial);
      return partial;
    }
    var lines := SplitAll(partial + data);
    assert lines[..|lines| - 1] == Finished(partial + data);
    FeedAll(cap, text, lines[..|lines| - 1]);
    held := lines[|lines| - 1];
  }

  method FeedAll(cap: Capture.Recorder, text: Decoder, lines: seq<Octets>)
    requires cap.Valid()
    modifies cap
    ensures cap.Valid() && cap.Now() == Fed(old(cap.Now()), Texts(text, lines))
  {
    for k := 0 to |lines|
      invariant cap.Valid() && cap.Now() == Fed(old(cap.Now()), Texts(text, lines[..k]))
    {
      cap.FeedLine(text(lines[k]));
      FedTwice(old(cap.Now()), Texts(text, lines[..k]), [text(lines[k])]);
      assert Texts(text, lines[..k + 1]) == Texts(text, lines[..k]) + [text(lines[k])];
    }
    assert lines[..|lines|] == lines;
  }

  lemma JoinNext(chunks: seq<Octets>, i: nat)
    requires i < |chunks|
    ensures Join(chunks[..i + 1]) == Join(chunks[..i]) + chunks[i]
  {
    assert chunks[..i + 1] == chunks[..i] + [chunks[i]];
    JoinLast(chunks[..i], chunks[i]);
  }

  lemma {:induction false} JoinLast(parts: seq<Octets>, last: Octets)
    ensures Join(parts + [last]) == Join(parts) + last
    decreases |parts|
  {
    if parts == [] {
      assert parts + [last] == [last] && [last][1..] == [];
    } else {
      assert (parts + [last])[0] == parts[0] && (parts + [last])[1..] == parts[1..] + [last];
      JoinLast(parts[1..], last);
    }
  }

  // ---- capture_reconnect ---------------------------------------------------------------------------

  /** One connection of the reconnecting reader: peel one line at a time. */
  method PeelLoop(text: Decoder, raw: Decoder, chunks: seq<Octets>) returns (noted: seq<string>)
    ensures noted == Texts(text, Finished(Join(chunks))) + Tail(raw, Held(Join(chunks)), " (unterminated)")
  {
    noted := [];
    var partial := [];
    for i := 0 to |chunks|
      invariant noted == Texts(text, Finished(Join(chunks[..i]))) && partial == Held(Join(chunks[..i]))
    {
      NextRead(text, chunks, i);
      var lines, rest := Peel(partial + chunks[i]);
      noted, partial := noted + Texts(text, lines), rest;
    }
    assert chunks[..|chunks|] == chunks;
    if partial != [] {
      noted := noted + [raw(partial) + " (unterminated)"];
    }
  }

  /** Its inner loop. */
  method Peel(stream: Octets) returns (lines: seq<Octets>, partial: Octets)
    ensures lines == Finished(stream) && partial == Held(stream)
  {
    lines, partial := [], stream;
    while Break(partial) < |partial|
      invariant lines + Finished(partial) == Finished(stream) && Held(partial) == Held(stream)
      decreases |partial|
    {
      var k := Break(partial);
      FirstLine(partial, k);
      assert lines + Finished(partial) == lines + [partial[..k]] + Finished(partial[k + 1..]);
      lines, partial := lines + [partial[..k]], partial[k + 1..];
    }
    assert partial[..|partial|] == partial;
    UnbrokenSplit(partial);
  }
}
