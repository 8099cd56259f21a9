/** The reading side of `startTTS` in `src/App.jsx`: the NDJSON response is
    framed into lines, each line is handled by `processLine` (progress markers,
    audio segments, error reports), the format of the audio is decided by the
    first segment, and when the stream is over the segments are assembled into
    one downloadable asset.

    `JSON.parse` together with the base64 decoding of `audioContent` is a
    parameter (`parse`): what matters here is which field of a record is
    truthy. A cancel request can only be seen between reads; it is modelled as
    the number of the first read after which the flag is set. */
module Client {
  import opened Seqs
  import opened Text
  import opened Wrappers
  import opened Audio
  import Relay

  // ---------------------------------------------------------------------------
  // Line framing

  /** `s.indexOf(c)`: the first position of `c`, or -1. */
  function IndexOf(s: string, c: char): (k: int)
    ensures -1 <= k < |s|
    ensures k >= 0 ==> s[k] == c
    decreases |s|
  {
    if s == [] then -1
    else if s[0] == c then 0
    else
      var k := IndexOf(s[1..], c);
      if k < 0 then -1 else k + 1
  }

  /** No character before the position found (or at all, for -1) is `c`. */
  lemma {:induction false} IndexOfFirst(s: string, c: char)
    ensures forall j :: 0 <= j < |s| && (IndexOf(s, c) < 0 || j < IndexOf(s, c)) ==> s[j] != c
    decreases |s|
  {
    if s != [] && s[0] != c {
      IndexOfFirst(s[1..], c);
      assert forall j :: 1 <= j < |s| ==> s[j] == s[1..][j - 1];
    }
  }

  /** `indexOf` finds nothing exactly when the character does not occur. */
  lemma {:induction false} IndexOfAbsent(s: string, c: char)
    ensures IndexOf(s, c) < 0 <==> c !in s
  {
    IndexOfFirst(s, c);
    if IndexOf(s, c) >= 0 {
      assert s[IndexOf(s, c)] == c;
    }
  }

  /** Lines each followed by a line break. */
  function Unlines(lines: seq<string>): string
    decreases |lines|
  {
    if lines == [] then [] else lines[0] + "\n" + Unlines(lines[1..])
  }

  /** The inner `while` of the read loop: the complete lines taken off the front
      of the buffer, and what is left of it. */
  function TakeLines(buffer: string): (r: (seq<string>, string))
    ensures IndexOf(r.1, '\n') < 0
    decreases |buffer|
  {
    var k := IndexOf(buffer, '\n');
    if k < 0 then ([], buffer)
    else
      var r := TakeLines(buffer[k + 1..]);
      ([buffer[..k]] + r.0, r.1)
  }

  lemma {:induction false} UnlinesCons(line: string, more: seq<string>)
    ensures Unlines([line] + more) == line + "\n" + Unlines(more)
  {
    assert ([line] + more)[1..] == more;
  }

  lemma {:induction false} SplitAtBreak(s: string, k: nat)
    requires k < |s| && s[k] == '\n'
    ensures s == s[..k] + "\n" + s[k + 1..]
  {
    assert [s[k]] == "\n";
    assert s == s[..k] + [s[k]] + s[k + 1..];
  }

  /** The lines with their breaks, then the leftover, are the buffer again. */
  lemma {:induction false} TakeLinesUnlines(buffer: string)
    ensures Unlines(TakeLines(buffer).0) + TakeLines(buffer).1 == buffer
    decreases |buffer|
  {
    var k := IndexOf(buffer, '\n');
    if k >= 0 {
      var line, after := buffer[..k], buffer[k + 1..];
      var r := TakeLines(after);
      TakeLinesStep(buffer, k);
      TakeLinesUnlines(after);
      UnlinesCons(line, r.0);
      SplitAtBreak(buffer, k);
      Assoc(line + "\n", Unlines(r.0), r.1);
    } else {
      assert Unlines([]) + buffer == buffer;
    }
  }

  /** No line holds a line break. */
  lemma {:induction false} TakeLinesNoBreak(buffer: string)
    ensures forall j :: 0 <= j < |TakeLines(buffer).0| ==> '\n' !in TakeLines(buffer).0[j]
    decreases |buffer|
  {
    var k := IndexOf(buffer, '\n');
    if k >= 0 {
      IndexOfFirst(buffer, '\n');
      TakeLinesNoBreak(buffer[k + 1..]);
      var r := TakeLines(buffer[k + 1..]);
      assert TakeLines(buffer).0 == [buffer[..k]] + r.0;
    } else {
      assert TakeLines(buffer) == ([], buffer);
    }
  }

  /** Framing the buffer and then more text gives the lines of the buffer, then
      the lines of its leftover followed by the text. */
  lemma {:induction false} TakeLinesAppend(x: string, y: string)
    ensures var (lx, rx) := TakeLines(x);
      TakeLines(x + y) == (lx + TakeLines(rx + y).0, TakeLines(rx + y).1)
    decreases |x|
  {
    var k := IndexOf(x, '\n');
    if k >= 0 {
      var after := x[k + 1..];
      assert IndexOf(x + y, '\n') == k && (x + y)[..k] == x[..k] && (x + y)[k + 1..] == after + y by {
        IndexOfPrefix(x, y, '\n');
      }
      TakeLinesStep(x, k);
      TakeLinesStep(x + y, k);
      TakeLinesAppend(after, y);
      var t := TakeLines(after);
      var u := TakeLines(t.1 + y);
      Assoc([x[..k]], t.0, u.0);
    } else {
      assert [] + TakeLines(x + y).0 == TakeLines(x + y).0;
    }
  }

  /** One turn of the inner `while`: the first line comes off the buffer. */
  lemma {:induction false} TakeLinesStep(buffer: string, k: int)
    requires k == IndexOf(buffer, '\n') && k >= 0
    ensures TakeLines(buffer) == ([buffer[..k]] + TakeLines(buffer[k + 1..]).0, TakeLines(buffer[k + 1..]).1)
  {
  }

  /** A character found in `x` is found at the same place in `x + y`. */
  lemma {:induction false} IndexOfPrefix(x: string, y: string, c: char)
    requires IndexOf(x, c) >= 0
    ensures IndexOf(x + y, c) == IndexOf(x, c)
    decreases |x|
  {
    if x[0] != c {
      assert (x + y)[1..] == x[1..] + y;
      IndexOfPrefix(x[1..], y, c);
    }
  }

  /** Framing per read: the lines found after each read, and the leftover. */
  function Feed(buffer: string, received: seq<string>): (seq<string>, string)
    decreases |received|
  {
    if received == [] then ([], buffer)
    else
      var (lines, rest) := TakeLines(buffer + received[0]);
      var (more, left) := Feed(rest, received[1..]);
      (lines + more, left)
  }

  /** How the stream is cut into reads does not change the lines found. */
  lemma {:induction false} FeedIsTakeLines(buffer: string, received: seq<string>)
    requires IndexOf(buffer, '\n') < 0
    ensures Feed(buffer, received) == TakeLines(buffer + Concat(received))
    decreases |received|
  {
    if received == [] {
      assert buffer + Concat(received) == buffer;
      assert TakeLines(buffer) == ([], buffer);
    } else {
      var x := buffer + received[0];
      var y := Concat(received[1..]);
      var t := TakeLines(x);
      FeedIsTakeLines(t.1, received[1..]);
      var u := TakeLines(t.1 + y);
      assert Feed(buffer, received) == (t.0 + u.0, u.1);
      TakeLinesAppend(x, y);
      assert TakeLines(x + y) == (t.0 + u.0, u.1);
      assert Concat(received) == received[0] + y;
      Assoc(buffer, received[0], y);
    }
  }

  /** A line that ends with a line break is taken whole. */
  lemma {:induction false} TakeLinesOfLine(line: string, y: string)
    requires '\n' !in line
    ensures TakeLines(line + "\n" + y) == ([line] + TakeLines(y).0, TakeLines(y).1)
  {
    var s := line + "\n" + y;
    IndexOfAbsent(line, '\n');
    IndexOfSkip(line, "\n" + y, '\n');
    assert s == line + ("\n" + y);
    assert IndexOf(s, '\n') == |line|;
    assert s[..|line|] == line;
    assert s[|line| + 1..] == y;
  }

  /** A character absent from `x` is looked for in what follows it. */
  lemma {:induction false} IndexOfSkip(x: string, z: string, c: char)
    requires IndexOf(x, c) < 0
    ensures IndexOf(x + z, c) == if IndexOf(z, c) < 0 then -1 else |x| + IndexOf(z, c)
    decreases |x|
  {
    if x == [] {
      assert x + z == z;
    } else {
      assert (x + z)[1..] == x[1..] + z;
      IndexOfSkip(x[1..], z, c);
    }
  }

  lemma {:induction false} LastOfAppend(a: string, b: string)
    ensures b != [] ==> (a + b)[|a + b| - 1] == b[|b| - 1]
  {
  }

  /** Text that ends a line leaves nothing over. */
  lemma {:induction false} TakeLinesAfterLine(x: string, y: string)
    requires Relay.EndsLine(x)
    ensures TakeLines(x + y) == (TakeLines(x).0 + TakeLines(y).0, TakeLines(y).1)
  {
    TakeLinesAppend(x, y);
    TakeLinesUnlines(x);
    var (lx, rx) := TakeLines(x);
    IndexOfAbsent(rx, '\n');
    LastOfAppend(Unlines(lx), rx);
    assert rx == [];
    assert rx + y == y;
  }

  /** Every `chunkComplete` marker the relay writes reaches the client as a
      line of its own, whatever the audio around it. */
  lemma {:induction false} MarkerReachesClient(ws: seq<Relay.Write>, k: nat)
    requires Relay.MarkersStartLines(ws) && k < |ws| && ws[k].ChunkComplete?
    ensures var t := Relay.Render(ws[k]);
      t[..|t| - 1] in TakeLines(Relay.Rendered(ws)).0
  {
    var t := Relay.Render(ws[k]);
    Relay.RecordIsOneLine(ws[k]);
    var line := t[..|t| - 1];
    var before := Relay.Rendered(ws[..k]);
    var after := Relay.Rendered(ws[k + 1..]);
    RenderedAround(ws, k);
    assert Relay.EndsLine(before);
    TakeLinesAfterLine(before, line + "\n" + after);
    TakeLinesOfLine(line, after);
    assert line in [line] + TakeLines(after).0;
  }

  /** The output around one write: what comes before it, the write's text
      (a line with its break, for a record), and what comes after. */
  lemma {:induction false} RenderedAround(ws: seq<Relay.Write>, k: nat)
    requires k < |ws| && !ws[k].Forward?
    ensures var t := Relay.Render(ws[k]);
      t != [] && Relay.Rendered(ws) == Relay.Rendered(ws[..k]) + (t[..|t| - 1] + "\n" + Relay.Rendered(ws[k + 1..]))
  {
    var t := Relay.Render(ws[k]);
    Relay.RecordIsOneLine(ws[k]);
    RenderedSplit(ws, k);
    LineThenRest(Relay.Rendered(ws[..k]), t, Relay.Rendered(ws[k + 1..]));
  }

  lemma {:induction false} RenderedSplit(ws: seq<Relay.Write>, k: nat)
    requires k < |ws|
    ensures Relay.Rendered(ws) == Relay.Rendered(ws[..k]) + Relay.Render(ws[k]) + Relay.Rendered(ws[k + 1..])
  {
    assert ws == ws[..k] + [ws[k]] + ws[k + 1..];
    RenderedThree(ws[..k], ws[k], ws[k + 1..]);
  }

  lemma {:induction false} RenderedThree(a: seq<Relay.Write>, w: Relay.Write, c: seq<Relay.Write>)
    ensures Relay.Rendered(a + [w] + c) == Relay.Rendered(a) + Relay.Render(w) + Relay.Rendered(c)
  {
    Assoc(a, [w], c);
    Relay.RenderedAppend(a, [w] + c);
    Relay.RenderedCons(w, c);
    Assoc(Relay.Rendered(a), Relay.Render(w), Relay.Rendered(c));
  }

  lemma {:induction false} LineThenRest(a: string, t: string, c: string)
    requires t != [] && t[|t| - 1] == '\n'
    ensures a + t + c == a + (t[..|t| - 1] + "\n" + c)
  {
    SplitAtBreak(t, |t| - 1);
    assert t[|t|..] == [];
    assert t == t[..|t| - 1] + "\n";
  }

  // ---------------------------------------------------------------------------
  // processLine

  /** A line as `JSON.parse` reads it: not JSON (or base64 that `atob` rejects),
      or a record with its `chunkComplete` (0 when absent: it is only tested
      for truthiness), `totalChunks`, the decoded `result.audioContent` when
      that is a non-empty string, and `error`. */
  datatype Json = Invalid | Record(chunkComplete: int, totalChunks: int, audio: Option<seq<byte>>, error: Option<string>)

  /** What the session has gathered: `detectedFormatRef`, `allAudioDataRef`,
      the progress shown, and whether the fetch has been aborted. */
  datatype Session = Session(format: Option<Format>, segments: seq<seq<byte>>, current: int, total: int, aborted: bool)

  const Fresh := Session(None, [], 0, 0, false)

  /** `processLine`. A progress marker aborts the fetch when the user has asked
      to cancel; the first audio segment decides the format. */
  function ProcessLine(s: Session, line: string, parse: string -> Json, cancelling: bool): Session
  {
    if Blank(line) then s
    else match parse(line)
      case Invalid => s
      case Record(complete, total, audio, _) =>
        if complete != 0 then s.(current := complete, total := total, aborted := s.aborted || cancelling)
        else if audio.Some? then
          s.(format := if s.format.None? then Some(DetectAudioFormat(audio.value)) else s.format,
             segments := s.segments + [audio.value])
        else s
  }

  function ProcessLines(s: Session, lines: seq<string>, parse: string -> Json, cancelling: bool): Session
    decreases |lines|
  {
    if lines == [] then s else ProcessLines(ProcessLine(s, lines[0], parse, cancelling), lines[1..], parse, cancelling)
  }

  lemma {:induction false} ProcessLinesAppend(s: Session, a: seq<string>, b: seq<string>, parse: string -> Json, cancelling: bool)
    ensures ProcessLines(s, a + b, parse, cancelling) == ProcessLines(ProcessLines(s, a, parse, cancelling), b, parse, cancelling)
    decreases |a|
  {
    if a == [] {
      assert a + b == b;
    } else {
      assert (a + b)[1..] == a[1..] + b;
      ProcessLinesAppend(ProcessLine(s, a[0], parse, cancelling), a[1..], b, parse, cancelling);
    }
  }

  /** The audio a line carries, by the precedence of `processLine`: a truthy
      `chunkComplete` hides any audio in the same record. */
  function AudioOf(line: string, parse: string -> Json): seq<seq<byte>>
  {
    if !Blank(line) && parse(line).Record? && parse(line).chunkComplete == 0 && parse(line).audio.Some?
    then [parse(line).audio.value] else []
  }

  function AudioOfLines(lines: seq<string>, parse: string -> Json): seq<seq<byte>>
    decreases |lines|
  {
    if lines == [] then [] else AudioOf(lines[0], parse) + AudioOfLines(lines[1..], parse)
  }

  /** The format is decided once, by the first segment: it is unset exactly
      while there is no segment. */
  predicate DetectedOnce(s: Session)
  {
    && (s.format.None? <==> s.segments == [])
    && (s.segments != [] ==> s.format == Some(DetectAudioFormat(s.segments[0])))
  }

  /** The lines' audio is appended in order, the format stays decided once,
      and only a cancel request aborts. */
  lemma {:induction false} ProcessLinesFacts(s: Session, lines: seq<string>, parse: string -> Json, cancelling: bool)
    requires DetectedOnce(s)
    ensures var r := ProcessLines(s, lines, parse, cancelling);
      && r.segments == s.segments + AudioOfLines(lines, parse)
      && DetectedOnce(r)
      && (r.aborted ==> s.aborted || cancelling)
    decreases |lines|
  {
    if lines != [] {
      var s1 := ProcessLine(s, lines[0], parse, cancelling);
      ProcessLineFacts(s, lines[0], parse, cancelling);
      ProcessLinesFacts(s1, lines[1..], parse, cancelling);
      assert ProcessLines(s, lines, parse, cancelling) == ProcessLines(s1, lines[1..], parse, cancelling);
      assert AudioOfLines(lines, parse) == AudioOf(lines[0], parse) + AudioOfLines(lines[1..], parse);
      Assoc(s.segments, AudioOf(lines[0], parse), AudioOfLines(lines[1..], parse));
    }
  }

  lemma {:induction false} ProcessLineFacts(s: Session, line: string, parse: string -> Json, cancelling: bool)
    requires DetectedOnce(s)
    ensures var r := ProcessLine(s, line, parse, cancelling);
      && r.segments == s.segments + AudioOf(line, parse)
      && DetectedOnce(r)
      && (r.aborted ==> s.aborted || cancelling)
  {
    var r := ProcessLine(s, line, parse, cancelling);
    if AudioOf(line, parse) != [] {
      if s.segments != [] {
        assert r.segments[0] == s.segments[0];
      }
    } else {
      assert r.segments == s.segments + [];
    }
  }

  // ---------------------------------------------------------------------------
  // The read loop

  predicate Cancelling(cancelAt: Option<nat>, k: nat)
  {
    cancelAt.Some? && cancelAt.value <= k
  }

  /** The `while (true)` over `reader.read()`, from read `k` on, then the
      leftover line. Once the fetch is aborted the next read rejects, so
      nothing more is read and the leftover is dropped. */
  function ReadLoop(s: Session, buffer: string, received: seq<string>, k: nat, parse: string -> Json, cancelAt: Option<nat>): Session
    decreases |received|
  {
    if s.aborted then s
    else if received == [] then ProcessLine(s, buffer, parse, Cancelling(cancelAt, k))
    else
      var (lines, rest) := TakeLines(buffer + received[0]);
      ReadLoop(ProcessLines(s, lines, parse, Cancelling(cancelAt, k)), rest, received[1..], k + 1, parse, cancelAt)
  }

  lemma {:induction false} ProcessLineKeepsFlag(s: Session, line: string, parse: string -> Json)
    ensures ProcessLine(s, line, parse, false).aborted == s.aborted
  {
  }

  lemma {:induction false} ProcessLinesKeepsFlag(s: Session, lines: seq<string>, parse: string -> Json)
    ensures ProcessLines(s, lines, parse, false).aborted == s.aborted
    decreases |lines|
  {
    if lines != [] {
      ProcessLineKeepsFlag(s, lines[0], parse);
      ProcessLinesKeepsFlag(ProcessLine(s, lines[0], parse, false), lines[1..], parse);
    }
  }

  /** Without a cancel request the session is the same as if the whole stream
      had arrived in one read: every line, then the leftover, is processed. */
  lemma {:induction false} ReadsDoNotMatter(s: Session, buffer: string, received: seq<string>, k: nat, parse: string -> Json)
    requires !s.aborted && IndexOf(buffer, '\n') < 0
    ensures var (lines, rest) := TakeLines(buffer + Concat(received));
      ReadLoop(s, buffer, received, k, parse, None)
        == ProcessLine(ProcessLines(s, lines, parse, false), rest, parse, false)
    decreases |received|
  {
    if received == [] {
      assert buffer + Concat(received) == buffer;
    } else {
      var x := buffer + received[0];
      var y := Concat(received[1..]);
      var t := TakeLines(x);
      var s1 := ProcessLines(s, t.0, parse, false);
      ProcessLinesKeepsFlag(s, t.0, parse);
      ReadsDoNotMatter(s1, t.1, received[1..], k + 1, parse);
      var u := TakeLines(t.1 + y);
      TakeLinesAppend(x, y);
      assert Concat(received) == received[0] + y;
      Assoc(buffer, received[0], y);
      assert TakeLines(buffer + Concat(received)) == (t.0 + u.0, u.1);
      ProcessLinesAppend(s, t.0, u.0, parse, false);
    }
  }

  /** The segments only grow while reading. */
  lemma {:induction false} ReadLoopFacts(s: Session, buffer: string, received: seq<string>, k: nat, parse: string -> Json, cancelAt: Option<nat>)
    requires DetectedOnce(s)
    ensures var r := ReadLoop(s, buffer, received, k, parse, cancelAt);
      && DetectedOnce(r)
      && s.segments <= r.segments
      && (r.aborted ==> s.aborted || cancelAt.Some?)
    decreases |received|
  {
    if !s.aborted {
      if received == [] {
        ProcessLineFacts(s, buffer, parse, Cancelling(cancelAt, k));
      } else {
        var t := TakeLines(buffer + received[0]);
        var s1 := ProcessLines(s, t.0, parse, Cancelling(cancelAt, k));
        ProcessLinesFacts(s, t.0, parse, Cancelling(cancelAt, k));
        ReadLoopFacts(s1, t.1, received[1..], k + 1, parse, cancelAt);
      }
    }
  }

  /** The session without its abort flag. */
  function Unflagged(s: Session): Session
  {
    s.(aborted := false)
  }

  lemma {:induction false} ProcessLinesFlagOnly(s: Session, lines: seq<string>, parse: string -> Json, cancelling: bool)
    ensures Unflagged(ProcessLines(s, lines, parse, cancelling)) == ProcessLines(Unflagged(s), lines, parse, false)
    decreases |lines|
  {
    if lines != [] {
      var s1 := ProcessLine(s, lines[0], parse, cancelling);
      assert Unflagged(s1) == ProcessLine(Unflagged(s), lines[0], parse, false);
      ProcessLinesFlagOnly(s1, lines[1..], parse, cancelling);
      ProcessLinesFlagOnly(Unflagged(s1), lines[1..], parse, false);
      ProcessLinesKeepsFlag(Unflagged(s1), lines[1..], parse);
    }
  }

  /** Cancelling never changes or reorders the audio received: it only cuts it
      short. */
  lemma {:induction false} CancelOnlyCutsShort(s: Session, buffer: string, received: seq<string>, k: nat, parse: string -> Json, c: nat)
    requires DetectedOnce(s) && !s.aborted
    ensures ReadLoop(s, buffer, received, k, parse, Some(c)).segments <= ReadLoop(s, buffer, received, k, parse, None).segments
    decreases |received|
  {
    if received != [] {
      var t := TakeLines(buffer + received[0]);
      var cancelled := ProcessLines(s, t.0, parse, Cancelling(Some(c), k));
      var kept := ProcessLines(s, t.0, parse, false);
      ProcessLinesFlagOnly(s, t.0, parse, Cancelling(Some(c), k));
      ProcessLinesKeepsFlag(s, t.0, parse);
      assert Unflagged(s) == s;
      assert Unflagged(cancelled) == kept;
      ProcessLinesFacts(s, t.0, parse, false);
      ReadLoopFacts(kept, t.1, received[1..], k + 1, parse, None);
      if cancelled.aborted {
        assert cancelled.segments == kept.segments;
      } else {
        assert cancelled == kept;
        CancelOnlyCutsShort(kept, t.1, received[1..], k + 1, parse, c);
      }
    }
  }

  // ---------------------------------------------------------------------------
  // A whole generation

  /** `startTTS` from the request on: a reply that is not 2xx (or a fetch that
      throws) ends the session with nothing; otherwise the body is read. */
  function Generate(ok: bool, received: seq<string>, parse: string -> Json, cancelAt: Option<nat>): Session
  {
    if !ok then Fresh else ReadLoop(Fresh, "", received, 0, parse, cancelAt)
  }

  /** The format is the first segment's; only a cancel request aborts, and then
      the audio is a prefix of what an uncancelled session would have kept,
      which is the audio of every line of the stream in order. */
  lemma {:induction false} GenerateFacts(ok: bool, received: seq<string>, parse: string -> Json, cancelAt: Option<nat>)
    ensures var r := Generate(ok, received, parse, cancelAt);
      && DetectedOnce(r)
      && (r.aborted ==> cancelAt.Some?)
      && (!ok ==> r.segments == [])
      && (ok ==> var (lines, rest) := TakeLines(Concat(received));
                 Generate(ok, received, parse, None).segments == AudioOfLines(lines, parse) + AudioOf(rest, parse))
      && r.segments <= Generate(ok, received, parse, None).segments
  {
    if ok {
      ReadLoopFacts(Fresh, "", received, 0, parse, cancelAt);
      GenerateUncancelled(received, parse);
      if cancelAt.Some? {
        CancelOnlyCutsShort(Fresh, "", received, 0, parse, cancelAt.value);
      }
    }
  }

  /** Without a cancel request the session keeps the audio of every line of the
      stream, then of the leftover. */
  lemma {:induction false} GenerateUncancelled(received: seq<string>, parse: string -> Json)
    ensures var (lines, rest) := TakeLines(Concat(received));
      Generate(true, received, parse, None).segments == AudioOfLines(lines, parse) + AudioOf(rest, parse)
  {
    assert IndexOf("", '\n') < 0;
    ReadsDoNotMatter(Fresh, "", received, 0, parse);
    assert "" + Concat(received) == Concat(received);
    var t := TakeLines(Concat(received));
    ProcessAllSegments(t.0, t.1, parse);
  }

  lemma {:induction false} ProcessAllSegments(lines: seq<string>, rest: string, parse: string -> Json)
    ensures ProcessLine(ProcessLines(Fresh, lines, parse, false), rest, parse, false).segments
         == AudioOfLines(lines, parse) + AudioOf(rest, parse)
  {
    var s1 := ProcessLines(Fresh, lines, parse, false);
    ProcessLinesFacts(Fresh, lines, parse, false);
    ProcessLineFacts(s1, rest, parse, false);
    assert [] + AudioOfLines(lines, parse) == AudioOfLines(lines, parse);
  }

  // ---------------------------------------------------------------------------
  // The final asset and its file name

  datatype Asset = Asset(bytes: seq<byte>, mime: string)

  function StripAll(segments: seq<seq<byte>>): (r: seq<seq<byte>>)
    ensures |r| == |segments| && forall i :: 0 <= i < |r| ==> r[i] == StripWavHeader(segments[i])
  {
    seq(|segments|, i requires 0 <= i < |segments| => StripWavHeader(segments[i]))
  }

  /** The blob built in `finally`: WAV segments lose their headers and are
      rejoined under one; raw PCM gets a header; anything else is concatenated. */
  function FinalAsset(s: Session): (a: Option<Asset>)
    ensures a.None? <==> s.segments == []
  {
    if s.segments == [] then None
    else if s.format == Some(Wav) then Some(Asset(CreateWavBlob(StripAll(s.segments)), "audio/wav"))
    else if s.format == Some(Pcm) then Some(Asset(CreateWavBlob(s.segments), "audio/wav"))
    else Some(Asset(Concat(s.segments), "audio/mpeg"))
  }

  /** A WAV file built in `finally` is detected as WAV, and its header describes
      the file itself: its size fields count the bytes after the header. */
  lemma {:induction false} FinalAssetHeader(s: Session)
    requires s.segments != [] && (s.format == Some(Wav) || s.format == Some(Pcm))
    ensures var b := FinalAsset(s).value.bytes;
      && |b| >= 44
      && DetectAudioFormat(b) == Wav
      && ParseWavHeader(b) == Some(WavInfo(1, 48000, 96000, 2, 16, (|b| - 8) % TwoTo32, (|b| - 44) % TwoTo32))
  {
    if s.format == Some(Wav) {
      var data := StripAll(s.segments);
      assert FinalAsset(s) == Some(Asset(CreateWavBlob(data), "audio/wav"));
      CreatedWavDescribed(data);
    } else {
      assert FinalAsset(s) == Some(Asset(CreateWavBlob(s.segments), "audio/wav"));
      CreatedWavDescribed(s.segments);
    }
  }

  /** The extension `downloadAudio` gives the file. */
  function Extension(format: Option<Format>): string
  {
    if format == Some(Encoded) then "mp3" else "wav"
  }

  /** The file is named `.mp3` exactly when the asset is MPEG audio. */
  lemma {:induction false} ExtensionMatchesAsset(s: Session)
    requires DetectedOnce(s) && s.segments != []
    ensures Extension(s.format) == "mp3" <==> FinalAsset(s).value.mime == "audio/mpeg"
  {
  }

  /** The backend's WAV segments, each a complete file around its PCM. */
  function WavSegments(pcms: seq<seq<byte>>): (r: seq<seq<byte>>)
    ensures |r| == |pcms| && forall i :: 0 <= i < |r| ==> r[i] == CreateWavBlob([pcms[i]])
  {
    seq(|pcms|, i requires 0 <= i < |pcms| => CreateWavBlob([pcms[i]]))
  }

  /** A segment size whose RIFF size field does not spell "data". */
  predicate Unambiguous(pcm: seq<byte>)
  {
    (36 + |pcm|) % TwoTo32 != 0x61746164
  }

  /** Complete WAV segments are detected as WAV and rejoined into one WAV file
      holding all of their audio, in order. */
  lemma {:induction false} WavSegmentsRejoined(s: Session, pcms: seq<seq<byte>>)
    requires DetectedOnce(s) && pcms != [] && s.segments == WavSegments(pcms)
    requires forall i :: 0 <= i < |pcms| ==> Unambiguous(pcms[i])
    ensures s.format == Some(Wav)
    ensures FinalAsset(s) == Some(Asset(CreateWavBlob(pcms), "audio/wav"))
  {
    DetectCreatedWav([pcms[0]]);
    forall i | 0 <= i < |pcms|
      ensures StripAll(s.segments)[i] == pcms[i]
    {
      assert TotalLength([pcms[i]]) == |pcms[i]| + TotalLength([pcms[i]][1..]);
      StripCreatedWav([pcms[i]]);
      assert Concat([pcms[i]]) == pcms[i] + Concat([pcms[i]][1..]);
    }
    assert StripAll(s.segments) == pcms;
  }

  function StripAllAsWritten(segments: seq<seq<byte>>): (r: seq<seq<byte>>)
    ensures |r| == |segments| && forall i :: 0 <= i < |r| ==> r[i] == StripWavHeaderAsWritten(segments[i])
  {
    seq(|segments|, i requires 0 <= i < |segments| => StripWavHeaderAsWritten(segments[i]))
  }

  /** The blob built in `finally` exactly as written: WAV segments go through
      `stripWavHeader` with its loop bound as written. Other formats are built
      as by `FinalAsset`. */
  function FinalAssetAsWritten(s: Session): (a: Option<Asset>)
    ensures a.None? <==> s.segments == []
    ensures s.format != Some(Wav) ==> a == FinalAsset(s)
  {
    if s.segments != [] && s.format == Some(Wav) then
      Some(Asset(CreateWavBlob(StripAllAsWritten(s.segments)), "audio/wav"))
    else FinalAsset(s)
  }

  /** As written, the WAV segments are rejoined just as well when none of them
      has an empty data chunk: both versions build the same file. */
  lemma {:induction false} WavSegmentsRejoinedAsWritten(s: Session, pcms: seq<seq<byte>>)
    requires DetectedOnce(s) && pcms != [] && s.segments == WavSegments(pcms)
    requires forall i :: 0 <= i < |pcms| ==> Unambiguous(pcms[i]) && pcms[i] != []
    ensures FinalAssetAsWritten(s) == FinalAsset(s) == Some(Asset(CreateWavBlob(pcms), "audio/wav"))
  {
    WavSegmentsRejoined(s, pcms);
    forall i | 0 <= i < |pcms|
      ensures StripAllAsWritten(s.segments)[i] == pcms[i]
    {
      StripSegmentAsWritten(pcms[i]);
    }
    assert StripAllAsWritten(s.segments) == pcms;
  }

  lemma {:induction false} StripSegmentAsWritten(pcm: seq<byte>)
    requires Unambiguous(pcm) && pcm != []
    ensures StripWavHeaderAsWritten(CreateWavBlob([pcm])) == pcm
  {
    assert TotalLength([pcm]) == |pcm| + TotalLength([pcm][1..]);
    StripCreatedWavAsWritten([pcm]);
    assert Concat([pcm]) == pcm + Concat([pcm][1..]);
  }

  /** The finding at the level of the downloaded file: a single WAV segment
      with no samples yields, as written, an 88-byte file whose audio is the
      segment's own header; corrected, the 44-byte file of no samples. */
  lemma {:induction false} AsWrittenAssetKeepsHeader(s: Session)
    requires DetectedOnce(s) && s.segments == WavSegments([[]])
    ensures FinalAssetAsWritten(s) == Some(Asset(CreateWavBlob([WavHeader(0)]), "audio/wav"))
    ensures |FinalAssetAsWritten(s).value.bytes| == 88
    ensures FinalAsset(s) == Some(Asset(CreateWavBlob([[]]), "audio/wav"))
    ensures |FinalAsset(s).value.bytes| == 44
  {
    var e: seq<byte> := [];
    assert Unambiguous(e);
    WavSegmentsRejoined(s, [e]);
    EmptySegmentAsWritten(s.segments);
    TotalLengthOne(WavHeader(0));
    TotalLengthOne(e);
  }

  lemma {:induction false} EmptySegmentAsWritten(segments: seq<seq<byte>>)
    requires segments == WavSegments([[]])
    ensures StripAllAsWritten(segments) == [WavHeader(0)]
  {
    AsWrittenKeepsEmptySegmentHeader();
    EmptyBlobIsHeader();
    assert segments == [CreateWavBlob([])];
  }

  lemma {:induction false} TotalLengthOne<T>(x: seq<T>)
    ensures TotalLength([x]) == |x|
  {
    assert [x][1..] == [];
  }

  /** Raw PCM is wrapped in a header that a reader takes as 48 kHz mono 16-bit
      with the data size of all segments, followed by the segments in order. */
  lemma {:induction false} PcmWrapped(s: Session)
    requires DetectedOnce(s) && s.segments != [] && s.format == Some(Pcm)
    ensures var b := FinalAsset(s).value.bytes;
      && ParseWavHeader(b) == Some(WavInfo(1, 48000, 96000, 2, 16,
                                           (36 + TotalLength(s.segments)) % TwoTo32, TotalLength(s.segments) % TwoTo32))
      && b[44..] == Concat(s.segments)
  {
    ParseCreatedWav(s.segments);
  }

  predicate IsAsciiAlnum(c: char)
  {
    'a' <= c <= 'z' || 'A' <= c <= 'Z' || '0' <= c <= '9'
  }

  predicate SafeName(s: string)
  {
    forall i :: 0 <= i < |s| ==> IsAsciiAlnum(s[i]) || s[i] == '_'
  }

  /** `title.replace(/[^a-z0-9]/gi, '_')`: the pattern matches code units, so a
      character outside the Basic Multilingual Plane becomes two underscores. */
  function Sanitize(s: string): (r: string)
    ensures SafeName(r)
    ensures |r| == Utf16Length(s)
    decreases |s|
  {
    if s == [] then []
    else
      var head := if IsAsciiAlnum(s[0]) then [s[0]] else if s[0] as int > 0xFFFF then "__" else "_";
      head + Sanitize(s[1..])
  }

  /** A name that is already safe is kept. */
  lemma {:induction false} SanitizeSafe(s: string)
    requires SafeName(s)
    ensures Sanitize(s) == s
    decreases |s|
  {
    if s != [] {
      SanitizeSafe(s[1..]);
      assert s == [s[0]] + s[1..];
    }
  }

  lemma {:induction false} SanitizeIdempotent(s: string)
    ensures Sanitize(Sanitize(s)) == Sanitize(s)
  {
    SanitizeSafe(Sanitize(s));
  }

  /** For a title with no character outside the Basic Multilingual Plane the
      name has one character per character of the title: its ASCII letters and
      digits stay where they are and every other character becomes `_`. */
  lemma {:induction false} SanitizeKeepsAlnum(s: string)
    requires forall j :: 0 <= j < |s| ==> s[j] as int <= 0xFFFF
    ensures |Sanitize(s)| == |s|
    ensures forall i :: 0 <= i < |s| && IsAsciiAlnum(s[i]) ==> Sanitize(s)[i] == s[i]
    ensures forall i :: 0 <= i < |s| && !IsAsciiAlnum(s[i]) ==> Sanitize(s)[i] == '_'
    decreases |s|
  {
    if s != [] {
      SanitizeKeepsAlnum(s[1..]);
      var head := if IsAsciiAlnum(s[0]) then [s[0]] else "_";
      assert Sanitize(s) == head + Sanitize(s[1..]);
      forall i | 1 <= i < |s|
        ensures Sanitize(s)[i] == Sanitize(s[1..])[i - 1] && s[i] == s[1..][i - 1]
      {
      }
    }
  }

  /** The name `downloadAudio` gives the file. */
  function DownloadName(title: string, format: Option<Format>): string
  {
    Sanitize(title) + "." + Extension(format)
  }

  /** The download name is the sanitised title, one dot, and the extension of
      the detected format; since the stem holds no dot, the last dot of the name
      is the one before the extension. */
  lemma {:induction false} DownloadNameParts(title: string, format: Option<Format>)
    ensures var n := DownloadName(title, format);
      var k := |Sanitize(title)|;
      && k == Utf16Length(title)
      && k < |n| && n[k] == '.'
      && n[k + 1..] == Extension(format)
      && (forall i :: 0 <= i < k ==> n[i] != '.')
      && (Extension(format) == "mp3" <==> format == Some(Encoded))
  {
    var n := DownloadName(title, format);
    var k := |Sanitize(title)|;
    assert n[..k] == Sanitize(title);
    assert forall i :: 0 <= i < k ==> n[i] == Sanitize(title)[i];
  }

  // ---------------------------------------------------------------------------
  // formatTime

  /** A number of seconds: a finite value, or NaN or an infinity. */
  datatype Seconds = Finite(value: real) | NotFinite

  /** JavaScript's `%`, which truncates toward zero. */
  function JsRemainder(x: real, m: real): real
    requires m > 0.0
  {
    var q := x / m;
    var t := if q >= 0.0 then q.Floor else -((-q).Floor);
    x - m * t as real
  }

  /** `String(i)` for an integer. */
  function IntString(i: int): string
  {
    if i < 0 then "-" + Decimal(-i) else Decimal(i)
  }

  /** `padStart(2, '0')`. */
  function PadStart2(s: string): string
  {
    if |s| >= 2 then s else seq(2 - |s|, _ => '0') + s
  }

  /** `formatTime`: minutes, a colon, and the seconds in two digits. */
  function FormatTime(t: Seconds): string
  {
    if t.NotFinite? || t.value == 0.0 then "0:00"
    else IntString((t.value / 60.0).Floor) + ":" + PadStart2(IntString(JsRemainder(t.value, 60.0).Floor))
  }

  /** Two decimal digits of a number below 100. */
  function TwoDigits(n: nat): string
    requires n < 100
  {
    [DigitChar(n / 10), DigitChar(n % 10)]
  }

  /** For a time that is not negative, the text is the whole minutes of the
      whole seconds and the two-digit remainder. */
  lemma {:induction false} FormatWholeSeconds(x: real)
    requires x >= 0.0
    ensures var n := x.Floor;
      n >= 0 && FormatTime(Finite(x)) == Decimal(n / 60) + ":" + TwoDigits(n % 60)
  {
    var n := x.Floor;
    var q, r := n / 60, n % 60;
    if x != 0.0 {
      assert n as real <= x < n as real + 1.0;
      assert (x / 60.0).Floor == q by {
        assert q as real * 60.0 <= x;
        assert x < (q + 1) as real * 60.0;
      }
      assert JsRemainder(x, 60.0) == x - 60.0 * q as real;
      assert JsRemainder(x, 60.0).Floor == r;
      PadTwo(r);
    } else {
      assert n == 0;
    }
  }

  lemma {:induction false} PadTwo(r: nat)
    requires r < 60
    ensures PadStart2(IntString(r)) == TwoDigits(r)
  {
    if r >= 10 {
      assert Decimal(r) == Decimal(r / 10) + [DigitChar(r % 10)];
    }
  }

  /** The clock text read back: minutes times sixty plus the seconds. */
  function ClockValue(minutes: string, seconds: string): nat
    requires AllDigits(minutes) && AllDigits(seconds)
  {
    DecimalValue(minutes) * 60 + DecimalValue(seconds)
  }

  /** Reading the text back gives the whole seconds. */
  lemma {:induction false} FormatTimeRoundTrip(x: real)
    requires x >= 0.0
    ensures var n := x.Floor; n >= 0 && ClockValue(Decimal(n / 60), TwoDigits(n % 60)) == n
  {
    var n := x.Floor;
    DecimalRoundTrip(n / 60);
    var d := TwoDigits(n % 60);
    assert d[..1] == [DigitChar(n % 60 / 10)];
    assert [DigitChar(n % 60 / 10)][..0] == [];
    assert DecimalValue(d[..1]) == n % 60 / 10;
  }

  // ---------------------------------------------------------------------------
  // The text sent

  datatype Article = Article(title: string, subtitle: string, body: string)

  /** `[title, subtitle, body].filter(Boolean).join('\n\n')`. */
  function FullText(a: Article): string
  {
    Join(NonEmpty([a.title, a.subtitle, a.body]), "\n\n")
  }

  /** The text `startTTS` posts: none without an article or an API key. */
  function RequestText(article: Option<Article>, apiKey: string): (r: Option<string>)
    ensures r.Some? <==> article.Some? && apiKey != []
  {
    if article.None? || apiKey == [] then None else Some(FullText(article.value))
  }

  /** Joining with white space adds no ink. */
  lemma {:induction false} InkJoin(xs: seq<string>, sep: string)
    requires Blank(sep)
    ensures Ink(Join(xs, sep)) == Ink(Concat(xs))
    decreases |xs|
  {
    if |xs| == 1 {
      assert Concat(xs) == xs[0] + Concat(xs[1..]);
      assert Concat(xs[1..]) == [];
      assert Concat(xs) == xs[0];
    } else if |xs| > 1 {
      InkJoin(xs[1..], sep);
      InkAppend(xs[0] + sep, Join(xs[1..], sep));
      InkAppend(xs[0], sep);
      InkBlank(sep);
      InkAppend(xs[0], Concat(xs[1..]));
      assert Concat(xs) == xs[0] + Concat(xs[1..]);
    }
  }

  /** The text posted holds the title, the subtitle and the body, in that order,
      and nothing else but white space. */
  lemma {:induction false} FullTextInk(a: Article)
    ensures Ink(FullText(a)) == Ink(a.title + a.subtitle + a.body)
  {
    var xs := [a.title, a.subtitle, a.body];
    assert Blank("\n\n");
    InkJoin(NonEmpty(xs), "\n\n");
    ConcatThree(a.title, a.subtitle, a.body);
  }

  lemma {:induction false} ConcatThree<T>(x: seq<T>, y: seq<T>, z: seq<T>)
    ensures Concat([x, y, z]) == x + y + z
  {
    assert [x, y, z] == [x] + ([y] + ([z] + []));
    ConcatCons(x, [y] + ([z] + []));
    ConcatCons(y, [z] + []);
    ConcatCons(z, []);
    assert Concat<T>([]) == [];
    Assoc(x, y, z + []);
    assert z + [] == z;
  }
}
