/** The request handler of `api/tts.js`: it validates the request, splits the
    text with the chunker, and for each chunk in turn asks the speech backend,
    relays its NDJSON audio stream to the client and ends the chunk with a
    `chunkComplete` marker (or an error record).

    The backend's reply to each chunk is a script (`script(i)` answers chunk `i`).
    The client's `close` event can only be handled while the handler awaits, so
    it is modelled as the number of the await (counting from 0: each fetch, each
    `response.text()`, each `reader.read()`) during which it is delivered. */
module Relay {
  import opened Seqs
  import opened Text
  import opened Wrappers
  import Chunker

  // ---------------------------------------------------------------------------
  // What the handler writes

  /** One `res.write`: a piece of the backend's stream, the line break before a
      marker, a `chunkComplete` marker, or one of the two error records. */
  datatype Write =
    | Forward(text: string)
    | LineBreak
    | ChunkComplete(index: nat, total: nat)
    | ChunkFailed(index: nat, status: nat)
    | ChunkError(index: nat, message: string)

  const Backspace: char := 8 as char
  const FormFeed: char := 12 as char

  /** The characters `JSON.stringify` writes for one character of a string. */
  function EscapeChar(c: char): (r: string)
    ensures r != [] && '\n' !in r
  {
    if c == '"' then "\\\""
    else if c == '\\' then "\\\\"
    else if c == Backspace then "\\b"
    else if c == FormFeed then "\\f"
    else if c == '\n' then "\\n"
    else if c == '\r' then "\\r"
    else if c == '\t' then "\\t"
    else if c < ' ' then "\\u00" + [HexDigit(c as int / 16), HexDigit(c as int % 16)]
    else [c]
  }

  function HexDigit(d: nat): (c: char)
    requires d < 16
  {
    if d < 10 then '0' + d as char else 'a' + (d - 10) as char
  }

  function HexValue(c: char): nat
  {
    if '0' <= c <= '9' then c as nat - '0' as nat
    else if 'a' <= c <= 'f' then c as nat - 'a' as nat + 10
    else 0
  }

  /** The body of a JSON string literal for `s`. */
  function Escape(s: string): (r: string)
    ensures '\n' !in r
    decreases |s|
  {
    if s == [] then [] else EscapeChar(s[0]) + Escape(s[1..])
  }

  /** `JSON.stringify` of a string. */
  function JsonString(s: string): string
  {
    "\"" + Escape(s) + "\""
  }

  /** A JSON string body read back, the partner of `Escape`. */
  function Unescape(s: string): string
    decreases |s|
  {
    if s == [] then []
    else if s[0] == '\\' && |s| >= 2 then
      if s[1] == 'u' && |s| >= 6 && s[2] == '0' && s[3] == '0' then
        [(HexValue(s[4]) * 16 + HexValue(s[5])) as char] + Unescape(s[6..])
      else
        [if s[1] == 'b' then Backspace else if s[1] == 'f' then FormFeed else if s[1] == 'n' then '\n'
         else if s[1] == 'r' then '\r' else if s[1] == 't' then '\t' else s[1]]
        + Unescape(s[2..])
    else [s[0]] + Unescape(s[1..])
  }

  lemma {:induction false} UnescapeChar(c: char, rest: string)
    ensures Unescape(EscapeChar(c) + rest) == [c] + Unescape(rest)
  {
    var e := EscapeChar(c);
    if c < ' ' && c != Backspace && c != FormFeed && c != '\n' && c != '\r' && c != '\t' {
      var s := e + rest;
      assert s[0] == '\\' && s[1] == 'u' && s[6..] == rest;
      assert HexValue(s[4]) == c as int / 16 && HexValue(s[5]) == c as int % 16;
    } else if |e| == 2 {
      assert (e + rest)[2..] == rest;
    } else {
      assert (e + rest)[1..] == rest;
    }
  }

  /** Reading back what `JSON.stringify` wrote gives the string back. */
  lemma {:induction false} UnescapeEscape(s: string)
    ensures Unescape(Escape(s)) == s
    decreases |s|
  {
    if s != [] {
      UnescapeChar(s[0], Escape(s[1..]));
      UnescapeEscape(s[1..]);
    }
  }

  /** The text of one write, as the client receives it. */
  function Render(w: Write): string
  {
    match w
    case Forward(t) => t
    case LineBreak => "\n"
    case ChunkComplete(i, n) => "{\"chunkComplete\":" + Decimal(i) + ",\"totalChunks\":" + Decimal(n) + "}\n"
    case ChunkFailed(i, st) => "{\"error\":" + JsonString("Chunk " + Decimal(i) + " failed: " + Decimal(st)) + "}\n"
    case ChunkError(i, m) => "{\"error\":" + JsonString("Chunk " + Decimal(i) + " error: " + m) + "}\n"
  }

  /** A marker or an error record is exactly one line: its only line break ends it. */
  lemma {:induction false} RecordIsOneLine(w: Write)
    requires !w.Forward?
    ensures var t := Render(w); t != [] && t[|t| - 1] == '\n' && '\n' !in t[..|t| - 1]
  {
    match w
    case LineBreak =>
    case ChunkComplete(i, n) => MarkerIsOneLine(i, n);
    case ChunkFailed(i, st) => ErrorIsOneLine("Chunk " + Decimal(i) + " failed: " + Decimal(st));
    case ChunkError(i, m) => ErrorIsOneLine("Chunk " + Decimal(i) + " error: " + m);
  }

  lemma {:induction false} MarkerIsOneLine(i: nat, n: nat)
    ensures var t := Render(ChunkComplete(i, n)); t != [] && t[|t| - 1] == '\n' && '\n' !in t[..|t| - 1]
  {
    var body := "{\"chunkComplete\":" + Decimal(i) + ",\"totalChunks\":" + Decimal(n) + "}";
    NoNewlineInDigits(Decimal(i));
    NoNewlineInDigits(Decimal(n));
    LineOf(body);
  }

  lemma {:induction false} ErrorIsOneLine(message: string)
    ensures var t := "{\"error\":" + JsonString(message) + "}\n"; t != [] && t[|t| - 1] == '\n' && '\n' !in t[..|t| - 1]
  {
    LineOf("{\"error\":" + JsonString(message) + "}");
  }

  /** A text without a line break, followed by one, is a single line. */
  lemma {:induction false} LineOf(body: string)
    requires '\n' !in body
    ensures var t := body + "\n"; t != [] && t[|t| - 1] == '\n' && t[..|t| - 1] == body
  {
    var t := body + "\n";
    assert t[..|t| - 1] == body;
  }

  lemma {:induction false} NoNewlineInDigits(s: string)
    requires AllDigits(s)
    ensures '\n' !in s
  {
  }

  /** Everything written, in order. */
  function Rendered(ws: seq<Write>): string
    decreases |ws|
  {
    if ws == [] then [] else Render(ws[0]) + Rendered(ws[1..])
  }

  lemma {:induction false} RenderedAppend(a: seq<Write>, b: seq<Write>)
    ensures Rendered(a + b) == Rendered(a) + Rendered(b)
    decreases |a|
  {
    if a == [] {
      assert a + b == b;
    } else {
      assert (a + b)[1..] == a[1..] + b;
      RenderedAppend(a[1..], b);
    }
  }

  lemma {:induction false} RenderedCons(w: Write, ws: seq<Write>)
    ensures Rendered([w] + ws) == Render(w) + Rendered(ws)
  {
    assert ([w] + ws)[0] == w && ([w] + ws)[1..] == ws;
  }

  /** The chunk numbers of the records that end a chunk, in order. */
  function Indices(ws: seq<Write>): seq<nat>
    decreases |ws|
  {
    if ws == [] then []
    else (if ws[0].Forward? || ws[0].LineBreak? then [] else [ws[0].index]) + Indices(ws[1..])
  }

  lemma {:induction false} IndicesAppend(a: seq<Write>, b: seq<Write>)
    ensures Indices(a + b) == Indices(a) + Indices(b)
    decreases |a|
  {
    if a == [] {
      assert a + b == b;
    } else {
      assert (a + b)[1..] == a[1..] + b;
      IndicesAppend(a[1..], b);
    }
  }

  // ---------------------------------------------------------------------------
  // The backend and the relay loop

  /** How the body of a backend reply ends: normally, or with a read that throws. */
  datatype BodyEnd = Finished | Broken(message: string)

  /** The backend's answer to one chunk: a streamed body (as decoded text
      pieces, one per `reader.read()`), a non-2xx status, or a fetch that throws. */
  datatype Reply = Streamed(pieces: seq<string>, end: BodyEnd) | NotOk(status: nat) | FetchFailed(message: string)

  /** `checkDisconnected()`: the close event was delivered during an await that
      has completed. (`res.writableEnded` stays false until the loop is over.) */
  predicate Gone(close: Option<nat>, ticks: nat)
  {
    close.Some? && close.value < ticks
  }

  /** The writes so far, the chunks sent to the backend and the await count at
      which each was sent, and the number of awaits completed. */
  datatype Relay = Relay(writes: seq<Write>, requests: seq<string>, sentAt: seq<nat>, ticks: nat)

  /** The inner `while (true)` over `reader.read()`: each piece is written unless
      the client is gone by the time its read completes. */
  function Pump(r: Relay, pieces: seq<string>, close: Option<nat>): Relay
    decreases |pieces|
  {
    if pieces == [] then r
    else
      var r1 := r.(ticks := r.ticks + 1);
      Pump(if !Gone(close, r1.ticks) then r1.(writes := r1.writes + [Forward(pieces[0])]) else r1, pieces[1..], close)
  }

  /** `lastChar` after the pieces: it follows the last non-empty piece. */
  function LastChar(last: string, pieces: seq<string>): string
    decreases |pieces|
  {
    if pieces == [] then last
    else LastChar(if pieces[0] != [] then [pieces[0][|pieces[0]| - 1]] else last, pieces[1..])
  }

  /** The read that ends the body, then the break, the marker or the error record. */
  function AfterBody(r1: Relay, i: nat, total: nat, end: BodyEnd, last: string, close: Option<nat>): (Relay, bool)
  {
    var r2 := r1.(ticks := r1.ticks + 1);
    if Gone(close, r2.ticks) then (r2, true)
    else match end
      case Broken(m) => (r2.(writes := r2.writes + [ChunkError(i + 1, m)]), false)
      case Finished =>
        (r2.(writes := r2.writes + (if last != "\n" then [LineBreak] else []) + [ChunkComplete(i + 1, total)]), false)
  }

  /** One iteration of the `for` loop, for chunk `i` of `total`; the flag says
      whether the loop breaks. A non-2xx reply is reported even to a client that
      is gone, and the loop goes on to its next check. */
  function ChunkStep(r: Relay, i: nat, chunk: string, total: nat, reply: Reply, close: Option<nat>): (Relay, bool)
  {
    var r0 := Relay(r.writes, r.requests + [chunk], r.sentAt + [r.ticks], r.ticks + 1);
    match reply
    case FetchFailed(m) =>
      if Gone(close, r0.ticks) then (r0, true)
      else (r0.(writes := r0.writes + [ChunkError(i + 1, m)]), false)
    case NotOk(st) =>
      (Relay(r0.writes + [ChunkFailed(i + 1, st)], r0.requests, r0.sentAt, r0.ticks + 1), false)
    case Streamed(pieces, end) =>
      AfterBody(Pump(r0, pieces, close), i, total, end, LastChar("", pieces), close)
  }

  /** The `for` loop from chunk `i` on. */
  function Loop(r: Relay, chunks: seq<string>, i: nat, script: nat -> Reply, close: Option<nat>): Relay
    requires i <= |chunks|
    decreases |chunks| - i
  {
    if i == |chunks| || Gone(close, r.ticks) then r
    else
      var (r', stop) := ChunkStep(r, i, chunks[i], |chunks|, script(i), close);
      if stop then r' else Loop(r', chunks, i + 1, script, close)
  }

  // ---------------------------------------------------------------------------
  // The handler

  /** The fields of the request the handler reads (`voice_id` and `audioEncoding`
      are passed through to the backend unchanged and left out). */
  datatype Request = Request(verb: string, text: Option<string>, apiKey: Option<string>)

  /** A refusal, or the streamed answer: what was written, the chunks sent to
      the backend and when, and the number of awaits the handler completed
      (which says whether the client was gone by the end). */
  datatype Response =
    | Refused(status: nat, error: string)
    | Stream(writes: seq<Write>, requests: seq<string>, sentAt: seq<nat>, awaits: nat)

  /** `!value` for an optional string: missing or empty. */
  predicate Falsy(v: Option<string>)
  {
    v.None? || v.value == []
  }

  const Start := Relay([], [], [], 0)

  function Handle(req: Request, script: nat -> Reply, close: Option<nat>): (resp: Response)
    ensures resp.Refused? <==> req.verb != "POST" || Falsy(req.text) || Falsy(req.apiKey)
    ensures resp.Refused? ==> resp.status == (if req.verb != "POST" then 405 else 400)
  {
    if req.verb != "POST" then Refused(405, "Method not allowed")
    else if Falsy(req.text) then Refused(400, "Text is required")
    else if Falsy(req.apiKey) then Refused(400, "API key is required")
    else
      var r := Loop(Start, Chunker.ChunkText(req.text.value), 0, script, close);
      Stream(r.writes, r.requests, r.sentAt, r.ticks)
  }

  // ---------------------------------------------------------------------------
  // The body of one chunk

  function Forwards(pieces: seq<string>): (ws: seq<Write>)
    ensures |ws| == |pieces|
    ensures forall k :: 0 <= k < |ws| ==> ws[k] == Forward(pieces[k])
    decreases |pieces|
  {
    if pieces == [] then [] else [Forward(pieces[0])] + Forwards(pieces[1..])
  }

  lemma {:induction false} ForwardsFacts(pieces: seq<string>)
    ensures Rendered(Forwards(pieces)) == Concat(pieces)
    ensures Indices(Forwards(pieces)) == []
    decreases |pieces|
  {
    if pieces != [] {
      ForwardsFacts(pieces[1..]);
      assert Forwards(pieces)[1..] == Forwards(pieces[1..]);
    }
  }

  /** The pieces whose read completes while the client is still there. */
  function Kept(t: nat, pieces: seq<string>, close: Option<nat>): seq<string>
    decreases |pieces|
  {
    if pieces == [] then []
    else (if !Gone(close, t + 1) then [pieces[0]] else []) + Kept(t + 1, pieces[1..], close)
  }

  /** The pump forwards exactly the pieces read while the client is there, and
      counts one await per piece. */
  lemma {:induction false} PumpForwardsKept(r: Relay, pieces: seq<string>, close: Option<nat>)
    ensures Pump(r, pieces, close).writes == r.writes + Forwards(Kept(r.ticks, pieces, close))
    decreases |pieces|
  {
    if pieces != [] {
      var r1 := r.(ticks := r.ticks + 1);
      var rest := Kept(r1.ticks, pieces[1..], close);
      if !Gone(close, r1.ticks) {
        var r2 := r1.(writes := r1.writes + [Forward(pieces[0])]);
        assert Pump(r, pieces, close) == Pump(r2, pieces[1..], close);
        assert Kept(r.ticks, pieces, close) == [pieces[0]] + rest;
        PumpForwardsKept(r2, pieces[1..], close);
        ForwardsCons(pieces[0], rest);
        Assoc(r.writes, [Forward(pieces[0])], Forwards(rest));
      } else {
        assert Pump(r, pieces, close) == Pump(r1, pieces[1..], close);
        assert Kept(r.ticks, pieces, close) == [] + rest == rest;
        PumpForwardsKept(r1, pieces[1..], close);
      }
    }
  }

  lemma {:induction false} ForwardsCons(x: string, xs: seq<string>)
    ensures Forwards([x] + xs) == [Forward(x)] + Forwards(xs)
  {
    assert ([x] + xs)[1..] == xs;
  }

  lemma {:induction false} PumpCounts(r: Relay, pieces: seq<string>, close: Option<nat>)
    ensures Pump(r, pieces, close).ticks == r.ticks + |pieces|
    ensures Pump(r, pieces, close).requests == r.requests && Pump(r, pieces, close).sentAt == r.sentAt
    decreases |pieces|
  {
    if pieces != [] {
      var r1 := r.(ticks := r.ticks + 1);
      PumpCounts(if !Gone(close, r1.ticks) then r1.(writes := r1.writes + [Forward(pieces[0])]) else r1, pieces[1..], close);
    }
  }

  lemma {:induction false} ForwardsAppend(a: seq<string>, b: seq<string>)
    ensures Forwards(a + b) == Forwards(a) + Forwards(b)
  {
  }

  /** A client that is there after the last read was there for every read. */
  lemma {:induction false} KeptAll(t: nat, pieces: seq<string>, close: Option<nat>)
    requires !Gone(close, t + |pieces|)
    ensures Kept(t, pieces, close) == pieces
    decreases |pieces|
  {
    if pieces != [] {
      KeptAll(t + 1, pieces[1..], close);
    }
  }

  /** The last character of `text`, or `last` when it is empty. */
  function LastOf(last: string, text: string): string
  {
    if text == [] then last else [text[|text| - 1]]
  }

  /** `lastChar` is the last character of everything the backend sent. */
  lemma {:induction false} LastCharOfBody(last: string, pieces: seq<string>)
    ensures LastChar(last, pieces) == LastOf(last, Concat(pieces))
    decreases |pieces|
  {
    if pieces != [] {
      var p := pieces[0];
      LastCharOfBody(LastOf(last, p), pieces[1..]);
      assert Concat(pieces) == p + Concat(pieces[1..]);
    }
  }

  /** Once the client is gone, no later read is forwarded. */
  lemma {:induction false} KeptNone(t: nat, pieces: seq<string>, close: Option<nat>)
    requires Gone(close, t + 1)
    ensures Kept(t, pieces, close) == []
    decreases |pieces|
  {
    if pieces != [] {
      KeptNone(t + 1, pieces[1..], close);
    }
  }

  /** The forwarded pieces are the first pieces of the body: the relay never
      skips one and forwards a later one. */
  lemma {:induction false} KeptPrefix(t: nat, pieces: seq<string>, close: Option<nat>)
    ensures Kept(t, pieces, close) <= pieces
    decreases |pieces|
  {
    if pieces != [] {
      if Gone(close, t + 1) {
        KeptNone(t, pieces, close);
      } else {
        KeptPrefix(t + 1, pieces[1..], close);
        var rest := Kept(t + 1, pieces[1..], close);
        assert Kept(t, pieces, close) == [pieces[0]] + rest;
        assert pieces == [pieces[0]] + pieces[1..];
        PrefixCons(pieces[0], rest, pieces[1..]);
      }
    }
  }

  lemma {:induction false} PrefixCons<T>(x: T, a: seq<T>, b: seq<T>)
    requires a <= b
    ensures [x] + a <= [x] + b
  {
    assert ([x] + b)[..|[x] + a|] == [x] + b[..|a|];
  }

  lemma {:induction false} PrefixAppend<T>(a: seq<T>, b: seq<T>, c: seq<T>)
    requires b <= c
    ensures a + b <= a + c
  {
    assert (a + c)[..|a + b|] == a + c[..|b|];
  }

  lemma {:induction false} PrefixThen<T>(a: seq<T>, b: seq<T>)
    ensures a <= a + b
  {
    assert (a + b)[..|a|] == a;
  }

  lemma {:induction false} PrefixTrans<T>(a: seq<T>, b: seq<T>, c: seq<T>)
    requires a <= b && b <= c
    ensures a <= c
  {
    assert c[..|a|] == c[..|b|][..|a|];
  }

  lemma {:induction false} ForwardsPrefix(a: seq<string>, b: seq<string>)
    requires a <= b
    ensures Forwards(a) <= Forwards(b)
  {
    assert Forwards(a) == Forwards(b)[..|a|];
  }

  // ---------------------------------------------------------------------------
  // What a chunk writes

  /** The body ends with a line break. */
  predicate EndsWithBreak(s: string)
  {
    s != [] && s[|s| - 1] == '\n'
  }

  /** What the iteration for chunk `i` of `total` writes to a client that stays:
      the body as the backend sent it, a line break unless the body ended one,
      and the `chunkComplete` marker; or the body so far and the error record of
      a read that throws; the failed-status record for a non-2xx reply; the
      error record for a fetch that throws. */
  function Expected(i: nat, total: nat, reply: Reply): seq<Write>
  {
    match reply
    case FetchFailed(m) => [ChunkError(i + 1, m)]
    case NotOk(st) => [ChunkFailed(i + 1, st)]
    case Streamed(pieces, end) => Forwards(pieces) + Closing(i, total, end, Concat(pieces))
  }

  /** What follows a body that ended as `end`. */
  function Closing(i: nat, total: nat, end: BodyEnd, body: string): seq<Write>
  {
    match end
    case Broken(m) => [ChunkError(i + 1, m)]
    case Finished => Gap(body) + [ChunkComplete(i + 1, total)]
  }

  /** The line break written before the marker unless the body ended a line. */
  function Gap(body: string): seq<Write>
  {
    if EndsWithBreak(body) then [] else [LineBreak]
  }

  /** On the wire, a chunk that finishes is its body as the backend sent it,
      then the `chunkComplete` marker on a line of its own. */
  lemma {:induction false} ExpectedRendered(i: nat, total: nat, pieces: seq<string>)
    ensures var body := Concat(pieces);
      var lead := body + (if EndsWithBreak(body) then "" else "\n");
      && Rendered(Expected(i, total, Streamed(pieces, Finished))) == lead + Render(ChunkComplete(i + 1, total))
      && EndsLine(lead) && lead != []
  {
    var body := Concat(pieces);
    var marker := ChunkComplete(i + 1, total);
    Assoc(Forwards(pieces), Gap(body), [marker]);
    assert Expected(i, total, Streamed(pieces, Finished)) == Forwards(pieces) + Gap(body) + [marker];
    ForwardsFacts(pieces);
    GapRendered(body);
    RenderedParts(Forwards(pieces), Gap(body), marker);
  }

  lemma {:induction false} RenderedParts(a: seq<Write>, b: seq<Write>, w: Write)
    ensures Rendered(a + b + [w]) == Rendered(a) + Rendered(b) + Render(w)
  {
    RenderedAppend(a + b, [w]);
    RenderedAppend(a, b);
    RenderedCons(w, []);
    assert [w] + [] == [w];
  }

  /** The gap completes the body's last line. */
  lemma {:induction false} GapRendered(body: string)
    ensures var lead := body + (if EndsWithBreak(body) then "" else "\n");
      && Rendered(Gap(body)) == (if EndsWithBreak(body) then "" else "\n")
      && EndsLine(lead) && lead != []
  {
    var lead := body + (if EndsWithBreak(body) then "" else "\n");
    if EndsWithBreak(body) {
      assert lead == body;
    } else {
      assert Rendered([LineBreak]) == Render(LineBreak) + Rendered([]);
      assert lead[|lead| - 1] == '\n';
    }
  }

  /** On the wire, a chunk whose read throws is its body so far followed
      directly by the error record: the record starts a line only when that
      body is empty or ends with a line feed. */
  lemma {:induction false} ExpectedRenderedBroken(i: nat, total: nat, pieces: seq<string>, m: string)
    ensures Rendered(Expected(i, total, Streamed(pieces, Broken(m)))) == Concat(pieces) + Render(ChunkError(i + 1, m))
  {
    ForwardsFacts(pieces);
    RenderedAppend(Forwards(pieces), [ChunkError(i + 1, m)]);
    RenderedCons(ChunkError(i + 1, m), []);
    assert [ChunkError(i + 1, m)] + [] == [ChunkError(i + 1, m)];
  }

  /** One iteration writes what `Expected` says, cut short only for a client that
      is gone: the loop breaks only then, and otherwise all of it is written. */
  predicate StepWrites(r: Relay, expected: seq<Write>, close: Option<nat>, r': Relay, stop: bool)
  {
    && r.writes <= r'.writes <= r.writes + expected
    && (stop ==> Gone(close, r'.ticks))
    && (!stop ==> r'.writes == r.writes + expected)
  }

  lemma {:induction false} ChunkStepWrites(r: Relay, i: nat, chunk: string, total: nat, reply: Reply, close: Option<nat>)
    ensures var (r', stop) := ChunkStep(r, i, chunk, total, reply, close);
      StepWrites(r, Expected(i, total, reply), close, r', stop)
  {
    var e := Expected(i, total, reply);
    PrefixThen(r.writes, e);
    match reply
    case FetchFailed(m) =>
    case NotOk(st) =>
    case Streamed(pieces, end) =>
      var r0 := Relay(r.writes, r.requests + [chunk], r.sentAt + [r.ticks], r.ticks + 1);
      StreamedStep(r, i, chunk, total, pieces, end, close);
      BodyWrites(r0, i, total, pieces, end, close);
  }

  /** The body and what follows it write `Expected`, from the state after the request. */
  lemma {:induction false} BodyWrites(r0: Relay, i: nat, total: nat, pieces: seq<string>, end: BodyEnd, close: Option<nat>)
    ensures var a := AfterBody(Pump(r0, pieces, close), i, total, end, LastChar("", pieces), close);
      StepWrites(r0, Expected(i, total, Streamed(pieces, end)), close, a.0, a.1)
  {
    var r1 := Pump(r0, pieces, close);
    var tail := Closing(i, total, end, Concat(pieces));
    var a := AfterBody(r1, i, total, end, LastChar("", pieces), close);
    PumpForwardsKept(r0, pieces, close);
    PumpCounts(r0, pieces, close);
    if Gone(close, r1.ticks + 1) {
      assert a == (r1.(ticks := r1.ticks + 1), true);
      KeptPrefix(r0.ticks, pieces, close);
      BodyCutShort(r0, a.0, Kept(r0.ticks, pieces, close), pieces, tail, close);
    } else {
      KeptAll(r0.ticks, pieces, close);
      LastCharOfBody("", pieces);
      AfterBodyWrites(r1, i, total, end, LastChar("", pieces), close, Concat(pieces));
      BodyWhole(r0, a.0, pieces, tail, close);
    }
  }

  /** A client gone before the body ends gets its first pieces and nothing more. */
  lemma {:induction false} BodyCutShort(r0: Relay, r': Relay, kept: seq<string>, pieces: seq<string>, tail: seq<Write>, close: Option<nat>)
    requires kept <= pieces && r'.writes == r0.writes + Forwards(kept) && Gone(close, r'.ticks)
    ensures StepWrites(r0, Forwards(pieces) + tail, close, r', true)
  {
    ForwardsPrefix(kept, pieces);
    PrefixThen(Forwards(pieces), tail);
    PrefixTrans(Forwards(kept), Forwards(pieces), Forwards(pieces) + tail);
    PrefixAppend(r0.writes, Forwards(kept), Forwards(pieces) + tail);
    PrefixThen(r0.writes, Forwards(kept));
  }

  /** A client still there when the body ends gets all of it and what follows. */
  lemma {:induction false} BodyWhole(r0: Relay, r': Relay, pieces: seq<string>, tail: seq<Write>, close: Option<nat>)
    requires r'.writes == r0.writes + Forwards(pieces) + tail
    ensures StepWrites(r0, Forwards(pieces) + tail, close, r', false)
  {
    Assoc(r0.writes, Forwards(pieces), tail);
    PrefixThen(r0.writes, Forwards(pieces) + tail);
  }

  /** The marker, the line break before it, or the error record after the body. */
  lemma {:induction false} AfterBodyWrites(r1: Relay, i: nat, total: nat, end: BodyEnd, last: string, close: Option<nat>, body: string)
    requires !Gone(close, r1.ticks + 1) && last == LastOf("", body)
    ensures var a := AfterBody(r1, i, total, end, last, close);
      !a.1 && a.0.writes == r1.writes + Closing(i, total, end, body)
  {
    assert last != "\n" <==> !EndsWithBreak(body);
  }

  // ---------------------------------------------------------------------------
  // Line structure

  /** The output is at the start of a line. */
  predicate EndsLine(s: string)
  {
    s == [] || s[|s| - 1] == '\n'
  }

  /** Every `chunkComplete` marker and every failed-status record starts a line. */
  predicate MarkersStartLines(ws: seq<Write>)
  {
    forall k :: 0 <= k < |ws| && (ws[k].ChunkComplete? || ws[k].ChunkFailed?) ==> EndsLine(Rendered(ws[..k]))
  }

  lemma {:induction false} MarkersStartLinesAppend(ws: seq<Write>, more: seq<Write>)
    requires MarkersStartLines(ws)
    requires forall k :: 0 <= k < |more| && (more[k].ChunkComplete? || more[k].ChunkFailed?)
               ==> EndsLine(Rendered(ws + more[..k]))
    ensures MarkersStartLines(ws + more)
  {
    forall k | 0 <= k < |ws + more| && ((ws + more)[k].ChunkComplete? || (ws + more)[k].ChunkFailed?)
      ensures EndsLine(Rendered((ws + more)[..k]))
    {
      if k < |ws| {
        assert (ws + more)[..k] == ws[..k];
      } else {
        assert (ws + more)[..k] == ws + more[..k - |ws|];
      }
    }
  }

  /** Appending one marker that starts a line. */
  lemma {:induction false} MarkerAfterLine(ws: seq<Write>, w: Write)
    requires MarkersStartLines(ws) && EndsLine(Rendered(ws)) && !w.Forward?
    ensures MarkersStartLines(ws + [w]) && EndsLine(Rendered(ws + [w]))
    ensures Indices(ws + [w]) == Indices(ws) + (if w.LineBreak? then [] else [w.index])
  {
    assert ws + [w][..0] == ws;
    MarkersStartLinesAppend(ws, [w]);
    EndsLineAfterRecord(ws, w);
    IndicesAppend(ws, [w]);
  }

  lemma {:induction false} EndsLineAfterRecord(ws: seq<Write>, w: Write)
    requires !w.Forward?
    ensures EndsLine(Rendered(ws + [w]))
  {
    RenderedAppend(ws, [w]);
    RecordIsOneLine(w);
    assert Rendered([w]) == Render(w) + [];
  }

  /** An error record may follow partial audio: it does not need a line start. */
  lemma {:induction false} ErrorAfterAnything(ws: seq<Write>, i: nat, m: string)
    requires MarkersStartLines(ws)
    ensures MarkersStartLines(ws + [ChunkError(i, m)]) && EndsLine(Rendered(ws + [ChunkError(i, m)]))
    ensures Indices(ws + [ChunkError(i, m)]) == Indices(ws) + [i]
  {
    MarkersStartLinesAppend(ws, [ChunkError(i, m)]);
    EndsLineAfterRecord(ws, ChunkError(i, m));
    IndicesAppend(ws, [ChunkError(i, m)]);
  }

  /** What one iteration leaves behind: the chunk is sent while the client is
      there, at most one record ends it (with its number), the loop breaks only
      once the client is gone, and otherwise the output ends a line. */
  predicate StepOk(r: Relay, chunk: string, i: nat, close: Option<nat>, r': Relay, stop: bool)
  {
    && r'.requests == r.requests + [chunk]
    && r'.sentAt == r.sentAt + [r.ticks]
    && r'.ticks > r.ticks
    && Indices(r'.writes) == Indices(r.writes) + (if stop then [] else [i + 1])
    && (stop ==> Gone(close, r'.ticks))
    && MarkersStartLines(r'.writes)
    && (!stop ==> EndsLine(Rendered(r'.writes)))
  }

  lemma {:induction false} AfterBodyFacts(r1: Relay, i: nat, total: nat, end: BodyEnd, last: string, close: Option<nat>)
    requires MarkersStartLines(r1.writes)
    requires !Gone(close, r1.ticks + 1) && last == "\n" ==> EndsLine(Rendered(r1.writes)) && Rendered(r1.writes) != []
    ensures var a := AfterBody(r1, i, total, end, last, close); var r', stop := a.0, a.1;
      && r'.requests == r1.requests && r'.sentAt == r1.sentAt && r'.ticks == r1.ticks + 1
      && Indices(r'.writes) == Indices(r1.writes) + (if stop then [] else [i + 1])
      && (stop ==> Gone(close, r'.ticks))
      && MarkersStartLines(r'.writes)
      && (!stop ==> EndsLine(Rendered(r'.writes)))
  {
    if !Gone(close, r1.ticks + 1) {
      match end
      case Broken(m) =>
        ErrorAfterAnything(r1.writes, i + 1, m);
      case Finished =>
        var w := ChunkComplete(i + 1, total);
        if last != "\n" {
          EndsLineAfterRecord(r1.writes, LineBreak);
          MarkersStartLinesAppend(r1.writes, [LineBreak]);
          IndicesAppend(r1.writes, [LineBreak]);
          MarkerAfterLine(r1.writes + [LineBreak], w);
        } else {
          assert r1.writes + [] == r1.writes;
          MarkerAfterLine(r1.writes, w);
        }
    }
  }

  lemma {:induction false} StreamedFacts(r: Relay, i: nat, chunk: string, total: nat, pieces: seq<string>, end: BodyEnd, close: Option<nat>)
    requires MarkersStartLines(r.writes) && EndsLine(Rendered(r.writes))
    ensures var step := ChunkStep(r, i, chunk, total, Streamed(pieces, end), close);
      StepOk(r, chunk, i, close, step.0, step.1)
  {
    var r0 := Relay(r.writes, r.requests + [chunk], r.sentAt + [r.ticks], r.ticks + 1);
    StreamedStep(r, i, chunk, total, pieces, end, close);
    BodyThenAfter(r0, i, total, pieces, end, close);
    var a := AfterBody(Pump(r0, pieces, close), i, total, end, LastChar("", pieces), close);
    StepFromBody(r, chunk, i, close, r0, a.0, a.1);
  }

  /** The body and what follows it, from the relay state after the request. */
  lemma {:induction false} BodyThenAfter(r0: Relay, i: nat, total: nat, pieces: seq<string>, end: BodyEnd, close: Option<nat>)
    requires MarkersStartLines(r0.writes) && EndsLine(Rendered(r0.writes))
    ensures var a := AfterBody(Pump(r0, pieces, close), i, total, end, LastChar("", pieces), close);
      var r', stop := a.0, a.1;
      && r'.requests == r0.requests && r'.sentAt == r0.sentAt && r'.ticks > r0.ticks
      && Indices(r'.writes) == Indices(r0.writes) + (if stop then [] else [i + 1])
      && (stop ==> Gone(close, r'.ticks)) && MarkersStartLines(r'.writes)
      && (!stop ==> EndsLine(Rendered(r'.writes)))
  {
    var r1 := Pump(r0, pieces, close);
    var last := LastChar("", pieces);
    PumpCounts(r0, pieces, close);
    BodyKeepsMarkers(r0, pieces, close);
    if !Gone(close, r1.ticks + 1) && last == "\n" {
      BodyEndsLine(r0, pieces, close);
    }
    AfterBodyFacts(r1, i, total, end, last, close);
  }

  lemma {:induction false} StepFromBody(r: Relay, chunk: string, i: nat, close: Option<nat>, r0: Relay, r': Relay, stop: bool)
    requires r0.requests == r.requests + [chunk] && r0.sentAt == r.sentAt + [r.ticks] && r0.ticks > r.ticks
    requires r0.writes == r.writes
    requires r'.requests == r0.requests && r'.sentAt == r0.sentAt && r'.ticks > r0.ticks
    requires Indices(r'.writes) == Indices(r0.writes) + (if stop then [] else [i + 1])
    requires (stop ==> Gone(close, r'.ticks)) && MarkersStartLines(r'.writes)
    requires !stop ==> EndsLine(Rendered(r'.writes))
    ensures StepOk(r, chunk, i, close, r', stop)
  {
  }

  lemma {:induction false} StreamedStep(r: Relay, i: nat, chunk: string, total: nat, pieces: seq<string>, end: BodyEnd, close: Option<nat>)
    ensures var r0 := Relay(r.writes, r.requests + [chunk], r.sentAt + [r.ticks], r.ticks + 1);
      ChunkStep(r, i, chunk, total, Streamed(pieces, end), close)
        == AfterBody(Pump(r0, pieces, close), i, total, end, LastChar("", pieces), close)
  {
  }

  lemma {:induction false} BodyKeepsMarkers(r0: Relay, pieces: seq<string>, close: Option<nat>)
    requires MarkersStartLines(r0.writes)
    ensures var r1 := Pump(r0, pieces, close);
      MarkersStartLines(r1.writes) && Indices(r1.writes) == Indices(r0.writes)
  {
    PumpForwardsKept(r0, pieces, close);
    var fw := Forwards(Kept(r0.ticks, pieces, close));
    MarkersStartLinesAppend(r0.writes, fw);
    ForwardsFacts(Kept(r0.ticks, pieces, close));
    IndicesAppend(r0.writes, fw);
  }

  lemma {:induction false} BodyEndsLine(r0: Relay, pieces: seq<string>, close: Option<nat>)
    requires !Gone(close, r0.ticks + |pieces| + 1) && LastChar("", pieces) == "\n"
    ensures var r1 := Pump(r0, pieces, close); EndsLine(Rendered(r1.writes)) && Rendered(r1.writes) != []
  {
    PumpForwardsKept(r0, pieces, close);
    KeptAll(r0.ticks, pieces, close);
    LastCharOfBody("", pieces);
    var fw := Forwards(pieces);
    ForwardsFacts(pieces);
    RenderedAppend(r0.writes, fw);
    assert Concat(pieces) != [];
  }

  lemma {:induction false} ChunkStepFacts(r: Relay, i: nat, chunk: string, total: nat, reply: Reply, close: Option<nat>)
    requires MarkersStartLines(r.writes) && EndsLine(Rendered(r.writes))
    ensures var (r', stop) := ChunkStep(r, i, chunk, total, reply, close);
      StepOk(r, chunk, i, close, r', stop) && StepWrites(r, Expected(i, total, reply), close, r', stop)
  {
    ChunkStepWrites(r, i, chunk, total, reply, close);
    match reply
    case FetchFailed(m) =>
      ErrorAfterAnything(r.writes, i + 1, m);
    case NotOk(st) =>
      MarkerAfterLine(r.writes, ChunkFailed(i + 1, st));
    case Streamed(pieces, end) =>
      StreamedFacts(r, i, chunk, total, pieces, end, close);
  }

  // ---------------------------------------------------------------------------
  // The loop

  /** The numbers `a`, `a + 1`, ..., `a + n - 1`. */
  function Range(a: nat, n: nat): (r: seq<nat>)
    ensures |r| == n && forall k :: 0 <= k < n ==> r[k] == a + k
  {
    seq(n, k requires 0 <= k < n => a + k)
  }

  /** Every chunk was sent at an await count at which the client was still there. */
  predicate SentWhileThere(sentAt: seq<nat>, close: Option<nat>)
  {
    forall k :: 0 <= k < |sentAt| ==> !Gone(close, sentAt[k])
  }

  /** What the loop from chunk `i` leaves behind: it sends the chunks in order,
      each only while the client is there; it stops early only for a client
      that is gone; each sent chunk but possibly the last (the one during which
      the client left) gets its one record, in chunk order. */
  predicate LoopOk(r: Relay, r': Relay, chunks: seq<string>, i: nat, close: Option<nat>)
    requires i <= |chunks|
  {
    && LoopSends(r, r', chunks, i)
    && SentWhileThere(r'.sentAt, close)
    && MarkersStartLines(r'.writes)
    && (i + |r'.requests| - |r.requests| < |chunks| ==> Gone(close, r'.ticks))
    && LoopNumbers(r, r', i, close)
  }

  /** The loop from chunk `i` sends the next chunks, in order. */
  predicate LoopSends(r: Relay, r': Relay, chunks: seq<string>, i: nat)
    requires i <= |chunks|
  {
    var m := |r'.requests| - |r.requests|;
    && 0 <= m <= |chunks| - i
    && r'.requests == r.requests + chunks[i..i + m]
  }

  /** The records written by the loop from chunk `i` are numbered `i + 1`, ...,
      one per sent chunk, the last possibly missing once the client is gone. */
  predicate LoopNumbers(r: Relay, r': Relay, i: nat, close: Option<nat>)
  {
    var m := |r'.requests| - |r.requests|;
    && m >= 0
    && (|| Indices(r'.writes) == Indices(r.writes) + Range(i + 1, m)
        || (m > 0 && Gone(close, r'.ticks) && Indices(r'.writes) == Indices(r.writes) + Range(i + 1, m - 1)))
  }

  /** The loop from chunk `i` keeps `LoopOk` and writes a prefix of `Run`, all
      of it unless the client has gone. */
  lemma {:induction false} LoopFacts(r: Relay, chunks: seq<string>, i: nat, script: nat -> Reply, close: Option<nat>)
    requires i <= |chunks|
    requires MarkersStartLines(r.writes) && EndsLine(Rendered(r.writes)) && SentWhileThere(r.sentAt, close)
    ensures var r' := Loop(r, chunks, i, script, close);
      && LoopOk(r, r', chunks, i, close)
      && r.writes <= r'.writes <= r.writes + Run(chunks, i, script)
      && (!Gone(close, r'.ticks) ==> r'.writes == r.writes + Run(chunks, i, script))
  {
    LoopKeepsOk(r, chunks, i, script, close);
    LoopWrites(r, chunks, i, script, close);
  }

  lemma {:induction false} LoopKeepsOk(r: Relay, chunks: seq<string>, i: nat, script: nat -> Reply, close: Option<nat>)
    requires i <= |chunks|
    requires MarkersStartLines(r.writes) && EndsLine(Rendered(r.writes)) && SentWhileThere(r.sentAt, close)
    ensures LoopOk(r, Loop(r, chunks, i, script, close), chunks, i, close)
    decreases |chunks| - i
  {
    var r' := Loop(r, chunks, i, script, close);
    if i == |chunks| || Gone(close, r.ticks) {
      assert r.requests + chunks[i..i] == r.requests;
      assert Indices(r.writes) + Range(i + 1, 0) == Indices(r.writes);
    } else {
      var (r1, stop) := ChunkStep(r, i, chunks[i], |chunks|, script(i), close);
      ChunkStepFacts(r, i, chunks[i], |chunks|, script(i), close);
      if stop {
        assert r' == r1;
        LoopStops(r, r1, chunks, i, close);
      } else {
        assert r' == Loop(r1, chunks, i + 1, script, close);
        LoopKeepsOk(r1, chunks, i + 1, script, close);
        LoopGoesOn(r, r1, r', chunks, i, close);
      }
    }
  }

  lemma {:induction false} LoopStops(r: Relay, r1: Relay, chunks: seq<string>, i: nat, close: Option<nat>)
    requires i < |chunks| && !Gone(close, r.ticks) && SentWhileThere(r.sentAt, close)
    requires StepOk(r, chunks[i], i, close, r1, true)
    ensures LoopOk(r, r1, chunks, i, close)
  {
    assert r1.sentAt == r.sentAt + [r.ticks];
    assert chunks[i..i + 1] == [chunks[i]];
    assert Indices(r1.writes) == Indices(r.writes) + Range(i + 1, 0);
  }

  lemma {:induction false} LoopGoesOn(r: Relay, r1: Relay, r': Relay, chunks: seq<string>, i: nat, close: Option<nat>)
    requires i < |chunks| && !Gone(close, r.ticks)
    requires StepOk(r, chunks[i], i, close, r1, false)
    requires LoopOk(r1, r', chunks, i + 1, close)
    ensures LoopOk(r, r', chunks, i, close)
  {
    LoopGoesOnSends(r, r1, r', chunks, i);
    LoopGoesOnNumbers(r, r1, r', i, close);
  }

  lemma {:induction false} LoopGoesOnSends(r: Relay, r1: Relay, r': Relay, chunks: seq<string>, i: nat)
    requires i < |chunks| && r1.requests == r.requests + [chunks[i]]
    requires LoopSends(r1, r', chunks, i + 1)
    ensures LoopSends(r, r', chunks, i)
  {
    SliceCons(chunks, i, |r'.requests| - |r1.requests|);
  }

  lemma {:induction false} LoopGoesOnNumbers(r: Relay, r1: Relay, r': Relay, i: nat, close: Option<nat>)
    requires |r1.requests| == |r.requests| + 1
    requires Indices(r1.writes) == Indices(r.writes) + [i + 1]
    requires LoopNumbers(r1, r', i + 1, close)
    ensures LoopNumbers(r, r', i, close)
  {
    var m1 := |r'.requests| - |r1.requests|;
    var before := Indices(r.writes);
    if Indices(r'.writes) == Indices(r1.writes) + Range(i + 2, m1) {
      RangeCons(i + 1, m1);
      Assoc(before, [i + 1], Range(i + 2, m1));
    } else {
      RangeCons(i + 1, m1 - 1);
      Assoc(before, [i + 1], Range(i + 2, m1 - 1));
    }
  }

  lemma {:induction false} SliceCons<T>(xs: seq<T>, i: nat, m: nat)
    requires i + 1 + m <= |xs|
    ensures xs[i..i + 1 + m] == [xs[i]] + xs[i + 1..i + 1 + m]
  {
  }

  lemma {:induction false} RangeCons(a: nat, n: nat)
    ensures [a] + Range(a + 1, n) == Range(a, n + 1)
  {
  }

  /** What the loop from chunk `i` on writes to a client that stays: each chunk's
      `Expected`, in chunk order. */
  function Run(chunks: seq<string>, i: nat, script: nat -> Reply): seq<Write>
    requires i <= |chunks|
    decreases |chunks| - i
  {
    if i == |chunks| then [] else Expected(i, |chunks|, script(i)) + Run(chunks, i + 1, script)
  }

  /** The loop writes a prefix of `Run`, and all of it unless the client has gone. */
  lemma {:induction false} LoopWrites(r: Relay, chunks: seq<string>, i: nat, script: nat -> Reply, close: Option<nat>)
    requires i <= |chunks|
    ensures var r' := Loop(r, chunks, i, script, close);
      && r.writes <= r'.writes <= r.writes + Run(chunks, i, script)
      && (!Gone(close, r'.ticks) ==> r'.writes == r.writes + Run(chunks, i, script))
    decreases |chunks| - i
  {
    PrefixThen(r.writes, Run(chunks, i, script));
    if i < |chunks| && !Gone(close, r.ticks) {
      var (r1, stop) := ChunkStep(r, i, chunks[i], |chunks|, script(i), close);
      ChunkStepWrites(r, i, chunks[i], |chunks|, script(i), close);
      if stop {
        LoopWritesStop(r.writes, r1.writes, Expected(i, |chunks|, script(i)), Run(chunks, i + 1, script));
      } else {
        var r' := Loop(r1, chunks, i + 1, script, close);
        LoopWrites(r1, chunks, i + 1, script, close);
        LoopWritesOn(r.writes, r'.writes, Expected(i, |chunks|, script(i)), Run(chunks, i + 1, script));
      }
    }
  }

  lemma {:induction false} LoopWritesStop(ws: seq<Write>, ws': seq<Write>, e: seq<Write>, rest: seq<Write>)
    requires ws <= ws' <= ws + e
    ensures ws' <= ws + (e + rest)
  {
    PrefixThen(ws + e, rest);
    Assoc(ws, e, rest);
    PrefixTrans(ws', ws + e, ws + (e + rest));
  }

  lemma {:induction false} LoopWritesOn(ws: seq<Write>, ws': seq<Write>, e: seq<Write>, rest: seq<Write>)
    requires ws + e <= ws' <= ws + e + rest
    ensures ws <= ws' <= ws + (e + rest)
    ensures ws' == ws + e + rest ==> ws' == ws + (e + rest)
  {
    PrefixThen(ws, e);
    PrefixTrans(ws, ws + e, ws');
    Assoc(ws, e, rest);
  }

  /** A streamed answer: the chunks of the text are sent in order, none after the
      client has gone, and the loop stops early only for a client that is gone.
      The records that end chunks carry the chunk numbers 1, 2, ... in order,
      every marker starts a line of the output, and what is written is the
      beginning of what a client that stays is written: all of it when the
      client is still there after the last await. */
  lemma {:induction false} HandleStreams(req: Request, script: nat -> Reply, close: Option<nat>)
    requires Handle(req, script, close).Stream?
    ensures var resp := Handle(req, script, close);
      var chunks := Chunker.ChunkText(req.text.value);
      var m := |resp.requests|;
      && m <= |chunks| && resp.requests == chunks[..m]
      && (m < |chunks| ==> Gone(close, resp.awaits))
      && SentWhileThere(resp.sentAt, close)
      && MarkersStartLines(resp.writes)
      && (Indices(resp.writes) == Range(1, m) || (m > 0 && Gone(close, resp.awaits) && Indices(resp.writes) == Range(1, m - 1)))
      && resp.writes <= Run(chunks, 0, script)
      && (!Gone(close, resp.awaits) ==> resp.writes == Run(chunks, 0, script))
  {
    var chunks := Chunker.ChunkText(req.text.value);
    var r := Loop(Start, chunks, 0, script, close);
    assert Handle(req, script, close) == Stream(r.writes, r.requests, r.sentAt, r.ticks);
    StartOk(close);
    LoopFacts(Start, chunks, 0, script, close);
    LoopOkFromStart(r, chunks, close);
    assert Start.writes + Run(chunks, 0, script) == Run(chunks, 0, script);
  }

  lemma {:induction false} StartOk(close: Option<nat>)
    ensures MarkersStartLines(Start.writes) && EndsLine(Rendered(Start.writes)) && SentWhileThere(Start.sentAt, close)
  {
  }

  /** The invariant of the whole loop, read from the first chunk. */
  lemma {:induction false} LoopOkFromStart(r: Relay, chunks: seq<string>, close: Option<nat>)
    requires LoopOk(Start, r, chunks, 0, close)
    ensures var m := |r.requests|;
      && m <= |chunks| && r.requests == chunks[..m]
      && (m < |chunks| ==> Gone(close, r.ticks))
      && SentWhileThere(r.sentAt, close)
      && MarkersStartLines(r.writes)
      && (Indices(r.writes) == Range(1, m) || (m > 0 && Gone(close, r.ticks) && Indices(r.writes) == Range(1, m - 1)))
  {
    assert Indices(Start.writes) == [];
    assert [] + chunks[0..|r.requests|] == chunks[..|r.requests|];
  }

  /** With a client that stays, every chunk of the text is sent and answered by
      exactly one record, so the backend is asked to speak all of the text, and
      the client is written each chunk's `Expected`, in chunk order. */
  lemma {:induction false} HandleWithoutClose(req: Request, script: nat -> Reply)
    requires Handle(req, script, None).Stream?
    ensures var resp := Handle(req, script, None);
      var chunks := Chunker.ChunkText(req.text.value);
      && resp.requests == chunks
      && Indices(resp.writes) == Range(1, |chunks|)
      && Ink(Concat(resp.requests)) == Ink(req.text.value)
      && resp.writes == Run(chunks, 0, script)
  {
    var chunks := Chunker.ChunkText(req.text.value);
    HandleStreams(req, script, None);
    LoopWrites(Start, chunks, 0, script, None);
    assert Start.writes + Run(chunks, 0, script) == Run(chunks, 0, script);
    assert chunks[..|chunks|] == chunks;
    Chunker.ChunkTextInk(req.text.value);
  }

  /** An instance of `ExpectedRenderedBroken`: after the audio "abc", which does
      not end a line, the error record is written on the same line, and the
      client sees one line that is not valid JSON. */
  lemma ErrorGluedToPartialAudio()
    ensures var r := Loop(Start, ["Hi."], 0, _ => Streamed(["abc"], Broken("reset")), None);
      Rendered(r.writes) == "abc" + Render(ChunkError(1, "reset"))
  {
    var script: nat -> Reply := _ => Streamed(["abc"], Broken("reset"));
    var r0 := Relay([], ["Hi."], [0], 1);
    var r1 := Relay([Forward("abc")], ["Hi."], [0], 2);
    assert Pump(r0, ["abc"], None) == Pump(r1, [], None) == r1;
    var r2 := Relay([Forward("abc"), ChunkError(1, "reset")], ["Hi."], [0], 3);
    var a := AfterBody(r1, 0, 1, Broken("reset"), LastChar("", ["abc"]), None);
    assert !Gone(None, 3);
    assert a.0.writes == [Forward("abc"), ChunkError(1, "reset")];
    assert a.0.ticks == 3;
    assert a.1 == false;
    assert a == (r2, false);
    assert script(0) == Streamed(["abc"], Broken("reset"));
    assert r0 == Relay(Start.writes, Start.requests + ["Hi."], Start.sentAt + [Start.ticks], Start.ticks + 1);
    assert ChunkStep(Start, 0, "Hi.", 1, script(0), None) == a;
    assert Loop(Start, ["Hi."], 0, script, None) == Loop(r2, ["Hi."], 1, script, None) == r2;
    assert Rendered(r2.writes) == "abc" + Rendered([ChunkError(1, "reset")]);
  }
}
