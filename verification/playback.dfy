/** The playback window of `src/App.jsx`: decoded segments are held back until
    `BUFFER_BEFORE_PLAY` of them are ready, then everything held is scheduled in
    order and later segments are scheduled as they arrive.

    Segments reach the window when their decoding finishes (`scheduleAudioBuffer`),
    which for WAV and encoded audio is after an `await`, so a segment may arrive
    after the stream has ended. As written (`SubmitAsWritten`), such a late
    segment waits for a fifth one that never comes; `Submit` also starts playback
    once the stream has ended. */
module Playback {

  const BufferBeforePlay: nat := 5

  /** The refs `playbackStartedRef`, `pendingBuffersRef`, the segments handed to
      `playBuffer` so far, and whether the read loop has finished. */
  datatype Player<B> = Player(started: bool, streamEnded: bool, pending: seq<B>, scheduled: seq<B>)

  /** The state `startTTS` resets to. */
  function Initial<B>(): Player<B>
  {
    Player(false, false, [], [])
  }

  /** What happens to the window: a segment finished decoding, or the read loop
      finished (the check after the loop and in `finally`). */
  datatype Event<B> = Decoded(buffer: B) | StreamEnd

  /** `startPlayback`: the held segments are scheduled in order; a second call does nothing. */
  function StartPlayback<B>(p: Player<B>): (r: Player<B>)
    ensures r.started && r.streamEnded == p.streamEnded
    ensures r.pending == [] || r == p
    ensures r.scheduled + r.pending == p.scheduled + p.pending
    ensures Window(p) ==> Window(r)
  {
    if p.started then p
    else Player(true, p.streamEnded, [], p.scheduled + p.pending)
  }

  /** Starting is done once: a second call changes nothing. */
  lemma {:induction false} StartPlaybackTwice<B>(p: Player<B>)
    ensures StartPlayback(StartPlayback(p)) == StartPlayback(p)
  {
  }

  /** `scheduleAudioBuffer` after a successful decode, as written. */
  function SubmitAsWritten<B>(p: Player<B>, b: B): Player<B>
  {
    if !p.started then
      var q := p.(pending := p.pending + [b]);
      if |q.pending| >= BufferBeforePlay then StartPlayback(q) else q
    else p.(scheduled := p.scheduled + [b])
  }

  /** `scheduleAudioBuffer`, corrected: a segment that arrives after the stream
      has ended starts playback as the end-of-stream check would have. */
  function Submit<B>(p: Player<B>, b: B): Player<B>
  {
    if !p.started then
      var q := p.(pending := p.pending + [b]);
      if |q.pending| >= BufferBeforePlay || p.streamEnded then StartPlayback(q) else q
    else p.(scheduled := p.scheduled + [b])
  }

  /** `if (!playbackStartedRef.current && pendingBuffersRef.current.length > 0) startPlayback()`. */
  function EndOfStream<B>(p: Player<B>): Player<B>
  {
    var q := p.(streamEnded := true);
    if !q.started && |q.pending| > 0 then StartPlayback(q) else q
  }

  function Step<B>(p: Player<B>, e: Event<B>, corrected: bool): Player<B>
  {
    match e
    case Decoded(b) => if corrected then Submit(p, b) else SubmitAsWritten(p, b)
    case StreamEnd => EndOfStream(p)
  }

  /** The window after a sequence of events, corrected or as written. */
  function Run<B>(p: Player<B>, events: seq<Event<B>>, corrected: bool): Player<B>
    decreases |events|
  {
    if events == [] then p else Run(Step(p, events[0], corrected), events[1..], corrected)
  }

  /** The decoded segments among the events, in order. */
  function Decodeds<B>(events: seq<Event<B>>): seq<B>
    decreases |events|
  {
    if events == [] then []
    else (if events[0].Decoded? then [events[0].buffer] else []) + Decodeds(events[1..])
  }

  predicate Ended<B>(events: seq<Event<B>>)
  {
    exists k :: 0 <= k < |events| && events[k].StreamEnd?
  }

  /** Every segment is either held or scheduled, never both; held segments exist
      only before playback starts, and then fewer than five of them. */
  predicate Window<B>(p: Player<B>)
  {
    && (p.started ==> p.pending == [])
    && (!p.started ==> p.scheduled == [] && |p.pending| < BufferBeforePlay)
  }

  /** The corrected window also starts as soon as the stream has ended with a
      segment in hand. */
  predicate Prompt<B>(p: Player<B>)
  {
    p.started <==> |p.scheduled| + |p.pending| >= BufferBeforePlay
                   || (p.streamEnded && |p.scheduled| + |p.pending| >= 1)
  }

  /** The held and scheduled segments are all decoded segments, in decoding
      order, and both versions keep the window. */
  lemma {:induction false} RunKeepsOrder<B>(p: Player<B>, events: seq<Event<B>>, corrected: bool)
    requires Window(p)
    ensures var r := Run(p, events, corrected);
      && Window(r)
      && r.scheduled + r.pending == p.scheduled + p.pending + Decodeds(events)
      && (r.streamEnded <==> p.streamEnded || Ended(events))
    decreases |events|
  {
    if events != [] {
      var e, rest := events[0], events[1..];
      var q := Step(p, e, corrected);
      StepKeepsOrder(p, e, corrected);
      RunKeepsOrder(q, rest, corrected);
      EndedCons(events);
      DecodedsCons(events);
      assert p.scheduled + p.pending + Decodeds(events)
          == p.scheduled + p.pending + (if e.Decoded? then [e.buffer] else []) + Decodeds(rest);
    }
  }

  lemma {:induction false} StepKeepsOrder<B>(p: Player<B>, e: Event<B>, corrected: bool)
    requires Window(p)
    ensures var q := Step(p, e, corrected);
      && Window(q)
      && q.scheduled + q.pending == p.scheduled + p.pending + (if e.Decoded? then [e.buffer] else [])
      && (q.streamEnded <==> p.streamEnded || e.StreamEnd?)
  {
  }

  lemma {:induction false} EndedCons<B>(events: seq<Event<B>>)
    requires events != []
    ensures Ended(events) <==> events[0].StreamEnd? || Ended(events[1..])
  {
    if Ended(events[1..]) {
      var k :| 0 <= k < |events[1..]| && events[1..][k].StreamEnd?;
      assert events[k + 1].StreamEnd?;
    }
    if Ended(events) && !events[0].StreamEnd? {
      var k :| 0 <= k < |events| && events[k].StreamEnd?;
      assert events[1..][k - 1].StreamEnd?;
    }
  }

  lemma {:induction false} DecodedsCons<B>(events: seq<Event<B>>)
    requires events != []
    ensures Decodeds(events) == (if events[0].Decoded? then [events[0].buffer] else []) + Decodeds(events[1..])
  {
  }

  /** One step of the corrected window keeps it prompt. */
  lemma {:induction false} StepPrompt<B>(p: Player<B>, e: Event<B>)
    requires Window(p) && Prompt(p)
    ensures Window(Step(p, e, true)) && Prompt(Step(p, e, true))
  {
  }

  lemma {:induction false} RunPrompt<B>(p: Player<B>, events: seq<Event<B>>)
    requires Window(p) && Prompt(p)
    ensures Prompt(Run(p, events, true))
    decreases |events|
  {
    if events != [] {
      StepPrompt(p, events[0]);
      RunPrompt(Step(p, events[0], true), events[1..]);
    }
  }

  /** Corrected: playback has started exactly when five segments have been
      decoded, or the stream has ended and at least one has. */
  lemma {:induction false} StartsWhenReady<B>(events: seq<Event<B>>)
    ensures var r := Run(Initial(), events, true);
      r.started <==> |Decodeds(events)| >= BufferBeforePlay || (Ended(events) && |Decodeds(events)| >= 1)
  {
    var p: Player<B> := Initial();
    RunKeepsOrder(p, events, true);
    RunPrompt(p, events);
    var r := Run(p, events, true);
    assert |r.scheduled + r.pending| == |Decodeds(events)|;
  }

  /** Corrected: once the stream has ended, every decoded segment is scheduled,
      in decoding order. */
  lemma {:induction false} EndedMeansAllScheduled<B>(events: seq<Event<B>>)
    requires Ended(events)
    ensures Run(Initial(), events, true).scheduled == Decodeds(events)
  {
    var p: Player<B> := Initial();
    RunKeepsOrder(p, events, true);
    RunPrompt(p, events);
    var r := Run(p, events, true);
    assert r.scheduled + r.pending == Decodeds(events);
    if |Decodeds(events)| >= 1 {
      assert r.started;
      assert r.pending == [];
      assert r.scheduled + [] == r.scheduled;
    } else {
      assert |r.scheduled| == 0;
    }
  }

  /** Until the stream ends the two versions are the same. */
  lemma {:induction false} SameBeforeEnd<B>(p: Player<B>, events: seq<Event<B>>)
    requires !p.streamEnded && !Ended(events)
    ensures Run(p, events, true) == Run(p, events, false)
    decreases |events|
  {
    if events != [] {
      EndedCons(events);
      SameBeforeEnd(Step(p, events[0], true), events[1..]);
    }
  }

  /** The finding: as written, a single segment whose decoding finishes after the
      stream has ended is held forever and never scheduled. */
  lemma {:induction false} AsWrittenLateSegmentNeverPlays<B>(b: B)
    ensures var r := Run(Initial(), [StreamEnd, Decoded(b)], false);
      !r.started && r.scheduled == [] && r.pending == [b]
    ensures Run(Initial(), [StreamEnd, Decoded(b)], true).scheduled == [b]
  {
    var events: seq<Event<B>> := [StreamEnd, Decoded(b)];
    var p0: Player<B> := Initial();
    var p1 := EndOfStream(p0);
    assert p1 == Player(false, true, [], []);
    assert events[1..] == [Decoded(b)] && events[1..][1..] == [];
    assert Run(p0, events, false) == Run(p1, [Decoded(b)], false) == SubmitAsWritten(p1, b);
    assert SubmitAsWritten(p1, b) == Player(false, true, [b], []);
    assert Run(p0, events, true) == Run(p1, [Decoded(b)], true) == Submit(p1, b);
    assert Submit(p1, b) == Player(true, true, [], [b]);
  }
}
