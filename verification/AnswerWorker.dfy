/** The frame loop of `execute_job`: answer text is buffered and flushed by size, by time and
    before every other event. */
module AnswerWorker {
  import opened Basics
  import opened AnswerStream

  function Join(parts: seq<string>): string {
    if parts == [] then "" else Join(parts[..|parts| - 1]) + parts[|parts| - 1]
  }

  /** The worker's output: everything received is either in the log or still buffered. */
  ghost predicate Faithful(log: seq<Emission>, parts: seq<string>, received: seq<Atom>) {
    Flatten(log) + Chars(Join(parts)) == received
  }

  /** A buffered part is never empty, so an empty buffer and an empty text are the same. */
  ghost predicate Buffer(parts: seq<string>) {
    (forall i :: 0 <= i < |parts| ==> parts[i] != "") && (parts == [] <==> Join(parts) == "")
  }

  /** The log only grew, and the lease was held at every frame it grew by. `holds(n)` says whether the
      lease is still held when the output has `n` frames and the next one is about to be written. */
  ghost predicate Extends(holds: nat -> bool, log: seq<Emission>, log': seq<Emission>) {
    log <= log' && forall n :: |log| <= n < |log'| ==> holds(n)
  }

  lemma {:induction false} OneMore(holds: nat -> bool, log: seq<Emission>, e: Emission)
    requires holds(|log|)
    ensures Extends(holds, log, log + [e])
  {
  }

  lemma {:induction false} AppendPart(parts: seq<string>, part: string)
    requires Buffer(parts) && part != ""
    ensures Join(parts + [part]) == Join(parts) + part
    ensures Buffer(parts + [part])
  {
    assert (parts + [part])[..|parts|] == parts;
  }

  /** Buffering the next chunk of a delta loses nothing. */
  lemma {:induction false} BufferChunk(log: seq<Emission>, parts: seq<string>, received: seq<Atom>, text: string,
                                       start: nat, stop: nat)
    requires start < stop <= |text|
    requires Faithful(log, parts, received + Chars(text[..start])) && Buffer(parts)
    ensures var parts' := parts + [text[start..stop]];
            && Faithful(log, parts', received + Chars(text[..stop]))
            && Buffer(parts')
            && |Join(parts')| == |Join(parts)| + stop - start
  {
    var chunk := text[start..stop];
    AppendPart(parts, chunk);
    assert text[..stop] == text[..start] + chunk;
    calc {
      received + Chars(text[..stop]);
      { CharsConcat(text[..start], chunk); Assoc(received, Chars(text[..start]), Chars(chunk)); }
      (received + Chars(text[..start])) + Chars(chunk);
      (Flatten(log) + Chars(Join(parts))) + Chars(chunk);
      { CharsConcat(Join(parts), chunk); Assoc(Flatten(log), Chars(Join(parts)), Chars(chunk)); }
      Flatten(log) + Chars(Join(parts + [chunk]));
    }
  }

  /** What is in the log after a flush is a prefix of what the whole delta will add. */
  lemma {:induction false} PartialDelta(log: seq<Emission>, parts: seq<string>, received: seq<Atom>, text: string,
                                        stop: nat)
    requires stop <= |text| && Faithful(log, parts, received + Chars(text[..stop]))
    ensures Flatten(log) <= received + Chars(text)
  {
    assert text == text[..stop] + text[stop..];
    calc {
      received + Chars(text);
      { CharsConcat(text[..stop], text[stop..]); Assoc(received, Chars(text[..stop]), Chars(text[stop..])); }
      (received + Chars(text[..stop])) + Chars(text[stop..]);
      (Flatten(log) + Chars(Join(parts))) + Chars(text[stop..]);
    }
  }

  /** Writing the buffer delivers everything received. */
  lemma {:induction false} BufferWritten(log: seq<Emission>, text: string, received: seq<Atom>)
    requires Flatten(log) + Chars(text) == received && WellBatched(log) && 1 <= |text| <= 8191
    ensures var log' := log + [Text(text, TextCount(log) + 1)];
            Flatten(log') == received && TextCount(log') == TextCount(log) + 1 && WellBatched(log')
  {
    AppendEmission(log, Text(text, TextCount(log) + 1));
  }

  lemma {:induction false} NothingBuffered(log: seq<Emission>, received: seq<Atom>)
    requires Faithful(log, [], received)
    ensures Flatten(log) == received
  {
    assert Chars(Join([])) == [];
  }

  /** `flush`: one text frame for the whole buffer, or nothing when it is empty. Without the lease
      nothing is written. */
  method Flush(log: seq<Emission>, parts: seq<string>, sequence: nat, ghost received: seq<Atom>, holds: nat -> bool)
    returns (log': seq<Emission>, parts': seq<string>, sequence': nat, ok: bool)
    requires Faithful(log, parts, received) && Buffer(parts)
    requires sequence == TextCount(log)
    requires WellBatched(log) && |Join(parts)| <= 2 * CHUNK - 1
    ensures ok <==> parts == [] || holds(|log|)
    ensures ok ==> parts' == [] && Flatten(log') == received && sequence' == TextCount(log')
    ensures !ok ==> log' == log
    ensures WellBatched(log') && Extends(holds, log, log')
  {
    log', parts', sequence', ok := log, [], sequence, true;
    if parts == [] {
      NothingBuffered(log, received);
      return;
    }
    var text := Join(parts);
    assert 1 <= |text| <= 8191;
    sequence' := sequence' + 1;
    var frame := Text(text, sequence');
    if !holds(|log|) {
      ok := false;
      return;
    }
    BufferWritten(log, text, received);
    OneMore(holds, log, frame);
    log' := log + [frame];
  }

  /** One answer delta, split into chunks; `due` is the batching timer, read after each chunk. It fails
      only when the lease is gone. */
  method TakeDelta(log: seq<Emission>, parts: seq<string>, sequence: nat, text: string, ghost received: seq<Atom>,
                   holds: nat -> bool)
    returns (log': seq<Emission>, parts': seq<string>, sequence': nat, ok: bool)
    requires sequence == TextCount(log)
    requires Faithful(log, parts, received) && Buffer(parts)
    requires WellBatched(log) && |Join(parts)| < CHUNK
    ensures WellBatched(log') && Flatten(log') <= received + Chars(text)
    ensures ok ==> Faithful(log', parts', received + Chars(text)) && Buffer(parts') && |Join(parts')| < CHUNK
    ensures ok ==> sequence' == TextCount(log')
    ensures !ok ==> !holds(|log'|)
    ensures Extends(holds, log, log')
  {
    log', parts', sequence', ok := log, parts, sequence, true;
    var start := 0;
    assert received + Chars(text[..0]) == received;
    while start < |text|
      invariant 0 <= start <= |text| && ok
      invariant Faithful(log', parts', received + Chars(text[..start])) && Buffer(parts')
      invariant WellBatched(log') && |Join(parts')| < CHUNK && sequence' == TextCount(log')
      invariant Extends(holds, log, log')
    {
      var stop := Min(start + CHUNK, |text|);
      BufferChunk(log', parts', received, text, start, stop);
      parts' := parts' + [text[start..stop]];
      PartialDelta(log', parts', received, text, stop);
      var due: bool := *;
      if |Join(parts')| >= CHUNK || due {
        log', parts', sequence', ok := Flush(log', parts', sequence', received + Chars(text[..stop]), holds);
        if !ok {
          return;
        }
      }
      start := stop;
    }
    assert text[..start] == text;
    PartialDelta(log', parts', received, text, start);
  }

  /** What an optional signal adds for the reader. */
  function SignalAtoms(terminal: Option<Terminal>, signal: Option<Signal>): seq<Atom> {
    if signal.Some? && !IsRepeat(terminal, signal.value) then [Mark(signal.value)] else []
  }

  /** Anything that is not answer text: flush, then emit unless the output already ends so. Emitting
      checks the lease even for such a repeat; it fails only when the lease is gone. */
  method TakeSignal(log: seq<Emission>, parts: seq<string>, sequence: nat, terminal: Option<Terminal>,
                    signal: Option<Signal>, ghost received: seq<Atom>, holds: nat -> bool)
    returns (log': seq<Emission>, parts': seq<string>, sequence': nat, ok: bool)
    requires sequence == TextCount(log)
    requires Faithful(log, parts, received) && Buffer(parts)
    requires WellBatched(log) && |Join(parts)| < CHUNK
    ensures WellBatched(log')
    ensures !ok ==> Flatten(log') <= received && !holds(|log'|)
    ensures ok ==> parts' == [] && Flatten(log') == received + SignalAtoms(terminal, signal)
    ensures ok ==> sequence' == TextCount(log')
    ensures Extends(holds, log, log')
  {
    log', parts', sequence', ok := Flush(log, parts, sequence, received, holds);
    if ok && signal.Some? {
      if !holds(|log'|) {
        ok := false;
        return;
      }
      if !IsRepeat(terminal, signal.value) {
        AppendEmission(log', Sign(signal.value));
        log' := log' + [Sign(signal.value)];
      }
    }
  }

  datatype Outcome = Finished | Stopped

  /** Characters received by frame `i`. */
  lemma {:induction false} CharactersNext(frames: seq<Frame>, i: nat, initial: Option<Terminal>)
    requires i < |frames|
    ensures |TextOf(Visible(frames[..i + 1], initial))|
         == |TextOf(Visible(frames[..i], initial))| + (if frames[i].Delta? then |frames[i].text| else 0)
  {
    VisibleNext(frames, i, initial);
    var atoms := FrameAtoms(frames[i], TerminalAfter(frames[..i], initial));
    TextOfConcat(Visible(frames[..i], initial), atoms);
    if frames[i].Delta? {
      TextOfChars(frames[i].text);
    } else if atoms != [] {
      assert atoms[..0] == [] && atoms[0].Mark?;
    }
  }

  /** The log is a prefix of the whole stream, and so is its text, which is within the limit. */
  ghost predicate IsPartial(frames: seq<Frame>, saved: Option<Signal>, initial: Option<Terminal>, log: seq<Emission>) {
    var all := Visible(Closed(frames, saved), initial);
    && Flatten(log) <= all
    && TextOf(Flatten(log)) <= TextOf(all)
    && |TextOf(Flatten(log))| <= MAX_CHARACTERS
  }

  /** Stopping after frame `k` leaves a prefix of the whole stream. */
  lemma {:induction false} EarlyStop(frames: seq<Frame>, saved: Option<Signal>, initial: Option<Terminal>, k: nat,
                                     log: seq<Emission>)
    requires k <= |frames| && Flatten(log) <= Visible(frames[..k], initial)
    requires |TextOf(Visible(frames[..k], initial))| <= MAX_CHARACTERS
    ensures IsPartial(frames, saved, initial, log)
  {
    var closed := Closed(frames, saved);
    assert closed[..k] == frames[..k];
    VisibleGrows(closed, k, initial);
    TextOfPrefix(Flatten(log), Visible(frames[..k], initial));
    TextOfPrefix(Flatten(log), Visible(closed, initial));
  }

  /** Closing a stream that had not ended appends one frame. */
  lemma {:induction false} OneMoreFrame(frames: seq<Frame>, f: Frame, initial: Option<Terminal>)
    requires !f.Delta?
    ensures Visible(frames + [f], initial) == Visible(frames, initial) + FrameAtoms(f, TerminalAfter(frames, initial))
    ensures |TextOf(Visible(frames + [f], initial))| == |TextOf(Visible(frames, initial))|
  {
    var closed := frames + [f];
    assert closed[..|frames|] == frames && closed[..|frames| + 1] == closed;
    assert closed[|frames|] == f;
    VisibleNext(closed, |frames|, initial);
    CharactersNext(closed, |frames|, initial);
  }

  /** What closing the stream adds. */
  lemma {:induction false} ClosingAdds(frames: seq<Frame>, saved: Option<Signal>, initial: Option<Terminal>,
                                       ended: bool)
    requires ended == PhaseEnded(frames)
    ensures var signal := if ended then None else saved;
            && Visible(Closed(frames, saved), initial) == Visible(frames, initial)
                 + SignalAtoms(TerminalAfter(frames, initial), signal)
            && |TextOf(Visible(Closed(frames, saved), initial))| == |TextOf(Visible(frames, initial))|
  {
    var closed := Closed(frames, saved);
    if !ended && saved.Some? {
      assert closed == frames + [RunFailed(saved)];
      OneMoreFrame(frames, RunFailed(saved), initial);
    } else {
      assert closed == frames;
      assert SignalAtoms(TerminalAfter(frames, initial), None) == [];
    }
  }

  /** The state of the loop before frame `i`. */
  ghost predicate AtFrame(frames: seq<Frame>, initial: Option<Terminal>, i: nat, log: seq<Emission>,
                          parts: seq<string>, sequence: nat, terminal: Option<Terminal>, total: nat, ended: bool)
    requires i <= |frames|
  {
    && Faithful(log, parts, Visible(frames[..i], initial)) && Buffer(parts)
    && WellBatched(log) && |Join(parts)| < CHUNK
    && sequence == TextCount(log)
    && terminal == TerminalAfter(frames[..i], initial)
    && total == |TextOf(Visible(frames[..i], initial))| <= MAX_CHARACTERS
    && ended == PhaseEnded(frames[..i])
    && AllReadable(frames[..i])
  }

  function NextTerminal(terminal: Option<Terminal>, f: Frame): Option<Terminal> {
    if SignalOf(f).Some? then AfterSignal(terminal, SignalOf(f).value) else terminal
  }

  /** Taking frame `i` in full brings the loop to frame `i + 1`. */
  lemma {:induction false} NextFrame(frames: seq<Frame>, initial: Option<Terminal>, i: nat, log: seq<Emission>,
                                     parts: seq<string>, sequence: nat, terminal: Option<Terminal>, total: nat,
                                     ended: bool, log': seq<Emission>, parts': seq<string>, sequence': nat,
                                     total': nat)
    requires i < |frames| && AtFrame(frames, initial, i, log, parts, sequence, terminal, total, ended)
    requires !frames[i].Unreadable?
    requires Faithful(log', parts', Visible(frames[..i], initial) + FrameAtoms(frames[i], terminal))
    requires Buffer(parts') && WellBatched(log') && |Join(parts')| < CHUNK && sequence' == TextCount(log')
    requires total' == total + (if frames[i].Delta? then |frames[i].text| else 0) <= MAX_CHARACTERS
    ensures AtFrame(frames, initial, i + 1, log', parts', sequence', NextTerminal(terminal, frames[i]), total',
                    ended || EndsPhase(frames[i]))
  {
    VisibleNext(frames, i, initial);
    CharactersNext(frames, i, initial);
    assert frames[..i + 1][..i] == frames[..i];
  }

  lemma {:induction false} StoppedInFrame(frames: seq<Frame>, saved: Option<Signal>, initial: Option<Terminal>,
                                          i: nat, log: seq<Emission>, terminal: Option<Terminal>, total: nat)
    requires i < |frames| && terminal == TerminalAfter(frames[..i], initial)
    requires Flatten(log) <= Visible(frames[..i], initial) + FrameAtoms(frames[i], terminal)
    requires total == |TextOf(Visible(frames[..i], initial))| + (if frames[i].Delta? then |frames[i].text| else 0)
    requires total <= MAX_CHARACTERS
    ensures IsPartial(frames, saved, initial, log)
  {
    VisibleNext(frames, i, initial);
    CharactersNext(frames, i, initial);
    EarlyStop(frames, saved, initial, i + 1, log);
  }

  /** Frame `i` cannot be taken: it is unreadable, or its text exceeds the limit. */
  predicate Refuses(frames: seq<Frame>, i: nat, total: nat)
    requires i < |frames|
  {
    frames[i].Unreadable? || (frames[i].Delta? && total + |frames[i].text| > MAX_CHARACTERS)
  }

  /** One frame of the loop. It stops exactly at a frame it refuses, or where the lease is gone. */
  method TakeFrame(frames: seq<Frame>, ghost saved: Option<Signal>, ghost initial: Option<Terminal>, i: nat,
                   log: seq<Emission>, parts: seq<string>, sequence: nat, terminal: Option<Terminal>, total: nat,
                   ended: bool, holds: nat -> bool)
    returns (log': seq<Emission>, parts': seq<string>, sequence': nat, terminal': Option<Terminal>, total': nat,
             ended': bool, ok: bool)
    requires i < |frames| && AtFrame(frames, initial, i, log, parts, sequence, terminal, total, ended)
    ensures ok ==> AtFrame(frames, initial, i + 1, log', parts', sequence', terminal', total', ended')
    ensures !ok ==> WellBatched(log') && IsPartial(frames, saved, initial, log')
    ensures !ok ==> Refuses(frames, i, total) || !holds(|log'|)
    ensures ok ==> !Refuses(frames, i, total)
    ensures Extends(holds, log, log')
  {
    var frame := frames[i];
    ghost var received := Visible(frames[..i], initial);
    assert Flatten(log) <= received;
    EarlyStop(frames, saved, initial, i, log);
    log', parts', sequence', total', ok := log, parts, sequence, total, false;
    terminal', ended' := NextTerminal(terminal, frame), ended || EndsPhase(frame);
    if frame.Delta? {
      total' := total + |frame.text|;
      if total' > MAX_CHARACTERS {
        return;
      }
      log', parts', sequence', ok := TakeDelta(log, parts, sequence, frame.text, received, holds);
    } else if frame.Unreadable? {
      if frame.flushed {
        log', parts', sequence', ok := TakeSignal(log, parts, sequence, terminal, None, received, holds);
        assert Flatten(log') <= received;
        EarlyStop(frames, saved, initial, i, log');
        ok := false;
      }
      return;
    } else {
      log', parts', sequence', ok := TakeSignal(log, parts, sequence, terminal, SignalOf(frame), received, holds);
      assert ok ==> Flatten(log') + Chars(Join(parts')) == Flatten(log');
    }
    if ok {
      NextFrame(frames, initial, i, log, parts, sequence, terminal, total, ended, log', parts', sequence', total');
    } else {
      StoppedInFrame(frames, saved, initial, i, log', terminal, total');
    }
  }

  /** The end of the stream: flush, and close the phase from the saved run if need be. */
  method Close(frames: seq<Frame>, saved: Option<Signal>, initial: Option<Terminal>,
               log: seq<Emission>, parts: seq<string>, sequence: nat, terminal: Option<Terminal>, ghost total: nat,
               ended: bool, holds: nat -> bool)
    returns (log': seq<Emission>, ok: bool)
    requires AtFrame(frames, initial, |frames|, log, parts, sequence, terminal, total, ended)
    ensures WellBatched(log') && IsPartial(frames, saved, initial, log')
    ensures ok ==> Flatten(log') == Visible(Closed(frames, saved), initial)
    ensures !ok ==> !holds(|log'|)
    ensures Extends(holds, log, log')
  {
    assert frames[..|frames|] == frames;
    var closing := if ended then None else saved;
    var parts', sequence';
    log', parts', sequence', ok :=
      TakeSignal(log, parts, sequence, terminal, closing, Visible(frames, initial), holds);
    ClosingAdds(frames, saved, initial, ended);
    if !ok {
      EarlyStop(frames, saved, initial, |frames|, log');
    }
  }

  /** A stream that can be delivered in full: readable, within the limit, and with an end, in the
      stream or in the saved run. */
  ghost predicate Deliverable(frames: seq<Frame>, saved: Option<Signal>) {
    && (forall i :: 0 <= i < |frames| ==> !frames[i].Unreadable?)
    && |Received(frames)| <= 2_000_000
    && (HasEnd(frames) || saved.Some?)
  }

  /** A refused frame makes the whole stream undeliverable. */
  lemma {:induction false} RefusedIsUndeliverable(frames: seq<Frame>, initial: Option<Terminal>,
                                                  saved: Option<Signal>, i: nat, total: nat)
    requires i < |frames| && Refuses(frames, i, total) && total == |TextOf(Visible(frames[..i], initial))|
    ensures !Deliverable(frames, saved)
  {
    if !frames[i].Unreadable? {
      CharactersNext(frames, i, initial);
      VisibleGrows(frames, i + 1, initial);
      TextOfPrefix(Visible(frames[..i + 1], initial), Visible(frames, initial));
      VisibleShows(frames, initial);
    }
  }

  /** A log that is the whole stream, told by the frames alone: all their text and all the signals they
      call for, in the order of the frames. */
  ghost predicate IsWhole(frames: seq<Frame>, saved: Option<Signal>, initial: Option<Terminal>, log: seq<Emission>) {
    && TextOf(Flatten(log)) == Received(frames)
    && SignalsIn(Flatten(log)) == WholeSignals(frames, saved, initial)
    && InStep(Flatten(log), frames, initial)
  }

  lemma {:induction false} ClosedIsWhole(frames: seq<Frame>, saved: Option<Signal>, initial: Option<Terminal>,
                                         log: seq<Emission>)
    requires Flatten(log) == Visible(Closed(frames, saved), initial)
    ensures IsWhole(frames, saved, initial, log)
  {
    ClosedShows(frames, saved, initial);
    ClosedInStep(frames, saved, initial);
  }

  lemma {:induction false} PartialShows(frames: seq<Frame>, saved: Option<Signal>, initial: Option<Terminal>,
                                        log: seq<Emission>)
    requires IsPartial(frames, saved, initial, log)
    ensures TextOf(Flatten(log)) <= Received(frames) && |TextOf(Flatten(log))| <= 2_000_000
    ensures SignalsIn(Flatten(log)) <= WholeSignals(frames, saved, initial)
  {
    ClosedShows(frames, saved, initial);
    SignalsOfPrefix(Flatten(log), Visible(Closed(frames, saved), initial));
  }

  /** The frame loop over one pipeline stream. `initial` is the terminal event the output already
      holds, `saved` the terminal signal of the saved run when the stream ends, and `holds` the lease. */
  method Execute(frames: seq<Frame>, initial: Option<Terminal>, saved: Option<Signal>, holds: nat -> bool)
    returns (log: seq<Emission>, outcome: Outcome)
    // A finished run delivers all the text and every signal the frames call for, whatever the timer did.
    ensures outcome.Finished? ==> IsWhole(frames, saved, initial, log)
    ensures outcome.Finished? ==> Flatten(log) == Visible(Closed(frames, saved), initial)
    // A run that stops early has delivered a prefix of it, of at most 2,000,000 characters.
    ensures TextOf(Flatten(log)) <= Received(frames) && |TextOf(Flatten(log))| <= 2_000_000
    ensures SignalsIn(Flatten(log)) <= WholeSignals(frames, saved, initial)
    ensures Flatten(log) <= Visible(Closed(frames, saved), initial)
    // Text frames are numbered from 1 and bounded.
    ensures WellBatched(log)
    // A finished stream was deliverable; a stopped one was not, or the lease was gone at the next frame.
    ensures outcome.Finished? ==> Deliverable(frames, saved)
    ensures outcome.Stopped? ==> !Deliverable(frames, saved) || !holds(|log|)
    // Every frame was written under the lease.
    ensures Extends(holds, [], log)
  {
    log, outcome := [], Stopped;
    var parts: seq<string> := [];
    var sequence: nat, total: nat, terminal, ended, ok := 0, 0, initial, false, true;
    var i := 0;
    while i < |frames|
      invariant 0 <= i <= |frames|
      invariant AtFrame(frames, initial, i, log, parts, sequence, terminal, total, ended)
      invariant Extends(holds, [], log)
    {
      ghost var before := total;
      log, parts, sequence, terminal, total, ended, ok :=
        TakeFrame(frames, saved, initial, i, log, parts, sequence, terminal, total, ended, holds);
      if !ok {
        if Refuses(frames, i, before) {
          RefusedIsUndeliverable(frames, initial, saved, i, before);
        }
        PartialShows(frames, saved, initial, log);
        return;
      }
      i := i + 1;
    }
    assert frames[..i] == frames;
    log, ok := Close(frames, saved, initial, log, parts, sequence, terminal, total, ended, holds);
    PartialShows(frames, saved, initial, log);
    assert ended <==> HasEnd(frames) by {
      PhaseEndedIff(frames);
    }
    if ok && (ended || saved.Some?) {
      outcome := Finished;
      ClosedIsWhole(frames, saved, initial, log);
      assert Deliverable(frames, saved) by {
        AllReadableIff(frames);
        VisibleShows(frames, initial);
      }
    }
  }
}
