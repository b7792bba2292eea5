/** What a reader of a durable run can observe, independently of how answer text is batched. */
module AnswerStream {
  import opened Basics

  datatype Terminal = Completed | Failed | Cancelled | Interrupted

  /** Everything in the stream that is not answer text. */
  datatype Signal =
    | End(kind: Terminal, body: nat)
    | Resumed(body: nat)
    | Progress(name: nat, body: nat)

  /** A frame produced by the answer pipeline. `Unreadable` is any frame whose parsing or
      validation raises, before or after the buffer is flushed for it; `RunFailed` carries the
      terminal signal of the saved run when the run turns out to be completed, waiting or cancelled at that point. */
  datatype Frame =
    | Delta(text: string)
    | Unreadable(flushed: bool)
    | RunError
    | RunFailed(saved: Option<Signal>)
    | Other(signal: Signal)

  /** A durable output frame. */
  datatype Emission = Text(delta: string, sequence: nat) | Sign(signal: Signal)

  /** Streams are compared atom by atom, so that two logs are equal exactly when they agree
      once neighbouring text frames are merged. */
  datatype Atom = Char(c: char) | Mark(signal: Signal)

  function Chars(s: string): (r: seq<Atom>)
    ensures |r| == |s|
    ensures forall i :: 0 <= i < |s| ==> r[i] == Char(s[i])
  {
    seq(|s|, i requires 0 <= i < |s| => Char(s[i]))
  }

  function AtomsOf(e: Emission): seq<Atom> {
    match e
    case Text(delta, _) => Chars(delta)
    case Sign(signal) => [Mark(signal)]
  }

  function Flatten(log: seq<Emission>): seq<Atom> {
    if log == [] then [] else Flatten(log[..|log| - 1]) + AtomsOf(log[|log| - 1])
  }

  /** The text among some atoms. */
  function TextOf(atoms: seq<Atom>): string {
    if atoms == [] then []
    else
      var last := atoms[|atoms| - 1];
      TextOf(atoms[..|atoms| - 1]) + (if last.Char? then [last.c] else [])
  }

  /** `emit` drops a terminal signal that the output already ends with; a resumption reopens it. */
  function AfterSignal(terminal: Option<Terminal>, signal: Signal): Option<Terminal> {
    match signal
    case End(kind, _) => Some(kind)
    case Resumed(_) => None
    case Progress(_, _) => terminal
  }

  predicate IsRepeat(terminal: Option<Terminal>, signal: Signal) {
    signal.End? && terminal == Some(signal.kind)
  }

  const FAILURE := End(Failed, 0)

  /** The signal a frame stands for, if any. */
  function SignalOf(f: Frame): Option<Signal> {
    match f
    case RunFailed(saved) => if saved.Some? then saved else Some(FAILURE)
    case Other(signal) => Some(signal)
    case _ => None
  }

  /** The output's terminal state after some frames. */
  function TerminalAfter(frames: seq<Frame>, initial: Option<Terminal>): Option<Terminal> {
    if frames == [] then initial
    else
      var before := TerminalAfter(frames[..|frames| - 1], initial);
      var signal := SignalOf(frames[|frames| - 1]);
      if signal.Some? then AfterSignal(before, signal.value) else before
  }

  /** What one frame adds for the reader: its text, or its signal unless that is a repeat.
      Errors are internal and add nothing. */
  function FrameAtoms(f: Frame, terminal: Option<Terminal>): seq<Atom> {
    if f.Delta? then Chars(f.text)
    else if SignalOf(f).Some? && !IsRepeat(terminal, SignalOf(f).value) then [Mark(SignalOf(f).value)]
    else []
  }

  /** The stream as the pipeline produced it. */
  function Visible(frames: seq<Frame>, initial: Option<Terminal>): seq<Atom> {
    if frames == [] then []
    else
      var before := frames[..|frames| - 1];
      Visible(before, initial) + FrameAtoms(frames[|frames| - 1], TerminalAfter(before, initial))
  }

  // -------------------------------------------------------------- the stream, frame by frame

  /** The answer text of some frames. */
  function Received(frames: seq<Frame>): string {
    if frames == [] then []
    else
      var last := frames[|frames| - 1];
      Received(frames[..|frames| - 1]) + (if last.Delta? then last.text else [])
  }

  /** The signals some frames call for, in order: what a failed run turns out to be, or else its
      failure, and every other control frame itself. */
  function Announced(frames: seq<Frame>): seq<Signal> {
    if frames == [] then []
    else
      Announced(frames[..|frames| - 1]) +
      match frames[|frames| - 1]
      case Delta(_) => []
      case Unreadable(_) => []
      case RunError => []
      case RunFailed(Some(signal)) => [signal]
      case RunFailed(None) => [End(Failed, 0)]
      case Other(signal) => [signal]
  }

  /** How the output stands after some signals: its last one that is not progress tells. */
  function Standing(signals: seq<Signal>, initial: Option<Terminal>): Option<Terminal> {
    if signals == [] then initial
    else
      match signals[|signals| - 1]
      case End(kind, _) => Some(kind)
      case Resumed(_) => None
      case Progress(_, _) => Standing(signals[..|signals| - 1], initial)
  }

  /** An end is left out when the output already stands at an end of its kind; nothing else is. */
  function Kept(signals: seq<Signal>, initial: Option<Terminal>): seq<Signal> {
    if signals == [] then []
    else
      var before, last := signals[..|signals| - 1], signals[|signals| - 1];
      Kept(before, initial) + (if last.End? && Standing(before, initial) == Some(last.kind) then [] else [last])
  }

  /** The signals among some atoms. */
  function SignalsIn(atoms: seq<Atom>): seq<Signal> {
    if atoms == [] then []
    else
      var last := atoms[|atoms| - 1];
      SignalsIn(atoms[..|atoms| - 1]) + (if last.Mark? then [last.signal] else [])
  }

  /** The atoms hold the text of the frames and the signals they call for, each in order. */
  ghost predicate Shows(atoms: seq<Atom>, frames: seq<Frame>, initial: Option<Terminal>) {
    TextOf(atoms) == Received(frames) && SignalsIn(atoms) == Kept(Announced(frames), initial)
  }

  lemma {:induction false} SignalsConcat(a: seq<Atom>, b: seq<Atom>)
    ensures SignalsIn(a + b) == SignalsIn(a) + SignalsIn(b)
    decreases |b|
  {
    if b == [] {
      assert a + b == a;
    } else {
      var n := |a + b| - 1;
      assert (a + b)[..n] == a + b[..|b| - 1];
      SignalsConcat(a, b[..|b| - 1]);
    }
  }

  lemma {:induction false} CharsAreText(s: string)
    ensures TextOf(Chars(s)) == s && SignalsIn(Chars(s)) == []
  {
    TextOfChars(s);
    if s != [] {
      assert Chars(s)[..|s| - 1] == Chars(s[..|s| - 1]);
      CharsAreText(s[..|s| - 1]);
    }
  }

  lemma {:induction false} MarkIsSignal(signal: Signal)
    ensures TextOf([Mark(signal)]) == [] && SignalsIn([Mark(signal)]) == [signal]
  {
    assert [Mark(signal)][..0] == [];
  }

  /** What a frame calls for, if it is a control frame. */
  lemma {:induction false} AnnouncedNext(frames: seq<Frame>)
    requires frames != []
    ensures var before, signal := frames[..|frames| - 1], SignalOf(frames[|frames| - 1]);
            Announced(frames) == if signal.Some? then Announced(before) + [signal.value] else Announced(before)
  {
    assert Announced(frames[..|frames| - 1]) + [] == Announced(frames[..|frames| - 1]);
  }

  lemma {:induction false} StandingNext(signals: seq<Signal>, signal: Signal, initial: Option<Terminal>)
    ensures Standing(signals + [signal], initial) == AfterSignal(Standing(signals, initial), signal)
  {
    assert (signals + [signal])[..|signals|] == signals;
  }

  /** The output stands where the signals called for leave it. */
  lemma {:induction false} StandsThere(frames: seq<Frame>, initial: Option<Terminal>)
    ensures TerminalAfter(frames, initial) == Standing(Announced(frames), initial)
  {
    if frames != [] {
      var before, signal := frames[..|frames| - 1], SignalOf(frames[|frames| - 1]);
      StandsThere(before, initial);
      AnnouncedNext(frames);
      if signal.Some? {
        StandingNext(Announced(before), signal.value, initial);
      }
    }
  }

  lemma {:induction false} KeptNext(signals: seq<Signal>, signal: Signal, initial: Option<Terminal>)
    ensures Kept(signals + [signal], initial) == Kept(signals, initial)
              + (if signal.End? && Standing(signals, initial) == Some(signal.kind) then [] else [signal])
  {
    assert (signals + [signal])[..|signals|] == signals;
  }

  lemma {:induction false} SignalShows(signals: seq<Signal>, signal: Signal, initial: Option<Terminal>)
    ensures Kept(signals + [signal], initial) == Kept(signals, initial)
              + SignalsIn(if IsRepeat(Standing(signals, initial), signal) then [] else [Mark(signal)])
  {
    KeptNext(signals, signal, initial);
    MarkIsSignal(signal);
  }

  /** What one frame adds is its text, and its signal unless that is left out. */
  lemma {:induction false} FrameShows(frames: seq<Frame>, initial: Option<Terminal>)
    requires frames != []
    ensures var before := frames[..|frames| - 1];
            var added := FrameAtoms(frames[|frames| - 1], TerminalAfter(before, initial));
            && Received(frames) == Received(before) + TextOf(added)
            && Kept(Announced(frames), initial) == Kept(Announced(before), initial) + SignalsIn(added)
  {
    var before, f := frames[..|frames| - 1], frames[|frames| - 1];
    AnnouncedNext(frames);
    if f.Delta? {
      CharsAreText(f.text);
    } else if SignalOf(f).Some? {
      StandsThere(before, initial);
      MarkIsSignal(SignalOf(f).value);
      SignalShows(Announced(before), SignalOf(f).value, initial);
    }
  }

  /** The stream as produced shows exactly the frames. */
  lemma {:induction false} VisibleShows(frames: seq<Frame>, initial: Option<Terminal>)
    ensures Shows(Visible(frames, initial), frames, initial)
  {
    if frames != [] {
      var before := frames[..|frames| - 1];
      var added := FrameAtoms(frames[|frames| - 1], TerminalAfter(before, initial));
      VisibleShows(before, initial);
      FrameShows(frames, initial);
      TextOfConcat(Visible(before, initial), added);
      SignalsConcat(Visible(before, initial), added);
    }
  }

  // -------------------------------------------------------------- the end of the stream

  /** The frames that end a phase of the run. */
  predicate EndsPhase(f: Frame) {
    f.RunFailed? || (f.Other? && f.signal.End?)
  }

  predicate PhaseEnded(frames: seq<Frame>) {
    frames != [] && (PhaseEnded(frames[..|frames| - 1]) || EndsPhase(frames[|frames| - 1]))
  }

  predicate AllReadable(frames: seq<Frame>) {
    frames != [] ==> AllReadable(frames[..|frames| - 1]) && !frames[|frames| - 1].Unreadable?
  }

  /** Some frame says that the run failed, or how it ended. */
  ghost predicate HasEnd(frames: seq<Frame>) {
    exists i :: 0 <= i < |frames| && (frames[i].RunFailed? || (frames[i].Other? && frames[i].signal.End?))
  }

  lemma {:induction false} PhaseEndedIff(frames: seq<Frame>)
    ensures PhaseEnded(frames) <==> HasEnd(frames)
  {
    if frames != [] {
      var n := |frames| - 1;
      PhaseEndedIff(frames[..n]);
      assert forall i :: 0 <= i < n ==> frames[..n][i] == frames[i];
    }
  }

  lemma {:induction false} AllReadableIff(frames: seq<Frame>)
    ensures AllReadable(frames) <==> forall i :: 0 <= i < |frames| ==> !frames[i].Unreadable?
  {
    if frames != [] {
      var n := |frames| - 1;
      AllReadableIff(frames[..n]);
      assert forall i :: 0 <= i < n ==> frames[..n][i] == frames[i];
    }
  }

  /** A stream that ends without ending its phase is closed from the saved run. */
  function Closed(frames: seq<Frame>, saved: Option<Signal>): seq<Frame> {
    if PhaseEnded(frames) || saved.None? then frames else frames + [RunFailed(saved)]
  }

  /** The signals of the whole stream: those the frames call for, and the saved run's when no frame
      tells the end. */
  ghost function WholeSignals(frames: seq<Frame>, saved: Option<Signal>, initial: Option<Terminal>): seq<Signal> {
    Kept(Announced(frames) + (if HasEnd(frames) || saved.None? then [] else [saved.value]), initial)
  }

  lemma {:induction false} ClosedShows(frames: seq<Frame>, saved: Option<Signal>, initial: Option<Terminal>)
    ensures TextOf(Visible(Closed(frames, saved), initial)) == Received(frames)
    ensures SignalsIn(Visible(Closed(frames, saved), initial)) == WholeSignals(frames, saved, initial)
  {
    var closed := Closed(frames, saved);
    VisibleShows(closed, initial);
    PhaseEndedIff(frames);
    if closed == frames {
      assert Announced(frames) + [] == Announced(frames);
    } else {
      assert closed[..|frames|] == frames;
    }
  }

  /** The whole stream shows every part of the frames before the next one: nothing overtakes. */
  ghost predicate InStep(atoms: seq<Atom>, frames: seq<Frame>, initial: Option<Terminal>) {
    forall k :: 0 <= k <= |frames| ==> exists n :: 0 <= n <= |atoms| && Shows(atoms[..n], frames[..k], initial)
  }

  lemma {:induction false} ClosedInStep(frames: seq<Frame>, saved: Option<Signal>, initial: Option<Terminal>)
    ensures InStep(Visible(Closed(frames, saved), initial), frames, initial)
  {
    var closed := Closed(frames, saved);
    var atoms := Visible(closed, initial);
    forall k | 0 <= k <= |frames|
      ensures exists n :: 0 <= n <= |atoms| && Shows(atoms[..n], frames[..k], initial)
    {
      assert closed[..k] == frames[..k];
      VisibleGrows(closed, k, initial);
      VisibleShows(frames[..k], initial);
      var n := |Visible(frames[..k], initial)|;
      assert atoms[..n] == Visible(frames[..k], initial);
    }
  }

  lemma {:induction false} SignalsOfPrefix(a: seq<Atom>, b: seq<Atom>)
    requires a <= b
    ensures SignalsIn(a) <= SignalsIn(b)
  {
    assert b == a + b[|a|..];
    SignalsConcat(a, b[|a|..]);
  }

  function TextCount(log: seq<Emission>): nat {
    if log == [] then 0
    else TextCount(log[..|log| - 1]) + (if log[|log| - 1].Text? then 1 else 0)
  }

  const CHUNK := 4096
  const MAX_CHARACTERS := 2_000_000

  /** Text frames are numbered 1, 2, ... and hold between 1 and 8191 characters. */
  ghost predicate WellBatched(log: seq<Emission>) {
    forall i :: 0 <= i < |log| && log[i].Text? ==>
      && log[i].sequence == TextCount(log[..i]) + 1
      && 1 <= |log[i].delta| <= 8191
  }

  lemma {:induction false} AppendEmission(log: seq<Emission>, e: Emission)
    ensures Flatten(log + [e]) == Flatten(log) + AtomsOf(e)
    ensures TextCount(log + [e]) == TextCount(log) + (if e.Text? then 1 else 0)
    ensures WellBatched(log) && (e.Text? ==> e.sequence == TextCount(log) + 1 && 1 <= |e.delta| <= 2 * CHUNK - 1)
        ==> WellBatched(log + [e])
  {
    var longer := log + [e];
    assert longer[..|log|] == log;
    assert forall i :: 0 <= i < |log| ==> longer[..i] == log[..i];
  }

  lemma {:induction false} VisibleNext(frames: seq<Frame>, i: nat, initial: Option<Terminal>)
    requires i < |frames|
    ensures Visible(frames[..i + 1], initial)
         == Visible(frames[..i], initial) + FrameAtoms(frames[i], TerminalAfter(frames[..i], initial))
    ensures TerminalAfter(frames[..i + 1], initial)
         == if SignalOf(frames[i]).Some?
            then AfterSignal(TerminalAfter(frames[..i], initial), SignalOf(frames[i]).value)
            else TerminalAfter(frames[..i], initial)
  {
    assert frames[..i + 1][..i] == frames[..i];
  }

  /** The stream only ever grows at its end. */
  lemma {:induction false} VisibleGrows(frames: seq<Frame>, i: nat, initial: Option<Terminal>)
    requires i <= |frames|
    ensures Visible(frames[..i], initial) <= Visible(frames, initial)
    decreases |frames| - i
  {
    if i < |frames| {
      VisibleNext(frames, i, initial);
      VisibleGrows(frames, i + 1, initial);
    } else {
      assert frames[..i] == frames;
    }
  }

  lemma {:induction false} TextOfConcat(a: seq<Atom>, b: seq<Atom>)
    ensures TextOf(a + b) == TextOf(a) + TextOf(b)
    decreases |b|
  {
    if b == [] {
      assert a + b == a;
    } else {
      var n := |a + b| - 1;
      assert (a + b)[..n] == a + b[..|b| - 1];
      TextOfConcat(a, b[..|b| - 1]);
    }
  }

  lemma {:induction false} TextOfPrefix(a: seq<Atom>, b: seq<Atom>)
    requires a <= b
    ensures TextOf(a) <= TextOf(b)
  {
    assert b == a + b[|a|..];
    TextOfConcat(a, b[|a|..]);
  }

  lemma {:induction false} Assoc(a: seq<Atom>, b: seq<Atom>, c: seq<Atom>)
    ensures (a + b) + c == a + (b + c)
  {
  }

  lemma {:induction false} CharsConcat(a: string, b: string)
    ensures Chars(a + b) == Chars(a) + Chars(b)
  {
  }

  lemma {:induction false} TextOfChars(s: string)
    ensures TextOf(Chars(s)) == s
  {
    if s != [] {
      assert Chars(s)[..|s| - 1] == Chars(s[..|s| - 1]);
      TextOfChars(s[..|s| - 1]);
    }
  }
}
