/** One direct-upload admission: complete, abort, refresh and file cleanup race through
    compare-and-set updates, with a program counter for every caller. */
module Uploads {
  import opened Basics

  datatype Status = Pending | Verifying | Completed | Aborted

  /** The reserved original the upload is going to be sealed into. */
  datatype File = Reserved(until: int) | Ready | DeletePending | Deleted

  datatype Reply = Document | NoContent | Refused

  /** Where a caller stands. `Claimed` is the verifying section, `Raising` the exception handler
      that follows it; `AbortRead` remembers the status the abort call had read. */
  datatype Caller =
    | Out
    | CompleteRead
    | Claimed
    | Raising
    | AbortRead(seen: Status)
    | Returned(reply: Reply)

  /** `lag` is the time between the two clock readings of the refresh that set `signedUntil`. */
  datatype State = State(now: int, status: Status, file: File, expiresAt: int, signedUntil: int, lag: nat,
                         document: Option<nat>, created: set<nat>, callers: map<nat, Caller>)

  datatype Event =
    | Tick(elapsed: nat)
    | BeginComplete(c: nat)
    | TryClaim(c: nat)
    | Finish(c: nat, doc: nat)
    | Raise(c: nat)
    | Restore(c: nat)
    | BeginAbort(c: nat)
    | TryAbort(c: nat)
    | Refresh(lag: nat)
    | RevokeFile
    | EraseFile
    | Crash(c: nat)

  /** Clock readings are in microseconds. */
  const TICKS := 1_000_000
  const URL_SECONDS := 600
  const ADMISSION_SECONDS := 3600

  function CallerAt(s: State, c: nat): Caller {
    if c in s.callers then s.callers[c] else Out
  }

  function Go(s: State, c: nat, k: Caller): State {
    s.(callers := s.callers[c := k])
  }

  /** Admission: one hour to upload and finalise, for both the session and the reservation. */
  function Admitted(now: int): State {
    State(now, Pending, Reserved(now + ADMISSION_SECONDS * TICKS), now + ADMISSION_SECONDS * TICKS, now, 0, None, {},
          map[])
  }

  /** Finalising needs a live reservation, checked again under a lock; a new document has a new
      id. Refreshing needs a pending, unexpired session with at least one second left. */
  predicate Enabled(s: State, e: Event) {
    match e
    case BeginComplete(c) => CallerAt(s, c).Out? || CallerAt(s, c).Returned?
    case BeginAbort(c) => CallerAt(s, c).Out? || CallerAt(s, c).Returned?
    case TryClaim(c) => CallerAt(s, c).CompleteRead?
    case Finish(c, doc) =>
      CallerAt(s, c).Claimed? && s.file.Reserved? && s.now < s.file.until && doc !in s.created
    case Raise(c) => CallerAt(s, c).Claimed?
    case Restore(c) => CallerAt(s, c).Raising?
    case TryAbort(c) => CallerAt(s, c).AbortRead?
    case Refresh(_) => s.status.Pending? && s.file.Reserved? && Lifetime(s) >= 1
    case RevokeFile => s.file.Reserved? || s.file.Ready?
    case EraseFile => s.file.DeletePending?
    case _ => true
  }

  /** How many whole seconds a refreshed URL is signed for, from the first reading. */
  function Lifetime(s: State): int {
    Min(URL_SECONDS, (s.expiresAt - s.now) / TICKS)
  }

  function Step(s: State, e: Event): State
    requires Enabled(s, e)
  {
    match e
    case Tick(elapsed) => s.(now := s.now + elapsed)
    case BeginComplete(c) =>
      Go(s, c, if s.status.Completed? then Returned(Document)
               else if s.status.Aborted? || s.expiresAt <= s.now || !s.status.Pending? then Returned(Refused)
               else CompleteRead)
    case TryClaim(c) =>
      if s.status.Pending? then Go(s, c, Claimed).(status := Verifying) else Go(s, c, Returned(Refused))
    case Finish(c, doc) =>
      Go(s, c, Returned(Document)).(status := Completed, document := Some(doc), file := Ready,
                                    created := s.created + {doc})
    case Raise(c) => Go(s, c, Raising)
    case Restore(c) =>
      Go(s, c, Returned(Refused)).(status := if s.status.Verifying? then Pending else s.status)
    case BeginAbort(c) =>
      Go(s, c, if s.status.Verifying? || s.status.Completed? then Returned(Refused) else AbortRead(s.status))
    case TryAbort(c) =>
      if s.status.Pending? then
        Go(s, c, Returned(NoContent)).(status := Aborted,
                                       file := if s.file.Reserved? || s.file.Ready? then DeletePending else s.file)
      else Go(s, c, Returned(if CallerAt(s, c).seen.Aborted? then NoContent else Refused))
    case Refresh(lag) =>
      s.(now := s.now + lag, signedUntil := s.now + lag + Lifetime(s) * TICKS, lag := lag)
    case RevokeFile => s.(file := DeletePending)
    case EraseFile => s.(file := Deleted)
    case Crash(c) => Go(s, c, Out)
  }

  /** The callers between the claim and its resolution. */
  predicate InSection(k: Caller) {
    k.Claimed? || k.Raising?
  }

  ghost predicate CallerSound(s: State, k: Caller) {
    && (InSection(k) ==> s.status.Verifying?)
    && (k == Returned(Document) ==> s.status.Completed?)
    && (k == Returned(NoContent) ==> s.status.Aborted?)
    && (k == AbortRead(Aborted) ==> s.status.Aborted?)
    && (k.AbortRead? ==> k.seen.Pending? || k.seen.Aborted?)
  }

  ghost predicate Inv(s: State) {
    && (forall c :: c in s.callers ==> CallerSound(s, s.callers[c]))
    && (forall c, d :: c in s.callers && d in s.callers && InSection(s.callers[c]) && InSection(s.callers[d]) ==>
          c == d)
    && (s.status.Completed? <==> s.document.Some?)
    && s.created == (if s.document.Some? then {s.document.value} else {})
    && (s.file.Ready? ==> s.status.Completed?)
    && (s.status.Completed? ==> !s.file.Reserved?)
    && (s.status.Aborted? ==> s.file.DeletePending? || s.file.Deleted?)
    && s.signedUntil <= s.expiresAt + s.lag
  }

  lemma {:induction false} StepKeepsInv(s: State, e: Event)
    requires Inv(s) && Enabled(s, e)
    ensures Inv(Step(s, e))
  {
    var s' := Step(s, e);
    forall c | c in s'.callers ensures CallerSound(s', s'.callers[c]) {
      if c in s.callers {
        assert CallerSound(s, s.callers[c]);
      }
      if e.TryClaim? || e.Finish? || e.Raise? || e.Restore? || e.TryAbort? {
        assert e.c in s.callers && CallerSound(s, s.callers[e.c]);
      }
    }
  }

  predicate Possible(s: State, events: seq<Event>)
    decreases |events|
  {
    events == [] || (Enabled(s, events[0]) && Possible(Step(s, events[0]), events[1..]))
  }

  function Run(s: State, events: seq<Event>): State
    requires Possible(s, events)
    decreases |events|
  {
    if events == [] then s else Run(Step(s, events[0]), events[1..])
  }

  lemma {:induction false} RunKeepsInv(s: State, events: seq<Event>)
    requires Inv(s) && Possible(s, events)
    ensures Inv(Run(s, events))
    decreases |events|
  {
    if events != [] {
      StepKeepsInv(s, events[0]);
      RunKeepsInv(Step(s, events[0]), events[1..]);
    }
  }

  /** Over every interleaving at most one document is created, and only by a completed upload;
      at most one caller is in the verifying section; a caller is told that the upload is
      finished or cancelled only when it is; a file becomes readable only by completing; and the
      recorded end of a signed URL passes the admission's by no more than the refresh took. */
  lemma {:induction false} UploadIsExclusive(now: int, events: seq<Event>)
    requires Possible(Admitted(now), events)
    ensures var s := Run(Admitted(now), events);
            && |s.created| <= 1
            && (s.status.Completed? <==> s.document.Some?)
            && (s.document.Some? <==> s.created != {})
            && (s.document.Some? ==> s.created == {s.document.value})
            && (forall c, d :: c in s.callers && d in s.callers && InSection(s.callers[c]) && InSection(s.callers[d])
                  ==> c == d)
            && (forall c :: c in s.callers && InSection(s.callers[c]) ==> s.status.Verifying?)
            && (forall c :: c in s.callers && s.callers[c] == Returned(Document) ==> s.status.Completed?)
            && (forall c :: c in s.callers && s.callers[c] == Returned(NoContent) ==> s.status.Aborted?)
            && (s.file.Ready? ==> s.status.Completed?)
            && s.signedUntil <= s.expiresAt + s.lag
  {
    RunKeepsInv(Admitted(now), events);
    var s := Run(Admitted(now), events);
    forall c | c in s.callers ensures CallerSound(s, s.callers[c]) {
    }
  }

  /** The lifetime is measured from one clock reading, cut to whole seconds, and counted from a later
      reading. The recorded end stays within the admission exactly when, with a full lifetime left, the
      refresh still leaves one, or otherwise it took no longer than the fraction of a second cut off. */
  lemma {:induction false} SignedWithinIff(s: State, lag: nat)
    requires Enabled(s, Refresh(lag))
    ensures Step(s, Refresh(lag)).signedUntil <= s.expiresAt <==>
              if s.expiresAt - s.now >= 600_000_000 then s.now + lag + 600_000_000 <= s.expiresAt
              else lag <= (s.expiresAt - s.now) % 1_000_000
    ensures Step(s, Refresh(lag)).signedUntil <= s.expiresAt + lag
  {
    var left := s.expiresAt - s.now;
    assert left == left / TICKS * TICKS + left % TICKS;
  }

  /** A URL is signed anew exactly for a pending upload that still has its reservation and at least a
      second left; the refresh changes nothing but the recorded end. */
  lemma {:induction false} RefreshIff(s: State, lag: nat)
    ensures Enabled(s, Refresh(lag)) <==>
              s.status == Pending && s.file.Reserved? && s.now + 1_000_000 <= s.expiresAt
    ensures Enabled(s, Refresh(lag)) ==>
              var s' := Step(s, Refresh(lag));
              s' == s.(now := s.now + lag, signedUntil := s'.signedUntil, lag := lag)
  {
  }

  /** With 30.5 seconds left, a refresh that takes 0.6 seconds records an end 0.1 seconds too late; one
      that takes a millisecond stays within. */
  lemma {:induction false} SignedPastTheEnd()
    ensures var s := Step(Admitted(0), Tick(3_569_500_000));
            && Enabled(s, Refresh(600_000)) && Step(s, Refresh(600_000)).signedUntil == s.expiresAt + 100_000
            && Enabled(s, Refresh(1_000)) && Step(s, Refresh(1_000)).signedUntil < s.expiresAt
  {
    var s := Step(Admitted(0), Tick(3_569_500_000));
    assert s.expiresAt - s.now == 30_500_000;
    assert 30_500_000 / TICKS == 30;
  }

  lemma {:induction false} FinalStep(s: State, e: Event)
    requires Inv(s) && Enabled(s, e) && (s.status.Completed? || s.status.Aborted?)
    ensures Step(s, e).status == s.status && Step(s, e).document == s.document
    ensures Step(s, e).created == s.created
    ensures s.status.Aborted? ==> !Step(s, e).file.Ready?
  {
    assert forall c :: c in s.callers ==> CallerSound(s, s.callers[c]);
  }

  /** Completed and aborted are final, and an aborted upload's file never becomes readable. */
  lemma {:induction false} OutcomeIsFinal(s: State, events: seq<Event>)
    requires Inv(s) && Possible(s, events) && (s.status.Completed? || s.status.Aborted?)
    ensures Run(s, events).status == s.status && Run(s, events).document == s.document
    ensures Run(s, events).created == s.created
    ensures s.status.Aborted? ==> !Run(s, events).file.Ready?
    decreases |events|
  {
    if events != [] {
      StepKeepsInv(s, events[0]);
      FinalStep(s, events[0]);
      OutcomeIsFinal(Step(s, events[0]), events[1..]);
    }
  }

  // -------------------------------------------------------------- calls that nobody disturbs

  predicate Free(s: State, c: nat) {
    CallerAt(s, c).Out? || CallerAt(s, c).Returned?
  }

  /** A complete call that nobody disturbs finishes a pending upload exactly when the admission has not
      run out; the reservation, checked later, must still be live. */
  lemma {:induction false} CompleteSucceeds(s: State, c: nat, doc: nat)
    requires Inv(s) && s.status.Pending? && Free(s, c)
    ensures var read := Step(s, BeginComplete(c));
            if s.expiresAt <= s.now then read == Go(s, c, Returned(Refused))
            else
              && Enabled(read, TryClaim(c))
              && var claimed := Step(read, TryClaim(c));
                 && (Enabled(claimed, Finish(c, doc)) <==> s.file.Reserved? && s.now < s.file.until)
                 && (Enabled(claimed, Finish(c, doc)) ==>
                       var done := Step(claimed, Finish(c, doc));
                       && done.status.Completed? && done.document == Some(doc) && done.file.Ready?
                       && CallerAt(done, c) == Returned(Document))
  {
  }

  /** An abort call that nobody disturbs cancels a pending upload and sends its file to be deleted. */
  lemma {:induction false} AbortSucceeds(s: State, c: nat)
    requires Inv(s) && s.status.Pending? && Free(s, c)
    ensures var read := Step(s, BeginAbort(c));
            && Enabled(read, TryAbort(c))
            && var done := Step(read, TryAbort(c));
               && done.status.Aborted? && CallerAt(done, c) == Returned(NoContent) && done.document.None?
               && done.file == (if s.file.Reserved? then DeletePending else s.file)
               && !done.file.Reserved? && !done.file.Ready?
  {
  }

  /** Once the outcome is known, every later call is told it: the document or a conflict after a
      completion, a conflict or success after an abort. */
  lemma {:induction false} LaterCallsAreTold(s: State, c: nat)
    requires Inv(s) && Free(s, c)
    ensures s.status.Completed? ==>
              && Step(s, BeginComplete(c)) == Go(s, c, Returned(Document))
              && Step(s, BeginAbort(c)) == Go(s, c, Returned(Refused))
    ensures s.status.Aborted? ==>
              && Step(s, BeginComplete(c)) == Go(s, c, Returned(Refused))
              && Enabled(Step(s, BeginAbort(c)), TryAbort(c))
              && CallerAt(Step(Step(s, BeginAbort(c)), TryAbort(c)), c) == Returned(NoContent)
  {
  }

  /** A failed finalisation hands the upload back as pending. */
  lemma {:induction false} FailureRestoresPending(s: State, c: nat)
    requires Inv(s) && Enabled(s, Restore(c))
    ensures Step(s, Restore(c)).status == Pending && Step(s, Restore(c)).document.None?
    ensures Step(s, Restore(c)).file == s.file && CallerAt(Step(s, Restore(c)), c) == Returned(Refused)
  {
    assert CallerSound(s, s.callers[c]);
  }

  predicate Stranded(s: State) {
    s.status.Verifying? && forall c :: c in s.callers ==> !InSection(s.callers[c])
  }

  /** A crash inside the verifying section strands the upload. */
  lemma {:induction false} CrashStrands(s: State, c: nat)
    requires Inv(s) && InSection(CallerAt(s, c))
    ensures Enabled(s, Crash(c)) && Stranded(Step(s, Crash(c)))
  {
    assert CallerSound(s, s.callers[c]);
  }

  /** Such a crash can happen: read, claim, die. */
  lemma {:induction false} StrandingRun(now: int, c: nat) returns (events: seq<Event>)
    ensures Possible(Admitted(now), events) && Stranded(Run(Admitted(now), events))
  {
    var s0 := Admitted(now);
    var s1 := Step(s0, BeginComplete(c));
    var s2 := Step(s1, TryClaim(c));
    var s3 := Step(s2, Crash(c));
    StepKeepsInv(s0, BeginComplete(c));
    StepKeepsInv(s1, TryClaim(c));
    CrashStrands(s2, c);
    events := [BeginComplete(c), TryClaim(c), Crash(c)];
    assert events[1..] == [TryClaim(c), Crash(c)] && events[1..][1..] == [Crash(c)] && events[1..][1..][1..] == [];
    assert Possible(s3, []) && Run(s3, []) == s3;
    assert Possible(s2, [Crash(c)]) && Run(s2, [Crash(c)]) == s3 by {
      assert [Crash(c)][1..] == [];
    }
    assert Possible(s1, [TryClaim(c), Crash(c)]) && Run(s1, [TryClaim(c), Crash(c)]) == s3;
  }

  /** A stranded upload stays so: nobody can ever complete or abort it again. */
  lemma {:induction false} StrandedForever(s: State, events: seq<Event>)
    requires Stranded(s) && Possible(s, events)
    ensures Stranded(Run(s, events)) && Run(s, events).document == s.document
    decreases |events|
  {
    if events != [] {
      assert Stranded(Step(s, events[0]));
      StrandedForever(Step(s, events[0]), events[1..]);
    }
  }

  /** That is the only way an upload can be left verifying with nobody at work on it. */
  lemma {:induction false} OnlyCrashesStrand(s: State, e: Event)
    requires Inv(s) && Enabled(s, e) && !Stranded(s) && Stranded(Step(s, e))
    ensures e.Crash? && InSection(CallerAt(s, e.c))
  {
    assert e.TryClaim? && s.status.Pending? ==> InSection(Step(s, e).callers[e.c]);
    if s.status.Verifying? {
      var c :| c in s.callers && InSection(s.callers[c]);
      assert c in Step(s, e).callers;
      assert !InSection(Step(s, e).callers[c]);
    }
  }
}
