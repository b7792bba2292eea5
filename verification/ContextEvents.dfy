/** The whole of `context_events` for one answer: tail, summary, up to two compaction rounds,
    masking, window and flag. */
module ContextEvents {
  import opened Basics
  import opened Transcript
  import opened RecentWindow
  import opened Summaries
  import opened Continuity

  /** What the summariser thread and the checks after it report for one round. `stillLatest`
      says that the transcript still ends with the snapshot's message and the run still runs. */
  datatype Attempt =
    | RunStopped
    | Raised
    | Summarised(entries: seq<Entry>, bodyTokens: nat, stillLatest: bool)

  datatype Outcome =
    | Legacy(messages: seq<Message>)
    | Stopped(messages: seq<Message>)
    | Prepared(messages: seq<Message>, incomplete: bool, older: Option<seq<Entry>>)

  const ROUNDS := 2

  /** The covered boundary moved strictly forward. */
  predicate Advanced(before: Option<Message>, after: Option<Message>) {
    after.Some? && (before.None? || Before(before.value, after.value))
  }

  /** The protected suffix of the transcript. */
  ghost predicate IsProtected(t: seq<Message>, budget: int, suffix: seq<Message>) {
    IsWindow(Last(t, TAIL_ROWS), Min(8000, budget), 32, suffix)
  }

  /** What a moved boundary must satisfy: it went forward, it leaves the whole protected suffix
      after it, and it does not split a turn. */
  ghost predicate SafeAdvance(t: seq<Message>, budget: int, before: Option<Message>, after: Option<Message>) {
    && Advanced(before, after)
    && KeepsTurnsWhole(t, after.value)
    && forall suffix: seq<Message>, m :: IsProtected(t, budget, suffix) && m in suffix ==> Before(after.value, m)
  }

  lemma {:induction false} AdvanceTransitive(t: seq<Message>, budget: int, a: Option<Message>, b: Option<Message>,
                                             c: Option<Message>)
    requires a == b || Advanced(a, b)
    requires SafeAdvance(t, budget, b, c)
    ensures SafeAdvance(t, budget, a, c)
  {
  }

  /** The row a round commits. */
  function Committed(prefix: seq<Message>, entries: seq<Entry>): Summary
    requires prefix != []
  {
    Summary(prefix[|prefix| - 1].id, entries, true)
  }

  lemma {:induction false} LastIsFound(t: seq<Message>, boundary: Option<Message>, prefix: seq<Message>)
    requires IsTranscript(t) && prefix != [] && prefix <= After(t, boundary)
    ensures var last := prefix[|prefix| - 1];
            Find(t, last.id) == Some(last) && IsAfter(last, boundary)
  {
    LocatePrefix(t, boundary, prefix);
    var at := FirstAfter(t, boundary) + |prefix| - 1;
    assert t[at] == prefix[|prefix| - 1];
    assert t[at] in prefix;
    FindUnique(t, at);
  }

  /** A committed round moves the boundary safely. */
  lemma {:induction false} RoundAdvances(t: seq<Message>, boundary: Option<Message>, budget: int,
                                         suffix: seq<Message>, prefix: seq<Message>, entries: seq<Entry>)
    requires IsTranscript(t) && IsProtected(t, budget, suffix)
    requires prefix != [] && RoundPrefix(t, boundary, suffix, prefix)
    ensures Boundary(t, Some(Committed(prefix, entries))) == Some(prefix[|prefix| - 1])
    ensures SafeAdvance(t, budget, boundary, Some(prefix[|prefix| - 1]))
  {
    LastIsFound(t, boundary, prefix);
    forall other, m | IsProtected(t, budget, other) && m in other ensures Before(prefix[|prefix| - 1], m) {
      WindowIsUnique(Last(t, TAIL_ROWS), Min(PROTECTED_TOKENS, budget), PROTECTED_CEILING, other, suffix);
    }
  }

  lemma {:induction false} PrefixIsCovered(t: seq<Message>, boundary: Option<Message>, prefix: seq<Message>, id: nat)
    requires IsTranscript(t) && prefix != [] && prefix <= After(t, boundary)
    requires id in Ids(prefix)
    ensures CoveredBy(t, id, prefix[|prefix| - 1])
  {
    LocatePrefix(t, boundary, prefix);
    var k := FirstAfter(t, boundary);
    var j :| 0 <= j < |prefix| && prefix[j].id == id;
    assert t[k + j] == prefix[j] && t[k + |prefix| - 1] == prefix[|prefix| - 1];
    assert j < |prefix| - 1 ==> Before(t[k + j], t[k + |prefix| - 1]);
  }

  lemma {:induction false} CoveredLater(t: seq<Message>, id: nat, upTo: Message, later: Message)
    requires CoveredBy(t, id, upTo) && Before(upTo, later)
    ensures CoveredBy(t, id, later)
  {
  }

  /** The source check keeps every citation at or before the new boundary. */
  lemma {:induction false} RoundStaysGrounded(t: seq<Message>, summary: Option<Summary>, prefix: seq<Message>,
                                              entries: seq<Entry>, previous: seq<Entry>)
    requires IsTranscript(t) && Grounded(t, summary)
    requires prefix != [] && prefix <= After(t, Boundary(t, summary))
    requires Cited(previous) <= (if summary.Some? then Cited(summary.value.entries) else {})
    requires Cited(entries) <= Ids(prefix) + Cited(previous)
    ensures Grounded(t, Some(Committed(prefix, entries)))
  {
    var boundary := Boundary(t, summary);
    var last := prefix[|prefix| - 1];
    LastIsFound(t, boundary, prefix);
    forall id | id in Cited(entries) ensures CoveredBy(t, id, last) {
      if id in Ids(prefix) {
        PrefixIsCovered(t, boundary, prefix, id);
      } else {
        CoveredLater(t, id, boundary.value, last);
      }
    }
  }

  /** When the protected suffix lies after the boundary and none of it is masked, all of it is
      delivered. */
  lemma {:induction false} ProtectedIsDelivered(t: seq<Message>, boundary: Option<Message>, masked: set<nat>,
                                                notice: nat, budget: int, suffix: seq<Message>,
                                                selected: seq<Message>)
    requires IsTranscript(t) && IsProtected(t, budget, suffix)
    requires forall m :: m in suffix ==> IsAfter(m, boundary) && m.id !in masked
    requires IsWindow(RecentRows(t, boundary, masked, notice), budget, CEILING, selected)
    ensures Ids(suffix) <= Ids(selected)
  {
    LocatedSuffix(t, budget, suffix);
    assert suffix != [] ==> suffix[0] in suffix;
    RecentEndsWith(t, boundary, masked, notice, suffix);
    WindowIsLatestOf(RecentRows(t, boundary, masked, notice), budget, suffix, selected, Last(t, TAIL_ROWS));
    IdsOfSuffix(selected, suffix);
  }

  lemma {:induction false} LocatedSuffix(t: seq<Message>, budget: int, suffix: seq<Message>)
    requires IsTranscript(t) && IsProtected(t, budget, suffix)
    ensures |suffix| <= TAIL_ROWS && |suffix| <= |t| && suffix == t[|t| - |suffix|..]
  {
    WindowIsTranscriptSuffix(t, Min(PROTECTED_TOKENS, budget), PROTECTED_CEILING, suffix);
  }

  lemma {:induction false} RecentEndsWith(t: seq<Message>, boundary: Option<Message>, masked: set<nat>, notice: nat,
                                          suffix: seq<Message>)
    requires Chronological(t) && |suffix| <= TAIL_ROWS && |suffix| <= |t| && suffix == t[|t| - |suffix|..]
    requires suffix != [] ==> IsAfter(suffix[0], boundary)
    requires forall m :: m in suffix ==> m.id !in masked
    ensures var recent := RecentRows(t, boundary, masked, notice);
            |suffix| <= |recent| && recent[|recent| - |suffix|..] == suffix
  {
    SuffixIsAfter(t, boundary, suffix);
    UnmaskedStays(After(Last(t, TAIL_ROWS), boundary), masked, notice, suffix);
  }

  lemma {:induction false} IdsOfSuffix(selected: seq<Message>, suffix: seq<Message>)
    requires |suffix| <= |selected| && selected[|selected| - |suffix|..] == suffix
    ensures Ids(suffix) <= Ids(selected)
  {
    forall m | m in suffix ensures m in selected {
      var j :| 0 <= j < |suffix| && suffix[j] == m;
      assert selected[|selected| - |suffix| + j] == m;
    }
  }

  lemma {:induction false} SuffixIsAfter(t: seq<Message>, boundary: Option<Message>, suffix: seq<Message>)
    requires Chronological(t)
    requires |suffix| <= TAIL_ROWS && |suffix| <= |t| && suffix == t[|t| - |suffix|..]
    requires suffix != [] ==> IsAfter(suffix[0], boundary)
    ensures var rows := After(Last(t, TAIL_ROWS), boundary);
            |suffix| <= |rows| && rows[|rows| - |suffix|..] == suffix
  {
    AfterTail(t, TAIL_ROWS, boundary);
    assert suffix != [] ==> suffix[0] == t[|t| - |suffix|];
    assert FirstAfter(t, boundary) <= |t| - |suffix|;
  }

  lemma {:induction false} UnmaskedStays(rows: seq<Message>, masked: set<nat>, notice: nat, suffix: seq<Message>)
    requires |suffix| <= |rows| && rows[|rows| - |suffix|..] == suffix
    requires forall m :: m in suffix ==> m.id !in masked
    ensures var recent := MaskAll(rows, masked, notice);
            |recent| == |rows| && recent[|recent| - |suffix|..] == suffix
  {
    var recent := MaskAll(rows, masked, notice);
    forall j | 0 <= j < |suffix| ensures recent[|recent| - |suffix| + j] == suffix[j] {
      assert suffix[j] in suffix && rows[|rows| - |suffix| + j] == suffix[j];
    }
  }

  /** A window with a larger budget over rows that end with a smaller window contains it. */
  lemma {:induction false} WindowIsLatestOf(recent: seq<Message>, budget: int, suffix: seq<Message>,
                                            selected: seq<Message>, tail: seq<Message>)
    requires IsWindow(tail, Min(PROTECTED_TOKENS, budget), PROTECTED_CEILING, suffix)
    requires |suffix| <= |recent| && recent[|recent| - |suffix|..] == suffix
    requires IsWindow(recent, budget, CEILING, selected)
    ensures |suffix| <= |selected|
    ensures selected[|selected| - |suffix|..] == suffix
  {
    if |suffix| > 1 {
      assert Admissible(tail, Min(PROTECTED_TOKENS, budget), PROTECTED_CEILING, |tail| - |suffix|);
      assert suffix[0] == recent[|recent| - |suffix|];
      assert Admissible(recent, budget, CEILING, |recent| - |suffix|);
    }
  }

  /** The entries a round starts from. */
  function Previous(summary: Option<Summary>, masked: set<nat>): seq<Entry> {
    if summary.Some? then Filtered(summary.value.entries, masked) else []
  }

  /** A round's result is stored only if it cites what it was given, fits its budget and the
      transcript has not changed meanwhile. */
  predicate Accepted(summary: Option<Summary>, masked: set<nat>, prefix: seq<Message>, attempt: Attempt) {
    && attempt.Summarised?
    && Cited(attempt.entries) <= Ids(prefix) + Cited(Previous(summary, masked))
    && attempt.bodyTokens <= SUMMARY_TOKENS
    && attempt.stillLatest
  }

  /** A message the round was given: one it covers, or one cited by an entry it may read. */
  ghost predicate Given(summary: Option<Summary>, masked: set<nat>, prefix: seq<Message>, id: nat) {
    || (exists m :: m in prefix && m.id == id)
    || (summary.Some? && exists e: Entry :: e in summary.value.entries && id in e.sources && Readable(e, masked))
  }

  ghost predicate Readable(e: Entry, masked: set<nat>) {
    forall id :: id in e.sources ==> id !in masked
  }

  lemma {:induction false} AllowedIsGiven(summary: Option<Summary>, masked: set<nat>, prefix: seq<Message>, id: nat)
    ensures id in Ids(prefix) + Cited(Previous(summary, masked)) <==> Given(summary, masked, prefix, id)
  {
    if summary.Some? {
      FilteredMembers(summary.value.entries, masked);
    }
  }

  /** A result is stored exactly when every entry cites only what the round was given, it takes at most
      3000 tokens, and the transcript still ends as it did with the run running. */
  lemma {:induction false} AcceptedIff(summary: Option<Summary>, masked: set<nat>, prefix: seq<Message>,
                                       attempt: Attempt)
    ensures Accepted(summary, masked, prefix, attempt) <==>
              && attempt.Summarised? && attempt.bodyTokens <= 3000 && attempt.stillLatest
              && forall e, id :: e in attempt.entries && id in e.sources ==> Given(summary, masked, prefix, id)
  {
    forall id
      ensures id in Ids(prefix) + Cited(Previous(summary, masked)) <==> Given(summary, masked, prefix, id)
    {
      AllowedIsGiven(summary, masked, prefix, id);
    }
    if attempt.Summarised? {
      assert forall id :: id in Cited(attempt.entries) <==> exists e: Entry :: e in attempt.entries && id in e.sources;
    }
  }

  /** The first round would cover `prefix`. */
  ghost predicate FirstRound(t: seq<Message>, loaded: Option<Summary>, budget: int, suffix: seq<Message>,
                             prefix: seq<Message>) {
    && IsProtected(t, budget, suffix)
    && IsChosen(Candidates(t, Boundary(t, loaded)), Ids(suffix), prefix)
  }

  /** The first round covers nothing, or its result is not accepted. */
  ghost predicate NothingCompacted(t: seq<Message>, loaded: Option<Summary>, masked: set<nat>, budget: int,
                                   attempt: Attempt) {
    exists suffix, prefix :: FirstRound(t, loaded, budget, suffix, prefix)
      && (prefix == [] || !Accepted(loaded, masked, prefix, attempt))
  }

  lemma {:induction false} FirstRoundDecides(t: seq<Message>, loaded: Option<Summary>, masked: set<nat>, budget: int,
                                             attempt: Attempt, suffix: seq<Message>, prefix: seq<Message>)
    requires FirstRound(t, loaded, budget, suffix, prefix)
    ensures NothingCompacted(t, loaded, masked, budget, attempt)
       <==> prefix == [] || !Accepted(loaded, masked, prefix, attempt)
  {
    forall suffix', prefix' | FirstRound(t, loaded, budget, suffix', prefix') ensures prefix' == prefix {
      PlanIsUnique(t, loaded, budget, suffix, prefix, suffix', prefix');
    }
  }

  /** The summary a reader may use: one whose boundary exists and whose policy is current. A
      row that fails this is deleted. */
  function Loaded(t: seq<Message>, stored: Option<Summary>): (r: Option<Summary>)
    ensures r.Some? ==> Boundary(t, r).Some?
    ensures Grounded(t, stored) ==> Grounded(t, r)
  {
    if stored.Some? && (Boundary(t, stored).None? || !stored.value.current) then None else stored
  }

  /** A stored summary that a reader may use. */
  ghost predicate Usable(t: seq<Message>, stored: Option<Summary>) {
    stored.Some? && stored.value.current && exists i :: 0 <= i < |t| && t[i].id == stored.value.covered
  }

  /** A stored summary is used exactly when its policy is current and the message it covers up to exists. */
  lemma {:induction false} LoadedIff(t: seq<Message>, stored: Option<Summary>)
    ensures Loaded(t, stored) == if Usable(t, stored) then stored else None
  {
    if stored.Some? && Find(t, stored.value.covered).Some? {
      var m := Find(t, stored.value.covered).value;
      var i :| 0 <= i < |t| && t[i] == m;
      assert t[i].id == stored.value.covered;
    }
  }

  /** Each of the delivered messages is the stored one, with a notice of `notice` tokens for its content
      exactly when it is masked. */
  ghost predicate AsStored(t: seq<Message>, masked: set<nat>, notice: nat, delivered: seq<Message>) {
    && |delivered| <= |t|
    && forall j :: 0 <= j < |delivered| ==>
         var m := t[|t| - |delivered| + j];
         delivered[j] == if m.id in masked then Message(m.id, m.at, m.role, notice) else m
  }

  lemma {:induction false} WindowIsAsStored(t: seq<Message>, boundary: Option<Message>, masked: set<nat>, notice: nat,
                                            budget: int, selected: seq<Message>)
    requires Chronological(t) && IsWindow(RecentRows(t, boundary, masked, notice), budget, CEILING, selected)
    ensures AsStored(t, masked, notice, selected)
  {
    RecentIsAsStored(t, boundary, masked, notice);
  }

  lemma {:induction false} RecentIsAsStored(t: seq<Message>, boundary: Option<Message>, masked: set<nat>, notice: nat)
    requires Chronological(t)
    ensures AsStored(t, masked, notice, RecentRows(t, boundary, masked, notice))
  {
    AfterTail(t, TAIL_ROWS, boundary);
    MaskedAsStored(t, |t| - Min(TAIL_ROWS, |t| - FirstAfter(t, boundary)), masked, notice);
  }

  lemma {:induction false} MaskedAsStored(t: seq<Message>, start: nat, masked: set<nat>, notice: nat)
    requires start <= |t|
    ensures AsStored(t, masked, notice, MaskAll(t[start..], masked, notice))
  {
    var rows := MaskAll(t[start..], masked, notice);
    forall j | 0 <= j < |rows|
      ensures rows[j] == Mask(t[|t| - |rows| + j], masked, notice)
    {
    }
  }

  /** The rows to deliver exceed the ceiling or the budget. */
  predicate CompactionDue(t: seq<Message>, boundary: Option<Message>, budget: int) {
    var recent := After(Last(t, TAIL_ROWS), boundary);
    |recent| > CEILING || Total(recent) > budget
  }

  /** The same rows if the first of them were a user's. */
  function OpenedByUser(rows: seq<Message>): seq<Message> {
    if rows == [] then [] else rows[0 := rows[0].(role := User)]
  }

  /** No window of at most 64 messages can take in every row after the boundary, even if the first of
      them were a user's. */
  ghost predicate Overflows(t: seq<Message>, boundary: Option<Message>, budget: int) {
    var rows := OpenedByUser(After(Last(t, TAIL_ROWS), boundary));
    if rows == [] then budget < 0 else !Admissible(rows, budget, 64, 0)
  }

  lemma {:induction false} RolesCostNothing(rows: seq<Message>)
    ensures Total(OpenedByUser(rows)) == Total(rows)
  {
    if rows != [] {
      assert OpenedByUser(rows)[1..] == rows[1..];
    }
  }

  /** Compaction is due exactly then. */
  lemma {:induction false} DueMeansOverflow(t: seq<Message>, boundary: Option<Message>, budget: int)
    ensures CompactionDue(t, boundary, budget) <==> Overflows(t, boundary, budget)
  {
    var rows := After(Last(t, TAIL_ROWS), boundary);
    RolesCostNothing(rows);
    assert OpenedByUser(rows)[0..] == OpenedByUser(rows);
  }

  /** So it is due exactly when the window over those rows leaves one out, or when a single row costs
      more than the budget. */
  lemma {:induction false} OverflowLeavesOut(t: seq<Message>, boundary: Option<Message>, budget: int,
                                             selected: seq<Message>)
    requires var rows := OpenedByUser(After(Last(t, TAIL_ROWS), boundary));
             rows != [] && IsWindow(rows, budget, 64, selected)
    ensures var rows := OpenedByUser(After(Last(t, TAIL_ROWS), boundary));
            Overflows(t, boundary, budget) <==> |selected| < |rows| || (|rows| == 1 && MessageTokens(rows[0]) > budget)
  {
    var rows := OpenedByUser(After(Last(t, TAIL_ROWS), boundary));
    assert rows[0..] == rows;
    if |rows| == 1 {
      assert Total(rows) == MessageTokens(rows[0]) + Total(rows[1..]);
    }
  }

  lemma {:induction false} PlanIsUnique(t: seq<Message>, summary: Option<Summary>, budget: int,
                                        suffix: seq<Message>, prefix: seq<Message>,
                                        suffix': seq<Message>, prefix': seq<Message>)
    requires FirstRound(t, summary, budget, suffix, prefix) && FirstRound(t, summary, budget, suffix', prefix')
    ensures prefix' == prefix
  {
    WindowIsUnique(Last(t, TAIL_ROWS), Min(PROTECTED_TOKENS, budget), PROTECTED_CEILING, suffix', suffix);
    ChosenIsUnique(Candidates(t, Boundary(t, summary)), Ids(suffix), prefix', prefix);
  }

  /** What one round ends in: the rounds are over, because there is nothing to cover, the run was found
      stopped or the result is not accepted; or a new summary is stored. */
  datatype RoundResult = Over(stopped: bool) | Stored(next: Option<Summary>)

  function Judged(summary: Option<Summary>, masked: set<nat>, prefix: seq<Message>, attempt: Attempt): RoundResult {
    if prefix == [] then Over(false)
    else if attempt.RunStopped? then Over(true)
    else if !Accepted(summary, masked, prefix, attempt) then Over(false)
    else Stored(Some(Committed(prefix, attempt.entries)))
  }

  ghost predicate RoundGives(t: seq<Message>, summary: Option<Summary>, masked: set<nat>, budget: int,
                             attempt: Attempt, result: RoundResult) {
    exists suffix, prefix ::
      FirstRound(t, summary, budget, suffix, prefix) && result == Judged(summary, masked, prefix, attempt)
  }

  lemma {:induction false} RoundGivesOne(t: seq<Message>, summary: Option<Summary>, masked: set<nat>, budget: int,
                                         attempt: Attempt, a: RoundResult, b: RoundResult)
    requires RoundGives(t, summary, masked, budget, attempt, a) && RoundGives(t, summary, masked, budget, attempt, b)
    ensures a == b
  {
    var suffix, prefix :|
      FirstRound(t, summary, budget, suffix, prefix) && a == Judged(summary, masked, prefix, attempt);
    var suffix', prefix' :|
      FirstRound(t, summary, budget, suffix', prefix') && b == Judged(summary, masked, prefix', attempt);
    PlanIsUnique(t, summary, budget, suffix, prefix, suffix', prefix');
  }

  /** After `stored` rounds that stored a summary and left the rows over their limits, `kept` is stored. */
  ghost predicate AfterRounds(t: seq<Message>, loaded: Option<Summary>, masked: set<nat>, budget: int,
                              provider: nat -> Attempt, stored: nat, kept: Option<Summary>) {
    if stored == 0 then kept == loaded
    else if stored == 1 then RoundGives(t, loaded, masked, budget, provider(0), Stored(kept))
    else exists mid ::
      && RoundGives(t, loaded, masked, budget, provider(0), Stored(mid)) && Overflows(t, Boundary(t, mid), budget)
      && RoundGives(t, mid, masked, budget, provider(1), Stored(kept))
  }

  /** The compaction ends after `stored` stored rounds: both rounds were used, or the rows fit, or the
      next round is over without storing. */
  ghost predicate EndsAfter(t: seq<Message>, masked: set<nat>, budget: int, provider: nat -> Attempt,
                            stored: nat, kept: Option<Summary>, stopped: bool) {
    if stored == 2 || (stored > 0 && !Overflows(t, Boundary(t, kept), budget)) then !stopped
    else RoundGives(t, kept, masked, budget, provider(stored), Over(stopped))
  }

  /** Exactly what compaction does, given what the summariser reports for each round. */
  ghost predicate Compacts(t: seq<Message>, loaded: Option<Summary>, masked: set<nat>, budget: int,
                           provider: nat -> Attempt, kept: Option<Summary>, stopped: bool) {
    exists stored: nat :: stored <= 2 && AfterRounds(t, loaded, masked, budget, provider, stored, kept) &&
      EndsAfter(t, masked, budget, provider, stored, kept, stopped)
  }

  /** It determines what is kept and whether the run was found stopped. */
  lemma {:induction false} CompactionIsDetermined(t: seq<Message>, loaded: Option<Summary>, masked: set<nat>,
                                                  budget: int, provider: nat -> Attempt,
                                                  a: Option<Summary>, x: bool, b: Option<Summary>, y: bool)
    requires Compacts(t, loaded, masked, budget, provider, a, x) && Compacts(t, loaded, masked, budget, provider, b, y)
    ensures a == b && x == y
  {
    var first, second := Results(t, loaded, masked, budget, provider, a, x);
    var first', second' := Results(t, loaded, masked, budget, provider, b, y);
    RoundGivesOne(t, loaded, masked, budget, provider(0), first, first');
    if first.Stored? && Overflows(t, Boundary(t, first.next), budget) {
      RoundGivesOne(t, first.next, masked, budget, provider(1), second, second');
    }
  }

  /** The results of the rounds behind a compaction. */
  lemma {:induction false} Results(t: seq<Message>, loaded: Option<Summary>, masked: set<nat>, budget: int,
                                   provider: nat -> Attempt, kept: Option<Summary>, stopped: bool)
    returns (first: RoundResult, second: RoundResult)
    requires Compacts(t, loaded, masked, budget, provider, kept, stopped)
    ensures RoundGives(t, loaded, masked, budget, provider(0), first)
    ensures first.Over? ==> kept == loaded && stopped == first.stopped
    ensures first.Stored? && !Overflows(t, Boundary(t, first.next), budget) ==> kept == first.next && !stopped
    ensures first.Stored? && Overflows(t, Boundary(t, first.next), budget) ==>
              && RoundGives(t, first.next, masked, budget, provider(1), second)
              && (second.Over? ==> kept == first.next && stopped == second.stopped)
              && (second.Stored? ==> kept == second.next && !stopped)
  {
    var stored: nat :| stored <= ROUNDS && AfterRounds(t, loaded, masked, budget, provider, stored, kept) &&
      EndsAfter(t, masked, budget, provider, stored, kept, stopped);
    if stored == 0 {
      first, second := Over(stopped), Over(stopped);
    } else if stored == 1 {
      first, second := Stored(kept), Over(stopped);
    } else {
      var mid :| RoundGives(t, loaded, masked, budget, provider(0), Stored(mid)) &&
        Overflows(t, Boundary(t, mid), budget) && RoundGives(t, mid, masked, budget, provider(1), Stored(kept));
      first, second := Stored(mid), Stored(kept);
    }
  }

  /** The compaction rounds. `stopped` reports that the run was found cancelled while a round that had
      rows to cover was waiting for its summary. */
  method Compact(t: seq<Message>, loaded: Option<Summary>, masked: set<nat>, budget: int,
                 provider: nat -> Attempt)
    returns (kept: Option<Summary>, stopped: bool)
    requires IsTranscript(t)
    requires loaded.Some? ==> Boundary(t, loaded).Some?
    ensures kept.Some? ==> Boundary(t, kept).Some?
    ensures Grounded(t, loaded) ==> Grounded(t, kept)
    ensures kept == loaded || SafeAdvance(t, budget, Boundary(t, loaded), Boundary(t, kept))
    ensures kept == loaded <==> NothingCompacted(t, loaded, masked, budget, provider(0))
    ensures Compacts(t, loaded, masked, budget, provider, kept, stopped)
    ensures stopped ==> provider(0).RunStopped? || provider(1).RunStopped?
  {
    kept, stopped := loaded, false;
    var round, over := 0, false;
    while round < ROUNDS && !over
      invariant 0 <= round <= ROUNDS && (!over ==> !stopped)
      invariant stopped ==> provider(0).RunStopped? || provider(1).RunStopped?
      invariant kept.Some? ==> Boundary(t, kept).Some?
      invariant Grounded(t, loaded) ==> Grounded(t, kept)
      invariant if round == 0 then kept == loaded
                else SafeAdvance(t, budget, Boundary(t, loaded), Boundary(t, kept))
      invariant if round == 0 then over ==> NothingCompacted(t, loaded, masked, budget, provider(0))
                else !NothingCompacted(t, loaded, masked, budget, provider(0))
      invariant AfterRounds(t, loaded, masked, budget, provider, round, kept)
      invariant over ==> EndsAfter(t, masked, budget, provider, round, kept, stopped)
      invariant !over && 0 < round < ROUNDS ==> Overflows(t, Boundary(t, kept), budget)
      decreases ROUNDS - round, !over
    {
      var next;
      next, stopped, over := OneRound(t, kept, masked, budget, provider(round));
      if !over {
        AdvanceTransitive(t, budget, Boundary(t, loaded), Boundary(t, kept), Boundary(t, next));
        kept, round := next, round + 1;
        DueMeansOverflow(t, Boundary(t, kept), budget);
        over := !CompactionDue(t, Boundary(t, kept), budget);
      }
    }
  }

  /** One round: choose what to cover, judge the summariser's result, and store it or not. */
  method OneRound(t: seq<Message>, summary: Option<Summary>, masked: set<nat>, budget: int, attempt: Attempt)
    returns (next: Option<Summary>, stopped: bool, over: bool)
    requires IsTranscript(t)
    requires summary.Some? ==> Boundary(t, summary).Some?
    ensures RoundGives(t, summary, masked, budget, attempt, if over then Over(stopped) else Stored(next))
    ensures over <==> NothingCompacted(t, summary, masked, budget, attempt)
    ensures stopped <==>
              && attempt.RunStopped?
              && exists suffix, prefix :: FirstRound(t, summary, budget, suffix, prefix) && prefix != []
    ensures over ==> next == summary
    ensures !over ==> !stopped && next.Some? && Boundary(t, next).Some?
    ensures !over ==> SafeAdvance(t, budget, Boundary(t, summary), Boundary(t, next))
    ensures Grounded(t, summary) ==> Grounded(t, next)
  {
    var boundary := Boundary(t, summary);
    var prefix, suffix := PlanRound(t, boundary, budget);
    assert FirstRound(t, summary, budget, suffix, prefix);
    FirstRoundDecides(t, summary, masked, budget, attempt, suffix, prefix);
    next, stopped, over := summary, false, true;
    if prefix == [] {
      forall suffix', prefix' | FirstRound(t, summary, budget, suffix', prefix')
        ensures prefix' == []
      {
        PlanIsUnique(t, summary, budget, suffix, prefix, suffix', prefix');
      }
      return;
    }
    if attempt.RunStopped? {
      stopped := true;
      return;
    }
    if !Accepted(summary, masked, prefix, attempt) {
      return;
    }
    RoundAdvances(t, boundary, budget, suffix, prefix, attempt.entries);
    if summary.Some? {
      FilteredCites(summary.value.entries, masked);
    }
    if Grounded(t, summary) {
      RoundStaysGrounded(t, summary, prefix, attempt.entries, Previous(summary, masked));
    }
    next, over := Some(Committed(prefix, attempt.entries)), false;
  }

  /** Masking, window, flag and summary for the chosen boundary. */
  method Deliver(t: seq<Message>, kept: Option<Summary>, masked: set<nat>, notice: nat, budget: int)
    returns (outcome: Outcome)
    requires IsTranscript(t)
    ensures outcome.Prepared?
    ensures IsWindow(RecentRows(t, Boundary(t, kept), masked, notice), budget, CEILING, outcome.messages)
    ensures outcome.incomplete <==> SomethingMissing(t, Boundary(t, kept), outcome.messages)
    ensures outcome.older == (if kept.Some? then Some(Filtered(kept.value.entries, masked)) else None)
    ensures kept.Some? ==> Cited(outcome.older.value) <= Cited(kept.value.entries) - masked
  {
    var tail, boundary := Last(t, TAIL_ROWS), Boundary(t, kept);
    var recent := MaskAll(After(tail, boundary), masked, notice);
    var selected := SelectRecent(recent, budget, CEILING);
    var olderGap := HistoryIncomplete(tail, recent, selected, boundary);
    HistoryFlagExact(t, boundary, masked, notice, budget, selected);
    var older := None;
    if kept.Some? {
      FilteredCites(kept.value.entries, masked);
      older := Some(Filtered(kept.value.entries, masked));
    }
    outcome := Prepared(selected, olderGap, older);
  }

  /** Preparing one answer's context. `provider` reports what each round's summariser did. */
  method PrepareContext(t: seq<Message>, stored: Option<Summary>, masked: set<nat>, notice: nat, enabled: bool,
                        budget: int, hasRun: bool, provider: nat -> Attempt)
    returns (outcome: Outcome, kept: Option<Summary>)
    requires IsTranscript(t)
    // Switched off, it is the last six messages and nothing else happens.
    ensures outcome.Legacy? <==> !enabled
    ensures outcome.Legacy? ==>
              kept == stored && outcome.messages == (if |t| <= 6 then t else t[|t| - 6..])
    // Compaction runs exactly when a window cannot take in every row after the boundary, and stops the
    // preparation exactly when it says so.
    ensures enabled && hasRun && Overflows(t, Boundary(t, Loaded(t, stored)), budget) ==>
              Compacts(t, Loaded(t, stored), masked, budget, provider, kept, outcome.Stopped?)
    ensures enabled && !(hasRun && Overflows(t, Boundary(t, Loaded(t, stored)), budget)) ==>
              kept == Loaded(t, stored) && outcome.Prepared?
    // A stopped run gets the window over the unmasked rows.
    ensures outcome.Stopped? ==> provider(0).RunStopped? || provider(1).RunStopped?
    ensures outcome.Stopped? ==>
              IsWindow(After(Last(t, TAIL_ROWS), Boundary(t, kept)), budget, CEILING, outcome.messages)
    // The stored summary stays grounded, and its boundary only moves safely forward.
    ensures Grounded(t, stored) ==> Grounded(t, kept)
    ensures !outcome.Legacy? ==>
              || kept == Loaded(t, stored)
              || SafeAdvance(t, budget, Boundary(t, Loaded(t, stored)), Boundary(t, kept))
    // It moves exactly when compaction is due and the first round's result is accepted.
    ensures !outcome.Legacy? ==>
              (kept != Loaded(t, stored) <==>
                && hasRun && Overflows(t, Boundary(t, Loaded(t, stored)), budget)
                && !NothingCompacted(t, Loaded(t, stored), masked, budget, provider(0)))
    // A prepared context is the window over the masked rows, with the readable part of the summary.
    ensures outcome.Prepared? ==>
              && IsWindow(RecentRows(t, Boundary(t, kept), masked, notice), budget, CEILING, outcome.messages)
              && outcome.older == (if kept.Some? then Some(Filtered(kept.value.entries, masked)) else None)
    // The flag tells exactly whether something after the boundary is not delivered.
    ensures outcome.Prepared? ==>
              (outcome.incomplete <==> SomethingMissing(t, Boundary(t, kept), outcome.messages))
    // What is delivered is the latest messages, at most 64 of them, the masked ones by their notices.
    ensures outcome.Prepared? ==> AsStored(t, masked, notice, outcome.messages) && |outcome.messages| <= 64
    // No delivered summary entry cites a masked message.
    ensures outcome.Prepared? && outcome.older.Some? ==> Cited(outcome.older.value) !! masked
    // After a compaction the protected suffix is delivered in full when none of it is masked.
    ensures outcome.Prepared? && kept != Loaded(t, stored) ==>
              forall suffix :: IsProtected(t, budget, suffix) && Ids(suffix) !! masked ==>
                Ids(suffix) <= Ids(outcome.messages)
  {
    var tail := Last(t, TAIL_ROWS);
    if !enabled {
      assert Last(tail, LEGACY_ROWS) == Last(t, LEGACY_ROWS);
      outcome, kept := Legacy(Last(tail, LEGACY_ROWS)), stored;
      return;
    }
    var loaded := Loaded(t, stored);
    kept := loaded;
    DueMeansOverflow(t, Boundary(t, kept), budget);
    if hasRun && CompactionDue(t, Boundary(t, kept), budget) {
      var stopped;
      kept, stopped := Compact(t, loaded, masked, budget, provider);
      if stopped {
        var selected := SelectRecent(After(tail, Boundary(t, kept)), budget, CEILING);
        outcome := Stopped(selected);
        return;
      }
    }
    outcome := Deliver(t, kept, masked, notice, budget);
    PreparedFacts(t, loaded, kept, masked, notice, budget, outcome.messages);
  }

  /** What holds of any window over the masked rows, and after a compaction. */
  lemma {:induction false} PreparedFacts(t: seq<Message>, loaded: Option<Summary>, kept: Option<Summary>,
                                         masked: set<nat>, notice: nat, budget: int, selected: seq<Message>)
    requires IsTranscript(t)
    requires kept == loaded || SafeAdvance(t, budget, Boundary(t, loaded), Boundary(t, kept))
    requires IsWindow(RecentRows(t, Boundary(t, kept), masked, notice), budget, CEILING, selected)
    ensures AsStored(t, masked, notice, selected) && |selected| <= 64
    ensures kept != loaded ==>
              forall suffix :: IsProtected(t, budget, suffix) && Ids(suffix) !! masked ==> Ids(suffix) <= Ids(selected)
  {
    WindowIsAsStored(t, Boundary(t, kept), masked, notice, budget, selected);
    AtMost64(RecentRows(t, Boundary(t, kept), masked, notice), budget, selected);
    if kept != loaded {
      forall suffix: seq<Message> | IsProtected(t, budget, suffix) && Ids(suffix) !! masked
        ensures Ids(suffix) <= Ids(selected)
      {
        ProtectedStays(t, loaded, kept, masked, notice, budget, suffix, selected);
      }
    }
  }

  lemma {:induction false} AtMost64(recent: seq<Message>, budget: int, selected: seq<Message>)
    requires IsWindow(recent, budget, CEILING, selected)
    ensures |selected| <= 64
  {
    assert |selected| > 1 ==> Admissible(recent, budget, CEILING, |recent| - |selected|);
  }

  lemma {:induction false} ProtectedStays(t: seq<Message>, loaded: Option<Summary>, kept: Option<Summary>,
                                          masked: set<nat>, notice: nat, budget: int, suffix: seq<Message>,
                                          selected: seq<Message>)
    requires IsTranscript(t) && SafeAdvance(t, budget, Boundary(t, loaded), Boundary(t, kept))
    requires IsProtected(t, budget, suffix) && Ids(suffix) !! masked
    requires IsWindow(RecentRows(t, Boundary(t, kept), masked, notice), budget, CEILING, selected)
    ensures Ids(suffix) <= Ids(selected)
  {
    assert forall m: Message :: m in suffix ==> m.id in Ids(suffix);
    ProtectedIsDelivered(t, Boundary(t, kept), masked, notice, budget, suffix, selected);
  }
}
