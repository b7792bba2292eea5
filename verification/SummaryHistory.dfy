/** The life of one conversation's summary: messages are posted, replays truncate the
    transcript, and any number of compactions overlap with both. */
module SummaryHistory {
  import opened Basics
  import opened Transcript
  import opened Summaries
  import opened Continuity
  import opened ContextEvents

  /** A compaction whose summariser is still working: the transcript's last message when it
      was read, the rows it covers, the citations it will accept, and whether it read a
      stored row that it is going to update. */
  datatype Pending = Pending(snapshot: nat, prefix: seq<Message>, allowed: set<nat>, updates: bool)

  /** `issued` is every message id ever used; ids are never reused. `active` is the conversation's one
      run with status running. */
  datatype State = State(messages: seq<Message>, summary: Option<Summary>, pending: map<nat, Pending>,
                         issued: set<nat>, active: Option<nat>)

  datatype Event =
    | Admit(run: nat)
    | End
    | Post(index: nat, message: Message)
    | Begin(run: nat, snapshot: nat, size: nat, masked: set<nat>)
    | Commit(run: nat, entries: seq<Entry>)
    | Abandon(run: nat)
    | Truncate(index: nat)
    | Forget

  const EMPTY := State([], None, map[], {}, None)

  function Insert(t: seq<Message>, index: nat, m: Message): seq<Message>
    requires index <= |t|
  {
    t[..index] + [m] + t[index..]
  }

  /** `invalidate_summary`: a removal strictly after the boundary leaves the summary alone,
      anything else deletes it. */
  function Invalidated(t: seq<Message>, summary: Option<Summary>, from: Option<Message>): Option<Summary> {
    if from.Some? && summary.Some? && Boundary(t, summary).Some? && Before(Boundary(t, summary).value, from.value)
    then summary
    else None
  }

  function Prefix(s: State, size: nat): seq<Message> {
    var following := After(s.messages, Boundary(s.messages, s.summary));
    if size <= |following| then following[..size] else following
  }

  /** When an event can happen. A run is admitted only while no other is active. A new message takes a
      fresh id and lands anywhere in key order. A round covers rows that precede its snapshot's last
      message, which is protected. */
  ghost predicate Enabled(s: State, e: Event) {
    match e
    case Admit(run) => s.active.None? && run !in s.pending
    case Post(index, m) => index <= |s.messages| && m.id !in s.issued && Chronological(Insert(s.messages, index, m))
    case Begin(run, snapshot, size, masked) =>
      && snapshot in s.issued
      && Prefix(s, size) != []
      && (Find(s.messages, snapshot).Some? ==>
            Before(Prefix(s, size)[|Prefix(s, size)| - 1], Find(s.messages, snapshot).value))
    case Commit(run, entries) => run in s.pending
    case Truncate(index) => index < |s.messages|
    case _ => true
  }

  /** The transcript check, the check that the run still runs, the source check and the row update a
      commit depends on. */
  predicate Commits(s: State, run: nat, p: Pending, entries: seq<Entry>) {
    && s.active == Some(run)
    && s.messages != [] && s.messages[|s.messages| - 1].id == p.snapshot
    && Cited(entries) <= p.allowed
    && (p.updates <==> s.summary.Some?)
  }

  ghost function Step(s: State, e: Event): State
    requires Enabled(s, e)
  {
    match e
    case Admit(run) => s.(active := Some(run))
    case End => s.(active := None)
    case Post(index, m) => s.(messages := Insert(s.messages, index, m), issued := s.issued + {m.id})
    case Begin(run, snapshot, size, masked) =>
      var prefix := Prefix(s, size);
      s.(pending := s.pending[run := Pending(snapshot, prefix,
                                             Ids(prefix) + Cited(Previous(s.summary, masked)), s.summary.Some?)])
    case Commit(run, entries) =>
      var p := s.pending[run];
      s.(summary := if p.prefix != [] && Commits(s, run, p, entries) then Some(Committed(p.prefix, entries))
                    else s.summary,
         pending := s.pending - {run})
    case Abandon(run) => s.(pending := s.pending - {run})
    case Truncate(index) =>
      s.(summary := Invalidated(s.messages, s.summary, Some(s.messages[index])), messages := s.messages[..index])
    case Forget => s.(summary := Invalidated(s.messages, s.summary, None))
  }

  /** The rounds `PlanRound` chooses are such rounds: the latest message is always protected. */
  lemma {:induction false} PlannedRoundIsEnabled(s: State, budget: int, suffix: seq<Message>, prefix: seq<Message>,
                                                 run: nat, masked: set<nat>)
    requires IsTranscript(s.messages) && Ids(s.messages) <= s.issued
    requires IsProtected(s.messages, budget, suffix)
    requires RoundPrefix(s.messages, Boundary(s.messages, s.summary), suffix, prefix)
    ensures s.messages != []
    ensures Enabled(s, Begin(run, s.messages[|s.messages| - 1].id, |prefix|, masked))
    ensures Prefix(s, |prefix|) == prefix
  {
    var t := s.messages;
    PrefixIsPlanned(s, prefix);
    LatestIsProtected(t, budget, suffix);
    RoundIsEnabled(s, prefix, t[|t| - 1], run, masked);
  }

  lemma {:induction false} PrefixIsPlanned(s: State, prefix: seq<Message>)
    requires Chronological(s.messages) && prefix != [] && prefix <= After(s.messages, Boundary(s.messages, s.summary))
    ensures s.messages != [] && Prefix(s, |prefix|) == prefix
  {
    AfterIsSuffix(s.messages, Boundary(s.messages, s.summary));
  }

  lemma {:induction false} LatestIsProtected(t: seq<Message>, budget: int, suffix: seq<Message>)
    requires IsTranscript(t) && IsProtected(t, budget, suffix) && t != []
    ensures t[|t| - 1] in suffix && t[|t| - 1].id in Ids(t) && Find(t, t[|t| - 1].id) == Some(t[|t| - 1])
  {
    WindowIsTranscriptSuffix(t, Min(PROTECTED_TOKENS, budget), PROTECTED_CEILING, suffix);
    assert suffix[|suffix| - 1] == t[|t| - 1];
    assert t[|t| - 1] in t;
    FindUnique(t, |t| - 1);
  }

  lemma {:induction false} RoundIsEnabled(s: State, prefix: seq<Message>, latest: Message, run: nat, masked: set<nat>)
    requires prefix != [] && Prefix(s, |prefix|) == prefix && latest.id in s.issued
    requires Find(s.messages, latest.id) == Some(latest) && Before(prefix[|prefix| - 1], latest)
    ensures Enabled(s, Begin(run, latest.id, |prefix|, masked))
  {
  }

  /** What a pending round relies on as long as its snapshot's last message exists. */
  ghost predicate PendingSound(s: State, p: Pending) {
    && p.prefix != []
    && p.snapshot in s.issued
    && (Find(s.messages, p.snapshot).Some? ==>
          var last := p.prefix[|p.prefix| - 1];
          && Before(last, Find(s.messages, p.snapshot).value)
          && Find(s.messages, last.id) == Some(last)
          && forall id :: id in p.allowed ==> CoveredBy(s.messages, id, last))
  }

  ghost predicate Inv(s: State) {
    && IsTranscript(s.messages)
    && Ids(s.messages) <= s.issued
    && Grounded(s.messages, s.summary)
    && forall run :: run in s.pending ==> PendingSound(s, s.pending[run])
  }

  // -------------------------------------------------------------- truncation

  lemma {:induction false} FindInPrefix(t: seq<Message>, index: nat, m: Message)
    requires IsTranscript(t) && index < |t| && m in t && Before(m, t[index])
    ensures m in t[..index]
    ensures Find(t[..index], m.id) == Some(m)
  {
    var i :| 0 <= i < |t| && t[i] == m;
    assert i < index by {
      assert index < i ==> Before(t[index], t[i]);
    }
    assert t[..index][i] == m;
    FindUnique(t[..index], i);
  }

  lemma {:induction false} CoveredInPrefix(t: seq<Message>, index: nat, id: nat, upTo: Message)
    requires IsTranscript(t) && index < |t| && Before(upTo, t[index])
    requires CoveredBy(t, id, upTo)
    ensures CoveredBy(t[..index], id, upTo)
  {
    var i :| 0 <= i < |t| && t[i].id == id && !Before(upTo, t[i]);
    assert i < index by {
      assert index < i ==> Before(t[index], t[i]);
    }
    assert t[..index][i] == t[i];
  }

  lemma {:induction false} FoundBeforeCut(t: seq<Message>, index: nat, id: nat)
    requires IsTranscript(t) && index < |t|
    requires Find(t[..index], id).Some?
    ensures Find(t, id) == Find(t[..index], id)
    ensures Before(Find(t, id).value, t[index])
  {
    var m := Find(t[..index], id).value;
    var i :| 0 <= i < index && t[..index][i] == m;
    FindUnique(t, i);
    assert Before(t[i], t[index]);
  }

  lemma {:induction false} TruncateKeepsPending(s: State, index: nat, p: Pending)
    requires Inv(s) && index < |s.messages| && PendingSound(s, p)
    ensures PendingSound(Step(s, Truncate(index)), p)
  {
    var t, cut := s.messages, s.messages[..index];
    if Find(cut, p.snapshot).Some? {
      FoundBeforeCut(t, index, p.snapshot);
      var last := p.prefix[|p.prefix| - 1];
      FindInPrefix(t, index, last);
      forall id | id in p.allowed ensures CoveredBy(cut, id, last) {
        CoveredInPrefix(t, index, id, last);
      }
    }
  }

  lemma {:induction false} TruncateKeepsGrounded(t: seq<Message>, index: nat, summary: Option<Summary>)
    requires IsTranscript(t) && index < |t| && Grounded(t, summary)
    ensures Grounded(t[..index], Invalidated(t, summary, Some(t[index])))
  {
    var kept := Invalidated(t, summary, Some(t[index]));
    if kept.Some? {
      var boundary := Boundary(t, summary).value;
      FindInPrefix(t, index, boundary);
      forall id | id in Cited(kept.value.entries) ensures CoveredBy(t[..index], id, boundary) {
        CoveredInPrefix(t, index, id, boundary);
      }
    }
  }

  // -------------------------------------------------------------- posting

  lemma {:induction false} InsertDistinct(t: seq<Message>, index: nat, m: Message)
    requires DistinctIds(t) && index <= |t| && m.id !in Ids(t)
    ensures DistinctIds(Insert(t, index, m))
  {
    var t' := Insert(t, index, m);
    forall i, j | 0 <= i < j < |t'| ensures t'[i].id != t'[j].id {
      var i', j' := if i < index then i else i - 1, if j < index then j else j - 1;
      if i == index {
        assert t'[j] == t[j'] && t[j'] in t;
      } else if j == index {
        assert t'[i] == t[i'] && t[i'] in t;
      } else {
        assert t'[i] == t[i'] && t'[j] == t[j'];
      }
    }
  }

  lemma {:induction false} FindIs(t: seq<Message>, m: Message)
    requires DistinctIds(t) && m in t
    ensures Find(t, m.id) == Some(m)
  {
    var i :| 0 <= i < |t| && t[i] == m;
    FindUnique(t, i);
  }

  lemma {:induction false} InsertKeepsFind(t: seq<Message>, index: nat, m: Message, id: nat)
    requires DistinctIds(t) && index <= |t| && m.id !in Ids(t) && id != m.id
    ensures Find(Insert(t, index, m), id) == Find(t, id)
  {
    var t' := Insert(t, index, m);
    InsertDistinct(t, index, m);
    assert forall x :: x in t' <==> x in t || x == m by {
      assert t == t[..index] + t[index..];
    }
    if Find(t, id).Some? {
      FindIs(t', Find(t, id).value);
    } else if Find(t', id).Some? {
      FindIs(t, Find(t', id).value);
    }
  }

  lemma {:induction false} InsertKeepsCovered(t: seq<Message>, index: nat, m: Message, id: nat, upTo: Message)
    requires index <= |t| && CoveredBy(t, id, upTo)
    ensures CoveredBy(Insert(t, index, m), id, upTo)
  {
    var i :| 0 <= i < |t| && t[i].id == id && !Before(upTo, t[i]);
    assert Insert(t, index, m)[if i < index then i else i + 1] == t[i];
  }

  lemma {:induction false} PostKeepsGrounded(t: seq<Message>, index: nat, m: Message, summary: Option<Summary>)
    requires IsTranscript(t) && index <= |t| && m.id !in Ids(t) && Grounded(t, summary)
    ensures Grounded(Insert(t, index, m), summary)
  {
    if summary.Some? {
      var boundary := Find(t, summary.value.covered).value;
      assert boundary.id in Ids(t);
      InsertKeepsFind(t, index, m, boundary.id);
      forall id | id in Cited(summary.value.entries) ensures CoveredBy(Insert(t, index, m), id, boundary) {
        InsertKeepsCovered(t, index, m, id, boundary);
      }
    }
  }

  lemma {:induction false} PostKeepsPending(s: State, index: nat, m: Message, p: Pending)
    requires Inv(s) && Enabled(s, Post(index, m)) && PendingSound(s, p)
    ensures PendingSound(Step(s, Post(index, m)), p)
  {
    var t, t' := s.messages, Insert(s.messages, index, m);
    InsertKeepsFind(t, index, m, p.snapshot);
    if Find(t, p.snapshot).Some? {
      var last := p.prefix[|p.prefix| - 1];
      assert last.id in Ids(t);
      InsertKeepsFind(t, index, m, last.id);
      forall id | id in p.allowed ensures CoveredBy(t', id, last) {
        InsertKeepsCovered(t, index, m, id, last);
      }
    }
  }

  lemma {:induction false} PostKeepsInv(s: State, index: nat, m: Message)
    requires Inv(s) && Enabled(s, Post(index, m))
    ensures Inv(Step(s, Post(index, m)))
  {
    var s' := Step(s, Post(index, m));
    InsertDistinct(s.messages, index, m);
    PostKeepsGrounded(s.messages, index, m, s.summary);
    forall run | run in s'.pending ensures PendingSound(s', s'.pending[run]) {
      PostKeepsPending(s, index, m, s.pending[run]);
    }
    assert Ids(s'.messages) <= s'.issued by {
      forall x | x in s'.messages ensures x.id in s'.issued {
        assert x in s.messages ==> x.id in Ids(s.messages);
        assert x == m || x in s.messages[..index] || x in s.messages[index..];
      }
    }
  }

  // -------------------------------------------------------------- compaction

  /** Everything a new round may cite lies at or before the row it will cover up to. */
  lemma {:induction false} AllowedIsCovered(t: seq<Message>, summary: Option<Summary>, prefix: seq<Message>,
                                            masked: set<nat>, id: nat)
    requires IsTranscript(t) && Grounded(t, summary)
    requires prefix != [] && prefix <= After(t, Boundary(t, summary))
    requires id in Ids(prefix) + Cited(Previous(summary, masked))
    ensures CoveredBy(t, id, prefix[|prefix| - 1])
  {
    var b := Boundary(t, summary);
    if id in Ids(prefix) {
      PrefixIsCovered(t, b, prefix, id);
    } else {
      FilteredCites(summary.value.entries, masked);
      LocatePrefix(t, b, prefix);
      assert prefix[|prefix| - 1] in prefix;
      CoveredLater(t, id, b.value, prefix[|prefix| - 1]);
    }
  }

  lemma {:induction false} NewRoundIsSound(s: State, p: Pending, masked: set<nat>)
    requires IsTranscript(s.messages) && Grounded(s.messages, s.summary)
    requires p.prefix != [] && p.prefix <= After(s.messages, Boundary(s.messages, s.summary))
    requires p.allowed == Ids(p.prefix) + Cited(Previous(s.summary, masked))
    requires p.snapshot in s.issued
    requires Find(s.messages, p.snapshot).Some? ==>
               Before(p.prefix[|p.prefix| - 1], Find(s.messages, p.snapshot).value)
    ensures PendingSound(s, p)
  {
    var t, b := s.messages, Boundary(s.messages, s.summary);
    var last := p.prefix[|p.prefix| - 1];
    LastIsFound(t, b, p.prefix);
    forall id | id in p.allowed ensures CoveredBy(t, id, last) {
      AllowedIsCovered(t, s.summary, p.prefix, masked, id);
    }
  }

  lemma {:induction false} BeginKeepsInv(s: State, run: nat, snapshot: nat, size: nat, masked: set<nat>)
    requires Inv(s) && Enabled(s, Begin(run, snapshot, size, masked))
    ensures Inv(Step(s, Begin(run, snapshot, size, masked)))
  {
    var s' := Step(s, Begin(run, snapshot, size, masked));
    NewRoundIsSound(s, s'.pending[run], masked);
    forall r | r in s'.pending ensures PendingSound(s', s'.pending[r]) {
      assert r != run ==> PendingSound(s, s.pending[r]);
    }
  }

  lemma {:induction false} CommitKeepsInv(s: State, run: nat, entries: seq<Entry>)
    requires Inv(s) && Enabled(s, Commit(run, entries))
    ensures Inv(Step(s, Commit(run, entries)))
  {
    var p := s.pending[run];
    assert PendingSound(s, p);
    if Commits(s, run, p, entries) {
      FindUnique(s.messages, |s.messages| - 1);
    }
    var s' := Step(s, Commit(run, entries));
    forall r | r in s'.pending ensures PendingSound(s', s'.pending[r]) {
      assert PendingSound(s, s.pending[r]);
    }
  }

  lemma {:induction false} StepKeepsInv(s: State, e: Event)
    requires Inv(s) && Enabled(s, e)
    ensures Inv(Step(s, e))
  {
    match e
    case Post(index, m) => PostKeepsInv(s, index, m);
    case Begin(run, snapshot, size, masked) => BeginKeepsInv(s, run, snapshot, size, masked);
    case Commit(run, entries) => CommitKeepsInv(s, run, entries);
    case Truncate(index) =>
      TruncateKeepsGrounded(s.messages, index, s.summary);
      var s' := Step(s, e);
      forall run | run in s'.pending ensures PendingSound(s', s'.pending[run]) {
        TruncateKeepsPending(s, index, s.pending[run]);
      }
    case Abandon(run) =>
      forall r | r in Step(s, e).pending ensures PendingSound(Step(s, e), Step(s, e).pending[r]) {
        assert PendingSound(s, s.pending[r]);
      }
    case _ =>
      forall r | r in s.pending ensures PendingSound(Step(s, e), s.pending[r]) {
        assert PendingSound(s, s.pending[r]);
      }
  }

  // -------------------------------------------------------------- what is stored and what is dropped

  /** A round of the active run that nothing interrupts is stored: what it covers becomes the boundary. */
  lemma {:induction false} UndisturbedRoundIsStored(s: State, run: nat, size: nat, masked: set<nat>,
                                                    entries: seq<Entry>)
    requires Inv(s) && s.active == Some(run) && s.messages != []
    requires Enabled(s, Begin(run, s.messages[|s.messages| - 1].id, size, masked))
    requires forall e, id :: e in entries && id in e.sources ==> Given(s.summary, masked, Prefix(s, size), id)
    ensures var begun := Step(s, Begin(run, s.messages[|s.messages| - 1].id, size, masked));
            && Enabled(begun, Commit(run, entries))
            && var s', covered := Step(begun, Commit(run, entries)), Prefix(s, size);
               && s'.summary == Some(Summary(covered[|covered| - 1].id, entries, true))
               && s'.messages == s.messages && s'.pending == s.pending - {run}
               && Boundary(s.messages, s'.summary) == Some(covered[|covered| - 1])
  {
    var covered := Prefix(s, size);
    AcceptedIff(s.summary, masked, covered, Summarised(entries, 0, true));
    LastIsFound(s.messages, Boundary(s.messages, s.summary), covered);
  }

  /** A finished round is stored exactly when its run is still the active one, the transcript still ends
      with the message it was read with, the summary it read is still there, or still none is, and every
      entry cites what the round was allowed to cite. So a round that read a summary stores nothing once
      a removal has dropped it. */
  lemma {:induction false} CommitIff(s: State, run: nat, entries: seq<Entry>)
    requires Inv(s) && Enabled(s, Commit(run, entries))
    ensures var p, s' := s.pending[run], Step(s, Commit(run, entries));
            && p.prefix != []
            && s' == s.(summary := s'.summary, pending := s.pending - {run})
            && s'.summary ==
                 if && s.active == Some(run)
                    && s.messages != [] && s.messages[|s.messages| - 1].id == p.snapshot
                    && (p.updates <==> s.summary.Some?)
                    && (forall e, id :: e in entries && id in e.sources ==> id in p.allowed)
                 then Some(Summary(p.prefix[|p.prefix| - 1].id, entries, true)) else s.summary
  {
    assert PendingSound(s, s.pending[run]);
    assert forall id :: id in Cited(entries) <==> exists e: Entry :: e in entries && id in e.sources;
  }

  /** Removing messages from `index` on keeps the summary exactly when the message it covers up to
      stays; forgetting always drops it. */
  lemma {:induction false} RemovalDropsIff(s: State, index: nat)
    requires Inv(s) && index < |s.messages|
    ensures Step(s, Truncate(index)).summary ==
              if s.summary.Some? && exists i :: 0 <= i < index && s.messages[i].id == s.summary.value.covered
              then s.summary else None
    ensures Step(s, Forget).summary == None
  {
    var t := s.messages;
    if s.summary.Some? {
      var m := Find(t, s.summary.value.covered).value;
      var k :| 0 <= k < |t| && t[k] == m;
      assert index < k ==> Before(t[index], t[k]);
      assert k < index ==> Before(t[k], t[index]);
      assert forall i :: 0 <= i < |t| && t[i].id == m.id ==> i == k;
    }
  }

  // -------------------------------------------------------------- every run

  ghost predicate Possible(s: State, events: seq<Event>)
    decreases |events|
  {
    events == [] || (Enabled(s, events[0]) && Possible(Step(s, events[0]), events[1..]))
  }

  ghost function Run(s: State, events: seq<Event>): State
    requires Possible(s, events)
    decreases |events|
  {
    if events == [] then s else Run(Step(s, events[0]), events[1..])
  }

  lemma {:induction false} RunKeepsInv(s: State, events: seq<Event>)
    requires Inv(s) && Possible(s, events)
    ensures Inv(Run(s, events))
    decreases |events|
  {
    if events != [] {
      StepKeepsInv(s, events[0]);
      RunKeepsInv(Step(s, events[0]), events[1..]);
    }
  }

  /** After any history, the stored summary cites only existing messages at or before the one
      it covers, and what any reader is given of it cites no message hidden from that reader. */
  lemma {:induction false} SummariesStayGrounded(events: seq<Event>, masked: set<nat>)
    requires Possible(EMPTY, events)
    ensures var s := Run(EMPTY, events);
            && IsTranscript(s.messages)
            && Grounded(s.messages, s.summary)
            && (s.summary.Some? ==>
                  Cited(Filtered(s.summary.value.entries, masked)) <= Ids(s.messages) - masked)
  {
    RunKeepsInv(EMPTY, events);
    var s := Run(EMPTY, events);
    if s.summary.Some? {
      FilteredCites(s.summary.value.entries, masked);
      forall id | id in Cited(s.summary.value.entries) ensures id in Ids(s.messages) {
        assert CoveredBy(s.messages, id, Find(s.messages, s.summary.value.covered).value);
      }
    }
  }

  // -------------------------------------------------------------- the boundary

  function BoundaryOf(s: State): Option<Message> {
    Boundary(s.messages, s.summary)
  }

  /** The active run's round covers rows beyond the stored boundary. */
  ghost predicate Ahead(s: State) {
    s.active.Some? && s.active.value in s.pending && BoundaryOf(s).Some? ==>
      var prefix := s.pending[s.active.value].prefix;
      prefix != [] && Before(BoundaryOf(s).value, prefix[|prefix| - 1])
  }

  lemma {:induction false} PostKeepsBoundary(s: State, index: nat, m: Message)
    requires Inv(s) && Enabled(s, Post(index, m))
    ensures BoundaryOf(Step(s, Post(index, m))) == BoundaryOf(s)
  {
    if s.summary.Some? {
      var b := BoundaryOf(s).value;
      InsertDistinct(s.messages, index, m);
      assert b.id in Ids(s.messages);
      InsertKeepsFind(s.messages, index, m, s.summary.value.covered);
    }
  }

  lemma {:induction false} TruncateKeepsBoundary(s: State, index: nat)
    requires Inv(s) && Enabled(s, Truncate(index))
    ensures var s' := Step(s, Truncate(index)); BoundaryOf(s') == BoundaryOf(s) || s'.summary.None?
  {
    var s' := Step(s, Truncate(index));
    if s'.summary.Some? {
      FindInPrefix(s.messages, index, BoundaryOf(s).value);
    }
  }

  lemma {:induction false} CommitAdvances(s: State, run: nat, entries: seq<Entry>)
    requires Inv(s) && Ahead(s) && Enabled(s, Commit(run, entries))
    ensures var b, b' := BoundaryOf(s), BoundaryOf(Step(s, Commit(run, entries))); b' == b || Advanced(b, b')
  {
    var p := s.pending[run];
    assert PendingSound(s, p);
    if Commits(s, run, p, entries) {
      FindUnique(s.messages, |s.messages| - 1);
    }
  }

  lemma {:induction false} BeginIsAhead(s: State, run: nat, snapshot: nat, size: nat, masked: set<nat>)
    requires Inv(s) && Ahead(s) && Enabled(s, Begin(run, snapshot, size, masked))
    ensures Ahead(Step(s, Begin(run, snapshot, size, masked)))
  {
    LastIsFound(s.messages, BoundaryOf(s), Prefix(s, size));
  }

  predicate Removes(e: Event) {
    e.Truncate? || e.Forget?
  }

  /** One step moves the boundary strictly forward or leaves it, unless a removal drops the summary. */
  lemma {:induction false} StepMovesForward(s: State, e: Event)
    requires Inv(s) && Ahead(s) && Enabled(s, e)
    ensures Ahead(Step(s, e))
    ensures var b, b' := BoundaryOf(s), BoundaryOf(Step(s, e));
            b' == b || Advanced(b, b') || (Removes(e) && b'.None?)
  {
    match e
    case Post(index, m) => PostKeepsBoundary(s, index, m);
    case Begin(run, snapshot, size, masked) => BeginIsAhead(s, run, snapshot, size, masked);
    case Commit(run, entries) => CommitAdvances(s, run, entries);
    case Truncate(index) => TruncateKeepsBoundary(s, index);
    case _ =>
  }

  predicate NoRemoval(events: seq<Event>) {
    forall i :: 0 <= i < |events| ==> !Removes(events[i])
  }

  lemma {:induction false} RunMovesForward(s: State, events: seq<Event>)
    requires Inv(s) && Ahead(s) && Possible(s, events)
    ensures Ahead(Run(s, events))
    ensures NoRemoval(events) ==>
              BoundaryOf(Run(s, events)) == BoundaryOf(s) || Advanced(BoundaryOf(s), BoundaryOf(Run(s, events)))
    decreases |events|
  {
    if events != [] {
      StepKeepsInv(s, events[0]);
      StepMovesForward(s, events[0]);
      RunMovesForward(Step(s, events[0]), events[1..]);
    }
  }

  /** However rounds of cancelled and later runs overlap, between two removals the stored boundary only
      ever moves forward. */
  lemma {:induction false} BoundaryOnlyAdvances(before: seq<Event>, events: seq<Event>)
    requires Possible(EMPTY, before) && Possible(Run(EMPTY, before), events) && NoRemoval(events)
    ensures var s := Run(EMPTY, before);
            var b, b' := BoundaryOf(s), BoundaryOf(Run(s, events));
            b' == b || Advanced(b, b')
  {
    RunKeepsInv(EMPTY, before);
    RunMovesForward(EMPTY, before);
    RunMovesForward(Run(EMPTY, before), events);
  }
}
