/** `context_events`: what one answer is given of its conversation, and the compaction rounds
    that move older turns behind a summary. */
module Continuity {
  import opened Basics
  import opened Transcript
  import opened RecentWindow

  const TAIL_ROWS := 65
  const CEILING := 64
  const PROTECTED_CEILING := 32
  const PROTECTED_TOKENS := 8000
  const PREFIX_TOKENS := 16000
  const LEGACY_ROWS := 6

  // ---------------------------------------------------------------- the gap flag

  /** A masked reply keeps its place and id; its content becomes a notice of `notice` tokens. */
  function Mask(m: Message, masked: set<nat>, notice: nat): Message {
    if m.id in masked then m.(tokens := notice) else m
  }

  function MaskAll(s: seq<Message>, masked: set<nat>, notice: nat): (r: seq<Message>)
    ensures |r| == |s|
    ensures forall i :: 0 <= i < |s| ==> r[i] == Mask(s[i], masked, notice)
  {
    seq(|s|, i requires 0 <= i < |s| => Mask(s[i], masked, notice))
  }

  /** The `history_incomplete` flag as it is computed. */
  predicate HistoryIncomplete(tail: seq<Message>, recent: seq<Message>, selected: seq<Message>,
                              boundary: Option<Message>) {
    || (recent != [] && selected != [] && recent[0].id != selected[0].id)
    || (|tail| == TAIL_ROWS && boundary.None?)
  }

  /** Some message after the covered boundary is not among the delivered ones. */
  ghost predicate SomethingMissing(t: seq<Message>, boundary: Option<Message>, delivered: seq<Message>) {
    exists i :: 0 <= i < |t| && IsAfter(t[i], boundary) && t[i].id !in Ids(delivered)
  }

  /** `delivered` stands, id by id, for the last messages of the transcript. */
  ghost predicate IsLatest(t: seq<Message>, delivered: seq<Message>) {
    && |delivered| <= |t|
    && forall j :: 0 <= j < |delivered| ==> delivered[j].id == t[|t| - |delivered| + j].id
  }

  /** Delivering the latest messages misses something exactly when more than those lie after the
      boundary, which cuts the transcript at `k`. */
  lemma {:induction false} MissingIffShorter(t: seq<Message>, boundary: Option<Message>, k: nat,
                                             delivered: seq<Message>)
    requires DistinctIds(t) && IsLatest(t, delivered)
    requires |delivered| <= |t| - k
    requires forall i :: 0 <= i < |t| ==> (IsAfter(t[i], boundary) <==> k <= i)
    ensures SomethingMissing(t, boundary, delivered) <==> |delivered| < |t| - k
  {
    var start := |t| - |delivered|;
    if |delivered| < |t| - k {
      assert forall j :: 0 <= j < |delivered| ==> delivered[j].id != t[k].id;
      assert t[k].id !in Ids(delivered);
      assert IsAfter(t[k], boundary);
    } else {
      forall i | 0 <= i < |t| && IsAfter(t[i], boundary) ensures t[i].id in Ids(delivered) {
        assert delivered[i - start] in delivered;
      }
    }
  }

  /** What the window is taken from: the masked rows of the tail after the boundary. */
  function RecentRows(t: seq<Message>, boundary: Option<Message>, masked: set<nat>, notice: nat): seq<Message> {
    MaskAll(After(Last(t, TAIL_ROWS), boundary), masked, notice)
  }

  /** How many rows that is, and that they are the latest ones. */
  lemma {:induction false} RecentRowsAreLatest(t: seq<Message>, boundary: Option<Message>, masked: set<nat>,
                                               notice: nat)
    requires Chronological(t)
    ensures var recent := RecentRows(t, boundary, masked, notice);
            && IsLatest(t, recent)
            && |recent| == Min(TAIL_ROWS, |t| - FirstAfter(t, boundary))
  {
    AfterTail(t, TAIL_ROWS, boundary);
  }

  /** A window over the latest rows is itself the latest rows, never more than its ceiling. */
  lemma {:induction false} WindowIsLatest(t: seq<Message>, recent: seq<Message>, budget: int, ceiling: int,
                                          selected: seq<Message>)
    requires IsLatest(t, recent) && ceiling >= 1
    requires IsWindow(recent, budget, ceiling, selected)
    ensures IsLatest(t, selected)
    ensures |selected| <= ceiling && |selected| <= |recent|
    ensures recent != [] ==> selected != []
  {
    if |selected| > 1 {
      assert Admissible(recent, budget, ceiling, |recent| - |selected|);
    }
  }

  lemma {:induction false} FirstIdsTell(t: seq<Message>, recent: seq<Message>, selected: seq<Message>)
    requires DistinctIds(t) && IsLatest(t, recent) && IsLatest(t, selected)
    requires |selected| <= |recent| && (recent != [] ==> selected != [])
    ensures (recent != [] && recent[0].id != selected[0].id) <==> |selected| < |recent|
  {
    if recent != [] {
      assert recent[0].id == t[|t| - |recent|].id;
      assert selected[0].id == t[|t| - |selected|].id;
    }
  }

  /** The flag is exact for every transcript, boundary, mask and budget. Transcripts that
      outgrow the fetched tail are caught because the ceiling is below the tail size. */
  lemma {:induction false} HistoryFlagExact(t: seq<Message>, boundary: Option<Message>, masked: set<nat>,
                                            notice: nat, budget: int, selected: seq<Message>)
    requires IsTranscript(t)
    requires IsWindow(RecentRows(t, boundary, masked, notice), budget, CEILING, selected)
    ensures HistoryIncomplete(Last(t, TAIL_ROWS), RecentRows(t, boundary, masked, notice), selected, boundary)
       <==> SomethingMissing(t, boundary, selected)
  {
    var k := FirstAfter(t, boundary);
    var recent := RecentRows(t, boundary, masked, notice);
    assert IsLatest(t, recent) && |recent| == Min(TAIL_ROWS, |t| - k) by {
      RecentRowsAreLatest(t, boundary, masked, notice);
    }
    WindowIsLatest(t, recent, budget, CEILING, selected);
    FirstIdsTell(t, recent, selected);
    assert SomethingMissing(t, boundary, selected) <==> |selected| < |t| - k by {
      AfterIsSuffix(t, boundary);
      MissingIffShorter(t, boundary, k, selected);
    }
  }

  // ---------------------------------------------------------------- one compaction round

  /** The boundary does not separate a user message from the reply that follows it. */
  ghost predicate KeepsTurnsWhole(t: seq<Message>, boundary: Message) {
    forall i :: 0 <= i < |t| - 1 && t[i] == boundary && t[i].role == User ==> t[i + 1].role == User
  }

  /** What a round is allowed to cover: the messages right after the boundary, none of them
      protected, within the round's token limit and without splitting a turn. */
  ghost predicate RoundPrefix(t: seq<Message>, boundary: Option<Message>, suffix: seq<Message>,
                              prefix: seq<Message>) {
    && prefix != []
    && prefix <= After(t, boundary)
    && Total(prefix) <= 16000
    && (forall m :: m in suffix ==> Before(prefix[|prefix| - 1], m))
    && KeepsTurnsWhole(t, prefix[|prefix| - 1])
  }

  /** Collecting rows for a round cannot go past the first `n` candidates. */
  predicate StopsAt(candidates: seq<Message>, protectedIds: set<nat>, n: nat) {
    || n >= |candidates|
    || candidates[n].id in protectedIds
    || (n == 0 && candidates[n].role == Assistant)
    || Total(candidates[..n + 1]) > PREFIX_TOKENS
  }

  /** What a round covers: the longest run of candidates it may collect, less its last row when
      that row is a user message. */
  ghost predicate IsChosen(candidates: seq<Message>, protectedIds: set<nat>, prefix: seq<Message>) {
    && prefix <= candidates
    && (forall n :: 0 <= n < |prefix| ==> !StopsAt(candidates, protectedIds, n))
    && if StopsAt(candidates, protectedIds, |prefix|)
       then prefix == [] || prefix[|prefix| - 1].role == Assistant
       else candidates[|prefix|].role == User && StopsAt(candidates, protectedIds, |prefix| + 1)
  }

  lemma {:induction false} ChosenIsUnique(candidates: seq<Message>, protectedIds: set<nat>,
                                          a: seq<Message>, b: seq<Message>)
    requires IsChosen(candidates, protectedIds, a) && IsChosen(candidates, protectedIds, b)
    ensures a == b
  {
  }

  /** The loop that collects the rows a round covers. */
  method ChoosePrefix(candidates: seq<Message>, protectedIds: set<nat>) returns (prefix: seq<Message>)
    ensures IsChosen(candidates, protectedIds, prefix)
  {
    prefix := [];
    var total := 0;
    var i := 0;
    while i < |candidates|
      invariant 0 <= i <= |candidates|
      invariant prefix == candidates[..i]
      invariant total == Total(prefix) <= PREFIX_TOKENS
      invariant forall n :: 0 <= n < i ==> !StopsAt(candidates, protectedIds, n)
    {
      var row := candidates[i];
      if row.id in protectedIds || (row.role == Assistant && prefix == []) {
        break;
      }
      var size := MessageTokens(row);
      TotalAppend(prefix, row);
      assert candidates[..i + 1] == prefix + [row];
      if total + size > PREFIX_TOKENS {
        break;
      }
      prefix := prefix + [row];
      total := total + size;
      i := i + 1;
    }
    if prefix != [] && prefix[|prefix| - 1].role == User {
      prefix := prefix[..|prefix| - 1];
    }
  }

  /** What follows from the choice for the round's safety. */
  lemma {:induction false} ChosenIsSafe(candidates: seq<Message>, protectedIds: set<nat>, prefix: seq<Message>)
    requires IsChosen(candidates, protectedIds, prefix) && prefix != []
    ensures Total(prefix) <= PREFIX_TOKENS
    ensures forall m :: m in prefix ==> m.id !in protectedIds
    ensures prefix[|prefix| - 1].role == User ==>
              |prefix| < |candidates| && candidates[|prefix|].role == User
  {
    var n := |prefix| - 1;
    assert candidates[..n + 1] == prefix;
    assert !StopsAt(candidates, protectedIds, n);
    forall m | m in prefix ensures m.id !in protectedIds {
      var i :| 0 <= i < |prefix| && prefix[i] == m;
      assert !StopsAt(candidates, protectedIds, i);
    }
  }

  /** Every row a round covers precedes the whole protected suffix. */
  lemma {:induction false} CoversNothingProtected(t: seq<Message>, suffix: seq<Message>, at: nat)
    requires IsTranscript(t)
    requires |suffix| <= |t| && suffix == t[|t| - |suffix|..]
    requires at < |t| && t[at].id !in Ids(suffix)
    ensures forall m :: m in suffix ==> Before(t[at], m)
  {
    var start := |t| - |suffix|;
    assert at < start by {
      forall i | start <= i < |t| ensures t[i].id in Ids(suffix) {
        assert t[i] == suffix[i - start];
      }
    }
    forall m | m in suffix ensures Before(t[at], m) {
      var j :| 0 <= j < |suffix| && suffix[j] == m;
      assert m == t[start + j];
    }
  }

  lemma {:induction false} WindowIsTranscriptSuffix(t: seq<Message>, budget: int, ceiling: int, suffix: seq<Message>)
    requires IsWindow(Last(t, TAIL_ROWS), budget, ceiling, suffix)
    ensures |suffix| <= |t| && suffix == t[|t| - |suffix|..]
  {
  }

  /** A prefix of the rows after the boundary, with its last row located in the transcript. */
  lemma {:induction false} LocatePrefix(t: seq<Message>, boundary: Option<Message>, prefix: seq<Message>)
    requires IsTranscript(t) && prefix != [] && prefix <= After(t, boundary)
    ensures FirstAfter(t, boundary) + |prefix| <= |t|
    ensures prefix == t[FirstAfter(t, boundary)..FirstAfter(t, boundary) + |prefix|]
    ensures forall m :: m in prefix ==> IsAfter(m, boundary)
  {
    AfterIsSuffix(t, boundary);
    var k := FirstAfter(t, boundary);
    forall m | m in prefix ensures IsAfter(m, boundary) {
      var j :| 0 <= j < |prefix| && prefix[j] == m;
      assert m == t[k + j];
    }
  }

  /** A chosen prefix of the rows after the boundary meets everything a round promises. */
  lemma {:induction false} ChosenPrefixIsSafe(t: seq<Message>, boundary: Option<Message>, suffix: seq<Message>,
                           prefix: seq<Message>)
    requires IsTranscript(t) && prefix != [] && prefix <= After(t, boundary)
    requires |suffix| <= |t| && suffix == t[|t| - |suffix|..]
    requires Total(prefix) <= PREFIX_TOKENS
    requires forall m :: m in prefix ==> m.id !in Ids(suffix)
    requires prefix[|prefix| - 1].role == User ==>
               |prefix| < |After(t, boundary)| && After(t, boundary)[|prefix|].role == User
    ensures RoundPrefix(t, boundary, suffix, prefix)
  {
    LocatePrefix(t, boundary, prefix);
    AfterIsSuffix(t, boundary);
    var at := FirstAfter(t, boundary) + |prefix| - 1;
    assert t[at] == prefix[|prefix| - 1];
    assert t[at] in prefix;
    CoversNothingProtected(t, suffix, at);
    assert |prefix| < |After(t, boundary)| ==> t[at + 1] == After(t, boundary)[|prefix|];
    assert forall i :: 0 <= i < |t| && t[i].id == t[at].id ==> i == at;
  }

  /** The rows a round may cover: the first ones after the boundary. */
  function Candidates(t: seq<Message>, boundary: Option<Message>): seq<Message> {
    var following := After(t, boundary);
    if |following| <= TAIL_ROWS then following else following[..TAIL_ROWS]
  }

  /** They are up to 65 rows, without a gap, from the first one after the boundary on. */
  lemma {:induction false} CandidatesAreNext(t: seq<Message>, boundary: Option<Message>)
    requires Chronological(t)
    ensures var k := FirstAfter(t, boundary); Candidates(t, boundary) == t[k..Min(k + 65, |t|)]
  {
    AfterIsSuffix(t, boundary);
  }

  /** Choosing what one round covers. */
  method PlanRound(t: seq<Message>, boundary: Option<Message>, budget: int)
    returns (prefix: seq<Message>, suffix: seq<Message>)
    requires IsTranscript(t)
    ensures IsWindow(Last(t, TAIL_ROWS), Min(PROTECTED_TOKENS, budget), PROTECTED_CEILING, suffix)
    ensures IsChosen(Candidates(t, boundary), Ids(suffix), prefix)
    ensures prefix != [] ==> RoundPrefix(t, boundary, suffix, prefix)
  {
    var candidates := Candidates(t, boundary);
    suffix := SelectRecent(Last(t, TAIL_ROWS), Min(PROTECTED_TOKENS, budget), PROTECTED_CEILING);
    prefix := ChoosePrefix(candidates, Ids(suffix));
    if prefix != [] {
      ChosenIsSafe(candidates, Ids(suffix), prefix);
      WindowIsTranscriptSuffix(t, Min(PROTECTED_TOKENS, budget), PROTECTED_CEILING, suffix);
      ChosenPrefixIsSafe(t, boundary, suffix, prefix);
    }
  }
}
