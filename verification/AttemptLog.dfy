/** Attempt budgets as a property of a plain log of attempt times. */
module AttemptLog {
  import opened Basics

  datatype Bucket = Bucket(count: nat, resetAt: real)

  /** The window that the last attempt of a log belongs to: it opened with the first attempt that
      found no open window. */
  function Current(times: seq<real>, window: real): (b: Option<Bucket>)
    ensures b.None? <==> times == []
    ensures b.Some? ==> b.value.count >= 1
  {
    if times == [] then None
    else
      var n := |times| - 1;
      var before := Current(times[..n], window);
      if before.None? || before.value.resetAt <= times[n] then Some(Bucket(1, times[n] + window))
      else Some(before.value.(count := before.value.count + 1))
  }

  /** What the log alone says about one more attempt at `now`. */
  predicate Permits(times: seq<real>, window: real, max: int, now: real) {
    var b := Current(times, window);
    b.None? || b.value.resetAt <= now || b.value.count < max
  }

  /** The attempts that get through of a series of checks and records: those the log so far permits. */
  function Replayed(checks: seq<real>, records: seq<real>, window: real, max: int): seq<real>
    requires |checks| == |records|
  {
    if checks == [] then []
    else
      var n := |checks| - 1;
      var before := Replayed(checks[..n], records[..n], window, max);
      if Permits(before, window, max, checks[n]) then before + [records[n]] else before
  }

  /** What each check of the series is answered. */
  function Answers(checks: seq<real>, records: seq<real>, window: real, max: int): (r: seq<bool>)
    requires |checks| == |records|
    ensures |r| == |checks|
  {
    if checks == [] then []
    else
      var n := |checks| - 1;
      var before := Replayed(checks[..n], records[..n], window, max);
      Answers(checks[..n], records[..n], window, max) + [Permits(before, window, max, checks[n])]
  }

  lemma {:induction false} ReplayedNext(checks: seq<real>, records: seq<real>, i: nat, window: real, max: int)
    requires |checks| == |records| && i < |checks|
    ensures var before := Replayed(checks[..i], records[..i], window, max);
            && Replayed(checks[..i + 1], records[..i + 1], window, max)
                 == (if Permits(before, window, max, checks[i]) then before + [records[i]] else before)
            && Answers(checks[..i + 1], records[..i + 1], window, max)
                 == Answers(checks[..i], records[..i], window, max) + [Permits(before, window, max, checks[i])]
  {
    assert checks[..i + 1][..i] == checks[..i] && records[..i + 1][..i] == records[..i];
  }

  /** Each attempt was recorded after a check that permitted it, with no other attempt of the same
      key in between. */
  ghost predicate Disciplined(times: seq<real>, checks: seq<real>, window: real, max: int) {
    && |checks| == |times|
    && forall i :: 0 <= i < |times| ==>
         && checks[i] <= times[i]
         && (i > 0 ==> times[i - 1] <= checks[i])
         && Permits(times[..i], window, max, checks[i])
  }

  /** Recording one more attempt opens a window or joins the open one. */
  lemma {:induction false} CurrentNext(times: seq<real>, t: real, window: real)
    ensures var before := Current(times, window);
            Current(times + [t], window)
            == if before.None? || before.value.resetAt <= t then Some(Bucket(1, t + window))
               else Some(before.value.(count := before.value.count + 1))
  {
    assert (times + [t])[..|times|] == times;
  }

  lemma {:induction false} DisciplineNext(times: seq<real>, checks: seq<real>, t: real, c: real, window: real, max: int)
    requires Disciplined(times, checks, window, max)
    requires c <= t && (times != [] ==> times[|times| - 1] <= c) && Permits(times, window, max, c)
    ensures Disciplined(times + [t], checks + [c], window, max)
  {
    var times', checks' := times + [t], checks + [c];
    forall i | 0 <= i < |times'|
      ensures checks'[i] <= times'[i] && (i > 0 ==> times'[i - 1] <= checks'[i])
      ensures Permits(times'[..i], window, max, checks'[i])
    {
      if i < |times| {
        assert times'[..i] == times[..i];
      } else {
        assert times'[..i] == times;
      }
    }
  }

  /** An interval open at `hi`, and at `lo` unless `closed`. */
  datatype Range = Range(lo: real, closed: bool, hi: real)

  predicate In(x: real, r: Range) {
    (r.lo < x || (r.closed && x == r.lo)) && x < r.hi
  }

  function Count(times: seq<real>, r: Range): nat {
    if times == [] then 0
    else Count(times[..|times| - 1], r) + (if In(times[|times| - 1], r) then 1 else 0)
  }

  lemma {:induction false} CountWithin(times: seq<real>, r: Range, a: Range, b: Range)
    requires forall i :: 0 <= i < |times| ==> In(times[i], r) ==> In(times[i], a) || In(times[i], b)
    ensures Count(times, r) <= Count(times, a) + Count(times, b)
    decreases |times|
  {
    if times != [] {
      CountWithin(times[..|times| - 1], r, a, b);
    }
  }

  lemma {:induction false} CountInside(times: seq<real>, r: Range, a: Range)
    requires forall i :: 0 <= i < |times| ==> In(times[i], r) ==> In(times[i], a)
    ensures Count(times, r) <= Count(times, a)
    decreases |times|
  {
    if times != [] {
      CountInside(times[..|times| - 1], r, a);
    }
  }

  lemma {:induction false} CountNone(times: seq<real>, r: Range)
    requires forall i :: 0 <= i < |times| ==> !In(times[i], r)
    ensures Count(times, r) == 0
    decreases |times|
  {
    if times != [] {
      CountNone(times[..|times| - 1], r);
    }
  }

  /** One attempt is always let through, so the capacity is at least one. */
  function Capacity(max: int): nat {
    Max(1, max)
  }

  /** How the log stands around the window that opened at `a`: what the window holds, what of it
      came after its first attempt, and what fell into the window-length before it. */
  ghost predicate Shape(times: seq<real>, window: real, max: int)
    requires times != []
  {
    var b := Current(times, window).value;
    var a := b.resetAt - window;
    && b.count <= Capacity(max)
    && (forall i :: 0 <= i < |times| ==> times[i] <= times[|times| - 1] < b.resetAt)
    && a <= times[|times| - 1]
    && Count(times, Range(a, true, b.resetAt)) == b.count
    && Count(times, Range(a, false, b.resetAt)) <= b.count - 1
    && Count(times, Range(a - window, false, a)) <= Capacity(max) - 1
  }

  /** Attempts in the half-open interval of window length that starts at `from`. */
  function CountFrom(times: seq<real>, from: real, window: real): nat {
    Count(times, Range(from, true, from + window))
  }

  /** No interval of window length holds more than twice the capacity less one. */
  ghost predicate Bounded(times: seq<real>, window: real, max: int) {
    forall from: real :: CountFrom(times, from, window) <= 2 * Capacity(max) - 1
  }

  lemma {:induction false} OpensWindow(times: seq<real>, t: real, window: real, max: int)
    requires window > 0.0 && times != [] && Shape(times, window, max) && Bounded(times, window, max)
    requires Current(times, window).value.resetAt <= t
    ensures Shape(times + [t], window, max) && Bounded(times + [t], window, max)
  {
    var b := Current(times, window).value;
    var a := b.resetAt - window;
    var longer := times + [t];
    assert longer[..|times|] == times;
    assert Current(longer, window) == Some(Bucket(1, t + window));
    CountNone(times, Range(t, true, t + window));
    CountNone(times, Range(t, false, t + window));
    CountInside(times, Range(t - window, false, t), Range(a, false, b.resetAt));
    forall s: real ensures CountFrom(longer, s, window) <= 2 * Capacity(max) - 1 {
      assert CountFrom(times, s, window) <= 2 * Capacity(max) - 1;
      if In(t, Range(s, true, s + window)) {
        CountInside(times, Range(s, true, s + window), Range(a, false, b.resetAt));
      }
    }
  }

  lemma {:induction false} JoinsWindow(times: seq<real>, t: real, window: real, max: int)
    requires window > 0.0 && times != [] && Shape(times, window, max) && Bounded(times, window, max)
    requires times[|times| - 1] <= t < Current(times, window).value.resetAt
    requires Current(times, window).value.count < Capacity(max)
    ensures Shape(times + [t], window, max) && Bounded(times + [t], window, max)
  {
    var b := Current(times, window).value;
    var a := b.resetAt - window;
    var longer := times + [t];
    assert longer[..|times|] == times;
    assert Current(longer, window) == Some(Bucket(b.count + 1, b.resetAt));
    forall s: real ensures CountFrom(longer, s, window) <= 2 * Capacity(max) - 1 {
      assert CountFrom(times, s, window) <= 2 * Capacity(max) - 1;
      if In(t, Range(s, true, s + window)) {
        CountWithin(times, Range(s, true, s + window), Range(a, true, b.resetAt), Range(a - window, false, a));
      }
    }
  }

  lemma {:induction false} FirstAttempt(t: real, window: real, max: int)
    requires window > 0.0
    ensures Shape([t], window, max) && Bounded([t], window, max)
  {
    assert [t][..0] == [];
    assert Current([t], window) == Some(Bucket(1, t + window));
    forall s: real ensures CountFrom([t], s, window) <= 1 {
      assert Count([t][..0], Range(s, true, s + window)) == 0;
    }
  }

  // -------------------------------------------------------------- windows without counters

  /** Each attempt is no earlier than the one before. */
  predicate Sorted(times: seq<real>) {
    |times| > 1 ==> Sorted(times[..|times| - 1]) && times[|times| - 2] <= times[|times| - 1]
  }

  ghost predicate Monotone(times: seq<real>) {
    forall i, j :: 0 <= i < j < |times| ==> times[i] <= times[j]
  }

  lemma {:induction false} SortedIsMonotone(times: seq<real>)
    requires Sorted(times)
    ensures Monotone(times)
  {
    if |times| > 1 {
      var before := times[..|times| - 1];
      SortedIsMonotone(before);
      forall i, j | 0 <= i < j < |times| ensures times[i] <= times[j] {
        assert j < |before| ==> before[i] <= before[j];
        assert i < |before| - 1 ==> before[i] <= before[|before| - 1];
      }
    }
  }

  lemma {:induction false} SortedNext(times: seq<real>, t: real)
    requires Sorted(times) && (times != [] ==> times[|times| - 1] <= t)
    ensures Sorted(times + [t])
  {
    assert (times + [t])[..|times|] == times;
  }

  /** Attempt `k` opens a window: every window opened before it is over by then. */
  ghost predicate Opens(times: seq<real>, window: real, k: nat)
    requires k < |times|
    decreases k
  {
    forall j | 0 <= j < k && Opens(times, window, j) :: times[j] + window <= times[k]
  }

  /** The window that attempt `k` opened is still open at `now`. */
  ghost predicate OpenedBy(times: seq<real>, window: real, now: real, k: nat)
    requires k < |times|
  {
    Opens(times, window, k) && times[k] <= now < times[k] + window
  }

  /** Some window that is open at `now` already holds `max` attempts, or one if `max` is less. */
  ghost predicate Full(times: seq<real>, window: real, max: int, now: real) {
    exists k :: 0 <= k < |times| && OpenedBy(times, window, now, k)
      && Count(times, Range(times[k], true, times[k] + window)) >= Capacity(max)
  }

  lemma {:induction false} CountTail(times: seq<real>, k: nat, r: Range)
    requires k <= |times|
    requires forall i :: 0 <= i < |times| ==> (In(times[i], r) <==> k <= i)
    ensures Count(times, r) == |times| - k
    decreases |times|
  {
    if k < |times| {
      CountTail(times[..|times| - 1], k, r);
    } else {
      CountNone(times, r);
    }
  }

  /** Attempt `k` opened the window that the last of the first `n` attempts belongs to. */
  ghost predicate LastOpening(times: seq<real>, window: real, n: nat, k: nat)
    requires n <= |times|
  {
    && k < n && Opens(times, window, k)
    && Current(times[..n], window) == Some(Bucket(n - k, times[k] + window))
    && (forall j :: k < j < n ==> !Opens(times, window, j) && times[k] <= times[j] < times[k] + window)
    && (forall j :: 0 <= j < k ==> times[j] < times[k])
  }

  lemma {:induction false} JoinsLast(times: seq<real>, window: real, n: nat, k: nat)
    requires window > 0.0 && Monotone(times) && n < |times| && LastOpening(times, window, n, k)
    requires times[n] < times[k] + window
    ensures LastOpening(times, window, n + 1, k)
  {
    assert times[..n + 1] == times[..n] + [times[n]];
    CurrentNext(times[..n], times[n], window);
  }

  lemma {:induction false} OpensNext(times: seq<real>, window: real, n: nat, k: nat)
    requires window > 0.0 && Monotone(times) && n < |times| && LastOpening(times, window, n, k)
    requires times[k] + window <= times[n]
    ensures LastOpening(times, window, n + 1, n)
  {
    assert times[..n + 1] == times[..n] + [times[n]];
    CurrentNext(times[..n], times[n], window);
    assert forall j :: 0 <= j < n && Opens(times, window, j) ==> times[j] <= times[k];
  }

  lemma {:induction false} FirstOpening(times: seq<real>, window: real)
    requires times != []
    ensures LastOpening(times, window, 1, 0)
  {
    assert times[..1] == [] + [times[0]];
    CurrentNext([], times[0], window);
  }

  lemma {:induction false} FindOpening(times: seq<real>, window: real, n: nat) returns (k: nat)
    requires window > 0.0 && Monotone(times) && 0 < n <= |times|
    ensures LastOpening(times, window, n, k)
  {
    if n == 1 {
      k := 0;
      FirstOpening(times, window);
    } else {
      k := FindOpening(times, window, n - 1);
      if times[k] + window <= times[n - 1] {
        OpensNext(times, window, n - 1, k);
        k := n - 1;
      } else {
        JoinsLast(times, window, n - 1, k);
      }
    }
  }

  /** After the last attempt no other window than the last one opened can be open. */
  lemma {:induction false} OnlyTheLast(times: seq<real>, window: real, now: real, k: nat, j: nat)
    requires Monotone(times) && times != [] && times[|times| - 1] <= now && LastOpening(times, window, |times|, k)
    requires j < |times|
    ensures OpenedBy(times, window, now, j) <==> j == k && now < times[k] + window
  {
    assert times[k] <= times[|times| - 1];
    if j < k && Opens(times, window, j) {
      assert times[j] + window <= times[k];
    }
  }

  /** What the counter knows of that window. */
  lemma {:induction false} LastWindow(times: seq<real>, window: real) returns (k: nat)
    requires window > 0.0 && Monotone(times) && times != []
    ensures LastOpening(times, window, |times|, k)
    ensures Current(times, window) == Some(Bucket(|times| - k, times[k] + window))
    ensures Count(times, Range(times[k], true, times[k] + window)) == |times| - k
  {
    k := FindOpening(times, window, |times|);
    assert times[..|times|] == times;
    CountTail(times, k, Range(times[k], true, times[k] + window));
  }

  /** The counter refuses an attempt exactly when the log has a full window open. */
  lemma {:induction false} RefusedIffFull(times: seq<real>, window: real, max: int, now: real)
    requires window > 0.0 && Sorted(times) && (times != [] ==> times[|times| - 1] <= now)
    ensures Permits(times, window, max, now) <==> !Full(times, window, max, now)
  {
    if times != [] {
      SortedIsMonotone(times);
      var k := LastWindow(times, window);
      forall j | 0 <= j < |times|
        ensures OpenedBy(times, window, now, j) <==> j == k && now < times[k] + window
      {
        OnlyTheLast(times, window, now, k, j);
      }
    }
  }

  /** The records of those of the first `n` checks that were answered with yes. */
  function Admitted(records: seq<real>, answers: seq<bool>, n: nat): seq<real>
    requires n <= |records| && n <= |answers|
  {
    if n == 0 then [] else Admitted(records, answers, n - 1) + (if answers[n - 1] then [records[n - 1]] else [])
  }

  lemma {:induction false} AdmittedStays(records: seq<real>, answers: seq<bool>, more: seq<bool>, n: nat)
    requires n <= |records| && n <= |answers| && answers <= more
    ensures Admitted(records, more, n) == Admitted(records, answers, n)
  {
    if n > 0 {
      AdmittedStays(records, answers, more, n - 1);
    }
  }

  /** Check `i` was refused exactly when a window was open that already held as many admitted
      attempts as allowed. */
  ghost predicate Obeys(check: real, records: seq<real>, answers: seq<bool>, window: real, max: int, i: nat)
    requires i < |answers| && i < |records|
  {
    answers[i] <==> !Full(Admitted(records, answers, i), window, max, check)
  }

  lemma {:induction false} StillObeys(check: real, records: seq<real>, answers: seq<bool>, more: seq<bool>,
                                      window: real, max: int, i: nat)
    requires i < |answers| && i < |records| && answers <= more && Obeys(check, records, answers, window, max, i)
    ensures Obeys(check, records, more, window, max, i)
  {
    AdmittedStays(records, answers, more, i);
  }

  ghost predicate AllObey(checks: seq<real>, records: seq<real>, answers: seq<bool>, window: real, max: int)
    requires |answers| <= |checks| && |answers| <= |records|
  {
    forall i :: 0 <= i < |answers| ==> Obeys(checks[i], records, answers, window, max, i)
  }

  lemma {:induction false} AnswerNext(checks: seq<real>, records: seq<real>, answers: seq<bool>, answer: bool,
                                      window: real, max: int)
    requires |answers| < |checks| == |records| && AllObey(checks, records, answers, window, max)
    requires answer <==> !Full(Admitted(records, answers, |answers|), window, max, checks[|answers|])
    ensures AllObey(checks, records, answers + [answer], window, max)
    ensures Admitted(records, answers + [answer], |answers| + 1)
         == Admitted(records, answers, |answers|) + (if answer then [records[|answers|]] else [])
  {
    var more := answers + [answer];
    AdmittedStays(records, answers, more, |answers|);
    assert Obeys(checks[|answers|], records, more, window, max, |answers|);
    forall i | 0 <= i < |answers|
      ensures Obeys(checks[i], records, more, window, max, i)
    {
      StillObeys(checks[i], records, answers, more, window, max, i);
    }
  }

  // -------------------------------------------------------------- the bounds

  lemma {:induction false} DisciplineBefore(times: seq<real>, checks: seq<real>, window: real, max: int)
    requires times != [] && Disciplined(times, checks, window, max)
    ensures var n := |times| - 1;
            && Disciplined(times[..n], checks[..n], window, max)
            && Permits(times[..n], window, max, checks[n]) && checks[n] <= times[n]
            && (n > 0 ==> times[n - 1] <= checks[n])
  {
    var n := |times| - 1;
    assert forall i :: 0 <= i < n ==> times[..n][..i] == times[..i];
  }

  /** Under the check-then-record discipline a window never holds more than the capacity, and any
      half-open interval of window length holds at most twice the capacity less one. */
  lemma {:induction false} DisciplineBounds(times: seq<real>, checks: seq<real>, window: real, max: int)
    requires window > 0.0 && Disciplined(times, checks, window, max)
    ensures times != [] ==> Shape(times, window, max)
    ensures Bounded(times, window, max)
    decreases |times|
  {
    if times == [] {
    } else if |times| == 1 {
      assert times == [times[0]];
      FirstAttempt(times[0], window, max);
    } else {
      var n := |times| - 1;
      DisciplineBefore(times, checks, window, max);
      DisciplineBounds(times[..n], checks[..n], window, max);
      NextAttempt(times[..n], times[n], checks[n], window, max);
      assert times == times[..n] + [times[n]];
    }
  }

  lemma {:induction false} NextAttempt(times: seq<real>, t: real, c: real, window: real, max: int)
    requires window > 0.0 && times != [] && Shape(times, window, max) && Bounded(times, window, max)
    requires times[|times| - 1] <= c <= t && Permits(times, window, max, c)
    ensures Shape(times + [t], window, max) && Bounded(times + [t], window, max)
  {
    if Current(times, window).value.resetAt <= t {
      OpensWindow(times, t, window, max);
    } else {
      JoinsWindow(times, t, window, max);
    }
  }

  /** Each attempt is checked, then recorded, before the next one is checked. */
  predicate Timed(checks: seq<real>, records: seq<real>) {
    && |checks| == |records|
    && (forall i :: 0 <= i < |checks| ==> checks[i] <= records[i])
    && (forall i :: 0 < i < |checks| ==> records[i - 1] <= checks[i])
  }

  /** What gets through was checked one attempt after the other. */
  lemma {:induction false} ReplayedIsDisciplined(checks: seq<real>, records: seq<real>, n: nat, window: real, max: int)
    returns (passed: seq<real>)
    requires Timed(checks, records) && n <= |checks|
    ensures var times := Replayed(checks[..n], records[..n], window, max);
            && Disciplined(times, passed, window, max)
            && (times != [] ==> n > 0 && times[|times| - 1] <= records[n - 1])
  {
    if n == 0 {
      passed := [];
    } else {
      var times := Replayed(checks[..n - 1], records[..n - 1], window, max);
      passed := ReplayedIsDisciplined(checks, records, n - 1, window, max);
      ReplayedNext(checks, records, n - 1, window, max);
      if Permits(times, window, max, checks[n - 1]) {
        DisciplineNext(times, passed, records[n - 1], checks[n - 1], window, max);
        passed := passed + [checks[n - 1]];
      }
    }
  }

  /** So it stays within the bounds. */
  lemma {:induction false} ReplayedIsBounded(checks: seq<real>, records: seq<real>, window: real, max: int)
    requires Timed(checks, records) && window > 0.0
    ensures var times := Replayed(checks, records, window, max);
            && Bounded(times, window, max)
            && (times != [] ==> Current(times, window).Some? && Current(times, window).value.count <= Capacity(max))
  {
    var passed := ReplayedIsDisciplined(checks, records, |checks|, window, max);
    assert checks[..|checks|] == checks && records[..|records|] == records;
    DisciplineBounds(Replayed(checks, records, window, max), passed, window, max);
  }

  ghost predicate Obedient(checks: seq<real>, records: seq<real>, answers: seq<bool>, times: seq<real>, window: real,
                           max: int) {
    && |answers| <= |checks| && |answers| <= |records|
    && AllObey(checks, records, answers, window, max)
    && times == Admitted(records, answers, |answers|) && Sorted(times)
  }

  /** The answers are exactly those the windows of the log call for. */
  lemma {:induction false} AnswersObey(checks: seq<real>, records: seq<real>, n: nat, window: real, max: int)
    requires Timed(checks, records) && n <= |checks| && window > 0.0
    ensures Obedient(checks, records, Answers(checks[..n], records[..n], window, max),
                     Replayed(checks[..n], records[..n], window, max), window, max)
  {
    if n > 0 {
      var answers := Answers(checks[..n - 1], records[..n - 1], window, max);
      var times := Replayed(checks[..n - 1], records[..n - 1], window, max);
      AnswersObey(checks, records, n - 1, window, max);
      ObeysNext(checks, records, answers, times, window, max);
      ReplayedNext(checks, records, n - 1, window, max);
    }
  }

  lemma {:induction false} ObeysNext(checks: seq<real>, records: seq<real>, answers: seq<bool>, times: seq<real>,
                                     window: real, max: int)
    requires Timed(checks, records) && |answers| < |checks| && window > 0.0
    requires Obedient(checks, records, answers, times, window, max)
    ensures var n := |answers|;
            var answer := Permits(times, window, max, checks[n]);
            Obedient(checks, records, answers + [answer], if answer then times + [records[n]] else times, window, max)
  {
    var n := |answers|;
    var answer := Permits(times, window, max, checks[n]);
    LastAdmitted(checks, records, answers, n);
    assert answer <==> !Full(times, window, max, checks[n]) by {
      RefusedIffFull(times, window, max, checks[n]);
    }
    AnswerNext(checks, records, answers, answer, window, max);
    SortedNext(times, records[n]);
  }

  lemma {:induction false} LastAdmitted(checks: seq<real>, records: seq<real>, answers: seq<bool>, n: nat)
    requires Timed(checks, records) && n <= |answers| && n < |checks|
    ensures var times := Admitted(records, answers, n); times != [] ==> times[|times| - 1] <= checks[n] <= records[n]
  {
    if n > 0 {
      LastAdmitted(checks, records, answers, n - 1);
    }
  }

  /** A timed series answers as its log calls for and stays within the bounds. */
  lemma {:induction false} SeriesIsGuarded(checks: seq<real>, records: seq<real>, window: real, max: int)
    requires Timed(checks, records) && window > 0.0
    ensures var answers, times := Answers(checks, records, window, max), Replayed(checks, records, window, max);
            && AllObey(checks, records, answers, window, max)
            && times == Admitted(records, answers, |records|)
            && Bounded(times, window, max)
            && (times != [] ==> Current(times, window).Some? && Current(times, window).value.count <= Capacity(max))
  {
    assert checks[..|checks|] == checks && records[..|records|] == records;
    AnswersObey(checks, records, |checks|, window, max);
    ReplayedIsBounded(checks, records, window, max);
  }
}
