/** What the shared budgets admit over whole runs of calls, all actions and subjects mixed. */
module RateBudgetRuns {
  import opened Basics
  import opened RateBudget

  datatype Policy = Policy(limit: int, window: nat)

  /** One committed call. */
  datatype Call = Call(action: string, subject: string, now: nat)

  /** A budget row: one action and subject in one window. */
  datatype Budget = Budget(action: string, subject: string, slot: nat)

  /** The settings of every action in use: a positive window and a name without a colon. */
  type Settings = map<string, Policy>

  ghost predicate Configured(settings: Settings, calls: seq<Call>) {
    && (forall a :: a in settings ==> settings[a].window > 0 && ':' !in a)
    && (forall i :: 0 <= i < |calls| ==> calls[i].action in settings)
    && (forall i, j {:trigger calls[i].now, calls[j].now} :: 0 <= i <= j < |calls| ==> calls[i].now <= calls[j].now)
  }

  ghost predicate ConfiguredFor(settings: Settings, b: Budget) {
    b.action in settings && settings[b.action].window > 0 && ':' !in b.action
  }

  /** The rows after some calls, and the answer to each call. */
  ghost function Run(settings: Settings, calls: seq<Call>): (map<string, Bucket>, seq<bool>)
    requires Configured(settings, calls)
  {
    if calls == [] then (map[], [])
    else
      var before := calls[..|calls| - 1];
      var c := calls[|calls| - 1];
      assert Configured(settings, before);
      var (buckets, answers) := Run(settings, before);
      var setting := settings[c.action];
      var (buckets', allowed) := Take(buckets, c.action, c.subject, setting.limit, setting.window, c.now);
      (buckets', answers + [allowed])
  }

  function Text(b: Budget): string {
    BucketText(b.action, b.slot, b.subject)
  }

  ghost predicate Draws(settings: Settings, c: Call, b: Budget) {
    && c.action == b.action && c.subject == b.subject && c.action in settings && settings[c.action].window > 0
    && Slot(c.now, settings[c.action].window) == b.slot
  }

  /** How many of the calls draw on a budget. */
  ghost function Calls(settings: Settings, calls: seq<Call>, b: Budget): nat {
    if calls == [] then 0
    else Calls(settings, calls[..|calls| - 1], b) + (if Draws(settings, calls[|calls| - 1], b) then 1 else 0)
  }

  /** How many of those are admitted. */
  ghost function Admitted(settings: Settings, calls: seq<Call>, answers: seq<bool>, b: Budget): nat
    requires |answers| == |calls|
  {
    if calls == [] then 0
    else
      var n := |calls| - 1;
      Admitted(settings, calls[..n], answers[..n], b)
      + (if Draws(settings, calls[n], b) && answers[n] then 1 else 0)
  }

  /** A first call always gets through, so a budget admits at least one. */
  function Capacity(p: Policy): nat {
    Max(1, p.limit)
  }

  function SlotEnd(settings: Settings, b: Budget): nat
    requires b.action in settings
  {
    (b.slot + 1) * settings[b.action].window * MICROS
  }

  /** A reading lies inside its slot. */
  lemma {:induction false} SlotBounds(now: nat, window: nat)
    requires window > 0
    ensures Slot(now, window) * window * MICROS <= now < (Slot(now, window) + 1) * window * MICROS
  {
    var seconds := now / MICROS;
    var slot := Slot(now, window);
    assert slot * window <= seconds < (slot + 1) * window by {
      assert seconds == window * (seconds / window) + seconds % window;
      assert window * slot == slot * window;
      assert (slot + 1) * window == slot * window + window;
    }
    assert slot * window * MICROS <= seconds * MICROS;
    assert (seconds + 1) * MICROS <= (slot + 1) * window * MICROS;
  }

  /** How the row of one budget stands after some calls, the latest of them at `now`. */
  ghost predicate RowSound(settings: Settings, calls: seq<Call>, buckets: map<string, Bucket>, b: Budget, now: nat)
    requires ConfiguredFor(settings, b)
  {
    var n := Calls(settings, calls, b);
    if Text(b) in buckets
    then n > 0 && buckets[Text(b)] == Bucket(Min(n, Capacity(settings[b.action])), SlotEnd(settings, b))
    else n == 0 || SlotEnd(settings, b) <= now
  }

  lemma {:induction false} RunLength(settings: Settings, calls: seq<Call>)
    requires Configured(settings, calls)
    ensures |Run(settings, calls).1| == |calls|
    decreases |calls|
  {
    if calls != [] {
      RunLength(settings, calls[..|calls| - 1]);
    }
  }

  /** One call leaves every budget's row as its count says, and is admitted exactly while the
      budget has room. */
  lemma {:induction false} TakeSound(settings: Settings, before: seq<Call>, c: Call, buckets: map<string, Bucket>,
                                     earlier: nat, b: Budget)
    requires ConfiguredFor(settings, b) && ConfiguredFor(settings, Budget(c.action, c.subject, 0))
    requires earlier <= c.now && RowSound(settings, before, buckets, b, earlier)
    ensures var setting := settings[c.action];
            var (buckets', allowed) := Take(buckets, c.action, c.subject, setting.limit, setting.window, c.now);
            && RowSound(settings, before + [c], buckets', b, c.now)
            && (Draws(settings, c, b) ==> (allowed <==> Calls(settings, before, b) < Capacity(settings[b.action])))
  {
    var calls := before + [c];
    assert calls[..|calls| - 1] == before;
    var own := Budget(c.action, c.subject, Slot(c.now, settings[c.action].window));
    SlotBounds(c.now, settings[c.action].window);
    if Text(own) == Text(b) {
      BucketTextInjective(own.action, own.slot, own.subject, b.action, b.slot, b.subject);
    }
  }

  function LastNow(calls: seq<Call>): nat {
    if calls == [] then 0 else calls[|calls| - 1].now
  }

  /** Over any run, every budget admits exactly the smaller of its calls and its capacity, and a
      row that has been drawn on is deleted only after its window has ended. */
  lemma {:induction false} BudgetIsExact(settings: Settings, calls: seq<Call>, b: Budget)
    requires Configured(settings, calls) && ConfiguredFor(settings, b)
    ensures var (buckets, answers) := Run(settings, calls);
            && |answers| == |calls|
            && RowSound(settings, calls, buckets, b, LastNow(calls))
            && Admitted(settings, calls, answers, b) == Min(Calls(settings, calls, b), Capacity(settings[b.action]))
    decreases |calls|
  {
    if calls != [] {
      var n := |calls| - 1;
      var before, c := calls[..n], calls[n];
      assert before + [c] == calls;
      assert Configured(settings, before);
      BudgetIsExact(settings, before, b);
      var (buckets, answers) := Run(settings, before);
      TakeSound(settings, before, c, buckets, LastNow(before), b);
      var (buckets', answers') := Run(settings, calls);
      assert answers'[..n] == answers;
    }
  }

  /** Admitted calls of one action and subject with a reading in the half-open interval. */
  ghost function AdmittedBetween(calls: seq<Call>, answers: seq<bool>, action: string, subject: string,
                                 from: int, to: int): nat
    requires |answers| == |calls|
  {
    if calls == [] then 0
    else
      var n := |calls| - 1;
      AdmittedBetween(calls[..n], answers[..n], action, subject, from, to)
      + (if calls[n].action == action && calls[n].subject == subject && from <= calls[n].now < to && answers[n]
         then 1 else 0)
  }

  /** A reading less than one window after `from` is in the slot of `from` or the next one. */
  lemma {:induction false} TwoSlots(from: nat, now: nat, window: nat)
    requires window > 0 && from <= now < from + window * MICROS
    ensures Slot(now, window) == Slot(from, window) || Slot(now, window) == Slot(from, window) + 1
  {
    var p := window * MICROS;
    SlotSpan(from, window, p);
    SlotSpan(now, window, p);
    NeighbouringMultiples(Slot(from, window), Slot(now, window), p, from, now);
  }

  lemma {:induction false} SlotSpan(now: nat, window: nat, p: nat)
    requires window > 0 && p == window * MICROS
    ensures Slot(now, window) * p <= now < Slot(now, window) * p + p
  {
    SlotBounds(now, window);
    var s := Slot(now, window);
    assert s * window * MICROS == s * p;
    assert (s + 1) * window * MICROS == s * p + p;
  }

  lemma {:induction false} NeighbouringMultiples(s: nat, t: nat, p: nat, from: nat, now: nat)
    requires s * p <= from < s * p + p && t * p <= now < t * p + p && from <= now < from + p
    ensures t == s || t == s + 1
  {
    if t < s {
      ProductOrder(t + 1, s, p);
    } else if t > s + 1 {
      ProductOrder(s + 2, t, p);
    }
  }

  lemma {:induction false} ProductOrder(a: nat, b: nat, p: nat)
    ensures a <= b ==> a * p <= b * p
  {
  }

  lemma {:induction false} IntervalInTwoSlots(settings: Settings, calls: seq<Call>, answers: seq<bool>,
                                              action: string, subject: string, from: nat)
    requires |answers| == |calls| && action in settings && settings[action].window > 0
    ensures var slot := Slot(from, settings[action].window);
            AdmittedBetween(calls, answers, action, subject, from, from + settings[action].window * MICROS)
            <= Admitted(settings, calls, answers, Budget(action, subject, slot))
               + Admitted(settings, calls, answers, Budget(action, subject, slot + 1))
    decreases |calls|
  {
    if calls != [] {
      var n := |calls| - 1;
      IntervalInTwoSlots(settings, calls[..n], answers[..n], action, subject, from);
      if calls[n].action == action && from <= calls[n].now < from + settings[action].window * MICROS {
        TwoSlots(from, calls[n].now, settings[action].window);
      }
    }
  }

  /** In any interval as long as the window, wherever it starts, no more than twice the capacity
      is admitted. */
  lemma {:induction false} AtMostTwiceTheLimit(settings: Settings, calls: seq<Call>, action: string, subject: string,
                                               from: nat)
    requires Configured(settings, calls) && action in settings
    ensures var answers := Run(settings, calls).1;
            && |answers| == |calls|
            && AdmittedBetween(calls, answers, action, subject, from, from + settings[action].window * 1_000_000)
               <= 2 * Capacity(settings[action])
  {
    var slot := Slot(from, settings[action].window);
    RunLength(settings, calls);
    BudgetIsExact(settings, calls, Budget(action, subject, slot));
    BudgetIsExact(settings, calls, Budget(action, subject, slot + 1));
    IntervalInTwoSlots(settings, calls, Run(settings, calls).1, action, subject, from);
  }
}
