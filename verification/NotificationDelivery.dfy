/** What the notification queue guarantees over whole runs. */
module NotificationDelivery {
  import opened Basics
  import opened Notifications

  function Start(now: int): State {
    State(now, map[], map[], map[])
  }

  predicate Possible(s: State, events: seq<Event>)
    decreases |events|
  {
    events == [] || (Enabled(s, events[0]) && Possible(Step(s, events[0]), events[1..]))
  }

  function Run(s: State, events: seq<Event>): State
    requires Possible(s, events)
    decreases |events|
  {
    if events == [] then s else Run(Step(s, events[0]), events[1..])
  }

  lemma {:induction false} RunKeepsInv(s: State, events: seq<Event>)
    requires Inv(s) && Possible(s, events)
    ensures Inv(Run(s, events))
    decreases |events|
  {
    if events != [] {
      StepKeepsInv(s, events[0]);
      RunKeepsInv(Step(s, events[0]), events[1..]);
    }
  }

  /** In every reachable state an unsent row has its recipient, and a sent row holds no address
      and no lease and was completed by exactly one claim, whose send had returned before. */
  lemma {:induction false} RowsStaySound(now: int, events: seq<Event>, job: nat)
    requires Possible(Start(now), events) && job in Run(Start(now), events).rows
    ensures var s := Run(Start(now), events);
            var r := s.rows[job];
            && (r.sentAt.None? ==> r.recipient.Some?)
            && (r.sentAt.Some? ==> r.recipient.None? && r.account.None? && r.leaseToken.None? && r.leaseUntil.None?)
            && (r.sentAt.Some? ==> exists t :: t in s.claims && IsCompletion(s, t, job))
            && (forall t, u :: t in s.claims && u in s.claims && IsCompletion(s, t, job) && IsCompletion(s, u, job)
                  ==> t == u)
  {
    RunKeepsInv(Start(now), events);
    var s := Run(Start(now), events);
    assert RowSound(s, job);
    if s.rows[job].sentAt.Some? {
      var t :| t in s.claims && Completes(s, t, job);
      assert ClaimSound(s, t);
      assert IsCompletion(s, t, job);
    }
    forall t, u | t in s.claims && u in s.claims && IsCompletion(s, t, job) && IsCompletion(s, u, job)
      ensures t == u
    {
      assert PairSound(s, t, u);
    }
  }

  /** Claim `t` completed the job: its send had returned first, and its update is the one
      the row's sent time comes from. */
  ghost predicate IsCompletion(s: State, t: nat, job: nat)
    requires t in s.claims
  {
    var c := s.claims[t];
    && c.job == job && c.completed && c.sent.Some? && c.marked.Some? && c.sent.value <= c.marked.value
    && job in s.rows && s.rows[job].sentAt == c.marked
  }

  /** Only the worker that carries the row's current token, after its send
      returned, sets a sent time. */
  lemma {:induction false} OnlyTheHolderCompletes(s: State, e: Event, job: nat)
    requires Inv(s) && Enabled(s, e)
    requires job in s.rows && Step(s, e).rows[job].sentAt != s.rows[job].sentAt
    ensures e.Complete? && WorkerAt(s, e.w).Returned?
    ensures WorkerAt(s, e.w).job == job && s.rows[job].leaseToken == Some(WorkerAt(s, e.w).token)
    ensures WorkerAt(s, e.w).token in s.claims && s.claims[WorkerAt(s, e.w).token].sent.Some?
    ensures s.rows[job].sentAt.None?
  {
    assert RowSound(s, job);
    match e
    case Complete(w) => assert WorkerSound(s, w);
    case _ =>
  }

  /** A sent row never changes again. */
  lemma {:induction false} SentIsFinal(s: State, events: seq<Event>, job: nat)
    requires Inv(s) && Possible(s, events)
    requires job in s.rows && s.rows[job].sentAt.Some?
    ensures job in Run(s, events).rows && Run(s, events).rows[job] == s.rows[job]
    decreases |events|
  {
    if events != [] {
      SentRowUnchanged(s, events[0], job);
      StepKeepsInv(s, events[0]);
      SentIsFinal(Step(s, events[0]), events[1..], job);
    }
  }

  lemma {:induction false} SentRowUnchanged(s: State, e: Event, job: nat)
    requires Inv(s) && Enabled(s, e)
    requires job in s.rows && s.rows[job].sentAt.Some?
    ensures job in Step(s, e).rows && Step(s, e).rows[job] == s.rows[job]
  {
    assert RowSound(s, job);
  }

  /** Two returned sends for one job mean that the later claim was made when the earlier
      lease had already run out. */
  lemma {:induction false} SecondSendNeedsExpiredLease(now: int, events: seq<Event>, t: nat, u: nat)
    requires Possible(Start(now), events)
    requires var s := Run(Start(now), events);
             && t in s.claims && u in s.claims && t != u && s.claims[t].job == s.claims[u].job
             && s.claims[t].sent.Some? && s.claims[u].sent.Some?
    ensures var s := Run(Start(now), events);
            s.claims[t].until <= s.claims[u].at || s.claims[u].until <= s.claims[t].at
  {
    RunKeepsInv(Start(now), events);
    var s := Run(Start(now), events);
    assert PairSound(s, t, u) && ClaimSound(s, t) && ClaimSound(s, u);
  }

  /** Every returned send was marked complete before its lease ran out. */
  ghost predicate Punctual(s: State) {
    forall t :: t in s.claims && s.claims[t].sent.Some? ==>
      s.claims[t].marked.Some? && s.claims[t].marked.value < s.claims[t].until
  }

  /** With punctual workers at most one send returns for every event, and one did exactly when its row
      is marked sent. */
  lemma {:induction false} PunctualMeansExactlyOnce(now: int, events: seq<Event>, job: nat)
    requires Possible(Start(now), events) && Punctual(Run(Start(now), events))
    requires job in Run(Start(now), events).rows
    ensures var s := Run(Start(now), events);
            && (forall t, u :: t in s.claims && u in s.claims && IsSend(s, t, job) && IsSend(s, u, job) ==> t == u)
            && (s.rows[job].sentAt.Some? <==> exists t :: t in s.claims && IsSend(s, t, job))
  {
    RunKeepsInv(Start(now), events);
    var s := Run(Start(now), events);
    forall t | t in s.claims && IsSend(s, t, job) ensures s.claims[t].completed && s.rows[job].sentAt.Some? {
      assert ClaimSound(s, t);
    }
    forall t, u | t in s.claims && u in s.claims && IsSend(s, t, job) && IsSend(s, u, job) ensures t == u {
      assert PairSound(s, t, u);
    }
    assert RowSound(s, job);
    if s.rows[job].sentAt.Some? {
      var t :| t in s.claims && Completes(s, t, job);
      assert ClaimSound(s, t);
      assert IsSend(s, t, job);
    }
  }

  ghost predicate IsSend(s: State, t: nat, job: nat)
    requires t in s.claims
  {
    s.claims[t].job == job && s.claims[t].sent.Some?
  }

  ghost predicate Reachable(s: State) {
    exists now, events :: Possible(Start(now), events) && Run(Start(now), events) == s
  }

  lemma {:induction false} ReachStep(s: State, e: Event)
    requires Reachable(s) && Enabled(s, e)
    ensures Reachable(Step(s, e))
  {
    var now, events :| Possible(Start(now), events) && Run(Start(now), events) == s;
    RunConcat(Start(now), events, [e]);
  }

  lemma {:induction false} RunConcat(s: State, a: seq<Event>, b: seq<Event>)
    requires Possible(s, a) && Possible(Run(s, a), b)
    ensures Possible(s, a + b) && Run(s, a + b) == Run(Run(s, a), b)
    decreases |a|
  {
    if a == [] {
      assert a + b == b;
    } else {
      assert (a + b)[1..] == a[1..] + b;
      RunConcat(Step(s, a[0]), a[1..], b);
    }
  }

  ghost predicate SentTwice(s: State) {
    exists t, u :: t in s.claims && u in s.claims && t != u && s.claims[t].job == s.claims[u].job
      && s.claims[t].sent.Some? && s.claims[u].sent.Some?
  }

  /** An idle worker can take an eligible job and have its send return. */
  lemma {:induction false} TakeAndSend(s: State, w: nat, token: nat, job: nat, lease: int) returns (s': State)
    requires Reachable(s) && WorkerAt(s, w).Idle? && token !in s.claims
    requires job in s.rows && Eligible(s.rows[job], s.now)
    ensures Reachable(s') && s'.now == s.now && job in s'.rows
    ensures s'.claims == s.claims[token := Claim(job, s.now, s.now + lease, Some(s.now), None, false, false)]
    ensures s'.rows[job].sentAt.None? && s'.rows[job].availableAt <= s.now
    ensures s'.rows[job].leaseUntil == Some(s.now + lease)
    ensures forall v :: v != w ==> WorkerAt(s', v) == WorkerAt(s, v)
  {
    ReachStep(s, List(w, [job]));
    var listed := Step(s, List(w, [job]));
    assert WorkerAt(listed, w) == Listed(s.now, [job]);
    ReachStep(listed, TryClaim(w, token, lease));
    var claimed := Step(listed, TryClaim(w, token, lease));
    assert WorkerAt(claimed, w) == Holding(s.now, [], job, token, s.rows[job].attempts + 1);
    ReachStep(claimed, Send(w, true));
    s' := Step(claimed, Send(w, true));
  }

  /** Without punctuality delivery is at least once only: a worker that crashes between the
      send's return and its completion update leads to a second one. */
  lemma {:induction false} DuplicateSendIsPossible()
    ensures exists s :: Reachable(s) && SentTwice(s)
  {
    var s0 := Start(0);
    assert Possible(s0, []) && Run(s0, []) == s0;
    ReachStep(s0, Enqueue(7, 1, None));
    var s1 := TakeAndSend(Step(s0, Enqueue(7, 1, None)), 0, 100, 7, 120);
    assert WorkerAt(s1, 1) == Idle;
    ReachStep(s1, Crash(0));
    ReachStep(Step(s1, Crash(0)), Tick(120));
    var s2 := TakeAndSend(Step(Step(s1, Crash(0)), Tick(120)), 1, 101, 7, 120);
    assert s2.claims[100].sent.Some? && s2.claims[101].sent.Some?;
  }
}
