/** Retries of the notification queue over whole runs: how often a job was tried, and how long it waits
    after a failure. */
module NotificationRetries {
  import opened Basics
  import opened Notifications
  import opened NotificationDelivery

  /** The claims ever made on the job. */
  function ClaimsOn(s: State, job: nat): set<nat> {
    set t | t in s.claims && s.claims[t].job == job
  }

  /** The row counts the claims, and a leased row was available when it was claimed. */
  ghost predicate RowPaced(s: State, job: nat)
    requires job in s.rows
  {
    && s.rows[job].attempts == |ClaimsOn(s, job)|
    && (s.rows[job].leaseToken.Some? ==> s.rows[job].availableAt <= s.now)
  }

  /** A worker that still owns its job knows the row's count. */
  ghost predicate WorkerPaced(s: State, w: nat)
    requires w in s.workers
  {
    var k := s.workers[w];
    (k.Holding? || k.Raised?) && Owns(s, k.job, k.token) ==> k.attempts == s.rows[k.job].attempts
  }

  ghost predicate Paced(s: State) {
    && (forall job :: job in s.rows ==> RowPaced(s, job))
    && (forall w :: w in s.workers ==> WorkerPaced(s, w))
  }

  /** A step that claims nothing leaves the counts alone, and makes a row available later only when it
      gives the job up. */
  ghost predicate NoClaim(s: State, s': State) {
    && s.now <= s'.now
    && s'.claims.Keys == s.claims.Keys
    && (forall t :: t in s.claims ==> s'.claims[t].job == s.claims[t].job)
    && s'.rows.Keys == s.rows.Keys
    && (forall j :: j in s.rows ==>
          && s'.rows[j].attempts == s.rows[j].attempts
          && (s'.rows[j].leaseToken.None? ||
              (s'.rows[j].leaseToken == s.rows[j].leaseToken && s'.rows[j].availableAt == s.rows[j].availableAt)))
    && (forall w :: w in s'.workers && HasToken(s'.workers[w]) ==>
          w in s.workers && HasToken(s.workers[w]) && s'.workers[w].job == s.workers[w].job
          && s'.workers[w].token == s.workers[w].token
          && (s'.workers[w].Holding? || s'.workers[w].Raised? ==>
                !s.workers[w].Returned? && s'.workers[w].attempts == s.workers[w].attempts))
  }

  lemma {:induction false} StaysPaced(s: State, s': State)
    requires Paced(s) && NoClaim(s, s')
    ensures Paced(s')
  {
    forall job | job in s'.rows
      ensures RowPaced(s', job)
    {
      assert RowPaced(s, job);
      assert ClaimsOn(s', job) == ClaimsOn(s, job);
    }
    forall w | w in s'.workers
      ensures WorkerPaced(s', w)
    {
      assert w in s.workers ==> WorkerPaced(s, w);
    }
  }

  lemma {:induction false} OtherSteps(s: State, e: Event)
    requires Enabled(s, e) && !e.Enqueue? && !e.TryClaim?
    ensures NoClaim(s, Step(s, e))
  {
    match e
    case Complete(w) => CompleteIsNoClaim(s, w);
    case Fail(w) => FailIsNoClaim(s, w);
    case Release(w) => ReleaseIsNoClaim(s, w);
    case _ =>
  }

  lemma {:induction false} CompleteIsNoClaim(s: State, w: nat)
    requires Enabled(s, Complete(w))
    ensures NoClaim(s, Step(s, Complete(w)))
  {
  }

  lemma {:induction false} FailIsNoClaim(s: State, w: nat)
    requires Enabled(s, Fail(w))
    ensures NoClaim(s, Step(s, Fail(w)))
  {
  }

  lemma {:induction false} ReleaseIsNoClaim(s: State, w: nat)
    requires Enabled(s, Release(w))
    ensures NoClaim(s, Step(s, Release(w)))
  {
  }

  lemma {:induction false} EnqueuePaced(s: State, job: nat, recipient: nat, account: Option<nat>)
    requires Inv(s) && Paced(s) && Enabled(s, Enqueue(job, recipient, account))
    ensures Paced(Step(s, Enqueue(job, recipient, account)))
  {
    var s' := Step(s, Enqueue(job, recipient, account));
    forall j | j in s'.rows
      ensures RowPaced(s', j)
    {
      assert ClaimsOn(s', j) == ClaimsOn(s, j);
      if j == job {
        assert forall t :: t in s.claims ==> ClaimSound(s, t);
        assert ClaimsOn(s, j) == {};
      } else {
        assert RowPaced(s, j);
      }
    }
    forall w | w in s'.workers
      ensures WorkerPaced(s', w)
    {
      assert WorkerPaced(s, w);
    }
  }

  /** The claim of the next listed job succeeds. */
  predicate Succeeds(s: State, w: nat) {
    var k := WorkerAt(s, w);
    k.Listed? && k.rest != [] && k.rest[0] in s.rows && Eligible(s.rows[k.rest[0]], k.since)
  }

  /** A claim that succeeds is counted. */
  lemma {:induction false} ClaimIsCounted(s: State, w: nat, token: nat, lease: int, j: nat)
    requires Inv(s) && Paced(s) && Enabled(s, TryClaim(w, token, lease)) && Succeeds(s, w) && j in s.rows
    ensures RowPaced(Step(s, TryClaim(w, token, lease)), j)
  {
    assert RowPaced(s, j) && WorkerSound(s, w);
    OneClaimMore(s, Step(s, TryClaim(w, token, lease)), token, j);
  }

  lemma {:induction false} OneClaimMore(s: State, s': State, token: nat, j: nat)
    requires token !in s.claims && token in s'.claims && s'.claims == s.claims[token := s'.claims[token]]
    ensures |ClaimsOn(s', j)| == |ClaimsOn(s, j)| + (if s'.claims[token].job == j then 1 else 0)
  {
    if s'.claims[token].job == j {
      assert ClaimsOn(s', j) == ClaimsOn(s, j) + {token};
    } else {
      assert ClaimsOn(s', j) == ClaimsOn(s, j);
    }
  }

  /** Whoever held the job before holds it no longer. */
  lemma {:induction false} ClaimTakesOver(s: State, w: nat, token: nat, lease: int, v: nat)
    requires Inv(s) && Paced(s) && Enabled(s, TryClaim(w, token, lease)) && Succeeds(s, w)
    requires v in s.workers
    ensures WorkerPaced(Step(s, TryClaim(w, token, lease)), v)
  {
    assert WorkerPaced(s, v) && WorkerSound(s, v);
  }

  lemma {:induction false} ClaimPaced(s: State, w: nat, token: nat, lease: int)
    requires Inv(s) && Paced(s) && Enabled(s, TryClaim(w, token, lease))
    ensures Paced(Step(s, TryClaim(w, token, lease)))
  {
    var s' := Step(s, TryClaim(w, token, lease));
    if Succeeds(s, w) {
      forall j | j in s'.rows ensures RowPaced(s', j) {
        ClaimIsCounted(s, w, token, lease, j);
      }
      forall v | v in s'.workers ensures WorkerPaced(s', v) {
        ClaimTakesOver(s, w, token, lease, v);
      }
    } else {
      StaysPaced(s, s');
    }
  }

  lemma {:induction false} StepStaysPaced(s: State, e: Event)
    requires Inv(s) && Paced(s) && Enabled(s, e)
    ensures Paced(Step(s, e))
  {
    match e
    case Enqueue(job, recipient, account) => EnqueuePaced(s, job, recipient, account);
    case TryClaim(w, token, lease) => ClaimPaced(s, w, token, lease);
    case _ =>
      OtherSteps(s, e);
      StaysPaced(s, Step(s, e));
  }

  lemma {:induction false} RunStaysPaced(s: State, events: seq<Event>)
    requires Inv(s) && Paced(s) && Possible(s, events)
    ensures Inv(Run(s, events)) && Paced(Run(s, events))
    decreases |events|
  {
    if events != [] {
      StepKeepsInv(s, events[0]);
      StepStaysPaced(s, events[0]);
      RunStaysPaced(Step(s, events[0]), events[1..]);
    }
  }

  lemma {:induction false} ReachableIsPaced(s: State)
    requires Reachable(s)
    ensures Inv(s) && Paced(s)
  {
    var now, events :| Possible(Start(now), events) && Run(Start(now), events) == s;
    RunStaysPaced(Start(now), events);
  }

  /** In every reachable state a row's attempts are the claims ever made on its job. */
  lemma {:induction false} AttemptsCountClaims(s: State, job: nat)
    requires Reachable(s) && job in s.rows
    ensures s.rows[job].attempts == |ClaimsOn(s, job)|
  {
    ReachableIsPaced(s);
    assert RowPaced(s, job);
  }

  // -------------------------------------------------------------- enqueueing and claiming

  /** A new event is due at once, for everybody who looks from now on. */
  lemma {:induction false} EnqueuedIsDue(s: State, job: nat, recipient: nat, account: Option<nat>, at: int)
    requires Enabled(s, Enqueue(job, recipient, account))
    ensures var s' := Step(s, Enqueue(job, recipient, account));
            && job in s'.rows && s'.rows[job].recipient == Some(recipient) && s'.rows[job].account == account
            && s'.rows[job].attempts == 0 && (Eligible(s'.rows[job], at) <==> s.now <= at)
            && forall j :: j in s.rows ==> j in s'.rows && s'.rows[j] == s.rows[j]
  {
  }

  /** The worker's next job can be claimed with its clock reading: unsent, due and under no running lease. */
  ghost predicate Claimable(s: State, w: nat) {
    var k := WorkerAt(s, w);
    && k.Listed? && k.rest != [] && k.rest[0] in s.rows
    && var r := s.rows[k.rest[0]];
       && r.sentAt.None? && r.availableAt <= k.since
       && (r.leaseUntil.None? || r.leaseUntil.value <= k.since)
  }

  /** A claim succeeds exactly then. The lease runs from the moment of the claim; nothing else of the row
      changes but its count, and no other row does. */
  lemma {:induction false} ClaimIff(s: State, w: nat, token: nat, lease: int)
    requires Enabled(s, TryClaim(w, token, lease))
    ensures var s', k := Step(s, TryClaim(w, token, lease)), WorkerAt(s, w);
            && (token in s'.claims <==> Claimable(s, w))
            && (Claimable(s, w) ==>
                  var r := s.rows[k.rest[0]];
                  && s'.rows == s.rows[k.rest[0] := Row(r.recipient, r.account, r.availableAt, Some(s.now + lease),
                                                        Some(token), r.attempts + 1, None)]
                  && WorkerAt(s', w) == Holding(k.since, k.rest[1..], k.rest[0], token, r.attempts + 1))
            && (!Claimable(s, w) ==> s'.rows == s.rows && WorkerAt(s', w) == Listed(k.since, k.rest[1..]))
  {
  }

  /** When the send has returned and the worker still owns the job, the event is marked sent now and its
      addresses go; otherwise no row changes. */
  lemma {:induction false} CompletionIff(s: State, w: nat)
    requires Enabled(s, Complete(w))
    ensures var s', k := Step(s, Complete(w)), WorkerAt(s, w);
            s'.rows == if k.job in s.rows && s.rows[k.job].leaseToken == Some(k.token)
                       then s.rows[k.job := Row(None, None, s.rows[k.job].availableAt, None, None,
                                                s.rows[k.job].attempts, Some(s.now))]
                       else s.rows
  {
  }

  // -------------------------------------------------------------- waiting

  /** One minute after the first attempt, twice as long after every further one, at most an hour. */
  function Wait(attempt: nat): int {
    if attempt <= 1 then 60 else Min(3600, 2 * Wait(attempt - 1))
  }

  lemma {:induction false} WaitsGrow(a: nat, b: nat)
    requires a <= b
    ensures 60 <= Wait(a) <= Wait(b) <= 3600
    decreases b
  {
    if a < b {
      WaitsGrow(a, b - 1);
    } else if a > 0 {
      WaitsGrow(a - 1, a - 1);
    }
  }

  /** The delay as it is computed is that wait. */
  lemma {:induction false} DelayIsWait(attempt: nat)
    requires attempt >= 1
    ensures RetryDelay(attempt) == Wait(attempt)
  {
    assert Power2(3) == 8 && Power2(5) == 32 && Power2(7) == 128;
    if attempt > 1 {
      DelayIsWait(attempt - 1);
      if attempt > 7 {
        assert RetryDelay(attempt) == RetryDelay(7) == 3600;
      }
    }
  }

  /** After a failed attempt a job waits between one minute and one hour, and no less than
      after the attempt before. */
  lemma {:induction false} RetryDelaysGrow(attempts: nat, later: nat)
    requires 1 <= attempts <= later
    ensures 60 <= RetryDelay(attempts) <= RetryDelay(later) <= 3600
    ensures attempts >= 7 ==> RetryDelay(attempts) == 3600
  {
    DelayIsWait(attempts);
    DelayIsWait(later);
    WaitsGrow(attempts, later);
    assert Power2(3) == 8 && Power2(5) == 32 && Power2(7) == 128;
  }

  /** When a worker's send for a job it still owns has raised, the row is given back and waits for the
      job's attempts so far: it can be claimed again exactly from that time on. A worker that no longer
      owns the job changes nothing. */
  lemma {:induction false} FailureWaits(s: State, w: nat)
    requires Reachable(s) && Enabled(s, Fail(w))
    ensures var k := WorkerAt(s, w);
            var s' := Step(s, Fail(w));
            && s'.rows.Keys == s.rows.Keys
            && (forall j :: j in s.rows && (j != k.job || !Owns(s, k.job, k.token)) ==> s'.rows[j] == s.rows[j])
            && (Owns(s, k.job, k.token) ==>
                  var n := |ClaimsOn(s, k.job)|;
                  && n >= 1 && 60 <= Wait(n) <= 3600
                  && s'.rows[k.job].availableAt == s.now + Wait(n)
                  && s'.rows[k.job].leaseToken.None? && s'.rows[k.job].leaseUntil.None?
                  && s'.rows[k.job].attempts == n
                  && s'.rows[k.job].recipient == s.rows[k.job].recipient
                  && s'.rows[k.job].account == s.rows[k.job].account
                  && forall at :: Eligible(s'.rows[k.job], at) <==> s.now + Wait(n) <= at)
  {
    var k := WorkerAt(s, w);
    ReachableIsPaced(s);
    assert WorkerSound(s, w) && WorkerPaced(s, w);
    if Owns(s, k.job, k.token) {
      assert RowPaced(s, k.job) && RowSound(s, k.job);
      assert k.token in ClaimsOn(s, k.job);
      var n := |ClaimsOn(s, k.job)|;
      assert n >= 1 by {
        assert |ClaimsOn(s, k.job) - {k.token}| == n - 1;
      }
      DelayIsWait(n);
      WaitsGrow(n, n);
    }
  }

  /** A send that raises leads to such a failure, with the row as it was. */
  lemma {:induction false} RaisedSendFails(s: State, w: nat)
    requires Enabled(s, Send(w, false))
    ensures var s' := Step(s, Send(w, false));
            && Enabled(s', Fail(w)) && s'.rows == s.rows && s'.claims == s.claims
            && WorkerAt(s', w).job == WorkerAt(s, w).job && WorkerAt(s', w).token == WorkerAt(s, w).token
  {
  }

  /** A job a worker stops before sending is given back at once. */
  lemma {:induction false} ReleaseGivesBack(s: State, w: nat)
    requires Enabled(s, Release(w))
    ensures var k := WorkerAt(s, w);
            var s' := Step(s, Release(w));
            && s'.rows.Keys == s.rows.Keys
            && (forall j :: j in s.rows && (j != k.job || !Owns(s, k.job, k.token)) ==> s'.rows[j] == s.rows[j])
            && (Owns(s, k.job, k.token) ==>
                  s'.rows[k.job] == s.rows[k.job].(leaseToken := None, leaseUntil := None))
  {
  }

  /** A row never becomes available earlier than it was to be, and its attempts never go down. */
  ghost predicate NotEarlier(s: State, s': State, job: nat) {
    job in s.rows ==>
      && job in s'.rows && s.rows[job].availableAt <= s'.rows[job].availableAt
      && s.rows[job].attempts <= s'.rows[job].attempts
  }

  lemma {:induction false} StepNotEarlier(s: State, e: Event, job: nat)
    requires Inv(s) && Paced(s) && Enabled(s, e)
    ensures NotEarlier(s, Step(s, e), job)
  {
    if e.Fail? {
      FailNotEarlier(s, e.w, job);
    }
  }

  lemma {:induction false} FailNotEarlier(s: State, w: nat, job: nat)
    requires Paced(s) && Enabled(s, Fail(w))
    ensures NotEarlier(s, Step(s, Fail(w)), job)
  {
    if job in s.rows {
      assert RowPaced(s, job);
      assert RetryDelay(WorkerAt(s, w).attempts) >= 0;
    }
  }

  lemma {:induction false} RunNotEarlier(s: State, events: seq<Event>, job: nat)
    requires Inv(s) && Paced(s) && Possible(s, events)
    ensures NotEarlier(s, Run(s, events), job)
    decreases |events|
  {
    if events != [] {
      StepKeepsInv(s, events[0]);
      StepStaysPaced(s, events[0]);
      StepNotEarlier(s, events[0], job);
      RunNotEarlier(Step(s, events[0]), events[1..], job);
    }
  }

  /** The event is a claim on the job that succeeds. */
  predicate ClaimsJob(s: State, e: Event, job: nat)
    requires Enabled(s, e)
  {
    e.TryClaim? && e.token in Step(s, e).claims && Step(s, e).claims[e.token].job == job
  }

  /** After a failure at some time no worker claims the job again with a clock reading from before the
      end of the wait, however the run goes on. */
  lemma {:induction false} NoEarlyRetry(s: State, w: nat, events: seq<Event>, e: Event)
    requires Reachable(s) && Enabled(s, Fail(w)) && Owns(s, WorkerAt(s, w).job, WorkerAt(s, w).token)
    requires var s' := Step(s, Fail(w));
             Possible(s', events) && Enabled(Run(s', events), e) && ClaimsJob(Run(s', events), e, WorkerAt(s, w).job)
    ensures var later := Run(Step(s, Fail(w)), events);
            && s.now + Wait(|ClaimsOn(s, WorkerAt(s, w).job)|) <= WorkerAt(later, e.w).since <= later.now
            && s.now + 60 <= WorkerAt(later, e.w).since
  {
    var job, s' := WorkerAt(s, w).job, Step(s, Fail(w));
    FailureWaits(s, w);
    ReachStep(s, Fail(w));
    ReachableIsPaced(s');
    RunNotEarlier(s', events, job);
    var later := Run(s', events);
    RunStaysPaced(s', events);
    assert WorkerSound(later, e.w);
  }

  /** When the job fails again later, it waits at least as long as before. */
  lemma {:induction false} LaterFailuresWaitLonger(s: State, w: nat, events: seq<Event>, v: nat)
    requires Reachable(s) && Enabled(s, Fail(w)) && Owns(s, WorkerAt(s, w).job, WorkerAt(s, w).token)
    requires var s' := Step(s, Fail(w)); Possible(s', events) && Enabled(Run(s', events), Fail(v))
    requires var later := Run(Step(s, Fail(w)), events);
             && WorkerAt(later, v).job == WorkerAt(s, w).job
             && Owns(later, WorkerAt(later, v).job, WorkerAt(later, v).token)
    ensures var job, s', later := WorkerAt(s, w).job, Step(s, Fail(w)), Run(Step(s, Fail(w)), events);
            && Reachable(later) && job in s'.rows && job in Step(later, Fail(v)).rows
            && s'.rows[job].availableAt - s.now <= Step(later, Fail(v)).rows[job].availableAt - later.now
  {
    var job, s' := WorkerAt(s, w).job, Step(s, Fail(w));
    var later := Run(s', events);
    FailureWaits(s, w);
    ReachStep(s, Fail(w));
    ReachRun(s', events);
    FailureWaits(later, v);
    ReachableIsPaced(s');
    RunNotEarlier(s', events, job);
    AttemptsCountClaims(later, job);
    WaitsGrow(|ClaimsOn(s, job)|, |ClaimsOn(later, job)|);
  }

  lemma {:induction false} ReachRun(s: State, events: seq<Event>)
    requires Reachable(s) && Possible(s, events)
    ensures Reachable(Run(s, events))
  {
    var now, before :| Possible(Start(now), before) && Run(Start(now), before) == s;
    RunConcat(Start(now), before, events);
  }
}
