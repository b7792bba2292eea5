/** The registration-notification queue: any number of workers list, lease, send and complete
    jobs in interleaved steps, and any of them may stall or crash between two steps. */
module Notifications {
  import opened Basics

  /** One queue row. */
  datatype Row = Row(recipient: Option<nat>, account: Option<nat>, availableAt: int, leaseUntil: Option<int>,
                     leaseToken: Option<nat>, attempts: nat, sentAt: Option<int>)

  /** Where a worker stands inside `deliver_pending`. `since` is the time it read at the start
      of its batch, which its claims keep using; `rest` are the job ids still to try. */
  datatype Worker =
    | Idle
    | Listed(since: int, rest: seq<nat>)
    | Holding(since: int, rest: seq<nat>, job: nat, token: nat, attempts: nat)
    | Returned(since: int, rest: seq<nat>, job: nat, token: nat)
    | Raised(since: int, rest: seq<nat>, job: nat, token: nat, attempts: nat)

  /** The history of one claim: when it was made, when its lease ends, when its send
      returned, when its completion update ran, whether that update took effect,
      and whether the worker gave the job back, unsent or after a send that raised. */
  datatype Claim = Claim(job: nat, at: int, until: int, sent: Option<int>, marked: Option<int>, completed: bool,
                         closed: bool)

  datatype State = State(now: int, rows: map<nat, Row>, workers: map<nat, Worker>, claims: map<nat, Claim>)

  datatype Event =
    | Tick(elapsed: nat)
    | Enqueue(job: nat, recipient: nat, account: Option<nat>)
    | List(w: nat, jobs: seq<nat>)
    | TryClaim(w: nat, token: nat, lease: int)
    | Release(w: nat)
    | Send(w: nat, returned: bool)
    | Complete(w: nat)
    | Fail(w: nat)
    | Crash(w: nat)

  const BATCH := 25

  /** Retry delay in seconds after a failed attempt. */
  function RetryDelay(attempts: nat): int {
    Min(3600, 30 * Power2(Min(attempts, 7)))
  }

  function Power2(n: nat): nat {
    if n == 0 then 1 else 2 * Power2(n - 1)
  }

  /** The claim condition, evaluated with the worker's possibly stale clock reading. */
  predicate Eligible(r: Row, since: int) {
    && r.sentAt.None?
    && r.availableAt <= since
    && (r.leaseUntil.None? || r.leaseUntil.value <= since)
  }

  function WorkerAt(s: State, w: nat): Worker {
    if w in s.workers then s.workers[w] else Idle
  }

  /** Only the row that still carries the worker's token is updated. */
  predicate Owns(s: State, job: nat, token: nat) {
    job in s.rows && s.rows[job].leaseToken == Some(token)
  }

  predicate Enabled(s: State, e: Event) {
    match e
    case Enqueue(job, _, _) => job !in s.rows
    case List(w, jobs) =>
      && WorkerAt(s, w).Idle? && |jobs| <= BATCH
      && forall i :: 0 <= i < |jobs| ==> jobs[i] in s.rows && Eligible(s.rows[jobs[i]], s.now)
    case TryClaim(w, token, _) => WorkerAt(s, w).Listed? && WorkerAt(s, w).rest != [] && token !in s.claims
    case Release(w) => WorkerAt(s, w).Holding?
    case Send(w, _) => WorkerAt(s, w).Holding?
    case Complete(w) => WorkerAt(s, w).Returned?
    case Fail(w) => WorkerAt(s, w).Raised?
    case _ => true
  }

  function Unleased(r: Row): Row {
    r.(leaseToken := None, leaseUntil := None)
  }

  function Step(s: State, e: Event): State
    requires Enabled(s, e)
  {
    match e
    case Tick(elapsed) => s.(now := s.now + elapsed)
    case Enqueue(job, recipient, account) =>
      s.(rows := s.rows[job := Row(Some(recipient), account, s.now, None, None, 0, None)])
    case List(w, jobs) => s.(workers := s.workers[w := Listed(s.now, jobs)])
    case TryClaim(w, token, lease) => StepClaim(s, w, token, lease)
    case Release(w) =>
      var k := WorkerAt(s, w);
      var s1 := if Owns(s, k.job, k.token) then s.(rows := s.rows[k.job := Unleased(s.rows[k.job])]) else s;
      Close(s1, k.token).(workers := s.workers[w := Idle])
    case Send(w, returned) => StepSend(s, w, returned)
    case Complete(w) => StepComplete(s, w)
    case Fail(w) => StepFail(s, w)
    case Crash(w) => s.(workers := s.workers[w := Idle])
  }

  function Close(s: State, token: nat): State {
    if token in s.claims then s.(claims := s.claims[token := s.claims[token].(closed := true)]) else s
  }

  function StepClaim(s: State, w: nat, token: nat, lease: int): State
    requires Enabled(s, TryClaim(w, token, lease))
  {
    var k := WorkerAt(s, w);
    var job, rest := k.rest[0], k.rest[1..];
    if job in s.rows && Eligible(s.rows[job], k.since) then
      var row := s.rows[job];
      var row' := row.(leaseToken := Some(token), leaseUntil := Some(s.now + lease), attempts := row.attempts + 1);
      s.(rows := s.rows[job := row'],
         claims := s.claims[token := Claim(job, s.now, s.now + lease, None, None, false, false)],
         workers := s.workers[w := Holding(k.since, rest, job, token, row'.attempts)])
    else s.(workers := s.workers[w := Listed(k.since, rest)])
  }

  function StepSend(s: State, w: nat, returned: bool): State
    requires Enabled(s, Send(w, returned))
  {
    var k := WorkerAt(s, w);
    if returned then
      s.(workers := s.workers[w := Returned(k.since, k.rest, k.job, k.token)],
         claims := if k.token in s.claims then s.claims[k.token := s.claims[k.token].(sent := Some(s.now))]
                   else s.claims)
    else s.(workers := s.workers[w := Raised(k.since, k.rest, k.job, k.token, k.attempts)])
  }

  function StepComplete(s: State, w: nat): State
    requires Enabled(s, Complete(w))
  {
    var k := WorkerAt(s, w);
    var owns := Owns(s, k.job, k.token);
    s.(rows := if owns
               then s.rows[k.job := Unleased(s.rows[k.job]).(sentAt := Some(s.now), recipient := None, account := None)]
               else s.rows,
       claims := if k.token in s.claims
                 then s.claims[k.token := s.claims[k.token].(marked := Some(s.now), completed := owns)] else s.claims,
       workers := s.workers[w := Listed(k.since, k.rest)])
  }

  function StepFail(s: State, w: nat): State
    requires Enabled(s, Fail(w))
  {
    var k := WorkerAt(s, w);
    var s1 := if Owns(s, k.job, k.token)
              then s.(rows := s.rows[k.job := Unleased(s.rows[k.job]).(availableAt := s.now + RetryDelay(k.attempts))])
              else s;
    Close(s1, k.token).(workers := s.workers[w := Listed(k.since, k.rest)])
  }

  // -------------------------------------------------------------- the invariant

  /** An unsent row keeps its recipient; a sent row keeps no address and no lease. */
  ghost predicate RowSound(s: State, job: nat)
    requires job in s.rows
  {
    var r := s.rows[job];
    && (r.sentAt.Some? ==> r.recipient.None? && r.account.None? && r.leaseToken.None?)
    && (r.sentAt.None? ==> r.recipient.Some?)
    && (r.leaseToken.Some? <==> r.leaseUntil.Some?)
    && (r.leaseToken.Some? ==>
          var t := r.leaseToken.value;
          && t in s.claims && s.claims[t].job == job && s.claims[t].until == r.leaseUntil.value
          && !s.claims[t].completed && !s.claims[t].closed)
    && (r.sentAt.Some? ==> exists t :: t in s.claims && Completes(s, t, job))
  }

  /** Claim `t` is the one whose completion set the row's sent time. */
  ghost predicate Completes(s: State, t: nat, job: nat)
    requires t in s.claims
  {
    s.claims[t].job == job && s.claims[t].completed
  }

  ghost predicate ClaimSound(s: State, t: nat)
    requires t in s.claims
  {
    var c := s.claims[t];
    && c.job in s.rows && c.at <= s.now
    && (c.completed ==> c.sent.Some? && c.marked.Some? && c.sent.value <= c.marked.value
                        && s.rows[c.job].sentAt == c.marked)
    && (c.closed ==> c.sent.None?)
    // A claim that is neither over nor current any more has outlived its lease.
    && (!c.completed && !c.closed && s.rows[c.job].leaseToken != Some(t) ==> c.until <= s.now)
    // A completion update that runs before the lease ends takes effect.
    && (c.marked.Some? && c.marked.value < c.until ==> c.completed)
    && (c.sent.Some? ==> c.sent.value <= s.now)
  }

  /** Two claims on one job do not overlap, unless one gave the job back unsent; and only one
      can complete it. */
  ghost predicate PairSound(s: State, t: nat, u: nat)
    requires t in s.claims && u in s.claims
  {
    t != u && s.claims[t].job == s.claims[u].job ==>
      && (s.claims[t].closed || s.claims[u].closed
          || s.claims[t].until <= s.claims[u].at || s.claims[u].until <= s.claims[t].at)
      && !(s.claims[t].completed && s.claims[u].completed)
  }

  /** A worker past its claim knows its job and token, and the claim's history says where it
      stands. */
  ghost predicate WorkerSound(s: State, w: nat)
    requires w in s.workers
  {
    var k := s.workers[w];
    && (k.Listed? || k.Holding? || k.Returned? || k.Raised? ==> k.since <= s.now)
    && (k.Holding? || k.Raised? || k.Returned? ==>
          && k.token in s.claims
          && s.claims[k.token].job == k.job
          && !s.claims[k.token].completed && !s.claims[k.token].closed && s.claims[k.token].marked.None?
          && (s.claims[k.token].sent.Some? <==> k.Returned?))
  }

  /** No token is held by two workers. */
  ghost predicate TokensDistinct(s: State) {
    forall v, w :: v in s.workers && w in s.workers && v != w && HasToken(s.workers[v]) && HasToken(s.workers[w])
      ==> s.workers[v].token != s.workers[w].token
  }

  predicate HasToken(k: Worker) {
    k.Holding? || k.Returned? || k.Raised?
  }

  ghost predicate Inv(s: State) {
    && (forall job :: job in s.rows ==> RowSound(s, job))
    && (forall t :: t in s.claims ==> ClaimSound(s, t))
    && (forall t, u :: t in s.claims && u in s.claims ==> PairSound(s, t, u))
    && (forall w :: w in s.workers ==> WorkerSound(s, w))
    && TokensDistinct(s)
  }

  /** A step that touches one job leaves every other job's row and claims as they were. */
  ghost predicate OnlyJob(s: State, s': State, job: nat) {
    && s.now <= s'.now
    && (forall j :: j != job ==> (j in s.rows <==> j in s'.rows))
    && (forall j :: j != job && j in s.rows && j in s'.rows ==> s'.rows[j] == s.rows[j])
    && (forall t :: t in s.claims && s.claims[t].job != job ==> t in s'.claims && s'.claims[t] == s.claims[t])
    && (forall t :: t in s'.claims && s'.claims[t].job != job ==> t in s.claims && s'.claims[t] == s.claims[t])
  }

  /** What remains to be shown for the job a step touches. */
  ghost predicate JobSound(s: State, job: nat) {
    && (job in s.rows ==> RowSound(s, job))
    && (forall t :: t in s.claims && s.claims[t].job == job ==> ClaimSound(s, t))
    && (forall t, u :: t in s.claims && u in s.claims && s.claims[t].job == job && s.claims[u].job == job
          ==> PairSound(s, t, u))
  }

  lemma {:induction false} OtherRow(s: State, s': State, job: nat, j: nat)
    requires OnlyJob(s, s', job) && j != job && j in s.rows && RowSound(s, j)
    ensures RowSound(s', j)
  {
    if s.rows[j].sentAt.Some? {
      var t :| t in s.claims && Completes(s, t, j);
      assert t in s'.claims && Completes(s', t, j);
    }
  }

  /** Soundness of the touched job and of the workers is all a step has to establish. */
  lemma {:induction false} OneJobSuffices(s: State, s': State, job: nat)
    requires Inv(s) && OnlyJob(s, s', job) && JobSound(s', job)
    requires forall w :: w in s'.workers ==> WorkerSound(s', w)
    requires TokensDistinct(s')
    ensures Inv(s')
  {
    forall j | j in s'.rows ensures RowSound(s', j) {
      if j != job {
        OtherRow(s, s', job, j);
      }
    }
    forall t | t in s'.claims ensures ClaimSound(s', t) {
      if s'.claims[t].job != job {
        assert ClaimSound(s, t);
      }
    }
    forall t, u | t in s'.claims && u in s'.claims ensures PairSound(s', t, u) {
      if s'.claims[t].job == s'.claims[u].job && s'.claims[t].job != job {
        assert PairSound(s, t, u);
      }
    }
  }

  /** A worker that a step leaves alone stays sound when its claim is left alone. */
  lemma {:induction false} OtherWorker(s: State, s': State, v: nat)
    requires v in s.workers && v in s'.workers && s'.workers[v] == s.workers[v]
    requires WorkerSound(s, v) && s.now <= s'.now
    requires HasToken(s.workers[v]) ==>
               s.workers[v].token in s'.claims && s'.claims[s.workers[v].token] == s.claims[s.workers[v].token]
    ensures WorkerSound(s', v)
  {
  }

  /** One worker moves on; the others, which hold other tokens, do not notice. */
  lemma {:induction false} WorkersAfter(s: State, s': State, w: nat, token: nat)
    requires Inv(s) && s.now <= s'.now
    requires s'.workers.Keys == s.workers.Keys + {w}
    requires forall v :: v in s.workers && v != w ==> s'.workers[v] == s.workers[v]
    requires forall t :: t in s.claims && t != token ==> t in s'.claims && s'.claims[t] == s.claims[t]
    requires WorkerSound(s', w)
    requires forall v :: v in s.workers && v != w && HasToken(s.workers[v]) ==> s.workers[v].token != token
    requires HasToken(s'.workers[w]) ==> s'.workers[w].token == token
    ensures forall v :: v in s'.workers ==> WorkerSound(s', v)
    ensures TokensDistinct(s')
  {
    forall v | v in s'.workers ensures WorkerSound(s', v) {
      if v != w {
        assert WorkerSound(s, v);
        OtherWorker(s, s', v);
      }
    }
  }

  lemma {:induction false} TickKeepsInv(s: State, elapsed: nat)
    requires Inv(s)
    ensures Inv(Step(s, Tick(elapsed)))
  {
    var s' := Step(s, Tick(elapsed));
    forall j | j in s'.rows ensures RowSound(s', j) {
      assert RowSound(s, j);
      if s.rows[j].sentAt.Some? {
        var t :| t in s.claims && Completes(s, t, j);
        assert Completes(s', t, j);
      }
    }
    forall t | t in s'.claims ensures ClaimSound(s', t) {
      assert ClaimSound(s, t);
    }
    forall t, u | t in s'.claims && u in s'.claims ensures PairSound(s', t, u) {
      assert PairSound(s, t, u);
    }
    forall w | w in s'.workers ensures WorkerSound(s', w) {
      assert WorkerSound(s, w);
    }
  }

  lemma {:induction false} EnqueueKeepsInv(s: State, job: nat, recipient: nat, account: Option<nat>)
    requires Inv(s) && Enabled(s, Enqueue(job, recipient, account))
    ensures Inv(Step(s, Enqueue(job, recipient, account)))
  {
    var s' := Step(s, Enqueue(job, recipient, account));
    assert forall t :: t in s.claims ==> ClaimSound(s, t);
    forall w | w in s'.workers ensures WorkerSound(s', w) {
      OtherWorker(s, s', w);
    }
    OneJobSuffices(s, s', job);
  }

  lemma {:induction false} ListKeepsInv(s: State, w: nat, jobs: seq<nat>)
    requires Inv(s) && Enabled(s, List(w, jobs))
    ensures Inv(Step(s, List(w, jobs)))
  {
    OnlyWorkers(s, Step(s, List(w, jobs)), w);
  }

  lemma {:induction false} CrashKeepsInv(s: State, w: nat)
    requires Inv(s)
    ensures Inv(Step(s, Crash(w)))
  {
    OnlyWorkers(s, Step(s, Crash(w)), w);
  }

  /** Steps that only move one worker to a place without a token. */
  lemma {:induction false} OnlyWorkers(s: State, s': State, w: nat)
    requires Inv(s)
    requires s' == s.(workers := s'.workers)
    requires s'.workers.Keys == s.workers.Keys + {w}
    requires forall v :: v in s.workers && v != w ==> s'.workers[v] == s.workers[v]
    requires WorkerSound(s', w) && !HasToken(s'.workers[w])
    ensures Inv(s')
  {
    forall v | v in s'.workers ensures WorkerSound(s', v) {
      if v != w {
        OtherWorker(s, s', v);
      }
    }
    forall j | j in s'.rows ensures RowSound(s', j) {
      assert RowSound(s, j);
      if s.rows[j].sentAt.Some? {
        var t :| t in s.claims && Completes(s, t, j);
        assert Completes(s', t, j);
      }
    }
    forall t | t in s'.claims ensures ClaimSound(s', t) {
      assert ClaimSound(s, t);
    }
    forall t, u | t in s'.claims && u in s'.claims ensures PairSound(s', t, u) {
      assert PairSound(s, t, u);
    }
  }

  // -------------------------------------------------------------- claiming

  /** At a successful claim every earlier claim on the job is over or has outlived its lease. */
  lemma {:induction false} EarlierClaimsExpired(s: State, job: nat, since: int, t: nat)
    requires Inv(s) && job in s.rows && Eligible(s.rows[job], since) && since <= s.now
    requires t in s.claims && s.claims[t].job == job
    ensures !s.claims[t].completed
    ensures s.claims[t].closed || s.claims[t].until <= s.now
  {
    assert ClaimSound(s, t) && RowSound(s, job);
  }

  lemma {:induction false} ClaimedJobIsSound(s: State, w: nat, token: nat, lease: int)
    requires Inv(s) && Enabled(s, TryClaim(w, token, lease))
    requires var k := WorkerAt(s, w); k.rest[0] in s.rows && Eligible(s.rows[k.rest[0]], k.since)
    ensures JobSound(Step(s, TryClaim(w, token, lease)), WorkerAt(s, w).rest[0])
  {
    var s', k := Step(s, TryClaim(w, token, lease)), WorkerAt(s, w);
    var job := k.rest[0];
    assert WorkerSound(s, w) && RowSound(s, job);
    forall t | t in s'.claims && s'.claims[t].job == job ensures ClaimSound(s', t) {
      if t != token {
        assert ClaimSound(s, t);
        EarlierClaimsExpired(s, job, k.since, t);
      }
    }
    forall t, u | t in s'.claims && u in s'.claims && s'.claims[t].job == job && s'.claims[u].job == job
      ensures PairSound(s', t, u)
    {
      if t != token && u != token {
        assert PairSound(s, t, u);
      } else if t != token {
        EarlierClaimsExpired(s, job, k.since, t);
      } else if u != token {
        EarlierClaimsExpired(s, job, k.since, u);
      }
    }
  }

  lemma {:induction false} ClaimKeepsInv(s: State, w: nat, token: nat, lease: int)
    requires Inv(s) && Enabled(s, TryClaim(w, token, lease))
    ensures Inv(Step(s, TryClaim(w, token, lease)))
  {
    var s', k := Step(s, TryClaim(w, token, lease)), WorkerAt(s, w);
    assert WorkerSound(s, w);
    if k.rest[0] in s.rows && Eligible(s.rows[k.rest[0]], k.since) {
      ClaimedJobIsSound(s, w, token, lease);
      assert forall v :: v in s.workers ==> WorkerSound(s, v);
      WorkersAfter(s, s', w, token);
      OneJobSuffices(s, s', k.rest[0]);
    } else {
      OnlyWorkers(s, s', w);
    }
  }

  // -------------------------------------------------------------- sending and resolving

  /** Updating one claim's history, and the row only if it is still current, keeps the job
      sound. */
  lemma {:induction false} ResolvedJobIsSound(s: State, s': State, token: nat)
    requires Inv(s) && token in s.claims && token in s'.claims && s'.now == s.now
    requires var job := s.claims[token].job; job in s.rows && job in s'.rows && OnlyJob(s, s', job)
    requires s'.claims == s.claims[token := s'.claims[token]]
    requires s'.claims[token].job == s.claims[token].job && s'.claims[token].at == s.claims[token].at
    requires s'.claims[token].until == s.claims[token].until
    requires s.claims[token].closed ==> s'.claims[token].closed
    requires ClaimSound(s', token) && RowSound(s', s.claims[token].job)
    requires s'.claims[token].completed ==> s.rows[s.claims[token].job].sentAt.None?
    requires var job := s.claims[token].job;
             || s'.rows[job] == s.rows[job]
             || (Owns(s, job, token) && s'.rows[job].leaseToken.None?)
    ensures JobSound(s', s.claims[token].job)
  {
    var job := s.claims[token].job;
    forall t | t in s'.claims && s'.claims[t].job == job ensures ClaimSound(s', t) {
      if t != token {
        assert ClaimSound(s, t) && RowSound(s, job);
      }
    }
    forall t, u | t in s'.claims && u in s'.claims && s'.claims[t].job == job && s'.claims[u].job == job
      ensures PairSound(s', t, u)
    {
      assert PairSound(s, t, u);
      assert ClaimSound(s, t) && ClaimSound(s, u);
    }
  }

  /** What is known of a worker that holds a token. */
  lemma {:induction false} TokenHolder(s: State, w: nat)
    requires Inv(s) && HasToken(WorkerAt(s, w))
    ensures var k := s.workers[w];
            && k.token in s.claims && s.claims[k.token].job == k.job && k.job in s.rows
            && WorkerSound(s, w) && ClaimSound(s, k.token) && RowSound(s, k.job)
            && (forall v :: v in s.workers && v != w && HasToken(s.workers[v]) ==> s.workers[v].token != k.token)
  {
    assert WorkerSound(s, w);
    assert ClaimSound(s, s.workers[w].token);
    assert RowSound(s, s.workers[w].job);
  }

  lemma {:induction false} SendKeepsInv(s: State, w: nat, returned: bool)
    requires Inv(s) && Enabled(s, Send(w, returned))
    ensures Inv(Step(s, Send(w, returned)))
  {
    var s', k := Step(s, Send(w, returned)), WorkerAt(s, w);
    TokenHolder(s, w);
    if returned {
      KeptRow(s, s', k.token);
      ResolvedJobIsSound(s, s', k.token);
    } else {
      UnchangedJob(s, s', k.job);
    }
    WorkersAfter(s, s', w, k.token);
    OneJobSuffices(s, s', k.job);
  }

  /** A row stays sound when its current claim's history changes without ending it. */
  lemma {:induction false} KeptRow(s: State, s': State, token: nat)
    requires token in s.claims && token in s'.claims && s'.claims == s.claims[token := s'.claims[token]]
    requires s.claims[token].job in s.rows && s'.rows == s.rows
    requires RowSound(s, s.claims[token].job)
    requires s'.claims[token].job == s.claims[token].job && s'.claims[token].until == s.claims[token].until
    requires s'.claims[token].completed == s.claims[token].completed
    requires s'.claims[token].closed == s.claims[token].closed
    ensures RowSound(s', s.claims[token].job)
  {
    var job := s.claims[token].job;
    if s.rows[job].sentAt.Some? {
      var t :| t in s.claims && Completes(s, t, job);
      assert Completes(s', t, job);
    }
  }

  lemma {:induction false} UnchangedJob(s: State, s': State, job: nat)
    requires Inv(s) && s'.rows == s.rows && s'.claims == s.claims && s'.now == s.now
    ensures JobSound(s', job)
  {
    if job in s.rows {
      assert RowSound(s, job);
      if s.rows[job].sentAt.Some? {
        var t :| t in s.claims && Completes(s, t, job);
        assert Completes(s', t, job);
      }
    }
    forall t | t in s'.claims && s'.claims[t].job == job ensures ClaimSound(s', t) {
      assert ClaimSound(s, t);
    }
    forall t, u | t in s'.claims && u in s'.claims && s'.claims[t].job == job && s'.claims[u].job == job
      ensures PairSound(s', t, u)
    {
      assert PairSound(s, t, u);
    }
  }

  lemma {:induction false} CompleteJob(s: State, w: nat)
    requires Inv(s) && Enabled(s, Complete(w))
    ensures var s', job := Step(s, Complete(w)), WorkerAt(s, w).job; OnlyJob(s, s', job) && JobSound(s', job)
  {
    var s', k := Step(s, Complete(w)), WorkerAt(s, w);
    TokenHolder(s, w);
    if Owns(s, k.job, k.token) {
      assert Completes(s', k.token, k.job);
    } else {
      KeptRow(s, s', k.token);
    }
    ResolvedJobIsSound(s, s', k.token);
  }

  lemma {:induction false} CompleteWorkers(s: State, w: nat)
    requires Inv(s) && Enabled(s, Complete(w))
    ensures var s' := Step(s, Complete(w)); (forall v :: v in s'.workers ==> WorkerSound(s', v)) && TokensDistinct(s')
  {
    TokenHolder(s, w);
    WorkersAfter(s, Step(s, Complete(w)), w, WorkerAt(s, w).token);
  }

  lemma {:induction false} CompleteKeepsInv(s: State, w: nat)
    requires Inv(s) && Enabled(s, Complete(w))
    ensures Inv(Step(s, Complete(w)))
  {
    CompleteJob(s, w);
    CompleteWorkers(s, w);
    OneJobSuffices(s, Step(s, Complete(w)), WorkerAt(s, w).job);
  }

  lemma {:induction false} GivenUpRow(s: State, s': State, token: nat)
    requires token in s.claims && token in s'.claims && s'.claims == s.claims[token := s.claims[token].(closed := true)]
    requires var job := s.claims[token].job;
             && job in s.rows && job in s'.rows && RowSound(s, job)
             && (if Owns(s, job, token)
                 then s'.rows[job] == Unleased(s.rows[job]).(availableAt := s'.rows[job].availableAt)
                 else s'.rows[job] == s.rows[job])
    ensures RowSound(s', s.claims[token].job)
  {
    var job := s.claims[token].job;
    if s.rows[job].sentAt.Some? {
      var t :| t in s.claims && Completes(s, t, job);
      assert Completes(s', t, job);
    }
  }

  lemma {:induction false} FailJob(s: State, w: nat)
    requires Inv(s) && Enabled(s, Fail(w))
    ensures var s', job := Step(s, Fail(w)), WorkerAt(s, w).job; OnlyJob(s, s', job) && JobSound(s', job)
  {
    var s', k := Step(s, Fail(w)), WorkerAt(s, w);
    TokenHolder(s, w);
    GivenUpRow(s, s', k.token);
    ResolvedJobIsSound(s, s', k.token);
  }

  lemma {:induction false} FailWorkers(s: State, w: nat)
    requires Inv(s) && Enabled(s, Fail(w))
    ensures var s' := Step(s, Fail(w)); (forall v :: v in s'.workers ==> WorkerSound(s', v)) && TokensDistinct(s')
  {
    TokenHolder(s, w);
    WorkersAfter(s, Step(s, Fail(w)), w, WorkerAt(s, w).token);
  }

  lemma {:induction false} FailKeepsInv(s: State, w: nat)
    requires Inv(s) && Enabled(s, Fail(w))
    ensures Inv(Step(s, Fail(w)))
  {
    FailJob(s, w);
    FailWorkers(s, w);
    OneJobSuffices(s, Step(s, Fail(w)), WorkerAt(s, w).job);
  }

  lemma {:induction false} ReleaseJob(s: State, w: nat)
    requires Inv(s) && Enabled(s, Release(w))
    ensures var s', job := Step(s, Release(w)), WorkerAt(s, w).job; OnlyJob(s, s', job) && JobSound(s', job)
  {
    var s', k := Step(s, Release(w)), WorkerAt(s, w);
    TokenHolder(s, w);
    GivenUpRow(s, s', k.token);
    ResolvedJobIsSound(s, s', k.token);
  }

  lemma {:induction false} ReleaseWorkers(s: State, w: nat)
    requires Inv(s) && Enabled(s, Release(w))
    ensures var s' := Step(s, Release(w)); (forall v :: v in s'.workers ==> WorkerSound(s', v)) && TokensDistinct(s')
  {
    TokenHolder(s, w);
    WorkersAfter(s, Step(s, Release(w)), w, WorkerAt(s, w).token);
  }

  lemma {:induction false} ReleaseKeepsInv(s: State, w: nat)
    requires Inv(s) && Enabled(s, Release(w))
    ensures Inv(Step(s, Release(w)))
  {
    ReleaseJob(s, w);
    ReleaseWorkers(s, w);
    OneJobSuffices(s, Step(s, Release(w)), WorkerAt(s, w).job);
  }

  lemma {:induction false} StepKeepsInv(s: State, e: Event)
    requires Inv(s) && Enabled(s, e)
    ensures Inv(Step(s, e))
  {
    match e
    case Tick(elapsed) => TickKeepsInv(s, elapsed);
    case Enqueue(job, recipient, account) => EnqueueKeepsInv(s, job, recipient, account);
    case List(w, jobs) => ListKeepsInv(s, w, jobs);
    case TryClaim(w, token, lease) => ClaimKeepsInv(s, w, token, lease);
    case Release(w) => ReleaseKeepsInv(s, w);
    case Send(w, returned) => SendKeepsInv(s, w, returned);
    case Complete(w) => CompleteKeepsInv(s, w);
    case Fail(w) => FailKeepsInv(s, w);
    case Crash(w) => CrashKeepsInv(s, w);
  }
}
