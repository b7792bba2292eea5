/** What every run of the guest-trial protocol guarantees. A run starts from any tables from before the
    policy and interleaves bootstrap, requests, issues, redemptions, resets, registrations, erasures,
    logouts, the clock and old application instances in any way. */
module GuestTheorems {
  import opened Basics
  import opened GuestTables
  import opened GuestErasure
  import opened GuestBackfill
  import opened GuestBootstrap
  import opened GuestProtocol
  import opened GuestSteps
  import opened GuestRuns

  // ---- one account per generation ----

  /** How many accounts redemption has created for the identity. */
  function AccountsMade(gs: seq<Grant>, i: Identity): nat {
    if gs == [] then 0
    else AccountsMade(gs[..|gs| - 1], i) + (if gs[|gs| - 1].isNew && gs[|gs| - 1].identity == i then 1 else 0)
  }

  lemma {:induction false} Pigeonhole(gs: seq<Grant>, i: Identity, bound: nat)
    requires Ordered(gs)
    requires forall k :: 0 <= k < |gs| && gs[k].isNew && gs[k].identity == i ==> gs[k].generation < bound
    ensures AccountsMade(gs, i) <= bound
  {
    if gs != [] {
      var before, last := gs[..|gs| - 1], gs[|gs| - 1];
      if last.isNew && last.identity == i {
        forall k | 0 <= k < |before| && before[k].isNew && before[k].identity == i
          ensures before[k].generation < last.generation
        {
          assert Follows(gs[k], gs[|gs| - 1]);
        }
        Pigeonhole(before, i, last.generation);
      } else {
        Pigeonhole(before, i, bound);
      }
    }
  }

  ghost predicate SameTrial(a: Grant, b: Grant) {
    a.identity == b.identity && a.generation == b.generation
  }

  /** At most one account per identity and generation, so never more than resets + 1 per email. */
  lemma {:induction false} OneAccountPerGeneration(w: World, i: Identity)
    requires Reachable(w)
    ensures forall j, k :: 0 <= j < k < |w.grants| && SameTrial(w.grants[j], w.grants[k]) ==> !w.grants[k].isNew
    ensures AccountsMade(w.grants, i) <= w.resets[i] + 1
  {
    ReachableIsSound(w);
    assert forall j, k :: 0 <= j < k < |w.grants| ==> Follows(w.grants[j], w.grants[k]);
    forall k | 0 <= k < |w.grants| && w.grants[k].isNew && w.grants[k].identity == i
      ensures w.grants[k].generation < w.resets[i] + 1
    {
      assert GrantTrial(w.db, w.grants[k]);
    }
    Pigeonhole(w.grants, i, w.resets[i] + 1);
  }

  // ---- one guest per email at a time ----

  /** In any tables whatever, two guests who can use the product for one email are the same guest. */
  lemma {:induction false} OneGuestPerEmail(db: Db, s: Id, u: Id, t: Id, v: Id, i: Identity)
    requires Admits(db, s, u, i) && Admits(db, t, v, i)
    ensures u == v
  {
  }

  /** Nobody uses the product as a guest of an email beyond the first grant of the current generation:
      same account, and for a created one no later than its creation plus the access period. */
  lemma {:induction false} AccessEndsWithTheFirstGrant(w: World, k: nat, s: Id, u: Id, i: Identity)
    requires Reachable(w) && Admits(w.db, s, u, i) && k < |w.grants|
    requires w.grants[k].identity == i && w.grants[k].generation == w.resets[i]
    ensures u == w.grants[k].user && w.db.now < w.grants[k].expires
    ensures w.grants[k].isNew ==> w.db.now < w.grants[k].at + w.grants[k].ttl
  {
    ReachableIsSound(w);
    assert GrantRows(w.db, w.grants[k]) && GrantTrial(w.db, w.grants[k]);
  }

  /** So a guest whose account did not exist in some state after the bootstrap authenticates only before
      the end of the access period counted from its creation, which a grant records. */
  lemma {:induction false} NewGuestsHaveAGrant(w: World, log: Log, w': World, s: Id, u: Id, i: Identity)
    returns (k: nat)
    requires Reachable(w) && w.db.initialized && Reaches(w, log, w') && u >= w.db.nextId
    requires Admits(w'.db, s, u, i)
    ensures k < |w'.grants| && w'.grants[k].isNew && w'.grants[k].user == u && w'.grants[k].identity == i
    ensures w'.grants[k].generation == w'.resets[i] && w'.db.now < w'.grants[k].at + w'.grants[k].ttl
  {
    ReachableIsSound(w);
    OwnerHasGrant(w, log, w', i, u);
    var gs := w'.grants;
    var g := w'.db.trials[i].generation;
    k :| |w.grants| <= k < |gs| && gs[k].identity == i && gs[k].generation == g && gs[k].user == u && gs[k].isNew;
    assert GrantRows(w'.db, gs[k]) && g == w'.resets[i] by {
      RunKeepsInv(w, log, w');
    }
  }

  // ---- codes ----

  /** In every reachable state an identity has at most one usable code, and no code was ever
      redeemed twice. */
  lemma {:induction false} CodesWorkOnce(w: World, c: Id, d: Id, i: Identity, j: nat, k: nat)
    requires Reachable(w)
    ensures Open(w.db, c, i) && Open(w.db, d, i) ==> c == d
    ensures j < k < |w.grants| ==> w.grants[j].code != w.grants[k].code
  {
    ReachableIsSound(w);
    if j < k < |w.grants| {
      assert Follows(w.grants[j], w.grants[k]);
    }
  }

  /** A code of an earlier generation than its trial's is never redeemed again. */
  lemma {:induction false} StaleCodeStaysDead(w: World, log: Log, w': World, c: Id, i: Identity, k: nat)
    requires Inv(w) && Reaches(w, log, w') && |w.grants| <= k < |w'.grants|
    requires c in w.db.codes && w.db.codes[c].identity == Some(i)
    requires i in w.db.trials && w.db.codes[c].generation < w.db.trials[i].generation
    ensures w'.grants[k].code != c
  {
    var mid, d, ttl := LaterGrant(w, log, w', k);
    assert TrialMoves(w.db.trials[i], mid.db.trials[i]);
    assert c in mid.db.codes ==> CodeAges(w.db.codes[c], mid.db.codes[c], mid.db.now);
  }

  /** After a reset no code the identity had is ever redeemed again, however long the run goes on. */
  lemma {:induction false} ResetKillsEveryCode(w: World, e: Event, mid: World, log: Log, w': World, c: Id, k: nat)
    requires Reachable(w) && e.Reset? && w.db.initialized && Next(w, e, mid) && Reaches(mid, log, w')
    requires c in w.db.codes && w.db.codes[c].identity == Some(e.email.identity)
    requires |w.grants| <= k < |w'.grants|
    ensures w'.grants[k].code != c
  {
    var i := e.email.identity;
    ReachableIsSound(w);
    assert CodeSound(w.db, c);
    StepKeepsInv(w, e, mid);
    assert mid.db.codes[c] == Closed(w.db.codes, i, w.db.now)[c];
    StaleCodeStaysDead(mid, log, w', c, i, k);
  }

  // ---- access never grows ----

  /** No run ever extends a guest's expiry, or brings back an erased account. */
  lemma {:induction false} ExpiryNeverGrows(w: World, log: Log, w': World, u: Id)
    requires Reachable(w) && Reaches(w, log, w') && u < w.db.nextId && u in w'.db.users
    ensures u in w.db.users
    ensures w.db.users[u].Guest? ==>
              && w'.db.users[u].Guest? && w'.db.users[u].created == w.db.users[u].created
              && (w.db.users[u].expires.None? ==> w'.db.users[u].expires.None?)
              && (w.db.users[u].expires.Some? ==>
                    w'.db.users[u].expires.Some? && w'.db.users[u].expires.value <= w.db.users[u].expires.value)
  {
    ReachableIsSound(w);
    RunKeepsInv(w, log, w');
    assert UserAges(w.db.users[u], w'.db.users[u]);
  }

  /** All grants of one identity and generation are to one account, none outlives an earlier one,
      and the session each made ends with it: so no sequence of logins reaches past the first. */
  lemma {:induction false} LoginsNeverExtendAccess(w: World, j: nat, k: nat)
    requires Reachable(w) && j < k < |w.grants| && SameTrial(w.grants[j], w.grants[k])
    ensures w.grants[k].user == w.grants[j].user && w.grants[k].expires <= w.grants[j].expires
    ensures w.grants[j].isNew ==> w.grants[k].expires <= w.grants[j].at + w.grants[j].ttl
    ensures w.grants[k].session in w.db.sessions ==>
              w.db.sessions[w.grants[k].session].user == w.grants[j].user &&
              w.db.sessions[w.grants[k].session].expires == Some(w.grants[k].expires)
  {
    ReachableIsSound(w);
    assert Follows(w.grants[j], w.grants[k]);
    assert GrantRows(w.db, w.grants[j]) && GrantRows(w.db, w.grants[k]);
  }

  lemma {:induction false} RegistrationStays(db: Db, db': Db, i: Identity)
    requires HasRegistered(db.users, i) && RegisteredStay(db, db')
    ensures HasRegistered(db'.users, i)
  {
    var u :| u in db.users && db.users[u] == Registered(Normalised(i));
    assert db'.users[u] == Registered(Normalised(i));
  }

  /** Once an email is registered nothing is granted for it again and none of its guests gets in. */
  lemma {:induction false} RegistrationEndsGuestAccess(w: World, log: Log, w': World, i: Identity)
    requires Reachable(w) && Reaches(w, log, w') && HasRegistered(w.db.users, i)
    ensures forall k :: |w.grants| <= k < |w'.grants| ==> w'.grants[k].identity != i
    ensures forall s, u :: !Admits(w'.db, s, u, i)
  {
    ReachableIsSound(w);
    forall k | |w.grants| <= k < |w'.grants|
      ensures w'.grants[k].identity != i
    {
      var mid, c, ttl := LaterGrant(w, log, w', k);
      RegistrationStays(w.db, mid.db, i);
    }
    assert HasRegistered(w'.db.users, i) by {
      RunKeepsInv(w, log, w');
      RegistrationStays(w.db, w'.db, i);
    }
  }

  // ---- a used trial ----

  /** A used identity stays used until it is reset, whatever is erased: no account is made for it. */
  lemma {:induction false} UsedUntilReset(w: World, log: Log, w': World, i: Identity, k: nat)
    requires Reachable(w) && Reaches(w, log, w')
    requires i in w.db.trials && w.db.trials[i].redeemedAt.Some? && w'.resets[i] == w.resets[i]
    ensures i in w'.db.trials && w'.db.trials[i].redeemedAt == w.db.trials[i].redeemedAt
    ensures |w.grants| <= k < |w'.grants| && w'.grants[k].identity == i ==> !w'.grants[k].isNew
  {
    ReachableIsSound(w);
    RunKeepsInv(w, log, w');
    assert TrialMoves(w.db.trials[i], w'.db.trials[i]);
    if |w.grants| <= k < |w'.grants| && w'.grants[k].identity == i {
      var mid, c, ttl := LaterGrant(w, log, w', k);
      assert TrialMoves(w.db.trials[i], mid.db.trials[i]) && TrialMoves(mid.db.trials[i], w'.db.trials[i]);
      RedeemFacts(mid.db, c, ttl, RedeemTx(mid.db, c, ttl), w'.grants[k]);
    }
  }

  ghost predicate Unowned(db: Db, u: Id) {
    forall i :: i in db.trials ==> db.trials[i].guest != Some(u)
  }

  /** An account no trial names - an evicted one, a duplicate from before the policy, one an old
      instance made since - never gets in again. */
  lemma {:induction false} UnownedNeverGetsIn(w: World, log: Log, w': World, u: Id)
    requires Reachable(w) && Reaches(w, log, w') && w.db.initialized && u < w.db.nextId && Unowned(w.db, u)
    ensures Unowned(w'.db, u) && forall s, i :: !Admits(w'.db, s, u, i)
  {
    ReachableIsSound(w);
    RunKeepsInv(w, log, w');
  }

  // ---- single transactions ----

  /** A reset leaves the identity unused, in the next generation, with no usable code, its former
      account expired and every session of that account revoked. */
  lemma {:induction false} ResetStartsOver(db: Db, i: Identity, db': Db)
    requires Sound(db) && db' == ResetTx(db, i)
    ensures i in db'.trials && db'.trials[i].redeemedAt.None? && db'.trials[i].lastSent.None?
    ensures db'.trials[i].generation == (if i in db.trials then db.trials[i].generation else 0) + 1
    ensures forall c :: !Open(db', c, i)
    ensures i in db.trials && db.trials[i].guest.Some? ==>
              && db.trials[i].guest.value in db'.users && !Live(db'.users[db.trials[i].guest.value], db'.now)
              && forall s :: s in db'.sessions && db'.sessions[s].user == db.trials[i].guest.value ==>
                   db'.sessions[s].revoked.Some?
  {
    if i in db.trials {
      assert TrialSound(db, i);
    }
  }

  lemma {:induction false} OnlyTheNewCode(db: Db, i: Identity, row: Id, expires: int, db': Db, d: Id)
    requires IdsFresh(db) && i in db.trials && row in db.requests && db' == IssueOn(db, i, row, expires)
    ensures Open(db', d, i) <==> d == db.nextId && expires > db.now
  {
    if d != db.nextId && d in db.codes {
      assert db'.codes[d] == Closed(db.codes, i, db.now)[d];
    }
  }

  /** A code lasts its full period or, when the identity has a live account, as long as that account,
      whichever is shorter. */
  lemma {:induction false} CodeExpiryBounds(db: Db, i: Identity, ttl: int)
    requires EligibleUser(db.users, db.now, Locked(db, i).trials[i], i).Ok?
    ensures CodeExpiry(db, i, ttl) > db.now <==> ttl > 0
    ensures i !in db.trials || db.trials[i].redeemedAt.None? ==> CodeExpiry(db, i, ttl) == db.now + ttl
    ensures i in db.trials && db.trials[i].redeemedAt.Some? ==>
              && db.trials[i].guest.Some? && db.trials[i].guest.value in db.users
              && Live(db.users[db.trials[i].guest.value], db.now)
              && var end := db.users[db.trials[i].guest.value].expires.value;
                 CodeExpiry(db, i, ttl) == (if end < db.now + ttl then end else db.now + ttl)
  {
  }

  /** Without a named request the code goes to the newest open request of the identity's own address that
      is not rejected, and to a new one only when there is none. */
  lemma {:induction false} PickedIsNewest(db: Db, i: Identity, row: Id, r: Id)
    requires IdsFresh(db) && PickedRow(db, i, None, row)
    requires r in db.requests && db.requests[r].email == Email(i, 0) && db.requests[r].status != Consumed &&
             db.requests[r].rejected.None?
    ensures row in db.requests && db.requests[row].email == Email(i, 0) && db.requests[row].status != Consumed
    ensures db.requests[row].rejected.None?
    ensures db.requests[r].created < db.requests[row].created ||
            (db.requests[r].created == db.requests[row].created && r <= row)
  {
    assert Reusable(db, i, r);
  }

  lemma {:induction false} PickedIsOpen(db: Db, i: Identity, row: Id)
    requires IdsFresh(db) && PickedRow(db, i, None, row)
    ensures row in db.requests ==>
              db.requests[row].email == Email(i, 0) && db.requests[row].status != Consumed &&
              db.requests[row].rejected.None?
    ensures row !in db.requests ==> row == db.nextId
  {
  }

  /** Nothing but the account's standing, the cooldown, the daily limit and a bad request keeps a code
      from being issued. */
  lemma {:induction false} IssuedIff(db: Db, i: Identity, named: Option<Id>, cooldown: nat, budget: bool)
    ensures IssueRefusal(db, i, named, cooldown, budget).None? <==>
              && !HasRegistered(db.users, i)
              && (i in db.trials && db.trials[i].redeemedAt.Some? ==> HasLive(db.users, db.now, db.trials[i].guest))
              && (i in db.trials && db.trials[i].lastSent.Some? ==> db.trials[i].lastSent.value + cooldown <= db.now)
              && budget
              && (named.Some? ==> named.value in db.requests && db.requests[named.value].email.identity == i &&
                                  db.requests[named.value].rejected.None?)
  {
  }

  /** An issued code is the identity's only usable one. */
  lemma {:induction false} IssueReplacesCodes(db: Db, i: Identity, named: Option<Id>, row: Id, ttl: int, cooldown: nat,
                                              db': Db, d: Id)
    requires Sound(db) && CanIssue(db, i, named, row, cooldown, true) && db' == IssueTx(db, i, row, ttl)
    ensures var c := db'.nextId - 1;
            && c !in db.codes && c in db'.codes && db'.codes[c].expires == CodeExpiry(db, i, ttl)
            && (Open(db', d, i) <==> d == c && ttl > 0)
  {
    var expires := CodeExpiry(db, i, ttl);
    assert (row in db.requests || row == db.nextId) && (expires > db.now <==> ttl > 0) by {
      IssueFacts(db, i, named, row, ttl, cooldown);
    }
    IssuedOn(db, i, row, expires, AskTx(db, i, row), db', d);
  }

  lemma {:induction false} IssueFacts(db: Db, i: Identity, named: Option<Id>, row: Id, ttl: int, cooldown: nat)
    requires IdsFresh(db) && CanIssue(db, i, named, row, cooldown, true)
    ensures row in db.requests || row == db.nextId
    ensures CodeExpiry(db, i, ttl) > db.now <==> ttl > 0
  {
    PickedRowFits(db, i, named, row, Locked(db, i));
    CodeExpiryBounds(db, i, ttl);
  }

  lemma {:induction false} IssuedOn(db: Db, i: Identity, row: Id, expires: int, r: Db, db': Db, d: Id)
    requires IdsFresh(db) && (row in db.requests || row == db.nextId) && r == AskTx(db, i, row)
    requires db' == IssueOn(r, i, row, expires)
    ensures var c := db'.nextId - 1;
            c !in db.codes && c in db'.codes && db'.codes[c].expires == expires &&
            (Open(db', d, i) <==> d == c && expires > db.now)
  {
    RowIds(db, i, row, r);
    OnlyTheNewCode(r, i, row, expires, db', d);
  }

  lemma {:induction false} RowIds(db: Db, i: Identity, row: Id, r: Db)
    requires IdsFresh(db) && (row in db.requests || row == db.nextId) && r == AskTx(db, i, row)
    ensures IdsFresh(r) && i in r.trials && row in r.requests && r.now == db.now && r.codes == db.codes
    ensures r.nextId !in db.codes
  {
    var l := Locked(db, i);
    LockIds(db, i, l);
    if row !in db.requests {
      RowAdded(l, Request(Normalised(i), Pending, l.now, None, None, None), r);
    }
  }

  lemma {:induction false} LockIds(db: Db, i: Identity, l: Db)
    requires IdsFresh(db) && l == Locked(db, i)
    ensures IdsFresh(l) && i in l.trials && l.codes == db.codes && l.requests == db.requests
    ensures l.now == db.now && l.nextId == db.nextId && l.nextId !in db.codes
  {
  }

  lemma {:induction false} RowAdded(db: Db, q: Request, r: Db)
    requires IdsFresh(db)
    requires r == db.(requests := db.requests[db.nextId := q], nextId := db.nextId + 1)
    ensures IdsFresh(r) && r.nextId !in db.codes
  {
  }

  ghost predicate Spent(db: Db, i: Identity) {
    i in db.trials && db.trials[i].redeemedAt.Some? && !HasLive(db.users, db.now, db.trials[i].guest)
  }

  ghost predicate MailedWithin(db: Db, i: Identity, cooldown: nat) {
    i in db.trials && db.trials[i].lastSent.Some? && db.now < db.trials[i].lastSent.value + cooldown
  }

  /** Which reason a refused issue gives, the first that applies. */
  lemma {:induction false} RefusalReasons(db: Db, i: Identity, named: Option<Id>, cooldown: nat, budget: bool)
    ensures var r := IssueRefusal(db, i, named, cooldown, budget);
            var registered, spent, mailed := HasRegistered(db.users, i), Spent(db, i), MailedWithin(db, i, cooldown);
            && (r == Some(RegisteredExists) <==> registered)
            && (r == Some(TrialUsed) <==> !registered && spent)
            && (r == Some(Cooldown) <==> !registered && !spent && mailed)
            && (r == Some(DailyLimit) <==> !registered && !spent && !mailed && !budget)
            && (r == Some(NoRequest) ==> !registered && !spent && !mailed && budget && named.Some?)
  {
  }

  /** A committed issue stamps the trial with its moment. */
  lemma {:induction false} IssueStamps(w: World, e: Event, w': World)
    requires Next(w, e, w') && w' != w && e.Issue?
    ensures w'.resets == w.resets && e.email.identity in w'.db.trials
    ensures w'.db.trials[e.email.identity].lastSent == Some(w.db.now)
  {
  }

  /** Within a generation no code is issued until the cooldown after any earlier mail is over. */
  lemma {:induction false} CooldownHolds(w: World, log: Log, w': World, i: Identity, sent: int,
                                         named: Option<Id>, row: Id, cooldown: nat)
    requires Reachable(w) && i in w.db.trials && w.db.trials[i].lastSent == Some(sent)
    requires Reaches(w, log, w') && w'.resets[i] == w.resets[i]
    ensures CanIssue(w'.db, i, named, row, cooldown, true) ==> sent + cooldown <= w'.db.now
  {
    assert i in w'.db.trials && TrialMoves(w.db.trials[i], w'.db.trials[i]) &&
           w.db.trials[i].generation == w'.db.trials[i].generation by {
      ReachableIsSound(w);
      RunKeepsInv(w, log, w');
    }
  }

  /** An account erased before the bootstrap still counts: its audit makes the identity used. */
  lemma {:induction false} ErasureSurvivesBootstrap(db: Db, u: Id, i: Identity, erased: Db, order: seq<Identity>,
                                                    path: seq<Db>, db': Db)
    requires Legacy(db) && Erased(db, u, None, Some(i), erased) && Bootstrapped(erased, order, path, db')
    ensures i in db'.trials && db'.trials[i].redeemedAt.Some?
  {
    assert Legacy(erased);
    assert u in erased.audits && erased.audits[u].identity == Some(i);
    OneTrialPerKnownIdentity(erased, order, path, db');
    UsedExactly(erased, order, path, db', i);
  }
}
