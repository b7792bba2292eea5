/** Whole runs of the guest-trial protocol. */
module GuestRuns {
  import opened Basics
  import opened GuestTables
  import opened GuestErasure
  import opened GuestBackfill
  import opened GuestBackfillFacts
  import opened GuestBootstrap
  import opened GuestKeepers
  import opened GuestProtocol
  import opened GuestSteps

  // ---- the bootstrap establishes the invariant ----

  lemma {:induction false} BootstrapAges(db: Db, order: seq<Identity>, path: seq<Db>, db': Db, c: Id)
    requires Legacy(db) && Bootstrapped(db, order, path, db') && c in db'.codes
    ensures c in db.codes && CodeAges(db.codes[c], db'.codes[c], db'.now)
  {
    CodesAreLabelled(db, order, path, db', c);
    var i := IdentityOf(db, c);
    if i.Some? {
      LabelledByRequest(db, order, path, db', c, i.value);
      assert db'.now == db.now by {
        var last := Reached(db, order, path, db');
      }
    }
  }

  lemma {:induction false} BootstrapEvolves(db: Db, order: seq<Identity>, path: seq<Db>, db': Db)
    requires Legacy(db) && IdsFresh(db) && Bootstrapped(db, order, path, db')
    ensures Evolves(db, db') && IdsFresh(db')
  {
    forall c | c in db'.codes
      ensures c in db.codes && CodeAges(db.codes[c], db'.codes[c], db'.now)
    {
      BootstrapAges(db, order, path, db', c);
    }
    var last := Reached(db, order, path, db');
    assert SameHistory(db, last);
  }

  lemma {:induction false} BootstrapCodes(db: Db, order: seq<Identity>, path: seq<Db>, db': Db)
    requires Legacy(db) && Bootstrapped(db, order, path, db')
    ensures CodesSound(db') && OneOpen(db')
  {
    forall c | c in db'.codes
      ensures CodeSound(db', c)
    {
      CodesAreLabelled(db, order, path, db', c);
      var i := IdentityOf(db, c);
      if i.Some? {
        LabelledByRequest(db, order, path, db', c, i.value);
      }
    }
    forall c, d, i | Open(db', c, i) && Open(db', d, i)
      ensures c == d
    {
      AtMostOneOpenCode(db, order, path, db', c, d, i);
    }
  }

  lemma {:induction false} BootstrapTrial(db: Db, order: seq<Identity>, path: seq<Db>, db': Db, i: Identity)
    requires Legacy(db) && Bootstrapped(db, order, path, db') && i in db'.trials
    ensures TrialSound(db', i)
  {
    var k := db'.trials[i].guest;
    if k.Some? {
      KeeperWasActive(db, order, path, db', i, k.value);
      UsedExactly(db, order, path, db', i);
      var last := Reached(db, order, path, db');
      SameGuests(db, last, i);
      var c :| Links(last, c, k.value, i);
      assert Links(db', c, k.value, i);
    }
  }

  lemma {:induction false} BootstrapKeeps(w: World, order: seq<Identity>, path: seq<Db>, db': Db)
    requires Inv(w) && Bootstrapped(w.db, order, path, db')
    ensures Evolves(w.db, db') && Inv(w.(db := db'))
  {
    BootstrapEvolves(w.db, order, path, db');
    BootstrapCodes(w.db, order, path, db');
    forall i | i in db'.trials
      ensures TrialSound(db', i) && db'.trials[i].generation == 0
    {
      BootstrapTrial(w.db, order, path, db', i);
      UsedExactly(w.db, order, path, db', i);
    }
    assert forall i :: w.resets[i] == 0;
  }

  lemma {:induction false} NothingChanges(w: World)
    requires Inv(w)
    ensures Evolves(w.db, w.db)
  {
  }

  /** Every step keeps the invariant and only ages what it finds. */
  lemma {:induction false} StepKeepsInv(w: World, e: Event, w': World)
    requires Inv(w) && Next(w, e, w')
    ensures Inv(w') && Evolves(w.db, w'.db)
  {
    if w' == w {
      NothingChanges(w);
      return;
    }
    var db' := w'.db;
    match e
    case Tick(elapsed) => TickKeeps(w, elapsed, db');
    case Bootstrap =>
      var order, path :| Bootstrapped(w.db, order, path, db');
      BootstrapKeeps(w, order, path, db');
    case Ask(email, row) => AskKeeps(w, email.identity, row, db');
    case Issue(email, named, row, ttl, cooldown, budget, delivered) => IssueKeeps(w, e, db');
    case Redeem(c, ttl) => RedeemKeeps(w, c, ttl, w');
    case Reset(email) => ResetKeeps(w, email.identity, db');
    case Signup(email, guests) => SignupKeeps(w, email.identity, guests, db');
    case Erase(u, cutoff, found, deferred) =>
      var identity :| Erased(w.db, u, found, identity, db');
      EraseKeeps(w, u, found, identity, db');
    case Logout(s) => LogoutKeeps(w, s, db');
    case LateIssue(request, ttl) => LateIssueKeeps(w, request, ttl, db');
    case LateRedeem(c, ttl) => LateRedeemKeeps(w, c, ttl, db');
  }

  // ---- runs ----

  /** Events in the order they were committed. */
  datatype Log = Empty | Then(before: Log, last: Event)

  /** The events lead from one world to the other. */
  ghost predicate Reaches(w: World, log: Log, w': World) {
    match log
    case Empty => w' == w
    case Then(before, last) => exists mid :: Reaches(w, before, mid) && Next(mid, last, w')
  }

  /** Reached from some tables from before the policy. */
  ghost predicate Reachable(w: World) {
    exists start, log :: Start(start) && Reaches(start, log, w)
  }

  /** From sound tables every later state is sound, and whatever was there has only aged. */
  lemma {:induction false} RunKeepsInv(w: World, log: Log, w': World)
    requires Inv(w) && Reaches(w, log, w')
    ensures Inv(w') && Evolves(w.db, w'.db)
  {
    match log
    case Empty => NothingChanges(w);
    case Then(before, last) =>
      var mid :| Reaches(w, before, mid) && Next(mid, last, w');
      RunKeepsInv(w, before, mid);
      StepKeepsInv(mid, last, w');
      EvolvesChains(w.db, mid.db, w'.db);
  }

  lemma {:induction false} ReachableIsSound(w: World)
    requires Reachable(w)
    ensures Inv(w)
  {
    var start, log :| Start(start) && Reaches(start, log, w);
    StartIsSound(start);
    RunKeepsInv(start, log, w);
  }

  // ---- what is granted later ----

  lemma {:induction false} GrantsOnlyGrow(w: World, log: Log, w': World)
    requires Reaches(w, log, w')
    ensures w.grants <= w'.grants
  {
    match log
    case Empty =>
    case Then(before, last) =>
      var mid :| Reaches(w, before, mid) && Next(mid, last, w');
      GrantsOnlyGrow(w, before, mid);
      NextGrant(mid, last, w');
  }

  lemma {:induction false} NextGrant(w: World, e: Event, w': World)
    requires Next(w, e, w')
    ensures w'.grants == w.grants ||
            (e.Redeem? && w.db.initialized && RedeemUser(w.db, e.c).Ok? &&
             w'.grants == w.grants + [GrantOf(w.db, e.c, e.ttl)])
  {
  }

  /** Where a grant was made: a sound state on the way that allowed it. */
  ghost predicate MadeIn(w: World, mid: World, w': World, c: Id, ttl: int, g: Grant) {
    && Inv(mid) && Evolves(w.db, mid.db) && Evolves(mid.db, w'.db)
    && RedeemUser(mid.db, c).Ok? && g == GrantOf(mid.db, c, ttl)
  }

  /** Every later grant was made in some state on the way, after which more may have happened. */
  lemma {:induction false} LaterGrant(w: World, log: Log, w': World, k: nat)
    returns (mid: World, c: Id, ttl: int)
    requires Inv(w) && Reaches(w, log, w') && |w.grants| <= k < |w'.grants|
    ensures MadeIn(w, mid, w', c, ttl, w'.grants[k])
  {
    match log
    case Empty =>
      assert false;
    case Then(before, last) =>
      var prev :| Reaches(w, before, prev) && Next(prev, last, w');
      NextGrant(prev, last, w');
      if k < |prev.grants| {
        mid, c, ttl := LaterGrant(w, before, prev, k);
        StillMade(w, mid, before, prev, last, w', c, ttl, prev.grants[k]);
      } else {
        mid, c, ttl := prev, last.c, last.ttl;
        JustMade(w, before, prev, last, w', c, ttl);
      }
  }

  lemma {:induction false} StillMade(w: World, mid: World, before: Log, prev: World, last: Event, w': World, c: Id,
                                     ttl: int, g: Grant)
    requires Inv(w) && Reaches(w, before, prev) && Next(prev, last, w') && MadeIn(w, mid, prev, c, ttl, g)
    ensures MadeIn(w, mid, w', c, ttl, g)
  {
    assert Evolves(mid.db, w'.db) by {
      RunKeepsInv(w, before, prev);
      StepKeepsInv(prev, last, w');
      EvolvesChains(mid.db, prev.db, w'.db);
    }
  }

  lemma {:induction false} JustMade(w: World, before: Log, prev: World, last: Event, w': World, c: Id, ttl: int)
    requires Inv(w) && Reaches(w, before, prev) && Next(prev, last, w') && RedeemUser(prev.db, c).Ok?
    ensures MadeIn(w, prev, w', c, ttl, GrantOf(prev.db, c, ttl))
  {
    RunKeepsInv(w, before, prev);
    StepKeepsInv(prev, last, w');
  }

  // ---- who owns a trial ----

  /** Every trial with an account had it before, in the same generation. */
  ghost predicate OwnersStay(a: map<Identity, Trial>, b: map<Identity, Trial>) {
    forall i :: i in b && b[i].guest.Some? ==> i in a && a[i].guest == b[i].guest && a[i].generation == b[i].generation
  }

  lemma {:induction false} OwnersStayUnlessRedeemed(w: World, e: Event, w': World)
    requires Next(w, e, w') && w.db.initialized && !e.Redeem?
    ensures OwnersStay(w.db.trials, w'.db.trials)
  {
    match e
    case Ask(email, row) => AskKeepsOwners(w.db, email.identity, row);
    case Issue(email, named, row, ttl, cooldown, budget, delivered) =>
      IssueKeepsOwners(w.db, email.identity, row, ttl);
    case Reset(email) => ResetKeepsOwners(w.db, email.identity);
    case Signup(email, guests) => SignupKeepsOwners(w.db, email.identity, guests);
    case Erase(u, cutoff, found, deferred) =>
      if w' != w {
        var identity :| Erased(w.db, u, found, identity, w'.db);
        EraseKeepsOwners(w.db, u, found, identity, w'.db);
      }
    case _ =>
  }

  lemma {:induction false} LockKeepsOwners(db: Db, i: Identity)
    ensures OwnersStay(db.trials, Locked(db, i).trials) && i in Locked(db, i).trials
  {
  }

  lemma {:induction false} AskKeepsOwners(db: Db, i: Identity, row: Id)
    ensures OwnersStay(db.trials, AskTx(db, i, row).trials)
  {
    LockKeepsOwners(db, i);
    assert AskTx(db, i, row).trials == Locked(db, i).trials;
  }

  lemma {:induction false} IssueKeepsOwners(db: Db, i: Identity, row: Id, ttl: int)
    ensures OwnersStay(db.trials, IssueTx(db, i, row, ttl).trials)
  {
    var l := Locked(db, i).trials;
    LockKeepsOwners(db, i);
    assert IssueTx(db, i, row, ttl).trials == l[i := l[i].(lastSent := Some(db.now))];
    StampKeepsOwners(db.trials, l, i, db.now);
  }

  lemma {:induction false} StampKeepsOwners(a: map<Identity, Trial>, l: map<Identity, Trial>, i: Identity, now: int)
    requires OwnersStay(a, l) && i in l
    ensures OwnersStay(a, l[i := l[i].(lastSent := Some(now))])
  {
  }

  lemma {:induction false} ResetKeepsOwners(db: Db, i: Identity)
    ensures OwnersStay(db.trials, ResetTx(db, i).trials)
  {
  }

  lemma {:induction false} SignupKeepsOwners(db: Db, i: Identity, guests: bool)
    ensures OwnersStay(db.trials, SignupTx(db, i, guests).trials)
  {
    LockKeepsOwners(db, i);
  }

  lemma {:induction false} EraseKeepsOwners(db: Db, u: Id, found: Option<Identity>, identity: Option<Identity>, db': Db)
    requires Erased(db, u, found, identity, db')
    ensures OwnersStay(db.trials, db'.trials)
  {
  }

  /** The trial's account came with a grant of its generation. */
  ghost predicate OwnerGranted(gs: seq<Grant>, from: nat, i: Identity, generation: nat, u: Id) {
    exists k :: from <= k < |gs| &&
      gs[k].identity == i && gs[k].generation == generation && gs[k].user == u && gs[k].isNew
  }

  lemma {:induction false} RedeemedOwner(w: World, c: Id, ttl: int, w': World, i: Identity, from: nat)
    requires Inv(w) && RedeemUser(w.db, c).Ok? && from <= |w.grants|
    requires w' == w.(db := RedeemTx(w.db, c, ttl), grants := w.grants + [GrantOf(w.db, c, ttl)])
    requires i in w'.db.trials && w'.db.trials[i].guest.Some?
    ensures var t := w'.db.trials[i];
      || (i in w.db.trials && w.db.trials[i].guest == t.guest && w.db.trials[i].generation == t.generation)
      || OwnerGranted(w'.grants, from, i, t.generation, t.guest.value)
  {
    var g := GrantOf(w.db, c, ttl);
    RedeemFacts(w.db, c, ttl, w'.db, g);
    assert w'.grants[|w.grants|] == g;
  }

  /** An account that came to own a trial after this state has the grant that made it. */
  lemma {:induction false} OwnerHasGrant(w: World, log: Log, w': World, i: Identity, u: Id)
    requires Inv(w) && w.db.initialized && Reaches(w, log, w') && u >= w.db.nextId
    requires i in w'.db.trials && w'.db.trials[i].guest == Some(u)
    ensures OwnerGranted(w'.grants, |w.grants|, i, w'.db.trials[i].generation, u)
  {
    match log
    case Empty =>
    case Then(before, last) =>
      var prev :| Reaches(w, before, prev) && Next(prev, last, w');
      assert Inv(prev) && prev.db.initialized by {
        RunKeepsInv(w, before, prev);
      }
      GrantsOnlyGrow(w, before, prev);
      NextGrant(prev, last, w');
      if last.Redeem? && w' != prev {
        RedeemedOwner(prev, last.c, last.ttl, w', i, |w.grants|);
      } else if w' != prev {
        OwnersStayUnlessRedeemed(prev, last, w');
      }
      if i in prev.db.trials && prev.db.trials[i].guest == Some(u) &&
         prev.db.trials[i].generation == w'.db.trials[i].generation {
        OwnerHasGrant(w, before, prev, i, u);
        StillGranted(prev.grants, w'.grants, |w.grants|, i, w'.db.trials[i].generation, u);
      }
  }

  lemma {:induction false} StillGranted(gs: seq<Grant>, gs': seq<Grant>, from: nat, i: Identity, generation: nat, u: Id)
    requires gs <= gs' && OwnerGranted(gs, from, i, generation, u)
    ensures OwnerGranted(gs', from, i, generation, u)
  {
    var k :| from <= k < |gs| &&
      gs[k].identity == i && gs[k].generation == generation && gs[k].user == u && gs[k].isNew;
    assert gs'[k] == gs[k];
  }
}
