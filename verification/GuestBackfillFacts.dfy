/** What the reconciliation leaves behind, for any legacy tables and any order of identities. */
module GuestBackfillFacts {
  import opened Basics
  import opened GuestTables
  import opened GuestBackfill

  // ---- reconciling one identity leaves what the others are decided from ----

  ghost predicate SameUser(a: User, b: User, now: int) {
    a == b || (Live(a, now) && b == Guest(Some(now), a.created))
  }

  /** Same history: nothing that links, dates or counts as evidence has changed. */
  ghost predicate SameHistory(db: Db, db': Db) {
    && db'.now == db.now && db'.requests == db.requests && db'.audits == db.audits && db'.nextId == db.nextId
    && db'.initialized == db.initialized
    && db'.codes.Keys == db.codes.Keys && db'.users.Keys == db.users.Keys && db'.sessions.Keys == db.sessions.Keys
    && (forall c :: c in db.codes ==> SameRecord(db.codes[c], db'.codes[c]))
    && (forall u :: u in db.users ==> SameUser(db.users[u], db'.users[u], db.now))
    && (forall s :: s in db.sessions ==> SameSession(db.sessions[s], db'.sessions[s]))
  }

  ghost predicate SameSession(a: Session, b: Session) {
    b.user == a.user && b.expires == a.expires && (a.revoked.Some? ==> b.revoked == a.revoked)
  }

  ghost predicate SameRecord(a: Code, b: Code) {
    b.request == a.request && b.consumed == a.consumed && b.guest == a.guest && b.created == a.created
  }

  lemma {:induction false} SameHistoryChains(a: Db, b: Db, c: Db)
    requires SameHistory(a, b) && SameHistory(b, c)
    ensures SameHistory(a, c)
  {
  }

  lemma {:induction false} OneKeepsRecords(db: Db, i: Identity, db': Db)
    requires Reconciled(db, i, db')
    ensures db'.codes.Keys == db.codes.Keys && forall c :: c in db.codes ==> SameRecord(db.codes[c], db'.codes[c])
  {
  }

  lemma {:induction false} OneKeepsSessions(db: Db, i: Identity, db': Db)
    requires Reconciled(db, i, db')
    ensures db'.sessions.Keys == db.sessions.Keys
    ensures forall s :: s in db.sessions ==> SameSession(db.sessions[s], db'.sessions[s])
  {
  }

  lemma {:induction false} OneKeepsHistory(db: Db, i: Identity, db': Db)
    requires Reconciled(db, i, db')
    ensures SameHistory(db, db')
  {
    OneKeepsRecords(db, i, db');
    OneKeepsSessions(db, i, db');
    forall u | u in db.users
      ensures u in db'.users && SameUser(db.users[u], db'.users[u], db.now)
    {
    }
  }

  lemma {:induction false} SameLinks(a: Db, b: Db)
    requires SameHistory(a, b)
    ensures forall c :: c in a.codes ==> IdentityOf(a, c) == IdentityOf(b, c)
    ensures forall c, i :: CodeOf(a, i, c) <==> CodeOf(b, i, c)
    ensures forall c, u, i :: Links(a, c, u, i) <==> Links(b, c, u, i)
    ensures forall u, i :: Linked(a, u, i) <==> Linked(b, u, i)
  {
    forall u, i
      ensures Linked(a, u, i) <==> Linked(b, u, i)
    {
      if Linked(a, u, i) {
        var c :| Links(a, c, u, i);
        assert Links(b, c, u, i);
      }
      if Linked(b, u, i) {
        var c :| Links(b, c, u, i);
        assert Links(a, c, u, i);
      }
    }
  }

  lemma {:induction false} SameGuests(a: Db, b: Db, i: Identity)
    requires SameHistory(a, b)
    ensures forall u :: GuestOf(a, i, u) <==> GuestOf(b, i, u)
    ensures forall u :: ActiveGuest(b, i, u) ==> ActiveGuest(a, i, u)
    ensures HasRegistered(a.users, i) <==> HasRegistered(b.users, i)
  {
    SameLinks(a, b);
    if HasRegistered(a.users, i) {
      var u :| u in a.users && a.users[u] == Registered(Normalised(i));
      assert b.users[u] == Registered(Normalised(i));
    }
    if HasRegistered(b.users, i) {
      var u :| u in b.users && b.users[u] == Registered(Normalised(i));
      assert a.users[u] == Registered(Normalised(i));
    }
  }

  lemma {:induction false} SameEvidence(a: Db, b: Db, i: Identity)
    requires SameHistory(a, b)
    ensures Evidence(a, i) == Evidence(b, i) && SentTimes(a, i) == SentTimes(b, i)
  {
    SameLinks(a, b);
    SameGuests(a, b, i);
    assert forall u :: u in a.users ==> a.users[u].Guest? == b.users[u].Guest?;
    assert forall u :: u in a.users && a.users[u].Guest? ==> a.users[u].created == b.users[u].created;
    assert (set u | u in a.users && GuestOf(a, i, u) :: a.users[u].created) ==
           (set u | u in b.users && GuestOf(b, i, u) :: b.users[u].created);
    assert (set c | c in a.codes && CodeOf(a, i, c) && a.codes[c].consumed.Some? :: a.codes[c].consumed.value) ==
           (set c | c in b.codes && CodeOf(b, i, c) && b.codes[c].consumed.Some? :: b.codes[c].consumed.value);
  }

  /** Codes of the identity that nobody has touched are judged the same in both. */
  lemma {:induction false} SameCodes(a: Db, b: Db, i: Identity, keeper: Option<Id>, c: Id)
    requires SameHistory(a, b)
    requires forall d :: CodeOf(a, i, d) ==> b.codes[d] == a.codes[d]
    requires CodeOf(a, i, c)
    ensures CodeFor(a, i, keeper, c) == CodeFor(b, i, keeper, c)
  {
    SameLinks(a, b);
    SameGuests(a, b, i);
    SameEvidence(a, b, i);
    assert forall d :: UsableCode(a, i, d) <==> UsableCode(b, i, d);
  }

  // ---- the state of one identity before and after its turn ----

  ghost predicate Untouched(base: Db, db: Db, i: Identity) {
    && i !in db.trials
    && forall c :: CodeOf(base, i, c) ==> c in db.codes && db.codes[c] == base.codes[c]
  }

  ghost predicate CodesSettled(base: Db, db: Db, i: Identity, keeper: Option<Id>) {
    forall c :: CodeOf(base, i, c) ==> c in db.codes && db.codes[c] == CodeFor(base, i, keeper, c)
  }

  /** Of the accounts the identity ever had, only the recorded one can still be live. */
  ghost predicate OthersEnded(base: Db, db: Db, i: Identity, keeper: Option<Id>) {
    forall u :: GuestOf(base, i, u) && u in db.users && Live(db.users[u], db.now) ==> keeper == Some(u)
  }

  ghost predicate Settled(base: Db, db: Db, i: Identity) {
    && i in db.trials && TrialFor(base, i, db.trials[i])
    && (db.trials[i].guest.Some? ==>
          ActiveGuest(base, i, db.trials[i].guest.value) && !HasRegistered(base.users, i))
    && CodesSettled(base, db, i, db.trials[i].guest) && OthersEnded(base, db, i, db.trials[i].guest)
  }

  lemma {:induction false} SettleCodes(base: Db, db: Db, i: Identity, db': Db)
    requires SameHistory(base, db) && Untouched(base, db, i) && Reconciled(db, i, db')
    ensures CodesSettled(base, db', i, db'.trials[i].guest)
  {
    var k := db'.trials[i].guest;
    SameLinks(base, db);
    forall c | CodeOf(base, i, c)
      ensures c in db'.codes && db'.codes[c] == CodeFor(base, i, k, c)
    {
      SameCodes(base, db, i, k, c);
    }
  }

  lemma {:induction false} SettleGuests(base: Db, db: Db, i: Identity, db': Db)
    requires SameHistory(base, db) && Reconciled(db, i, db')
    ensures OthersEnded(base, db', i, db'.trials[i].guest)
    ensures db'.trials[i].guest.Some? ==>
              ActiveGuest(base, i, db'.trials[i].guest.value) && !HasRegistered(base.users, i)
  {
    SameGuests(base, db, i);
    var k := db'.trials[i].guest;
    forall u | GuestOf(base, i, u) && u in db'.users && Live(db'.users[u], db'.now)
      ensures k == Some(u)
    {
      assert db'.users[u] == UsersAfter(db, i, k)[u];
    }
  }

  lemma {:induction false} SettleOne(base: Db, db: Db, i: Identity, db': Db)
    requires SameHistory(base, db) && Untouched(base, db, i) && Reconciled(db, i, db')
    ensures Settled(base, db', i)
  {
    SettleCodes(base, db, i, db');
    SettleGuests(base, db, i, db');
    SameEvidence(base, db, i);
  }

  lemma {:induction false} OtherCodesStay(base: Db, db: Db, i: Identity, db': Db, j: Identity, c: Id)
    requires SameHistory(base, db) && Reconciled(db, i, db') && CodeOf(base, j, c) && i != j
    ensures c in db'.codes && db'.codes[c] == db.codes[c]
  {
    SameLinks(base, db);
    assert CodeOf(db, j, c);
  }

  lemma {:induction false} LiveOnlyEnds(db: Db, i: Identity, db': Db, u: Id)
    requires Reconciled(db, i, db') && u in db'.users && Live(db'.users[u], db'.now)
    ensures u in db.users && Live(db.users[u], db.now)
  {
  }

  lemma {:induction false} StaySettled(base: Db, db: Db, i: Identity, db': Db, j: Identity)
    requires SameHistory(base, db) && Reconciled(db, i, db') && i != j && Settled(base, db, j)
    ensures Settled(base, db', j)
  {
    var k := db.trials[j].guest;
    assert db'.trials[j] == db.trials[j];
    forall c | CodeOf(base, j, c)
      ensures c in db'.codes && db'.codes[c] == CodeFor(base, j, k, c)
    {
      OtherCodesStay(base, db, i, db', j, c);
    }
    forall u | GuestOf(base, j, u) && u in db'.users && Live(db'.users[u], db'.now)
      ensures k == Some(u)
    {
      LiveOnlyEnds(db, i, db', u);
    }
  }

  lemma {:induction false} StayUntouched(base: Db, db: Db, i: Identity, db': Db, j: Identity)
    requires SameHistory(base, db) && Reconciled(db, i, db') && i != j && Untouched(base, db, j)
    ensures Untouched(base, db', j)
  {
    forall c | CodeOf(base, j, c)
      ensures c in db'.codes && db'.codes[c] == base.codes[c]
    {
      OtherCodesStay(base, db, i, db', j, c);
    }
  }

  // ---- all of them ----

  /** Codes whose request is gone or was never recorded belong to no identity and stay as they are. */
  ghost predicate LooseUntouched(base: Db, db: Db) {
    forall c :: c in base.codes && IdentityOf(base, c).None? ==> c in db.codes && db.codes[c] == base.codes[c]
  }

  ghost predicate AllSettled(base: Db, db: Db, done: seq<Identity>) {
    && SameHistory(base, db) && LooseUntouched(base, db)
    && (forall i :: i in done ==> Settled(base, db, i))
    && (forall i :: i !in done ==> Untouched(base, db, i))
  }

  lemma {:induction false} SettleNext(base: Db, db: Db, done: seq<Identity>, i: Identity, db': Db)
    requires AllSettled(base, db, done) && i !in done && Reconciled(db, i, db')
    ensures AllSettled(base, db', done + [i])
  {
    OneKeepsHistory(db, i, db');
    SameHistoryChains(base, db, db');
    SameLinks(base, db);
    forall j | j in done + [i]
      ensures Settled(base, db', j)
    {
      if j == i {
        SettleOne(base, db, i, db');
      } else {
        StaySettled(base, db, i, db', j);
      }
    }
    forall j | j !in done + [i]
      ensures Untouched(base, db', j)
    {
      StayUntouched(base, db, i, db', j);
    }
    LooseStay(base, db, i, db');
  }

  lemma {:induction false} LooseStay(base: Db, db: Db, i: Identity, db': Db)
    requires SameHistory(base, db) && LooseUntouched(base, db) && Reconciled(db, i, db')
    ensures LooseUntouched(base, db')
  {
    SameLinks(base, db);
    forall c | c in base.codes && IdentityOf(base, c).None?
      ensures c in db'.codes && db'.codes[c] == base.codes[c]
    {
      assert !CodeOf(db, i, c);
    }
  }

  lemma {:induction false} SettlePath(db: Db, order: seq<Identity>, path: seq<Db>, k: nat)
    requires db.trials == map[] && Enumerates(order, RequestIdentities(db)) && ReconciledAll(db, order, path)
    requires k <= |order|
    ensures AllSettled(db, path[k], order[..k])
  {
    if k == 0 {
      NothingSettledYet(db);
    } else {
      SettlePath(db, order, path, k - 1);
      assert order[k - 1] !in order[..k - 1];
      assert order[..k] == order[..k - 1] + [order[k - 1]];
      assert Reconciled(path[k - 1], order[k - 1], path[k - 1 + 1]);
      SettleNext(db, path[k - 1], order[..k - 1], order[k - 1], path[k]);
    }
  }

  lemma {:induction false} NothingSettledYet(db: Db)
    requires db.trials == map[]
    ensures AllSettled(db, db, [])
  {
  }
}
