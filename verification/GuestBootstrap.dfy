/** The bootstrap's guarantees: one trial per known identity, used exactly when history says so, at
    most one usable code and one live account each. They hold for any legacy tables. */
module GuestBootstrap {
  import opened Basics
  import opened GuestTables
  import opened GuestBackfill
  import opened GuestBackfillFacts

  /** Tables as they were before the policy: no trials, and no code carries an identity. */
  ghost predicate Legacy(db: Db) {
    && !db.initialized && db.trials == map[]
    && forall c :: c in db.codes ==> db.codes[c].identity.None?
  }

  /** The identity has had its trial: a redeemed code, a guest account, a consumed request or an
      erased account says so. */
  ghost predicate Used(db: Db, i: Identity) {
    || (exists c :: CodeOf(db, i, c) && db.codes[c].consumed.Some?)
    || (exists u :: GuestOf(db, i, u))
    || (exists r :: r in db.requests && db.requests[r].email.identity == i && db.requests[r].status.Consumed?)
    || (exists a :: a in db.audits && db.audits[a].identity == Some(i))
  }

  lemma {:induction false} UsedMeansEvidence(db: Db, i: Identity)
    ensures Used(db, i) <==> Evidence(db, i) != {}
  {
    var e := Evidence(db, i);
    if Used(db, i) {
      if c :| CodeOf(db, i, c) && db.codes[c].consumed.Some? {
        assert db.codes[c].consumed.value in e;
      } else if u :| GuestOf(db, i, u) {
        assert db.users[u].created in e;
      } else if r :| r in db.requests && db.requests[r].email.identity == i && db.requests[r].status.Consumed? {
        assert db.requests[r].created in e;
      } else {
        var a :| a in db.audits && db.audits[a].identity == Some(i);
        assert db.audits[a].created in AuditTimes(db, i);
      }
    }
    if !Used(db, i) {
      assert forall t :: t !in e;
    }
  }

  /** Without requests only audits speak for an identity. */
  lemma {:induction false} AuditsAlone(db: Db, i: Identity)
    requires i !in RequestIdentities(db)
    ensures Evidence(db, i) == AuditTimes(db, i) && SentTimes(db, i) == {}
    ensures forall c :: !CodeOf(db, i, c)
  {
    forall c
      ensures !CodeOf(db, i, c)
    {
      if CodeOf(db, i, c) {
        assert false;
      }
    }
    forall u
      ensures !GuestOf(db, i, u)
    {
      if GuestOf(db, i, u) {
        var c :| Links(db, c, u, i);
        assert CodeOf(db, i, c);
      }
    }
  }

  /** The tables the audits are added to. */
  lemma {:induction false} Reached(db: Db, order: seq<Identity>, path: seq<Db>, db': Db) returns (last: Db)
    requires Legacy(db) && Bootstrapped(db, order, path, db')
    ensures last == path[|order|] && AllSettled(db, last, order)
    ensures db'.users == last.users && db'.codes == last.codes && db'.sessions == last.sessions && db'.now == db.now
    ensures db'.requests == db.requests && db'.audits == db.audits && db'.nextId == db.nextId
    ensures last.trials.Keys == RequestIdentities(db)
    ensures forall i :: i in last.trials ==> i in db'.trials && db'.trials[i] == last.trials[i]
    ensures AuditIdentities(last) == AuditIdentities(db)
  {
    last := path[|order|];
    SettlePath(db, order, path, |order|);
    assert order[..|order|] == order;
    assert db'.(initialized := false).trials == db'.trials;
    forall i
      ensures i in last.trials <==> i in RequestIdentities(db)
    {
      assert i in order ==> Settled(db, last, i);
      assert i !in order ==> Untouched(db, last, i);
    }
  }

  /** Exactly one trial row for every identity that any request or audit mentions. */
  lemma {:induction false} OneTrialPerKnownIdentity(db: Db, order: seq<Identity>, path: seq<Db>, db': Db)
    requires Legacy(db) && Bootstrapped(db, order, path, db')
    ensures db'.trials.Keys == RequestIdentities(db) + AuditIdentities(db)
  {
    var last := Reached(db, order, path, db');
  }

  /** Every trial starts at generation 0, and is used, from the earliest moment on record, exactly
      when the history says the identity has had its trial. */
  lemma {:induction false} UsedExactly(db: Db, order: seq<Identity>, path: seq<Db>, db': Db, i: Identity)
    requires Legacy(db) && Bootstrapped(db, order, path, db') && i in db'.trials
    ensures db'.trials[i].generation == 0
    ensures db'.trials[i].redeemedAt.Some? <==> Used(db, i)
    ensures IsLeast(Evidence(db, i), db'.trials[i].redeemedAt)
  {
    UsedMeansEvidence(db, i);
    var last := Reached(db, order, path, db');
    if i in last.trials {
      assert i in order;
      assert Settled(db, last, i);
    } else {
      AuditsAlone(db, i);
      assert AuditTimes(last, i) == AuditTimes(db, i);
      assert i in db'.(initialized := false).trials;
    }
  }

  // ---- codes ----

  lemma {:induction false} LabelledByRequest(db: Db, order: seq<Identity>, path: seq<Db>, db': Db, c: Id, i: Identity)
    requires Legacy(db) && Bootstrapped(db, order, path, db') && CodeOf(db, i, c)
    ensures i in db'.trials && c in db'.codes && db'.codes[c] == CodeFor(db, i, db'.trials[i].guest, c)
  {
    var last := Reached(db, order, path, db');
    assert db.requests[db.codes[c].request.value].email.identity in RequestIdentities(db);
    assert i in last.trials;
    assert Settled(db, last, i);
  }

  /** A code carries an identity exactly when its request names one, and then that one. */
  lemma {:induction false} CodesAreLabelled(db: Db, order: seq<Identity>, path: seq<Db>, db': Db, c: Id)
    requires Legacy(db) && Bootstrapped(db, order, path, db') && c in db'.codes
    ensures c in db.codes && db'.codes[c].identity == IdentityOf(db, c) == IdentityOf(db', c)
    ensures SameRecord(db.codes[c], db'.codes[c])
    ensures db'.codes[c].identity.None? ==> db'.codes[c] == db.codes[c]
  {
    assert c in db.codes && SameRecord(db.codes[c], db'.codes[c]) && db'.requests == db.requests by {
      var last := Reached(db, order, path, db');
    }
    var i := IdentityOf(db, c);
    if i.Some? {
      LabelledByRequest(db, order, path, db', c, i.value);
    } else {
      var last := Reached(db, order, path, db');
    }
  }

  lemma {:induction false} NewestIsUnique(db: Db, i: Identity, c: Id, d: Id)
    requires NewestUsable(db, i, c) && NewestUsable(db, i, d)
    ensures c == d
  {
  }

  /** The only code that can still be usable is the newest usable one, and only when the email is not
      registered and the identity is unused or has a recorded account. */
  lemma {:induction false} OpenCodeIsTheNewest(db: Db, order: seq<Identity>, path: seq<Db>, db': Db, c: Id, i: Identity)
    requires Legacy(db) && Bootstrapped(db, order, path, db')
    ensures Open(db', c, i) <==>
              NewestUsable(db, i, c) && !HasRegistered(db.users, i) && i in db'.trials &&
              (Used(db, i) ==> db'.trials[i].guest.Some?)
  {
    var last := Reached(db, order, path, db');
    UsedMeansEvidence(db, i);
    if c in db'.codes {
      CodesAreLabelled(db, order, path, db', c);
      if CodeOf(db, i, c) {
        LabelledByRequest(db, order, path, db', c, i);
      }
    } else {
      assert c !in db.codes;
    }
  }

  lemma {:induction false} AtMostOneOpenCode(db: Db, order: seq<Identity>, path: seq<Db>, db': Db, c: Id, d: Id,
                                             i: Identity)
    requires Legacy(db) && Bootstrapped(db, order, path, db') && Open(db', c, i) && Open(db', d, i)
    ensures c == d
  {
    OpenCodeIsTheNewest(db, order, path, db', c, i);
    OpenCodeIsTheNewest(db, order, path, db', d, i);
    NewestIsUnique(db, i, c, d);
  }

  // ---- accounts ----

  /** No account of the identity but the recorded one is live, and none when the email is registered. */
  lemma {:induction false} OnlyTheKeeperIsLive(db: Db, order: seq<Identity>, path: seq<Db>, db': Db, u: Id, i: Identity)
    requires Legacy(db) && Bootstrapped(db, order, path, db')
    requires GuestOf(db, i, u) && u in db'.users && Live(db'.users[u], db'.now)
    ensures i in db'.trials && db'.trials[i].guest == Some(u) && db'.trials[i].redeemedAt.Some?
    ensures !HasRegistered(db'.users, i) && Live(db.users[u], db.now)
  {
    var last := Reached(db, order, path, db');
    var c :| Links(db, c, u, i);
    assert db.codes[c].request.value in db.requests && i in RequestIdentities(db);
    assert Settled(db, last, i);
    SameGuests(db, last, i);
    UsedMeansEvidence(db, i);
    assert Used(db, i);
  }
}
