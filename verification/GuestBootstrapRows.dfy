/** What the bootstrap does to single rows, told from the legacy tables alone. */
module GuestBootstrapRows {
  import opened Basics
  import opened GuestTables
  import opened GuestBackfill
  import opened GuestBackfillFacts
  import opened GuestBootstrap
  import opened GuestKeepers

  // ---- trials ----

  /** A moment that proves that the identity has had its trial. */
  ghost predicate Moment(db: Db, i: Identity, t: int) {
    || (exists c :: CodeOf(db, i, c) && db.codes[c].consumed == Some(t))
    || (exists u :: GuestOf(db, i, u) && db.users[u].created == t)
    || (exists r :: r in db.requests && db.requests[r].email.identity == i && db.requests[r].status == Consumed &&
          db.requests[r].created == t)
    || (exists a :: a in db.audits && db.audits[a].identity == Some(i) && db.audits[a].created == t)
  }

  lemma {:induction false} MomentIff(db: Db, i: Identity, t: int)
    ensures t in Evidence(db, i) <==> Moment(db, i, t)
  {
  }

  /** A trial is used exactly when such a moment is on record, and since the earliest one. */
  lemma {:induction false} UsedSince(db: Db, order: seq<Identity>, path: seq<Db>, db': Db, i: Identity)
    requires Legacy(db) && Bootstrapped(db, order, path, db') && i in db'.trials
    ensures db'.trials[i].redeemedAt.Some? <==> exists t :: Moment(db, i, t)
    ensures db'.trials[i].redeemedAt.Some? ==>
              && Moment(db, i, db'.trials[i].redeemedAt.value)
              && forall t :: Moment(db, i, t) ==> db'.trials[i].redeemedAt.value <= t
  {
    UsedExactly(db, order, path, db', i);
    forall t
      ensures t in Evidence(db, i) <==> Moment(db, i, t)
    {
      MomentIff(db, i, t);
    }
  }

  ghost predicate MailedAt(db: Db, i: Identity, t: int) {
    exists r :: r in db.requests && db.requests[r].email.identity == i && db.requests[r].sent == Some(t)
  }

  /** The time of the last mail is taken over, so that the cooldown goes on. */
  lemma {:induction false} LastMailKept(db: Db, order: seq<Identity>, path: seq<Db>, db': Db, i: Identity)
    requires Legacy(db) && Bootstrapped(db, order, path, db') && i in db'.trials
    ensures db'.trials[i].lastSent.Some? <==> exists t :: MailedAt(db, i, t)
    ensures db'.trials[i].lastSent.Some? ==>
              && MailedAt(db, i, db'.trials[i].lastSent.value)
              && forall t :: MailedAt(db, i, t) ==> t <= db'.trials[i].lastSent.value
  {
    assert IsGreatest(SentTimes(db, i), db'.trials[i].lastSent) by {
      var last := Reached(db, order, path, db');
      if i in last.trials {
        assert Settled(db, last, i);
      } else {
        AuditsAlone(db, i);
        assert i in db'.(initialized := false).trials;
      }
    }
    assert forall t :: t in SentTimes(db, i) <==> MailedAt(db, i, t);
    if db'.trials[i].lastSent.Some? {
      assert MailedAt(db, i, db'.trials[i].lastSent.value);
    } else {
      assert SentTimes(db, i) == {};
    }
  }

  // ---- accounts and sessions ----

  /** An account ends now exactly when it was live and some identity it was linked to did not keep it. */
  lemma {:induction false} AccountsEndIff(db: Db, order: seq<Identity>, path: seq<Db>, db': Db, u: Id)
    requires Legacy(db) && Bootstrapped(db, order, path, db') && u in db.users
    ensures u in db'.users
    ensures db'.users[u] == if Live(db.users[u], db.now) && !KeptEverywhere(db, db', u)
                            then Guest(Some(db.now), db.users[u].created) else db.users[u]
  {
    assert u in db'.users && SameUser(db.users[u], db'.users[u], db.now) && db'.now == db.now by {
      var last := Reached(db, order, path, db');
    }
    if KeptEverywhere(db, db', u) {
      KeptIsNeverRetired(db, order, path, db', u);
    } else {
      var j :| GuestOf(db, j, u) && !(j in db'.trials && db'.trials[j].guest == Some(u));
      if Live(db'.users[u], db'.now) {
        OnlyTheKeeperIsLive(db, order, path, db', u, j);
      }
    }
  }

  /** An open session ends with its account, and no other session changes. */
  ghost predicate Follows(db: Db, mid: Db, s: Id)
    requires s in db.sessions
  {
    var u := db.sessions[s].user;
    && s in mid.sessions
    && mid.sessions[s] ==
         if db.sessions[s].revoked.None? && u in db.users && u in mid.users && mid.users[u] != db.users[u]
         then db.sessions[s].(revoked := Some(db.now)) else db.sessions[s]
  }

  lemma {:induction false} StillFollows(db: Db, mid: Db, i: Identity, next: Db, s: Id)
    requires s in db.sessions && SameHistory(db, mid) && Follows(db, mid, s) && Reconciled(mid, i, next)
    ensures Follows(db, next, s)
  {
    var u := db.sessions[s].user;
    assert u in db.users ==> u in mid.users && SameUser(db.users[u], mid.users[u], db.now);
    assert next.sessions[s] == SessionsAfter(mid, i, next.trials[i].guest)[s];
    assert u in mid.users ==> next.users[u] == UsersAfter(mid, i, next.trials[i].guest)[u];
  }

  lemma {:induction false} FollowsOnPath(db: Db, order: seq<Identity>, path: seq<Db>, n: nat, s: Id)
    requires db.trials == map[] && Enumerates(order, RequestIdentities(db)) && ReconciledAll(db, order, path)
    requires n <= |order| && s in db.sessions
    ensures Follows(db, path[n], s)
  {
    if n > 0 {
      FollowsOnPath(db, order, path, n - 1, s);
      SettlePath(db, order, path, n - 1);
      assert Reconciled(path[n - 1], order[n - 1], path[n - 1 + 1]);
      StillFollows(db, path[n - 1], order[n - 1], path[n], s);
    }
  }

  lemma {:induction false} SessionsFollow(db: Db, order: seq<Identity>, path: seq<Db>, db': Db, s: Id)
    requires Legacy(db) && Bootstrapped(db, order, path, db')
    ensures s in db'.sessions <==> s in db.sessions
    ensures s in db.sessions ==> Follows(db, db', s)
  {
    var last := Reached(db, order, path, db');
    if s in db.sessions {
      FollowsOnPath(db, order, path, |order|, s);
    }
  }

  /** Whoever keeps the trial is no younger than any live account that belonged to this identity alone;
      unless the email is registered, such an account means that somebody does. */
  lemma {:induction false} OldestIsKept(db: Db, order: seq<Identity>, path: seq<Db>, db': Db, i: Identity, v: Id)
    requires Legacy(db) && Bootstrapped(db, order, path, db')
    requires ActiveGuest(db, i, v) && forall j :: GuestOf(db, j, v) ==> j == i
    ensures i in db'.trials && (db'.trials[i].guest.Some? <==> !HasRegistered(db.users, i))
    ensures db'.trials[i].guest.Some? ==>
              var k := db'.trials[i].guest.value;
              && k in db.users && db.users[k].Guest?
              && (db.users[k].created < db.users[v].created ||
                  (db.users[k].created == db.users[v].created && k <= v))
  {
    var c :| Links(db, c, v, i);
    assert db.codes[c].request.value in db.requests && i in RequestIdentities(db);
    var m :| 0 <= m < |order| && order[m] == i;
    AtItsTurn(db, order, path, m, v);
    TrialStays(db, order, path, m, |order|);
    assert db'.(initialized := false).trials == db'.trials;
  }

  lemma {:induction false} AtItsTurn(db: Db, order: seq<Identity>, path: seq<Db>, m: nat, v: Id)
    requires db.trials == map[] && Enumerates(order, RequestIdentities(db)) && ReconciledAll(db, order, path)
    requires m < |order| && ActiveGuest(db, order[m], v) && forall j :: GuestOf(db, j, v) ==> j == order[m]
    ensures var i, next := order[m], path[m + 1];
            && i in next.trials && (next.trials[i].guest.Some? <==> !HasRegistered(db.users, i))
            && (next.trials[i].guest.Some? ==>
                  var k := next.trials[i].guest.value;
                  && k in db.users && db.users[k].Guest?
                  && (db.users[k].created < db.users[v].created ||
                      (db.users[k].created == db.users[v].created && k <= v)))
  {
    var i, mid := order[m], path[m];
    NeverRetired(db, order, path, m, v);
    SettlePath(db, order, path, m);
    SameGuests(db, mid, i);
    assert ActiveGuest(mid, i, v);
    assert Reconciled(path[m], order[m], path[m + 1]);
    assert IsKeeper(mid, i, path[m + 1].trials[i].guest);
    if path[m + 1].trials[i].guest.Some? {
      var k := path[m + 1].trials[i].guest.value;
      assert FirstActive(mid, i, k);
      assert SameUser(db.users[k], mid.users[k], db.now);
    }
  }

  // ---- codes ----

  /** The code that stays usable is the last one made, with the larger id where two were made at once. */
  lemma {:induction false} OpenCodeWasLast(db: Db, order: seq<Identity>, path: seq<Db>, db': Db, c: Id, d: Id,
                                           i: Identity)
    requires Legacy(db) && Bootstrapped(db, order, path, db') && Open(db', c, i)
    requires d in db.codes && IdentityOf(db, d) == Some(i) && db.codes[d].consumed.None? && db.codes[d].expires > db.now
    ensures c in db.codes && (db.codes[d].created < db.codes[c].created ||
                              (db.codes[d].created == db.codes[c].created && d <= c))
  {
    OpenCodeIsTheNewest(db, order, path, db', c, i);
    assert UsableCode(db, i, d);
  }
}
