/** What erasing an expired guest leaves in the identity tables. */
module GuestErasureFacts {
  import opened Basics
  import opened GuestTables
  import opened GuestErasure
  import opened GuestProtocol
  import opened GuestSteps

  /** Nothing points at the erased account any more, and no remaining code at an erased request. */
  lemma {:induction false} NothingDangles(db: Db, u: Id, found: Option<Identity>, identity: Option<Identity>, db': Db)
    requires Sound(db) && Erased(db, u, found, identity, db')
    ensures u !in db'.users
    ensures forall s :: s in db'.sessions ==> db'.sessions[s].user != u
    ensures forall c :: c in db'.codes ==> db'.codes[c].guest != Some(u)
    ensures forall i :: i in db'.trials ==> db'.trials[i].guest != Some(u)
    ensures forall c :: c in db'.codes && db'.codes[c].request.Some? && db'.codes[c].request.value in db.requests ==>
              db'.codes[c].request.value in db'.requests
  {
    forall i | i in db'.trials
      ensures db'.trials[i].guest != Some(u)
    {
      if db'.trials[i].guest == Some(u) {
        NoOtherTrial(db, u, found, i);
        assert false;
      }
    }
    forall c | c in db'.codes && db'.codes[c].request.Some? && db'.codes[c].request.value in db.requests
      ensures db'.codes[c].request.value in db'.requests
    {
      RemainingKeepRequests(db, u, found, identity, db', c);
    }
  }

  /** One audit row is added, for this account and no other; when the account held a trial, the row
      records that trial's identity. */
  lemma {:induction false} OneAuditRow(db: Db, u: Id, found: Option<Identity>, identity: Option<Identity>, db': Db)
    requires Sound(db) && Erased(db, u, found, identity, db')
    ensures u !in db.audits && |db'.audits| == |db.audits| + 1
    ensures db'.audits == db.audits[u := Audit(identity, db.users[u].created, db.users[u].expires.value, db.now)]
    ensures found.Some? ==> identity == found
    ensures forall j: Identity :: Linked(db, u, j) ==> identity == Some(j)
  {
    forall j: Identity | Linked(db, u, j)
      ensures identity == Some(j)
    {
      LinkedIsOwned(db, u, found, j);
      AtMostOne(OwnedIdentities(db, u, found), j, identity.value);
    }
    if found.Some? {
      assert TrialSound(db, found.value);
    }
  }

  lemma {:induction false} OwnedIsRecorded(db: Db, u: Id, found: Option<Identity>, identity: Option<Identity>,
                                           db': Db, c: Id)
    requires Erased(db, u, found, identity, db') && Owned(db, u, found, c) && IdentityOf(db, c).Some?
    ensures identity == IdentityOf(db, c)
  {
    assert c in OwnedCodes(db, u, found);
    assert IdentityOf(db, c).value in OwnedIdentities(db, u, found);
    AtMostOne(OwnedIdentities(db, u, found), identity.value, IdentityOf(db, c).value);
  }

  /** Every other email's trial, codes and requests stay exactly as they were. */
  lemma {:induction false} OthersAreUntouched(db: Db, u: Id, found: Option<Identity>, identity: Option<Identity>,
                                              db': Db, j: Identity)
    requires Sound(db) && Erased(db, u, found, identity, db') && identity != Some(j)
    ensures (j in db'.trials <==> j in db.trials) && (j in db.trials ==> db'.trials[j] == db.trials[j])
    ensures forall c :: c in db.codes && db.codes[c].identity == Some(j) ==>
              c in db'.codes && db'.codes[c] == db.codes[c]
    ensures forall r :: r in db.requests && db.requests[r].email.identity == j ==>
              r in db'.requests && db'.requests[r] == db.requests[r]
  {
    OneAuditRow(db, u, found, identity, db');
    forall c | c in db.codes && db.codes[c].identity == Some(j)
      ensures !Owned(db, u, found, c)
    {
      assert CodeSound(db, c);
      if Owned(db, u, found, c) {
        OwnedIsRecorded(db, u, found, identity, db', c);
        assert false;
      }
    }
    forall r | r in db.requests && db.requests[r].email.identity == j
      ensures !Orphaned(db, u, found, r)
    {
      if Orphaned(db, u, found, r) {
        var c :| c in OwnedCodes(db, u, found) && IdentityOf(db, c).Some? && db.codes[c].request.value == r;
        OwnedIsRecorded(db, u, found, identity, db', c);
        assert false;
      }
    }
  }

  /** A code goes with the account when it admitted it, or is an unused one of its trial's generation. */
  ghost predicate GoesAlong(db: Db, u: Id, found: Option<Identity>, c: Id)
    requires c in db.codes
  {
    || db.codes[c].guest == Some(u)
    || (found.Some? && found.value in db.trials && db.codes[c].identity == found && db.codes[c].guest.None? &&
        db.codes[c].generation == db.trials[found.value].generation)
  }

  /** Exactly these rows go, and the others stay as they are: the account, its sessions, its codes, and
      the requests that some of those codes and no other refer to. */
  lemma {:induction false} OnlyItsRowsGo(db: Db, u: Id, found: Option<Identity>, identity: Option<Identity>, db': Db)
    requires Erased(db, u, found, identity, db')
    ensures db'.now == db.now && db'.initialized == db.initialized && db'.nextId == db.nextId
    ensures db'.users == db.users - {u}
    ensures db'.sessions == map s | s in db.sessions && db.sessions[s].user != u :: db.sessions[s]
    ensures db'.codes == map c | c in db.codes && !GoesAlong(db, u, found, c) :: db.codes[c]
    ensures forall r :: r in db'.requests <==>
              && r in db.requests
              && ((forall c :: c in db.codes && db.codes[c].request == Some(r) ==> !GoesAlong(db, u, found, c)) ||
                  (exists c :: c in db.codes && db.codes[c].request == Some(r) && !GoesAlong(db, u, found, c)))
    ensures forall r :: r in db'.requests ==> db'.requests[r] == db.requests[r]
    ensures forall i :: i in db.trials ==>
              i in db'.trials &&
              db'.trials[i] == (if found == Some(i) then db.trials[i].(guest := None) else db.trials[i])
  {
    assert db'.codes == CodesLeft(db, u, found);
    CodesThatGo(db, u, found);
    RequestsThatGo(db, u, found, identity, db');
  }

  lemma {:induction false} CodesThatGo(db: Db, u: Id, found: Option<Identity>)
    ensures CodesLeft(db, u, found) == map c | c in db.codes && !GoesAlong(db, u, found, c) :: db.codes[c]
  {
    assert forall c :: c in db.codes ==> (Owned(db, u, found, c) <==> GoesAlong(db, u, found, c));
  }

  lemma {:induction false} RequestsThatGo(db: Db, u: Id, found: Option<Identity>, identity: Option<Identity>, db': Db)
    requires Erased(db, u, found, identity, db')
    ensures forall r :: r in db'.requests <==>
              && r in db.requests
              && ((forall c :: c in db.codes && db.codes[c].request == Some(r) ==> !GoesAlong(db, u, found, c)) ||
                  (exists c :: c in db.codes && db.codes[c].request == Some(r) && !GoesAlong(db, u, found, c)))
    ensures forall r :: r in db'.requests ==> db'.requests[r] == db.requests[r]
  {
    forall r | r in db.requests
      ensures r in OwnedRequests(db, u, found) <==>
                exists c :: c in db.codes && db.codes[c].request == Some(r) && GoesAlong(db, u, found, c)
    {
      RequestGoesAlong(db, u, found, r);
    }
  }

  lemma {:induction false} RequestGoesAlong(db: Db, u: Id, found: Option<Identity>, r: Id)
    requires r in db.requests
    ensures r in OwnedRequests(db, u, found) <==>
              exists c :: c in db.codes && db.codes[c].request == Some(r) && GoesAlong(db, u, found, c)
  {
    if c :| c in db.codes && db.codes[c].request == Some(r) && GoesAlong(db, u, found, c) {
      assert c in OwnedCodes(db, u, found) && IdentityOf(db, c).Some?;
    }
  }

  /** An erasure is refused exactly when the account is no guest that expired by the cutoff, documents
      defer it, or two of its codes were requested under different emails. */
  lemma {:induction false} RefusedIff(db: Db, u: Id, cutoff: int, found: Option<Identity>, deferred: bool)
    requires FoundTrial(db, u, found)
    ensures EraseRefusal(db, u, cutoff, found, deferred).Some? <==>
              || !(u in db.users && db.users[u].Guest? && db.users[u].expires.Some? &&
                   db.users[u].expires.value <= cutoff)
              || deferred
              || exists c, d :: c in db.codes && d in db.codes && GoesAlong(db, u, found, c) &&
                   GoesAlong(db, u, found, d) && IdentityOf(db, c).Some? && IdentityOf(db, d).Some? &&
                   IdentityOf(db, c) != IdentityOf(db, d)
  {
    var owned := OwnedIdentities(db, u, found);
    if c, d :| c in db.codes && d in db.codes && GoesAlong(db, u, found, c) && GoesAlong(db, u, found, d) &&
               IdentityOf(db, c).Some? && IdentityOf(db, d).Some? && IdentityOf(db, c) != IdentityOf(db, d) {
      assert c in OwnedCodes(db, u, found) && d in OwnedCodes(db, u, found);
      if |owned| <= 1 {
        AtMostOne(owned, IdentityOf(db, c).value, IdentityOf(db, d).value);
      }
    }
    if |owned| > 1 {
      TwoMembers(db, u, found);
    }
  }

  lemma {:induction false} TwoMembers(db: Db, u: Id, found: Option<Identity>)
    requires |OwnedIdentities(db, u, found)| > 1
    ensures exists c, d :: c in db.codes && d in db.codes && GoesAlong(db, u, found, c) &&
              GoesAlong(db, u, found, d) && IdentityOf(db, c).Some? && IdentityOf(db, d).Some? &&
              IdentityOf(db, c) != IdentityOf(db, d)
  {
    var owned := OwnedIdentities(db, u, found);
    var a: Identity :| a in owned;
    assert |owned - {a}| == |owned| - 1;
    assert owned - {a} != {};
    var b: Identity :| b in owned - {a};
    var c :| c in OwnedCodes(db, u, found) && IdentityOf(db, c) == Some(a);
    var d :| d in OwnedCodes(db, u, found) && IdentityOf(db, d) == Some(b);
  }

  /** Whatever is erased, every identity stays exactly as used as it was, in the same generation. */
  lemma {:induction false} ErasureKeepsTrialsUsed(db: Db, u: Id, found: Option<Identity>, identity: Option<Identity>,
                                                  db': Db, i: Identity)
    requires Erased(db, u, found, identity, db')
    ensures i in db'.trials <==> i in db.trials
    ensures i in db.trials ==> db'.trials[i].redeemedAt == db.trials[i].redeemedAt &&
                               db'.trials[i].generation == db.trials[i].generation
  {
  }
}
