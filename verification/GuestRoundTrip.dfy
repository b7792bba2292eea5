/** From an issued code to the session it opens. */
module GuestRoundTrip {
  import opened Basics
  import opened GuestTables
  import opened GuestProtocol
  import opened GuestSteps
  import opened GuestFrames
  import opened GuestTheorems

  /** A redemption succeeds exactly when the code is labelled, unspent, unexpired and of its trial's
      generation, its request names the same email and is not rejected, and the email's trial is unused
      or its account still live, with nobody registered. */
  lemma {:induction false} RedeemedIff(db: Db, c: Id)
    ensures RedeemUser(db, c).Ok? <==>
              && c in db.codes && db.codes[c].identity.Some? && db.codes[c].request.Some?
              && db.codes[c].consumed.None? && db.now < db.codes[c].expires
              && var i, row := db.codes[c].identity.value, db.codes[c].request.value;
                 && db.codes[c].generation == (if i in db.trials then db.trials[i].generation else 0)
                 && row in db.requests && db.requests[row].email.identity == i && db.requests[row].rejected.None?
                 && !HasRegistered(db.users, i)
                 && (i in db.trials && db.trials[i].redeemedAt.Some? ==>
                       HasLive(db.users, db.now, db.trials[i].guest))
  {
  }

  /** The request a code was issued on is the identity's own and not rejected. */
  lemma {:induction false} IssuedOnOwnRequest(db: Db, i: Identity, named: Option<Id>, row: Id)
    requires IdsFresh(db) && NamedIsUsable(db, i, named) && PickedRow(db, i, named, row)
    ensures row in db.requests || row == db.nextId
    ensures row in db.requests ==> db.requests[row].email.identity == i && db.requests[row].rejected.None?
  {
    if named.None? {
      PickedIsOpen(db, i, row);
    }
  }

  /** The account that could be issued a code can still sign in while the code lasts. */
  lemma {:induction false} StillEligible(db: Db, i: Identity, ttl: int, trial: Trial, now: int)
    requires EligibleUser(db.users, db.now, Locked(db, i).trials[i], i).Ok?
    requires trial.redeemedAt == TrialOf(db, i).redeemedAt && trial.guest == TrialOf(db, i).guest
    requires now < CodeExpiry(db, i, ttl)
    ensures EligibleUser(db.users, now, trial, i).Ok?
  {
  }

  /** The code of a committed issue, as a later redemption finds it. */
  lemma {:induction false} IssuedCode(db: Db, i: Identity, named: Option<Id>, row: Id, ttl: int, cooldown: nat,
                                      issued: Db)
    requires IdsFresh(db) && CanIssue(db, i, named, row, cooldown, true) && issued == IssueTx(db, i, row, ttl)
    ensures issued.nextId > 0 && issued.users == db.users && issued.now == db.now
    ensures i in issued.trials && issued.trials[i].generation == TrialOf(db, i).generation
    ensures issued.trials[i].redeemedAt == TrialOf(db, i).redeemedAt && issued.trials[i].guest == TrialOf(db, i).guest
    ensures row in issued.requests && issued.requests[row].email.identity == i && issued.requests[row].rejected.None?
    ensures issued.nextId - 1 in issued.codes
    ensures issued.codes[issued.nextId - 1] ==
              Code(Some(row), Some(i), TrialOf(db, i).generation, CodeExpiry(db, i, ttl), None, None, db.now)
  {
    IssuedOnOwnRequest(db, i, named, row);
    IssueFrame(db, i, row, ttl, issued);
  }

  /** Such a code can be redeemed exactly until it runs out. */
  lemma {:induction false} FreshCodeRedeems(db: Db, c: Id, i: Identity, row: Id)
    requires c in db.codes && i in db.trials && row in db.requests
    requires db.codes[c].identity == Some(i) && db.codes[c].request == Some(row) && db.codes[c].consumed.None?
    requires db.codes[c].generation == db.trials[i].generation
    requires db.requests[row].email.identity == i && db.requests[row].rejected.None?
    requires db.now < db.codes[c].expires ==> EligibleUser(db.users, db.now, db.trials[i], i).Ok?
    ensures RedeemUser(db, c).Ok? <==> db.now < db.codes[c].expires
  {
  }

  /** An issued code opens the product until it runs out: the code presented `elapsed` seconds later is
      accepted exactly when that is before its end. */
  lemma {:induction false} IssuedCodeWorks(db: Db, i: Identity, named: Option<Id>, row: Id, ttl: int, cooldown: nat,
                                           issued: Db, elapsed: nat, later: Db)
    requires IdsFresh(db) && CanIssue(db, i, named, row, cooldown, true) && issued == IssueTx(db, i, row, ttl)
    requires later == issued.(now := issued.now + elapsed)
    ensures issued.nextId > 0
    ensures RedeemUser(later, issued.nextId - 1).Ok? <==> db.now + elapsed < CodeExpiry(db, i, ttl)
  {
    IssuedCode(db, i, named, row, ttl, cooldown, issued);
    if later.now < CodeExpiry(db, i, ttl) {
      StillEligible(db, i, ttl, issued.trials[i], later.now);
    }
    FreshCodeRedeems(later, issued.nextId - 1, i, row);
  }
}
