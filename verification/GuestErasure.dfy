/** Erasing one expired guest: the identity tables' part of the transaction, and what it leaves. */
module GuestErasure {
  import opened Basics
  import opened GuestTables

  predicate Expired(db: Db, u: Id, cutoff: int) {
    u in db.users && db.users[u].Guest? && db.users[u].expires.Some? && db.users[u].expires.value <= cutoff
  }

  /** The trial row the account is found under: any one that names it, or none when none does. */
  predicate FoundTrial(db: Db, u: Id, found: Option<Identity>) {
    if found.Some? then found.value in db.trials && db.trials[found.value].guest == Some(u)
    else forall i :: i in db.trials ==> db.trials[i].guest != Some(u)
  }

  /** Codes that admitted the account, and unused codes of its trial's current generation. */
  predicate Owned(db: Db, u: Id, found: Option<Identity>, c: Id) {
    && c in db.codes
    && (db.codes[c].guest == Some(u) ||
        (found.Some? && found.value in db.trials && db.codes[c].identity == found &&
         db.codes[c].generation == db.trials[found.value].generation && db.codes[c].guest.None?))
  }

  function OwnedCodes(db: Db, u: Id, found: Option<Identity>): set<Id> {
    set c | c in db.codes && Owned(db, u, found, c)
  }

  function OwnedRequests(db: Db, u: Id, found: Option<Identity>): set<Id> {
    set c | c in OwnedCodes(db, u, found) && IdentityOf(db, c).Some? :: db.codes[c].request.value
  }

  function OwnedIdentities(db: Db, u: Id, found: Option<Identity>): set<Identity> {
    set c | c in OwnedCodes(db, u, found) && IdentityOf(db, c).Some? :: IdentityOf(db, c).value
  }

  function EraseRefusal(db: Db, u: Id, cutoff: int, found: Option<Identity>, deferred: bool): Option<Refusal> {
    if !Expired(db, u, cutoff) then Some(NotEligible)
    else if deferred then Some(Deferred)
    else if |OwnedIdentities(db, u, found)| > 1 then Some(MixedIdentities)
    else None
  }

  /** The rows that go: a request only goes when no remaining code refers to it. */
  predicate Orphaned(db: Db, u: Id, found: Option<Identity>, r: Id) {
    && r in OwnedRequests(db, u, found)
    && forall c :: c in db.codes && db.codes[c].request == Some(r) ==> Owned(db, u, found, c)
  }

  function CodesLeft(db: Db, u: Id, found: Option<Identity>): map<Id, Code> {
    map c | c in db.codes && !Owned(db, u, found, c) :: db.codes[c]
  }

  function RequestsLeft(db: Db, u: Id, found: Option<Identity>): map<Id, Request> {
    map r | r in db.requests && !Orphaned(db, u, found, r) :: db.requests[r]
  }

  /** What the audit row records of the email: its identity, when any request still told it. */
  ghost predicate Recorded(identities: set<Identity>, identity: Option<Identity>) {
    if identities == {} then identity.None? else identity.Some? && identity.value in identities
  }

  function EraseTx(db: Db, u: Id, found: Option<Identity>, identity: Option<Identity>): Db
    requires u in db.users && db.users[u].Guest? && db.users[u].expires.Some?
    requires found.Some? ==> found.value in db.trials
  {
    var user := db.users[u];
    db.(sessions := map s | s in db.sessions && db.sessions[s].user != u :: db.sessions[s],
        codes := CodesLeft(db, u, found), requests := RequestsLeft(db, u, found),
        audits := db.audits[u := Audit(identity, user.created, user.expires.value, db.now)],
        trials := if found.Some? then db.trials[found.value := db.trials[found.value].(guest := None)] else db.trials,
        users := db.users - {u})
  }

  /** A committed erasure, with what its audit row recorded. */
  ghost predicate Erased(db: Db, u: Id, found: Option<Identity>, identity: Option<Identity>, db': Db) {
    && u in db.users && db.users[u].Guest? && db.users[u].expires.Some?
    && FoundTrial(db, u, found) && |OwnedIdentities(db, u, found)| <= 1
    && Recorded(OwnedIdentities(db, u, found), identity) && db' == EraseTx(db, u, found, identity)
  }
}
