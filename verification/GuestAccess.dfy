/** The guest access service: its transactions step by step on the tables, each proved to commit
    exactly what the protocol says or to leave everything as it was. */
module GuestAccess {
  import opened Basics
  import opened GuestTables
  import opened GuestErasure
  import opened GuestProtocol

  datatype Principal = Principal(user: Id, session: Id, isGuest: bool)

  datatype IssuedCode = IssuedCode(code: Id, row: Id, expires: int)

  /** The next id is new to the request table. */
  predicate RequestIdsFresh(db: Db) {
    forall r :: r in db.requests ==> r < db.nextId
  }

  class GuestAccessService {
    var now: int
    var initialized: bool
    var users: map<Id, User>
    var trials: map<Identity, Trial>
    var codes: map<Id, Code>
    var requests: map<Id, Request>
    var sessions: map<Id, Session>
    var audits: map<Id, Audit>
    var nextId: Id

    function Tables(): Db
      reads this
    {
      Db(now, initialized, users, trials, codes, requests, sessions, audits, nextId)
    }

    /** All tables at once: how a rollback puts them back. */
    method PutTables(saved: Db)
      modifies this
      ensures Tables() == saved
    {
      now, initialized, users, trials, codes := saved.now, saved.initialized, saved.users, saved.trials, saved.codes;
      requests, sessions, audits, nextId := saved.requests, saved.sessions, saved.audits, saved.nextId;
    }

    method LockTrial(i: Identity) returns (trial: Trial)
      modifies this`trials
      ensures Tables() == Locked(old(Tables()), i) && i in trials && trial == trials[i]
    {
      if i !in trials {
        trials := trials[i := NEW_TRIAL];
      }
      trial := trials[i];
    }

    /** The newest of the reusable requests, by creation time and then id. */
    method Newest(i: Identity) returns (newest: Option<Id>)
      ensures newest.Some? ==> NewestRequest(Tables(), i, newest.value)
      ensures newest.None? ==> forall r :: r in requests ==> !Reusable(Tables(), i, r)
    {
      newest := None;
      var rest := requests.Keys;
      while rest != {}
        invariant rest <= requests.Keys
        invariant newest.None? ==> forall q :: q in requests && q !in rest ==> !Reusable(Tables(), i, q)
        invariant newest.Some? ==> Reusable(Tables(), i, newest.value)
        invariant newest.Some? ==> forall q :: q in requests && q !in rest && Reusable(Tables(), i, q) ==>
                    NotAfter(requests[q].created, q, requests[newest.value].created, newest.value)
        decreases rest
      {
        var r :| r in rest;
        rest := rest - {r};
        if Reusable(Tables(), i, r) &&
           (newest.None? || NotAfter(requests[newest.value].created, newest.value, requests[r].created, r)) {
          newest := Some(r);
        }
      }
    }

    method RequestRow(i: Identity, named: Option<Id>) returns (r: Result<Id>)
      requires RequestIdsFresh(Tables())
      modifies this`requests, this`nextId
      ensures r.Ok? <==> NamedIsUsable(old(Tables()), i, named)
      ensures r.Ok? ==> PickedRow(old(Tables()), i, named, r.value) && Tables() == WithRow(old(Tables()), i, r.value)
      ensures r.Ok? ==> r.value in requests
      ensures r.Err? ==> r.error == NoRequest && Tables() == old(Tables())
    {
      if named.Some? {
        if named.value !in requests || requests[named.value].email.identity != i ||
           requests[named.value].rejected.Some? {
          return Err(NoRequest);
        }
        return Ok(named.value);
      }
      var newest := Newest(i);
      if newest.Some? {
        return Ok(newest.value);
      }
      var row := nextId;
      requests := requests[row := Request(Normalised(i), Pending, now, None, None, None)];
      nextId := nextId + 1;
      return Ok(row);
    }

    /** Recording a request for access. */
    method Ask(email: Email) returns (r: Result<Id>)
      requires RequestIdsFresh(Tables()) && initialized
      modifies this
      ensures r.Ok? ==> CanAsk(old(Tables()), email.identity, r.value)
      ensures r.Ok? ==> Tables() == AskTx(old(Tables()), email.identity, r.value)
      ensures r.Err? ==> Tables() == old(Tables())
      ensures r.Err? ==> forall row :: !CanAsk(old(Tables()), email.identity, row)
    {
      var saved := Tables();
      var trial := LockTrial(email.identity);
      var user := EligibleUser(users, now, trial, email.identity);
      if user.Err? {
        PutTables(saved);
        r := Err(user.error);
      } else {
        r := RequestRow(email.identity, None);
      }
    }

    /** Older codes stop working, the new one is stored, and request and trial are stamped. */
    method WriteCode(i: Identity, row: Id, expires: int) returns (code: Id)
      requires i in trials && row in requests
      modifies this`codes, this`requests, this`trials, this`nextId
      ensures Tables() == IssueOn(old(Tables()), i, row, expires) && code == old(nextId)
    {
      codes := Closed(codes, i, now);
      code := nextId;
      codes := codes[code := Code(Some(row), Some(i), trials[i].generation, expires, None, None, now)];
      nextId := nextId + 1;
      var request := requests[row];
      request := request.(status := Issued);
      request := request.(approved := if request.approved.Some? then request.approved else Some(now));
      request := request.(sent := Some(now));
      requests := requests[row := request];
      trials := trials[i := trials[i].(lastSent := Some(now))];
    }

    /** The guarded part of an issue. What a refusal leaves half done, the caller rolls back. */
    method TryIssue(i: Identity, named: Option<Id>, ttl: int, cooldown: nat, budget: bool)
      returns (r: Result<IssuedCode>)
      requires RequestIdsFresh(Tables()) && initialized
      modifies this
      ensures r.Err? <==> IssueRefusal(old(Tables()), i, named, cooldown, budget).Some?
      ensures r.Err? ==> r.error == IssueRefusal(old(Tables()), i, named, cooldown, budget).value
      ensures r.Ok? ==>
                && PickedRow(old(Tables()), i, named, r.value.row)
                && Tables() == IssueTx(old(Tables()), i, r.value.row, ttl)
                && r.value.code in codes && codes[r.value.code].expires == r.value.expires
                && (ttl > 0 ==> Open(Tables(), r.value.code, i))
    {
      var trial := LockTrial(i);
      var user := EligibleUser(users, now, trial, i);
      if user.Err? {
        return Err(user.error);
      }
      if trial.lastSent.Some? && now < trial.lastSent.value + cooldown {
        return Err(Cooldown);
      }
      if !budget {
        return Err(DailyLimit);
      }
      var row := RequestRow(i, named);
      if row.Err? {
        return Err(row.error);
      }
      var expires := now + ttl;
      if user.value.Some? {
        expires := Min(expires, users[user.value.value].expires.value);
      }
      assert expires == CodeExpiry(old(Tables()), i, ttl);
      assert Tables() == WithRow(Locked(old(Tables()), i), i, row.value);
      var code := WriteCode(i, row.value, expires);
      r := Ok(IssuedCode(code, row.value, expires));
    }

    /** Issuing a code; the mail goes out before the commit, so a failed delivery undoes everything. */
    method Issue(email: Option<Email>, named: Option<Id>, ttl: int, cooldown: nat, budget: bool, delivered: bool)
      returns (r: Result<IssuedCode>)
      requires RequestIdsFresh(Tables()) && initialized
      modifies this
      ensures r.Ok? <==>
                && email.Some? && delivered
                && IssueRefusal(old(Tables()), email.value.identity, named, cooldown, budget).None?
      ensures r.Ok? ==>
                && CanIssue(old(Tables()), email.value.identity, named, r.value.row, cooldown, budget)
                && Tables() == IssueTx(old(Tables()), email.value.identity, r.value.row, ttl)
                && r.value.code in codes && codes[r.value.code].expires == r.value.expires
                && (ttl > 0 ==> Open(Tables(), r.value.code, email.value.identity))
      ensures r.Err? ==> Tables() == old(Tables())
    {
      if email.None? {
        return Err(NotEligible);
      }
      var saved := Tables();
      r := TryIssue(email.value.identity, named, ttl, cooldown, budget);
      if r.Ok? && !delivered {
        r := Err(NotSent);
      }
      if r.Err? {
        PutTables(saved);
      }
    }

    /** Everything that can refuse a redemption, with the identity's lock taken. */
    method CheckCode(c: Id) returns (r: Result<Option<Id>>)
      modifies this`trials
      ensures r == RedeemUser(old(Tables()), c)
      ensures r.Ok? ==>
                && c in codes && codes[c].identity.Some? && codes[c].identity.value in trials
                && codes[c].request.Some? && codes[c].request.value in requests
                && Tables() == Locked(old(Tables()), codes[c].identity.value)
                && (r.value.Some? ==> r.value.value in users && Live(users[r.value.value], now))
    {
      if c !in codes || codes[c].identity.None? || codes[c].request.None? {
        return Err(BadCode);
      }
      var stored, i := codes[c], codes[c].identity.value;
      var trial := LockTrial(i);
      if stored.consumed.Some? || stored.expires <= now || stored.generation != trial.generation {
        return Err(BadCode);
      }
      var row := stored.request.value;
      if row !in requests || requests[row].rejected.Some? || requests[row].email.identity != i {
        return Err(BadCode);
      }
      r := EligibleUser(users, now, trial, i);
      if r.Err? {
        r := Err(BadCode);
      }
    }

    /** Spending a code that passed every check. */
    method Spend(c: Id, user: Option<Id>, ttl: int) returns (g: Grant)
      requires c in codes && codes[c].identity.Some? && codes[c].identity.value in trials
      requires codes[c].request.Some? && codes[c].request.value in requests
      requires user.Some? ==> user.value in users && Live(users[user.value], now)
      modifies this
      ensures var db, i := old(Tables()), old(codes)[c].identity.value;
              var (admitted, u) := Admitted(db, i, user, ttl);
              && u in admitted.users && admitted.users[u].Guest? && admitted.users[u].expires.Some?
              && Tables() == SessionOn(admitted, c, u, admitted.users[u].expires.value)
              && g == Grant(i, db.codes[c].generation, c, u, admitted.nextId, now, ttl,
                            admitted.users[u].expires.value, user.None?)
    {
      var i, generation := codes[c].identity.value, codes[c].generation;
      ghost var before := codes;
      codes := codes[c := codes[c].(consumed := Some(now))];
      var u := SignedIn(i, user, ttl);
      ghost var admitted := Tables().(codes := before);
      assert (admitted, u) == Admitted(old(Tables()), i, user, ttl);
      var expires := users[u].expires.value;
      var session := WriteSession(c, u, expires);
      assert Tables() == SessionOn(admitted, c, u, expires);
      g := Grant(i, generation, c, u, session, now, ttl, expires, user.None?);
    }

    /** The guarded part of a redemption; what a refusal leaves half done, the caller rolls back. */
    method TryRedeem(c: Id, ttl: int) returns (r: Result<Grant>)
      modifies this
      ensures r.Ok? <==> RedeemUser(old(Tables()), c).Ok?
      ensures r.Ok? ==> r.value == GrantOf(old(Tables()), c, ttl) && Tables() == RedeemTx(old(Tables()), c, ttl)
    {
      var user := CheckCode(c);
      if user.Err? {
        return Err(user.error);
      }
      ghost var i := codes[c].identity.value;
      assert Admitted(Tables(), i, user.value, ttl) == Admitted(old(Tables()), i, user.value, ttl);
      var g := Spend(c, user.value, ttl);
      r := Ok(g);
    }

    method WriteSession(c: Id, u: Id, expires: int) returns (session: Id)
      requires c in codes && codes[c].consumed == Some(now)
      requires codes[c].request.Some? && codes[c].request.value in requests
      modifies this`sessions, this`codes, this`requests, this`nextId
      ensures session == old(nextId) && Tables() == SessionOn(old(Tables()), c, u, expires)
    {
      session := nextId;
      sessions := sessions[session := Session(u, Some(expires), None)];
      nextId := nextId + 1;
      codes := codes[c := codes[c].(guest := Some(u))];
      var row := codes[c].request.value;
      requests := requests[row := requests[row].(status := Consumed)];
    }

    /** The account to sign in: the trial's own, or a new one that the trial then belongs to. */
    method SignedIn(i: Identity, user: Option<Id>, ttl: int) returns (u: Id)
      requires i in trials && (user.Some? ==> user.value in users && Live(users[user.value], now))
      modifies this`users, this`trials, this`nextId
      ensures user.Some? ==> u == user.value && users == old(users) && trials == old(trials) && nextId == old(nextId)
      ensures user.None? ==>
                && u == old(nextId) && nextId == u + 1 && users == old(users)[u := Guest(Some(now + ttl), now)]
                && trials == old(trials)[i := old(trials)[i].(guest := Some(u), redeemedAt := Some(now))]
      ensures u in users && users[u].Guest? && users[u].expires.Some?
    {
      if user.Some? {
        u := user.value;
      } else {
        u := nextId;
        users := users[u := Guest(Some(now + ttl), now)];
        nextId := nextId + 1;
        trials := trials[i := trials[i].(guest := Some(u), redeemedAt := Some(now))];
      }
    }

    /** Redeeming a code: the trial's account is created or signed in again, or nothing changes. */
    method Redeem(c: Id, ttl: int) returns (r: Result<Grant>)
      modifies this
      ensures r.Ok? <==> RedeemUser(old(Tables()), c).Ok?
      ensures r.Ok? ==> r.value == GrantOf(old(Tables()), c, ttl) && Tables() == RedeemTx(old(Tables()), c, ttl)
      ensures r.Err? ==> Tables() == old(Tables())
    {
      var saved := Tables();
      r := TryRedeem(c, ttl);
      if r.Err? {
        PutTables(saved);
      }
    }

    /** The operator's reset of an email. */
    method Reset(email: Email)
      modifies this
      ensures Tables() == ResetTx(old(Tables()), email.identity)
    {
      var i := email.identity;
      var trial := LockTrial(i);
      if trial.guest.Some? {
        var u := trial.guest.value;
        if u in users && Live(users[u], now) {
          users := users[u := users[u].(expires := Some(now))];
        }
        sessions := Ended(sessions, u, now, true);
      }
      codes := Closed(codes, i, now);
      trials := trials[i := Trial(None, None, trial.generation + 1, None)];
    }

    /** Registering an account; `guests` is whether guest access is switched on. */
    method Signup(email: Email, guests: bool) returns (r: Result<Id>)
      modifies this
      ensures r.Ok? <==> !HasRegistered(old(users), email.identity)
      ensures r.Ok? ==> Tables() == SignupTx(old(Tables()), email.identity, guests)
      ensures r.Ok? ==> HasRegistered(users, email.identity)
      ensures r.Err? ==> Tables() == old(Tables())
    {
      var saved := Tables();
      var i := email.identity;
      if guests {
        var trial := LockTrial(i);
      }
      if exists u :: u in users && users[u] == Registered(Normalised(i)) {
        PutTables(saved);
        return Err(Duplicate);
      }
      var u := nextId;
      users := users[u := Registered(Normalised(i))];
      nextId := nextId + 1;
      assert users[u] == Registered(Normalised(i));
      r := Ok(u);
    }

    /** Whether the account is the one its email's trial belongs to. */
    method CheckOwner(u: Id) returns (i: Option<Identity>)
      ensures i.Some? ==> OwnsTrial(Tables(), u, i.value)
      ensures i.None? ==> forall j :: !OwnsTrial(Tables(), u, j)
    {
      var db := Tables();
      var emails :=
        set c | c in codes && codes[c].guest == Some(u) && IdentityOf(db, c).Some? :: IdentityOf(db, c).value;
      assert forall j: Identity :: Linked(db, u, j) <==> j in emails by {
        EmailsAreLinks(db, u, emails);
      }
      if |emails| != 1 {
        OneEmail(db, u, emails);
        return None;
      }
      var email :| email in emails;
      OnlyElement(emails, email);
      if email !in trials || trials[email].guest != Some(u) || trials[email].redeemedAt.None? {
        return None;
      }
      var user := EligibleUser(users, now, trials[email], email);
      if user.Err? {
        return None;
      }
      i := Some(email);
    }

    /** The principal behind a session. A guest must also own a trial and still be entitled to it. */
    method AuthenticateSession(s: Id) returns (r: Option<Principal>)
      ensures r.Some? ==>
                && s in sessions && sessions[s].user in users
                && r.value == Principal(sessions[s].user, s, users[sessions[s].user].Guest?)
      ensures r.Some? && r.value.isGuest <==> exists u, i :: Admits(Tables(), s, u, i)
      ensures r.Some? && !r.value.isGuest <==>
                && s in sessions && sessions[s].revoked.None?
                && (sessions[s].expires.None? || sessions[s].expires.value > now)
                && sessions[s].user in users && users[sessions[s].user].Registered?
    {
      if s !in sessions || sessions[s].revoked.Some? ||
         (sessions[s].expires.Some? && sessions[s].expires.value <= now) {
        return None;
      }
      var u := sessions[s].user;
      if u !in users {
        return None;
      }
      if users[u].Guest? {
        var owner := CheckOwner(u);
        if owner.None? || !Live(users[u], now) {
          return None;
        }
        assert Admits(Tables(), s, u, owner.value);
      }
      r := Some(Principal(u, s, users[u].Guest?));
    }

    /** The owned codes go, then those of their requests that nothing refers to any more. */
    method RemoveCodes(u: Id, found: Option<Identity>)
      modifies this`codes, this`requests
      ensures codes == CodesLeft(old(Tables()), u, found) && requests == RequestsLeft(old(Tables()), u, found)
    {
      var db := Tables();
      var owned, rows := OwnedCodes(db, u, found), OwnedRequests(db, u, found);
      codes := map c | c in codes && c !in owned :: codes[c];
      assert codes == CodesLeft(db, u, found);
      requests := Referenced(requests, rows, codes);
      OrphansGo(db, u, found, codes);
    }

    /** The deletes and updates of an erasure. */
    method RemoveRows(u: Id, found: Option<Identity>, identity: Option<Identity>)
      requires u in users && users[u].Guest? && users[u].expires.Some? && (found.Some? ==> found.value in trials)
      modifies this
      ensures Tables() == EraseTx(old(Tables()), u, found, identity)
    {
      RemoveCodes(u, found);
      sessions := map s | s in sessions && sessions[s].user != u :: sessions[s];
      audits := audits[u := Audit(identity, users[u].created, users[u].expires.value, now)];
      if found.Some? {
        trials := trials[found.value := trials[found.value].(guest := None)];
      }
      users := users - {u};
    }

    /** Erasing one expired guest, or reporting why not. */
    method Erase(u: Id, cutoff: int, deferred: bool) returns (r: Result<Option<Identity>>, found: Option<Identity>)
      modifies this
      ensures FoundTrial(old(Tables()), u, found)
      ensures r.Ok? ==> Erased(old(Tables()), u, found, r.value, Tables())
      ensures r.Ok? ==> old(Expired(Tables(), u, cutoff)) && !deferred
      ensures r.Err? ==> Tables() == old(Tables())
      ensures r.Err? ==> EraseRefusal(old(Tables()), u, cutoff, found, deferred) == Some(r.error)
    {
      var db := Tables();
      found := None;
      if i :| i in trials && trials[i].guest == Some(u) {
        found := Some(i);
      }
      if !Expired(db, u, cutoff) {
        return Err(NotEligible), found;
      }
      if deferred {
        return Err(Deferred), found;
      }
      var emails := OwnedIdentities(db, u, found);
      if |emails| > 1 {
        return Err(MixedIdentities), found;
      }
      var identity: Option<Identity> := None;
      if e :| e in emails {
        identity := Some(e);
      }
      RemoveRows(u, found, identity);
      r := Ok(identity);
    }
  }

  lemma {:induction false} EmailsAreLinks(db: Db, u: Id, emails: set<Identity>)
    requires emails ==
             set c | c in db.codes && db.codes[c].guest == Some(u) && IdentityOf(db, c).Some? :: IdentityOf(db, c).value
    ensures forall j: Identity :: Linked(db, u, j) <==> j in emails
  {
    forall j: Identity | Linked(db, u, j)
      ensures j in emails
    {
      var c :| Links(db, c, u, j);
    }
    forall j: Identity | j in emails
      ensures Linked(db, u, j)
    {
      var c :| c in db.codes && db.codes[c].guest == Some(u) && IdentityOf(db, c) == Some(j);
      assert Links(db, c, u, j);
    }
  }

  lemma {:induction false} OnlyElement(s: set<Identity>, a: Identity)
    requires |s| == 1 && a in s
    ensures forall b :: b in s ==> b == a
  {
    assert |s - {a}| == 0;
    assert forall b :: b in s ==> b == a || b in s - {a};
  }

  /** The requests outside `rows`, and those in it that some code still refers to. */
  function Referenced(requests: map<Id, Request>, rows: set<Id>, codes: map<Id, Code>): map<Id, Request> {
    map r | r in requests && (r !in rows || exists c :: c in codes && codes[c].request == Some(r)) :: requests[r]
  }

  lemma {:induction false} OrphanIff(db: Db, u: Id, found: Option<Identity>, left: map<Id, Code>, r: Id)
    requires left == CodesLeft(db, u, found)
    ensures Orphaned(db, u, found, r) <==>
              r in OwnedRequests(db, u, found) && !exists c :: c in left && left[c].request == Some(r)
  {
    if c :| c in left && left[c].request == Some(r) {
      assert c in db.codes && !Owned(db, u, found, c);
    } else {
      assert forall c :: c in db.codes && db.codes[c].request == Some(r) && c !in left ==> Owned(db, u, found, c);
    }
  }

  /** Once the owned codes are gone, the orphaned requests are those no code refers to. */
  lemma {:induction false} OrphansGo(db: Db, u: Id, found: Option<Identity>, left: map<Id, Code>)
    requires left == CodesLeft(db, u, found)
    ensures Referenced(db.requests, OwnedRequests(db, u, found), left) == RequestsLeft(db, u, found)
  {
    forall r | r in db.requests
      ensures Orphaned(db, u, found, r) <==>
              r in OwnedRequests(db, u, found) && !exists c :: c in left && left[c].request == Some(r)
    {
      OrphanIff(db, u, found, left, r);
    }
  }

  /** An account linked to no email, or to several, owns no trial. */
  lemma {:induction false} OneEmail(db: Db, u: Id, emails: set<Identity>)
    requires |emails| != 1 && forall j: Identity :: Linked(db, u, j) <==> j in emails
    ensures forall j :: !OwnsTrial(db, u, j)
  {
    forall j: Identity
      ensures !OwnsTrial(db, u, j)
    {
      assert OwnsTrial(db, u, j) ==> emails == {j};
    }
  }
}
