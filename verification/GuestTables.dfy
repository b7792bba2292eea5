/** The guest-access tables and what each committed transaction does to them, as functions.
    An email identity stands for both the normalised address and its keyed fingerprint; ids stand
    for UUIDs and are handed out by a counter; a presented secret is the id of the code it opens. */
module GuestTables {
  import opened Basics

  type Identity = nat
  type Id = nat

  /** An address as some row spells it; spelling 0 is the normalised text of its identity. */
  datatype Email = Email(identity: Identity, spelling: nat)

  function Normalised(i: Identity): Email {
    Email(i, 0)
  }

  datatype User =
    | Registered(email: Email)
    | Guest(expires: Option<int>, created: int)

  datatype Trial = Trial(guest: Option<Id>, redeemedAt: Option<int>, generation: nat, lastSent: Option<int>)

  /** `identity` is the stored fingerprint: absent on codes written before the policy existed. */
  datatype Code = Code(request: Option<Id>, identity: Option<Identity>, generation: nat, expires: int,
                       consumed: Option<int>, guest: Option<Id>, created: int)

  datatype Status = Pending | Issued | Consumed

  datatype Request = Request(email: Email, status: Status, created: int, approved: Option<int>,
                             sent: Option<int>, rejected: Option<int>)

  datatype Session = Session(user: Id, expires: Option<int>, revoked: Option<int>)

  datatype Audit = Audit(identity: Option<Identity>, created: int, expired: int, deleted: int)

  datatype Db = Db(now: int, initialized: bool, users: map<Id, User>, trials: map<Identity, Trial>,
                   codes: map<Id, Code>, requests: map<Id, Request>, sessions: map<Id, Session>,
                   audits: map<Id, Audit>, nextId: Id)

  datatype Refusal = RegisteredExists | TrialUsed | Cooldown | DailyLimit | NoRequest | NotSent | BadCode |
                     Duplicate | NotEligible | Deferred | MixedIdentities

  datatype Result<+T> = Ok(value: T) | Err(error: Refusal)

  const NEW_TRIAL := Trial(None, None, 0, None)

  // ---- reading ----

  predicate Live(u: User, now: int) {
    u.Guest? && u.expires.Some? && u.expires.value > now
  }

  predicate HasRegistered(users: map<Id, User>, i: Identity) {
    exists u :: u in users && users[u] == Registered(Normalised(i))
  }

  predicate HasLive(users: map<Id, User>, now: int, guest: Option<Id>) {
    guest.Some? && guest.value in users && Live(users[guest.value], now)
  }

  /** Who may use the identity's trial: nobody yet, the one guest it already has, or an error. */
  function EligibleUser(users: map<Id, User>, now: int, trial: Trial, i: Identity): (r: Result<Option<Id>>)
    ensures r.Ok? ==> !HasRegistered(users, i) && (r.value.Some? <==> trial.redeemedAt.Some?)
    ensures r.Err? ==> HasRegistered(users, i) || (trial.redeemedAt.Some? && !HasLive(users, now, trial.guest))
    ensures r.Ok? && r.value.Some? ==> r.value == trial.guest && HasLive(users, now, r.value)
  {
    if HasRegistered(users, i) then Err(RegisteredExists)
    else if trial.redeemedAt.None? then Ok(None)
    else if trial.guest.None? || trial.guest.value !in users || !Live(users[trial.guest.value], now) then
      Err(TrialUsed)
    else Ok(trial.guest)
  }

  /** The identity of the request behind a code, if the code still has one. */
  function IdentityOf(db: Db, c: Id): Option<Identity>
    requires c in db.codes
  {
    var r := db.codes[c].request;
    if r.Some? && r.value in db.requests then Some(db.requests[r.value].email.identity) else None
  }

  /** The guest was admitted through some code requested for the identity. */
  ghost predicate Linked(db: Db, u: Id, i: Identity) {
    exists c :: Links(db, c, u, i)
  }

  predicate Links(db: Db, c: Id, u: Id, i: Identity) {
    c in db.codes && db.codes[c].guest == Some(u) && IdentityOf(db, c) == Some(i)
  }

  /** A code its holder could still use. */
  predicate Open(db: Db, c: Id, i: Identity) {
    c in db.codes && db.codes[c].identity == Some(i) && db.codes[c].consumed.None? && db.codes[c].expires > db.now
  }

  /** The account is the one its single email identity's trial belongs to, and is still entitled. */
  ghost predicate OwnsTrial(db: Db, u: Id, i: Identity) {
    && Linked(db, u, i)
    && (forall j :: Linked(db, u, j) ==> j == i)
    && i in db.trials && db.trials[i].guest == Some(u) && db.trials[i].redeemedAt.Some?
    && EligibleUser(db.users, db.now, db.trials[i], i).Ok?
  }

  /** The session lets guest `u` of identity `i` in at this moment. */
  ghost predicate Admits(db: Db, s: Id, u: Id, i: Identity) {
    && s in db.sessions && db.sessions[s].user == u && db.sessions[s].revoked.None?
    && (db.sessions[s].expires.None? || db.sessions[s].expires.value > db.now)
    && u in db.users && Live(db.users[u], db.now)
    && OwnsTrial(db, u, i)
  }

  // ---- pieces of transactions ----

  /** Taking the identity's lock creates its row when there is none. */
  function Locked(db: Db, i: Identity): Db {
    if i in db.trials then db else db.(trials := db.trials[i := NEW_TRIAL])
  }

  /** Every unconsumed code of the identity stops working now. */
  function Closed(codes: map<Id, Code>, i: Identity, now: int): map<Id, Code> {
    map c | c in codes ::
      if codes[c].identity == Some(i) && codes[c].consumed.None? then codes[c].(expires := now) else codes[c]
  }

  /** Sessions of the account end now; `all` also restamps those already ended. */
  function Ended(sessions: map<Id, Session>, u: Id, now: int, all: bool): map<Id, Session> {
    map s | s in sessions ::
      if sessions[s].user == u && (all || sessions[s].revoked.None?) then sessions[s].(revoked := Some(now))
      else sessions[s]
  }

  /** A request that a new code may be hung on without naming it. */
  predicate Reusable(db: Db, i: Identity, r: Id) {
    && r in db.requests && db.requests[r].email == Normalised(i)
    && (db.requests[r].status.Pending? || db.requests[r].status.Issued?) && db.requests[r].rejected.None?
  }

  predicate NotAfter(a: int, x: Id, b: int, y: Id) {
    a < b || (a == b && x <= y)
  }

  predicate NewestRequest(db: Db, i: Identity, r: Id) {
    && Reusable(db, i, r)
    && forall q :: q in db.requests && Reusable(db, i, q) ==>
         NotAfter(db.requests[q].created, q, db.requests[r].created, r)
  }

  /** The row a transaction works on: the named one, else the newest reusable one, else a new one. */
  predicate PickedRow(db: Db, i: Identity, named: Option<Id>, row: Id) {
    if named.Some? then row == named.value
    else if exists r :: r in db.requests && Reusable(db, i, r) then NewestRequest(db, i, row)
    else row == db.nextId
  }

  predicate NamedIsUsable(db: Db, i: Identity, named: Option<Id>) {
    named.Some? ==> named.value in db.requests && db.requests[named.value].email.identity == i &&
                    db.requests[named.value].rejected.None?
  }

  function WithRow(db: Db, i: Identity, row: Id): Db {
    if row in db.requests then db
    else db.(requests := db.requests[row := Request(Normalised(i), Pending, db.now, None, None, None)],
             nextId := row + 1)
  }

  // ---- the transactions: what is checked, and what a success commits ----

  predicate Waiting(trial: Trial, now: int, cooldown: nat) {
    trial.lastSent.Some? && now < trial.lastSent.value + cooldown
  }

  function IssueRefusal(db: Db, i: Identity, named: Option<Id>, cooldown: nat, budget: bool): Option<Refusal> {
    var trial := Locked(db, i).trials[i];
    var user := EligibleUser(db.users, db.now, trial, i);
    if user.Err? then Some(user.error)
    else if Waiting(trial, db.now, cooldown) then Some(Cooldown)
    else if !budget then Some(DailyLimit)
    else if !NamedIsUsable(db, i, named) then Some(NoRequest)
    else None
  }

  function CodeExpiry(db: Db, i: Identity, ttl: int): int {
    var user := EligibleUser(db.users, db.now, Locked(db, i).trials[i], i);
    if user.Ok? && user.value.Some? then Min(db.now + ttl, db.users[user.value.value].expires.value)
    else db.now + ttl
  }

  /** A committed request: the identity's lock is taken and its row is there. */
  function AskTx(db: Db, i: Identity, row: Id): Db {
    WithRow(Locked(db, i), i, row)
  }

  /** A committed issue: older codes of the identity stop working and a new one replaces them. */
  function IssueTx(db: Db, i: Identity, row: Id, ttl: int): Db {
    IssueOn(AskTx(db, i, row), i, row, CodeExpiry(db, i, ttl))
  }

  function IssueOn(db: Db, i: Identity, row: Id, expires: int): Db
    requires i in db.trials && row in db.requests
  {
    var r := db.requests[row];
    var issued := Code(Some(row), Some(i), db.trials[i].generation, expires, None, None, db.now);
    db.(codes := Closed(db.codes, i, db.now)[db.nextId := issued],
        requests := db.requests[row := r.(status := Issued, sent := Some(db.now),
                                          approved := if r.approved.Some? then r.approved else Some(db.now))],
        trials := db.trials[i := db.trials[i].(lastSent := Some(db.now))],
        nextId := db.nextId + 1)
  }

  /** Everything redemption checks about the code before it looks at the account. */
  predicate Redeemable(db: Db, c: Id) {
    && c in db.codes && db.codes[c].identity.Some? && db.codes[c].request.Some?
    && var code, i := db.codes[c], db.codes[c].identity.value;
       && code.consumed.None? && code.expires > db.now
       && code.generation == Locked(db, i).trials[i].generation
       && IdentityOf(db, c) == Some(i) && db.requests[code.request.value].rejected.None?
  }

  function RedeemUser(db: Db, c: Id): Result<Option<Id>> {
    if !Redeemable(db, c) then Err(BadCode)
    else
      var i := db.codes[c].identity.value;
      var user := EligibleUser(db.users, db.now, Locked(db, i).trials[i], i);
      if user.Err? then Err(BadCode) else user
  }

  /** What a redemption handed out. `isNew` when it created the account. */
  datatype Grant = Grant(identity: Identity, generation: nat, code: Id, user: Id, session: Id, at: int,
                         ttl: int, expires: int, isNew: bool)

  /** The account a redemption signs in, with the tables once that account exists. */
  function Admitted(db: Db, i: Identity, user: Option<Id>, ttl: int): (Db, Id) {
    if user.Some? then (Locked(db, i), user.value)
    else
      var l := Locked(db, i);
      var u := l.nextId;
      (l.(users := l.users[u := Guest(Some(db.now + ttl), db.now)],
          trials := l.trials[i := l.trials[i].(guest := Some(u), redeemedAt := Some(db.now))],
          nextId := u + 1), u)
  }

  function GrantOf(db: Db, c: Id, ttl: int): Grant
    requires RedeemUser(db, c).Ok?
  {
    var i := db.codes[c].identity.value;
    var user := RedeemUser(db, c).value;
    var (l, u) := Admitted(db, i, user, ttl);
    Grant(i, db.codes[c].generation, c, u, l.nextId, db.now, ttl, l.users[u].expires.value, user.None?)
  }

  /** The code is spent on the account, its request is done, and a session lasts as long as the account. */
  function SessionOn(db: Db, c: Id, u: Id, expires: int): Db
    requires c in db.codes && db.codes[c].request.Some? && db.codes[c].request.value in db.requests
  {
    var r := db.codes[c].request.value;
    db.(codes := db.codes[c := db.codes[c].(consumed := Some(db.now), guest := Some(u))],
        requests := db.requests[r := db.requests[r].(status := Consumed)],
        sessions := db.sessions[db.nextId := Session(u, Some(expires), None)],
        nextId := db.nextId + 1)
  }

  function RedeemTx(db: Db, c: Id, ttl: int): Db
    requires RedeemUser(db, c).Ok?
  {
    var g := GrantOf(db, c, ttl);
    SessionOn(Admitted(db, g.identity, RedeemUser(db, c).value, ttl).0, c, g.user, g.expires)
  }

  /** The operator's reset: the account and its sessions end, no earlier code works, next generation. */
  function ResetTx(db: Db, i: Identity): Db {
    var trial := Locked(db, i).trials[i];
    var users := if trial.guest.Some? && trial.guest.value in db.users && Live(db.users[trial.guest.value], db.now)
                 then db.users[trial.guest.value := db.users[trial.guest.value].(expires := Some(db.now))]
                 else db.users;
    db.(users := users,
        sessions := if trial.guest.Some? then Ended(db.sessions, trial.guest.value, db.now, true) else db.sessions,
        codes := Closed(db.codes, i, db.now),
        trials := db.trials[i := Trial(None, None, trial.generation + 1, None)])
  }

  /** Registration; with guest access on it first takes the identity's lock. */
  function SignupTx(db: Db, i: Identity, guests: bool): Db {
    var l := if guests then Locked(db, i) else db;
    l.(users := l.users[l.nextId := Registered(Normalised(i))], nextId := l.nextId + 1)
  }
}
