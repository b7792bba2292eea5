/** The one-time reconciliation of tables written before the trial policy existed. */
module GuestBackfill {
  import opened Basics
  import opened GuestTables

  // ---- what the legacy tables say about an identity ----

  function RequestIdentities(db: Db): set<Identity> {
    set r | r in db.requests :: db.requests[r].email.identity
  }

  function AuditIdentities(db: Db): set<Identity> {
    set a | a in db.audits && db.audits[a].identity.Some? :: db.audits[a].identity.value
  }

  predicate CodeOf(db: Db, i: Identity, c: Id) {
    c in db.codes && IdentityOf(db, c) == Some(i)
  }

  ghost predicate GuestOf(db: Db, i: Identity, u: Id) {
    u in db.users && db.users[u].Guest? && Linked(db, u, i)
  }

  ghost predicate ActiveGuest(db: Db, i: Identity, u: Id) {
    GuestOf(db, i, u) && Live(db.users[u], db.now)
  }

  /** The moments that prove the identity has had its trial. */
  ghost function Evidence(db: Db, i: Identity): set<int> {
    (set c | c in db.codes && CodeOf(db, i, c) && db.codes[c].consumed.Some? :: db.codes[c].consumed.value) +
    (set u | u in db.users && GuestOf(db, i, u) :: db.users[u].created) +
    (set r | r in db.requests && db.requests[r].email.identity == i && db.requests[r].status.Consumed? ::
       db.requests[r].created) +
    AuditTimes(db, i)
  }

  function AuditTimes(db: Db, i: Identity): set<int> {
    set a | a in db.audits && db.audits[a].identity == Some(i) :: db.audits[a].created
  }

  function SentTimes(db: Db, i: Identity): set<int> {
    set r | r in db.requests && db.requests[r].email.identity == i && db.requests[r].sent.Some? ::
      db.requests[r].sent.value
  }

  ghost predicate IsLeast(s: set<int>, x: Option<int>) {
    if s == {} then x.None? else x.Some? && x.value in s && forall y :: y in s ==> x.value <= y
  }

  ghost predicate IsGreatest(s: set<int>, x: Option<int>) {
    if s == {} then x.None? else x.Some? && x.value in s && forall y :: y in s ==> y <= x.value
  }

  // ---- what is decided for one identity ----

  ghost predicate FirstActive(db: Db, i: Identity, u: Id) {
    && ActiveGuest(db, i, u)
    && forall v :: ActiveGuest(db, i, v) ==> NotAfter(db.users[u].created, u, db.users[v].created, v)
  }

  /** The account that keeps the trial: the oldest one still active, unless the email is registered. */
  ghost predicate IsKeeper(db: Db, i: Identity, k: Option<Id>) {
    if k.Some? then !HasRegistered(db.users, i) && FirstActive(db, i, k.value)
    else HasRegistered(db.users, i) || forall u :: !ActiveGuest(db, i, u)
  }

  predicate UsableCode(db: Db, i: Identity, c: Id) {
    CodeOf(db, i, c) && db.codes[c].consumed.None? && db.codes[c].expires > db.now
  }

  predicate NewestUsable(db: Db, i: Identity, c: Id) {
    && UsableCode(db, i, c)
    && forall d :: d in db.codes && UsableCode(db, i, d) ==>
         NotAfter(db.codes[d].created, d, db.codes[c].created, c)
  }

  /** No code of the identity may stay usable. */
  ghost predicate Barred(db: Db, i: Identity, keeper: Option<Id>) {
    HasRegistered(db.users, i) || (Evidence(db, i) != {} && keeper.None?)
  }

  ghost predicate TrialFor(db: Db, i: Identity, t: Trial) {
    IsLeast(Evidence(db, i), t.redeemedAt) && t.generation == 0 && IsGreatest(SentTimes(db, i), t.lastSent)
  }

  ghost function CodeFor(db: Db, i: Identity, keeper: Option<Id>, c: Id): Code
    requires c in db.codes
  {
    var code := db.codes[c].(identity := Some(i), generation := 0);
    if UsableCode(db, i, c) && (Barred(db, i, keeper) || !NewestUsable(db, i, c)) then code.(expires := db.now)
    else code
  }

  // ---- one identity, all of them, and the audits left over ----

  ghost predicate Retired(db: Db, i: Identity, keeper: Option<Id>, u: Id) {
    ActiveGuest(db, i, u) && keeper != Some(u)
  }

  ghost function UsersAfter(db: Db, i: Identity, keeper: Option<Id>): map<Id, User> {
    map u | u in db.users ::
      if Retired(db, i, keeper, u) then Guest(Some(db.now), db.users[u].created) else db.users[u]
  }

  ghost function SessionsAfter(db: Db, i: Identity, keeper: Option<Id>): map<Id, Session> {
    map s | s in db.sessions ::
      if Retired(db, i, keeper, db.sessions[s].user) && db.sessions[s].revoked.None?
      then db.sessions[s].(revoked := Some(db.now)) else db.sessions[s]
  }

  ghost function CodesAfter(db: Db, i: Identity, keeper: Option<Id>): map<Id, Code> {
    map c | c in db.codes :: if CodeOf(db, i, c) then CodeFor(db, i, keeper, c) else db.codes[c]
  }

  /** Reconciling one identity. */
  ghost predicate Reconciled(db: Db, i: Identity, db': Db) {
    && i !in db.trials && i in db'.trials
    && var t := db'.trials[i];
       && IsKeeper(db, i, t.guest) && TrialFor(db, i, t)
       && db' == db.(users := UsersAfter(db, i, t.guest), sessions := SessionsAfter(db, i, t.guest),
                     codes := CodesAfter(db, i, t.guest), trials := db.trials[i := t])
  }

  /** Reconciling the identities of `order`, one after another, passes through these tables. */
  ghost predicate ReconciledAll(db: Db, order: seq<Identity>, path: seq<Db>) {
    && |path| == |order| + 1 && path[0] == db
    && forall k :: 0 <= k < |order| ==> Reconciled(path[k], order[k], path[k + 1])
  }

  predicate Enumerates(order: seq<Identity>, ids: set<Identity>) {
    && (forall j, k :: 0 <= j < k < |order| ==> order[j] != order[k])
    && (forall i :: i in order ==> i in ids) && (forall i :: i in ids ==> i in order)
  }

  /** A deletion audit whose email has no request left still marks its identity used. */
  ghost predicate AuditsAdded(db: Db, db': Db) {
    && db' == db.(trials := db'.trials)
    && db'.trials.Keys == db.trials.Keys + AuditIdentities(db)
    && (forall i :: i in db.trials ==> db'.trials[i] == db.trials[i])
    && forall i :: i in db'.trials && i !in db.trials ==>
         && db'.trials[i].guest.None? && db'.trials[i].generation == 0 && db'.trials[i].lastSent.None?
         && IsLeast(AuditTimes(db, i), db'.trials[i].redeemedAt)
  }

  /** The whole bootstrap, in whatever order the identities came up. */
  ghost predicate Bootstrapped(db: Db, order: seq<Identity>, path: seq<Db>, db': Db) {
    && !db.initialized && Enumerates(order, RequestIdentities(db)) && ReconciledAll(db, order, path)
    && AuditsAdded(path[|order|], db'.(initialized := false)) && db'.initialized
  }
}
