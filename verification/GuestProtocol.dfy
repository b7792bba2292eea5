/** The guest-trial protocol as a state machine: every committed transaction is one step, and the
    history of grants and resets is kept beside the tables. */
module GuestProtocol {
  import opened Basics
  import opened GuestTables
  import opened GuestErasure
  import opened GuestBackfill
  import opened GuestBootstrap

  datatype World = World(db: Db, grants: seq<Grant>, resets: multiset<Identity>)

  /** `row`, `found` and the bootstrap's order are the database's choices; `budget`, `delivered` and
      `deferred` are what the rate buckets, the mail provider and the workspace tables answer. The last
      two are an application instance from before the policy, still running beside the new ones. */
  datatype Event =
    | Tick(elapsed: nat)
    | Bootstrap
    | Ask(email: Email, row: Id)
    | Issue(email: Email, named: Option<Id>, row: Id, ttl: int, cooldown: nat, budget: bool, delivered: bool)
    | Redeem(c: Id, ttl: int)
    | Reset(email: Email)
    | Signup(email: Email, guests: bool)
    | Erase(u: Id, cutoff: int, found: Option<Identity>, deferred: bool)
    | Logout(s: Id)
    | LateIssue(request: Option<Id>, ttl: int)
    | LateRedeem(c: Id, ttl: int)

  predicate CanAsk(db: Db, i: Identity, row: Id) {
    db.initialized && EligibleUser(db.users, db.now, Locked(db, i).trials[i], i).Ok? && PickedRow(db, i, None, row)
  }

  predicate CanIssue(db: Db, i: Identity, named: Option<Id>, row: Id, cooldown: nat, budget: bool) {
    db.initialized && IssueRefusal(db, i, named, cooldown, budget).None? && PickedRow(db, i, named, row)
  }

  predicate CanErase(db: Db, u: Id, cutoff: int, found: Option<Identity>, deferred: bool) {
    EraseRefusal(db, u, cutoff, found, deferred).None? && FoundTrial(db, u, found) && u !in db.audits
  }

  /** An old instance knows nothing of identities or trials. */
  function LateIssueTx(db: Db, request: Option<Id>, ttl: int): Db {
    db.(codes := db.codes[db.nextId := Code(request, None, 0, db.now + ttl, None, None, db.now)],
        nextId := db.nextId + 1)
  }

  predicate CanLateRedeem(db: Db, c: Id) {
    c in db.codes && db.codes[c].consumed.None? && db.codes[c].expires > db.now && db.codes[c].guest.None?
  }

  function LateRedeemTx(db: Db, c: Id, ttl: int): Db
    requires CanLateRedeem(db, c)
  {
    var u := db.nextId;
    db.(users := db.users[u := Guest(Some(db.now + ttl), db.now)],
        codes := db.codes[c := db.codes[c].(consumed := Some(db.now), guest := Some(u))],
        sessions := db.sessions[u + 1 := Session(u, Some(db.now + ttl), None)],
        nextId := u + 2)
  }

  /** One step; a refused or rolled back transaction changes nothing. */
  ghost predicate Next(w: World, e: Event, w': World) {
    var db, db' := w.db, w'.db;
    match e
    case Tick(elapsed) => w' == w.(db := db.(now := db.now + elapsed))
    case Bootstrap =>
      if db.initialized then w' == w
      else w' == w.(db := db') && exists order, path :: Bootstrapped(db, order, path, db')
    case Ask(email, row) =>
      w' == if CanAsk(db, email.identity, row) then w.(db := AskTx(db, email.identity, row)) else w
    case Issue(email, named, row, ttl, cooldown, budget, delivered) =>
      w' == if delivered && CanIssue(db, email.identity, named, row, cooldown, budget)
            then w.(db := IssueTx(db, email.identity, row, ttl)) else w
    case Redeem(c, ttl) =>
      w' == if db.initialized && RedeemUser(db, c).Ok?
            then w.(db := RedeemTx(db, c, ttl), grants := w.grants + [GrantOf(db, c, ttl)]) else w
    case Reset(email) =>
      w' == if db.initialized
            then w.(db := ResetTx(db, email.identity), resets := w.resets + multiset{email.identity}) else w
    case Signup(email, guests) =>
      w' == if (guests ==> db.initialized) && !HasRegistered(db.users, email.identity)
            then w.(db := SignupTx(db, email.identity, guests)) else w
    case Erase(u, cutoff, found, deferred) =>
      if CanErase(db, u, cutoff, found, deferred) then
        w' == w.(db := db') && exists identity ::
          Erased(db, u, found, identity, db')
      else w' == w
    case Logout(s) =>
      w' == if s in db.sessions && db.sessions[s].revoked.None?
            then w.(db := db.(sessions := db.sessions[s := db.sessions[s].(revoked := Some(db.now))])) else w
    case LateIssue(request, ttl) =>
      w' == if request.Some? ==> request.value in db.requests then w.(db := LateIssueTx(db, request, ttl)) else w
    case LateRedeem(c, ttl) => w' == if CanLateRedeem(db, c) then w.(db := LateRedeemTx(db, c, ttl)) else w
  }

  // ---- the invariant ----

  /** Foreign keys point at ids that were handed out. */
  predicate RefsKnown(db: Db) {
    && (forall c :: c in db.codes ==> (db.codes[c].request.Some? ==> db.codes[c].request.value < db.nextId) &&
                                      (db.codes[c].guest.Some? ==> db.codes[c].guest.value < db.nextId))
    && (forall s :: s in db.sessions ==> db.sessions[s].user < db.nextId)
  }

  /** Ids are never handed out twice, not even after a row is gone. */
  predicate IdsFresh(db: Db) {
    && RefsKnown(db)
    && (forall u :: u in db.users ==> u < db.nextId) && (forall c :: c in db.codes ==> c < db.nextId)
    && (forall r :: r in db.requests ==> r < db.nextId) && (forall s :: s in db.sessions ==> s < db.nextId)
    && (forall a :: a in db.audits ==> a < db.nextId && a !in db.users)
  }

  predicate CodeSound(db: Db, c: Id)
    requires c in db.codes
  {
    var i := db.codes[c].identity;
    i.Some? ==>
      i.value in db.trials && db.codes[c].generation <= db.trials[i.value].generation && IdentityOf(db, c) == i
  }

  predicate CodesSound(db: Db) {
    forall c :: c in db.codes ==> CodeSound(db, c)
  }

  ghost predicate OneOpen(db: Db) {
    forall c, d, i :: Open(db, c, i) && Open(db, d, i) ==> c == d
  }

  /** A trial's account exists, is a guest admitted through that very email, and the trial is used. */
  ghost predicate TrialSound(db: Db, i: Identity)
    requires i in db.trials
  {
    var k := db.trials[i].guest;
    k.Some? ==>
      db.trials[i].redeemedAt.Some? && k.value in db.users && db.users[k.value].Guest? && Linked(db, k.value, i)
  }

  ghost predicate TrialsSound(db: Db) {
    forall i :: i in db.trials ==> TrialSound(db, i)
  }

  /** A trial's generation counts the identity's resets. */
  predicate Counted(w: World) {
    && (forall i :: i in w.db.trials ==> w.db.trials[i].generation == w.resets[i])
    && (forall i :: i in w.resets ==> i in w.db.trials)
  }

  predicate GrantRows(db: Db, g: Grant) {
    && g.code < db.nextId && g.user < db.nextId && g.session < db.nextId
    && (g.code in db.codes ==> db.codes[g.code].consumed.Some?)
    && (g.session in db.sessions ==>
          db.sessions[g.session].user == g.user && db.sessions[g.session].expires == Some(g.expires))
    && (g.user in db.users ==> db.users[g.user].Guest? && db.users[g.user].expires.Some? &&
                               db.users[g.user].expires.value <= g.expires)
    && (g.isNew ==> g.expires == g.at + g.ttl)
  }

  predicate GrantTrial(db: Db, g: Grant) {
    && g.identity in db.trials && g.generation <= db.trials[g.identity].generation
    && (g.generation == db.trials[g.identity].generation ==>
          && db.trials[g.identity].redeemedAt.Some?
          && (db.trials[g.identity].guest.None? || db.trials[g.identity].guest.value == g.user))
  }

  predicate GrantsSound(w: World) {
    forall k :: 0 <= k < |w.grants| ==> GrantRows(w.db, w.grants[k]) && GrantTrial(w.db, w.grants[k])
  }

  /** How a later grant relates to an earlier one. */
  predicate Follows(a: Grant, b: Grant) {
    && a.code != b.code
    && (a.identity == b.identity ==> a.generation <= b.generation)
    && (a.identity == b.identity && a.generation == b.generation ==>
          a.user == b.user && b.expires <= a.expires && !b.isNew)
  }

  predicate Ordered(gs: seq<Grant>) {
    forall j, k :: 0 <= j < k < |gs| ==> Follows(gs[j], gs[k])
  }

  ghost predicate Sound(db: Db) {
    IdsFresh(db) && CodesSound(db) && OneOpen(db) && TrialsSound(db)
  }

  ghost predicate Inv(w: World) {
    && Sound(w.db) && Counted(w) && GrantsSound(w) && Ordered(w.grants)
    && (!w.db.initialized ==> Legacy(w.db) && w.grants == [])
  }

  // ---- what any step, and so any run, can do to a row that was there before ----

  /** An account never lives longer than it was going to. */
  predicate UserAges(a: User, b: User) {
    if a.Guest? then
      b.Guest? && b.created == a.created && b.expires.Some? == a.expires.Some? &&
      (a.expires.Some? ==> b.expires.value <= a.expires.value)
    else b == a
  }

  predicate SessionAges(a: Session, b: Session) {
    b.user == a.user && b.expires == a.expires && (a.revoked.Some? ==> b.revoked.Some?)
  }

  /** A labelled code keeps its identity and generation, a consumed one stays so, and none works
      past the later of its expiry and this moment. */
  predicate CodeAges(a: Code, b: Code, now: int) {
    && (a.identity.Some? ==> b.identity == a.identity && b.generation == a.generation)
    && (a.consumed.Some? ==> b.consumed == a.consumed) && b.expires <= Max(a.expires, now)
  }

  /** Within a generation a used trial stays used and can only lose its account, and the time of the
      last mail only moves on. */
  predicate TrialMoves(a: Trial, b: Trial) {
    && a.generation <= b.generation
    && (a.generation == b.generation && a.redeemedAt.Some? ==>
          b.redeemedAt == a.redeemedAt && (b.guest == a.guest || b.guest.None?))
    && (a.generation == b.generation && a.lastSent.Some? ==>
          b.lastSent.Some? && a.lastSent.value <= b.lastSent.value)
  }

  predicate UsersAge(db: Db, db': Db) {
    forall u :: u < db.nextId && u in db'.users ==> u in db.users && UserAges(db.users[u], db'.users[u])
  }

  predicate SessionsAge(db: Db, db': Db) {
    forall s :: s < db.nextId && s in db'.sessions ==> s in db.sessions && SessionAges(db.sessions[s], db'.sessions[s])
  }

  predicate CodesAge(db: Db, db': Db) {
    forall c :: c < db.nextId && c in db'.codes ==> c in db.codes && CodeAges(db.codes[c], db'.codes[c], db'.now)
  }

  predicate TrialsMove(db: Db, db': Db) {
    forall i :: i in db.trials ==> i in db'.trials && TrialMoves(db.trials[i], db'.trials[i])
  }

  /** After the bootstrap a trial never comes to name an account that was already there. */
  predicate NoNewOwners(db: Db, db': Db) {
    forall i :: i in db'.trials && db'.trials[i].guest.Some? && db'.trials[i].guest.value < db.nextId ==>
      i in db.trials && db.trials[i].guest == db'.trials[i].guest
  }

  /** Registered accounts are never erased. */
  predicate RegisteredStay(db: Db, db': Db) {
    forall u :: u in db.users && db.users[u].Registered? ==> u in db'.users && db'.users[u] == db.users[u]
  }

  predicate Evolves(db: Db, db': Db) {
    && db.now <= db'.now && db.nextId <= db'.nextId && (db.initialized ==> db'.initialized)
    && UsersAge(db, db') && SessionsAge(db, db') && CodesAge(db, db') && TrialsMove(db, db')
    && RegisteredStay(db, db') && (db.initialized ==> NoNewOwners(db, db'))
  }

  /** Any tables from before the policy, with nothing granted or reset yet. */
  ghost predicate Start(w: World) {
    Legacy(w.db) && IdsFresh(w.db) && w.grants == [] && w.resets == multiset{}
  }

  lemma {:induction false} StartIsSound(w: World)
    requires Start(w)
    ensures Inv(w)
  {
  }
}
