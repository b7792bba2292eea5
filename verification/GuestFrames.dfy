/** What a committed guest transaction leaves alone: row by row, and for everybody's access. */
module GuestFrames {
  import opened Basics
  import opened GuestTables
  import opened GuestErasure
  import opened GuestProtocol
  import opened GuestSteps

  // ---- the rows ----

  /** The identity's trial as a transaction finds it. */
  function TrialOf(db: Db, i: Identity): Trial {
    if i in db.trials then db.trials[i] else Trial(None, None, 0, None)
  }

  ghost predicate OtherTrialsStay(db: Db, db': Db, i: Identity) {
    forall j :: j != i ==> (j in db'.trials <==> j in db.trials) && (j in db.trials ==> db'.trials[j] == db.trials[j])
  }

  /** Unspent codes of the identity end now; every other code stays as it is. */
  ghost predicate CodesOfEnd(db: Db, db': Db, i: Identity) {
    forall c :: c in db.codes ==>
      c in db'.codes && db'.codes[c] ==
        if db.codes[c].identity == Some(i) && db.codes[c].consumed.None? then db.codes[c].(expires := db.now)
        else db.codes[c]
  }

  lemma {:induction false} ResetAccounts(db: Db, i: Identity, db': Db)
    requires db' == ResetTx(db, i)
    ensures db'.sessions.Keys == db.sessions.Keys && db'.users.Keys == db.users.Keys
    ensures forall s :: s in db.sessions ==>
              db'.sessions[s] ==
                if TrialOf(db, i).guest == Some(db.sessions[s].user) then db.sessions[s].(revoked := Some(db.now))
                else db.sessions[s]
    ensures forall u :: u in db.users ==>
              db'.users[u] ==
                if TrialOf(db, i).guest == Some(u) && Live(db.users[u], db.now)
                then Guest(Some(db.now), db.users[u].created) else db.users[u]
  {
  }

  /** A reset ends the account its trial names with that account's sessions, and the unspent codes of the
      identity, and starts the trial over; no other account, session, code or trial changes. */
  lemma {:induction false} ResetFrame(db: Db, i: Identity, db': Db)
    requires db' == ResetTx(db, i)
    ensures db'.now == db.now && db'.initialized == db.initialized && db'.nextId == db.nextId
    ensures db'.requests == db.requests && db'.audits == db.audits
    ensures OtherTrialsStay(db, db', i) && i in db'.trials
    ensures db'.trials[i] == Trial(None, None, TrialOf(db, i).generation + 1, None)
    ensures CodesOfEnd(db, db', i) && db'.codes.Keys == db.codes.Keys
    ensures db'.sessions.Keys == db.sessions.Keys && db'.users.Keys == db.users.Keys
    ensures forall s :: s in db.sessions ==>
              db'.sessions[s] ==
                if TrialOf(db, i).guest == Some(db.sessions[s].user) then db.sessions[s].(revoked := Some(db.now))
                else db.sessions[s]
    ensures forall u :: u in db.users ==>
              db'.users[u] ==
                if TrialOf(db, i).guest == Some(u) && Live(db.users[u], db.now)
                then Guest(Some(db.now), db.users[u].created) else db.users[u]
  {
    ResetAccounts(db, i, db');
  }

  /** Asking for access leaves a request of the identity and its trial row; nothing else changes. */
  lemma {:induction false} AskFrame(db: Db, i: Identity, row: Id, db': Db)
    requires IdsFresh(db) && (row in db.requests || row == db.nextId) && db' == AskTx(db, i, row)
    ensures db' == db.(trials := db'.trials, requests := db'.requests, nextId := db'.nextId)
    ensures OtherTrialsStay(db, db', i) && i in db'.trials && db'.trials[i] == TrialOf(db, i)
    ensures db'.requests == (if row in db.requests then db.requests
                             else db.requests[row := Request(Email(i, 0), Pending, db.now, None, None, None)])
    ensures db'.nextId == (if row in db.requests then db.nextId else db.nextId + 1)
  {
    LockFrame(db, i, Locked(db, i));
  }

  lemma {:induction false} LockFrame(db: Db, i: Identity, l: Db)
    requires l == Locked(db, i)
    ensures l == db.(trials := l.trials)
    ensures OtherTrialsStay(db, l, i) && i in l.trials && l.trials[i] == TrialOf(db, i)
  {
  }

  /** Issuing a code ends the identity's unspent codes, adds the new one, and marks its request and its
      trial as mailed now; nothing else changes. */
  lemma {:induction false} IssueFrame(db: Db, i: Identity, row: Id, ttl: int, db': Db)
    requires IdsFresh(db) && (row in db.requests || row == db.nextId) && db' == IssueTx(db, i, row, ttl)
    ensures db' == db.(trials := db'.trials, requests := db'.requests, codes := db'.codes, nextId := db'.nextId)
    ensures OtherTrialsStay(db, db', i) && i in db'.trials
    ensures db'.trials[i] == TrialOf(db, i).(lastSent := Some(db.now))
    ensures db'.nextId > db.nextId && CodesOfEnd(db, db', i) && db'.codes.Keys == db.codes.Keys + {db'.nextId - 1}
    ensures db'.codes[db'.nextId - 1] ==
              Code(Some(row), Some(i), TrialOf(db, i).generation, CodeExpiry(db, i, ttl), None, None, db.now)
    ensures db'.requests.Keys == db.requests.Keys + {row}
    ensures forall r :: r in db.requests && r != row ==> db'.requests[r] == db.requests[r]
    ensures var before := if row in db.requests then db.requests[row]
                          else Request(Email(i, 0), Pending, db.now, None, None, None);
            db'.requests[row] == Request(before.email, Issued, before.created,
                                         if before.approved.Some? then before.approved else Some(db.now),
                                         Some(db.now), before.rejected)
  {
    var r := AskTx(db, i, row);
    AskFrame(db, i, row, r);
    IssueOnFrame(r, i, row, CodeExpiry(db, i, ttl), db');
  }

  lemma {:induction false} IssueOnFrame(r: Db, i: Identity, row: Id, expires: int, db': Db)
    requires i in r.trials && row in r.requests && db' == IssueOn(r, i, row, expires) && r.nextId !in r.codes
    ensures db' == r.(trials := db'.trials, requests := db'.requests, codes := db'.codes, nextId := r.nextId + 1)
    ensures db'.trials == r.trials[i := r.trials[i].(lastSent := Some(r.now))]
    ensures CodesOfEnd(r, db', i) && db'.codes.Keys == r.codes.Keys + {r.nextId}
    ensures db'.codes[r.nextId] == Code(Some(row), Some(i), r.trials[i].generation, expires, None, None, r.now)
    ensures db'.requests == r.requests[row := Request(r.requests[row].email, Issued, r.requests[row].created,
              if r.requests[row].approved.Some? then r.requests[row].approved else Some(r.now), Some(r.now),
              r.requests[row].rejected)]
  {
  }

  /** Registering adds the account and, where guests are allowed, the identity's trial row. */
  lemma {:induction false} SignupFrame(db: Db, i: Identity, guests: bool, db': Db)
    requires db' == SignupTx(db, i, guests)
    ensures db' == db.(trials := db'.trials, users := db'.users, nextId := db'.nextId)
    ensures OtherTrialsStay(db, db', i) && (if guests then i in db'.trials && db'.trials[i] == TrialOf(db, i)
                                            else db'.trials == db.trials)
    ensures db'.users == db.users[db.nextId := Registered(Email(i, 0))] && db'.nextId == db.nextId + 1
  {
  }

  // ---- everybody's access ----

  predicate Names(db: Db, j: Identity, u: Id) {
    j in db.trials && db.trials[j].guest == Some(u) && db.trials[j].redeemedAt.Some?
  }

  predicate Lasting(db: Db, s: Id, u: Id) {
    && s in db.sessions && db.sessions[s].user == u && db.sessions[s].revoked.None?
    && (db.sessions[s].expires.None? || db.sessions[s].expires.value > db.now)
    && u in db.users && Live(db.users[u], db.now)
  }

  ghost predicate OnlyLinked(db: Db, u: Id, j: Identity) {
    Linked(db, u, j) && forall k :: Linked(db, u, k) ==> k == j
  }

  /** What access comes down to. */
  lemma {:induction false} AdmitsIff(db: Db, s: Id, u: Id, j: Identity)
    ensures Admits(db, s, u, j) <==>
              Lasting(db, s, u) && OnlyLinked(db, u, j) && Names(db, j, u) && !HasRegistered(db.users, j)
  {
  }

  ghost predicate SameLinks(db: Db, db': Db, u: Id) {
    forall k :: Linked(db', u, k) <==> Linked(db, u, k)
  }

  lemma {:induction false} SameAccess(db: Db, db': Db, s: Id, u: Id, j: Identity)
    requires Lasting(db', s, u) <==> Lasting(db, s, u)
    requires SameLinks(db, db', u)
    requires Names(db', j, u) <==> Names(db, j, u)
    requires HasRegistered(db'.users, j) <==> HasRegistered(db.users, j)
    ensures Admits(db', s, u, j) <==> Admits(db, s, u, j)
  {
    AdmitsIff(db, s, u, j);
    AdmitsIff(db', s, u, j);
  }

  lemma {:induction false} LinksTheSame(db: Db, db': Db, u: Id)
    requires forall c, k :: Links(db', c, u, k) <==> Links(db, c, u, k)
    ensures SameLinks(db, db', u)
  {
    forall k
      ensures Linked(db', u, k) <==> Linked(db, u, k)
    {
      if Linked(db, u, k) {
        var c :| Links(db, c, u, k);
        assert Links(db', c, u, k);
      }
      if Linked(db', u, k) {
        var c :| Links(db', c, u, k);
        assert Links(db, c, u, k);
      }
    }
  }

  lemma {:induction false} AskLinksTheSame(db: Db, i: Identity, row: Id, db': Db, u: Id)
    requires Sound(db) && (row in db.requests || row == db.nextId) && db' == AskTx(db, i, row)
    ensures SameLinks(db, db', u)
  {
    AskFrame(db, i, row, db');
    assert forall c :: c in db.codes ==> IdentityOf(db', c) == IdentityOf(db, c);
    LinksTheSame(db, db', u);
  }

  lemma {:induction false} AskKeepsAccess(db: Db, i: Identity, row: Id, db': Db, s: Id, u: Id, j: Identity)
    requires Sound(db) && (row in db.requests || row == db.nextId) && db' == AskTx(db, i, row)
    ensures Admits(db', s, u, j) <==> Admits(db, s, u, j)
  {
    AskLinksTheSame(db, i, row, db', u);
    AskFrame(db, i, row, db');
    SameAccess(db, db', s, u, j);
  }

  lemma {:induction false} NewCodeLinksNobody(r: Db, i: Identity, row: Id, expires: int, db': Db, u: Id)
    requires IdsFresh(r) && i in r.trials && row in r.requests && db' == IssueOn(r, i, row, expires)
    ensures SameLinks(r, db', u)
  {
    assert r.nextId !in r.codes;
    assert forall c :: c in r.codes ==> IdentityOf(db', c) == IdentityOf(r, c);
    LinksTheSame(r, db', u);
  }

  lemma {:induction false} IssueLinksTheSame(db: Db, i: Identity, row: Id, ttl: int, db': Db, u: Id)
    requires Sound(db) && (row in db.requests || row == db.nextId) && db' == IssueTx(db, i, row, ttl)
    ensures SameLinks(db, db', u)
  {
    var r := AskTx(db, i, row);
    RowTaken(db, i, row, r);
    AskLinksTheSame(db, i, row, r, u);
    NewCodeLinksNobody(r, i, row, CodeExpiry(db, i, ttl), db', u);
  }

  lemma {:induction false} IssueKeepsAccess(db: Db, i: Identity, row: Id, ttl: int, db': Db, s: Id, u: Id, j: Identity)
    requires Sound(db) && (row in db.requests || row == db.nextId) && db' == IssueTx(db, i, row, ttl)
    ensures Admits(db', s, u, j) <==> Admits(db, s, u, j)
  {
    IssueLinksTheSame(db, i, row, ttl, db', u);
    IssueFrame(db, i, row, ttl, db');
    SameAccess(db, db', s, u, j);
  }

  lemma {:induction false} ResetLinksTheSame(db: Db, i: Identity, db': Db, u: Id)
    requires db' == ResetTx(db, i)
    ensures SameLinks(db, db', u)
  {
    ResetFrame(db, i, db');
    assert forall c :: c in db.codes ==> IdentityOf(db', c) == IdentityOf(db, c);
    LinksTheSame(db, db', u);
  }

  lemma {:induction false} ResetOfAnother(db: Db, i: Identity, db': Db, s: Id, u: Id, j: Identity)
    requires db' == ResetTx(db, i) && j != i && TrialOf(db, i).guest != Some(u)
    ensures Admits(db', s, u, j) <==> Admits(db, s, u, j)
  {
    ResetLinksTheSame(db, i, db', u);
    ResetFrame(db, i, db');
    assert Lasting(db', s, u) <==> Lasting(db, s, u);
    assert HasRegistered(db'.users, j) <==> HasRegistered(db.users, j) by {
      assert forall v :: v in db.users && db.users[v].Registered? ==> db'.users[v] == db.users[v];
    }
    SameAccess(db, db', s, u, j);
  }

  /** A reset ends access through its identity and through no other. */
  lemma {:induction false} ResetAccess(db: Db, i: Identity, db': Db, s: Id, u: Id, j: Identity)
    requires Sound(db) && db' == ResetTx(db, i)
    ensures Admits(db', s, u, j) <==> Admits(db, s, u, j) && j != i
  {
    AdmitsIff(db, s, u, j);
    AdmitsIff(db', s, u, j);
    if j == i {
      ResetFrame(db, i, db');
    } else if TrialOf(db, i).guest == Some(u) {
      assert TrialSound(db, i);
      ResetLinksTheSame(db, i, db', u);
    } else {
      ResetOfAnother(db, i, db', s, u, j);
    }
  }

  lemma {:induction false} RegisteredOthers(users: map<Id, User>, u: Id, i: Identity, j: Identity)
    requires u !in users
    ensures HasRegistered(users[u := Registered(Normalised(i))], j) <==> j == i || HasRegistered(users, j)
  {
    var users' := users[u := Registered(Normalised(i))];
    assert users'[u] == Registered(Normalised(i));
    forall v | v in users
      ensures users'[v] == users[v]
    {
    }
  }

  /** A registration ends guest access through its identity and through no other. */
  lemma {:induction false} SignupAccess(db: Db, i: Identity, guests: bool, db': Db, s: Id, u: Id, j: Identity)
    requires Sound(db) && db' == SignupTx(db, i, guests)
    ensures Admits(db', s, u, j) <==> Admits(db, s, u, j) && j != i
  {
    SignupFrame(db, i, guests, db');
    RegisteredOthers(db.users, db.nextId, i, j);
    assert forall c :: c in db.codes ==> IdentityOf(db', c) == IdentityOf(db, c);
    LinksTheSame(db, db', u);
    if j == i {
      AdmitsIff(db', s, u, j);
    } else {
      SameAccess(db, db', s, u, j);
    }
  }

  // ---- redeeming ----

  lemma {:induction false} RedeemLinks(db: Db, c: Id, ttl: int, db': Db, g: Grant, d: Id, u: Id, k: Identity)
    requires Sound(db) && RedeemUser(db, c).Ok? && db' == RedeemTx(db, c, ttl) && g == GrantOf(db, c, ttl)
    requires db.codes[c].guest.None?
    ensures Links(db', d, u, k) <==> Links(db, d, u, k) || (d == c && u == g.user && k == g.identity)
  {
    RedeemFacts(db, c, ttl, db', g);
    assert d in db.codes ==> IdentityOf(db', d) == IdentityOf(db, d);
  }

  lemma {:induction false} RedeemLinked(db: Db, c: Id, ttl: int, db': Db, g: Grant, u: Id, k: Identity)
    requires Sound(db) && RedeemUser(db, c).Ok? && db' == RedeemTx(db, c, ttl) && g == GrantOf(db, c, ttl)
    requires db.codes[c].guest.None?
    ensures Linked(db', u, k) <==> Linked(db, u, k) || (u == g.user && k == g.identity)
  {
    forall d
      ensures Links(db', d, u, k) <==> Links(db, d, u, k) || (d == c && u == g.user && k == g.identity)
    {
      RedeemLinks(db, c, ttl, db', g, d, u, k);
    }
    if Linked(db, u, k) {
      var d :| Links(db, d, u, k);
      assert Links(db', d, u, k);
    }
    if u == g.user && k == g.identity {
      assert Links(db', c, u, k);
    }
  }

  /** A new account has no links yet; an account that signs in again has its own. */
  lemma {:induction false} GrantedLinks(db: Db, c: Id, ttl: int, db': Db, g: Grant)
    requires Sound(db) && RedeemUser(db, c).Ok? && db' == RedeemTx(db, c, ttl) && g == GrantOf(db, c, ttl)
    ensures g.isNew ==> forall k :: !Linked(db, g.user, k)
    ensures !g.isNew ==> Linked(db, g.user, g.identity)
  {
    RedeemFacts(db, c, ttl, db', g);
    assert TrialSound(db, g.identity);
  }

  lemma {:induction false} AddedGuestRegistersNobody(users: map<Id, User>, u: Id, expires: int, created: int,
                                                     j: Identity)
    requires u !in users
    ensures HasRegistered(users[u := Guest(Some(expires), created)], j) <==> HasRegistered(users, j)
  {
    var users' := users[u := Guest(Some(expires), created)];
    assert forall v :: v in users ==> users'[v] == users[v];
  }

  lemma {:induction false} RedeemRegisters(db: Db, c: Id, ttl: int, db': Db, g: Grant, j: Identity)
    requires Sound(db) && RedeemUser(db, c).Ok? && db' == RedeemTx(db, c, ttl) && g == GrantOf(db, c, ttl)
    ensures HasRegistered(db'.users, j) <==> HasRegistered(db.users, j)
    ensures !HasRegistered(db.users, g.identity)
  {
    RedeemFacts(db, c, ttl, db', g);
    if g.isNew {
      AddedGuestRegistersNobody(db.users, g.user, g.expires, db.now, j);
    }
  }

  /** The session lasts as long as its account, which is linked to this identity alone. */
  ghost predicate LetIn(db: Db, g: Grant, s: Id, u: Id, j: Identity) {
    && s == g.session && u == g.user && j == g.identity && db.now < g.expires
    && forall k :: Linked(db, u, k) ==> k == j
  }

  /** A redemption opens its session, and changes nobody else's access. */
  lemma {:induction false} RedeemAccess(db: Db, c: Id, ttl: int, db': Db, g: Grant, s: Id, u: Id, j: Identity)
    requires Sound(db) && RedeemUser(db, c).Ok? && db' == RedeemTx(db, c, ttl) && g == GrantOf(db, c, ttl)
    requires db.codes[c].guest.None?
    ensures Admits(db', s, u, j) <==> Admits(db, s, u, j) || LetIn(db, g, s, u, j)
  {
    AdmitsIff(db, s, u, j);
    AdmitsIff(db', s, u, j);
    RedeemRegisters(db, c, ttl, db', g, j);
    if u == g.user {
      RedeemOfTheirs(db, c, ttl, db', g, s, j);
    } else {
      RedeemOfAnother(db, c, ttl, db', g, s, u, j);
    }
  }

  lemma {:induction false} RedeemOfAnother(db: Db, c: Id, ttl: int, db': Db, g: Grant, s: Id, u: Id, j: Identity)
    requires Sound(db) && RedeemUser(db, c).Ok? && db' == RedeemTx(db, c, ttl) && g == GrantOf(db, c, ttl)
    requires db.codes[c].guest.None? && u != g.user
    ensures Admits(db', s, u, j) <==> Admits(db, s, u, j)
  {
    RedeemRegisters(db, c, ttl, db', g, j);
    forall k
      ensures Linked(db', u, k) <==> Linked(db, u, k)
    {
      RedeemLinked(db, c, ttl, db', g, u, k);
    }
    assert (Lasting(db', s, u) <==> Lasting(db, s, u)) && (Names(db', j, u) <==> Names(db, j, u)) by {
      RedeemFacts(db, c, ttl, db', g);
      assert TrialSound(db, g.identity);
    }
    SameAccess(db, db', s, u, j);
  }

  lemma {:induction false} RedeemOfTheirs(db: Db, c: Id, ttl: int, db': Db, g: Grant, s: Id, j: Identity)
    requires Sound(db) && RedeemUser(db, c).Ok? && db' == RedeemTx(db, c, ttl) && g == GrantOf(db, c, ttl)
    requires db.codes[c].guest.None?
    ensures Admits(db', s, g.user, j) <==> Admits(db, s, g.user, j) || LetIn(db, g, s, g.user, j)
  {
    var u := g.user;
    AdmitsIff(db, s, u, j);
    AdmitsIff(db', s, u, j);
    RedeemRegisters(db, c, ttl, db', g, j);
    GrantedLinks(db, c, ttl, db', g);
    forall k
      ensures Linked(db', u, k) <==> Linked(db, u, k) || k == g.identity
    {
      RedeemLinked(db, c, ttl, db', g, u, k);
    }
    assert OnlyLinked(db', u, j) <==> j == g.identity && forall k :: Linked(db, u, k) ==> k == j;
    TheirSessions(db, c, ttl, db', g, s);
  }

  lemma {:induction false} TheirSessions(db: Db, c: Id, ttl: int, db': Db, g: Grant, s: Id)
    requires Sound(db) && RedeemUser(db, c).Ok? && db' == RedeemTx(db, c, ttl) && g == GrantOf(db, c, ttl)
    ensures Names(db', g.identity, g.user)
    ensures s == g.session ==> (Lasting(db', s, g.user) <==> db.now < g.expires) && !Lasting(db, s, g.user)
    ensures s != g.session ==> (Lasting(db', s, g.user) <==> Lasting(db, s, g.user))
    ensures g.isNew ==> !Lasting(db, s, g.user)
    ensures !g.isNew ==> Names(db, g.identity, g.user)
  {
    RedeemFacts(db, c, ttl, db', g);
  }

  // ---- erasing, logging out, time and old instances ----

  lemma {:induction false} EraseLinksTheSame(db: Db, v: Id, found: Option<Identity>, identity: Option<Identity>,
                                             db': Db, u: Id)
    requires Erased(db, v, found, identity, db') && u != v
    ensures SameLinks(db, db', u)
  {
    forall c, k
      ensures Links(db', c, u, k) <==> Links(db, c, u, k)
    {
      if c in db'.codes {
        RemainingKeepRequests(db, v, found, identity, db', c);
      } else {
        assert c in db.codes ==> Owned(db, v, found, c);
      }
    }
    LinksTheSame(db, db', u);
  }

  lemma {:induction false} EraseAccess(db: Db, v: Id, found: Option<Identity>, identity: Option<Identity>, db': Db,
                                       s: Id, u: Id, j: Identity)
    requires Erased(db, v, found, identity, db')
    ensures Admits(db', s, u, j) <==> Admits(db, s, u, j) && u != v
  {
    if u != v {
      EraseLinksTheSame(db, v, found, identity, db', u);
      assert HasRegistered(db'.users, j) <==> HasRegistered(db.users, j) by {
        assert forall w :: w in db.users && db.users[w].Registered? ==>
                             w in db'.users && db'.users[w] == db.users[w];
      }
      SameAccess(db, db', s, u, j);
    }
  }

  lemma {:induction false} LogoutAccess(db: Db, t: Id, db': Db, s: Id, u: Id, j: Identity)
    requires t in db.sessions
    requires db' == db.(sessions := db.sessions[t := db.sessions[t].(revoked := Some(db.now))])
    ensures Admits(db', s, u, j) <==> Admits(db, s, u, j) && s != t
  {
    assert forall c :: c in db.codes ==> IdentityOf(db', c) == IdentityOf(db, c);
    LinksTheSame(db, db', u);
    if s != t {
      SameAccess(db, db', s, u, j);
    }
  }

  /** The session and its account are still good after so much time. */
  predicate Outlasts(db: Db, s: Id, u: Id, elapsed: nat) {
    && s in db.sessions && (db.sessions[s].expires.None? || db.now + elapsed < db.sessions[s].expires.value)
    && u in db.users && db.users[u].Guest? && db.users[u].expires.Some? && db.now + elapsed < db.users[u].expires.value
  }

  lemma {:induction false} TickAccess(db: Db, elapsed: nat, db': Db, s: Id, u: Id, j: Identity)
    requires db' == db.(now := db.now + elapsed)
    ensures Admits(db', s, u, j) <==> Admits(db, s, u, j) && Outlasts(db, s, u, elapsed)
  {
    assert forall c :: c in db.codes ==> IdentityOf(db', c) == IdentityOf(db, c);
    LinksTheSame(db, db', u);
    AdmitsIff(db, s, u, j);
    AdmitsIff(db', s, u, j);
  }

  lemma {:induction false} LateIssueKeepsAccess(db: Db, request: Option<Id>, ttl: int, db': Db, s: Id, u: Id,
                                                j: Identity)
    requires IdsFresh(db) && db' == LateIssueTx(db, request, ttl)
    ensures Admits(db', s, u, j) <==> Admits(db, s, u, j)
  {
    assert forall c :: c in db.codes ==> IdentityOf(db', c) == IdentityOf(db, c);
    LinksTheSame(db, db', u);
    SameAccess(db, db', s, u, j);
  }

  lemma {:induction false} LateRedeemLinks(db: Db, c: Id, ttl: int, db': Db, u: Id)
    requires IdsFresh(db) && CanLateRedeem(db, c) && db' == LateRedeemTx(db, c, ttl) && u != db.nextId
    ensures SameLinks(db, db', u)
  {
    assert forall d :: d in db.codes ==> IdentityOf(db', d) == IdentityOf(db, d);
    LinksTheSame(db, db', u);
  }

  lemma {:induction false} LateRedeemKeepsAccess(db: Db, c: Id, ttl: int, db': Db, s: Id, u: Id, j: Identity)
    requires Sound(db) && CanLateRedeem(db, c) && db' == LateRedeemTx(db, c, ttl)
    ensures Admits(db', s, u, j) <==> Admits(db, s, u, j)
  {
    if u == db.nextId {
      AdmitsIff(db', s, u, j);
      assert j in db.trials ==> TrialSound(db, j);
    } else {
      LateRedeemLinks(db, c, ttl, db', u);
      AddedGuestRegistersNobody(db.users, db.nextId, db.now + ttl, db.now, j);
      SameAccess(db, db', s, u, j);
    }
  }

  /** What a step makes of the access of session `s` as guest `u` of identity `j`. */
  ghost predicate AccessAfter(db: Db, e: Event, s: Id, u: Id, j: Identity) {
    match e
    case Tick(elapsed) => Admits(db, s, u, j) && Outlasts(db, s, u, elapsed)
    case Redeem(c, ttl) =>
      Admits(db, s, u, j) || (RedeemUser(db, c).Ok? && LetIn(db, GrantOf(db, c, ttl), s, u, j))
    case Reset(email) => Admits(db, s, u, j) && j != email.identity
    case Signup(email, guests) => Admits(db, s, u, j) && j != email.identity
    case Erase(v, cutoff, found, deferred) =>
      Admits(db, s, u, j) && (CanErase(db, v, cutoff, found, deferred) ==> u != v)
    case Logout(t) => Admits(db, s, u, j) && s != t
    case _ => Admits(db, s, u, j)
  }

  lemma {:induction false} IssueStepAccess(w: World, e: Event, w': World, s: Id, u: Id, j: Identity)
    requires Inv(w) && Next(w, e, w') && (e.Ask? || e.Issue?)
    ensures Admits(w'.db, s, u, j) <==> Admits(w.db, s, u, j)
  {
    var db, i := w.db, e.email.identity;
    if w' != w {
      if e.Ask? {
        AskKeepsAccess(db, i, e.row, w'.db, s, u, j);
      } else {
        PickedRowFits(db, i, e.named, e.row, Locked(db, i));
        IssueKeepsAccess(db, i, e.row, e.ttl, w'.db, s, u, j);
      }
    }
  }

  lemma {:induction false} EraseStepAccess(w: World, e: Event, w': World, s: Id, u: Id, j: Identity)
    requires Inv(w) && Next(w, e, w') && e.Erase?
    ensures Admits(w'.db, s, u, j) <==> AccessAfter(w.db, e, s, u, j)
  {
    if CanErase(w.db, e.u, e.cutoff, e.found, e.deferred) {
      var identity :| Erased(w.db, e.u, e.found, identity, w'.db);
      EraseAccess(w.db, e.u, e.found, identity, w'.db, s, u, j);
    }
  }

  lemma {:induction false} EndingStepAccess(w: World, e: Event, w': World, s: Id, u: Id, j: Identity)
    requires Inv(w) && w.db.initialized && Next(w, e, w') && (e.Reset? || e.Signup? || e.Logout?)
    ensures Admits(w'.db, s, u, j) <==> AccessAfter(w.db, e, s, u, j)
  {
    var db := w.db;
    AdmitsIff(db, s, u, j);
    if e.Reset? {
      ResetAccess(db, e.email.identity, w'.db, s, u, j);
    } else if e.Signup? {
      if !HasRegistered(db.users, e.email.identity) {
        SignupAccess(db, e.email.identity, e.guests, w'.db, s, u, j);
      }
    } else if e.s in db.sessions && db.sessions[e.s].revoked.None? {
      LogoutAccess(db, e.s, w'.db, s, u, j);
    }
  }

  lemma {:induction false} LateStepAccess(w: World, e: Event, w': World, s: Id, u: Id, j: Identity)
    requires Inv(w) && Next(w, e, w') && (e.LateIssue? || e.LateRedeem?)
    ensures Admits(w'.db, s, u, j) <==> Admits(w.db, s, u, j)
  {
    if w' != w {
      if e.LateIssue? {
        LateIssueKeepsAccess(w.db, e.request, e.ttl, w'.db, s, u, j);
      } else {
        LateRedeemKeepsAccess(w.db, e.c, e.ttl, w'.db, s, u, j);
      }
    }
  }

  lemma {:induction false} RedeemStepAccess(w: World, e: Event, w': World, s: Id, u: Id, j: Identity)
    requires Inv(w) && w.db.initialized && Next(w, e, w') && e.Redeem?
    requires e.c in w.db.codes && w.db.codes[e.c].consumed.None? ==> w.db.codes[e.c].guest.None?
    ensures Admits(w'.db, s, u, j) <==> AccessAfter(w.db, e, s, u, j)
  {
    if RedeemUser(w.db, e.c).Ok? {
      RedeemAccess(w.db, e.c, e.ttl, w'.db, GrantOf(w.db, e.c, e.ttl), s, u, j);
    }
  }

  /** After the bootstrap every step gives and takes exactly this access: only a redemption lets anybody
      in, and nobody loses access except by time, their own logout or erasure, or the reset or
      registration of their own email. An unspent code is taken to have admitted nobody. */
  lemma {:induction false} StepAccess(w: World, e: Event, w': World, s: Id, u: Id, j: Identity)
    requires Inv(w) && w.db.initialized && Next(w, e, w')
    requires e.Redeem? && e.c in w.db.codes && w.db.codes[e.c].consumed.None? ==> w.db.codes[e.c].guest.None?
    ensures Admits(w'.db, s, u, j) <==> AccessAfter(w.db, e, s, u, j)
  {
    match e
    case Tick(elapsed) => TickAccess(w.db, elapsed, w'.db, s, u, j);
    case Bootstrap =>
    case Ask(_, _) => IssueStepAccess(w, e, w', s, u, j);
    case Issue(_, _, _, _, _, _, _) => IssueStepAccess(w, e, w', s, u, j);
    case Redeem(_, _) => RedeemStepAccess(w, e, w', s, u, j);
    case Erase(_, _, _, _) => EraseStepAccess(w, e, w', s, u, j);
    case LateIssue(_, _) => LateStepAccess(w, e, w', s, u, j);
    case LateRedeem(_, _) => LateStepAccess(w, e, w', s, u, j);
    case _ => EndingStepAccess(w, e, w', s, u, j);
  }
}
