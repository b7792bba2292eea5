/** Every step keeps the protocol's invariant, and only ever ages the rows it finds. */
module GuestSteps {
  import opened Basics
  import opened GuestTables
  import opened GuestErasure
  import opened GuestBootstrap
  import opened GuestProtocol

  // ---- what follows from ageing alone ----

  lemma {:induction false} GrantAges(db: Db, db': Db, g: Grant)
    requires Evolves(db, db') && GrantRows(db, g) && GrantTrial(db, g)
    ensures GrantRows(db', g) && GrantTrial(db', g)
  {
    assert g.identity in db'.trials && TrialMoves(db.trials[g.identity], db'.trials[g.identity]);
  }

  lemma {:induction false} GrantsAge(w: World, db': Db)
    requires GrantsSound(w) && Evolves(w.db, db')
    ensures GrantsSound(w.(db := db'))
  {
    forall k | 0 <= k < |w.grants|
      ensures GrantRows(db', w.grants[k]) && GrantTrial(db', w.grants[k])
    {
      GrantAges(w.db, db', w.grants[k]);
    }
  }

  /** Codes only close. */
  ghost predicate OnlyCloses(db: Db, db': Db) {
    forall c, i :: Open(db', c, i) ==> Open(db, c, i)
  }

  lemma {:induction false} FewerOpen(db: Db, db': Db)
    requires OneOpen(db) && OnlyCloses(db, db')
    ensures OneOpen(db')
  {
  }

  ghost predicate KeepsLinks(db: Db, db': Db, u: Id, i: Identity) {
    forall c :: Links(db, c, u, i) ==> Links(db', c, u, i)
  }

  lemma {:induction false} LinkStays(db: Db, db': Db, u: Id, i: Identity)
    requires Linked(db, u, i) && KeepsLinks(db, db', u, i)
    ensures Linked(db', u, i)
  {
    var c :| Links(db, c, u, i);
    assert Links(db', c, u, i);
  }

  /** The trial keeps its account, which keeps its row and its links. */
  ghost predicate KeepsTrial(db: Db, db': Db, i: Identity)
    requires i in db'.trials
  {
    var k := db'.trials[i].guest;
    k.Some? ==>
      && i in db.trials && db.trials[i].guest == k && db'.trials[i].redeemedAt == db.trials[i].redeemedAt
      && (k.value in db.users && db.users[k.value].Guest? ==> k.value in db'.users && db'.users[k.value].Guest?)
      && KeepsLinks(db, db', k.value, i)
  }

  lemma {:induction false} TrialStaysSound(db: Db, db': Db, i: Identity)
    requires TrialsSound(db) && i in db'.trials && KeepsTrial(db, db', i)
    ensures TrialSound(db', i)
  {
    var k := db'.trials[i].guest;
    if k.Some? {
      assert TrialSound(db, i);
      LinkStays(db, db', k.value, i);
    }
  }

  lemma {:induction false} TrialsStaySound(db: Db, db': Db)
    requires TrialsSound(db) && forall i :: i in db'.trials ==> KeepsTrial(db, db', i)
    ensures TrialsSound(db')
  {
    forall i | i in db'.trials
      ensures TrialSound(db', i)
    {
      TrialStaysSound(db, db', i);
    }
  }

  predicate SameGenerations(db: Db, db': Db) {
    forall i :: i in db'.trials ==>
      db'.trials[i].generation == (if i in db.trials then db.trials[i].generation else 0)
  }

  /** A step that resets nothing: sound tables and unchanged generations are enough. */
  lemma {:induction false} CarryOn(w: World, db': Db)
    requires Inv(w) && Evolves(w.db, db') && Sound(db') && (!db'.initialized ==> Legacy(db'))
    requires SameGenerations(w.db, db')
    ensures Inv(w.(db := db'))
  {
    GrantsAge(w, db');
    forall i | i in db'.trials
      ensures db'.trials[i].generation == w.resets[i]
    {
      assert i !in w.db.trials ==> i !in w.resets;
    }
    forall i | i in w.resets
      ensures i in db'.trials
    {
      assert i in w.db.trials;
    }
  }

  lemma {:induction false} AgesChain(a: Db, b: Db, c: Db)
    requires Evolves(a, b) && Evolves(b, c)
    ensures UsersAge(a, c) && SessionsAge(a, c) && CodesAge(a, c)
  {
  }

  lemma {:induction false} EvolvesChains(a: Db, b: Db, c: Db)
    requires Evolves(a, b) && Evolves(b, c)
    ensures Evolves(a, c)
  {
    AgesChain(a, b, c);
    forall i | i in a.trials
      ensures i in c.trials && TrialMoves(a.trials[i], c.trials[i])
    {
      assert i in b.trials && TrialMoves(a.trials[i], b.trials[i]) && TrialMoves(b.trials[i], c.trials[i]);
    }
  }

  /** Time passing. */
  lemma {:induction false} TickSound(db: Db, db': Db, elapsed: nat)
    requires Sound(db) && db' == db.(now := db.now + elapsed)
    ensures Evolves(db, db') && Sound(db')
  {
    FewerOpen(db, db');
    TrialsStaySound(db, db');
  }

  // ---- taking the lock and finding the request ----

  lemma {:induction false} LockSound(db: Db, i: Identity, db': Db)
    requires Sound(db) && db' == Locked(db, i)
    ensures Evolves(db, db') && Sound(db') && i in db'.trials
  {
    if i !in db.trials {
      TrialAdded(db, i, db');
    }
  }

  lemma {:induction false} TrialAdded(db: Db, i: Identity, db': Db)
    requires Sound(db) && i !in db.trials && db' == db.(trials := db.trials[i := NEW_TRIAL])
    ensures Evolves(db, db') && Sound(db')
  {
    FewerOpen(db, db');
    assert forall c :: c in db.codes ==> IdentityOf(db', c) == IdentityOf(db, c);
    TrialsStaySound(db, db');
  }

  lemma {:induction false} RowSound(db: Db, i: Identity, row: Id, db': Db)
    requires Sound(db) && (row in db.requests || row == db.nextId) && db' == WithRow(db, i, row)
    ensures Evolves(db, db') && Sound(db') && row in db'.requests
  {
    FewerOpen(db, db');
    TrialsStaySound(db, db');
  }

  // ---- issuing ----

  lemma {:induction false} ClosedStaysClosed(db: Db, i: Identity, db': Db, c: Id, j: Identity)
    requires c in db.codes && c in db'.codes && db'.now == db.now && db'.codes[c] == Closed(db.codes, i, db.now)[c]
    requires Open(db', c, j)
    ensures Open(db, c, j) && j != i
  {
  }

  lemma {:induction false} IssueOpens(db: Db, i: Identity, row: Id, expires: int, db': Db)
    requires IdsFresh(db) && OneOpen(db) && i in db.trials && row in db.requests && db' == IssueOn(db, i, row, expires)
    ensures OneOpen(db')
  {
    forall c, d, j | Open(db', c, j) && Open(db', d, j)
      ensures c == d
    {
      if c != db.nextId {
        ClosedStaysClosed(db, i, db', c, j);
      }
      if d != db.nextId {
        ClosedStaysClosed(db, i, db', d, j);
      }
    }
  }

  lemma {:induction false} IssueIds(db: Db, i: Identity, row: Id, expires: int, db': Db)
    requires IdsFresh(db) && i in db.trials && row in db.requests && db' == IssueOn(db, i, row, expires)
    ensures IdsFresh(db')
  {
    assert row < db.nextId;
  }

  lemma {:induction false} IssueEvolves(db: Db, i: Identity, row: Id, expires: int, db': Db)
    requires IdsFresh(db) && i in db.trials && row in db.requests && db' == IssueOn(db, i, row, expires)
    requires !Waiting(db.trials[i], db.now, 0)
    ensures Evolves(db, db')
  {
  }

  lemma {:induction false} IssueCodes(db: Db, i: Identity, row: Id, expires: int, db': Db)
    requires CodesSound(db) && i in db.trials && row in db.requests && db.requests[row].email.identity == i
    requires db' == IssueOn(db, i, row, expires)
    ensures CodesSound(db')
  {
    forall c | c in db'.codes
      ensures CodeSound(db', c)
    {
      assert c != db.nextId ==> CodeSound(db, c);
    }
  }

  lemma {:induction false} IssueLinks(db: Db, i: Identity, row: Id, expires: int, db': Db, u: Id, j: Identity)
    requires IdsFresh(db) && i in db.trials && row in db.requests && db' == IssueOn(db, i, row, expires)
    ensures KeepsLinks(db, db', u, j)
  {
  }

  lemma {:induction false} IssueSound(db: Db, i: Identity, row: Id, expires: int, db': Db)
    requires Sound(db) && i in db.trials && row in db.requests && db.requests[row].email.identity == i
    requires !Waiting(db.trials[i], db.now, 0) && db' == IssueOn(db, i, row, expires)
    ensures Evolves(db, db') && Sound(db')
  {
    IssueOpens(db, i, row, expires, db');
    IssueIds(db, i, row, expires, db');
    IssueEvolves(db, i, row, expires, db');
    IssueCodes(db, i, row, expires, db');
    forall j | j in db'.trials
      ensures KeepsTrial(db, db', j)
    {
      if db'.trials[j].guest.Some? {
        IssueLinks(db, i, row, expires, db', db'.trials[j].guest.value, j);
      }
    }
    TrialsStaySound(db, db');
  }

  // ---- redeeming ----

  /** A labelled code's trial exists, so taking its lock changes nothing. */
  lemma {:induction false} RedeemFacts(db: Db, c: Id, ttl: int, db': Db, g: Grant)
    requires Sound(db) && RedeemUser(db, c).Ok? && db' == RedeemTx(db, c, ttl) && g == GrantOf(db, c, ttl)
    ensures c in db.codes && db.codes[c].identity == Some(g.identity) && g.identity in db.trials
    ensures db.codes[c].request.Some? && db.codes[c].request.value in db.requests
    ensures db.requests[db.codes[c].request.value].email.identity == g.identity
    ensures g.generation == db.trials[g.identity].generation && g.code == c && g.at == db.now && g.ttl == ttl
    ensures db'.now == db.now && db'.initialized == db.initialized && db'.audits == db.audits
    ensures db'.codes == db.codes[c := db.codes[c].(consumed := Some(db.now), guest := Some(g.user))]
    ensures db.codes[c].consumed.None?
    ensures db'.requests ==
              db.requests[db.codes[c].request.value := db.requests[db.codes[c].request.value].(status := Consumed)]
    ensures db'.sessions == db.sessions[g.session := Session(g.user, Some(g.expires), None)]
    ensures g.session >= db.nextId && db'.nextId == g.session + 1
    ensures g.isNew <==> db.trials[g.identity].redeemedAt.None?
    ensures g.isNew ==>
              && g.user == db.nextId && g.session == db.nextId + 1 && g.expires == db.now + ttl
              && db'.users == db.users[g.user := Guest(Some(g.expires), db.now)]
              && db'.trials == db.trials[g.identity :=
                   db.trials[g.identity].(guest := Some(g.user), redeemedAt := Some(db.now))]
    ensures !g.isNew ==>
              && db'.users == db.users && db'.trials == db.trials && g.session == db.nextId
              && db.trials[g.identity].guest == Some(g.user)
              && g.user in db.users && Live(db.users[g.user], db.now) && db.users[g.user].expires.value == g.expires
  {
    assert CodeSound(db, c);
  }

  lemma {:induction false} RedeemAges(db: Db, c: Id, ttl: int, db': Db, g: Grant)
    requires Sound(db) && RedeemUser(db, c).Ok? && db' == RedeemTx(db, c, ttl) && g == GrantOf(db, c, ttl)
    ensures UsersAge(db, db') && SessionsAge(db, db') && CodesAge(db, db')
  {
    RedeemFacts(db, c, ttl, db', g);
  }

  lemma {:induction false} RedeemMoves(db: Db, c: Id, ttl: int, db': Db, g: Grant)
    requires Sound(db) && RedeemUser(db, c).Ok? && db' == RedeemTx(db, c, ttl) && g == GrantOf(db, c, ttl)
    ensures TrialsMove(db, db') && RegisteredStay(db, db') && NoNewOwners(db, db')
    ensures db'.now == db.now && db'.nextId >= db.nextId && db'.initialized == db.initialized
  {
    RedeemFacts(db, c, ttl, db', g);
  }

  lemma {:induction false} RedeemEvolves(db: Db, c: Id, ttl: int, db': Db, g: Grant)
    requires Sound(db) && RedeemUser(db, c).Ok? && db' == RedeemTx(db, c, ttl) && g == GrantOf(db, c, ttl)
    ensures Evolves(db, db')
  {
    RedeemAges(db, c, ttl, db', g);
    RedeemMoves(db, c, ttl, db', g);
  }

  lemma {:induction false} RedeemIds(db: Db, c: Id, ttl: int, db': Db, g: Grant)
    requires Sound(db) && RedeemUser(db, c).Ok? && db' == RedeemTx(db, c, ttl) && g == GrantOf(db, c, ttl)
    ensures IdsFresh(db')
  {
    RedeemFacts(db, c, ttl, db', g);
  }

  lemma {:induction false} RedeemCodes(db: Db, c: Id, ttl: int, db': Db, g: Grant)
    requires Sound(db) && RedeemUser(db, c).Ok? && db' == RedeemTx(db, c, ttl) && g == GrantOf(db, c, ttl)
    ensures CodesSound(db') && OneOpen(db')
  {
    RedeemFacts(db, c, ttl, db', g);
    FewerOpen(db, db');
    forall d | d in db'.codes
      ensures CodeSound(db', d)
    {
      assert CodeSound(db, d);
    }
  }

  lemma {:induction false} RedeemTrials(db: Db, c: Id, ttl: int, db': Db, g: Grant)
    requires Sound(db) && RedeemUser(db, c).Ok? && db' == RedeemTx(db, c, ttl) && g == GrantOf(db, c, ttl)
    ensures TrialsSound(db')
  {
    RedeemFacts(db, c, ttl, db', g);
    assert Links(db', c, g.user, g.identity);
    forall j | j in db'.trials
      ensures TrialSound(db', j)
    {
      if j != g.identity {
        assert TrialSound(db, j);
        assert KeepsTrial(db, db', j);
        TrialStaysSound(db, db', j);
      } else {
        assert TrialSound(db, j);
      }
    }
  }

  lemma {:induction false} RedeemSound(db: Db, c: Id, ttl: int, db': Db)
    requires Sound(db) && RedeemUser(db, c).Ok? && db' == RedeemTx(db, c, ttl)
    ensures Evolves(db, db') && Sound(db')
  {
    var g := GrantOf(db, c, ttl);
    RedeemEvolves(db, c, ttl, db', g);
    RedeemIds(db, c, ttl, db', g);
    RedeemCodes(db, c, ttl, db', g);
    RedeemTrials(db, c, ttl, db', g);
  }

  lemma {:induction false} NewGrantHolds(db: Db, c: Id, ttl: int, db': Db, g: Grant)
    requires Sound(db) && RedeemUser(db, c).Ok? && db' == RedeemTx(db, c, ttl) && g == GrantOf(db, c, ttl)
    ensures GrantRows(db', g) && GrantTrial(db', g)
  {
    RedeemFacts(db, c, ttl, db', g);
  }

  lemma {:induction false} NewGrantFollows(db: Db, c: Id, ttl: int, db': Db, g: Grant, a: Grant)
    requires Sound(db) && RedeemUser(db, c).Ok? && db' == RedeemTx(db, c, ttl) && g == GrantOf(db, c, ttl)
    requires GrantRows(db, a) && GrantTrial(db, a)
    ensures Follows(a, g)
  {
    RedeemFacts(db, c, ttl, db', g);
  }

  lemma {:induction false} RedeemGrants(w: World, c: Id, ttl: int, db': Db, g: Grant)
    requires Sound(w.db) && GrantsSound(w) && Ordered(w.grants)
    requires RedeemUser(w.db, c).Ok? && db' == RedeemTx(w.db, c, ttl) && g == GrantOf(w.db, c, ttl)
    ensures GrantsSound(w.(db := db', grants := w.grants + [g])) && Ordered(w.grants + [g])
  {
    RedeemSound(w.db, c, ttl, db');
    GrantsAge(w, db');
    NewGrantHolds(w.db, c, ttl, db', g);
    forall j | 0 <= j < |w.grants|
      ensures Follows(w.grants[j], g)
    {
      NewGrantFollows(w.db, c, ttl, db', g, w.grants[j]);
    }
  }

  lemma {:induction false} RedeemKeeps(w: World, c: Id, ttl: int, w': World)
    requires Inv(w) && w.db.initialized && RedeemUser(w.db, c).Ok?
    requires w' == w.(db := RedeemTx(w.db, c, ttl), grants := w.grants + [GrantOf(w.db, c, ttl)])
    ensures Evolves(w.db, w'.db) && Inv(w')
  {
    var g := GrantOf(w.db, c, ttl);
    RedeemSound(w.db, c, ttl, w'.db);
    RedeemGrants(w, c, ttl, w'.db, g);
    assert Counted(w') && w'.db.initialized by {
      RedeemFacts(w.db, c, ttl, w'.db, g);
    }
  }

  // ---- resetting ----

  /** The reset proper, the identity's row being there. */
  lemma {:induction false} ResetIds(db: Db, i: Identity, db': Db)
    requires IdsFresh(db) && i in db.trials && db' == ResetTx(db, i)
    ensures IdsFresh(db')
  {
  }

  lemma {:induction false} ResetEvolves(db: Db, i: Identity, db': Db)
    requires IdsFresh(db) && i in db.trials && db' == ResetTx(db, i)
    ensures Evolves(db, db')
  {
  }

  lemma {:induction false} ResetCodes(db: Db, i: Identity, db': Db)
    requires CodesSound(db) && OneOpen(db) && i in db.trials && db' == ResetTx(db, i)
    ensures CodesSound(db') && OneOpen(db')
  {
    forall c, j | Open(db', c, j)
      ensures Open(db, c, j)
    {
      ClosedStaysClosed(db, i, db', c, j);
    }
    FewerOpen(db, db');
    forall c | c in db'.codes
      ensures CodeSound(db', c)
    {
      assert CodeSound(db, c);
    }
  }

  lemma {:induction false} ResetTrials(db: Db, i: Identity, db': Db)
    requires TrialsSound(db) && i in db.trials && db' == ResetTx(db, i)
    ensures TrialsSound(db')
  {
    forall j | j in db'.trials
      ensures KeepsTrial(db, db', j)
    {
      assert forall c, u :: Links(db, c, u, j) ==> Links(db', c, u, j);
    }
    TrialsStaySound(db, db');
  }

  lemma {:induction false} ResetSound(db: Db, i: Identity, db': Db)
    requires Sound(db) && i in db.trials && db' == ResetTx(db, i)
    ensures Evolves(db, db') && Sound(db')
  {
    ResetIds(db, i, db');
    ResetEvolves(db, i, db');
    ResetCodes(db, i, db');
    ResetTrials(db, i, db');
  }

  // ---- steps that touch neither labelled codes nor trials ----

  lemma {:induction false} SignupSound(db: Db, i: Identity, db': Db)
    requires Sound(db) && db' == SignupTx(db, i, false)
    ensures Evolves(db, db') && Sound(db')
  {
    FewerOpen(db, db');
    assert forall c :: c in db.codes ==> IdentityOf(db', c) == IdentityOf(db, c);
    TrialsStaySound(db, db');
  }

  lemma {:induction false} LogoutSound(db: Db, s: Id, db': Db)
    requires Sound(db) && s in db.sessions
    requires db' == db.(sessions := db.sessions[s := db.sessions[s].(revoked := Some(db.now))])
    ensures Evolves(db, db') && Sound(db')
  {
    FewerOpen(db, db');
    assert forall c :: c in db.codes ==> IdentityOf(db', c) == IdentityOf(db, c);
    TrialsStaySound(db, db');
  }

  lemma {:induction false} LateIssueEvolves(db: Db, request: Option<Id>, ttl: int, db': Db)
    requires IdsFresh(db) && db' == LateIssueTx(db, request, ttl)
    requires request.Some? ==> request.value in db.requests
    ensures Evolves(db, db') && IdsFresh(db')
  {
  }

  lemma {:induction false} LateIssueSound(db: Db, request: Option<Id>, ttl: int, db': Db)
    requires Sound(db) && db' == LateIssueTx(db, request, ttl)
    requires request.Some? ==> request.value in db.requests
    ensures Evolves(db, db') && Sound(db')
  {
    LateIssueEvolves(db, request, ttl, db');
    FewerOpen(db, db');
    assert forall c :: c in db.codes ==> IdentityOf(db', c) == IdentityOf(db, c);
    TrialsStaySound(db, db');
  }

  lemma {:induction false} LateRedeemEvolves(db: Db, c: Id, ttl: int, db': Db)
    requires IdsFresh(db) && CanLateRedeem(db, c) && db' == LateRedeemTx(db, c, ttl)
    ensures Evolves(db, db') && IdsFresh(db')
  {
  }

  lemma {:induction false} LateRedeemTables(db: Db, c: Id, ttl: int, db': Db)
    requires CodesSound(db) && OneOpen(db) && CanLateRedeem(db, c) && db' == LateRedeemTx(db, c, ttl)
    ensures CodesSound(db') && OneOpen(db')
  {
    FewerOpen(db, db');
    assert forall d :: d in db.codes ==> IdentityOf(db', d) == IdentityOf(db, d);
  }

  lemma {:induction false} LateRedeemSound(db: Db, c: Id, ttl: int, db': Db)
    requires Sound(db) && CanLateRedeem(db, c) && db' == LateRedeemTx(db, c, ttl)
    ensures Evolves(db, db') && Sound(db')
  {
    LateRedeemEvolves(db, c, ttl, db');
    LateRedeemTables(db, c, ttl, db');
    forall i | i in db'.trials
      ensures KeepsTrial(db, db', i)
    {
      assert TrialSound(db, i);
    }
    TrialsStaySound(db, db');
  }

  // ---- erasing ----

  lemma {:induction false} AtMostOne(s: set<Identity>, a: Identity, b: Identity)
    requires |s| <= 1 && a in s && b in s
    ensures a == b
  {
    assert |s - {a}| == |s| - 1;
    assert a != b ==> b in s - {a};
  }

  lemma {:induction false} LinkedIsOwned(db: Db, u: Id, found: Option<Identity>, i: Identity)
    requires Linked(db, u, i)
    ensures i in OwnedIdentities(db, u, found)
  {
    var c :| Links(db, c, u, i);
    assert c in OwnedCodes(db, u, found);
  }

  /** When the account's requests agree on one email, no other trial names the account. */
  lemma {:induction false} NoOtherTrial(db: Db, u: Id, found: Option<Identity>, j: Identity)
    requires TrialsSound(db) && FoundTrial(db, u, found) && |OwnedIdentities(db, u, found)| <= 1
    requires j in db.trials && db.trials[j].guest == Some(u)
    ensures found == Some(j)
  {
    assert TrialSound(db, j) && TrialSound(db, found.value);
    LinkedIsOwned(db, u, found, j);
    LinkedIsOwned(db, u, found, found.value);
    AtMostOne(OwnedIdentities(db, u, found), j, found.value);
  }

  lemma {:induction false} RemainingKeepRequests(db: Db, u: Id, found: Option<Identity>, identity: Option<Identity>,
                                                 db': Db, c: Id)
    requires Erased(db, u, found, identity, db') && c in db'.codes
    ensures c in db.codes && db'.codes[c] == db.codes[c] && IdentityOf(db', c) == IdentityOf(db, c)
  {
    var r := db.codes[c].request;
    if r.Some? {
      assert !Orphaned(db, u, found, r.value);
    }
  }

  lemma {:induction false} EraseEvolves(db: Db, u: Id, found: Option<Identity>, identity: Option<Identity>, db': Db)
    requires Erased(db, u, found, identity, db')
    ensures Evolves(db, db')
  {
  }

  lemma {:induction false} EraseIds(db: Db, u: Id, found: Option<Identity>, identity: Option<Identity>, db': Db)
    requires IdsFresh(db) && Erased(db, u, found, identity, db')
    ensures IdsFresh(db')
  {
  }

  lemma {:induction false} EraseCodes(db: Db, u: Id, found: Option<Identity>, identity: Option<Identity>, db': Db)
    requires CodesSound(db) && OneOpen(db) && Erased(db, u, found, identity, db')
    ensures CodesSound(db') && OneOpen(db')
  {
    forall c | c in db'.codes
      ensures CodeSound(db', c)
    {
      assert CodeSound(db, c);
      RemainingKeepRequests(db, u, found, identity, db', c);
    }
    FewerOpen(db, db');
  }

  lemma {:induction false} EraseLinks(db: Db, u: Id, found: Option<Identity>, identity: Option<Identity>, db': Db,
                                      k: Id, j: Identity)
    requires Erased(db, u, found, identity, db') && k != u
    ensures KeepsLinks(db, db', k, j)
  {
    forall c | Links(db, c, k, j)
      ensures Links(db', c, k, j)
    {
      assert !Owned(db, u, found, c);
      RemainingKeepRequests(db, u, found, identity, db', c);
    }
  }

  lemma {:induction false} EraseTrials(db: Db, u: Id, found: Option<Identity>, identity: Option<Identity>, db': Db)
    requires TrialsSound(db) && Erased(db, u, found, identity, db')
    ensures TrialsSound(db')
  {
    forall j | j in db'.trials
      ensures KeepsTrial(db, db', j)
    {
      var k := db'.trials[j].guest;
      if k.Some? {
        if k.value == u {
          NoOtherTrial(db, u, found, j);
          assert false;
        }
        EraseLinks(db, u, found, identity, db', k.value, j);
      }
    }
    TrialsStaySound(db, db');
  }

  lemma {:induction false} EraseSound(db: Db, u: Id, found: Option<Identity>, identity: Option<Identity>, db': Db)
    requires Sound(db) && Erased(db, u, found, identity, db')
    ensures Evolves(db, db') && Sound(db')
  {
    EraseEvolves(db, u, found, identity, db');
    EraseIds(db, u, found, identity, db');
    EraseCodes(db, u, found, identity, db');
    EraseTrials(db, u, found, identity, db');
  }

  // ---- the steps, one by one ----

  lemma {:induction false} TickKeeps(w: World, elapsed: nat, db': Db)
    requires Inv(w) && db' == w.db.(now := w.db.now + elapsed)
    ensures Evolves(w.db, db') && Inv(w.(db := db'))
  {
    TickSound(w.db, db', elapsed);
    CarryOn(w, db');
  }

  lemma {:induction false} PickedRowFits(db: Db, i: Identity, named: Option<Id>, row: Id, l: Db)
    requires IdsFresh(db) && PickedRow(db, i, named, row) && NamedIsUsable(db, i, named)
    requires l.requests == db.requests && l.nextId == db.nextId
    ensures row in db.requests || row == db.nextId
    ensures WithRow(l, i, row).requests[row].email.identity == i
  {
  }

  /** Taking the lock and finding or adding the request. */
  lemma {:induction false} RowTaken(db: Db, i: Identity, row: Id, r: Db)
    requires Sound(db) && (row in db.requests || row == db.nextId) && r == AskTx(db, i, row)
    ensures Evolves(db, r) && Sound(r) && i in r.trials && row in r.requests
  {
    var l := Locked(db, i);
    LockSound(db, i, l);
    RowSound(l, i, row, r);
    EvolvesChains(db, l, r);
  }

  lemma {:induction false} AskKeeps(w: World, i: Identity, row: Id, db': Db)
    requires Inv(w) && CanAsk(w.db, i, row) && db' == AskTx(w.db, i, row)
    ensures Evolves(w.db, db') && Inv(w.(db := db'))
  {
    RowTaken(w.db, i, row, db');
    assert SameGenerations(w.db, db');
    CarryOn(w, db');
  }

  lemma {:induction false} NotWaitingThen(db: Db, i: Identity, named: Option<Id>, row: Id, cooldown: nat, budget: bool,
                                          r: Db)
    requires IssueRefusal(db, i, named, cooldown, budget).None? && r == AskTx(db, i, row)
    ensures i in r.trials && row in r.requests && !Waiting(r.trials[i], r.now, 0)
  {
    assert !Waiting(Locked(db, i).trials[i], db.now, cooldown);
  }

  lemma {:induction false} IssueFollows(db: Db, i: Identity, row: Id, expires: int, r: Db, db': Db)
    requires Evolves(db, r) && Sound(r) && i in r.trials && row in r.requests && r.requests[row].email.identity == i
    requires !Waiting(r.trials[i], r.now, 0) && db' == IssueOn(r, i, row, expires)
    ensures Evolves(db, db') && Sound(db')
  {
    IssueSound(r, i, row, expires, db');
    EvolvesChains(db, r, db');
  }

  lemma {:induction false} IssueTxSound(db: Db, e: Event, db': Db)
    requires Sound(db) && e.Issue? && CanIssue(db, e.email.identity, e.named, e.row, e.cooldown, e.budget)
    requires db' == IssueTx(db, e.email.identity, e.row, e.ttl)
    ensures Evolves(db, db') && Sound(db')
  {
    var i := e.email.identity;
    var r := AskTx(db, i, e.row);
    assert (e.row in db.requests || e.row == db.nextId) && r.requests[e.row].email.identity == i by {
      PickedRowFits(db, i, e.named, e.row, Locked(db, i));
    }
    NotWaitingThen(db, i, e.named, e.row, e.cooldown, e.budget, r);
    RowTaken(db, i, e.row, r);
    IssueFollows(db, i, e.row, CodeExpiry(db, i, e.ttl), r, db');
  }

  lemma {:induction false} IssueKeeps(w: World, e: Event, db': Db)
    requires Inv(w) && e.Issue? && CanIssue(w.db, e.email.identity, e.named, e.row, e.cooldown, e.budget)
    requires db' == IssueTx(w.db, e.email.identity, e.row, e.ttl)
    ensures Evolves(w.db, db') && Inv(w.(db := db'))
  {
    IssueTxSound(w.db, e, db');
    assert SameGenerations(w.db, db');
    CarryOn(w, db');
  }

  lemma {:induction false} SignupKeeps(w: World, i: Identity, guests: bool, db': Db)
    requires Inv(w) && (guests ==> w.db.initialized) && db' == SignupTx(w.db, i, guests)
    ensures Evolves(w.db, db') && Inv(w.(db := db'))
  {
    var l := if guests then Locked(w.db, i) else w.db;
    LockSound(w.db, i, Locked(w.db, i));
    SignupSound(l, i, db');
    if guests {
      EvolvesChains(w.db, l, db');
    }
    CarryOn(w, db');
  }

  lemma {:induction false} ResetTxSound(db: Db, i: Identity, db': Db)
    requires Sound(db) && db' == ResetTx(db, i)
    ensures Evolves(db, db') && Sound(db')
  {
    if i in db.trials {
      ResetSound(db, i, db');
    } else {
      var l := Locked(db, i);
      LockSound(db, i, l);
      assert db' == ResetTx(l, i);
      ResetSound(l, i, db');
      EvolvesChains(db, l, db');
    }
  }

  lemma {:induction false} ResetCounts(w: World, i: Identity, db': Db)
    requires Counted(w) && db' == ResetTx(w.db, i)
    ensures Counted(w.(db := db', resets := w.resets + multiset{i}))
  {
    assert i !in w.db.trials ==> i !in w.resets;
  }

  lemma {:induction false} ResetKeeps(w: World, i: Identity, db': Db)
    requires Inv(w) && w.db.initialized && db' == ResetTx(w.db, i)
    ensures Evolves(w.db, db') && Inv(w.(db := db', resets := w.resets + multiset{i}))
  {
    ResetTxSound(w.db, i, db');
    ResetCounts(w, i, db');
    GrantsAge(w, db');
  }

  lemma {:induction false} EraseKeeps(w: World, u: Id, found: Option<Identity>, identity: Option<Identity>, db': Db)
    requires Inv(w) && Erased(w.db, u, found, identity, db')
    ensures Evolves(w.db, db') && Inv(w.(db := db'))
  {
    EraseSound(w.db, u, found, identity, db');
    CarryOn(w, db');
  }

  lemma {:induction false} LogoutKeeps(w: World, s: Id, db': Db)
    requires Inv(w) && s in w.db.sessions
    requires db' == w.db.(sessions := w.db.sessions[s := w.db.sessions[s].(revoked := Some(w.db.now))])
    ensures Evolves(w.db, db') && Inv(w.(db := db'))
  {
    LogoutSound(w.db, s, db');
    CarryOn(w, db');
  }

  lemma {:induction false} LateIssueKeeps(w: World, request: Option<Id>, ttl: int, db': Db)
    requires Inv(w) && db' == LateIssueTx(w.db, request, ttl)
    requires request.Some? ==> request.value in w.db.requests
    ensures Evolves(w.db, db') && Inv(w.(db := db'))
  {
    LateIssueSound(w.db, request, ttl, db');
    CarryOn(w, db');
  }

  lemma {:induction false} LateRedeemKeeps(w: World, c: Id, ttl: int, db': Db)
    requires Inv(w) && CanLateRedeem(w.db, c) && db' == LateRedeemTx(w.db, c, ttl)
    ensures Evolves(w.db, db') && Inv(w.(db := db'))
  {
    LateRedeemSound(w.db, c, ttl, db');
    CarryOn(w, db');
  }
}
