/** The bootstrap transaction as it runs: identity by identity over the tables, with its inner loops
    over accounts and codes. */
module GuestInitialize {
  import opened Basics
  import opened GuestTables
  import opened GuestBackfill
  import opened GuestAccess

  // ---- picking from what a query returned ----

  method EarliestTime(s: set<int>) returns (x: Option<int>)
    ensures IsLeast(s, x)
  {
    x := None;
    var rest := s;
    while rest != {}
      invariant rest <= s && IsLeast(s - rest, x)
      decreases rest
    {
      assert (forall y: int :: y !in rest) ==> rest == {};
      var t: int :| t in rest;
      x := if x.Some? && x.value <= t then x else Some(t);
      assert s - (rest - {t}) == (s - rest) + {t};
      rest := rest - {t};
    }
    assert s - rest == s;
  }

  method LatestTime(s: set<int>) returns (x: Option<int>)
    ensures IsGreatest(s, x)
  {
    x := None;
    var rest := s;
    while rest != {}
      invariant rest <= s && IsGreatest(s - rest, x)
      decreases rest
    {
      assert (forall y: int :: y !in rest) ==> rest == {};
      var t: int :| t in rest;
      x := if x.Some? && x.value >= t then x else Some(t);
      assert s - (rest - {t}) == (s - rest) + {t};
      rest := rest - {t};
    }
    assert s - rest == s;
  }

  /** The head of the list sorted by creation time and id. */
  method Oldest(s: set<Id>, created: map<Id, int>) returns (first: Id)
    requires s != {} && s <= created.Keys
    ensures first in s && forall v :: v in s ==> NotAfter(created[first], first, created[v], v)
  {
    first :| first in s;
    var rest := s - {first};
    while rest != {}
      invariant rest <= s && first in s
      invariant forall v :: v in s && v !in rest ==> NotAfter(created[first], first, created[v], v)
      decreases rest
    {
      var v :| v in rest;
      if NotAfter(created[v], v, created[first], first) {
        first := v;
      }
      rest := rest - {v};
    }
  }

  // ---- the inner loops ----

  function UsersEnded(users: map<Id, User>, done: set<Id>, now: int): map<Id, User>
    requires forall u :: u in done && u in users ==> users[u].Guest?
  {
    map u | u in users :: if u in done then users[u].(expires := Some(now)) else users[u]
  }

  function SessionsEnded(sessions: map<Id, Session>, done: set<Id>, now: int): map<Id, Session> {
    map k | k in sessions ::
      if sessions[k].user in done && sessions[k].revoked.None? then sessions[k].(revoked := Some(now)) else sessions[k]
  }

  lemma {:induction false} OneMoreUser(users: map<Id, User>, done: set<Id>, u: Id, now: int)
    requires forall v :: v in done + {u} && v in users ==> users[v].Guest?
    requires u in users
    ensures var before := UsersEnded(users, done, now);
            && u in before && before[u].Guest?
            && UsersEnded(users, done + {u}, now) == before[u := before[u].(expires := Some(now))]
  {
  }

  lemma {:induction false} OneMoreSession(sessions: map<Id, Session>, done: set<Id>, u: Id, now: int)
    ensures SessionsEnded(sessions, done + {u}, now) == Ended(SessionsEnded(sessions, done, now), u, now, false)
  {
  }

  function Losers(active: set<Id>, keeper: Option<Id>): set<Id> {
    set u | u in active && keeper != Some(u)
  }

  /** Every listed account but the keeper ends now, with its open sessions. */
  method EndAccounts(s: GuestAccessService, active: set<Id>, keeper: Option<Id>)
    requires forall u :: u in active ==> u in s.users && s.users[u].Guest?
    modifies s`users, s`sessions
    ensures s.users == UsersEnded(old(s.users), Losers(active, keeper), s.now)
    ensures s.sessions == SessionsEnded(old(s.sessions), Losers(active, keeper), s.now)
  {
    var rest, done := active, {};
    assert UsersEnded(s.users, {}, s.now) == s.users && SessionsEnded(s.sessions, {}, s.now) == s.sessions;
    while rest != {}
      invariant rest <= active && done == Losers(active - rest, keeper)
      invariant s.users == UsersEnded(old(s.users), done, s.now)
      invariant s.sessions == SessionsEnded(old(s.sessions), done, s.now)
      decreases rest
    {
      var u :| u in rest;
      if keeper != Some(u) {
        OneMoreUser(old(s.users), done, u, s.now);
        OneMoreSession(old(s.sessions), done, u, s.now);
        s.users := s.users[u := s.users[u].(expires := Some(s.now))];
        s.sessions := Ended(s.sessions, u, s.now, false);
        done := done + {u};
      }
      rest := rest - {u};
    }
    assert done == Losers(active, keeper);
  }

  /** Every listed code gets the identity, in generation 0. */
  method LabelCodes(s: GuestAccessService, mine: set<Id>, i: Identity)
    requires mine <= s.codes.Keys
    modifies s`codes
    ensures s.codes == map c | c in old(s.codes) ::
              if c in mine then old(s.codes)[c].(identity := Some(i), generation := 0) else old(s.codes)[c]
  {
    var rest := mine;
    while rest != {}
      invariant rest <= mine && s.codes.Keys == old(s.codes).Keys
      invariant s.codes == map c | c in old(s.codes) ::
                  if c in mine - rest then old(s.codes)[c].(identity := Some(i), generation := 0) else old(s.codes)[c]
      decreases rest
    {
      var c :| c in rest;
      s.codes := s.codes[c := s.codes[c].(identity := Some(i), generation := 0)];
      rest := rest - {c};
    }
  }

  /** Every listed code stops working now. */
  method CloseCodes(s: GuestAccessService, listed: set<Id>)
    requires listed <= s.codes.Keys
    modifies s`codes
    ensures s.codes == map c | c in old(s.codes) ::
              if c in listed then old(s.codes)[c].(expires := s.now) else old(s.codes)[c]
  {
    var rest := listed;
    while rest != {}
      invariant rest <= listed && s.codes.Keys == old(s.codes).Keys
      invariant s.codes == map c | c in old(s.codes) ::
                  if c in listed - rest then old(s.codes)[c].(expires := s.now) else old(s.codes)[c]
      decreases rest
    {
      var c :| c in rest;
      s.codes := s.codes[c := s.codes[c].(expires := s.now)];
      rest := rest - {c};
    }
  }

  /** The head of the list sorted newest first. */
  method Latest(s: set<Id>, created: map<Id, int>) returns (first: Id)
    requires s != {} && s <= created.Keys
    ensures first in s && forall v :: v in s ==> NotAfter(created[v], v, created[first], first)
  {
    first :| first in s;
    var rest := s - {first};
    while rest != {}
      invariant rest <= s && first in s
      invariant forall v :: v in s && v !in rest ==> NotAfter(created[v], v, created[first], first)
      decreases rest
    {
      var v :| v in rest;
      if NotAfter(created[first], first, created[v], v) {
        first := v;
      }
      rest := rest - {v};
    }
  }

  function CodesDone(codes: map<Id, Code>, mine: set<Id>, closing: set<Id>, i: Identity, now: int): map<Id, Code> {
    map c | c in codes ::
      if c in mine && c in closing then codes[c].(identity := Some(i), generation := 0, expires := now)
      else if c in mine then codes[c].(identity := Some(i), generation := 0)
      else codes[c]
  }

  predicate NewestOf(codes: map<Id, Code>, usable: set<Id>, c: Id) {
    && c in usable && c in codes
    && forall d :: d in usable && d in codes ==> NotAfter(codes[d].created, d, codes[c].created, c)
  }

  /** Codes are labelled, all usable ones but the newest close, and that one too when `barred`. */
  method SettleCodes(s: GuestAccessService, i: Identity, mine: set<Id>, usable: set<Id>, barred: bool)
    returns (ghost closing: set<Id>)
    requires usable <= mine <= s.codes.Keys
    modifies s`codes
    ensures s.codes == CodesDone(old(s.codes), mine, closing, i, s.now)
    ensures closing <= usable
    ensures forall c :: c in usable ==> (c in closing <==> barred || !NewestOf(old(s.codes), usable, c))
  {
    var created := map c | c in usable :: s.codes[c].created;
    LabelCodes(s, mine, i);
    closing := {};
    if usable != {} {
      var newest := Latest(usable, created);
      CloseCodes(s, usable - {newest});
      closing := usable - {newest};
      if barred {
        CloseCodes(s, usable);
        closing := usable;
      }
      assert NewestOf(old(s.codes), usable, newest);
    }
  }

  // ---- one identity ----

  /** What the queries about an identity returned. */
  datatype Found = Found(mine: set<Id>, guests: set<Id>, active: set<Id>, registered: bool, history: set<int>,
                         usable: set<Id>)

  ghost predicate FoundFor(db: Db, i: Identity, f: Found) {
    && (forall c :: c in f.mine <==> CodeOf(db, i, c))
    && (forall u :: u in f.guests <==> GuestOf(db, i, u))
    && (forall u :: u in f.active <==> ActiveGuest(db, i, u))
    && f.registered == HasRegistered(db.users, i) && f.history == Evidence(db, i)
    && (forall c :: c in f.usable <==> UsableCode(db, i, c))
  }

  lemma {:induction false} GuestsAreLinked(db: Db, i: Identity, mine: set<Id>, guests: set<Id>)
    requires forall c :: c in mine <==> CodeOf(db, i, c)
    requires guests == set c | c in mine && c in db.codes && db.codes[c].guest.Some? &&
                               db.codes[c].guest.value in db.users && db.users[db.codes[c].guest.value].Guest? ::
                         db.codes[c].guest.value
    ensures forall u: Id :: u in guests <==> GuestOf(db, i, u)
  {
    forall u: Id | GuestOf(db, i, u)
      ensures u in guests
    {
      var c :| Links(db, c, u, i);
      assert c in mine;
    }
    forall u: Id | u in guests
      ensures GuestOf(db, i, u)
    {
      var c :| c in mine && db.codes[c].guest == Some(u);
      assert Links(db, c, u, i);
    }
  }

  /** Redeemed codes, accounts, consumed requests and deletion audits, by their moments. */
  method History(s: GuestAccessService, i: Identity, mine: set<Id>, guests: set<Id>) returns (history: set<int>)
    requires forall c :: c in mine <==> CodeOf(s.Tables(), i, c)
    requires forall u: Id :: u in guests <==> GuestOf(s.Tables(), i, u)
    ensures history == Evidence(s.Tables(), i)
  {
    var db := s.Tables();
    history := (set c | c in mine && s.codes[c].consumed.Some? :: s.codes[c].consumed.value) +
      (set u | u in guests :: s.users[u].created) +
      (set r | r in s.requests && s.requests[r].email.identity == i && s.requests[r].status.Consumed? ::
         s.requests[r].created) +
      AuditTimes(db, i);
  }

  method Query(s: GuestAccessService, i: Identity) returns (f: Found)
    ensures FoundFor(s.Tables(), i, f)
  {
    var db := s.Tables();
    var mine := set c | c in s.codes && CodeOf(db, i, c);
    var guests := set c | c in mine && c in s.codes && s.codes[c].guest.Some? && s.codes[c].guest.value in s.users &&
                          s.users[s.codes[c].guest.value].Guest? :: s.codes[c].guest.value;
    GuestsAreLinked(db, i, mine, guests);
    var active := set u | u in guests && Live(s.users[u], s.now);
    var usable := set c | c in mine && s.codes[c].consumed.None? && s.codes[c].expires > s.now;
    var registered := exists u :: u in s.users && s.users[u] == Registered(Normalised(i));
    var history := History(s, i, mine, guests);
    f := Found(mine, guests, active, registered, history, usable);
  }

  lemma {:induction false} CodesMatch(db: Db, i: Identity, f: Found, keeper: Option<Id>, closing: set<Id>, barred: bool)
    requires FoundFor(db, i, f) && barred == Barred(db, i, keeper) && closing <= f.usable
    requires forall c :: c in f.usable ==> (c in closing <==> barred || !NewestOf(db.codes, f.usable, c))
    ensures CodesDone(db.codes, f.mine, closing, i, db.now) == CodesAfter(db, i, keeper)
  {
    forall c | c in f.usable
      ensures NewestOf(db.codes, f.usable, c) <==> NewestUsable(db, i, c)
    {
    }
  }

  lemma {:induction false} AccountsMatch(db: Db, i: Identity, f: Found, keeper: Option<Id>)
    requires FoundFor(db, i, f)
    ensures forall u :: u in Losers(f.active, keeper) ==> u in db.users && db.users[u].Guest?
    ensures UsersEnded(db.users, Losers(f.active, keeper), db.now) == UsersAfter(db, i, keeper)
    ensures SessionsEnded(db.sessions, Losers(f.active, keeper), db.now) == SessionsAfter(db, i, keeper)
  {
  }

  method PickKeeper(s: GuestAccessService, i: Identity, f: Found) returns (keeper: Option<Id>)
    requires FoundFor(s.Tables(), i, f)
    ensures IsKeeper(s.Tables(), i, keeper)
  {
    keeper := None;
    if f.active != {} && !f.registered {
      var created := map u | u in f.active :: s.users[u].created;
      var first := Oldest(f.active, created);
      keeper := Some(first);
    }
  }

  /** Reconciling one identity. Its row does not exist yet, so adding it cannot clash. */
  method ReconcileOne(s: GuestAccessService, i: Identity)
    requires i !in s.trials
    modifies s
    ensures Reconciled(old(s.Tables()), i, s.Tables())
  {
    ghost var db := s.Tables();
    var f := Query(s, i);
    var keeper := PickKeeper(s, i, f);
    var sentTimes := SentTimes(s.Tables(), i);
    EndAccounts(s, f.active, keeper);
    AccountsMatch(db, i, f, keeper);
    var redeemed := EarliestTime(f.history);
    var sent := LatestTime(sentTimes);
    s.trials := s.trials[i := Trial(keeper, redeemed, 0, sent)];
    var barred := f.registered || (f.history != {} && keeper.None?);
    ghost var closing := SettleCodes(s, i, f.mine, f.usable, barred);
    CodesMatch(db, i, f, keeper, closing, barred);
  }

  // ---- all of them ----

  lemma {:induction false} PathGrows(db: Db, order: seq<Identity>, path: seq<Db>, i: Identity, next: Db)
    requires ReconciledAll(db, order, path) && Reconciled(path[|order|], i, next)
    ensures ReconciledAll(db, order + [i], path + [next])
  {
  }

  method BackfillRequests(s: GuestAccessService) returns (ghost order: seq<Identity>, ghost path: seq<Db>)
    requires s.trials == map[]
    modifies s
    ensures Enumerates(order, RequestIdentities(old(s.Tables()))) && ReconciledAll(old(s.Tables()), order, path)
    ensures s.Tables() == path[|order|]
    ensures s.initialized == old(s.initialized) && s.audits == old(s.audits)
  {
    var pending := RequestIdentities(s.Tables());
    ghost var ids := pending;
    order, path := [], [s.Tables()];
    while pending != {}
      invariant pending <= ids && ReconciledAll(old(s.Tables()), order, path) && s.Tables() == path[|order|]
      invariant forall j, k :: 0 <= j < k < |order| ==> order[j] != order[k]
      invariant forall i :: i in order <==> i in ids - pending
      invariant forall i :: i in s.trials ==> i in order
      invariant s.initialized == old(s.initialized) && s.audits == old(s.audits)
      decreases pending
    {
      var i :| i in pending;
      ghost var before := s.Tables();
      ReconcileOne(s, i);
      PathGrows(old(s.Tables()), order, path, i, s.Tables());
      assert forall k :: 0 <= k < |order| ==> order[k] in order && order[k] != i;
      order, path := order + [i], path + [s.Tables()];
      pending := pending - {i};
    }
  }

  /** Audits whose identity no request mentioned. */
  method AddAuditTrials(s: GuestAccessService)
    modifies s`trials
    ensures AuditsAdded(old(s.Tables()), s.Tables())
  {
    var rest := AuditIdentities(s.Tables()) - s.trials.Keys;
    ghost var all := rest;
    ghost var before := s.Tables();
    while rest != {}
      invariant rest <= all && s.trials.Keys == before.trials.Keys + (all - rest)
      invariant forall i :: i in before.trials ==> s.trials[i] == before.trials[i]
      invariant forall i :: i in all - rest ==>
                  && s.trials[i].guest.None? && s.trials[i].generation == 0 && s.trials[i].lastSent.None?
                  && IsLeast(AuditTimes(before, i), s.trials[i].redeemedAt)
      decreases rest
    {
      var i :| i in rest;
      var redeemed := EarliestTime(AuditTimes(s.Tables(), i));
      assert AuditTimes(s.Tables(), i) == AuditTimes(before, i);
      s.trials := s.trials[i := Trial(None, redeemed, 0, None)];
      rest := rest - {i};
    }
  }

  /** Bootstrapping once: afterwards the marker is set and a second call changes nothing. */
  method Initialize(s: GuestAccessService) returns (ghost order: seq<Identity>, ghost path: seq<Db>)
    requires !s.initialized ==> s.trials == map[]
    modifies s
    ensures s.initialized
    ensures old(s.initialized) ==> s.Tables() == old(s.Tables())
    ensures !old(s.initialized) ==> Bootstrapped(old(s.Tables()), order, path, s.Tables())
  {
    if s.initialized {
      order, path := [], [];
      return;
    }
    order, path := BackfillRequests(s);
    AddAuditTrials(s);
    ghost var added := s.Tables();
    s.initialized := true;
    assert s.Tables().(initialized := false) == added;
  }
}
