/** Which account keeps a trial through the bootstrap, and when it is still live afterwards. */
module GuestKeepers {
  import opened Basics
  import opened GuestTables
  import opened GuestBackfill
  import opened GuestBackfillFacts
  import opened GuestBootstrap

  lemma {:induction false} TrialStays(db: Db, order: seq<Identity>, path: seq<Db>, j: nat, n: nat)
    requires Enumerates(order, RequestIdentities(db)) && ReconciledAll(db, order, path) && j < n <= |order|
    ensures order[j] in path[j + 1].trials && order[j] in path[n].trials
    ensures path[n].trials[order[j]] == path[j + 1].trials[order[j]]
  {
    assert Reconciled(path[j], order[j], path[j + 1]);
    if n > j + 1 {
      TrialStays(db, order, path, j, n - 1);
      assert Reconciled(path[n - 1], order[n - 1], path[n - 1 + 1]);
    }
  }

  /** An account changes only in the turn of an identity that had it and did not keep it. */
  lemma {:induction false} NeverRetired(db: Db, order: seq<Identity>, path: seq<Db>, n: nat, u: Id)
    requires db.trials == map[] && Enumerates(order, RequestIdentities(db)) && ReconciledAll(db, order, path)
    requires n <= |order| && u in db.users
    requires forall j :: 0 <= j < n && GuestOf(db, order[j], u) ==>
               order[j] in path[j + 1].trials && path[j + 1].trials[order[j]].guest == Some(u)
    ensures u in path[n].users && path[n].users[u] == db.users[u]
  {
    if n > 0 {
      NeverRetired(db, order, path, n - 1, u);
      SettlePath(db, order, path, n - 1);
      SameGuests(db, path[n - 1], order[n - 1]);
      assert Reconciled(path[n - 1], order[n - 1], path[n - 1 + 1]);
    }
  }

  ghost predicate KeptEverywhere(db: Db, db': Db, k: Id) {
    forall j :: GuestOf(db, j, k) ==> j in db'.trials && db'.trials[j].guest == Some(k)
  }

  lemma {:induction false} KeptIsNeverRetired(db: Db, order: seq<Identity>, path: seq<Db>, db': Db, k: Id)
    requires Legacy(db) && Bootstrapped(db, order, path, db') && k in db.users && KeptEverywhere(db, db', k)
    ensures k in db'.users && db'.users[k] == db.users[k]
  {
    assert db'.(initialized := false).trials == db'.trials;
    forall j | 0 <= j < |order| && GuestOf(db, order[j], k)
      ensures order[j] in path[j + 1].trials && path[j + 1].trials[order[j]].guest == Some(k)
    {
      TrialStays(db, order, path, j, |order|);
    }
    NeverRetired(db, order, path, |order|, k);
  }

  lemma {:induction false} KeeperWasActive(db: Db, order: seq<Identity>, path: seq<Db>, db': Db, i: Identity, k: Id)
    requires Legacy(db) && Bootstrapped(db, order, path, db')
    requires i in db'.trials && db'.trials[i].guest == Some(k)
    ensures k in db'.users && ActiveGuest(db, i, k) && !HasRegistered(db.users, i)
  {
    var last := Reached(db, order, path, db');
    assert i in last.trials && Settled(db, last, i);
  }

  /** The recorded account is live afterwards exactly when every identity it was linked to kept it. */
  lemma {:induction false} KeeperLivesIff(db: Db, order: seq<Identity>, path: seq<Db>, db': Db, i: Identity, k: Id)
    requires Legacy(db) && Bootstrapped(db, order, path, db')
    requires i in db'.trials && db'.trials[i].guest == Some(k)
    ensures k in db'.users && (Live(db'.users[k], db'.now) <==> KeptEverywhere(db, db', k))
  {
    KeeperWasActive(db, order, path, db', i, k);
    assert db'.now == db.now by {
      var last := Reached(db, order, path, db');
    }
    if Live(db'.users[k], db'.now) {
      forall j | GuestOf(db, j, k)
        ensures j in db'.trials && db'.trials[j].guest == Some(k)
      {
        OnlyTheKeeperIsLive(db, order, path, db', k, j);
      }
    } else if KeptEverywhere(db, db', k) {
      KeptIsNeverRetired(db, order, path, db', k);
    }
  }

  // ---- which account an identity keeps, read off the legacy tables ----

  /** Every identity the account is linked to would, by itself, keep this account. */
  ghost predicate FirstEverywhere(db: Db, k: Id) {
    forall j :: GuestOf(db, j, k) ==> IsKeeper(db, j, Some(k))
  }

  lemma {:induction false} FirstIsKept(db: Db, i: Identity, db': Db, k: Id)
    requires Reconciled(db, i, db') && IsKeeper(db, i, Some(k))
    ensures db'.trials[i].guest == Some(k)
  {
    assert ActiveGuest(db, i, k);
  }

  /** Turns that leave the account alone leave it first wherever it was. */
  lemma {:induction false} StaysFirst(db: Db, mid: Db, j: Identity, k: Id)
    requires SameHistory(db, mid) && IsKeeper(db, j, Some(k)) && k in mid.users && mid.users[k] == db.users[k]
    ensures IsKeeper(mid, j, Some(k))
  {
    SameGuests(db, mid, j);
    forall v | ActiveGuest(mid, j, v)
      ensures NotAfter(mid.users[k].created, k, mid.users[v].created, v)
    {
      assert ActiveGuest(db, j, v) && mid.users[v].created == db.users[v].created;
    }
  }

  lemma {:induction false} FirstStaysUntouched(db: Db, order: seq<Identity>, path: seq<Db>, n: nat, k: Id)
    requires db.trials == map[] && Enumerates(order, RequestIdentities(db)) && ReconciledAll(db, order, path)
    requires n <= |order| && k in db.users && FirstEverywhere(db, k)
    ensures k in path[n].users && path[n].users[k] == db.users[k]
    ensures forall m :: 0 <= m < n && GuestOf(db, order[m], k) ==>
              order[m] in path[m + 1].trials && path[m + 1].trials[order[m]].guest == Some(k)
  {
    if n > 0 {
      FirstStaysUntouched(db, order, path, n - 1, k);
      SettlePath(db, order, path, n - 1);
      assert Reconciled(path[n - 1], order[n - 1], path[n - 1 + 1]);
      if GuestOf(db, order[n - 1], k) {
        StaysFirst(db, path[n - 1], order[n - 1], k);
        FirstIsKept(path[n - 1], order[n - 1], path[n], k);
      }
      NeverRetired(db, order, path, n, k);
    }
  }

  /** In every order the identity keeps its first active account, and keeps it live, when every other
      identity linked to that account would keep it too. Without such an account it keeps none. */
  lemma {:induction false} KeptInEveryOrder(db: Db, order: seq<Identity>, path: seq<Db>, db': Db, i: Identity,
                                            k: Option<Id>)
    requires Legacy(db) && Bootstrapped(db, order, path, db') && i in RequestIdentities(db)
    requires IsKeeper(db, i, k) && (k.Some? ==> FirstEverywhere(db, k.value))
    ensures i in db'.trials && db'.trials[i].guest == k
    ensures k.Some? ==> k.value in db'.users && Live(db'.users[k.value], db'.now)
  {
    assert db'.(initialized := false).trials == db'.trials;
    var n :| 0 <= n < |order| && order[n] == i;
    TrialStays(db, order, path, n, |order|);
    if k.Some? {
      FirstStaysUntouched(db, order, path, |order|, k.value);
      assert db'.now == db.now by {
        var last := Reached(db, order, path, db');
      }
    } else if db'.trials[i].guest.Some? {
      NoneToKeep(db, order, path, db', i);
    }
  }

  lemma {:induction false} NoneToKeep(db: Db, order: seq<Identity>, path: seq<Db>, db': Db, i: Identity)
    requires Legacy(db) && Bootstrapped(db, order, path, db') && i in db'.trials && IsKeeper(db, i, None)
    ensures db'.trials[i].guest.None?
  {
    var k := db'.trials[i].guest;
    if k.Some? {
      KeeperWasActive(db, order, path, db', i, k.value);
    }
  }

  /** If the account is first for `i` and first for `j` once `i` has had its turn, it was first for
      `j` to begin with: whoever `i` retired came after it. */
  lemma {:induction false} FirstBefore(db: Db, i: Identity, mid: Db, j: Identity, k: Id)
    requires Reconciled(db, i, mid) && IsKeeper(db, i, Some(k)) && IsKeeper(mid, j, Some(k))
    ensures IsKeeper(db, j, Some(k))
  {
    OneKeepsHistory(db, i, mid);
    SameGuests(db, mid, j);
    FirstIsKept(db, i, mid, k);
    forall v | ActiveGuest(db, j, v)
      ensures NotAfter(db.users[k].created, k, db.users[v].created, v)
    {
      if ActiveGuest(mid, j, v) {
        assert mid.users[v].created == db.users[v].created;
      } else {
        assert Retired(db, i, Some(k), v);
      }
    }
  }

  ghost predicate StartsWith(order: seq<Identity>, i: Identity, j: Identity) {
    |order| >= 2 && order[0] == i && order[1] == j
  }

  /** Otherwise some identity would not keep it, and whenever that one follows first, the identity
      records the account and is left with it ended. */
  lemma {:induction false} EndedByTheNext(db: Db, order: seq<Identity>, path: seq<Db>, db': Db, i: Identity, k: Id,
                                          j: Identity)
    requires Legacy(db) && Bootstrapped(db, order, path, db') && StartsWith(order, i, j)
    requires IsKeeper(db, i, Some(k)) && GuestOf(db, j, k) && !IsKeeper(db, j, Some(k))
    ensures i in db'.trials && db'.trials[i].guest == Some(k)
    ensures k in db'.users && !Live(db'.users[k], db'.now)
  {
    assert db'.(initialized := false).trials == db'.trials;
    TrialStays(db, order, path, 0, |order|);
    TrialStays(db, order, path, 1, |order|);
    assert Reconciled(path[0], order[0], path[0 + 1]);
    assert Reconciled(path[1], order[1], path[1 + 1]);
    FirstIsKept(db, i, path[1], k);
    if path[2].trials[j].guest == Some(k) {
      FirstBefore(db, i, path[1], j, k);
      assert false;
    }
    assert !KeptEverywhere(db, db', k);
    KeeperLivesIff(db, order, path, db', i, k);
  }

  // ---- the bootstrap always completes ----

  lemma {:induction false} FirstBy(s: set<Id>, created: map<Id, int>) returns (u: Id)
    requires s != {} && s <= created.Keys
    ensures u in s && forall v :: v in s ==> NotAfter(created[u], u, created[v], v)
    decreases |s|
  {
    u :| u in s;
    var rest := s - {u};
    if rest != {} {
      var v := FirstBy(rest, created);
      assert forall w :: w in s ==> w == u || w in rest;
      if NotAfter(created[v], v, created[u], u) {
        u := v;
      }
    } else {
      assert s == {u};
    }
  }

  lemma {:induction false} SomeTime(s: set<int>) returns (t: int)
    requires s != {}
    ensures t in s
  {
    assert (forall x: int :: x !in s) ==> s == {};
    t :| t in s;
  }

  lemma {:induction false} LeastTime(s: set<int>) returns (x: Option<int>)
    ensures IsLeast(s, x)
    decreases |s|
  {
    if s == {} {
      x := None;
    } else {
      var t := SomeTime(s);
      var rest := LeastTime(s - {t});
      assert forall y :: y in s ==> y == t || y in s - {t};
      x := Some(if rest.Some? && rest.value < t then rest.value else t);
    }
  }

  lemma {:induction false} GreatestTime(s: set<int>) returns (x: Option<int>)
    ensures IsGreatest(s, x)
    decreases |s|
  {
    if s == {} {
      x := None;
    } else {
      var t := SomeTime(s);
      var rest := GreatestTime(s - {t});
      assert forall y :: y in s ==> y == t || y in s - {t};
      x := Some(if rest.Some? && rest.value > t then rest.value else t);
    }
  }

  lemma {:induction false} KeeperExists(db: Db, i: Identity) returns (k: Option<Id>)
    ensures IsKeeper(db, i, k)
  {
    var active := set u | u in db.users && ActiveGuest(db, i, u);
    if HasRegistered(db.users, i) || active == {} {
      assert forall u :: ActiveGuest(db, i, u) ==> u in active;
      k := None;
    } else {
      var created := map u | u in active :: db.users[u].created;
      var u := FirstBy(active, created);
      assert forall v :: ActiveGuest(db, i, v) ==> v in active;
      k := Some(u);
    }
  }

  lemma {:induction false} Reconcile(db: Db, i: Identity) returns (db': Db)
    requires i !in db.trials
    ensures Reconciled(db, i, db')
  {
    var k := KeeperExists(db, i);
    var redeemed := LeastTime(Evidence(db, i));
    var sent := GreatestTime(SentTimes(db, i));
    var t := Trial(k, redeemed, 0, sent);
    db' := db.(users := UsersAfter(db, i, k), sessions := SessionsAfter(db, i, k), codes := CodesAfter(db, i, k),
               trials := db.trials[i := t]);
  }

  lemma {:induction false} ReconcileAll(db: Db, order: seq<Identity>, n: nat) returns (path: seq<Db>)
    requires db.trials == map[] && Enumerates(order, RequestIdentities(db)) && n <= |order|
    ensures ReconciledAll(db, order[..n], path)
    ensures forall i :: i in path[n].trials ==> i in order[..n]
  {
    if n == 0 {
      path := [db];
    } else {
      var before := ReconcileAll(db, order, n - 1);
      var i := order[n - 1];
      assert i !in order[..n - 1];
      var next := Reconcile(before[n - 1], i);
      path := before + [next];
      assert order[..n] == order[..n - 1] + [i];
      forall k | 0 <= k < n
        ensures Reconciled(path[k], order[..n][k], path[k + 1])
      {
        assert k < n - 1 ==> Reconciled(before[k], order[..n - 1][k], before[k + 1]);
      }
    }
  }

  ghost predicate EarliestAudits(db: Db, s: set<Identity>, m: map<Identity, Trial>) {
    && m.Keys == s
    && forall i :: i in s ==>
         && m[i].guest.None? && m[i].generation == 0 && m[i].lastSent.None?
         && IsLeast(AuditTimes(db, i), m[i].redeemedAt)
  }

  lemma {:induction false} AddAudits(db: Db, s: set<Identity>) returns (m: map<Identity, Trial>)
    ensures EarliestAudits(db, s, m)
    decreases |s|
  {
    if s == {} {
      return map[];
    }
    var i :| i in s;
    m := AddAudits(db, s - {i});
    var t := LeastTime(AuditTimes(db, i));
    m := m[i := Trial(None, t, 0, None)];
    assert s == (s - {i}) + {i};
  }

  /** From any legacy tables and in any order the reconciliation goes through: no row clashes. */
  lemma {:induction false} BootstrapCompletes(db: Db, order: seq<Identity>) returns (path: seq<Db>, db': Db)
    requires Legacy(db) && Enumerates(order, RequestIdentities(db))
    ensures Bootstrapped(db, order, path, db')
  {
    path := ReconcileAll(db, order, |order|);
    assert order[..|order|] == order;
    SettlePath(db, order, path, |order|);
    var last := path[|order|];
    var extra := AddAudits(last, AuditIdentities(last) - last.trials.Keys);
    db' := last.(trials := last.trials + extra, initialized := true);
    assert db'.(initialized := false) == last.(trials := db'.trials);
    assert AuditsAdded(last, db'.(initialized := false));
  }

  // ---- usable codes at used identities without a live account ----

  ghost predicate HasLiveAccount(db: Db, i: Identity) {
    && i in db.trials && db.trials[i].guest.Some? && db.trials[i].guest.value in db.users
    && Live(db.users[db.trials[i].guest.value], db.now)
  }

  ghost predicate HasOpenCode(db: Db, i: Identity) {
    exists c :: Open(db, c, i)
  }

  /** No usable code is left at a used identity without a live account. */
  ghost predicate NoStrayCode(db: Db, db': Db, i: Identity) {
    Used(db, i) && HasOpenCode(db', i) ==> HasLiveAccount(db', i)
  }

  ghost predicate HasUsableCode(db: Db, i: Identity) {
    exists c :: UsableCode(db, i, c)
  }

  /** What the legacy tables must look like for that: the address is registered, or no account of it
      is active, or no code of it is usable, or its first active account is first everywhere. */
  ghost predicate NeverStrays(db: Db, i: Identity) {
    || HasRegistered(db.users, i)
    || (forall u :: !ActiveGuest(db, i, u))
    || !HasUsableCode(db, i)
    || (exists k :: IsKeeper(db, i, Some(k)) && FirstEverywhere(db, k))
  }

  lemma {:induction false} UsableIsRequested(db: Db, i: Identity, c: Id)
    requires UsableCode(db, i, c)
    ensures i in RequestIdentities(db)
  {
    assert db.requests[db.codes[c].request.value].email.identity == i;
  }

  lemma {:induction false} NeverStraysIsEnough(db: Db, order: seq<Identity>, path: seq<Db>, db': Db, i: Identity)
    requires Legacy(db) && Bootstrapped(db, order, path, db') && NeverStrays(db, i)
    ensures NoStrayCode(db, db', i)
  {
    if Used(db, i) && HasOpenCode(db', i) {
      var c :| Open(db', c, i);
      OpenCodeIsTheNewest(db, order, path, db', c, i);
      UsableIsRequested(db, i, c);
      if k :| IsKeeper(db, i, Some(k)) && FirstEverywhere(db, k) {
        KeptInEveryOrder(db, order, path, db', i, Some(k));
      } else {
        NoneToKeep(db, order, path, db', i);
        assert false;
      }
    }
  }

  lemma {:induction false} NewestExists(db: Db, usable: set<Id>) returns (c: Id)
    requires usable != {} && usable <= db.codes.Keys
    ensures c in usable
    ensures forall d :: d in usable ==> NotAfter(db.codes[d].created, d, db.codes[c].created, c)
    decreases |usable|
  {
    c :| c in usable;
    var rest := usable - {c};
    if rest != {} {
      var d := NewestExists(db, rest);
      assert forall e :: e in usable ==> e == c || e in rest;
      if NotAfter(db.codes[c].created, c, db.codes[d].created, d) {
        c := d;
      }
    } else {
      assert usable == {c};
    }
  }

  lemma {:induction false} NewestUsableExists(db: Db, i: Identity) returns (c: Id)
    requires HasUsableCode(db, i)
    ensures NewestUsable(db, i, c)
  {
    var usable := set d | d in db.codes && UsableCode(db, i, d);
    var some :| UsableCode(db, i, some);
    assert some in usable;
    c := NewestExists(db, usable);
  }

  lemma {:induction false} EnumerateRest(ids: set<Identity>, first: seq<Identity>) returns (order: seq<Identity>)
    requires forall m, n :: 0 <= m < n < |first| ==> first[m] != first[n]
    requires forall x :: x in first ==> x !in ids
    ensures first <= order && forall m, n :: 0 <= m < n < |order| ==> order[m] != order[n]
    ensures forall x :: x in order <==> x in ids || x in first
    decreases |ids|
  {
    if ids == {} {
      order := first;
    } else {
      var x :| x in ids;
      assert forall m :: 0 <= m < |first| ==> first[m] in first && first[m] != x;
      order := EnumerateRest(ids - {x}, first + [x]);
      assert first <= first + [x] <= order;
    }
  }

  lemma {:induction false} OrderFrom(db: Db, i: Identity, j: Identity, k: Id) returns (order: seq<Identity>)
    requires i in RequestIdentities(db) && GuestOf(db, j, k) && i != j
    ensures Enumerates(order, RequestIdentities(db)) && StartsWith(order, i, j)
  {
    var l :| Links(db, l, k, j);
    assert db.requests[db.codes[l].request.value].email.identity == j;
    order := EnumerateRest(RequestIdentities(db) - {i, j}, [i, j]);
    assert order[0] == [i, j][0] && order[1] == [i, j][1];
  }

  /** Without the condition some order leaves a usable code at the used identity with its account ended.
      Redemption refuses that code. */
  lemma {:induction false} StrayCodeExists(db: Db, i: Identity)
    returns (order: seq<Identity>, path: seq<Db>, db': Db, c: Id)
    requires Legacy(db) && !NeverStrays(db, i)
    ensures Bootstrapped(db, order, path, db') && !NoStrayCode(db, db', i)
    ensures Open(db', c, i) && RedeemUser(db', c).Err?
  {
    var k := KeeperExists(db, i);
    var j :| GuestOf(db, j, k.value) && !IsKeeper(db, j, Some(k.value));
    c := NewestUsableExists(db, i);
    UsableIsRequested(db, i, c);
    order := OrderFrom(db, i, j, k.value);
    path, db' := BootstrapCompletes(db, order);
    EndedByTheNext(db, order, path, db', i, k.value, j);
    assert GuestOf(db, i, k.value);
    OpenCodeIsTheNewest(db, order, path, db', c, i);
    UsedExactly(db, order, path, db', i);
  }

  ghost predicate NoOrderStrays(db: Db, i: Identity) {
    forall order, path, db' :: Bootstrapped(db, order, path, db') ==> NoStrayCode(db, db', i)
  }

  /** The exact condition, on the legacy tables alone. */
  lemma {:induction false} NoStrayCodeIff(db: Db, i: Identity)
    requires Legacy(db)
    ensures NoOrderStrays(db, i) <==> NeverStrays(db, i)
  {
    if NeverStrays(db, i) {
      forall order, path, db' | Bootstrapped(db, order, path, db')
        ensures NoStrayCode(db, db', i)
      {
        NeverStraysIsEnough(db, order, path, db', i);
      }
    } else {
      var order, path, db', c := StrayCodeExists(db, i);
    }
  }

  /** Tables that stray: two addresses whose codes name account 20, the second also an older 21. */
  function SharedTables(): Db {
    Db(100, false,
       map[20 := Guest(Some(200), 5), 21 := Guest(Some(200), 1)],
       map[],
       map[10 := Code(Some(30), None, 0, 50, Some(5), Some(20), 5),
           11 := Code(Some(31), None, 0, 50, Some(5), Some(20), 5),
           12 := Code(Some(31), None, 0, 50, Some(1), Some(21), 1),
           13 := Code(Some(30), None, 0, 200, None, None, 90)],
       map[30 := Request(Email(0, 0), Issued, 0, None, None, None),
           31 := Request(Email(1, 0), Issued, 0, None, None, None)],
       map[], map[], 40)
  }

  lemma {:induction false} SharedLinks()
    ensures forall u :: Linked(SharedTables(), u, 0) <==> u == 20
    ensures forall u :: Linked(SharedTables(), u, 1) <==> u == 20 || u == 21
  {
    var db := SharedTables();
    assert Links(db, 10, 20, 0) && Links(db, 11, 20, 1) && Links(db, 12, 21, 1);
  }

  lemma {:induction false} SharedTablesStray()
    ensures Legacy(SharedTables()) && !NeverStrays(SharedTables(), 0)
  {
    var db := SharedTables();
    SharedLinks();
    assert ActiveGuest(db, 0, 20) && UsableCode(db, 0, 13);
    assert !HasRegistered(db.users, 0);
    assert GuestOf(db, 1, 20) && ActiveGuest(db, 1, 21) && !IsKeeper(db, 1, Some(20));
    forall k | IsKeeper(db, 0, Some(k))
      ensures !FirstEverywhere(db, k)
    {
      assert Linked(db, k, 0);
    }
  }
}
