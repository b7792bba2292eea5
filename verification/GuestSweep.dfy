/** The expired-guest sweep: keyset pages of at most 25 accounts until a page comes back empty. */
module GuestSweep {
  import opened Basics
  import opened GuestTables
  import opened GuestErasure
  import opened GuestProtocol
  import opened GuestAccess

  const PAGE := 25

  ghost predicate Ascending(s: seq<nat>) {
    forall i, j :: 0 <= i < j < |s| ==> s[i] < s[j]
  }

  lemma {:induction false} AscendingJoin(s: seq<nat>, t: seq<nat>)
    requires Ascending(s) && Ascending(t)
    requires forall x, y :: x in s && y in t ==> x < y
    ensures Ascending(s + t)
  {
    forall i, j | 0 <= i < j < |s + t|
      ensures (s + t)[i] < (s + t)[j]
    {
      if i < |s| <= j {
        assert s[i] in s && t[j - |s|] in t;
      }
    }
  }

  predicate Beyond(id: nat, after: Option<nat>) {
    after.None? || after.value < id
  }

  /** `page` is the first 25 matching ids past the cursor, in order: whatever it leaves out lies
      beyond all of it, and nothing is left out of a short page. */
  ghost predicate IsPage(matching: set<nat>, after: Option<nat>, page: seq<nat>) {
    && |page| <= 25 && Ascending(page)
    && (forall id :: id in page ==> id in matching && Beyond(id, after))
    && (forall id :: id in matching && Beyond(id, after) && id !in page ==>
          |page| == 25 && forall p :: p in page ==> p < id)
  }

  lemma {:induction false} HasLeast(s: set<nat>) returns (least: nat)
    requires s != {}
    ensures least in s && forall x :: x in s ==> least <= x
    decreases |s|
  {
    least :| least in s;
    if s - {least} != {} {
      ghost var picked := least;
      var other := HasLeast(s - {picked});
      assert forall x :: x in s ==> x == picked || x in s - {picked};
      if other < least {
        least := other;
      }
    } else {
      assert s == {least};
    }
  }

  /** The page query. */
  method SelectPage(matching: set<nat>, after: Option<nat>) returns (page: seq<nat>)
    ensures IsPage(matching, after, page)
  {
    page := [];
    var rest := set id | id in matching && Beyond(id, after);
    while |page| < PAGE && rest != {}
      invariant |page| <= PAGE && Ascending(page)
      invariant forall id :: id in page ==> id in matching && Beyond(id, after)
      invariant forall id :: id in matching && Beyond(id, after) ==> id in page || id in rest
      invariant forall id, p :: id in rest && p in page ==> p < id
      invariant forall id :: id in rest ==> id in matching && Beyond(id, after)
      decreases PAGE - |page|
    {
      ghost var least := HasLeast(rest);
      var next :| next in rest && forall x :: x in rest ==> next <= x;
      AscendingJoin(page, [next]);
      page := page + [next];
      rest := rest - {next};
    }
  }

  /** What the cursor has not reached yet: the sweep's measure. */
  ghost function Ahead(ids: set<nat>, cursor: Option<nat>): set<nat> {
    set id | id in ids && Beyond(id, cursor)
  }

  lemma {:induction false} AheadShrinks(ids: set<nat>, cursor: Option<nat>, last: nat)
    requires last in ids && Beyond(last, cursor)
    ensures Ahead(ids, Some(last)) < Ahead(ids, cursor)
  {
    assert last in Ahead(ids, cursor) && last !in Ahead(ids, Some(last));
    assert forall id :: id in Ahead(ids, Some(last)) ==> id in Ahead(ids, cursor);
  }

  // ---- what a sweep does, transaction by transaction ----

  /** What the sweep meets: the cutoff of each page, what the workspace tables answer for an account,
      whether its erasure raises, and what other transactions do before the sweep's next one. */
  datatype Conditions = Conditions(cutoff: nat -> int, deferred: Id -> bool, raises: Id -> bool,
                                   between: (nat, Db) -> Db)

  /** One transaction, with the tables after it: somebody else's, or the erasure of an account of a page. */
  datatype Step = Others(after: Db) | Visit(u: Id, page: nat, found: Option<Identity>, after: Db)

  ghost predicate Erases(db: Db, e: Conditions, v: Step)
    requires v.Visit?
  {
    !e.raises(v.u) && EraseRefusal(db, v.u, e.cutoff(v.page), v.found, e.deferred(v.u)).None?
  }

  /** An account is erased exactly when its erasure is not refused and does not raise; otherwise nothing
      changes. */
  ghost predicate StepFrom(db: Db, e: Conditions, n: nat, step: Step) {
    match step
    case Others(after) => after == e.between(n, db)
    case Visit(u, page, found, after) =>
      && FoundTrial(db, u, found)
      && if Erases(db, e, step) then exists identity :: Erased(db, u, found, identity, after) else after == db
  }

  function EndOf(start: Db, trace: seq<Step>): Db {
    if trace == [] then start else trace[|trace| - 1].after
  }

  /** The transactions follow from one another. */
  ghost predicate IsTrace(start: Db, e: Conditions, trace: seq<Step>) {
    forall n :: 0 <= n < |trace| ==> StepFrom(EndOf(start, trace[..n]), e, n, trace[n])
  }

  lemma {:induction false} TraceGrows(start: Db, e: Conditions, trace: seq<Step>, step: Step)
    requires IsTrace(start, e, trace) && StepFrom(EndOf(start, trace), e, |trace|, step)
    ensures IsTrace(start, e, trace + [step]) && EndOf(start, trace + [step]) == step.after
  {
    var longer := trace + [step];
    forall n | 0 <= n < |longer|
      ensures StepFrom(EndOf(start, longer[..n]), e, n, longer[n])
    {
      assert longer[..n] == if n < |trace| then trace[..n] else trace;
    }
  }

  /** The accounts visited, in order. */
  function Visits(trace: seq<Step>): seq<Id> {
    if trace == [] then []
    else
      var last := trace[|trace| - 1];
      Visits(trace[..|trace| - 1]) + (if last.Visit? then [last.u] else [])
  }

  /** Visits belong to pages up to `last`, in the order of the pages. */
  ghost predicate PagesInOrder(trace: seq<Step>, last: nat) {
    && (forall k :: 0 <= k < |trace| && trace[k].Visit? ==> trace[k].page <= last)
    && (forall j, k :: 0 <= j < k < |trace| && trace[j].Visit? && trace[k].Visit? ==> trace[j].page <= trace[k].page)
  }

  lemma {:induction false} PageAppends(trace: seq<Step>, step: Step, last: nat)
    requires PagesInOrder(trace, last) && (step.Visit? ==> step.page == last)
    ensures PagesInOrder(trace + [step], last)
  {
  }

  function Gone(db: Db, db': Db): set<Id> {
    db.users.Keys - db'.users.Keys
  }

  /** The accounts that went in the sweep's own transactions, or in the others'. */
  function Lost(start: Db, trace: seq<Step>, own: bool): set<Id> {
    if trace == [] then {}
    else
      var before, last := trace[..|trace| - 1], trace[|trace| - 1];
      Lost(start, before, own) + (if last.Visit? == own then Gone(EndOf(start, before), last.after) else {})
  }

  lemma {:induction false} OneMoreStep(start: Db, trace: seq<Step>, step: Step)
    ensures Visits(trace + [step]) == Visits(trace) + (if step.Visit? then [step.u] else [])
    ensures forall own :: Lost(start, trace + [step], own) ==
              Lost(start, trace, own) + (if step.Visit? == own then Gone(EndOf(start, trace), step.after) else {})
  {
    assert (trace + [step])[..|trace|] == trace;
  }

  /** Whoever is gone at the end went in one of the sweep's transactions or in somebody else's. */
  lemma {:induction false} GoneIsAccountedFor(start: Db, trace: seq<Step>)
    ensures Gone(start, EndOf(start, trace)) <= Lost(start, trace, true) + Lost(start, trace, false)
    decreases |trace|
  {
    if trace != [] {
      var before := trace[..|trace| - 1];
      GoneIsAccountedFor(start, before);
      forall u | u in Gone(start, EndOf(start, trace))
        ensures u in Lost(start, trace, true) + Lost(start, trace, false)
      {
        assert u in Gone(start, EndOf(start, before)) || u in Gone(EndOf(start, before), EndOf(start, trace));
      }
    }
  }

  /** A visit erases its account and no other, exactly when it is not refused and does not raise; and an
      erased account had expired at its page's cutoff. */
  lemma {:induction false} VisitErasesIff(db: Db, e: Conditions, n: nat, v: Step)
    requires v.Visit? && StepFrom(db, e, n, v)
    ensures Gone(db, v.after) == (if Erases(db, e, v) then {v.u} else {})
    ensures Erases(db, e, v) ==> Expired(db, v.u, e.cutoff(v.page))
  {
  }

  /** So every account the sweep erased was visited, with nothing in the way, when it had expired. */
  lemma {:induction false} ErasedWasDue(start: Db, e: Conditions, trace: seq<Step>, u: Id) returns (n: nat)
    requires IsTrace(start, e, trace) && u in Lost(start, trace, true)
    ensures n < |trace| && trace[n].Visit? && trace[n].u == u
    ensures Erases(EndOf(start, trace[..n]), e, trace[n])
    ensures Expired(EndOf(start, trace[..n]), u, e.cutoff(trace[n].page))
    decreases |trace|
  {
    var before, last := trace[..|trace| - 1], trace[|trace| - 1];
    assert StepFrom(EndOf(start, before), e, |trace| - 1, last);
    if last.Visit? && u in Gone(EndOf(start, before), last.after) {
      VisitErasesIff(EndOf(start, before), e, |trace| - 1, last);
      n := |trace| - 1;
    } else {
      assert forall k :: 0 <= k < |before| ==> before[..k] == trace[..k] && before[k] == trace[k];
      assert IsTrace(start, e, before);
      n := ErasedWasDue(start, e, before, u);
    }
  }

  // ---- the accounts only age ----

  ghost predicate NonDecreasing(cutoff: nat -> int) {
    forall i, j :: 0 <= i <= j ==> cutoff(i) <= cutoff(j)
  }

  predicate UsersFresh(db: Db) {
    forall u :: u in db.users ==> u < db.nextId
  }

  ghost predicate AgesUsers(db: Db, db': Db) {
    UsersAge(db, db') && db.nextId <= db'.nextId && UsersFresh(db')
  }

  /** What other transactions may do to the accounts: anything that only ages them, adds new ones and
      never brings one back. */
  ghost predicate Interferes(between: (nat, Db) -> Db, universe: set<Id>) {
    forall k: nat, db: Db :: UsersFresh(db) && db.users.Keys <= universe ==>
      AgesUsers(db, between(k, db)) && between(k, db).users.Keys <= universe
  }

  lemma {:induction false} AgesUsersChains(a: Db, b: Db, c: Db)
    requires AgesUsers(a, b) && AgesUsers(b, c)
    ensures AgesUsers(a, c)
  {
  }

  lemma {:induction false} ErasureAges(db: Db, u: Id, found: Option<Identity>, identity: Option<Identity>, db': Db)
    requires UsersFresh(db) && Erased(db, u, found, identity, db')
    ensures AgesUsers(db, db') && Gone(db, db') == {u} && db'.users.Keys <= db.users.Keys
  {
  }

  /** Of the guests that had expired at the start, one that is still there is still expired, and is
      among `seen` or ahead of the cursor. */
  ghost predicate Tracked(start: Db, db: Db, seen: seq<Id>, cursor: Option<Id>, first: int) {
    forall u :: u in start.users && Expired(start, u, first) && u in db.users ==>
      Expired(db, u, first) && (u in seen || Beyond(u, cursor))
  }

  /** Seen guests that are still there have expired. */
  ghost predicate AllExpired(db: Db, seen: seq<Id>, last: int) {
    forall u :: u in seen ==> u < db.nextId && (u in db.users ==> Expired(db, u, last))
  }

  ghost predicate Buried(db: Db, erased: set<Id>) {
    forall u :: u in erased ==> u < db.nextId && u !in db.users
  }

  lemma {:induction false} AgedStaysTracked(start: Db, db: Db, db': Db, seen: seq<Id>, cursor: Option<Id>, first: int,
                                            last: int, last': int)
    requires Tracked(start, db, seen, cursor, first) && AllExpired(db, seen, last)
    requires AgesUsers(db, db') && last <= last' && start.nextId <= db.nextId && UsersFresh(start)
    ensures Tracked(start, db', seen, cursor, first) && AllExpired(db', seen, last')
  {
    forall u | u in start.users && Expired(start, u, first) && u in db'.users
      ensures Expired(db', u, first) && (u in seen || Beyond(u, cursor))
    {
      assert u in db.users && UserAges(db.users[u], db'.users[u]);
    }
    forall u | u in seen && u in db'.users
      ensures Expired(db', u, last')
    {
      assert u in db.users && UserAges(db.users[u], db'.users[u]);
    }
  }

  /** A page moves the cursor over exactly its own accounts. */
  lemma {:induction false} PageIsSeen(start: Db, db: Db, seen: seq<Id>, cursor: Option<Id>, first: int, last: int,
                                      page: seq<Id>)
    requires Tracked(start, db, seen, cursor, first) && AllExpired(db, seen, last) && first <= last
    requires page != [] && IsPage(Matching(db, last), cursor, page) && UsersFresh(db)
    ensures Tracked(start, db, seen + page, Some(page[|page| - 1]), first) && AllExpired(db, seen + page, last)
  {
    LastIsGreatest(page);
    forall u | u in start.users && Expired(start, u, first) && u in db.users
      ensures u in seen + page || Beyond(u, Some(page[|page| - 1]))
    {
      assert u in Matching(db, last);
    }
    assert forall u :: u in page ==> u in Matching(db, last);
  }

  /** The accounts a page is taken from. */
  function Matching(db: Db, cutoff: int): set<Id> {
    set u | u in db.users && Expired(db, u, cutoff)
  }

  // ---- the code ----

  /** Another transaction commits. */
  method OthersCommit(s: GuestAccessService, e: Conditions, page: nat, ghost start: Db, ghost trace: seq<Step>, n: nat,
                      ghost universe: set<Id>)
    returns (ghost trace': seq<Step>)
    requires n == |trace| && IsTrace(start, e, trace) && EndOf(start, trace) == s.Tables() && PagesInOrder(trace, page)
    requires UsersFresh(s.Tables()) && s.users.Keys <= universe && Interferes(e.between, universe)
    modifies s
    ensures IsTrace(start, e, trace') && EndOf(start, trace') == s.Tables() && |trace'| == n + 1
    ensures PagesInOrder(trace', page)
    ensures Visits(trace') == Visits(trace) && Lost(start, trace', true) == Lost(start, trace, true)
    ensures AgesUsers(old(s.Tables()), s.Tables()) && s.users.Keys <= universe
  {
    var db := e.between(n, s.Tables());
    ghost var step := Others(db);
    TraceGrows(start, e, trace, step);
    OneMoreStep(start, trace, step);
    PageAppends(trace, step, page);
    trace' := trace + [step];
    s.PutTables(db);
  }

  /** One account: an erasure that raises leaves everything as it was and is counted as failed. */
  method EraseOne(s: GuestAccessService, u: Id, cutoff: int, deferred: bool, raises: bool)
    returns (gone: bool, found: Option<Identity>)
    modifies s
    ensures FoundTrial(old(s.Tables()), u, found)
    ensures gone <==> !raises && EraseRefusal(old(s.Tables()), u, cutoff, found, deferred).None?
    ensures gone ==> exists identity :: Erased(old(s.Tables()), u, found, identity, s.Tables())
    ensures !gone ==> s.Tables() == old(s.Tables())
  {
    gone, found := false, None;
    if raises {
      if i :| i in s.trials && s.trials[i].guest == Some(u) {
        found := Some(i);
      }
    } else {
      var r;
      r, found := s.Erase(u, cutoff, deferred);
      gone := r.Ok?;
    }
  }

  /** Visiting one account. */
  method VisitOne(s: GuestAccessService, e: Conditions, u: Id, page: nat, ghost start: Db, ghost trace: seq<Step>)
    returns (gone: bool, ghost trace': seq<Step>)
    requires IsTrace(start, e, trace) && EndOf(start, trace) == s.Tables() && UsersFresh(s.Tables())
    requires PagesInOrder(trace, page)
    modifies s
    ensures IsTrace(start, e, trace') && EndOf(start, trace') == s.Tables() && |trace'| == |trace| + 1
    ensures PagesInOrder(trace', page) && trace'[|trace|].Visit? && trace'[|trace|].page == page
    ensures Visits(trace') == Visits(trace) + [u]
    ensures Lost(start, trace', true) == Lost(start, trace, true) + (if gone then {u} else {})
    ensures gone ==> u !in s.users && u < s.nextId
    ensures AgesUsers(old(s.Tables()), s.Tables()) && s.users.Keys <= old(s.users.Keys)
  {
    ghost var db := s.Tables();
    var found;
    gone, found := EraseOne(s, u, e.cutoff(page), e.deferred(u), e.raises(u));
    ghost var step := Visit(u, page, found, s.Tables());
    assert StepFrom(db, e, |trace|, step);
    TraceGrows(start, e, trace, step);
    OneMoreStep(start, trace, step);
    PageAppends(trace, step, page);
    VisitErasesIff(db, e, |trace|, step);
    trace' := trace + [step];
    if gone {
      ghost var identity :| Erased(db, u, found, identity, s.Tables());
      ErasureAges(db, u, found, identity, s.Tables());
    }
  }

  lemma {:induction false} BuriedStays(db: Db, db': Db, erased: set<Id>)
    requires Buried(db, erased) && AgesUsers(db, db')
    ensures Buried(db', erased)
  {
  }

  /** Other transactions, then the next account of the page. */
  method NextAccount(s: GuestAccessService, e: Conditions, u: Id, page: nat, n: nat, erased: set<Id>, ghost start: Db,
                     ghost trace: seq<Step>, ghost universe: set<Id>)
    returns (erased': set<Id>, ghost trace': seq<Step>)
    requires n == |trace| && IsTrace(start, e, trace) && EndOf(start, trace) == s.Tables()
    requires UsersFresh(s.Tables()) && s.users.Keys <= universe && Interferes(e.between, universe)
    requires erased == Lost(start, trace, true) && Buried(s.Tables(), erased) && PagesInOrder(trace, page)
    modifies s
    ensures |trace'| == n + 2 && IsTrace(start, e, trace') && EndOf(start, trace') == s.Tables()
    ensures Visits(trace') == Visits(trace) + [u]
    ensures erased' == Lost(start, trace', true) && Buried(s.Tables(), erased') && PagesInOrder(trace', page)
    ensures AgesUsers(old(s.Tables()), s.Tables()) && s.users.Keys <= universe
  {
    ghost var db := s.Tables();
    trace' := OthersCommit(s, e, page, start, trace, n, universe);
    ghost var mid := s.Tables();
    BuriedStays(db, mid, erased);
    var gone;
    gone, trace' := VisitOne(s, e, u, page, start, trace');
    BuriedStays(mid, s.Tables(), erased);
    AgesUsersChains(db, mid, s.Tables());
    erased' := if gone then erased + {u} else erased;
  }

  /** The accounts of one page, one transaction each, with other transactions before every one. */
  method SweepPage(s: GuestAccessService, e: Conditions, ids: seq<Id>, page: nat, n: nat, erased: set<Id>,
                   ghost start: Db, ghost trace: seq<Step>, ghost universe: set<Id>)
    returns (n': nat, erased': set<Id>, ghost trace': seq<Step>)
    requires n == |trace| && IsTrace(start, e, trace) && EndOf(start, trace) == s.Tables()
    requires UsersFresh(s.Tables()) && s.users.Keys <= universe && Interferes(e.between, universe)
    requires erased == Lost(start, trace, true) && Buried(s.Tables(), erased) && PagesInOrder(trace, page)
    modifies s
    ensures n' == |trace'| && IsTrace(start, e, trace') && EndOf(start, trace') == s.Tables()
    ensures Visits(trace') == Visits(trace) + ids
    ensures erased' == Lost(start, trace', true) && Buried(s.Tables(), erased') && PagesInOrder(trace', page)
    ensures AgesUsers(old(s.Tables()), s.Tables()) && s.users.Keys <= universe
  {
    n', erased', trace' := n, erased, trace;
    ghost var first := s.Tables();
    var i := 0;
    while i < |ids|
      invariant 0 <= i <= |ids| && n' == |trace'|
      invariant IsTrace(start, e, trace') && EndOf(start, trace') == s.Tables()
      invariant Visits(trace') == Visits(trace) + ids[..i]
      invariant erased' == Lost(start, trace', true) && Buried(s.Tables(), erased') && PagesInOrder(trace', page)
      invariant AgesUsers(first, s.Tables()) && s.users.Keys <= universe
    {
      ghost var db := s.Tables();
      erased', trace' := NextAccount(s, e, ids[i], page, n', erased', start, trace', universe);
      AgesUsersChains(first, db, s.Tables());
      Snoc(Visits(trace), ids, i);
      n', i := n' + 2, i + 1;
    }
    assert ids[..i] == ids;
  }

  lemma {:induction false} Snoc(a: seq<Id>, ids: seq<Id>, i: nat)
    requires i < |ids|
    ensures a + ids[..i + 1] == (a + ids[..i]) + [ids[i]]
  {
  }

  /** The whole sweep, each page with the cutoff of its own moment. `trace` is everything that was
      committed meanwhile: the sweep's visits, each of which erases its account exactly when nothing refuses
      it, and what others did before each of them and before each page. Every guest that had expired when
      it started is visited or gone at the end, none is visited twice, and every visited one that is still
      there has expired. Whoever is gone was erased by a visit or removed by others. */
  method Sweep(s: GuestAccessService, e: Conditions, ghost universe: set<Id>)
    returns (visited: seq<Id>, erased: set<Id>, pages: nat, ghost trace: seq<Step>)
    requires NonDecreasing(e.cutoff) && s.users.Keys <= universe && Interferes(e.between, universe)
    requires UsersFresh(s.Tables())
    modifies s
    ensures IsTrace(old(s.Tables()), e, trace) && EndOf(old(s.Tables()), trace) == s.Tables()
    ensures visited == Visits(trace) && Ascending(visited) && PagesInOrder(trace, pages)
    ensures erased == Lost(old(s.Tables()), trace, true) && forall u :: u in erased ==> u !in s.users
    ensures Gone(old(s.Tables()), s.Tables()) <= erased + Lost(old(s.Tables()), trace, false)
    ensures forall u :: u in old(s.users) && old(Expired(s.Tables(), u, e.cutoff(0))) && u in s.users ==> u in visited
    ensures forall u :: u in visited && u in s.users ==> Expired(s.Tables(), u, e.cutoff(pages))
  {
    visited, erased, pages, trace := [], {}, 0, [];
    var cursor: Option<Id>, n := None, 0;
    ghost var start := s.Tables();
    while true
      invariant n == |trace| && IsTrace(start, e, trace) && EndOf(start, trace) == s.Tables()
      invariant visited == Visits(trace) && Ascending(visited) && s.users.Keys <= universe
      invariant erased == Lost(start, trace, true) && Buried(s.Tables(), erased) && PagesInOrder(trace, pages)
      invariant start.nextId <= s.nextId && UsersFresh(s.Tables())
      invariant forall u :: u in visited ==> !Beyond(u, cursor)
      invariant Tracked(start, s.Tables(), visited, cursor, e.cutoff(0))
      invariant AllExpired(s.Tables(), visited, e.cutoff(pages))
      decreases Ahead(universe, cursor)
    {
      ghost var db := s.Tables();
      trace := OthersCommit(s, e, pages, start, trace, n, universe);
      n := n + 1;
      AgedStaysTracked(start, db, s.Tables(), visited, cursor, e.cutoff(0), e.cutoff(pages), e.cutoff(pages));
      var page := SelectPage(Matching(s.Tables(), e.cutoff(pages)), cursor);
      if page == [] {
        break;
      }
      db := s.Tables();
      LastIsGreatest(page);
      AheadShrinks(universe, cursor, page[|page| - 1]);
      AscendingJoin(visited, page);
      PageIsSeen(start, db, visited, cursor, e.cutoff(0), e.cutoff(pages), page);
      n, erased, trace := SweepPage(s, e, page, pages, n, erased, start, trace, universe);
      visited, cursor := visited + page, Some(page[|page| - 1]);
      AgedStaysTracked(start, db, s.Tables(), visited, cursor, e.cutoff(0), e.cutoff(pages), e.cutoff(pages + 1));
      pages := pages + 1;
    }
    GoneIsAccountedFor(start, trace);
    assert forall u :: u in start.users && Expired(start, u, e.cutoff(0)) && u in s.users ==>
      Expired(s.Tables(), u, e.cutoff(pages));
  }

  lemma {:induction false} LastIsGreatest(page: seq<nat>)
    requires Ascending(page) && page != []
    ensures page[|page| - 1] in page && forall id :: id in page ==> id <= page[|page| - 1]
  {
    forall id | id in page
      ensures id <= page[|page| - 1]
    {
      var i :| 0 <= i < |page| && page[i] == id;
      assert i < |page| - 1 ==> page[i] < page[|page| - 1];
    }
  }
}
