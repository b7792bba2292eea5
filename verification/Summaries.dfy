/** Source-linked summaries: entries cite the messages they were made from. */
module Summaries {
  import opened Basics
  import opened Transcript

  datatype Status = UserStatement | AssistantClaim | RecordedResult | Unknown

  /** One summary entry; its text is left out, its citations are what is reasoned about. */
  datatype Entry = Entry(sources: seq<nat>, status: Status)

  /** The stored summary row. `current` says that its policy version is the running one. */
  datatype Summary = Summary(covered: nat, entries: seq<Entry>, current: bool)

  function Cited(entries: seq<Entry>): set<nat> {
    set e, id | e in entries && id in e.sources :: id
  }

  /** `filtered_summary`: drop every entry that cites a hidden message. */
  function Filtered(entries: seq<Entry>, hidden: set<nat>): seq<Entry> {
    if entries == [] then []
    else
      var rest := Filtered(entries[1..], hidden);
      if exists id :: id in entries[0].sources && id in hidden then rest
      else [entries[0]] + rest
  }

  lemma {:induction false} FilteredMembers(entries: seq<Entry>, hidden: set<nat>)
    ensures forall e :: e in Filtered(entries, hidden) <==>
                          e in entries && forall id :: id in e.sources ==> id !in hidden
  {
    if entries != [] {
      FilteredMembers(entries[1..], hidden);
    }
  }

  /** The kept entries stay in their order, each as often as it occurs. */
  lemma {:induction false} FilteredConcat(a: seq<Entry>, b: seq<Entry>, hidden: set<nat>)
    ensures Filtered(a + b, hidden) == Filtered(a, hidden) + Filtered(b, hidden)
    decreases |a|
  {
    if a == [] {
      assert a + b == b;
    } else {
      FilteredConcat(a[1..], b, hidden);
      assert (a + b)[1..] == a[1..] + b;
      var e, front, back := a[0], Filtered(a[1..], hidden), Filtered(b, hidden);
      assert ([e] + front) + back == [e] + (front + back);
    }
  }

  /** An entry stays exactly when none of its sources is hidden. */
  lemma {:induction false} FilteredOne(e: Entry, hidden: set<nat>)
    ensures Filtered([e], hidden) == if forall id :: id in e.sources ==> id !in hidden then [e] else []
  {
    assert Filtered([e][1..], hidden) == [];
  }

  /** The message row with this id, if it still exists. */
  function Find(t: seq<Message>, id: nat): (r: Option<Message>)
    ensures r.Some? ==> r.value in t && r.value.id == id
    ensures r.None? ==> forall i :: 0 <= i < |t| ==> t[i].id != id
  {
    if t == [] then None
    else if t[0].id == id then Some(t[0])
    else Find(t[1..], id)
  }

  /** The message a stored summary covers up to. */
  function Boundary(t: seq<Message>, summary: Option<Summary>): Option<Message> {
    if summary.None? then None else Find(t, summary.value.covered)
  }

  /** Message `id` exists and lies at or before `upTo`. */
  ghost predicate CoveredBy(t: seq<Message>, id: nat, upTo: Message) {
    exists i :: 0 <= i < |t| && t[i].id == id && !Before(upTo, t[i])
  }

  /** A stored summary covers up to an existing message, and every message it cites exists at
      or before that one. */
  ghost predicate Grounded(t: seq<Message>, summary: Option<Summary>) {
    summary.Some? ==>
      && Find(t, summary.value.covered).Some?
      && forall id :: id in Cited(summary.value.entries)
           ==> CoveredBy(t, id, Find(t, summary.value.covered).value)
  }

  lemma {:induction false} FindUnique(t: seq<Message>, i: nat)
    requires DistinctIds(t) && i < |t|
    ensures Find(t, t[i].id) == Some(t[i])
  {
    var r := Find(t, t[i].id);
    var j :| 0 <= j < |t| && t[j] == r.value;
  }

  /** Filtering never adds a citation. */
  lemma {:induction false} FilteredCites(entries: seq<Entry>, hidden: set<nat>)
    ensures Cited(Filtered(entries, hidden)) <= Cited(entries) - hidden
  {
    FilteredMembers(entries, hidden);
  }

  /** The entries the deterministic summariser starts from: what was kept, then one entry for
      each newly covered row. */
  function RowEntry(row: Message): Entry {
    Entry([row.id], if row.role == User then UserStatement else AssistantClaim)
  }

  function WithRows(previous: seq<Entry>, rows: seq<Message>): seq<Entry> {
    previous + seq(|rows|, i requires 0 <= i < |rows| => RowEntry(rows[i]))
  }

  /** The earlier entries come first, then every row as its own entry: a statement of the user, or a claim
      of the assistant. */
  lemma {:induction false} RowsAreQuoted(previous: seq<Entry>, rows: seq<Message>)
    ensures var all := WithRows(previous, rows);
            && |all| == |previous| + |rows| && previous <= all
            && forall i :: 0 <= i < |rows| ==>
                 && all[|previous| + i].sources == [rows[i].id]
                 && (all[|previous| + i].status == UserStatement <==> rows[i].role == User)
                 && (all[|previous| + i].status == AssistantClaim <==> rows[i].role == Assistant)
  {
  }

  /** `kept` is the oldest five entries followed by the newest ones, or fewer than that many
      of the oldest. */
  ghost predicate OldestAndNewest(all: seq<Entry>, kept: seq<Entry>) {
    || (|kept| <= 5 && kept <= all)
    || (exists j :: 5 <= j <= |all| && kept == all[..5] + all[j..])
  }

  /** There is one selection of that shape for each length. */
  lemma {:induction false} ShapeIsUnique(all: seq<Entry>, kept: seq<Entry>, other: seq<Entry>)
    requires OldestAndNewest(all, kept) && OldestAndNewest(all, other) && |kept| == |other|
    ensures kept == other
  {
    if |kept| <= 5 {
      PrefixShape(all, kept);
      PrefixShape(all, other);
    } else {
      var j :| 5 <= j <= |all| && kept == all[..5] + all[j..];
      var k :| 5 <= k <= |all| && other == all[..5] + all[k..];
    }
  }

  lemma {:induction false} PrefixShape(all: seq<Entry>, kept: seq<Entry>)
    requires OldestAndNewest(all, kept) && |kept| <= 5
    ensures |kept| <= |all| && kept == all[..|kept|]
  {
  }

  lemma {:induction false} ShapeFits(all: seq<Entry>, kept: seq<Entry>)
    requires OldestAndNewest(all, kept)
    ensures |kept| <= |all|
  {
  }

  /** Removing index 5, or the last entry when there is no index 5, keeps that shape. */
  lemma {:induction false} PopKeepsShape(all: seq<Entry>, kept: seq<Entry>, k: nat)
    requires OldestAndNewest(all, kept)
    requires |kept| > 1 && k == Min(5, |kept| - 1)
    ensures OldestAndNewest(all, kept[..k] + kept[k + 1..])
  {
    var popped := kept[..k] + kept[k + 1..];
    if |kept| <= 5 && kept <= all {
      assert popped == all[..|kept| - 1];
    } else {
      var j :| 5 <= j <= |all| && kept == all[..5] + all[j..];
      assert popped == all[..5] + all[j + 1..];
    }
  }

  lemma {:induction false} ShapeCites(all: seq<Entry>, kept: seq<Entry>)
    requires OldestAndNewest(all, kept)
    ensures Cited(kept) <= Cited(all)
  {
    forall e | e in kept ensures e in all {
      if !(|kept| <= 5 && kept <= all) {
        var j :| 5 <= j <= |all| && kept == all[..5] + all[j..];
      }
    }
  }

  lemma {:induction false} WithRowsCites(previous: seq<Entry>, rows: seq<Message>)
    ensures Cited(WithRows(previous, rows)) == Cited(previous) + Ids(rows)
  {
    var all := WithRows(previous, rows);
    forall id | id in Cited(all) ensures id in Cited(previous) + Ids(rows) {
      var e :| e in all && id in e.sources;
      var i :| 0 <= i < |all| && all[i] == e;
      if i < |previous| {
        assert e in previous;
      } else {
        assert e == RowEntry(rows[i - |previous|]);
      }
    }
    forall id | id in Cited(previous) + Ids(rows) ensures id in Cited(all) {
      if id in Cited(previous) {
        var e :| e in previous && id in e.sources;
        assert e in all;
      } else {
        var i :| 0 <= i < |rows| && rows[i].id == id;
        assert all[|previous| + i] == RowEntry(rows[i]);
        assert RowEntry(rows[i]) in all && id in RowEntry(rows[i]).sources;
      }
    }
  }

  const SUMMARY_TOKENS := 3000

  /** The deterministic branch of `generate_summary`. `cost` is the token count of the
      serialized entries. The result keeps the oldest five and the newest entries, cites
      nothing outside its inputs, and fits the budget unless a single entry does not; and no longer
      selection of that shape, of at most 20 entries, would fit. */
  method GenerateDeterministic(previous: seq<Entry>, rows: seq<Message>, cost: seq<Entry> -> nat)
    returns (entries: seq<Entry>)
    ensures OldestAndNewest(WithRows(previous, rows), entries)
    ensures Cited(entries) <= Cited(previous) + Ids(rows)
    ensures |entries| <= 20
    ensures cost(entries) <= 3000 || |entries| <= 1
    ensures (|previous| + |rows| <= 20 && cost(WithRows(previous, rows)) <= 3000) ==>
              entries == WithRows(previous, rows)
    ensures rows != [] ==> entries != []
    ensures forall other :: OldestAndNewest(WithRows(previous, rows), other) && |entries| < |other| <= 20 ==>
              cost(other) > 3000
  {
    var all := WithRows(previous, rows);
    entries := if |all| > 20 then all[..5] + all[|all| - 15..] else all;
    if 5 <= |all| <= 20 {
      assert entries == all[..5] + all[5..];
    }
    forall other | OldestAndNewest(all, other)
      ensures |other| <= |all|
    {
      ShapeFits(all, other);
    }
    while cost(entries) > SUMMARY_TOKENS && |entries| > 1
      invariant OldestAndNewest(all, entries)
      invariant |entries| <= 20
      invariant all != [] ==> entries != []
      invariant |all| <= 20 && cost(all) <= SUMMARY_TOKENS ==> entries == all
      invariant forall other :: OldestAndNewest(all, other) && |entries| < |other| <= 20 ==>
                  cost(other) > SUMMARY_TOKENS
      decreases |entries|
    {
      forall other | OldestAndNewest(all, other) && |other| == |entries|
        ensures other == entries
      {
        ShapeIsUnique(all, entries, other);
      }
      var k := Min(5, |entries| - 1);
      PopKeepsShape(all, entries, k);
      entries := entries[..k] + entries[k + 1..];
    }
    ShapeCites(all, entries);
    WithRowsCites(previous, rows);
  }
}
