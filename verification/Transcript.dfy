/** Persisted conversation messages and the order the continuity code reads them in. */
module Transcript {
  import opened Basics

  datatype Role = User | Assistant

  /** One row of the messages table. `tokens` is the tokenizer's count for the content,
      and `id` stands for the primary key text, of which only the order is used. */
  datatype Message = Message(id: nat, at: int, role: Role, tokens: nat)

  /** Per-message framing cost that is added to the content's token count. */
  const MESSAGE_OVERHEAD := 12

  function MessageTokens(m: Message): nat {
    m.tokens + MESSAGE_OVERHEAD
  }

  function Total(s: seq<Message>): nat {
    if s == [] then 0 else MessageTokens(s[0]) + Total(s[1..])
  }

  /** Lexicographic comparison of (created_at, id). */
  predicate Before(a: Message, b: Message) {
    a.at < b.at || (a.at == b.at && a.id < b.id)
  }

  /** Rows are ordered by time and, at the same time, by id: of two different rows one comes first. */
  lemma {:induction false} KeyOrder(a: Message, b: Message)
    ensures a.at < b.at ==> Before(a, b) && !Before(b, a)
    ensures a.at == b.at ==> (Before(a, b) <==> a.id < b.id)
    ensures a.id != b.id ==> (Before(a, b) <==> !Before(b, a))
  {
  }

  predicate Chronological(t: seq<Message>) {
    forall i, j {:trigger Before(t[i], t[j])} :: 0 <= i < j < |t| ==> Before(t[i], t[j])
  }

  predicate DistinctIds(t: seq<Message>) {
    forall i, j :: 0 <= i < j < |t| ==> t[i].id != t[j].id
  }

  /** What the database guarantees of one conversation: ids are primary keys, and rows are
      read in key order. */
  predicate IsTranscript(t: seq<Message>) {
    Chronological(t) && DistinctIds(t)
  }

  function Ids(s: seq<Message>): set<nat> {
    set m | m in s :: m.id
  }

  /** Whether a message lies after a covered boundary; with no boundary every message does. */
  predicate IsAfter(m: Message, boundary: Option<Message>) {
    boundary.None? || Before(boundary.value, m)
  }

  /** The rows after the boundary, in order. */
  function After(rows: seq<Message>, boundary: Option<Message>): seq<Message> {
    if rows == [] then []
    else (if IsAfter(rows[0], boundary) then [rows[0]] else []) + After(rows[1..], boundary)
  }

  /** In key order the rows after a boundary are one suffix, cut at this index. */
  function FirstAfter(rows: seq<Message>, boundary: Option<Message>): (k: nat)
    ensures k <= |rows|
    ensures k < |rows| ==> IsAfter(rows[k], boundary)
    ensures forall i :: 0 <= i < k ==> !IsAfter(rows[i], boundary)
  {
    if rows == [] || IsAfter(rows[0], boundary) then 0
    else 1 + FirstAfter(rows[1..], boundary)
  }

  /** The last `n` rows, or all of them when there are fewer. */
  function Last(rows: seq<Message>, n: nat): seq<Message> {
    if |rows| <= n then rows else rows[|rows| - n..]
  }

  lemma {:induction false} AfterEverything(rows: seq<Message>, boundary: Option<Message>)
    requires forall i :: 0 <= i < |rows| ==> IsAfter(rows[i], boundary)
    ensures After(rows, boundary) == rows
  {
    if rows != [] {
      AfterEverything(rows[1..], boundary);
    }
  }

  /** Filtering by the boundary is the same as cutting at `FirstAfter`. */
  lemma {:induction false} AfterIsSuffix(rows: seq<Message>, boundary: Option<Message>)
    requires Chronological(rows)
    ensures After(rows, boundary) == rows[FirstAfter(rows, boundary)..]
    ensures forall i :: FirstAfter(rows, boundary) <= i < |rows| ==> IsAfter(rows[i], boundary)
  {
    if rows == [] {
    } else if IsAfter(rows[0], boundary) {
      forall i | 0 <= i < |rows| ensures IsAfter(rows[i], boundary) {
        assert i > 0 ==> Before(rows[0], rows[i]);
      }
      AfterEverything(rows, boundary);
    } else {
      AfterIsSuffix(rows[1..], boundary);
      var k := FirstAfter(rows, boundary);
      assert rows[1..][k - 1..] == rows[k..];
      forall i | k <= i < |rows| ensures IsAfter(rows[i], boundary) {
        assert rows[i] == rows[1..][i - 1];
      }
    }
  }

  /** Dropping rows from the front moves the cut down with them. */
  lemma {:induction false} FirstAfterDrop(t: seq<Message>, start: nat, boundary: Option<Message>)
    requires Chronological(t) && start <= |t|
    ensures FirstAfter(t[start..], boundary) == Max(0, FirstAfter(t, boundary) - start)
  {
    AfterIsSuffix(t, boundary);
    var tail := t[start..];
    var k, j := FirstAfter(t, boundary), FirstAfter(tail, boundary);
    if j < |tail| {
      assert tail[j] == t[start + j];
    }
    if 0 <= k - start < |tail| {
      assert tail[k - start] == t[k];
    }
    if k < start && tail != [] {
      assert tail[0] == t[start];
    }
  }

  lemma {:induction false} ChronologicalDrop(t: seq<Message>, start: nat)
    requires Chronological(t) && start <= |t|
    ensures Chronological(t[start..])
  {
    forall i, j | 0 <= i < j < |t[start..]| ensures Before(t[start..][i], t[start..][j]) {
      assert Before(t[start + i], t[start + j]);
    }
  }

  lemma {:induction false} AfterDrop(t: seq<Message>, start: nat, boundary: Option<Message>)
    requires Chronological(t) && start <= |t|
    ensures After(t[start..], boundary) == t[Max(start, FirstAfter(t, boundary))..]
  {
    var k := FirstAfter(t, boundary);
    assert FirstAfter(t[start..], boundary) == Max(0, k - start) by {
      FirstAfterDrop(t, start, boundary);
    }
    assert After(t[start..], boundary) == t[start..][FirstAfter(t[start..], boundary)..] by {
      ChronologicalDrop(t, start);
      AfterIsSuffix(t[start..], boundary);
    }
    if k > start {
      assert t[start..][k - start..] == t[k..];
    }
  }

  /** The rows of a fetched tail that lie after the boundary are the latest ones, and all of
      those after it when there are at most `n`. */
  lemma {:induction false} AfterTail(t: seq<Message>, n: nat, boundary: Option<Message>)
    requires Chronological(t)
    ensures var size := Min(n, |t| - FirstAfter(t, boundary));
            After(Last(t, n), boundary) == t[|t| - size..]
  {
    var start := if |t| <= n then 0 else |t| - n;
    assert t[0..] == t;
    AfterDrop(t, start, boundary);
  }

  /** Token totals only grow as a suffix reaches further back. */
  lemma {:induction false} LongerCostsMore(s: seq<Message>, i: nat, j: nat)
    requires i <= j <= |s|
    ensures Total(s[i..]) >= Total(s[j..])
    decreases j - i
  {
    if i < j {
      assert s[i..][1..] == s[i + 1..];
      LongerCostsMore(s, i + 1, j);
    }
  }

  /** Every message adds its content's tokens and 12 more for its framing. */
  lemma {:induction false} TotalAppend(s: seq<Message>, m: Message)
    ensures Total([]) == 0 && Total(s + [m]) == Total(s) + m.tokens + 12
  {
    if s == [] {
      assert s + [m] == [m];
    } else {
      assert (s + [m])[1..] == s[1..] + [m];
      TotalAppend(s[1..], m);
    }
  }
}
