/** `select_recent`: the newest messages that fit a token budget and a message ceiling, cut
    so that the window opens with a user message. */
module RecentWindow {
  import opened Transcript

  /** The suffix from `start` fits the budget and the ceiling and opens with a user message. */
  predicate Admissible(messages: seq<Message>, budget: int, ceiling: int, start: nat) {
    && start < |messages|
    && messages[start].role == User
    && Total(messages[start..]) <= budget
    && |messages| - start <= ceiling
  }

  /** `selected` is the longest admissible suffix, or the latest message alone when no suffix
      is admissible. */
  predicate IsWindow(messages: seq<Message>, budget: int, ceiling: int, selected: seq<Message>) {
    && |selected| <= |messages|
    && selected == messages[|messages| - |selected|..]
    && (messages != [] ==> selected != [])
    && (forall start: nat | Admissible(messages, budget, ceiling, start) ::
          |messages| - |selected| <= start)
    && (|selected| > 1 ==> Admissible(messages, budget, ceiling, |messages| - |selected|))
  }

  function Reversed(s: seq<Message>): (r: seq<Message>)
    ensures |r| == |s|
    ensures forall k :: 0 <= k < |s| ==> r[k] == s[|s| - 1 - k]
  {
    seq(|s|, k requires 0 <= k < |s| => s[|s| - 1 - k])
  }

  /** Where the backward scan stops, nothing longer can be admissible. */
  lemma {:induction false} NothingLonger(messages: seq<Message>, budget: int, ceiling: int, i: nat)
    requires i <= |messages|
    requires i > 0 ==> Total(messages[i - 1..]) > budget || |messages| - i >= ceiling
    ensures forall start: nat | Admissible(messages, budget, ceiling, start) :: i <= start
  {
    forall start: nat | Admissible(messages, budget, ceiling, start) ensures i <= start {
      if start < i {
        LongerCostsMore(messages, start, i - 1);
      }
    }
  }

  /** The backward scan before its result is put in order. */
  ghost predicate Scanned(messages: seq<Message>, budget: int, ceiling: int, i: nat, newestFirst: seq<Message>) {
    && i <= |messages|
    && |newestFirst| == |messages| - i
    && (forall k :: 0 <= k < |newestFirst| ==> newestFirst[k] == messages[|messages| - 1 - k])
    && (|newestFirst| > 1 ==> Total(messages[i..]) <= budget && |newestFirst| <= ceiling)
  }

  /** The backward scan: newest message first, until the budget or the ceiling is reached. */
  method ScanBack(messages: seq<Message>, budget: int, ceiling: int)
    returns (newestFirst: seq<Message>, ghost i: nat)
    ensures Scanned(messages, budget, ceiling, i, newestFirst)
    ensures messages != [] ==> newestFirst != []
    ensures forall start: nat | Admissible(messages, budget, ceiling, start) :: i <= start
  {
    newestFirst := [];
    var total := 0;
    var next: nat := |messages|;
    while next > 0
      invariant Scanned(messages, budget, ceiling, next, newestFirst)
      invariant total == Total(messages[next..])
    {
      var message := messages[next - 1];
      var size := MessageTokens(message);
      assert messages[next - 1..][1..] == messages[next..];
      if newestFirst != [] && (total + size > budget || |newestFirst| >= ceiling) {
        break;
      }
      newestFirst := newestFirst + [message];
      total := total + size;
      next := next - 1;
    }
    NothingLonger(messages, budget, ceiling, next);
    i := next;
  }

  method SelectRecent(messages: seq<Message>, budget: int, ceiling: int)
    returns (selected: seq<Message>)
    ensures IsWindow(messages, budget, ceiling, selected)
  {
    ghost var i: nat;
    selected, i := ScanBack(messages, budget, ceiling);
    selected := Reversed(selected);
    assert selected == messages[i..];
    while |selected| > 1 && selected[0].role == Assistant
      invariant |selected| <= |messages| - i
      invariant selected == messages[|messages| - |selected|..]
      invariant messages != [] ==> selected != []
      invariant forall start: nat | Admissible(messages, budget, ceiling, start) ::
                  |messages| - |selected| <= start
    {
      selected := selected[1..];
    }
    if |selected| > 1 {
      LongerCostsMore(messages, i, |messages| - |selected|);
    }
  }

  /** At most one sequence satisfies the specification, so the window is a function of its
      arguments. */
  lemma {:induction false} WindowIsUnique(messages: seq<Message>, budget: int, ceiling: int, a: seq<Message>,
                                          b: seq<Message>)
    requires IsWindow(messages, budget, ceiling, a)
    requires IsWindow(messages, budget, ceiling, b)
    ensures a == b
  {
    if |a| > 1 {
      assert Admissible(messages, budget, ceiling, |messages| - |a|);
    }
    if |b| > 1 {
      assert Admissible(messages, budget, ceiling, |messages| - |b|);
    }
  }

  /** A larger budget or ceiling never delivers less. */
  lemma {:induction false} WindowIsMonotone(messages: seq<Message>, budget: int, ceiling: int, budget': int,
                                            ceiling': int,
                         small: seq<Message>, large: seq<Message>)
    requires budget <= budget' && ceiling <= ceiling'
    requires IsWindow(messages, budget, ceiling, small)
    requires IsWindow(messages, budget', ceiling', large)
    ensures |small| <= |large|
    ensures small == large[|large| - |small|..]
  {
    if |small| > 1 {
      var start := |messages| - |small|;
      assert Admissible(messages, budget, ceiling, start);
      assert Admissible(messages, budget', ceiling', start);
    }
  }
}
