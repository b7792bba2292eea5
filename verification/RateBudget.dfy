/** `take_budget`: fixed-window request budgets kept in shared database rows. */
module RateBudget {

  /** Clock readings are in microseconds; windows are in whole seconds. */
  const MICROS := 1_000_000

  datatype Bucket = Bucket(count: nat, expiresAt: nat)

  /** The window a reading falls into. */
  function Slot(now: nat, window: nat): nat
    requires window > 0
  {
    (now / MICROS) / window
  }

  function Digit(d: nat): char
    requires d < 10
  {
    ['0', '1', '2', '3', '4', '5', '6', '7', '8', '9'][d]
  }

  function Decimal(n: nat): string {
    if n < 10 then [Digit(n)] else Decimal(n / 10) + [Digit(n % 10)]
  }

  /** The text whose keyed digest names a bucket. */
  function BucketText(action: string, slot: nat, subject: string): string {
    "guest-rate:" + (action + (":" + (Decimal(slot) + (":" + subject))))
  }

  /** The transaction: drop expired buckets, then count this call in its bucket unless the bucket
      is full. A bucket that does not exist yet is created, whatever the limit. */
  function Take(buckets: map<string, Bucket>, action: string, subject: string, limit: int, window: nat, now: nat)
    : (r: (map<string, Bucket>, bool))
    requires window > 0
  {
    var slot := Slot(now, window);
    var live := map k | k in buckets && buckets[k].expiresAt > now :: buckets[k];
    var key := BucketText(action, slot, subject);
    if key !in live then (live[key := Bucket(1, (slot + 1) * window * MICROS)], true)
    else if live[key].count < limit then (live[key := live[key].(count := live[key].count + 1)], true)
    else (live, false)
  }

  /** No expired row is left, and no live one is dropped. */
  lemma {:induction false} OnlyLiveRowsStay(buckets: map<string, Bucket>, action: string, subject: string, limit: int,
                                            window: nat, now: nat)
    requires window > 0
    ensures var rows := Take(buckets, action, subject, limit, window, now).0;
            && (forall k :: k in rows ==> rows[k].expiresAt > now)
            && (forall k :: k in buckets && buckets[k].expiresAt > now ==> k in rows)
  {
    var seconds := now / MICROS;
    assert seconds < (seconds / window + 1) * window;
    assert now < (seconds + 1) * MICROS <= (seconds / window + 1) * window * MICROS;
  }

  class RateBuckets {
    var buckets: map<string, Bucket>

    constructor ()
      ensures buckets == map[]
    {
      buckets := map[];
    }

    method TakeBudget(action: string, subject: string, limit: int, window: nat, now: nat) returns (allowed: bool)
      requires window > 0
      modifies this
      ensures (buckets, allowed) == Take(old(buckets), action, subject, limit, window, now)
    {
      var slot := (now / MICROS) / window;
      var bucket := BucketText(action, slot, subject);
      var expires := (slot + 1) * window * MICROS;
      buckets := map k | k in buckets && buckets[k].expiresAt > now :: buckets[k];
      if bucket !in buckets {
        buckets := buckets[bucket := Bucket(1, expires)];
        allowed := true;
      } else if buckets[bucket].count < limit {
        buckets := buckets[bucket := buckets[bucket].(count := buckets[bucket].count + 1)];
        allowed := true;
      } else {
        allowed := false;
      }
    }
  }

  // -------------------------------------------------------------- bucket names

  lemma {:induction false} DecimalHasNoColon(n: nat)
    ensures Decimal(n) != [] && ':' !in Decimal(n)
    decreases n
  {
    if n >= 10 {
      DecimalHasNoColon(n / 10);
    }
  }

  lemma {:induction false} DigitInjective(a: nat, b: nat)
    requires a < 10 && b < 10 && Digit(a) == Digit(b)
    ensures a == b
  {
  }

  lemma {:induction false} DecimalInjective(a: nat, b: nat)
    requires Decimal(a) == Decimal(b)
    ensures a == b
    decreases a
  {
    DecimalHasNoColon(a / 10);
    DecimalHasNoColon(b / 10);
    var n := |Decimal(a)|;
    assert Decimal(a)[n - 1] == Digit(a % 10) && Decimal(b)[n - 1] == Digit(b % 10);
    DigitInjective(a % 10, b % 10);
    if a >= 10 && b >= 10 {
      assert Decimal(a)[..n - 1] == Decimal(a / 10);
      assert Decimal(b)[..n - 1] == Decimal(b / 10);
      DecimalInjective(a / 10, b / 10);
    }
  }

  lemma {:induction false} SplitAtColon(a: string, x: string, b: string, y: string)
    requires ':' !in a && ':' !in b
    requires a + (":" + x) == b + (":" + y)
    ensures a == b && x == y
  {
    var s, t := a + (":" + x), b + (":" + y);
    assert s[|a|] == ':' && t[|b|] == ':';
    assert a == s[..|a|] && b == t[..|b|];
    assert x == s[|a| + 1..] && y == t[|b| + 1..];
  }

  /** Different budgets never share a bucket: for action names without a colon, which all the
      names in use are, the bucket text determines action, window and subject. */
  lemma {:induction false} BucketTextInjective(action: string, slot: nat, subject: string,
                                               action': string, slot': nat, subject': string)
    requires ':' !in action && ':' !in action'
    requires BucketText(action, slot, subject) == BucketText(action', slot', subject')
    ensures action == action' && slot == slot' && subject == subject'
  {
    var p := "guest-rate:";
    var a, b := BucketText(action, slot, subject), BucketText(action', slot', subject');
    assert a[|p|..] == action + (":" + (Decimal(slot) + (":" + subject)));
    assert b[|p|..] == action' + (":" + (Decimal(slot') + (":" + subject')));
    SplitAtColon(action, Decimal(slot) + (":" + subject), action', Decimal(slot') + (":" + subject'));
    DecimalHasNoColon(slot);
    DecimalHasNoColon(slot');
    SplitAtColon(Decimal(slot), subject, Decimal(slot'), subject');
    DecimalInjective(slot, slot');
  }

  lemma {:induction false} ActionNamesInUse()
    ensures ':' !in "login-ip" && ':' !in "request-ip" && ':' !in "email-day"
  {
  }
}
