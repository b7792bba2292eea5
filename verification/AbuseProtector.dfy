/** `AuthAbuseProtector`: the in-process attempt limiter. */
module AbuseProtector {
  import opened Basics
  import opened AttemptLog

  /** An action and a normalised, digested identifier. */
  datatype Key = Key(action: nat, identifier: nat)

  datatype Config = Config(enabled: bool, maxAttempts: int, windowSeconds: real)

  /** The protector keeps one counter per key; its abstraction is a plain log of the attempts
      recorded for the key since its last reset. `clock` is the latest time it has seen. */
  class AuthAbuseProtector {
    const config: Config
    var buckets: map<Key, Bucket>
    ghost var log: map<Key, seq<real>>
    ghost var clock: real

    ghost function Attempts(key: Key): seq<real>
      reads this
    {
      if key in log then log[key] else []
    }

    /** Each counter is the log's current window, and a missing counter means that the log is
        empty or its window is over. */
    ghost predicate Valid()
      reads this
    {
      && config.windowSeconds > 0.0
      && forall key :: Matches(Counter(key), Attempts(key)) && Past(Attempts(key))
    }

    /** Attempts are logged in the order of time, up to the latest time seen. */
    ghost predicate Past(times: seq<real>)
      reads this
    {
      Sorted(times) && (times != [] ==> times[|times| - 1] <= clock)
    }

    function Counter(key: Key): Option<Bucket>
      reads this
    {
      if key in buckets then Some(buckets[key]) else None
    }

    ghost predicate Matches(counter: Option<Bucket>, times: seq<real>)
      reads this
    {
      var b := Current(times, config.windowSeconds);
      if counter.Some? then b == counter else b.None? || b.value.resetAt <= clock
    }

    constructor (config: Config)
      requires config.windowSeconds > 0.0
      ensures Valid() && this.config == config && log == map[] && buckets == map[]
    {
      this.config := config;
      buckets := map[];
      log := map[];
    }

    /** `_active_bucket`: an expired counter is dropped on the way. */
    method ActiveBucket(key: Key, now: real) returns (bucket: Option<Bucket>)
      requires Valid() && clock <= now
      modifies this
      ensures Valid() && log == old(log) && clock == now
      ensures forall k :: k != key ==> Counter(k) == old(Counter(k))
      ensures bucket == Counter(key)
      ensures bucket.Some? <==> && Current(Attempts(key), config.windowSeconds).Some?
                                && Current(Attempts(key), config.windowSeconds).value.resetAt > now
      ensures bucket.Some? ==> bucket == Current(Attempts(key), config.windowSeconds)
    {
      assert Matches(Counter(key), Attempts(key));
      clock := now;
      bucket := None;
      if key in buckets {
        if buckets[key].resetAt <= now {
          buckets := buckets - {key};
        } else {
          bucket := Some(buckets[key]);
        }
      }
      forall k ensures Matches(Counter(k), Attempts(k)) && Past(Attempts(k)) {
        assert old(Matches(Counter(k), Attempts(k)) && Past(Attempts(k)));
        assert Attempts(k) == old(Attempts(k));
      }
    }

    /** The check refuses an attempt exactly when the key's log has a full window open. */
    method AssertAllowed(key: Key, now: real) returns (allowed: bool)
      requires Valid() && clock <= now
      modifies this
      ensures Valid() && log == old(log)
      ensures !config.enabled ==> allowed && buckets == old(buckets) && clock == old(clock)
      ensures config.enabled ==> clock == now
      ensures config.enabled ==>
                (allowed <==> !Full(old(Attempts(key)), config.windowSeconds, config.maxAttempts, now))
    {
      if !config.enabled {
        return true;
      }
      assert Past(Attempts(key));
      RefusedIffFull(Attempts(key), config.windowSeconds, config.maxAttempts, now);
      var bucket := ActiveBucket(key, now);
      assert Attempts(key) == old(Attempts(key));
      allowed := !(bucket.Some? && bucket.value.count >= config.maxAttempts);
    }

    /** Recording appends to the key's log and to nothing else. */
    method RecordAttempt(key: Key, now: real)
      requires Valid() && clock <= now
      modifies this
      ensures Valid()
      ensures !config.enabled ==> log == old(log) && buckets == old(buckets) && clock == old(clock)
      ensures config.enabled ==> clock == now && log == old(log)[key := old(Attempts(key)) + [now]]
    {
      if !config.enabled {
        return;
      }
      var bucket := ActiveBucket(key, now);
      ghost var before := Attempts(key);
      assert before == old(Attempts(key));
      CurrentNext(before, now, config.windowSeconds);
      label found:
      log := log[key := before + [now]];
      if bucket.None? {
        buckets := buckets[key := Bucket(1, now + config.windowSeconds)];
      } else {
        buckets := buckets[key := bucket.value.(count := bucket.value.count + 1)];
      }
      assert Past(before + [now]) by {
        assert old@found(Past(Attempts(key)));
        SortedNext(before, now);
      }
      forall k ensures Matches(Counter(k), Attempts(k)) && Past(Attempts(k)) {
        if k != key {
          assert old@found(Matches(Counter(k), Attempts(k)) && Past(Attempts(k)));
          assert Attempts(k) == old@found(Attempts(k)) && Counter(k) == old@found(Counter(k));
        }
      }
    }

    method Reset(key: Key)
      requires Valid()
      modifies this
      ensures Valid() && clock == old(clock)
      ensures config.enabled ==> log == old(log) - {key} && buckets == old(buckets) - {key}
      ensures !config.enabled ==> log == old(log) && buckets == old(buckets)
    {
      if !config.enabled {
        return;
      }
      buckets := buckets - {key};
      log := log - {key};
      forall k ensures Matches(Counter(k), Attempts(k)) && Past(Attempts(k)) {
        assert old(Matches(Counter(k), Attempts(k)) && Past(Attempts(k)));
        assert k != key ==> Attempts(k) == old(Attempts(k)) && Counter(k) == old(Counter(k));
      }
    }

    /** One guarded attempt: the check, and the record when it passes. */
    method Attempt(key: Key, checkedAt: real, recordedAt: real) returns (allowed: bool)
      requires Valid() && clock <= checkedAt <= recordedAt
      modifies this
      ensures Valid()
      ensures config.enabled ==>
                && (allowed <==> !Full(old(Attempts(key)), config.windowSeconds, config.maxAttempts, checkedAt))
                && (allowed <==> Permits(old(Attempts(key)), config.windowSeconds, config.maxAttempts, checkedAt))
                && (allowed ==> log == old(log)[key := old(Attempts(key)) + [recordedAt]] && clock == recordedAt)
                && (!allowed ==> log == old(log) && clock == checkedAt)
      ensures !config.enabled ==> allowed && log == old(log)
      ensures config.enabled ==>
                Attempts(key) == if allowed then old(Attempts(key)) + [recordedAt] else old(Attempts(key))
    {
      if config.enabled {
        assert Past(Attempts(key));
        RefusedIffFull(Attempts(key), config.windowSeconds, config.maxAttempts, checkedAt);
      }
      allowed := AssertAllowed(key, checkedAt);
      if allowed {
        assert Attempts(key) == old(Attempts(key));
        RecordAttempt(key, recordedAt);
      }
    }
  }

  /** Any sequence of guarded attempts for one key on an enabled protector, starting with an empty
      log and with no reset in between, refuses exactly the checks made while a window is open that
      already holds as many admitted attempts as allowed, and stays within the budget: at most twice
      the capacity less one in any half-open interval of window length, and at most the capacity in one
      window. */
  method GuardedAttempts(p: AuthAbuseProtector, key: Key, checks: seq<real>, records: seq<real>)
    returns (answers: seq<bool>, admitted: seq<real>)
    requires p.Valid() && p.config.enabled && p.Attempts(key) == []
    requires Timed(checks, records) && (checks != [] ==> p.clock <= checks[0])
    modifies p
    ensures p.Valid() && p.Attempts(key) == admitted
    ensures |answers| == |checks| && AllObey(checks, records, answers, p.config.windowSeconds, p.config.maxAttempts)
    ensures admitted == Admitted(records, answers, |records|)
    ensures Bounded(admitted, p.config.windowSeconds, p.config.maxAttempts)
    ensures admitted != [] ==>
              Current(admitted, p.config.windowSeconds).value.count <= Capacity(p.config.maxAttempts)
  {
    answers, admitted := [], [];
    ghost var window, limit := p.config.windowSeconds, p.config.maxAttempts;
    var i := 0;
    while i < |checks|
      invariant 0 <= i <= |checks|
      invariant p.Valid() && p.Attempts(key) == admitted
      invariant i < |checks| ==> p.clock <= checks[i]
      invariant admitted == Replayed(checks[..i], records[..i], window, limit)
      invariant answers == Answers(checks[..i], records[..i], window, limit)
    {
      ReplayedNext(checks, records, i, window, limit);
      var allowed := p.Attempt(key, checks[i], records[i]);
      if allowed {
        admitted := admitted + [records[i]];
      }
      answers := answers + [allowed];
      i := i + 1;
    }
    assert checks[..i] == checks && records[..i] == records;
    SeriesIsGuarded(checks, records, window, limit);
  }
}
