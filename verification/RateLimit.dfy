/** `RateLimiter.check` run by one caller at a time against a Redis server. */
module RateLimit {
  import opened Wrappers
  import Text
  import opened RateLimitMachine

  // ---- What the user is told --------------------------------------------------

  function FormatRetryPhrase(seconds: int): string {
    if seconds < 60 then
      Text.IntToString(seconds) + (if seconds == 1 then " second" else " seconds")
    else
      var minutes := (seconds + 59) / 60;
      Text.IntToString(minutes) + (if minutes == 1 then " minute" else " minutes")
  }

  /** A wait is announced in whole seconds below a minute and in whole minutes from
      there on, as the least number that covers it, singular exactly for one. */
  lemma PhraseIsLeastCover(seconds: int, n: int)
    requires 0 <= seconds
    requires var unit := if seconds < 60 then 1 else 60;
             seconds <= unit * n && forall m :: seconds <= unit * m ==> n <= m
    ensures FormatRetryPhrase(seconds)
            == Text.IntToString(n) + " " + (if seconds < 60 then "second" else "minute") + (if n == 1 then "" else "s")
  {
    if seconds < 60 {
      assert seconds <= 1 * seconds;
    } else {
      var m := (seconds + 59) / 60;
      assert seconds <= 60 * m;
      assert 60 * (m - 1) < seconds;
    }
  }

  // ---- Keys -------------------------------------------------------------------

  function RedisKey(space: string, key: string): string {
    "rate_limit:" + space + ":" + key
  }

  /** Limiters whose namespaces hold no colon never share a counter. */
  lemma KeysDoNotCollide(space1: string, key1: string, space2: string, key2: string)
    requires ':' !in space1 && ':' !in space2
    requires RedisKey(space1, key1) == RedisKey(space2, key2)
    ensures space1 == space2 && key1 == key2
  {
    var tail1, tail2 := space1 + ":" + key1, space2 + ":" + key2;
    assert RedisKey(space1, key1) == "rate_limit:" + tail1;
    assert RedisKey(space2, key2) == "rate_limit:" + tail2;
    assert tail1 == RedisKey(space1, key1)[11..] == RedisKey(space2, key2)[11..] == tail2;
    Text.FindIsFirst(space1, ':', key1);
    Text.FindIsFirst(space2, ':', key2);
    assert space1 == tail1[..|space1|] && space2 == tail2[..|space2|];
    assert key1 == tail1[|space1| + 1..] && key2 == tail2[|space2| + 1..];
  }

  // ---- Redis --------------------------------------------------------------------

  /** The part of a Redis server the limiter uses. */
  class Redis {
    var now: int
    var counters: map<string, Counter>

    /** A key past its expiry is no longer there. */
    ghost predicate Valid()
      reads this
    {
      forall k :: k in counters && counters[k].expiry.Some? ==> now < counters[k].expiry.value
    }

    function Lookup(key: string): Option<Counter>
      reads this
    {
      if key in counters then Some(counters[key]) else None
    }

    constructor (now: int)
      ensures Valid() && counters == map[] && this.now == now
    {
      this.now, counters := now, map[];
    }

    method Incr(key: string) returns (count: nat)
      requires Valid()
      modifies this`counters
      ensures Valid()
      ensures count == (if key in old(counters) then old(counters)[key].count + 1 else 1)
      ensures counters == old(counters)[key := Counter(count, if key in old(counters) then old(counters)[key].expiry
                                                              else None)]
    {
      if key in counters {
        count := counters[key].count + 1;
        counters := counters[key := counters[key].(count := count)];
      } else {
        count := 1;
        counters := counters[key := Counter(1, None)];
      }
    }

    method Expire(key: string, seconds: nat)
      requires Valid() && 1 <= seconds
      modifies this`counters
      ensures Valid()
      ensures counters == if key in old(counters)
                          then old(counters)[key := old(counters)[key].(expiry := Some(now + seconds))]
                          else old(counters)
    {
      if key in counters {
        counters := counters[key := counters[key].(expiry := Some(now + seconds))];
      }
    }

    method Ttl(key: string) returns (seconds: int)
      ensures key !in counters ==> seconds == -2
      ensures key in counters && counters[key].expiry.None? ==> seconds == -1
      ensures key in counters && counters[key].expiry.Some? ==> seconds == counters[key].expiry.value - now
    {
      if key !in counters {
        seconds := -2;
      } else if counters[key].expiry.None? {
        seconds := -1;
      } else {
        seconds := counters[key].expiry.value - now;
      }
    }

    /** Time passes and expired keys disappear. */
    method Advance(seconds: nat)
      requires Valid()
      modifies this
      ensures Valid() && now == old(now) + seconds
      ensures forall k :: Lookup(k) == Wait(old(Lookup(k)), now)
    {
      now := now + seconds;
      counters := map k | k in counters && !(counters[k].expiry.Some? && counters[k].expiry.value <= now) ::
        counters[k];
    }
  }

  /** What the caller of `check` sees: nothing, or HTTP 429. */
  datatype Response = Pass | TooManyRequests(detail: string, retryAfter: string)

  function Refusal(wait: int): Response {
    TooManyRequests("Too many attempts. Please try again in " + FormatRetryPhrase(wait) + ".", Text.IntToString(wait))
  }

  function Answer(verdict: Verdict): Response {
    match verdict
    case Admit => Pass
    case Reject(wait) => Refusal(wait)
  }

  /** What a caller can rely on: passed exactly while the key was not full, and
      otherwise told, in the header and in words, after how many seconds of nobody
      touching the key the next lone check passes. */
  ghost predicate TellsTheWait(cfg: Config, now: int, key: Option<Counter>, response: Response) {
    match response
    case Pass => !Full(cfg, key)
    case TooManyRequests(detail, retryAfter) =>
      && Full(cfg, key)
      && Text.ParseInt(retryAfter).Some?
      && var wait := Text.ParseInt(retryAfter).value;
      && 1 <= wait <= cfg.window
      && retryAfter == Text.IntToString(wait)
      && detail == "Too many attempts. Please try again in " + FormatRetryPhrase(wait) + "."
      && forall d: nat :: PassesAfter(cfg, now, key, d) <==> wait <= d
  }

  /** A lone check d seconds after this one passes. */
  predicate PassesAfter(cfg: Config, now: int, key: Option<Counter>, d: nat) {
    Answer(SoloVerdict(cfg, now + d, Wait(Some(SoloCounter(cfg, now, key)), now + d))).Pass?
  }

  lemma AnswerTellsTheWait(cfg: Config, now: int, key: Option<Counter>)
    requires 1 <= cfg.limit && 1 <= cfg.window && KeyOk(cfg, now, key)
    ensures TellsTheWait(cfg, now, key, Answer(SoloVerdict(cfg, now, key)))
  {
    var verdict := SoloVerdict(cfg, now, key);
    if verdict.Reject? {
      RetryAfterIsExact(cfg, now, key, 0);
      Text.ParseIntToString(verdict.retryAfter);
      forall d: nat ensures PassesAfter(cfg, now, key, d) <==> verdict.retryAfter <= d {
        RetryAfterIsExact(cfg, now, key, d);
      }
    }
  }

  class RateLimiter {
    const space: string
    const limit: nat
    const window: nat

    constructor (space: string, limit: nat, window: nat)
      requires 1 <= window
      ensures this.space == space && this.limit == limit && this.window == window
    {
      this.space, this.limit, this.window := space, limit, window;
    }

    /** Runs the four commands with nobody in between.  The verdict and the
        counter left behind are those of the step relation's lone run; no other
        key is touched. */
    method Check(redis: Redis, key: string) returns (response: Response)
      requires redis.Valid() && 1 <= window
      modifies redis`counters
      ensures redis.Valid()
      ensures redis.counters == old(redis.counters)[RedisKey(space, key) :=
                SoloCounter(Config(limit, window), redis.now, old(redis.Lookup(RedisKey(space, key))))]
      ensures response == Answer(SoloVerdict(Config(limit, window), redis.now, old(redis.Lookup(RedisKey(space, key)))))
    {
      var redisKey := RedisKey(space, key);
      ghost var cfg, was := Config(limit, window), redis.Lookup(redisKey);
      ghost var left := SoloCounter(cfg, redis.now, was);
      var count := redis.Incr(redisKey);
      assert count == left.count;
      var repair := count == 1;
      if !repair {
        var ttl := redis.Ttl(redisKey);
        repair := ttl < 0;
      }
      if repair {
        redis.Expire(redisKey, window);
      }
      assert redis.counters == old(redis.counters)[redisKey := left];
      if count > limit {
        var ttl := redis.Ttl(redisKey);
        var retryAfter := if ttl > 0 then ttl else window;
        assert SoloVerdict(cfg, redis.now, was) == Reject(retryAfter);
        return Refusal(retryAfter);
      }
      return Pass;
    }
  }
}
