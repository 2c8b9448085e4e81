/** The fixed-window rate limiter as a step relation over Redis commands.

    Each caller runs one check.  A check is a sequence of separate Redis
    commands, so the commands of any number of callers interleave freely with
    each other, with the passing of time and with callers that die half way.
    A counter key lives from the INCR that creates it until it expires; the
    lifetimes of the key are numbered, and `starts` records when each began. */
module RateLimitMachine {
  import opened Wrappers

  /** `limit` calls per `window` seconds.  EXPIRE with a positive number of
      seconds never deletes the key, so the window is positive. */
  datatype Config = Config(limit: nat, window: nat)

  datatype Counter = Counter(count: nat, expiry: Option<int>)

  /** Where a caller stands in `check`. */
  datatype Stage =
    | ReadTtl                    // counted above 1, about to issue TTL
    | SetExpire                  // about to issue EXPIRE
    | Decide                     // past the repair, about to compare with the limit
    | Admitted
    | Rejected(retryAfter: int)

  /** A caller remembers the count INCR returned; the lifetime it counted in
      and the moment it did are bookkeeping the program itself does not hold. */
  datatype Caller = Caller(stage: Stage, count: nat, life: nat, at: int, alive: bool)

  datatype State = State(now: int, key: Option<Counter>, callers: map<nat, Caller>, starts: seq<int>)

  datatype Event =
    | Incr(who: nat)
    | Ttl(who: nat)
    | Expire(who: nat)
    | Finish(who: nat)
    | Die(who: nat)
    | Tick(seconds: nat)

  /** What TTL answers: -2 for no key, -1 for a key that never expires. */
  function TtlOf(s: State): int {
    match s.key
    case None => -2
    case Some(Counter(_, None)) => -1
    case Some(Counter(_, Some(e))) => e - s.now
  }

  predicate At(s: State, who: nat, stage: Stage) {
    who in s.callers && s.callers[who].alive && s.callers[who].stage == stage
  }

  predicate Enabled(s: State, e: Event) {
    match e
    case Incr(who) => who !in s.callers
    case Ttl(who) => At(s, who, ReadTtl)
    case Expire(who) => At(s, who, SetExpire)
    case Finish(who) => At(s, who, Decide)
    case Die(who) => who in s.callers && s.callers[who].alive
    case Tick(d) => 0 < d
  }

  function Move(s: State, who: nat, stage: Stage): State
    requires who in s.callers
  {
    s.(callers := s.callers[who := s.callers[who].(stage := stage)])
  }

  function Next(cfg: Config, s: State, e: Event): State
    requires Enabled(s, e)
  {
    match e
    case Incr(who) =>
      var count := if s.key.Some? then s.key.value.count + 1 else 1;
      var starts := if s.key.Some? then s.starts else s.starts + [s.now];
      var stage := if count == 1 then SetExpire else ReadTtl;
      State(s.now,
            Some(Counter(count, if s.key.Some? then s.key.value.expiry else None)),
            s.callers[who := Caller(stage, count, if |starts| == 0 then 0 else |starts| - 1, s.now, true)],
            starts)
    case Ttl(who) =>
      Move(s, who, if TtlOf(s) < 0 then SetExpire else Decide)
    case Expire(who) =>
      var s' := if s.key.None? then s else s.(key := Some(s.key.value.(expiry := Some(s.now + cfg.window))));
      Move(s', who, Decide)
    case Finish(who) =>
      if s.callers[who].count <= cfg.limit then Move(s, who, Admitted)
      else Move(s, who, Rejected(if TtlOf(s) > 0 then TtlOf(s) else cfg.window))
    case Die(who) =>
      s.(callers := s.callers[who := s.callers[who].(alive := false)])
    case Tick(d) =>
      var now := s.now + d;
      var gone := s.key.Some? && s.key.value.expiry.Some? && s.key.value.expiry.value <= now;
      s.(now := now, key := if gone then None else s.key)
  }

  /** A run is any sequence of enabled events. */
  predicate Runs(cfg: Config, s: State, events: seq<Event>, t: State)
    decreases |events|
  {
    if |events| == 0 then s == t
    else Enabled(s, events[0]) && Runs(cfg, Next(cfg, s, events[0]), events[1..], t)
  }

  /** Before any check: either no key, or one left over by earlier checks.  A
      leftover may have lost its expiry (its creator died), and one that has an
      expiry got it from EXPIRE with this window. */
  predicate Init(cfg: Config, s: State) {
    && 1 <= cfg.window
    && s.callers == map[]
    && match s.key
       case None => s.starts == []
       case Some(Counter(n, None)) => 1 <= n && s.starts == [s.now]
       case Some(Counter(n, Some(e))) => 1 <= n && s.now < e <= s.now + cfg.window && s.starts == [e - cfg.window]
  }

  // ---- The invariant -------------------------------------------------------

  ghost predicate ClockOk(cfg: Config, s: State) {
    && 1 <= cfg.window
    && (forall k :: 0 <= k < |s.starts| ==> s.starts[k] <= s.now)
    && (forall j, k :: 0 <= j < k < |s.starts| ==> s.starts[j] + cfg.window <= s.starts[k])
    && (s.key.None? ==> forall k :: 0 <= k < |s.starts| ==> s.starts[k] + cfg.window <= s.now)
    && (s.key.Some? ==> 1 <= |s.starts| && 1 <= s.key.value.count)
    && (s.key.Some? && s.key.value.expiry.Some? ==>
          && s.now < s.key.value.expiry.value <= s.now + cfg.window
          && s.starts[|s.starts| - 1] + cfg.window <= s.key.value.expiry.value)
  }

  /** What holds of each caller by itself. */
  ghost predicate CallerOk(cfg: Config, s: State, c: Caller) {
    && c.life < |s.starts|
    && 1 <= c.count
    && s.starts[c.life] <= c.at <= s.now
    && (c.life + 1 < |s.starts| ==> c.at < s.starts[c.life + 1])
    && (s.key.None? ==> c.at < s.now)
    && (s.key.Some? && c.life == |s.starts| - 1 ==> c.count <= s.key.value.count)
    && (s.key.Some? && s.key.value.expiry.None? && c.life == |s.starts| - 1 ==> c.stage.ReadTtl? || c.stage.SetExpire?)
    && (c.stage.Admitted? ==> c.count <= cfg.limit)
    && (c.stage.Rejected? ==> cfg.limit < c.count && 1 <= c.stage.retryAfter <= cfg.window)
  }

  ghost predicate Inv(cfg: Config, s: State) {
    && ClockOk(cfg, s)
    && (forall c :: c in s.callers ==> CallerOk(cfg, s, s.callers[c]))
    && (forall c, d :: c in s.callers && d in s.callers && c != d && s.callers[c].life == s.callers[d].life
          ==> s.callers[c].count != s.callers[d].count)
  }

  lemma IncrKeepsClock(cfg: Config, s: State, e: Event)
    requires ClockOk(cfg, s) && Enabled(s, e) && e.Incr?
    ensures ClockOk(cfg, Next(cfg, s, e))
  {
  }

  lemma TickKeepsClock(cfg: Config, s: State, e: Event)
    requires ClockOk(cfg, s) && Enabled(s, e) && e.Tick?
    ensures ClockOk(cfg, Next(cfg, s, e))
  {
  }

  lemma NextKeepsClock(cfg: Config, s: State, e: Event)
    requires ClockOk(cfg, s) && Enabled(s, e)
    ensures ClockOk(cfg, Next(cfg, s, e))
  {
    match e
    case Incr(_) => IncrKeepsClock(cfg, s, e);
    case Tick(_) => TickKeepsClock(cfg, s, e);
    case _ =>
  }

  lemma IncrKeepsCaller(cfg: Config, s: State, e: Event, who: nat)
    requires ClockOk(cfg, s) && Enabled(s, e) && e.Incr?
    requires who in s.callers ==> CallerOk(cfg, s, s.callers[who])
    requires who in Next(cfg, s, e).callers
    ensures CallerOk(cfg, Next(cfg, s, e), Next(cfg, s, e).callers[who])
  {
  }

  lemma TickKeepsCaller(cfg: Config, s: State, e: Event, who: nat)
    requires ClockOk(cfg, s) && Enabled(s, e) && e.Tick?
    requires who in s.callers && CallerOk(cfg, s, s.callers[who])
    ensures CallerOk(cfg, Next(cfg, s, e), Next(cfg, s, e).callers[who])
  {
  }

  lemma CommandKeepsCaller(cfg: Config, s: State, e: Event, who: nat)
    requires ClockOk(cfg, s) && Enabled(s, e) && !e.Incr? && !e.Tick?
    requires who in s.callers && CallerOk(cfg, s, s.callers[who])
    ensures CallerOk(cfg, Next(cfg, s, e), Next(cfg, s, e).callers[who])
  {
    if e.who != who {
      assert Next(cfg, s, e).callers[who] == s.callers[who];
    }
  }

  lemma NextKeepsCaller(cfg: Config, s: State, e: Event, who: nat)
    requires ClockOk(cfg, s) && Enabled(s, e)
    requires who in s.callers ==> CallerOk(cfg, s, s.callers[who])
    requires who in Next(cfg, s, e).callers
    ensures CallerOk(cfg, Next(cfg, s, e), Next(cfg, s, e).callers[who])
  {
    if e.Incr? {
      IncrKeepsCaller(cfg, s, e, who);
    } else if e.Tick? {
      TickKeepsCaller(cfg, s, e, who);
    } else {
      CommandKeepsCaller(cfg, s, e, who);
    }
  }

  /** INCR never hands out the same count twice in one lifetime of the key. */
  lemma NextKeepsCountsApart(cfg: Config, s: State, e: Event, c: nat, d: nat)
    requires Inv(cfg, s) && Enabled(s, e)
    requires c in Next(cfg, s, e).callers && d in Next(cfg, s, e).callers && c != d
    requires Next(cfg, s, e).callers[c].life == Next(cfg, s, e).callers[d].life
    ensures Next(cfg, s, e).callers[c].count != Next(cfg, s, e).callers[d].count
  {
    if e.Incr? && (c == e.who || d == e.who) {
      var other := if c == e.who then d else c;
      assert CallerOk(cfg, s, s.callers[other]);
    }
  }

  lemma NextKeepsInv(cfg: Config, s: State, e: Event)
    requires Inv(cfg, s) && Enabled(s, e)
    ensures Inv(cfg, Next(cfg, s, e))
  {
    var t := Next(cfg, s, e);
    NextKeepsClock(cfg, s, e);
    forall c | c in t.callers ensures CallerOk(cfg, t, t.callers[c]) {
      NextKeepsCaller(cfg, s, e, c);
    }
    forall c, d | c in t.callers && d in t.callers && c != d && t.callers[c].life == t.callers[d].life
      ensures t.callers[c].count != t.callers[d].count
    {
      NextKeepsCountsApart(cfg, s, e, c, d);
    }
  }

  lemma {:induction false} RunsKeepInv(cfg: Config, s: State, events: seq<Event>, t: State)
    requires Inv(cfg, s) && Runs(cfg, s, events, t)
    ensures Inv(cfg, t)
    decreases |events|
  {
    if |events| > 0 {
      NextKeepsInv(cfg, s, events[0]);
      RunsKeepInv(cfg, Next(cfg, s, events[0]), events[1..], t);
    }
  }

  lemma InitEstablishesInv(cfg: Config, s: State)
    requires Init(cfg, s)
    ensures Inv(cfg, s)
  {
  }

  // ---- At most `limit` admissions per lifetime ------------------------------

  ghost function AdmittedIn(s: State, life: nat): set<nat> {
    set c | c in s.callers && s.callers[c].stage.Admitted? && s.callers[c].life == life
  }

  /** Callers with pairwise different counts in 1..n are at most n. */
  lemma {:induction false} DistinctCountsBound(s: State, group: set<nat>, n: nat)
    requires forall c :: c in group ==> c in s.callers && 1 <= s.callers[c].count <= n
    requires forall c, d :: c in group && d in group && c != d ==> s.callers[c].count != s.callers[d].count
    ensures |group| <= n
  {
    if n == 0 {
      assert group == {};
    } else if c :| c in group && s.callers[c].count == n {
      DistinctCountsBound(s, group - {c}, n - 1);
    } else {
      DistinctCountsBound(s, group, n - 1);
    }
  }

  lemma LifetimeBoundInState(cfg: Config, s: State, life: nat, group: set<nat>)
    requires Inv(cfg, s) && group <= AdmittedIn(s, life)
    ensures |group| <= cfg.limit
  {
    forall c | c in group ensures c in s.callers && 1 <= s.callers[c].count <= cfg.limit {
      assert CallerOk(cfg, s, s.callers[c]);
    }
    DistinctCountsBound(s, group, cfg.limit);
  }

  /** However the commands interleave, whoever dies and whenever the key
      expires, one lifetime of the key admits at most `limit` calls, and a
      finished call was admitted exactly when INCR gave it at most `limit`. */
  lemma AtMostLimitPerLifetime(cfg: Config, init: State, events: seq<Event>, s: State, life: nat)
    requires Init(cfg, init) && Runs(cfg, init, events, s)
    ensures |AdmittedIn(s, life)| <= cfg.limit
    ensures forall c :: c in s.callers && (s.callers[c].stage.Admitted? || s.callers[c].stage.Rejected?) ==>
              (s.callers[c].stage.Admitted? <==> s.callers[c].count <= cfg.limit)
  {
    InitEstablishesInv(cfg, init);
    RunsKeepInv(cfg, init, events, s);
    LifetimeBoundInState(cfg, s, life, AdmittedIn(s, life));
    forall c | c in s.callers ensures CallerOk(cfg, s, s.callers[c]) {}
  }

  // ---- At most 2 * limit admissions per window ------------------------------

  /** Admitted calls whose INCR fell into [from, from + window). */
  ghost function AdmittedDuring(cfg: Config, s: State, from: int): set<nat> {
    set c | c in s.callers && s.callers[c].stage.Admitted? && from <= s.callers[c].at < from + cfg.window
  }

  /** Three lifetimes cannot all be counted in within one window. */
  lemma LivesSpanWindow(cfg: Config, s: State, a: nat, b: nat, c: nat)
    requires Inv(cfg, s) && a in s.callers && b in s.callers && c in s.callers
    requires s.callers[a].life < s.callers[b].life < s.callers[c].life
    ensures s.callers[a].at + cfg.window < s.callers[c].at
  {
    assert CallerOk(cfg, s, s.callers[a]);
    assert CallerOk(cfg, s, s.callers[c]);
    var la, lb, lc := s.callers[a].life, s.callers[b].life, s.callers[c].life;
    assert la + 1 < lb ==> s.starts[la + 1] + cfg.window <= s.starts[lb];
    assert s.starts[lb] + cfg.window <= s.starts[lc];
  }

  lemma AtMostTwoLives(cfg: Config, s: State, from: int, a: nat, b: nat, c: nat)
    requires Inv(cfg, s) && a in s.callers && b in s.callers && c in s.callers
    ensures from <= s.callers[a].at < from + cfg.window && from <= s.callers[b].at < from + cfg.window
            && from <= s.callers[c].at < from + cfg.window && s.callers[a].life != s.callers[b].life
            ==> s.callers[c].life == s.callers[a].life || s.callers[c].life == s.callers[b].life
  {
    var la, lb, lc := s.callers[a].life, s.callers[b].life, s.callers[c].life;
    if la < lb < lc { LivesSpanWindow(cfg, s, a, b, c); }
    if la < lc < lb { LivesSpanWindow(cfg, s, a, c, b); }
    if lb < la < lc { LivesSpanWindow(cfg, s, b, a, c); }
    if lb < lc < la { LivesSpanWindow(cfg, s, b, c, a); }
    if lc < la < lb { LivesSpanWindow(cfg, s, c, a, b); }
    if lc < lb < la { LivesSpanWindow(cfg, s, c, b, a); }
  }

  /** Those of a window who counted in another lifetime than `a` share one. */
  lemma OthersBound(cfg: Config, s: State, from: int, a: nat, others: set<nat>)
    requires Inv(cfg, s) && a in AdmittedDuring(cfg, s, from) && others <= AdmittedDuring(cfg, s, from)
    requires forall c :: c in others ==> s.callers[c].life != s.callers[a].life
    ensures |others| <= cfg.limit
  {
    if b :| b in others {
      forall c | c in others ensures c in AdmittedIn(s, s.callers[b].life) {
        AtMostTwoLives(cfg, s, from, a, b, c);
      }
      LifetimeBoundInState(cfg, s, s.callers[b].life, others);
    }
  }

  lemma PartsAddUp<T>(all: set<T>, part: set<T>)
    requires part <= all
    ensures |all| == |part| + |all - part|
  {
  }

  lemma WindowBoundInState(cfg: Config, s: State, from: int, a: nat)
    requires Inv(cfg, s) && a in AdmittedDuring(cfg, s, from)
    ensures |AdmittedDuring(cfg, s, from)| <= 2 * cfg.limit
  {
    var all := AdmittedDuring(cfg, s, from);
    var same := set c | c in all && s.callers[c].life == s.callers[a].life;
    LifetimeBoundInState(cfg, s, s.callers[a].life, same);
    OthersBound(cfg, s, from, a, all - same);
    PartsAddUp(all, same);
  }

  /** Any half-open interval as long as the window holds at most 2 * limit
      admitted calls, in every interleaving: an EXPIRE, however late, never
      ends a lifetime sooner than one window after it began. */
  lemma AtMostTwiceLimitPerWindow(cfg: Config, init: State, events: seq<Event>, s: State, from: int)
    requires Init(cfg, init) && Runs(cfg, init, events, s)
    ensures |AdmittedDuring(cfg, s, from)| <= 2 * cfg.limit
  {
    InitEstablishesInv(cfg, init);
    RunsKeepInv(cfg, init, events, s);
    if a :| a in AdmittedDuring(cfg, s, from) {
      WindowBoundInState(cfg, s, from, a);
    }
  }

  // ---- No lockout is permanent ----------------------------------------------

  predicate PastRepair(stage: Stage) {
    !stage.ReadTtl? && !stage.SetExpire?
  }

  /** While the key has no expiry, nobody who counted in this lifetime has got
      past the repair: so one completed check of the lifetime, admitted or
      rejected, leaves a key that expires within a window. */
  lemma CompletedCheckLeavesExpiry(cfg: Config, init: State, events: seq<Event>, s: State, who: nat)
    requires Init(cfg, init) && Runs(cfg, init, events, s)
    requires who in s.callers && PastRepair(s.callers[who].stage)
    requires s.key.Some? && s.callers[who].life == |s.starts| - 1
    ensures s.key.value.expiry.Some? && s.now < s.key.value.expiry.value <= s.now + cfg.window
  {
    InitEstablishesInv(cfg, init);
    RunsKeepInv(cfg, init, events, s);
    assert CallerOk(cfg, s, s.callers[who]);
  }

  /** The callers that may still issue EXPIRE, including late ones that counted
      in an earlier lifetime. */
  ghost function Pending(s: State): set<nat> {
    set c | c in s.callers && At(s, c, SetExpire)
  }

  ghost predicate Bounded(s: State) {
    s.key.Some? && s.key.value.expiry.Some?
  }

  /** The latest moment the current lifetime can reach: each caller about to
      issue EXPIRE can push it out by one window, once. */
  ghost function Horizon(cfg: Config, s: State): int
    requires Bounded(s)
  {
    s.key.value.expiry.value + cfg.window * |Pending(s)|
  }

  /** While the key has an expiry nobody joins the pending callers, and an
      EXPIRE takes its caller out of them. */
  lemma PendingOnlyShrinks(cfg: Config, s: State, e: Event)
    requires ClockOk(cfg, s) && Enabled(s, e) && Bounded(s)
    ensures Pending(Next(cfg, s, e)) <= Pending(s)
    ensures e.Expire? ==> Pending(Next(cfg, s, e)) == Pending(s) - {e.who} && e.who in Pending(s)
  {
  }

  lemma NextKeepsHorizon(cfg: Config, s: State, e: Event)
    requires ClockOk(cfg, s) && Enabled(s, e) && Bounded(s) && Next(cfg, s, e).key.Some?
    ensures Bounded(Next(cfg, s, e)) && Horizon(cfg, Next(cfg, s, e)) <= Horizon(cfg, s)
  {
    var t := Next(cfg, s, e);
    PendingOnlyShrinks(cfg, s, e);
    SubsetSize(Pending(t), Pending(s));
    MulMonotone(cfg.window, |Pending(t)|, |Pending(s)|);
    if e.Expire? {
      assert |Pending(s)| == |Pending(t)| + 1;
      assert cfg.window * |Pending(s)| == cfg.window * |Pending(t)| + cfg.window;
    }
  }

  lemma SubsetSize<T>(a: set<T>, b: set<T>)
    requires a <= b
    ensures |a| <= |b|
  {
    PartsAddUp(b, a);
  }

  lemma MulMonotone(w: nat, a: nat, b: nat)
    requires a <= b
    ensures w * a <= w * b
  {
  }

  /** Once the key is gone, a key that exists again is a later lifetime. */
  lemma {:induction false} LifetimesOnlyAdvance(cfg: Config, s: State, events: seq<Event>, t: State)
    requires Runs(cfg, s, events, t)
    ensures |s.starts| <= |t.starts|
    ensures s.key.None? && t.key.Some? ==> |s.starts| < |t.starts|
    decreases |events|
  {
    if |events| > 0 {
      LifetimesOnlyAdvance(cfg, Next(cfg, s, events[0]), events[1..], t);
    }
  }

  lemma {:induction false} RunsKeepHorizon(cfg: Config, s: State, events: seq<Event>, t: State)
    requires Inv(cfg, s) && Bounded(s) && Runs(cfg, s, events, t)
    requires t.key.Some? && |t.starts| == |s.starts|
    ensures Bounded(t) && Horizon(cfg, t) <= Horizon(cfg, s)
    decreases |events|
  {
    if |events| > 0 {
      var s' := Next(cfg, s, events[0]);
      NextKeepsInv(cfg, s, events[0]);
      LifetimesOnlyAdvance(cfg, s', events[1..], t);
      NextKeepsHorizon(cfg, s, events[0]);
      RunsKeepHorizon(cfg, s', events[1..], t);
    }
  }

  /** From the first moment a lifetime has an expiry, whatever anyone does next,
      the lifetime is over once the clock reaches the horizon computed at that
      moment.  With nobody waiting to issue EXPIRE the horizon is the expiry
      itself: the window is fixed. */
  lemma LockoutEndsByHorizon(cfg: Config, init: State, before: seq<Event>, s: State, after: seq<Event>, t: State)
    requires Init(cfg, init) && Runs(cfg, init, before, s) && Bounded(s) && Runs(cfg, s, after, t)
    ensures t.key.Some? && |t.starts| == |s.starts| ==> t.now < Horizon(cfg, s)
    ensures t.key.Some? && |t.starts| == |s.starts| && Pending(s) == {} ==> t.key.value.expiry == s.key.value.expiry
  {
    InitEstablishesInv(cfg, init);
    RunsKeepInv(cfg, init, before, s);
    RunsKeepInv(cfg, s, after, t);
    if t.key.Some? && |t.starts| == |s.starts| {
      RunsKeepHorizon(cfg, s, after, t);
      MulMonotone(cfg.window, 0, |Pending(t)|);
      if Pending(s) == {} {
        RunsKeepSettledExpiry(cfg, s, after, t);
      }
    }
  }

  lemma {:induction false} RunsKeepSettledExpiry(cfg: Config, s: State, events: seq<Event>, t: State)
    requires Inv(cfg, s) && Bounded(s) && Pending(s) == {} && Runs(cfg, s, events, t)
    requires t.key.Some? && |t.starts| == |s.starts|
    ensures t.key.value.expiry == s.key.value.expiry
    decreases |events|
  {
    if |events| > 0 {
      var s' := Next(cfg, s, events[0]);
      NextKeepsInv(cfg, s, events[0]);
      LifetimesOnlyAdvance(cfg, s', events[1..], t);
      PendingOnlyShrinks(cfg, s, events[0]);
      RunsKeepSettledExpiry(cfg, s', events[1..], t);
    }
  }

  // ---- A check that runs alone -----------------------------------------------

  datatype Verdict = Admit | Reject(retryAfter: int)

  /** The counter an undisturbed check leaves behind. */
  function SoloCounter(cfg: Config, now: int, key: Option<Counter>): Counter {
    match key
    case None => Counter(1, Some(now + cfg.window))
    case Some(Counter(n, None)) => Counter(n + 1, Some(now + cfg.window))
    case Some(Counter(n, Some(e))) => Counter(n + 1, Some(if n == 0 then now + cfg.window else e))
  }

  function SoloVerdict(cfg: Config, now: int, key: Option<Counter>): Verdict {
    var after := SoloCounter(cfg, now, key);
    if after.count <= cfg.limit then Admit
    else Reject(if after.expiry.value > now then after.expiry.value - now else cfg.window)
  }

  /** The commands one check issues when nothing comes between them. */
  function SoloEvents(s: State, who: nat): seq<Event> {
    if s.key.None? || s.key.value.count == 0 then [Incr(who), Expire(who), Finish(who)]
    else if s.key.value.expiry.None? then [Incr(who), Ttl(who), Expire(who), Finish(who)]
    else [Incr(who), Ttl(who), Finish(who)]
  }

  /** The sequential account of `check` is one run of the step relation. */
  lemma SoloRunIsCheck(cfg: Config, s: State, who: nat) returns (t: State)
    requires who !in s.callers && 1 <= cfg.window
    requires Bounded(s) ==> s.now < s.key.value.expiry.value
    ensures Runs(cfg, s, SoloEvents(s, who), t)
    ensures t.key == Some(SoloCounter(cfg, s.now, s.key)) && t.now == s.now
    ensures t.callers.Keys == s.callers.Keys + {who}
    ensures t.callers[who].stage ==
            match SoloVerdict(cfg, s.now, s.key) { case Admit => Admitted case Reject(r) => Rejected(r) }
  {
    var events := SoloEvents(s, who);
    var s1 := Next(cfg, s, events[0]);
    var s2 := Next(cfg, s1, events[1]);
    var s3 := Next(cfg, s2, events[2]);
    if |events| == 3 {
      t := s3;
      RunOfThree(cfg, s, events);
    } else {
      t := Next(cfg, s3, events[3]);
      RunOfThree(cfg, s1, events[1..]);
    }
  }

  lemma RunOfThree(cfg: Config, s: State, es: seq<Event>)
    requires |es| == 3 && Enabled(s, es[0])
    requires Enabled(Next(cfg, s, es[0]), es[1])
    requires Enabled(Next(cfg, Next(cfg, s, es[0]), es[1]), es[2])
    ensures Runs(cfg, s, es, Next(cfg, Next(cfg, Next(cfg, s, es[0]), es[1]), es[2]))
  {
    var s1 := Next(cfg, s, es[0]);
    var s2 := Next(cfg, s1, es[1]);
    assert es[1..][0] == es[1] && es[1..][1..][0] == es[2];
    assert Runs(cfg, Next(cfg, s2, es[2]), es[1..][1..][1..], Next(cfg, s2, es[2]));
    assert Runs(cfg, s2, es[1..][1..], Next(cfg, s2, es[2]));
  }

  /** A key as this limiter leaves it: counted in, and expiring within a window. */
  ghost predicate KeyOk(cfg: Config, now: int, key: Option<Counter>) {
    key.Some? ==> 1 <= key.value.count && (key.value.expiry.Some? ==> now < key.value.expiry.value <= now + cfg.window)
  }

  /** A run may start at any time on any such key, and time may then pass by any
      number of seconds. */
  lemma EveryKeyIsAStart(cfg: Config, now: int, key: Option<Counter>) returns (s: State)
    requires 1 <= cfg.window && KeyOk(cfg, now, key)
    ensures Init(cfg, s) && s.now == now && s.key == key
    ensures forall d: nat :: 1 <= d ==> Enabled(s, Tick(d))
  {
    var starts := match key
      case None => []
      case Some(Counter(_, None)) => [now]
      case Some(Counter(_, Some(e))) => [e - cfg.window];
    s := State(now, key, map[], starts);
  }

  /** The key as the clock moves from `now` with nobody touching it. */
  function Wait(key: Option<Counter>, later: int): Option<Counter> {
    if key.Some? && key.value.expiry.Some? && key.value.expiry.value <= later then None else key
  }

  /** The counter has reached the limit: one more call would be rejected. */
  predicate Full(cfg: Config, key: Option<Counter>) {
    key.Some? && cfg.limit <= key.value.count
  }

  /** When a lone check is admitted, d seconds after a moment at which the key was
      as given and TTL would have answered `ttl`. */
  lemma AdmittedAfterWaiting(cfg: Config, now: int, key: Option<Counter>, d: nat)
    requires 1 <= cfg.limit && 1 <= cfg.window && KeyOk(cfg, now, key)
    ensures SoloVerdict(cfg, now + d, Wait(key, now + d)).Admit?
            <==> !Full(cfg, key) || (key.value.expiry.Some? && key.value.expiry.value - now <= d)
  {
  }

  lemma InvMakesKeyOk(cfg: Config, s: State)
    requires Inv(cfg, s)
    ensures KeyOk(cfg, s.now, s.key)
  {
  }

  /** Retry-After, in every interleaving.  Every rejection of the run carries a
      wait in 1..window.  A caller told to wait, who comes back after d seconds in
      which nobody touched the key, is admitted if and only if the key was not full
      at the rejection or it had an expiry and d is at least the promised wait: so
      the promise is kept unless the key was full and had lost its expiry. */
  lemma RetryAfterInEveryRun(cfg: Config, init: State, events: seq<Event>, s: State, who: nat, d: nat)
    requires 1 <= cfg.limit && Init(cfg, init) && Runs(cfg, init, events, s)
    requires Enabled(s, Finish(who)) && Next(cfg, s, Finish(who)).callers[who].stage.Rejected?
    ensures forall c :: c in s.callers && s.callers[c].stage.Rejected? ==>
              1 <= s.callers[c].stage.retryAfter <= cfg.window
    ensures var retryAfter := Next(cfg, s, Finish(who)).callers[who].stage.retryAfter;
            && 1 <= retryAfter <= cfg.window
            && (SoloVerdict(cfg, s.now + d, Wait(s.key, s.now + d)).Admit?
                <==> !Full(cfg, s.key) || (s.key.value.expiry.Some? && retryAfter <= d))
  {
    InitEstablishesInv(cfg, init);
    RunsKeepInv(cfg, init, events, s);
    InvMakesKeyOk(cfg, s);
    AdmittedAfterWaiting(cfg, s.now, s.key, d);
    forall c | c in s.callers && s.callers[c].stage.Rejected? ensures 1 <= s.callers[c].stage.retryAfter <= cfg.window {
      assert CallerOk(cfg, s, s.callers[c]);
    }
    CommandKeepsCaller(cfg, s, Finish(who), who);
  }

  /** A check that nobody interleaves with leaves an expiry behind, so its
      rejection is exact: a caller left alone with the key who comes back d seconds
      later is admitted if and only if d is at least the promised wait. */
  lemma RetryAfterIsExact(cfg: Config, now: int, key: Option<Counter>, d: nat)
    requires 1 <= cfg.limit && 1 <= cfg.window && KeyOk(cfg, now, key)
    requires SoloVerdict(cfg, now, key).Reject?
    ensures 1 <= SoloVerdict(cfg, now, key).retryAfter <= cfg.window
    ensures SoloVerdict(cfg, now + d, Wait(Some(SoloCounter(cfg, now, key)), now + d)).Admit?
            <==> SoloVerdict(cfg, now, key).retryAfter <= d
  {
    AdmittedAfterWaiting(cfg, now, Some(SoloCounter(cfg, now, key)), d);
  }

  /** A caller that died takes no further part. */
  lemma {:induction false} DeadTakesNoPart(cfg: Config, s: State, who: nat, events: seq<Event>, t: State)
    requires Enabled(s, Die(who)) && Runs(cfg, Next(cfg, s, Die(who)), events, t)
    ensures who in t.callers && t.callers[who] == s.callers[who].(alive := false)
  {
    DeadStays(cfg, Next(cfg, s, Die(who)), who, events, t);
  }

  lemma {:induction false} DeadStays(cfg: Config, s: State, who: nat, events: seq<Event>, t: State)
    requires who in s.callers && !s.callers[who].alive && Runs(cfg, s, events, t)
    ensures who in t.callers && t.callers[who] == s.callers[who]
    decreases |events|
  {
    if |events| > 0 {
      DeadStays(cfg, Next(cfg, s, events[0]), who, events[1..], t);
    }
  }

  lemma {:induction false} OneMoreEvent(cfg: Config, s: State, events: seq<Event>, t: State, e: Event)
    requires Runs(cfg, s, events, t) && Enabled(t, e)
    ensures Runs(cfg, s, events + [e], Next(cfg, t, e))
    decreases |events|
  {
    if |events| == 0 {
      assert ([] + [e])[1..] == [];
    } else {
      assert (events + [e])[1..] == events[1..] + [e];
      OneMoreEvent(cfg, Next(cfg, s, events[0]), events[1..], t, e);
    }
  }

  const ONE_IN_TEN := Config(1, 10)
  const FRESH := State(0, None, map[], [])

  /** Caller 0 sets the expiry; caller 1 is counted second. */
  function Counted(): seq<Event> { [Incr(0), Expire(0), Incr(1)] }

  lemma CountedRuns() returns (s: State)
    ensures Runs(ONE_IN_TEN, FRESH, Counted(), s)
    ensures s.now == 0 && s.key == Some(Counter(2, Some(10))) && s.callers.Keys == {0, 1} && |s.starts| == 1
    ensures s.callers[1] == Caller(ReadTtl, 2, 0, 0, true)
  {
    var cfg := ONE_IN_TEN;
    var s1 := Next(cfg, FRESH, Incr(0));
    var s2 := Next(cfg, s1, Expire(0));
    s := Next(cfg, s2, Incr(1));
    RunOfThree(cfg, FRESH, Counted());
  }

  /** The key expires before caller 1 finishes, and caller 2 creates the next one. */
  function StaleFinish(): seq<Event> { Counted() + [Ttl(1)] + [Tick(10)] + [Incr(2)] }

  lemma StaleFinishRuns() returns (s: State)
    ensures Runs(ONE_IN_TEN, FRESH, StaleFinish(), s)
    ensures s.now == 10 && s.key == Some(Counter(1, None)) && s.callers.Keys == {0, 1, 2}
    ensures s.callers[1] == Caller(Decide, 2, 0, 0, true) && s.callers[2].alive
  {
    var cfg := ONE_IN_TEN;
    var s3 := CountedRuns();
    var s4 := Next(cfg, s3, Ttl(1));
    var s5 := Next(cfg, s4, Tick(10));
    s := Next(cfg, s5, Incr(2));
    OneMoreEvent(cfg, FRESH, Counted(), s3, Ttl(1));
    OneMoreEvent(cfg, FRESH, Counted() + [Ttl(1)], s4, Tick(10));
    OneMoreEvent(cfg, FRESH, Counted() + [Ttl(1)] + [Tick(10)], s5, Incr(2));
  }

  /** Caller 2 dies before it sets the expiry, and ten seconds pass. */
  lemma NobodyRepairs(s: State) returns (u: State)
    requires s.key == Some(Counter(1, None)) && 2 in s.callers && s.callers[2].alive
    ensures Runs(ONE_IN_TEN, s, [Die(2), Tick(10)], u) && u.key == Wait(s.key, u.now) && u.now == s.now + 10
    ensures SoloVerdict(ONE_IN_TEN, u.now, u.key).Reject?
  {
    var dead := Next(ONE_IN_TEN, s, Die(2));
    u := Next(ONE_IN_TEN, dead, Tick(10));
    assert [Die(2), Tick(10)][1..] == [Tick(10)] && [Tick(10)][1..] == [];
    assert Runs(ONE_IN_TEN, u, [], u);
    assert Runs(ONE_IN_TEN, dead, [Tick(10)], u);
  }

  /** The promise broken: caller 1 is told to wait ten seconds, and ten seconds
      later, with nobody else about, the next check is rejected again. */
  lemma PromisedWaitFallsShort() returns (s: State, u: State)
    ensures Init(ONE_IN_TEN, FRESH) && Runs(ONE_IN_TEN, FRESH, StaleFinish() + [Finish(1)], s)
    ensures 1 in s.callers && s.callers[1].stage == Rejected(10)
    ensures Runs(ONE_IN_TEN, s, [Die(2), Tick(10)], u) && u.key == Wait(s.key, u.now) && u.now == s.now + 10
    ensures SoloVerdict(ONE_IN_TEN, u.now, u.key).Reject?
  {
    var r := StaleFinishRuns();
    OneMoreEvent(ONE_IN_TEN, FRESH, StaleFinish(), r, Finish(1));
    s := Next(ONE_IN_TEN, r, Finish(1));
    u := NobodyRepairs(s);
  }
}
