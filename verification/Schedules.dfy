/** A Celery Beat schedule whose cadence comes from a configuration row, cached
    for a while. */
module Schedules {
  import opened Wrappers
  import opened Text

  /** What the database answers: the row's text, no row, or a failure. */
  datatype Answer = Row(value: string) | NoRow | Failure

  datatype Settings = Settings(key: string, defaultHours: int, minHours: int, maxHours: int, refreshSeconds: real)

  /** `_hours_from_config`: an empty row counts as none. */
  function HoursFromConfig(s: Settings, answer: Answer): int {
    if answer.Failure? then s.defaultHours else Bounded(s, ParseInt(RawText(s, answer)))
  }

  function RawText(s: Settings, answer: Answer): string {
    if answer.Row? && answer.value != "" then answer.value else IntToString(s.defaultHours)
  }

  function Bounded(s: Settings, hours: Option<int>): int {
    if hours.None? || hours.value < s.minHours || hours.value > s.maxHours then s.defaultHours else hours.value
  }

  /** The cadence is the configured number when the row holds one within the
      bounds, and the default in every other case. */
  lemma CadenceIsConfiguredOrDefault(s: Settings, answer: Answer)
    ensures HoursFromConfig(s, answer) ==
            if answer.Row? && ParseInt(answer.value).Some? && s.minHours <= ParseInt(answer.value).value <= s.maxHours
            then ParseInt(answer.value).value else s.defaultHours
  {
    ParseIntToString(s.defaultHours);
  }

  // ---- The schedule object ----------------------------------------------------

  /** `__dict__`, apart from the engine. */
  datatype Cache = Cache(settings: Settings, runEvery: int, expiresAt: real)

  /** One `is_due` call: when it happens and what the row holds then. */
  datatype Call = Call(now: real, answer: Answer)

  function Fresh(s: Settings): Cache {
    Cache(s, s.defaultHours, 0.0)
  }

  function Refresh(c: Cache, call: Call): Cache {
    if call.now < c.expiresAt then c
    else c.(runEvery := HoursFromConfig(c.settings, call.answer), expiresAt := call.now + c.settings.refreshSeconds)
  }

  class PlatformConfigHoursSchedule {
    var key: string
    var defaultHours: int
    var minHours: int
    var maxHours: int
    var refreshSeconds: real
    var runEvery: int
    var cacheExpiresAt: real
    var hasEngine: bool

    function State(): Cache
      reads this
    {
      Cache(Settings(key, defaultHours, minHours, maxHours, refreshSeconds), runEvery, cacheExpiresAt)
    }

    constructor (s: Settings)
      ensures State() == Fresh(s) && !hasEngine
    {
      key, defaultHours, minHours, maxHours, refreshSeconds :=
        s.key, s.defaultHours, s.minHours, s.maxHours, s.refreshSeconds;
      runEvery, cacheExpiresAt, hasEngine := s.defaultHours, 0.0, false;
    }

    /** Unpickling: a bare instance takes over every pickled field.  Calls act on
        the state alone, so it goes on as the original does. */
    constructor Restore(state: (Cache, bool))
      ensures State() == state.0 && hasEngine == state.1
    {
      var s := state.0.settings;
      key, defaultHours, minHours, maxHours, refreshSeconds :=
        s.key, s.defaultHours, s.minHours, s.maxHours, s.refreshSeconds;
      runEvery, cacheExpiresAt, hasEngine := state.0.runEvery, state.0.expiresAt, state.1;
    }

    /** Pickling leaves the engine out. */
    method GetState() returns (state: (Cache, bool))
      ensures state == (State(), false)
    {
      state := (State(), false);
    }

    method LoadHours(answer: Answer) returns (hours: int)
      modifies this`hasEngine
      ensures hours == HoursFromConfig(State().settings, answer) && State() == old(State())
    {
      hasEngine := true;
      if answer.Failure? {
        return defaultHours;
      }
      var raw := if answer.Row? && answer.value != "" then answer.value else IntToString(defaultHours);
      assert raw == RawText(State().settings, answer);
      var parsed := ParseInt(raw);
      hours := if parsed.None? || parsed.value < minHours || parsed.value > maxHours then defaultHours
               else parsed.value;
      assert hours == Bounded(State().settings, parsed);
    }

    method RefreshRunEvery(call: Call)
      modifies this
      ensures State() == Refresh(old(State()), call)
    {
      if call.now < cacheExpiresAt {
        return;
      }
      runEvery := LoadHours(call.answer);
      cacheExpiresAt := call.now + refreshSeconds;
    }
  }

  // ---- Runs -----------------------------------------------------------------------

  function After(c: Cache, calls: seq<Call>): Cache {
    if |calls| == 0 then c else Refresh(After(c, calls[..|calls| - 1]), calls[|calls| - 1])
  }

  ghost predicate OneClock(calls: seq<Call>) {
    forall i, j :: 0 <= i <= j < |calls| ==> 0.0 <= calls[i].now <= calls[j].now
  }

  /** The cadence was loaded at call j and has been good since. */
  ghost predicate LoadedAt(c: Cache, calls: seq<Call>, after: Cache, j: nat) {
    j < |calls| && after.runEvery == HoursFromConfig(c.settings, calls[j].answer)
    && after.expiresAt == calls[j].now + c.settings.refreshSeconds
  }

  ghost predicate AllBefore(calls: seq<Call>, expiry: real) {
    forall call :: call in calls ==> call.now < expiry
  }

  /** The cadence was loaded less than `refresh_seconds` ago, or just now. */
  ghost predicate Current(c: Cache, calls: seq<Call>, after: Cache) {
    exists j :: 0 <= j < |calls| && LoadedAt(c, calls, after, j)
      && (j == |calls| - 1 || calls[|calls| - 1].now < calls[j].now + c.settings.refreshSeconds)
  }

  lemma OneMoreCall(c: Cache, reached: Cache, before: seq<Call>, call: Call)
    requires reached.settings == c.settings
    requires AllBefore(before, c.expiresAt) ==> reached == c
    requires !AllBefore(before, c.expiresAt) ==> before != [] && Current(c, before, reached)
    ensures var calls := before + [call];
            && (AllBefore(calls, c.expiresAt) ==> Refresh(reached, call) == c)
            && (!AllBefore(calls, c.expiresAt) ==> Current(c, calls, Refresh(reached, call)))
  {
    var calls, after := before + [call], Refresh(reached, call);
    assert call in calls;
    assert forall b :: b in before ==> b in calls;
    if call.now >= reached.expiresAt {
      assert LoadedAt(c, calls, after, |before|);
    } else if !AllBefore(before, c.expiresAt) {
      var j :| 0 <= j < |before| && LoadedAt(c, before, reached, j);
      assert LoadedAt(c, calls, after, j);
    }
  }

  /** The expiry is a reading of the monotonic clock and is pickled with the
      rest.  On whatever clock a restored schedule goes on, its cadence is the
      pickled one, unseen changes and all, exactly as long as the clock stays
      below the pickled expiry; from then on staleness is bounded again. */
  lemma {:induction false} StaleUntilOldExpiry(c: Cache, calls: seq<Call>)
    ensures After(c, calls).settings == c.settings
    ensures AllBefore(calls, c.expiresAt) ==> After(c, calls) == c
    ensures !AllBefore(calls, c.expiresAt) ==> Current(c, calls, After(c, calls))
  {
    if |calls| > 0 {
      var n := |calls| - 1;
      StaleUntilOldExpiry(c, calls[..n]);
      assert calls == calls[..n] + [calls[n]];
      OneMoreCall(c, After(c, calls[..n]), calls[..n], calls[n]);
    }
  }

  /** Over any run on one clock, the cadence in use after each call is the one
      the database held at some call less than `refresh_seconds` ago, or at this
      very call; and it is within the bounds when the default is. */
  lemma BoundedStaleness(s: Settings, calls: seq<Call>)
    requires OneClock(calls) && |calls| > 0
    ensures Current(Fresh(s), calls, After(Fresh(s), calls))
    ensures s.minHours <= s.defaultHours <= s.maxHours ==>
              s.minHours <= After(Fresh(s), calls).runEvery <= s.maxHours
  {
    assert calls[0] in calls && 0.0 <= calls[0].now;
    StaleUntilOldExpiry(Fresh(s), calls);
  }

  // ---- Pickling -------------------------------------------------------------------

  /** `__reduce__` and the rebuilding of the instance from what it returns: the
      copy has the original's whole state, the cached expiry included, and no
      engine. */
  method Pickled(original: PlatformConfigHoursSchedule) returns (restored: PlatformConfigHoursSchedule)
    ensures fresh(restored) && restored.State() == original.State() && !restored.hasEngine
  {
    var state := original.GetState();
    restored := new PlatformConfigHoursSchedule.Restore(state);
  }

  const DAILY := Settings("cadence_hours", 24, 1, 168, 60.0)

  /** A daily schedule last refreshed when the old clock stood at 999, pickled and
      restored, still runs daily after fifteen minutes of a new clock, although the
      row has said 6 hours all along and the refresh interval is one minute. */
  lemma RestoredScheduleMissesChange(six: Answer)
    requires six == Row(IntToString(6))
    ensures HoursFromConfig(DAILY, six) == 6
    ensures After(Fresh(DAILY), [Call(999.0, NoRow)]) == Cache(DAILY, 24, 1059.0)
    ensures After(Cache(DAILY, 24, 1059.0), [Call(0.0, six), Call(900.0, six)]).runEvery == 24
  {
    RowSaysSix(six);
    LoadedDefault();
    NothingReadYet(six);
  }

  lemma RowSaysSix(six: Answer)
    requires six == Row(IntToString(6))
    ensures HoursFromConfig(DAILY, six) == 6
  {
    ParseIntToString(6);
  }

  lemma LoadedDefault()
    ensures After(Fresh(DAILY), [Call(999.0, NoRow)]) == Cache(DAILY, 24, 1059.0)
  {
    assert [Call(999.0, NoRow)][..0] == [];
    CadenceIsConfiguredOrDefault(DAILY, NoRow);
  }

  lemma NothingReadYet(answer: Answer)
    ensures After(Cache(DAILY, 24, 1059.0), [Call(0.0, answer), Call(900.0, answer)]).runEvery == 24
  {
    StaleUntilOldExpiry(Cache(DAILY, 24, 1059.0), [Call(0.0, answer), Call(900.0, answer)]);
  }
}
