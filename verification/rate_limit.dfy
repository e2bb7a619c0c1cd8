/**
 * Spacing the calls made with one Steam API key (packages/shared/src/components/rate-limit.ts).
 * Times are milliseconds on one clock. An attempt starts its transaction, waits for the key's row
 * lock, and looks at the clock once it has it; the UPDATE stores the time the transaction started.
 */
module RateLimit {
  import opened Wrappers

  type Key = int

  datatype Purpose = LiveCall | HistoricalCall

  /** `start` is when the granting transaction began, `at` when it was granted. */
  datatype Grant = Grant(key: Key, purpose: Purpose, start: int, at: int, cursor: Option<int>)

  datatype Slots = Slots(lastCalledAt: map<Key, int>, nextLivePollAt: Option<int>, grants: seq<Grant>, clock: int)

  const GRACE: int := 50

  function Max(a: int, b: int): int { if a > b then a else b }

  /** When a call looked at `now` may be made. */
  function ReadyAt(last: Option<int>, cursor: Option<int>, purpose: Purpose, now: int, minInterval: int): int {
    var readyAt := if last.Some? then Max(now, last.value + minInterval) else now;
    if purpose.HistoricalCall? && cursor.Some? && now < cursor.value && readyAt < cursor.value
       && cursor.value - readyAt < minInterval
    then cursor.value + GRACE else readyAt
  }

  predicate Granted(last: Option<int>, cursor: Option<int>, purpose: Purpose, now: int, minInterval: int) {
    ReadyAt(last, cursor, purpose, now, minInterval) <= now
  }

  /** Exactly when a call is let through. */
  lemma GrantedWhen(last: Option<int>, cursor: Option<int>, purpose: Purpose, now: int, minInterval: int)
    requires minInterval > 0
    ensures Granted(last, cursor, purpose, now, minInterval) <==>
              && (last.Some? ==> last.value + minInterval <= now)
              && (purpose.HistoricalCall? && cursor.Some? ==>
                    now <= cursor.value - minInterval || cursor.value <= now)
  {
  }

  /**
   * How long a call waits: no longer than the key's interval needs, unless a historical call would then
   * fall into the interval before the announced live poll: it waits until 50 ms after that. A call that
   * waits so long is granted if nothing else happens; earlier it could only have slipped into those 50 ms.
   */
  lemma WaitIsEnough(last: Option<int>, cursor: Option<int>, purpose: Purpose, now: int, minInterval: int, t: int)
    requires minInterval > 0 && now <= t
    ensures var r := ReadyAt(last, cursor, purpose, now, minInterval);
            && now <= r && Granted(last, cursor, purpose, r, minInterval)
            && var ready := if last.Some? && last.value + minInterval > now then last.value + minInterval else now;
            && r == (if purpose.HistoricalCall? && cursor.Some? && cursor.value - minInterval < ready < cursor.value
                     then cursor.value + 50 else ready)
            && (t < r && Granted(last, cursor, purpose, t, minInterval) ==>
                  purpose.HistoricalCall? && cursor.Some? && cursor.value <= t < cursor.value + 50)
  {
  }

  // ---- any number of callers ------------------------------------------------------------------

  datatype Event =
    | Attempted(key: Key, purpose: Purpose, start: int, now: int)
    | LivePollAnnounced(at: int)

  /** The lock is not granted before the transaction starts, and the clock does not run back. */
  predicate Enabled(s: Slots, ev: Event) {
    match ev
    case Attempted(_, _, start, now) => start <= now && s.clock <= now
    case LivePollAnnounced(_) => true
  }

  function Step(s: Slots, ev: Event, minInterval: int): Slots {
    match ev
    case Attempted(key, purpose, start, now) =>
      if Granted(Lookup(s.lastCalledAt, key), s.nextLivePollAt, purpose, now, minInterval)
      then Slots(s.lastCalledAt[key := start], s.nextLivePollAt,
                 s.grants + [Grant(key, purpose, start, now, s.nextLivePollAt)], now)
      else s.(clock := now)
    case LivePollAnnounced(at) => s.(nextLivePollAt := Some(at))
  }

  predicate ValidRun(s: Slots, evs: seq<Event>, minInterval: int)
    decreases |evs|
  {
    evs == [] || (Enabled(s, evs[0]) && ValidRun(Step(s, evs[0], minInterval), evs[1..], minInterval))
  }

  function Run(s: Slots, evs: seq<Event>, minInterval: int): Slots
    decreases |evs|
  {
    if evs == [] then s else Run(Step(s, evs[0], minInterval), evs[1..], minInterval)
  }

  function Fresh(clock: int): Slots { Slots(map[], None, [], clock) }

  /** A later grant of a key waits for `minInterval` after an earlier one's transaction started. */
  predicate Spaced(earlier: Grant, later: Grant, minInterval: int) {
    earlier.key == later.key ==> earlier.at <= later.at && earlier.start + minInterval <= later.at
  }

  ghost predicate Inv(s: Slots, minInterval: int) {
    && (forall i | 0 <= i < |s.grants| :: s.grants[i].start <= s.grants[i].at <= s.clock)
    && (forall i, j | 0 <= i < j < |s.grants| :: Spaced(s.grants[i], s.grants[j], minInterval))
    && (forall i | 0 <= i < |s.grants| :: s.grants[i].key in s.lastCalledAt && Remembered(s, i, minInterval))
    && (forall i | 0 <= i < |s.grants| :: YieldsToLive(s.grants[i], minInterval))
  }

  /** The stored time is this grant's, or a later one of the key already waited for it. */
  predicate Remembered(s: Slots, i: nat, minInterval: int)
    requires i < |s.grants| && s.grants[i].key in s.lastCalledAt
  {
    || s.lastCalledAt[s.grants[i].key] == s.grants[i].start
    || s.grants[i].start + minInterval <= s.clock
  }

  /** A historical grant stays out of the interval before the announced live poll. */
  predicate YieldsToLive(g: Grant, minInterval: int) {
    g.purpose.HistoricalCall? && g.cursor.Some? ==> g.at <= g.cursor.value - minInterval || g.cursor.value <= g.at
  }

  lemma GrantKeeps(s: Slots, ev: Event, minInterval: int)
    requires minInterval > 0 && Inv(s, minInterval) && Enabled(s, ev) && ev.Attempted?
    requires Granted(Lookup(s.lastCalledAt, ev.key), s.nextLivePollAt, ev.purpose, ev.now, minInterval)
    ensures Inv(Step(s, ev, minInterval), minInterval)
  {
    var s' := Step(s, ev, minInterval);
    GrantedWhen(Lookup(s.lastCalledAt, ev.key), s.nextLivePollAt, ev.purpose, ev.now, minInterval);
    forall i | 0 <= i < |s'.grants|
      ensures s'.grants[i].key in s'.lastCalledAt && Remembered(s', i, minInterval)
      ensures i < |s.grants| ==> Spaced(s'.grants[i], s'.grants[|s.grants|], minInterval)
    {
      if i < |s.grants| {
        assert s'.grants[i] == s.grants[i] && Remembered(s, i, minInterval);
      }
    }
  }

  lemma StepKeeps(s: Slots, ev: Event, minInterval: int)
    requires minInterval > 0 && Inv(s, minInterval) && Enabled(s, ev)
    ensures Inv(Step(s, ev, minInterval), minInterval)
  {
    if ev.Attempted? {
      if Granted(Lookup(s.lastCalledAt, ev.key), s.nextLivePollAt, ev.purpose, ev.now, minInterval) {
        GrantKeeps(s, ev, minInterval);
      } else {
        QuietKeeps(s, s.(clock := ev.now), minInterval);
      }
    } else {
      QuietKeeps(s, Step(s, ev, minInterval), minInterval);
    }
  }

  lemma QuietKeeps(s: Slots, s': Slots, minInterval: int)
    requires Inv(s, minInterval)
    requires s'.grants == s.grants && s'.lastCalledAt == s.lastCalledAt && s.clock <= s'.clock
    ensures Inv(s', minInterval)
  {
    forall i | 0 <= i < |s'.grants|
      ensures s'.grants[i].key in s'.lastCalledAt && Remembered(s', i, minInterval)
    {
      assert Remembered(s, i, minInterval);
    }
  }

  lemma {:induction false} RunKeeps(s: Slots, evs: seq<Event>, minInterval: int)
    requires minInterval > 0 && Inv(s, minInterval) && ValidRun(s, evs, minInterval)
    ensures Inv(Run(s, evs, minInterval), minInterval)
    decreases |evs|
  {
    if evs != [] {
      StepKeeps(s, evs[0], minInterval);
      RunKeeps(Step(s, evs[0], minInterval), evs[1..], minInterval);
    }
  }

  /**
   * However callers interleave, two grants of a key are `minInterval` apart but for the time the
   * earlier one's transaction had waited for the lock; with no wait they are fully apart.
   */
  lemma GrantsAreSpaced(clock: int, evs: seq<Event>, minInterval: int, i: nat, j: nat)
    requires minInterval > 0 && ValidRun(Fresh(clock), evs, minInterval)
    requires i < j < |Run(Fresh(clock), evs, minInterval).grants|
    requires Run(Fresh(clock), evs, minInterval).grants[i].key == Run(Fresh(clock), evs, minInterval).grants[j].key
    ensures var g, h := Run(Fresh(clock), evs, minInterval).grants[i], Run(Fresh(clock), evs, minInterval).grants[j];
            h.at - g.at >= minInterval - (g.at - g.start)
  {
    RunKeeps(Fresh(clock), evs, minInterval);
    assert Spaced(Run(Fresh(clock), evs, minInterval).grants[i], Run(Fresh(clock), evs, minInterval).grants[j],
                  minInterval);
  }

  /** The full interval is kept after a grant exactly when its transaction did not wait for the lock. */
  lemma FullIntervalIffNoWait(s: Slots, g: Grant, minInterval: int)
    requires minInterval > 0 && g.start <= g.at && Lookup(s.lastCalledAt, g.key) == Some(g.start)
    requires s.clock == g.at
    ensures (forall start, now ::
               Enabled(s, Attempted(g.key, LiveCall, start, now))
               && Granted(Some(g.start), s.nextLivePollAt, LiveCall, now, minInterval) ==>
                 now - g.at >= minInterval)
            <==> g.start == g.at
  {
    var soon := Max(g.at, g.start + minInterval);
    assert Enabled(s, Attempted(g.key, LiveCall, soon, soon));
    assert Granted(Some(g.start), s.nextLivePollAt, LiveCall, soon, minInterval);
  }

  /** Such a wait does happen: a second attempt, started meanwhile, is granted at the same moment. */
  lemma WaitLosesTheInterval(key: Key, minInterval: int)
    requires minInterval > 0
    ensures var evs := [Attempted(key, LiveCall, 0, minInterval), Attempted(key, LiveCall, minInterval, minInterval)];
            && ValidRun(Fresh(0), evs, minInterval)
            && Run(Fresh(0), evs, minInterval).grants ==
                 [Grant(key, LiveCall, 0, minInterval, None), Grant(key, LiveCall, minInterval, minInterval, None)]
  {
    var first, second := Attempted(key, LiveCall, 0, minInterval), Attempted(key, LiveCall, minInterval, minInterval);
    var once := Step(Fresh(0), first, minInterval);
    assert [first, second][1..] == [second] && [second][1..] == [];
    assert Run(once, [second], minInterval) == Step(once, second, minInterval);
  }

  /** No historical call is let through in the interval before the live poll that was announced then. */
  lemma HistoricalCallsYield(clock: int, evs: seq<Event>, minInterval: int, i: nat)
    requires minInterval > 0 && ValidRun(Fresh(clock), evs, minInterval)
    requires i < |Run(Fresh(clock), evs, minInterval).grants|
    ensures YieldsToLive(Run(Fresh(clock), evs, minInterval).grants[i], minInterval)
  {
    RunKeeps(Fresh(clock), evs, minInterval);
  }

  /** So when the last call of a key was a historical one made under a cursor `v`, a live call at `v` goes through. */
  lemma LiveCallIsNotDelayed(g: Grant, minInterval: int)
    requires minInterval > 0 && YieldsToLive(g, minInterval) && g.start <= g.at
    requires g.purpose.HistoricalCall? && g.cursor.Some? && g.at < g.cursor.value
    ensures Granted(Some(g.start), g.cursor, LiveCall, g.cursor.value, minInterval)
  {
  }

  // ---- one caller -----------------------------------------------------------------------------

  class ApiSlots {
    const minInterval: int
    var lastCalledAt: map<Key, int>
    var nextLivePollAt: Option<int>

    constructor (minInterval: int)
      requires minInterval > 0
      ensures this.minInterval == minInterval && lastCalledAt == map[] && nextLivePollAt == None
    {
      this.minInterval := minInterval;
      lastCalledAt, nextLivePollAt := map[], None;
    }

    /** One transaction: 0 is a grant, anything else how long to wait. */
    method TrySlot(key: Key, purpose: Purpose, start: int, now: int) returns (waitMs: int)
      requires start <= now
      modifies this`lastCalledAt
      ensures waitMs == (if Granted(Lookup(old(lastCalledAt), key), nextLivePollAt, purpose, now, minInterval) then 0
                         else ReadyAt(Lookup(old(lastCalledAt), key), nextLivePollAt, purpose, now, minInterval) - now)
      ensures waitMs >= 0
      ensures lastCalledAt == if waitMs == 0 then old(lastCalledAt)[key := start] else old(lastCalledAt)
    {
      var readyAt := now;
      var last := Lookup(lastCalledAt, key);
      if last.Some? { readyAt := Max(readyAt, last.value + minInterval); }
      if purpose != LiveCall && nextLivePollAt.Some? {
        var nextLive := nextLivePollAt.value;
        if now < nextLive && readyAt < nextLive && nextLive - readyAt < minInterval {
          readyAt := nextLive + GRACE;
        }
      }
      if readyAt > now { return readyAt - now; }
      lastCalledAt := lastCalledAt[key := start];
      return 0;
    }

    /**
     * acquireSteamApiSlot while nobody else uses the key: attempt `i` waits `locked(i)` for the row
     * lock, and the sleep after it is `late(i)` longer than asked. Nothing is granted too early, and
     * a caller that loses no time is granted at the first moment it may be.
     */
    method AcquireSteamApiSlot(key: Key, purpose: Purpose, began: int, locked: nat -> nat, late: nat -> nat)
      returns (start: int, at: int)
      requires minInterval > 0
      modifies this`lastCalledAt
      ensures began <= start <= at && lastCalledAt == old(lastCalledAt)[key := start]
      ensures Granted(Lookup(old(lastCalledAt), key), nextLivePollAt, purpose, at, minInterval)
      ensures (forall i :: locked(i) == 0 && late(i) == 0) ==>
                && start == at <= Latest(Lookup(old(lastCalledAt), key), nextLivePollAt, began, minInterval)
                && (purpose.LiveCall? ==>
                      at == if key in old(lastCalledAt) then Max(began, old(lastCalledAt)[key] + minInterval)
                            else began)
    {
      start := began;
      var attempt := 0;
      while true
        invariant began <= start && lastCalledAt == old(lastCalledAt)
        invariant (forall i :: locked(i) == 0 && late(i) == 0) ==>
                    && start <= Latest(Lookup(old(lastCalledAt), key), nextLivePollAt, began, minInterval)
                    && (purpose.LiveCall? ==>
                          start <= if key in old(lastCalledAt) then Max(began, old(lastCalledAt)[key] + minInterval)
                                   else began)
        decreases Latest(Lookup(old(lastCalledAt), key), nextLivePollAt, began, minInterval) - start
      {
        at := start + locked(attempt);
        var waitMs := TrySlot(key, purpose, start, at);
        if waitMs <= 0 { return; }
        start := at + (if waitMs < 5000 then waitMs else 5000) + late(attempt);
        attempt := attempt + 1;
      }
    }
  }

  /** No lone caller waits past the key's interval and the announced live poll. */
  function Latest(last: Option<int>, cursor: Option<int>, began: int, minInterval: int): int {
    var ready := if last.Some? then Max(began, last.value + minInterval) else began;
    if cursor.Some? then Max(ready, cursor.value + GRACE) else ready
  }
}
