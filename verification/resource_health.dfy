/**
 * Disabling a proxy, an account or an API key whose recent attempts keep failing
 * (packages/shared/src/components/resource-health.ts). The table keeps only the last attempts of
 * each resource; it decides as the whole history would.
 */
module ResourceHealth {
  import opened Wrappers

  datatype Kind = Proxy | GcAccount | ApiKey

  datatype Resource = Resource(kind: Kind, id: int)

  /** Rows of `resource_attempts`, oldest first; `id` is the serial column. */
  datatype Attempt = Attempt(id: nat, resource: Resource, ok: bool)

  datatype State = State(disabled: bool, lastError: Option<string>, retestCount: nat)

  /** Percent settings arrive as a fraction. */
  datatype Limits = Limits(threshold: real, window: nat)

  // ---- one resource's attempts ----------------------------------------------------------------

  function Of(attempts: seq<Attempt>, res: Resource): seq<Attempt> {
    if attempts == [] then []
    else
      var last := attempts[|attempts| - 1];
      var before := Of(attempts[..|attempts| - 1], res);
      if last.resource == res then before + [last] else before
  }

  function Last(n: nat, s: seq<Attempt>): (r: seq<Attempt>) {
    if |s| <= n then s else s[|s| - n..]
  }

  function Fails(s: seq<Attempt>): nat {
    if s == [] then 0 else Fails(s[..|s| - 1]) + (if s[|s| - 1].ok then 0 else 1)
  }

  /** Whether a failing attempt at the end of `s` disables the resource. */
  predicate Crossed(s: seq<Attempt>, limits: Limits) {
    var rows := Last(limits.window, s);
    |rows| >= limits.window > 0 && Fails(rows) as real / |rows| as real >= limits.threshold
  }

  /** Truncating before each new attempt loses nothing the decision reads. */
  lemma TruncatedDecidesAsFull(s: seq<Attempt>, a: Attempt, limits: Limits)
    requires limits.window > 0
    ensures Last(limits.window, Last(limits.window, s) + [a]) == Last(limits.window, s + [a])
    ensures Crossed(Last(limits.window, s) + [a], limits) == Crossed(s + [a], limits)
  {
    var n := limits.window;
    assert Last(n, Last(n, s) + [a]) == Last(n, s + [a]);
  }

  // ---- the table ------------------------------------------------------------------------------

  predicate Serial(attempts: seq<Attempt>, nextId: nat) {
    && (forall i | 0 <= i < |attempts| :: 0 < attempts[i].id < nextId)
    && (forall i, j | 0 <= i < j < |attempts| :: attempts[i].id < attempts[j].id)
  }

  /** `SELECT COALESCE(MIN(keep.id), 0)` over the newest `window` rows of a resource. */
  function OldestKept(rows: seq<Attempt>, window: nat): nat {
    var keep := Last(window, rows);
    if keep == [] then 0 else keep[0].id
  }

  /** Rows of `res` older than `oldest` are deleted. */
  function Without(attempts: seq<Attempt>, res: Resource, oldest: nat): seq<Attempt> {
    if attempts == [] then []
    else
      var last := attempts[|attempts| - 1];
      var before := Without(attempts[..|attempts| - 1], res, oldest);
      if last.resource == res && last.id < oldest then before else before + [last]
  }

  lemma {:induction false} OfIsSerial(attempts: seq<Attempt>, nextId: nat, res: Resource)
    requires Serial(attempts, nextId)
    ensures Serial(Of(attempts, res), nextId)
    ensures forall a | a in Of(attempts, res) :: a in attempts
  {
    if attempts != [] {
      var before, last := attempts[..|attempts| - 1], attempts[|attempts| - 1];
      assert Serial(before, last.id);
      OfIsSerial(before, last.id, res);
    }
  }

  lemma {:induction false} WithoutIsSerial(attempts: seq<Attempt>, nextId: nat, res: Resource, oldest: nat)
    requires Serial(attempts, nextId)
    ensures Serial(Without(attempts, res, oldest), nextId)
  {
    if attempts != [] {
      var before, last := attempts[..|attempts| - 1], attempts[|attempts| - 1];
      assert Serial(before, last.id);
      WithoutIsSerial(before, last.id, res, oldest);
    }
  }

  lemma OfSnoc(attempts: seq<Attempt>, a: Attempt, res: Resource)
    ensures Of(attempts + [a], res) == if a.resource == res then Of(attempts, res) + [a] else Of(attempts, res)
  {
    assert (attempts + [a])[..|attempts|] == attempts;
  }

  /** The rows of `s` from `oldest` on. */
  function From(s: seq<Attempt>, oldest: nat): seq<Attempt> {
    if s == [] then []
    else
      var before := From(s[..|s| - 1], oldest);
      if s[|s| - 1].id < oldest then before else before + [s[|s| - 1]]
  }

  lemma FromSnoc(s: seq<Attempt>, a: Attempt, oldest: nat)
    ensures From(s + [a], oldest) == if a.id < oldest then From(s, oldest) else From(s, oldest) + [a]
  {
    assert (s + [a])[..|s|] == s;
  }

  lemma {:induction false} DeletingIsTrimming(attempts: seq<Attempt>, res: Resource, oldest: nat, other: Resource)
    ensures Of(Without(attempts, res, oldest), other)
            == if other == res then From(Of(attempts, res), oldest) else Of(attempts, other)
  {
    if attempts != [] {
      var before, last := attempts[..|attempts| - 1], attempts[|attempts| - 1];
      DeletingIsTrimming(before, res, oldest, other);
      OfSnoc(Without(before, res, oldest), last, other);
      FromSnoc(Of(before, res), last, oldest);
    }
  }

  lemma {:induction false} FromIndex(s: seq<Attempt>, nextId: nat, k: nat)
    requires Serial(s, nextId) && k < |s|
    ensures From(s, s[k].id) == s[k..]
  {
    var before, last := s[..|s| - 1], s[|s| - 1];
    if k == |s| - 1 {
      AllOlder(before, last.id);
      assert s[k..] == [last];
    } else {
      FromIndex(before, last.id, k);
      assert s[k..] == before[k..] + [last];
    }
  }

  lemma {:induction false} AllOlder(s: seq<Attempt>, oldest: nat)
    requires forall i | 0 <= i < |s| :: s[i].id < oldest
    ensures From(s, oldest) == []
  {
    if s != [] {
      AllOlder(s[..|s| - 1], oldest);
    }
  }

  /** After the delete, exactly the newest `window` rows of the resource are left. */
  lemma DeleteKeepsLast(attempts: seq<Attempt>, nextId: nat, res: Resource, window: nat)
    requires Serial(attempts, nextId) && window > 0
    ensures From(Of(attempts, res), OldestKept(Of(attempts, res), window)) == Last(window, Of(attempts, res))
  {
    var mine := Of(attempts, res);
    OfIsSerial(attempts, nextId, res);
    if mine != [] {
      var k := if |mine| <= window then 0 else |mine| - window;
      FromIndex(mine, nextId, k);
      assert mine[0..] == mine;
      assert OldestKept(mine, window) == mine[k].id;
    }
  }

  /** Inserting and deleting keeps every resource's rows the last of its history. */
  lemma StillLast(attempts: seq<Attempt>, history: seq<Attempt>, a: Attempt, other: Resource, oldest: nat,
                  limits: Limits)
    requires limits.window > 0 && Serial(attempts + [a], a.id + 1)
    requires Of(attempts, other) == Last(limits.window, Of(history, other))
    requires a.resource == other ==> oldest == OldestKept(Of(attempts + [a], other), limits.window)
    ensures Of(Without(attempts + [a], a.resource, oldest), other)
            == Last(limits.window, Of(history + [a], other))
  {
    DeletingIsTrimming(attempts + [a], a.resource, oldest, other);
    OfSnoc(attempts, a, other);
    OfSnoc(history, a, other);
    if other == a.resource {
      DeleteKeepsLast(attempts + [a], a.id + 1, other, limits.window);
      TruncatedDecidesAsFull(Of(history, other), a, limits);
    }
  }

  // ---- which attempts are counted -------------------------------------------------------------

  /** Where in the history the attempts of a resource stand: all of them, in order. */
  ghost predicate Positions(history: seq<Attempt>, res: Resource, at: seq<nat>) {
    && (forall k | 0 <= k < |at| :: at[k] < |history| && history[at[k]].resource == res)
    && (forall j, k | 0 <= j < k < |at| :: at[j] < at[k])
    && forall i | 0 <= i < |history| && history[i].resource == res :: i in at
  }

  lemma {:induction false} PositionsOf(history: seq<Attempt>, res: Resource) returns (at: seq<nat>)
    ensures Positions(history, res, at) && |at| == |Of(history, res)|
    ensures forall k | 0 <= k < |at| :: Of(history, res)[k] == history[at[k]]
  {
    at := [];
    if history != [] {
      var n := |history| - 1;
      at := PositionsOf(history[..n], res);
      if history[n].resource == res {
        PositionsSnoc(history, res, at);
        at := at + [n];
      }
    }
  }

  lemma PositionsSnoc(history: seq<Attempt>, res: Resource, at: seq<nat>)
    requires history != [] && Positions(history[..|history| - 1], res, at)
    requires history[|history| - 1].resource == res
    ensures Positions(history, res, at + [|history| - 1])
  {
    var n := |history| - 1;
    var more := at + [n];
    forall i | 0 <= i < |history| && history[i].resource == res ensures i in more {
      if i < n {
        assert history[..n][i] == history[i];
      } else {
        assert more[|at|] == n;
      }
    }
  }

  /** The failures among positions `from` to `to`. */
  ghost function FailedAt(history: seq<Attempt>, at: seq<nat>, from: nat, to: nat): set<nat>
    requires to <= |at| && forall k | 0 <= k < |at| :: at[k] < |history|
  {
    set k | from <= k < to && !history[at[k]].ok
  }

  lemma {:induction false} FailsCounts(s: seq<Attempt>, history: seq<Attempt>, at: seq<nat>, from: nat)
    requires from + |s| <= |at| && forall k | 0 <= k < |at| :: at[k] < |history|
    requires forall i | 0 <= i < |s| :: s[i] == history[at[from + i]]
    ensures Fails(s) == |FailedAt(history, at, from, from + |s|)|
  {
    if s == [] {
      assert FailedAt(history, at, from, from) == {};
    } else {
      var n := |s| - 1;
      FailsCounts(s[..n], history, at, from);
      OneMore(history, at, from, from + n);
    }
  }

  lemma OneMore(history: seq<Attempt>, at: seq<nat>, from: nat, to: nat)
    requires from <= to < |at| && forall k | 0 <= k < |at| :: at[k] < |history|
    ensures |FailedAt(history, at, from, to + 1)|
            == |FailedAt(history, at, from, to)| + (if history[at[to]].ok then 0 else 1)
  {
    var before := FailedAt(history, at, from, to);
    assert FailedAt(history, at, from, to + 1) == if history[at[to]].ok then before else before + {to};
  }

  /** The decision, in terms of the history alone: the last `window` attempts of the resource, and how many failed. */
  ghost predicate DisabledBy(history: seq<Attempt>, at: seq<nat>, limits: Limits)
    requires limits.window > 0 && forall k | 0 <= k < |at| :: at[k] < |history|
  {
    && |at| >= limits.window
    && |FailedAt(history, at, |at| - limits.window, |at|)| as real / limits.window as real >= limits.threshold
  }

  lemma CrossedIsDisabled(history: seq<Attempt>, res: Resource, limits: Limits) returns (at: seq<nat>)
    requires limits.window > 0
    ensures Positions(history, res, at)
    ensures Crossed(Of(history, res), limits) <==> DisabledBy(history, at, limits)
  {
    at := PositionsOf(history, res);
    if |at| >= limits.window {
      WindowCounts(history, Of(history, res), at, limits.window);
      RatioOfWindow(Of(history, res), limits);
    }
  }

  lemma WindowCounts(history: seq<Attempt>, mine: seq<Attempt>, at: seq<nat>, window: nat)
    requires |mine| == |at| >= window && forall k | 0 <= k < |at| :: at[k] < |history| && mine[k] == history[at[k]]
    ensures Fails(Last(window, mine)) == |FailedAt(history, at, |at| - window, |at|)|
  {
    var rows, from := Last(window, mine), |at| - window;
    assert |rows| == window;
    assert forall i | 0 <= i < |rows| :: rows[i] == mine[from + i];
    FailsCounts(rows, history, at, from);
  }

  lemma RatioOfWindow(s: seq<Attempt>, limits: Limits)
    requires |s| >= limits.window > 0
    ensures Crossed(s, limits) <==>
              Fails(Last(limits.window, s)) as real / limits.window as real >= limits.threshold
  {
    assert |Last(limits.window, s)| == limits.window;
  }

  class Resources {
    const limits: Kind -> Limits
    var attempts: seq<Attempt>
    var nextId: nat
    var states: map<Resource, State>
    ghost var history: seq<Attempt>

    /** For each resource the table holds the last `window` attempts of the whole history. */
    ghost predicate Valid()
      reads this
    {
      && nextId > 0 && Serial(attempts, nextId)
      && (forall kind :: limits(kind).window > 0)
      && forall res :: Of(attempts, res) == Last(limits(res.kind).window, Of(history, res))
    }

    constructor (limits: Kind -> Limits, states: map<Resource, State>)
      requires forall kind :: limits(kind).window > 0
      ensures Valid() && history == [] && this.states == states && this.limits == limits
    {
      this.limits, this.states := limits, states;
      attempts, nextId, history := [], 1, [];
    }

    /** INSERT, then DELETE of this resource's rows past the window. */
    method InsertAttempt(res: Resource, ok: bool)
      requires Valid()
      modifies this`attempts, this`nextId, this`history
      ensures Valid()
      ensures history == old(history) + [Attempt(old(nextId), res, ok)]
    {
      var a, window := Attempt(nextId, res, ok), limits(res.kind).window;
      var inserted := attempts + [a];
      nextId := nextId + 1;
      var oldest := OldestKept(Of(inserted, res), window);
      WithoutIsSerial(inserted, nextId, res, oldest);
      assert Serial(inserted, nextId);
      forall other ensures Of(Without(inserted, res, oldest), other)
                           == Last(limits(other.kind).window, Of(history + [a], other))
      {
        StillLast(attempts, history, a, other, oldest, limits(other.kind));
      }
      attempts := Without(inserted, res, oldest);
      history := history + [a];
    }

    /** `rows.filter(...).length` */
    method CountFails(rows: seq<Attempt>) returns (n: nat)
      ensures n == Fails(rows)
    {
      n := 0;
      for i := 0 to |rows|
        invariant n == Fails(rows[..i])
      {
        assert rows[..i + 1][..i] == rows[..i];
        if !rows[i].ok { n := n + 1; }
      }
      assert rows[..|rows|] == rows;
    }

    method UpdateResource(res: Resource, f: State -> State)
      modifies this`states
      ensures states == if res in old(states) then old(states)[res := f(old(states)[res])] else old(states)
    {
      if res in states {
        states := states[res := f(states[res])];
      }
    }

    /**
     * recordResourceAttempt: a failing attempt disables its resource exactly when the last `window`
     * attempts of its whole history exist and reach the threshold; no other resource is touched.
     */
    method RecordResourceAttempt(res: Resource, ok: bool, error: string)
      returns (disabled: bool, ghost at: seq<nat>)
      requires Valid()
      modifies this
      ensures Valid() && history == old(history) + [Attempt(old(nextId), res, ok)]
      ensures Positions(history, res, at)
      ensures disabled <==> !ok && DisabledBy(history, at, limits(res.kind))
      ensures disabled <==> !ok && Crossed(Of(history, res), limits(res.kind))
      ensures states ==
                (if ok || res !in old(states) then old(states)
                 else if disabled then old(states)[res := State(true, Some(error), 0)]
                 else old(states)[res := old(states)[res].(lastError := Some(error))])
    {
      InsertAttempt(res, ok);
      at := CrossedIsDisabled(history, res, limits(res.kind));
      if ok { return false, at; }
      disabled := CrossesNow(res);
      if disabled {
        UpdateResource(res, s => State(true, Some(error), 0));
      } else {
        UpdateResource(res, (s: State) => s.(lastError := Some(error)));
      }
    }

    method CrossesNow(res: Resource) returns (crossed: bool)
      requires Valid()
      ensures crossed <==> Crossed(Of(history, res), limits(res.kind))
    {
      var window, threshold := limits(res.kind).window, limits(res.kind).threshold;
      var rows := Last(window, Of(attempts, res));
      crossed := false;
      if |rows| >= window {
        var fails := CountFails(rows);
        crossed := fails as real / |rows| as real >= threshold;
      }
    }
  }

  // ---- what a window says ---------------------------------------------------------------------

  lemma {:induction false} FailsBound(s: seq<Attempt>)
    ensures Fails(s) <= |s|
    ensures Fails(s) == |s| <==> forall i | 0 <= i < |s| :: !s[i].ok
  {
    if s != [] {
      FailsBound(s[..|s| - 1]);
    }
  }

  lemma WholeRatio(fails: nat, n: nat)
    requires 0 < n && fails <= n
    ensures fails as real / n as real >= 1.0 <==> fails == n
  {
  }

  /** At a threshold of one, only an unbroken window of failures disables. */
  lemma FullThreshold(s: seq<Attempt>, window: nat)
    requires window > 0
    ensures Crossed(s, Limits(1.0, window)) <==>
              |s| >= window && forall i | 0 <= i < window :: !Last(window, s)[i].ok
  {
    var rows := Last(window, s);
    FailsBound(rows);
    if |s| >= window {
      WholeRatio(Fails(rows), window);
    }
  }
}
