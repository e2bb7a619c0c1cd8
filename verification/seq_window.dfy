/**
 * Sorting targets by one response of GetMatchHistoryBySequenceNum
 * (packages/shared/src/steam/seq-walk.ts): what was returned, what Valve skipped, and what a later
 * request must ask for.
 */
module SeqWindow {

  datatype SeqRef = SeqRef(matchId: int, seqNum: int)

  datatype Reason =
    | EmptyWindow(at: int)
    | InsideWindow(seqNum: int, start: int, end: int)
    | CursorStuck(at: int, batchSize: nat)

  datatype Action = Save(matchId: int) | Unavailable(matchId: int, reason: Reason)

  datatype Outcome = Outcome(actions: seq<Action>, next: seq<SeqRef>)

  function IdsOf(refs: seq<SeqRef>): seq<int> {
    seq(|refs|, i requires 0 <= i < |refs| => refs[i].matchId)
  }

  function ActionIds(actions: seq<Action>): seq<int> {
    seq(|actions|, i requires 0 <= i < |actions| => actions[i].matchId)
  }

  function Got(returned: seq<SeqRef>): set<int> { set r | r in returned :: r.matchId }

  function MaxSeq(returned: seq<SeqRef>): (m: int)
    requires returned != []
    ensures (exists r :: r in returned && r.seqNum == m) && forall r | r in returned :: r.seqNum <= m
  {
    var last := returned[|returned| - 1];
    if |returned| == 1 then last.seqNum
    else
      var before := MaxSeq(returned[..|returned| - 1]);
      assert returned == returned[..|returned| - 1] + [last];
      if last.seqNum > before then last.seqNum else before
  }

  /** Ahead of everything the response reached. */
  predicate Ahead(r: SeqRef, got: set<int>, maxSeq: int) { r.matchId !in got && r.seqNum > maxSeq }

  function ActionOn(r: SeqRef, got: set<int>, start: int, maxSeq: int): Action {
    if r.matchId in got then Save(r.matchId) else Unavailable(r.matchId, InsideWindow(r.seqNum, start, maxSeq))
  }

  /** One pass over the targets, in order. */
  function Sorted(refs: seq<SeqRef>, got: set<int>, start: int, maxSeq: int): Outcome {
    if refs == [] then Outcome([], [])
    else
      var before := Sorted(refs[..|refs| - 1], got, start, maxSeq);
      var last := refs[|refs| - 1];
      if Ahead(last, got, maxSeq) then before.(next := before.next + [last])
      else before.(actions := before.actions + [ActionOn(last, got, start, maxSeq)])
  }

  /** The response ends before the first target. */
  predicate Stuck(remaining: seq<SeqRef>, returned: seq<SeqRef>)
    requires remaining != [] && returned != []
  {
    Ahead(remaining[0], Got(returned), MaxSeq(returned))
  }

  function Applied(remaining: seq<SeqRef>, returned: seq<SeqRef>, batchSize: nat): Outcome {
    if remaining == [] then Outcome([], [])
    else
      var head := remaining[0];
      if returned == [] then Outcome([Unavailable(head.matchId, EmptyWindow(head.seqNum))], remaining[1..])
      else
        var sorted := Sorted(remaining, Got(returned), head.seqNum, MaxSeq(returned));
        if Stuck(remaining, returned) && sorted.next != []
        then Outcome(sorted.actions + [Unavailable(head.matchId, CursorStuck(head.seqNum, batchSize))],
                     sorted.next[1..])
        else sorted
  }

  /** A stuck target is the first of those kept; otherwise the first kept one has another number. */
  lemma {:induction false} FirstKept(refs: seq<SeqRef>, got: set<int>, start: int, maxSeq: int)
    requires refs != []
    ensures var next := Sorted(refs, got, start, maxSeq).next;
            && (forall r | r in next :: r in refs && Ahead(r, got, maxSeq))
            && (Ahead(refs[0], got, maxSeq) ==> next != [] && next[0] == refs[0])
  {
    if |refs| > 1 {
      FirstKept(refs[..|refs| - 1], got, start, maxSeq);
    } else {
      assert refs[..0] == [];
    }
  }

  // ---- where each target goes -----------------------------------------------------------------

  /** Above everything the response returned, and not in it. */
  predicate Beyond(r: SeqRef, returned: seq<SeqRef>) {
    forall q | q in returned :: q.matchId != r.matchId && q.seqNum < r.seqNum
  }

  /** Ascending positions in a list of `n`. */
  predicate Picks(at: seq<nat>, n: nat) {
    (forall k | 0 <= k < |at| :: at[k] < n) && forall j, k | 0 <= j < k < |at| :: at[j] < at[k]
  }

  /** A returned target is saved; any other is given up because the response went past it. */
  ghost predicate Decided(r: SeqRef, returned: seq<SeqRef>, start: int, action: Action) {
    if exists q :: q in returned && q.matchId == r.matchId then action == Save(r.matchId)
    else
      && action.Unavailable? && action.matchId == r.matchId && action.reason.InsideWindow?
      && action.reason.seqNum == r.seqNum <= action.reason.end && action.reason.start == start
      && (forall q | q in returned :: q.seqNum <= action.reason.end)
      && exists q :: q in returned && q.seqNum == action.reason.end
  }

  /**
   * The targets at `kept` are the ones beyond the response, in order; those at `taken`, all the
   * others, are decided in order.
   */
  ghost predicate Placed(targets: seq<SeqRef>, returned: seq<SeqRef>, start: int, actions: seq<Action>,
                         next: seq<SeqRef>, taken: seq<nat>, kept: seq<nat>)
  {
    && Picks(taken, |targets|) && Picks(kept, |targets|) && |taken| == |actions| && |kept| == |next|
    && (forall i | 0 <= i < |targets| :: if Beyond(targets[i], returned) then i in kept else i in taken)
    && (forall k | 0 <= k < |kept| :: Beyond(targets[kept[k]], returned) && next[k] == targets[kept[k]])
    && forall k | 0 <= k < |taken| ::
         !Beyond(targets[taken[k]], returned) && Decided(targets[taken[k]], returned, start, actions[k])
  }

  lemma AheadIsBeyond(r: SeqRef, returned: seq<SeqRef>)
    requires returned != []
    ensures Ahead(r, Got(returned), MaxSeq(returned)) <==> Beyond(r, returned)
  {
    var m := MaxSeq(returned);
    var top :| top in returned && top.seqNum == m;
    if r.matchId in Got(returned) {
      var q :| q in returned && q.matchId == r.matchId;
    }
  }

  lemma ActionIsDecided(r: SeqRef, returned: seq<SeqRef>, start: int)
    requires returned != [] && !Beyond(r, returned)
    ensures Decided(r, returned, start, ActionOn(r, Got(returned), start, MaxSeq(returned)))
  {
    AheadIsBeyond(r, returned);
    if r.matchId in Got(returned) {
      var q :| q in returned && q.matchId == r.matchId;
    }
  }

  lemma {:induction false} SortedIsPlaced(targets: seq<SeqRef>, returned: seq<SeqRef>, start: int)
    returns (taken: seq<nat>, kept: seq<nat>)
    requires returned != []
    ensures var o := Sorted(targets, Got(returned), start, MaxSeq(returned));
            Placed(targets, returned, start, o.actions, o.next, taken, kept)
  {
    taken, kept := [], [];
    if targets != [] {
      var n := |targets| - 1;
      var before := Sorted(targets[..n], Got(returned), start, MaxSeq(returned));
      taken, kept := SortedIsPlaced(targets[..n], returned, start);
      AheadIsBeyond(targets[n], returned);
      if Beyond(targets[n], returned) {
        PlacedNext(targets, returned, start, before.actions, before.next, taken, kept);
        kept := kept + [n];
      } else {
        var action := ActionOn(targets[n], Got(returned), start, MaxSeq(returned));
        ActionIsDecided(targets[n], returned, start);
        PlacedAction(targets, returned, start, before.actions, before.next, taken, kept, action);
        taken := taken + [n];
      }
    }
  }

  lemma PicksMore(at: seq<nat>, n: nat)
    requires Picks(at, n)
    ensures Picks(at, n + 1) && Picks(at + [n], n + 1) && n in at + [n] && forall i | i in at :: i in at + [n]
  {
    assert (at + [n])[|at|] == n;
  }

  lemma PlacedNext(targets: seq<SeqRef>, returned: seq<SeqRef>, start: int, actions: seq<Action>,
                   next: seq<SeqRef>, taken: seq<nat>, kept: seq<nat>)
    requires targets != [] && Placed(targets[..|targets| - 1], returned, start, actions, next, taken, kept)
    requires Beyond(targets[|targets| - 1], returned)
    ensures Placed(targets, returned, start, actions, next + [targets[|targets| - 1]], taken, kept + [|targets| - 1])
  {
    PicksMore(taken, |targets| - 1);
    PicksMore(kept, |targets| - 1);
  }

  lemma PlacedAction(targets: seq<SeqRef>, returned: seq<SeqRef>, start: int, actions: seq<Action>,
                     next: seq<SeqRef>, taken: seq<nat>, kept: seq<nat>, action: Action)
    requires targets != [] && Placed(targets[..|targets| - 1], returned, start, actions, next, taken, kept)
    requires !Beyond(targets[|targets| - 1], returned) && Decided(targets[|targets| - 1], returned, start, action)
    ensures Placed(targets, returned, start, actions + [action], next, taken + [|targets| - 1], kept)
  {
    PicksMore(taken, |targets| - 1);
    PicksMore(kept, |targets| - 1);
  }

  /**
   * applySeqWindow. With no answer the first target is given up alone. Else a target beyond the answer
   * is kept and any other is decided; but a first target that is itself beyond it is given up last.
   */
  method ApplySeqWindow(remaining: seq<SeqRef>, returned: seq<SeqRef>, batchSize: nat)
    returns (actions: seq<Action>, next: seq<SeqRef>, ghost taken: seq<nat>, ghost kept: seq<nat>)
    ensures remaining == [] ==> actions == [] && next == []
    ensures remaining != [] && returned == [] ==>
              actions == [Unavailable(remaining[0].matchId, EmptyWindow(remaining[0].seqNum))]
              && next == remaining[1..]
    ensures remaining != [] && returned != [] && !Beyond(remaining[0], returned) ==>
              Placed(remaining, returned, remaining[0].seqNum, actions, next, taken, kept)
    ensures remaining != [] && returned != [] && Beyond(remaining[0], returned) ==>
              && actions != []
              && actions[|actions| - 1]
                 == Unavailable(remaining[0].matchId, CursorStuck(remaining[0].seqNum, batchSize))
              && Placed(remaining, returned, remaining[0].seqNum, actions[..|actions| - 1], [remaining[0]] + next,
                        taken, kept)
    ensures Outcome(actions, next) == Applied(remaining, returned, batchSize)
  {
    taken, kept := [], [];
    if |remaining| == 0 { return [], [], [], []; }
    var head := remaining[0];
    if |returned| == 0 {
      return [Unavailable(head.matchId, EmptyWindow(head.seqNum))], remaining[1..], [], [];
    }
    var got, maxSeq := Got(returned), MaxSeq(returned);
    actions, next := [], [];
    for i := 0 to |remaining|
      invariant Outcome(actions, next) == Sorted(remaining[..i], got, head.seqNum, maxSeq)
    {
      var r := remaining[i];
      assert remaining[..i + 1][..i] == remaining[..i];
      if r.matchId in got {
        actions := actions + [Save(r.matchId)];
        continue;
      }
      if r.seqNum <= maxSeq {
        actions := actions + [Unavailable(r.matchId, InsideWindow(r.seqNum, head.seqNum, maxSeq))];
        continue;
      }
      next := next + [r];
    }
    assert remaining[..|remaining|] == remaining;
    FirstKept(remaining, got, head.seqNum, maxSeq);
    AheadIsBeyond(head, returned);
    taken, kept := SortedIsPlaced(remaining, returned, head.seqNum);
    ghost var passed := next;
    if |next| > 0 && next[0].seqNum == head.seqNum && head.matchId !in got {
      assert next[0] in next;
      actions := actions + [Unavailable(head.matchId, CursorStuck(head.seqNum, batchSize))];
      next := next[1..];
      assert [head] + next == passed;
    }
  }

  // ---- every target once ----------------------------------------------------------------------

  lemma IdsAppend(a: seq<SeqRef>, b: seq<SeqRef>)
    ensures IdsOf(a + b) == IdsOf(a) + IdsOf(b)
  {
  }

  lemma ActionIdsAppend(a: seq<Action>, b: seq<Action>)
    ensures ActionIds(a + b) == ActionIds(a) + ActionIds(b)
  {
  }

  /** What a pass has sorted, in any order. */
  function Covered(o: Outcome): multiset<int> { multiset(ActionIds(o.actions)) + multiset(IdsOf(o.next)) }

  lemma CoveredGrows(o: Outcome, r: SeqRef, action: Action)
    requires action.matchId == r.matchId
    ensures Covered(o.(next := o.next + [r])) == Covered(o) + multiset{r.matchId}
    ensures Covered(o.(actions := o.actions + [action])) == Covered(o) + multiset{r.matchId}
  {
    IdsAppend(o.next, [r]);
    ActionIdsAppend(o.actions, [action]);
    assert IdsOf([r]) == [r.matchId] && ActionIds([action]) == [r.matchId];
  }

  lemma {:induction false} SortedCoversAll(refs: seq<SeqRef>, got: set<int>, start: int, maxSeq: int)
    ensures Covered(Sorted(refs, got, start, maxSeq)) == multiset(IdsOf(refs))
    ensures |Sorted(refs, got, start, maxSeq).next| <= |refs|
  {
    if refs != [] {
      var before, last := refs[..|refs| - 1], refs[|refs| - 1];
      SortedCoversAll(before, got, start, maxSeq);
      CoveredGrows(Sorted(before, got, start, maxSeq), last, ActionOn(last, got, start, maxSeq));
      IdsAppend(before, [last]);
      assert refs == before + [last] && IdsOf([last]) == [last.matchId];
    }
  }

  /** Every target gets exactly one action or is kept for a later request, and the rest gets shorter. */
  lemma EveryTargetOnce(remaining: seq<SeqRef>, returned: seq<SeqRef>, batchSize: nat)
    ensures Covered(Applied(remaining, returned, batchSize)) == multiset(IdsOf(remaining))
    ensures remaining != [] ==> |Applied(remaining, returned, batchSize).next| < |remaining|
  {
    if remaining != [] {
      var head := remaining[0];
      if returned == [] {
        var skipped := Unavailable(head.matchId, EmptyWindow(head.seqNum));
        CoveredGrows(Outcome([], remaining[1..]), head, skipped);
        IdsAppend([head], remaining[1..]);
        assert [] + [skipped] == [skipped] && [head] + remaining[1..] == remaining && IdsOf([head]) == [head.matchId];
        assert Covered(Outcome([], remaining[1..])) == multiset(IdsOf(remaining[1..]));
      } else {
        var sorted := Sorted(remaining, Got(returned), head.seqNum, MaxSeq(returned));
        SortedCoversAll(remaining, Got(returned), head.seqNum, MaxSeq(returned));
        FirstKept(remaining, Got(returned), head.seqNum, MaxSeq(returned));
        if Stuck(remaining, returned) {
          StuckMovesHead(sorted, head, Unavailable(head.matchId, CursorStuck(head.seqNum, batchSize)));
        } else {
          NotAllKept(remaining, Got(returned), head.seqNum, MaxSeq(returned));
        }
      }
    }
  }

  lemma StuckMovesHead(sorted: Outcome, head: SeqRef, action: Action)
    requires sorted.next != [] && sorted.next[0] == head && action.matchId == head.matchId
    ensures Covered(Outcome(sorted.actions + [action], sorted.next[1..])) == Covered(sorted)
  {
    ActionIdsAppend(sorted.actions, [action]);
    assert IdsOf(sorted.next) == [head.matchId] + IdsOf(sorted.next[1..]);
  }

  lemma {:induction false} NotAllKept(refs: seq<SeqRef>, got: set<int>, start: int, maxSeq: int)
    requires refs != [] && !Ahead(refs[0], got, maxSeq)
    ensures |Sorted(refs, got, start, maxSeq).next| < |refs|
  {
    if |refs| > 1 {
      NotAllKept(refs[..|refs| - 1], got, start, maxSeq);
    } else {
      assert refs[..0] == [];
    }
  }

  /** `part` is `whole` with some entries left out, the others in order. */
  predicate Subsequence(part: seq<SeqRef>, whole: seq<SeqRef>) {
    if part == [] then true
    else if whole == [] then false
    else if part[|part| - 1] == whole[|whole| - 1] then Subsequence(part[..|part| - 1], whole[..|whole| - 1])
    else Subsequence(part, whole[..|whole| - 1])
  }

  lemma {:induction false} DropFirst(part: seq<SeqRef>, whole: seq<SeqRef>)
    requires part != [] && Subsequence(part, whole)
    ensures Subsequence(part[1..], whole)
  {
    if |part| > 1 {
      assert part[1..][|part[1..]| - 1] == part[|part| - 1];
      if part[|part| - 1] == whole[|whole| - 1] {
        DropFirst(part[..|part| - 1], whole[..|whole| - 1]);
        assert part[1..][..|part[1..]| - 1] == part[..|part| - 1][1..];
      } else {
        DropFirst(part, whole[..|whole| - 1]);
      }
    }
  }

  lemma {:induction false} MoreLeftOut(part: seq<SeqRef>, whole: seq<SeqRef>, last: SeqRef)
    requires Subsequence(part, whole)
    ensures Subsequence(part, whole + [last])
    decreases |whole|, 1
  {
    assert (whole + [last])[..|whole|] == whole;
    if part != [] && part[|part| - 1] == last {
      DropLast(part, whole);
    }
  }

  lemma {:induction false} DropLast(part: seq<SeqRef>, whole: seq<SeqRef>)
    requires part != [] && Subsequence(part, whole)
    ensures Subsequence(part[..|part| - 1], whole)
    decreases |whole|, 0
  {
    if part[|part| - 1] == whole[|whole| - 1] {
      assert whole == whole[..|whole| - 1] + [whole[|whole| - 1]];
      MoreLeftOut(part[..|part| - 1], whole[..|whole| - 1], whole[|whole| - 1]);
    } else {
      DropLast(part, whole[..|whole| - 1]);
      assert whole == whole[..|whole| - 1] + [whole[|whole| - 1]];
      MoreLeftOut(part[..|part| - 1], whole[..|whole| - 1], whole[|whole| - 1]);
    }
  }

  lemma {:induction false} SortedKeepsOrder(refs: seq<SeqRef>, got: set<int>, start: int, maxSeq: int)
    ensures Subsequence(Sorted(refs, got, start, maxSeq).next, refs)
    ensures forall a | a in Sorted(refs, got, start, maxSeq).actions :: a.Save? <==> a.matchId in got
  {
    if refs != [] {
      var before, last := refs[..|refs| - 1], refs[|refs| - 1];
      SortedKeepsOrder(before, got, start, maxSeq);
      var next := Sorted(before, got, start, maxSeq).next;
      if Ahead(last, got, maxSeq) {
        assert (next + [last])[..|next|] == next;
      } else {
        MoreLeftOut(next, before, last);
        assert before + [last] == refs;
      }
    }
  }

  /** A target is saved exactly when the response has it; those kept are not in it and keep their order. */
  lemma SavedIffReturned(remaining: seq<SeqRef>, returned: seq<SeqRef>, batchSize: nat)
    ensures var o := Applied(remaining, returned, batchSize);
            && (forall a | a in o.actions :: a.Save? <==> a.matchId in Got(returned))
            && (returned != [] ==> forall r | r in o.next :: r.matchId !in Got(returned))
            && Subsequence(o.next, remaining)
  {
    if remaining != [] {
      if returned == [] {
        WholeIsSubsequence(remaining);
        DropFirst(remaining, remaining);
      } else {
        SortedKeepsOrder(remaining, Got(returned), remaining[0].seqNum, MaxSeq(returned));
        FirstKept(remaining, Got(returned), remaining[0].seqNum, MaxSeq(returned));
        if Stuck(remaining, returned) {
          var next := Sorted(remaining, Got(returned), remaining[0].seqNum, MaxSeq(returned)).next;
          DropFirst(next, remaining);
          assert forall r | r in next[1..] :: r in next;
        }
      }
    }
  }

  lemma {:induction false} WholeIsSubsequence(refs: seq<SeqRef>)
    ensures Subsequence(refs, refs)
  {
    if refs != [] {
      WholeIsSubsequence(refs[..|refs| - 1]);
    }
  }

  // ---- walking to the end ---------------------------------------------------------------------

  /** Every action of a walk whose `i`-th request is answered by `answers(i)`, and how many requests it takes. */
  function Walk(remaining: seq<SeqRef>, answers: nat -> seq<SeqRef>, batchSize: nat, i: nat): (w: (seq<Action>, nat))
    decreases |remaining|
  {
    if remaining == [] then ([], 0)
    else
      EveryTargetOnce(remaining, answers(i), batchSize);
      var o := Applied(remaining, answers(i), batchSize);
      var rest := Walk(o.next, answers, batchSize, i + 1);
      (o.actions + rest.0, rest.1 + 1)
  }

  /** Whatever is answered, a walk ends within one request per target, each target having one action. */
  lemma {:induction false} WalkEnds(remaining: seq<SeqRef>, answers: nat -> seq<SeqRef>, batchSize: nat, i: nat)
    ensures (if remaining == [] then 0 else 1) <= Walk(remaining, answers, batchSize, i).1 <= |remaining|
    ensures multiset(ActionIds(Walk(remaining, answers, batchSize, i).0)) == multiset(IdsOf(remaining))
    decreases |remaining|
  {
    if remaining != [] {
      var o := Applied(remaining, answers(i), batchSize);
      EveryTargetOnce(remaining, answers(i), batchSize);
      WalkEnds(o.next, answers, batchSize, i + 1);
      ActionIdsAppend(o.actions, Walk(o.next, answers, batchSize, i + 1).0);
    }
  }
}
