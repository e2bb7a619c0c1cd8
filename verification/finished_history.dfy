/**
 * The crawl that looks for finished matches in Valve's newest-first history of a league
 * (packages/shared/src/jobs/poll-finished-history.ts, packages/shared/src/steam/history-page.ts).
 * It stops as soon as every waiting id is decided; the answer is that of a full scan.
 */
module FinishedHistory {
  import opened Wrappers
  import opened MatchPhase
  import opened MatchRow
  import opened MatchStore
  import opened MatchRuns

  datatype HistoryMatch = HistoryMatch(matchId: MatchId, matchSeqNum: int)

  datatype Page = Page(matches: seq<HistoryMatch>, resultsRemaining: int)

  /** A request: which attempt it is, and where the page starts. */
  type Fetch = (nat, Option<MatchId>) -> Page

  // ---- what Valve serves ----------------------------------------------------------------------

  ghost predicate Descending(history: seq<HistoryMatch>) {
    forall i, j | 0 <= i < j < |history| :: history[i].matchId > history[j].matchId
  }

  ghost function Ids(history: seq<HistoryMatch>): set<MatchId> {
    set m | m in history :: m.matchId
  }

  /**
   * A contiguous slice from index `k`. Nothing remains exactly when it reaches the end; before
   * the end it has at least `least` entries.
   */
  ghost predicate PageAt(history: seq<HistoryMatch>, k: nat, page: Page, least: nat) {
    && k + |page.matches| <= |history|
    && page.matches == history[k..k + |page.matches|]
    && (k + |page.matches| == |history| <==> page.resultsRemaining <= 0)
    && (k + |page.matches| < |history| ==> |page.matches| >= least)
  }

  ghost predicate Serves(history: seq<HistoryMatch>, fetch: Fetch, least: nat) {
    && Descending(history)
    && (forall n: nat :: PageAt(history, 0, fetch(n, None), least))
    && (forall n: nat, k: nat | k < |history| ::
          PageAt(history, k, fetch(n, Some(history[k].matchId)), least))
  }

  // ---- deciding one page ----------------------------------------------------------------------

  datatype PagePlan = PagePlan(found: set<MatchId>, missed: set<MatchId>, continueAt: Option<MatchId>)

  function OlderThanPage(remaining: set<MatchId>, pageIds: seq<MatchId>): set<MatchId>
    requires pageIds != []
  {
    set id | id in remaining && id <= pageIds[0] && id < pageIds[|pageIds| - 1]
  }

  function Plan(waiting: set<MatchId>, pageIds: seq<MatchId>, resultsRemaining: int): PagePlan {
    var found := set id | id in pageIds && id in waiting;
    var remaining := waiting - found;
    if remaining == {} then PagePlan(found, {}, None)
    else if pageIds == [] then PagePlan(found, remaining, None)
    else
      var older := OlderThanPage(remaining, pageIds);
      if older == {} || resultsRemaining <= 0 then PagePlan(found, remaining, None)
      else PagePlan(found, remaining - older, Some(pageIds[|pageIds| - 1]))
  }

  method HistoryWaiterPagePlan(waiting: set<MatchId>, pageIds: seq<MatchId>, resultsRemaining: int)
    returns (plan: PagePlan)
    ensures plan == Plan(waiting, pageIds, resultsRemaining)
  {
    var found := set id | id in pageIds && id in waiting;
    var remaining := waiting - found;
    if remaining == {} { return PagePlan(found, {}, None); }
    if |pageIds| == 0 { return PagePlan(found, remaining, None); }
    var newest, oldest := pageIds[0], pageIds[|pageIds| - 1];
    var missedIds: set<MatchId>, older: set<MatchId>, todo := {}, {}, remaining;
    while todo != {}
      invariant todo <= remaining
      invariant older == OlderThanPage(remaining - todo, pageIds)
      invariant missedIds == remaining - todo - older
      decreases todo
    {
      var id := PickOne(todo);
      todo := todo - {id};
      if id > newest {
        missedIds := missedIds + {id};
        continue;
      }
      if id >= oldest {
        missedIds := missedIds + {id};
        continue;
      }
      older := older + {id};
    }
    assert remaining - todo == remaining;
    if older == {} { return PagePlan(found, missedIds, None); }
    if resultsRemaining <= 0 { return PagePlan(found, missedIds + older, None); }
    return PagePlan(found, missedIds, Some(oldest));
  }

  function PageIds(page: Page): seq<MatchId> {
    seq(|page.matches|, i requires 0 <= i < |page.matches| => page.matches[i].matchId)
  }

  /** Where the crawl stands: every undecided id is older than the entry it will start from. */
  ghost predicate StandsAt(history: seq<HistoryMatch>, k: nat, startAt: Option<MatchId>, undecided: set<MatchId>) {
    match startAt
    case None => k == 0
    case Some(start) =>
      k < |history| && start == history[k].matchId && forall id | id in undecided :: id < start
  }

  lemma FoundIsOnPage(page: Page, waiting: set<MatchId>)
    ensures Plan(waiting, PageIds(page), page.resultsRemaining).found == waiting * Ids(page.matches)
  {
    var ids, found := PageIds(page), Plan(waiting, PageIds(page), page.resultsRemaining).found;
    forall id | id in found ensures id in Ids(page.matches) {
      var i :| 0 <= i < |ids| && ids[i] == id;
      assert page.matches[i] in page.matches;
    }
    forall id | id in waiting * Ids(page.matches) ensures id in found {
      var m :| m in page.matches && m.matchId == id;
      var i :| 0 <= i < |page.matches| && page.matches[i] == m;
      assert ids[i] == id;
    }
  }

  lemma PageIsInHistory(history: seq<HistoryMatch>, k: nat, page: Page)
    requires k <= |history| && PageAt(history, k, page, 1)
    ensures Ids(page.matches) <= Ids(history)
    ensures forall i | 0 <= i < |page.matches| :: PageIds(page)[i] == history[k + i].matchId
  {
    forall id | id in Ids(page.matches) ensures id in Ids(history) {
      var i :| 0 <= i < |page.matches| && page.matches[i].matchId == id;
      assert history[k + i] in history;
    }
  }

  /** An entry of the history from the page on is found, or older than the page. */
  lemma EntryIsNotMissed(history: seq<HistoryMatch>, k: nat, page: Page, waiting: set<MatchId>, i: nat)
    requires Descending(history) && k <= |history| && PageAt(history, k, page, 1)
    requires k <= i < |history| && history[i].matchId in waiting
    ensures history[i].matchId !in Plan(waiting, PageIds(page), page.resultsRemaining).missed
  {
    var ids := PageIds(page);
    PageIsInHistory(history, k, page);
    if i < k + |ids| {
      assert ids[i - k] == history[i].matchId;
    } else {
      assert ids[0] >= ids[|ids| - 1] > history[i].matchId;
      var plan := Plan(waiting, ids, page.resultsRemaining);
      assert history[i].matchId in plan.found || history[i].matchId in OlderThanPage(waiting - plan.found, ids);
    }
  }

  lemma MissedIsNowhere(history: seq<HistoryMatch>, k: nat, startAt: Option<MatchId>, page: Page,
                        waiting: set<MatchId>)
    requires Descending(history) && k <= |history| && PageAt(history, k, page, 1)
    requires StandsAt(history, k, startAt, waiting)
    ensures var missed := Plan(waiting, PageIds(page), page.resultsRemaining).missed;
            missed <= waiting && missed !! Ids(history)
  {
    var missed := Plan(waiting, PageIds(page), page.resultsRemaining).missed;
    forall id | id in missed ensures id !in Ids(history) {
      if id in Ids(history) {
        var i :| 0 <= i < |history| && history[i].matchId == id;
        EntryIsNotMissed(history, k, page, waiting, i);
      }
    }
  }

  /** What is left undecided is older than the page's last entry. */
  lemma RestIsOlder(history: seq<HistoryMatch>, k: nat, page: Page, waiting: set<MatchId>)
    requires k <= |history| && PageAt(history, k, page, 1)
    ensures var plan := Plan(waiting, PageIds(page), page.resultsRemaining);
            && (plan.continueAt.None? ==> waiting == plan.found + plan.missed)
            && (plan.continueAt.Some? ==>
                  && 0 < |page.matches| < |history| - k
                  && StandsAt(history, k + |page.matches| - 1, plan.continueAt,
                              waiting - plan.found - plan.missed))
  {
    PageIsInHistory(history, k, page);
  }

  /** One page of a descending history decides exactly the ids it reaches. */
  lemma PlanIsExact(history: seq<HistoryMatch>, k: nat, startAt: Option<MatchId>, page: Page,
                    waiting: set<MatchId>)
    requires Descending(history) && k <= |history| && PageAt(history, k, page, 1)
    requires StandsAt(history, k, startAt, waiting)
    ensures var plan := Plan(waiting, PageIds(page), page.resultsRemaining);
            && plan.found == waiting * Ids(page.matches)
            && plan.found <= Ids(history)
            && plan.missed !! Ids(history)
            && plan.missed <= waiting
            && (plan.continueAt.None? ==> waiting == plan.found + plan.missed)
            && (plan.continueAt.Some? ==>
                  && 0 < |page.matches| < |history| - k
                  && StandsAt(history, k + |page.matches| - 1, plan.continueAt,
                              waiting - plan.found - plan.missed))
  {
    FoundIsOnPage(page, waiting);
    PageIsInHistory(history, k, page);
    MissedIsNowhere(history, k, startAt, page, waiting);
    RestIsOlder(history, k, page, waiting);
  }

  /** The crawl asks again at the id it started from exactly when that id was the whole page. */
  lemma StallsOnlyOnSingleEntryPages(history: seq<HistoryMatch>, k: nat, page: Page, waiting: set<MatchId>)
    requires Descending(history) && k < |history| && PageAt(history, k, page, 1)
    requires Plan(waiting, PageIds(page), page.resultsRemaining).continueAt.Some?
    ensures Plan(waiting, PageIds(page), page.resultsRemaining).continueAt == Some(history[k].matchId)
            <==> |page.matches| == 1
  {
    assert PageIds(page)[|page.matches| - 1] == history[k + |page.matches| - 1].matchId;
  }

  ghost predicate Decided(history: seq<HistoryMatch>, waiting: set<MatchId>, remaining: set<MatchId>,
                          found: set<MatchId>, missed: set<MatchId>)
  {
    && found + missed + remaining == waiting
    && found !! remaining && found <= Ids(history)
    && missed !! Ids(history)
  }

  /** Deciding a page keeps the three parts apart, and either decides all or moves on. */
  lemma DecidePage(history: seq<HistoryMatch>, k: nat, startAt: Option<MatchId>, page: Page,
                   waiting: set<MatchId>, remaining: set<MatchId>, found: set<MatchId>, missed: set<MatchId>)
    requires Descending(history) && k <= |history| && PageAt(history, k, page, 2)
    requires StandsAt(history, k, startAt, remaining)
    requires Decided(history, waiting, remaining, found, missed)
    ensures var plan := Plan(remaining, PageIds(page), page.resultsRemaining);
            var rest := remaining - plan.found - plan.missed;
            && plan.found == remaining * Ids(page.matches)
            && Decided(history, waiting, rest, found + plan.found, missed + plan.missed)
            && (plan.continueAt.None? ==> rest == {})
            && (plan.continueAt.Some? ==>
                  && plan.continueAt != startAt
                  && 1 < |page.matches| < |history| - k
                  && StandsAt(history, k + |page.matches| - 1, plan.continueAt, rest))
  {
    PlanIsExact(history, k, startAt, page, remaining);
  }

  // ---- the crawl ------------------------------------------------------------------------------

  /**
   * With pages of at least two entries the crawl ends, and its answer is the full scan's: the
   * waiting ids in the list are found with their entries, the others are missed.
   */
  method CrawlWaitingHistory(ghost history: seq<HistoryMatch>, fetch: Fetch, waiting: set<MatchId>)
    returns (found: map<MatchId, HistoryMatch>, missed: set<MatchId>, pageCount: nat)
    requires Serves(history, fetch, 2)
    ensures found.Keys == waiting * Ids(history)
    ensures forall id | id in found :: found[id] in history && found[id].matchId == id
    ensures missed == waiting - Ids(history)
    ensures pageCount <= |history| + 1
  {
    var remaining := waiting;
    found, missed, pageCount := map[], {}, 0;
    var startAt: Option<MatchId> := None;
    ghost var k := 0;
    while remaining != {}
      invariant k <= |history| && StandsAt(history, k, startAt, remaining)
      invariant Decided(history, waiting, remaining, found.Keys, missed)
      invariant forall id | id in found :: found[id] in history && found[id].matchId == id
      invariant pageCount <= k + (if startAt.Some? then 1 else 0)
      decreases |history| - k, startAt.None?
    {
      var page := fetch(pageCount, startAt);
      pageCount := pageCount + 1;
      var continueAt;
      found, missed, remaining, continueAt :=
        TakePage(history, k, startAt, page, waiting, found, missed, remaining);
      if continueAt.None? || continueAt == startAt {
        break;
      }
      startAt := continueAt;
      k := k + |page.matches| - 1;
    }
    missed := missed + remaining;
  }

  lemma PageEntriesAreInHistory(history: seq<HistoryMatch>, k: nat, page: Page)
    requires k <= |history| && PageAt(history, k, page, 2)
    ensures forall m | m in page.matches :: m in history
  {
  }

  /** The body of the crawl's loop, up to where it decides whether to go on. */
  method TakePage(ghost history: seq<HistoryMatch>, ghost k: nat, ghost startAt: Option<MatchId>, page: Page,
                  ghost waiting: set<MatchId>, found0: map<MatchId, HistoryMatch>, missed0: set<MatchId>,
                  remaining0: set<MatchId>)
    returns (found: map<MatchId, HistoryMatch>, missed: set<MatchId>, remaining: set<MatchId>,
             continueAt: Option<MatchId>)
    requires Descending(history) && k <= |history| && PageAt(history, k, page, 2)
    requires StandsAt(history, k, startAt, remaining0)
    requires Decided(history, waiting, remaining0, found0.Keys, missed0)
    requires forall id | id in found0 :: found0[id] in history && found0[id].matchId == id
    ensures Decided(history, waiting, remaining, found.Keys, missed)
    ensures forall id | id in found :: found[id] in history && found[id].matchId == id
    ensures continueAt.None? ==> remaining == {}
    ensures continueAt.Some? ==>
              && continueAt != startAt
              && 1 < |page.matches| < |history| - k
              && StandsAt(history, k + |page.matches| - 1, continueAt, remaining)
  {
    var listed := ListedOf(page.matches, remaining0);
    found := found0 + listed;
    PageEntriesAreInHistory(history, k, page);
    var plan := HistoryWaiterPagePlan(remaining0, PageIds(page), page.resultsRemaining);
    DecidePage(history, k, startAt, page, waiting, remaining0, found0.Keys, missed0);
    assert found.Keys == found0.Keys + plan.found;
    remaining := remaining0 - plan.found;
    missed := missed0 + plan.missed;
    remaining := remaining - plan.missed;
    continueAt := plan.continueAt;
  }

  /** `listed.set(...)` for the entries of a page that are still waited for. */
  function ListedOf(matches: seq<HistoryMatch>, remaining: set<MatchId>): (listed: map<MatchId, HistoryMatch>)
    ensures listed.Keys == remaining * (set m | m in matches :: m.matchId)
    ensures forall id | id in listed :: listed[id] in matches && listed[id].matchId == id
  {
    if matches == [] then map[]
    else
      var last := matches[|matches| - 1];
      var before := ListedOf(matches[..|matches| - 1], remaining);
      assert matches == matches[..|matches| - 1] + [last];
      if last.matchId in remaining then before[last.matchId := last] else before
  }

  // ---- the transaction ------------------------------------------------------------------------

  /** The hits of a crawl, one by one. */
  method RecordHits(store: Matches, found: map<MatchId, HistoryMatch>, now: int)
    modifies store
    ensures store.rows.Keys == old(store.rows).Keys
    ensures forall id | id in store.rows :: store.rows[id] ==
              if id in found then HistoryHit(old(store.rows)[id], found[id].matchSeqNum, now) else old(store.rows)[id]
  {
    var todo := found.Keys;
    while todo != {}
      invariant todo <= found.Keys
      invariant store.rows.Keys == old(store.rows).Keys
      invariant forall id | id in store.rows :: store.rows[id] ==
                  if id in found && id !in todo then HistoryHit(old(store.rows)[id], found[id].matchSeqNum, now)
                  else old(store.rows)[id]
      decreases todo
    {
      var id := PickOne(todo);
      store.MarkHistoryAvailable(id, found[id].matchSeqNum, now);
      todo := todo - {id};
    }
  }

  /** The transaction after a crawl: hits one by one, then the misses. */
  method RecordCrawl(store: Matches, found: map<MatchId, HistoryMatch>, missed: set<MatchId>,
                     limits: HistoryLimits, now: int)
    modifies store
    ensures forall id :: Lookup(store.rows, id) ==
              HistoryPollRow(Lookup(old(store.rows), id), id, map k | k in found :: found[k].matchSeqNum,
                             missed, limits, now)
  {
    RecordHits(store, found, now);
    store.RecordHistoryPollMisses(missed, limits, now);
  }

  /**
   * One league of the job: a waiting row that the history lists gets its sequence number and
   * leaves the waiter; one that it does not list spends one try; no other row changes.
   */
  method PollLeague(store: Matches, ghost history: seq<HistoryMatch>, fetch: Fetch, waiting: set<MatchId>,
                    limits: HistoryLimits, now: int)
    requires Serves(history, fetch, 2)
    modifies store
    ensures store.rows.Keys == old(store.rows).Keys
    ensures forall id | id in old(store.rows) && id !in waiting :: store.rows[id] == old(store.rows)[id]
    ensures forall id | id in old(store.rows) && id in waiting && id !in Ids(history) ::
              store.rows[id] == HistoryMiss(old(store.rows)[id], limits, now)
    ensures forall id, m | id in old(store.rows) && id in waiting && m in history && m.matchId == id ::
              store.rows[id] == HistoryHit(old(store.rows)[id], m.matchSeqNum, now)
  {
    var found, missed, pageCount := CrawlWaitingHistory(history, fetch, waiting);
    ghost var before := store.rows;
    RecordCrawl(store, found, missed, limits, now);
    ghost var hits := map k | k in found :: found[k].matchSeqNum;
    forall id ensures id in store.rows <==> id in before {
      assert Lookup(store.rows, id) == HistoryPollRow(Lookup(before, id), id, hits, missed, limits, now);
    }
    forall id | id in before
      ensures store.rows[id] == if id in found then HistoryHit(before[id], hits[id], now)
                                else if id in missed then HistoryMiss(before[id], limits, now)
                                else before[id]
    {
      assert Lookup(store.rows, id) == HistoryPollRow(Lookup(before, id), id, hits, missed, limits, now);
    }
    forall id, m | id in before && id in waiting && m in history && m.matchId == id
      ensures id in found && found[id] == m
    {
      SameIdSameEntry(history, m, found[id]);
    }
  }

  lemma SameIdSameEntry(history: seq<HistoryMatch>, a: HistoryMatch, b: HistoryMatch)
    requires Descending(history) && a in history && b in history && a.matchId == b.matchId
    ensures a == b
  {
    var i :| 0 <= i < |history| && history[i] == a;
    var j :| 0 <= j < |history| && history[j] == b;
  }
}
