/**
 * A reader that follows `next_since` from page to page while others append to the log and compact
 * it: what it is delivered and what it is told it missed.
 */
module EventFollowing {
  import opened Decimal
  import opened StoreModel
  import opened StepEffects
  import opened Runs
  import opened EventPager

  // ----- the log over a run -----

  function Oldest(s: StoreState): int {
    s.nextEventId - |s.events|
  }

  function EventAt(s: StoreState, id: nat): Event
    requires Oldest(s) <= id < s.nextEventId
  {
    s.events[id - Oldest(s)]
  }

  /** The log only moves forward, and an event that is still there is the event it always was. */
  ghost predicate LogLater(s: StoreState, r: StoreState) {
    && s.nextEventId <= r.nextEventId && Oldest(s) <= Oldest(r)
    && forall id: nat :: Oldest(r) <= id < s.nextEventId ==> EventAt(r, id) == EventAt(s, id)
  }

  lemma EvolvesLater(s: StoreState, s': StoreState)
    requires LogWindow(s) && LogEvolves(s, s')
    ensures LogLater(s, s')
  {
    var drop: nat, added :| IsLogChange(s, s', drop, added);
    assert Oldest(s') == Oldest(s) + drop;
  }

  lemma GoodWindow(s: StoreState)
    requires Good(s)
    ensures LogWindow(s)
  {
  }

  lemma MoveLater(s: StoreState, s': StoreState, step: Step)
    requires LogWindow(s) && Moves(s, s', step)
    ensures LogLater(s, s')
  {
    if s' != s {
      EvolvesLater(s, s');
    }
  }

  lemma {:induction false} RunLater(s: StoreState, steps: seq<Step>)
    requires Good(s)
    ensures LogLater(s, Run(s, steps))
  {
    hide Perform, Next, Good, Moves;
    if steps != [] {
      var init, last := steps[..|steps| - 1], steps[|steps| - 1];
      RunLater(s, init);
      GoodWindow(Run(s, init));
      MoveLater(Run(s, init), Next(Run(s, init), last), last);
    }
  }

  // ----- a reader -----

  /** The store when page `n` is read: `batches[i]` is what happened between pages `i` and `i + 1`. */
  ghost function StoreAt(s: StoreState, batches: seq<seq<Step>>, n: nat): (r: StoreState)
    requires Good(s) && n <= |batches|
    ensures Good(r)
  {
    if n == 0 then s else Run(StoreAt(s, batches, n - 1), batches[n - 1])
  }

  /** Page `n`, read from where page `n - 1` left off. */
  ghost function PageAt(s: StoreState, batches: seq<seq<Step>>, since: nat, limit: nat, n: nat): Page
    requires Good(s) && n <= |batches|
  {
    var store := StoreAt(s, batches, n);
    PageOf(store.events, store.nextEventId, CursorAt(s, batches, since, limit, n), limit)
  }

  ghost function CursorAt(s: StoreState, batches: seq<seq<Step>>, since: nat, limit: nat, n: nat): nat
    requires Good(s) && n <= |batches|
    decreases n, 0
  {
    if n == 0 then since
    else
      var store := StoreAt(s, batches, n - 1);
      PageOf(store.events, store.nextEventId, CursorAt(s, batches, since, limit, n - 1), limit).cursor.nextSince
  }

  /** Everything delivered by the first `n` pages. */
  ghost function Delivered(s: StoreState, batches: seq<seq<Step>>, since: nat, limit: nat, n: nat): seq<Event>
    requires Good(s) && n <= |batches| + 1
  {
    if n == 0 then [] else Delivered(s, batches, since, limit, n - 1) + PageAt(s, batches, since, limit, n - 1).events
  }

  ghost predicate InGap(page: Page, id: nat) {
    var gap := page.cursor.retentionGap;
    gap.Some? && gap.value.from <= id <= gap.value.through
  }

  /** One of the first `n` pages reported `id` as dropped. */
  ghost predicate Reported(s: StoreState, batches: seq<seq<Step>>, since: nat, limit: nat, n: nat, id: nat)
    requires Good(s) && n <= |batches| + 1
  {
    exists i :: 0 <= i < n && InGap(PageAt(s, batches, since, limit, i), id)
  }

  ghost predicate Names(events: seq<Event>, id: nat) {
    exists e :: e in events && e.id == id
  }

  ghost predicate StrictlyOrdered(events: seq<Event>) {
    forall i, j :: 0 <= i < j < |events| ==> events[i].id < events[j].id
  }

  /** The IDs after `low` up to `high` are each delivered or reported by the page, never both, and no others are. */
  ghost predicate Covers(page: Page, low: nat, high: nat) {
    forall id: nat ::
      (Names(page.events, id) || InGap(page, id) <==> low < id <= high) && !(Names(page.events, id) && InGap(page, id))
  }

  /** How far a page reaches: to its last event while there are more, else to the end of the log. */
  function Reach(store: StoreState, page: Page, after: nat): nat {
    if page.cursor.hasMore then page.cursor.nextSince
    else if after < store.nextEventId then store.nextEventId - 1
    else after
  }

  lemma SliceNames(store: StoreState, start: nat, end: nat, id: nat)
    requires LogWindow(store) && start <= end <= |store.events|
    ensures Names(store.events[start..end], id) <==> Oldest(store) + start <= id < Oldest(store) + end
  {
    var events := store.events[start..end];
    if e :| e in events && e.id == id {
      var i :| 0 <= i < |events| && events[i] == e;
      assert events[i] == store.events[start + i];
    }
    if Oldest(store) + start <= id < Oldest(store) + end {
      var i := id - Oldest(store) - start;
      assert events[i] == store.events[start + i] && events[i] in events;
    }
  }

  /** One page covers everything from its cursor to where it reaches, in order. */
  lemma PageCovers(store: StoreState, after: nat, limit: nat)
    requires LogWindow(store) && store.nextEventId <= UINT64_LIMIT && after < UINT64_LIMIT && limit > 0
    ensures var page := PageOf(store.events, store.nextEventId, after, limit);
            && StrictlyOrdered(page.events) && after <= page.cursor.nextSince < UINT64_LIMIT
            && (forall e :: e in page.events ==> e in store.events)
            && (page.cursor.hasMore ==> page.cursor.nextSince < store.nextEventId)
            && Covers(page, after, Reach(store, page, after))
  {
    hide PageOf;
    WindowPage(store, after, limit);
    var page := PageOf(store.events, store.nextEventId, after, limit);
    var start := StartIndex(store, after);
    var end := if start + limit > |store.events| then |store.events| else start + limit;
    forall id: nat ensures Names(page.events, id) <==> Oldest(store) + start <= id < Oldest(store) + end {
      SliceNames(store, start, end, id);
    }
  }

  // ----- many pages -----

  lemma {:induction false} StoresLater(s: StoreState, batches: seq<seq<Step>>, i: nat, j: nat)
    requires Good(s) && i <= j <= |batches|
    ensures LogLater(StoreAt(s, batches, i), StoreAt(s, batches, j))
  {
    hide Perform, Next, Good, Moves, Run;
    if i < j {
      StoresLater(s, batches, i, j - 1);
      RunLater(StoreAt(s, batches, j - 1), batches[j - 1]);
    }
  }

  /** What was delivered and what was reported, up to where the reader has got. */
  ghost predicate Accounts(s: StoreState, batches: seq<seq<Step>>, since: nat, limit: nat, n: nat, high: nat)
    requires Good(s) && n <= |batches| + 1
  {
    var delivered := Delivered(s, batches, since, limit, n);
    && StrictlyOrdered(delivered)
    && forall id: nat ::
         && (Names(delivered, id) || Reported(s, batches, since, limit, n, id) <==> since < id <= high)
         && !(Names(delivered, id) && Reported(s, batches, since, limit, n, id))
  }

  lemma NamesConcat(a: seq<Event>, b: seq<Event>, id: nat)
    ensures Names(a + b, id) <==> Names(a, id) || Names(b, id)
  {
    assert forall e :: e in a + b <==> e in a || e in b;
  }

  lemma OrderedConcat(a: seq<Event>, b: seq<Event>, mid: nat)
    requires StrictlyOrdered(a) && StrictlyOrdered(b)
    requires (forall id: nat :: Names(a, id) ==> id <= mid) && (forall id: nat :: Names(b, id) ==> mid < id)
    ensures StrictlyOrdered(a + b)
  {
    forall i, j | 0 <= i < |a| && 0 <= j < |b| ensures a[i].id < b[j].id {
      assert Names(a, a[i].id) && Names(b, b[j].id);
    }
  }

  lemma {:induction false} AccountsExtend(s: StoreState, batches: seq<seq<Step>>, since: nat, limit: nat, n: nat,
                                          mid: nat, high: nat)
    requires Good(s) && n <= |batches| && since <= mid <= high
    requires Accounts(s, batches, since, limit, n, mid)
    requires Covers(PageAt(s, batches, since, limit, n), mid, high) &&
             StrictlyOrdered(PageAt(s, batches, since, limit, n).events)
    ensures Accounts(s, batches, since, limit, n + 1, high)
  {
    hide Perform, Next, Good, Moves, Run, StoreAt, PageAt, CursorAt, PageOf;
    var page, delivered := PageAt(s, batches, since, limit, n), Delivered(s, batches, since, limit, n);
    OrderedConcat(delivered, page.events, mid);
    forall id: nat
      ensures Names(delivered + page.events, id) <==> Names(delivered, id) || Names(page.events, id)
      ensures Reported(s, batches, since, limit, n + 1, id) <==>
              Reported(s, batches, since, limit, n, id) || InGap(page, id)
    {
      NamesConcat(delivered, page.events, id);
    }
  }

  lemma {:induction false} FollowedSoFar(s: StoreState, batches: seq<seq<Step>>, since: nat, limit: nat, n: nat)
    requires Good(s) && n <= |batches| && limit > 0 && since < UINT64_LIMIT
    requires StoreAt(s, batches, |batches|).nextEventId <= UINT64_LIMIT
    requires forall i :: 0 <= i < n ==> PageAt(s, batches, since, limit, i).cursor.hasMore
    ensures since <= CursorAt(s, batches, since, limit, n) < UINT64_LIMIT
    ensures CursorAt(s, batches, since, limit, n) == since ||
            CursorAt(s, batches, since, limit, n) < StoreAt(s, batches, n).nextEventId
    ensures Accounts(s, batches, since, limit, n, CursorAt(s, batches, since, limit, n))
  {
    hide Perform, Next, Good, Moves, Run, StoreAt, PageOf;
    if n > 0 {
      FollowedSoFar(s, batches, since, limit, n - 1);
      var store, mid := StoreAt(s, batches, n - 1), CursorAt(s, batches, since, limit, n - 1);
      StoresLater(s, batches, n - 1, n);
      StoresLater(s, batches, n, |batches|);
      GoodWindow(store);
      PageCovers(store, mid, limit);
      AccountsExtend(s, batches, since, limit, n - 1, mid, CursorAt(s, batches, since, limit, n));
    }
  }

  /**
   * Following `next_since` until a page says there is no more accounts for every ID the log has
   * issued since: each is delivered exactly once, in order, or reported as dropped, never both.
   */
  lemma {:induction false} FollowingAccountsForEverything(s: StoreState, batches: seq<seq<Step>>, since: nat,
                                                          limit: nat)
    requires Good(s) && limit > 0
    requires var last := StoreAt(s, batches, |batches|); since < last.nextEventId <= UINT64_LIMIT
    requires forall i :: 0 <= i < |batches| ==> PageAt(s, batches, since, limit, i).cursor.hasMore
    requires !PageAt(s, batches, since, limit, |batches|).cursor.hasMore
    ensures Accounts(s, batches, since, limit, |batches| + 1, StoreAt(s, batches, |batches|).nextEventId - 1)
  {
    hide Perform, Next, Good, Moves, Run, StoreAt, PageOf, CursorAt, Accounts, Covers, StrictlyOrdered;
    var n := |batches|;
    var store, mid := StoreAt(s, batches, n), CursorAt(s, batches, since, limit, n);
    FollowedSoFar(s, batches, since, limit, n);
    GoodWindow(store);
    PageCovers(store, mid, limit);
    var page := PageAt(s, batches, since, limit, n);
    assert page == PageOf(store.events, store.nextEventId, mid, limit);
    assert Reach(store, page, mid) == store.nextEventId - 1;
    AccountsExtend(s, batches, since, limit, n, mid, store.nextEventId - 1);
  }

  lemma {:induction false} DeliveredFrom(s: StoreState, batches: seq<seq<Step>>, since: nat, limit: nat, n: nat,
                                         e: Event)
    returns (j: nat)
    requires Good(s) && n <= |batches| + 1 && e in Delivered(s, batches, since, limit, n)
    ensures j < n && e in PageAt(s, batches, since, limit, j).events
  {
    hide Perform, Next, Good, Moves, Run, StoreAt, PageAt, CursorAt, PageOf;
    if e in PageAt(s, batches, since, limit, n - 1).events {
      j := n - 1;
    } else {
      j := DeliveredFrom(s, batches, since, limit, n - 1, e);
    }
  }

  lemma WindowMember(s: StoreState, e: Event)
    requires LogWindow(s) && e in s.events
    ensures Oldest(s) <= e.id < s.nextEventId && EventAt(s, e.id) == e
  {
    var i :| 0 <= i < |s.events| && s.events[i] == e;
  }

  /** Every event still in the log at the end, newer than the reader's start, was delivered as it is. */
  lemma {:induction false} RetainedWasDelivered(s: StoreState, batches: seq<seq<Step>>, since: nat, limit: nat,
                                                e: Event)
    requires Good(s) && limit > 0
    requires var last := StoreAt(s, batches, |batches|);
             since < last.nextEventId <= UINT64_LIMIT && e in last.events && since < e.id
    requires forall i :: 0 <= i < |batches| ==> PageAt(s, batches, since, limit, i).cursor.hasMore
    requires !PageAt(s, batches, since, limit, |batches|).cursor.hasMore
    ensures e in Delivered(s, batches, since, limit, |batches| + 1)
  {
    hide Perform, Next, Good, Moves, Run, StoreAt, PageOf, CursorAt, PageAt, Delivered;
    var n := |batches|;
    var last := StoreAt(s, batches, n);
    FollowingAccountsForEverything(s, batches, since, limit);
    GoodWindow(last);
    WindowMember(last, e);
    if Reported(s, batches, since, limit, n + 1, e.id) {
      var i :| 0 <= i < n + 1 && InGap(PageAt(s, batches, since, limit, i), e.id);
      ReportedWasGone(s, batches, since, limit, i, e.id);
      StoresLater(s, batches, i, n);
    } else {
      var d :| d in Delivered(s, batches, since, limit, n + 1) && d.id == e.id;
      var j := DeliveredFrom(s, batches, since, limit, n + 1, d);
      DeliveredWasThere(s, batches, since, limit, j, d);
      StoresLater(s, batches, j, n);
      GoodWindow(StoreAt(s, batches, j));
      WindowMember(StoreAt(s, batches, j), d);
      assert EventAt(last, e.id) == EventAt(StoreAt(s, batches, j), e.id);
    }
  }

  lemma {:induction false} ReportedWasGone(s: StoreState, batches: seq<seq<Step>>, since: nat, limit: nat, i: nat,
                                           id: nat)
    requires Good(s) && i <= |batches| && limit > 0 && since < UINT64_LIMIT
    requires StoreAt(s, batches, |batches|).nextEventId <= UINT64_LIMIT
    requires forall j :: 0 <= j < i ==> PageAt(s, batches, since, limit, j).cursor.hasMore
    requires InGap(PageAt(s, batches, since, limit, i), id)
    ensures id < Oldest(StoreAt(s, batches, i))
  {
    hide Perform, Next, Good, Moves, Run, StoreAt, PageOf, CursorAt;
    var store, after := StoreAt(s, batches, i), CursorAt(s, batches, since, limit, i);
    FollowedSoFar(s, batches, since, limit, i);
    StoresLater(s, batches, i, |batches|);
    GoodWindow(store);
    WindowPage(store, after, limit);
  }

  /** What a page delivers was in the log when the page was read. */
  lemma {:induction false} DeliveredWasThere(s: StoreState, batches: seq<seq<Step>>, since: nat, limit: nat, i: nat,
                                             e: Event)
    requires Good(s) && i <= |batches| && limit > 0 && since < UINT64_LIMIT
    requires StoreAt(s, batches, |batches|).nextEventId <= UINT64_LIMIT
    requires forall j :: 0 <= j < i ==> PageAt(s, batches, since, limit, j).cursor.hasMore
    requires e in PageAt(s, batches, since, limit, i).events
    ensures e in StoreAt(s, batches, i).events
  {
    hide Perform, Next, Good, Moves, Run, StoreAt, PageOf, CursorAt;
    FollowedSoFar(s, batches, since, limit, i);
    StoresLater(s, batches, i, |batches|);
    GoodWindow(StoreAt(s, batches, i));
    PageCovers(StoreAt(s, batches, i), CursorAt(s, batches, since, limit, i), limit);
  }

  // ----- a log at rest -----

  /** No steps between the pages. */
  function Quiet(n: nat): seq<seq<Step>> {
    seq(n, i => [])
  }

  lemma {:induction false} QuietStore(s: StoreState, batches: nat, n: nat)
    requires Good(s) && n <= batches
    ensures StoreAt(s, Quiet(batches), n) == s
  {
    hide Good, Perform, Next;
    if n > 0 {
      QuietStore(s, batches, n - 1);
    }
  }

  /** Where the n-th page of a log at rest starts, as long as every page before it is full. */
  lemma {:induction false} QuietCursor(s: StoreState, batches: nat, since: nat, limit: nat, n: nat)
    requires Good(s) && n <= batches && limit > 0 && since < UINT64_LIMIT && s.nextEventId <= UINT64_LIMIT
    requires |s.events| <= s.nextEventId && StartIndex(s, since) + n * limit <= |s.events|
    ensures var cursor := CursorAt(s, Quiet(batches), since, limit, n);
            cursor < UINT64_LIMIT && StartIndex(s, cursor) == StartIndex(s, since) + n * limit
  {
    hide Good, Perform, Next, StoreAt, PageOf;
    if n > 0 {
      assert n * limit == (n - 1) * limit + limit;
      QuietCursor(s, batches, since, limit, n - 1);
      QuietStore(s, batches, n - 1);
      var before := CursorAt(s, Quiet(batches), since, limit, n - 1);
      GoodWindow(s);
      WindowPage(s, before, limit);
    }
  }

  /** The page reached has no more exactly when the pages so far could hold everything that was left. */
  lemma {:induction false} QuietPage(s: StoreState, batches: nat, since: nat, limit: nat, n: nat)
    requires Good(s) && n <= batches && limit > 0 && since < UINT64_LIMIT && s.nextEventId <= UINT64_LIMIT
    requires n * limit <= |SuffixAfter(s.events, since)|
    ensures PageAt(s, Quiet(batches), since, limit, n).cursor.hasMore <==>
            (n + 1) * limit < |SuffixAfter(s.events, since)|
  {
    hide Good, Perform, Next, StoreAt, PageOf, CursorAt, SuffixAfter;
    GoodWindow(s);
    WindowCursor(s, since);
    SuffixIsScan(s.events, since);
    assert (n + 1) * limit == n * limit + limit;
    QuietCursor(s, batches, since, limit, n);
    QuietStore(s, batches, n);
    WindowPage(s, CursorAt(s, Quiet(batches), since, limit, n), limit);
  }

  /** How many pages it takes: one for every `limit` events or part of it, and one when there are none. */
  function PagesFor(remaining: nat, limit: nat): (pages: nat)
    requires limit > 0
    ensures pages > 0
  {
    if remaining == 0 then 1 else (remaining - 1) / limit + 1
  }

  /**
   * With nothing happening between the pages, following the cursor ends, and it takes exactly as
   * many pages as the events after the start need: every page before the last says there is more,
   * and the last says there is not.
   */
  lemma {:induction false} FollowingEnds(s: StoreState, since: nat, limit: nat)
    requires Good(s) && limit > 0 && since < UINT64_LIMIT && s.nextEventId <= UINT64_LIMIT
    ensures var n := PagesFor(|SuffixAfter(s.events, since)|, limit) - 1;
            && (forall i :: 0 <= i < n ==> PageAt(s, Quiet(n), since, limit, i).cursor.hasMore)
            && !PageAt(s, Quiet(n), since, limit, n).cursor.hasMore
  {
    hide Good, Perform, Next, PageAt, CursorAt, SuffixAfter;
    var remaining := |SuffixAfter(s.events, since)|;
    var n := PagesFor(remaining, limit) - 1;
    PagesBound(remaining, limit);
    forall i | 0 <= i < n ensures PageAt(s, Quiet(n), since, limit, i).cursor.hasMore {
      FullPages(i, n, limit);
      QuietPage(s, n, since, limit, i);
    }
    QuietPage(s, n, since, limit, n);
  }

  lemma PagesBound(remaining: nat, limit: nat)
    requires limit > 0
    ensures var n := PagesFor(remaining, limit) - 1;
            n * limit <= remaining <= (n + 1) * limit && (n > 0 ==> n * limit < remaining)
  {
    if remaining > 0 {
      var q := (remaining - 1) / limit;
      assert q * limit + (remaining - 1) % limit == remaining - 1;
      assert (q + 1) * limit == q * limit + limit;
    }
  }

  lemma FullPages(i: nat, n: nat, limit: nat)
    requires i < n
    ensures i * limit <= (i + 1) * limit <= n * limit
  {
    assert n * limit == (i + 1) * limit + (n - i - 1) * limit;
    assert (i + 1) * limit == i * limit + limit;
  }
}
