/**
 * Reading a compactable event log page by page: a binary search over the sorted log finds the
 * cursor, and the page says what is missing. Following the pages delivers everything retained.
 */
module EventPager {
  import opened Wrappers
  import opened Decimal
  import opened Orders
  import opened StoreModel
  import opened StepEffects

  datatype Gap = Gap(from: nat, through: nat)

  datatype Cursor = Cursor(requestedSince: nat, nextSince: nat, oldestAvailable: nat, latestEventId: nat,
                           hasMore: bool, retentionGap: Option<Gap>)

  datatype Page = Page(events: seq<Event>, limit: nat, cursor: Cursor)

  /** An event as it goes out, its time rendered as text. */
  datatype ProtocolEvent = ProtocolEvent(id: nat, timestamp: string, kind: EventType, taskId: nat, actor: string,
                                         data: map<string, string>)

  /** What is sent: the events of the page in wire form, the limit, how many there are, and the cursor. */
  datatype Envelope = Envelope(events: seq<ProtocolEvent>, limit: nat, returned: nat, cursor: Cursor)

  predicate EventIdLess(a: Event, b: Event) {
    a.id < b.id
  }

  // ----- the sorted copy of the log -----

  ghost predicate InOrder(events: seq<Event>) {
    forall i, j :: 0 <= i < j < |events| ==> events[i].id <= events[j].id
  }

  lemma {:induction false} InsertInOrder(e: Event, events: seq<Event>)
    requires InOrder(events)
    ensures InOrder(Insert(e, events, EventIdLess))
    ensures forall x :: x in Insert(e, events, EventIdLess) <==> x == e || x in events
  {
    if events != [] && e.id < events[|events| - 1].id {
      var init, last := events[..|events| - 1], events[|events| - 1];
      assert events == init + [last];
      InsertInOrder(e, init);
      var front := Insert(e, init, EventIdLess);
      forall i | 0 <= i < |front| ensures front[i].id <= last.id {
        assert front[i] in front;
      }
    }
  }

  lemma {:induction false} SortedInOrder(events: seq<Event>)
    ensures InOrder(SortBy(events, EventIdLess))
  {
    if events != [] {
      SortedInOrder(events[..|events| - 1]);
      InsertInOrder(events[|events| - 1], SortBy(events[..|events| - 1], EventIdLess));
    }
  }

  /** A log already in order is its own sorted copy. */
  lemma {:induction false} SortKeepsOrder(events: seq<Event>)
    requires InOrder(events)
    ensures SortBy(events, EventIdLess) == events
  {
    if events != [] {
      var init, last := events[..|events| - 1], events[|events| - 1];
      SortKeepsOrder(init);
      assert events == init + [last];
    }
  }

  /** The first index of an ordered log whose event is newer than `after`. */
  function CursorIndex(events: seq<Event>, after: nat): nat {
    if events == [] || events[0].id > after then 0 else 1 + CursorIndex(events[1..], after)
  }

  lemma {:induction false} CursorIndexUnique(events: seq<Event>, after: nat, i: nat)
    requires i <= |events|
    requires forall j :: 0 <= j < i ==> events[j].id <= after
    requires i < |events| ==> events[i].id > after
    ensures CursorIndex(events, after) == i
  {
    if i > 0 {
      CursorIndexUnique(events[1..], after, i - 1);
    }
  }

  /** `sort.Search` for the cursor: the bisection finds the index the linear scan finds. */
  method SearchAfter(events: seq<Event>, after: nat) returns (start: nat)
    requires InOrder(events)
    ensures start == CursorIndex(events, after) <= |events|
  {
    var i, j := 0, |events|;
    while i < j
      invariant 0 <= i <= j <= |events|
      invariant forall k :: 0 <= k < i ==> events[k].id <= after
      invariant j < |events| ==> events[j].id > after
    {
      var h := (i + j) / 2;
      if events[h].id > after {
        j := h;
      } else {
        i := h + 1;
      }
    }
    CursorIndexUnique(events, after, i);
    start := i;
  }

  function Latest(nextEventId: nat): nat {
    if nextEventId > 0 then nextEventId - 1 else 0
  }

  /** The IDs after the cursor that the log no longer holds, as the page reports them. */
  function GapAfter(sorted: seq<Event>, latest: nat, after: nat): Option<Gap> {
    var start := CursorIndex(sorted, after);
    if after >= UINT64_LIMIT - 1 then None
    else if start < |sorted| && sorted[start].id > after + 1 then Some(Gap(after + 1, sorted[start].id - 1))
    else if start >= |sorted| && latest >= after + 1 then Some(Gap(after + 1, latest))
    else None
  }

  function PageOfSorted(sorted: seq<Event>, nextEventId: nat, after: nat, limit: nat): Page {
    var start := CursorIndex(sorted, after);
    var end := if start + limit > |sorted| then |sorted| else start + limit;
    var selected := if start <= end <= |sorted| then sorted[start..end] else [];
    Page(selected, limit,
         Cursor(after, if selected != [] then selected[|selected| - 1].id else after,
                if sorted != [] then sorted[0].id else 0, Latest(nextEventId), end < |sorted|,
                GapAfter(sorted, Latest(nextEventId), after)))
  }

  function PageOf(events: seq<Event>, nextEventId: nat, after: nat, limit: nat): Page {
    PageOfSorted(SortBy(events, EventIdLess), nextEventId, after, limit)
  }

  method FindGap(events: seq<Event>, start: nat, latest: nat, after: nat) returns (gap: Option<Gap>)
    requires start == CursorIndex(events, after) <= |events|
    ensures gap == GapAfter(events, latest, after)
  {
    gap := None;
    if after < UINT64_LIMIT - 1 {
      var missingFrom := after + 1;
      if start < |events| && events[start].id > missingFrom {
        gap := Some(Gap(missingFrom, events[start].id - 1));
      } else if start == |events| && latest >= missingFrom {
        gap := Some(Gap(missingFrom, latest));
      }
    }
  }

  method FillPage(events: seq<Event>, nextEventId: nat, after: nat, limit: nat) returns (page: Page)
    requires InOrder(events)
    ensures page == PageOfSorted(events, nextEventId, after, limit)
  {
    var oldest, latest, next := 0, 0, after;
    if |events| > 0 {
      oldest := events[0].id;
    }
    if nextEventId > 0 {
      latest := nextEventId - 1;
    }
    var start := SearchAfter(events, after);
    var end := start + limit;
    if end > |events| {
      end := |events|;
    }
    var selected := events[start..end];
    var hasMore := end < |events|;
    if |selected| > 0 {
      next := selected[|selected| - 1].id;
    }
    var gap := FindGap(events, start, latest, after);
    page := Page(selected, limit, Cursor(after, next, oldest, latest, hasMore, gap));
  }

  function WireForm(e: Event, render: Rendering): ProtocolEvent {
    ProtocolEvent(e.id, render(e.timestamp), e.kind, e.taskId, e.actor, e.data)
  }

  /** The envelope says what the page holds: event by event, and nothing else. */
  ghost predicate Encloses(envelope: Envelope, page: Page, render: Rendering) {
    && envelope.limit == page.limit && envelope.cursor == page.cursor
    && envelope.returned == |envelope.events| == |page.events|
    && forall i :: 0 <= i < |page.events| ==>
         var e, sent := page.events[i], envelope.events[i];
         && sent.id == e.id && sent.kind == e.kind && sent.taskId == e.taskId && sent.actor == e.actor
         && sent.data == e.data && sent.timestamp == render(e.timestamp)
  }

  method BuildEventPage(s: StoreState, after: nat, limit: nat, render: Rendering) returns (envelope: Envelope)
    requires after < UINT64_LIMIT
    ensures Encloses(envelope, PageOf(s.events, s.nextEventId, after, limit), render)
  {
    var events := SortBy(s.events, EventIdLess);
    SortedInOrder(s.events);
    var page := FillPage(events, s.nextEventId, after, limit);
    var protocolEvents: seq<ProtocolEvent> := [];
    for i := 0 to |page.events|
      invariant |protocolEvents| == i
      invariant forall j :: 0 <= j < i ==> protocolEvents[j] == WireForm(page.events[j], render)
    {
      protocolEvents := protocolEvents + [WireForm(page.events[i], render)];
    }
    envelope := Envelope(protocolEvents, limit, |protocolEvents|, page.cursor);
  }

  // ----- pages of a log window -----

  /** The position of the cursor in a gap-free log. */
  function StartIndex(s: StoreState, after: nat): nat
    requires |s.events| <= s.nextEventId
  {
    var oldest := s.nextEventId - |s.events|;
    if after < oldest then 0 else if after >= s.nextEventId then |s.events| else after + 1 - oldest
  }

  lemma WindowCursor(s: StoreState, after: nat)
    requires LogWindow(s)
    ensures SortBy(s.events, EventIdLess) == s.events && CursorIndex(s.events, after) == StartIndex(s, after)
  {
    SortKeepsOrder(s.events);
    CursorIndexUnique(s.events, after, StartIndex(s, after));
  }

  /** A page of a gap-free log: the events it holds and where it leaves the reader. */
  lemma WindowPage(s: StoreState, after: nat, limit: nat)
    requires LogWindow(s) && s.nextEventId <= UINT64_LIMIT && after < UINT64_LIMIT && limit > 0
    ensures var page, start := PageOf(s.events, s.nextEventId, after, limit), StartIndex(s, after);
            var end := if start + limit > |s.events| then |s.events| else start + limit;
            && start <= end <= |s.events| && page.events == s.events[start..end]
            && (page.cursor.hasMore <==> end < |s.events|)
            && page.cursor.nextSince == (if start < |s.events| then s.events[end - 1].id else after)
            && page.cursor.retentionGap ==
               (if after + 1 < s.nextEventId - |s.events|
                then Some(Gap(after + 1, s.nextEventId - |s.events| - 1)) else None)
  {
    WindowCursor(s, after);
  }

  lemma {:induction false} SuffixIsScan(events: seq<Event>, after: nat)
    ensures CursorIndex(events, after) <= |events| && SuffixAfter(events, after) == events[CursorIndex(events, after)..]
  {
    if events != [] && events[0].id <= after {
      SuffixIsScan(events[1..], after);
    }
  }

  /** A page holds the first events of what the linear scan `EventsSince` returns, and says whether more follow. */
  lemma PageAgreesWithScan(s: StoreState, after: nat, limit: nat)
    requires LogWindow(s) && s.nextEventId <= UINT64_LIMIT && after < UINT64_LIMIT && limit > 0
    ensures var page, scan := PageOf(s.events, s.nextEventId, after, limit), SuffixAfter(s.events, after);
            && page.events == (if |scan| <= limit then scan else scan[..limit])
            && (page.cursor.hasMore <==> |scan| > limit)
  {
    hide SortBy, CursorIndex, SuffixAfter, GapAfter;
    WindowCursor(s, after);
    SuffixIsScan(s.events, after);
  }

  /** What the cursor of a page says of the log: where the reader asked from, and which IDs the log goes from and to. */
  lemma CursorDescribesLog(s: StoreState, after: nat, limit: nat)
    requires LogWindow(s) && s.nextEventId <= UINT64_LIMIT && after < UINT64_LIMIT
    ensures var page := PageOf(s.events, s.nextEventId, after, limit);
            && page.limit == limit && page.cursor.requestedSince == after
            && page.cursor.latestEventId == s.nextEventId - 1
            && (s.events == [] ==> page.cursor.oldestAvailable == 0)
            && (s.events != [] ==>
                  && (exists e :: e in s.events && e.id == page.cursor.oldestAvailable)
                  && forall e :: e in s.events ==> page.cursor.oldestAvailable <= e.id <= page.cursor.latestEventId)
  {
    hide CursorIndex, GapAfter, SortBy;
    WindowCursor(s, after);
    if s.events != [] {
      assert s.events[0] in s.events;
    }
  }

  ghost predicate Retained(s: StoreState, id: nat) {
    exists e :: e in s.events && e.id == id
  }

  /** The reported gap is exactly the IDs after the cursor that were issued and are no longer there. */
  lemma GapIsExactlyTheDropped(s: StoreState, after: nat, limit: nat, id: nat)
    requires LogWindow(s) && s.nextEventId <= UINT64_LIMIT && after < UINT64_LIMIT && limit > 0
    ensures var gap := PageOf(s.events, s.nextEventId, after, limit).cursor.retentionGap;
            (gap.Some? && gap.value.from <= id <= gap.value.through) <==> after < id < s.nextEventId && !Retained(s, id)
  {
    WindowPage(s, after, limit);
    var oldest := s.nextEventId - |s.events|;
    if oldest <= id < s.nextEventId {
      assert s.events[id - oldest] in s.events;
    }
    if e :| e in s.events && e.id == id {
      var i :| 0 <= i < |s.events| && s.events[i] == e;
    }
  }
}
