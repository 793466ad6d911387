/** Draining a user's rows page by page, and what the backtest checks on the way. */
module SyncReplay {
  import opened Wrappers
  import opened GoText
  import opened SyncModel
  import opened SyncFold
  import opened SyncClient
  import opened FoldState
  import opened FoldChain
  import opened FoldAhead
  import opened SyncRebuild
  import opened RebuildState

  const MAX_BATCH_SIZE := 100

  datatype Tally = Tally(events: nat, receipts: nat, chainBreaks: nat, foldedPages: nat, stateDiffs: nat,
                         reordered: nat, unreadAhead: nat)

  datatype Replayed = Replayed(events: seq<Event>, tally: Tally)

  function Zero(): Tally {
    Tally(0, 0, 0, 0, 0, 0, 0)
  }

  function Add(a: Tally, b: Tally): Tally {
    Tally(a.events + b.events, a.receipts + b.receipts, a.chainBreaks + b.chainBreaks, a.foldedPages + b.foldedPages,
          a.stateDiffs + b.stateDiffs, a.reordered + b.reordered, a.unreadAhead + b.unreadAhead)
  }

  function Batch(rows: seq<Row>): seq<Row> {
    if |rows| <= MAX_BATCH_SIZE then rows else rows[..MAX_BATCH_SIZE]
  }

  const PLAIN := Options(false, false, 0)

  lemma PageRows(rows: seq<Row>, from: int, opts: Options)
    requires PageOf(rows, from, opts).Ok?
    ensures PageOf(rows, from, opts).value.rows <= |rows|
  {
    hide Resolve, FoldedUnits;
    var units := ResolveAll(rows, from).value;
    ResolvedUnits(rows, from);
    UnitsThatFitBound(units, 0, 0, opts.maxEvents);
    CompoundPageRows(units, from, opts.fold);
  }

  /** The counts one page adds. */
  ghost function PageTally(rows: seq<Row>, from: int, opts: Options, page: Page): Result<Tally, SyncError>
    requires page.rows <= |rows|
  {
    var basic := Tally(|page.events|, page.receipts, PageBreaks(page, opts.compound, from), 0, 0, 0, 0);
    if !opts.fold then Ok(basic)
    else
      var plain :- PageOf(rows[..page.rows], from, PLAIN);
      var plainState :- FinalStateOf(plain.events);
      var state :- FinalStateOf(page.events);
      Ok(basic.(foldedPages := 1, stateDiffs := if plainState == state then 0 else 1, reordered := page.reordered,
                unreadAhead := AheadBetween(plain.events, page.events)))
  }

  /** All events and counts of draining `rows` from cursor `from`. */
  ghost function ReplayOf(rows: seq<Row>, from: int, opts: Options): Result<Replayed, SyncError> {
    if rows == [] then Ok(Replayed([], Zero()))
    else
      var batch := Batch(rows);
      var page :- PageOf(batch, from, opts);
      PageRows(batch, from, opts);
      if page.rows == 0 then Err(EmptyPage)
      else
        var tally :- PageTally(batch, from, opts, page);
        var rest :- ReplayOf(rows[page.rows..], page.nextCursor, opts);
        Ok(Replayed(page.events + rest.events, Add(tally, rest.tally)))
  }

  // ---------- the loop ----------

  method CountBreaks(events: seq<Event>, compound: bool, from: int) returns (breaks: nat, last: int)
    ensures breaks == Breaks(events, compound, from) && last == LastCursor(events, from)
  {
    breaks, last := 0, from;
    var i := 0;
    while i < |events|
      invariant 0 <= i <= |events|
      invariant last == LastCursor(events[..i], from)
      invariant breaks + Breaks(events[i..], compound, last) == Breaks(events, compound, from)
    {
      var first := FirstOf(events[i], compound);
      assert events[i..][0] == events[i] && events[i..][1..] == events[i + 1..];
      if first != last + 1 || events[i].cursor < first {
        breaks := breaks + 1;
      }
      last := events[i].cursor;
      i := i + 1;
    }
    assert events[..i] == events;
  }

  /** Compares one folded page with the same rows unfolded. */
  method ComparePage(rows: seq<Row>, from: int, opts: Options, page: Page) returns (tally: Result<Tally, SyncError>)
    requires page.rows <= |rows|
    ensures tally == PageTally(rows, from, opts, page)
    ensures tally.Ok? ==>
              && tally.value.events == |page.events| && tally.value.receipts == page.receipts
              && tally.value.chainBreaks
                 == Breaks(page.events, opts.compound, from)
                    + if LastCursor(page.events, from) == page.nextCursor then 0 else 1
    ensures tally.Ok? && opts.fold ==>
              var plain := PageOf(rows[..page.rows], from, PLAIN);
              && plain.Ok? && FinalStateOf(plain.value.events).Ok? && FinalStateOf(page.events).Ok?
              && (tally.value.stateDiffs == 0 <==> FinalStateOf(plain.value.events) == FinalStateOf(page.events))
              && tally.value.stateDiffs <= 1 && tally.value.foldedPages == 1
              && tally.value.unreadAhead == AheadBetween(plain.value.events, page.events)
  {
    hide PageOf, FinalStateOf;
    var breaks, last := CountBreaks(page.events, opts.compound, from);
    if last != page.nextCursor {
      breaks := breaks + 1;
    }
    var basic := Tally(|page.events|, page.receipts, breaks, 0, 0, 0, 0);
    if !opts.fold {
      return Ok(basic);
    }
    var plain := ShapePage(rows[..page.rows], from, PLAIN);
    if plain.Err? {
      return Err(plain.error);
    }
    var a := FinalState(plain.value.events);
    if a.Err? {
      return Err(a.error);
    }
    var b := FinalState(page.events);
    if b.Err? {
      return Err(b.error);
    }
    StateNeedsParts(plain.value.events);
    StateNeedsParts(page.events);
    var ahead := UnreadAheadOfSession(plain.value.events, page.events);
    return Ok(basic.(foldedPages := 1, stateDiffs := if a.value == b.value then 0 else 1, reordered := page.reordered,
                     unreadAhead := ahead.value));
  }

  lemma StateNeedsParts(events: seq<Event>)
    ensures FinalStateOf(events).Ok? <==> AllClientParts(events).Ok?
  {
  }

  ghost function Prepend(before: Replayed, rest: Result<Replayed, SyncError>): Result<Replayed, SyncError> {
    match rest
    case Ok(r) => Ok(Replayed(before.events + r.events, Add(before.tally, r.tally)))
    case Err(e) => Err(e)
  }

  /** Drains the rows one page at a time, resuming from each page's next cursor. */
  method Replay(rows: seq<Row>, from: int, opts: Options) returns (result: Result<Replayed, SyncError>)
    ensures result == ReplayOf(rows, from, opts)
  {
    hide PageOf, PageTally, ReplayOf;
    var all := Replayed([], Zero());
    var start, cursor := 0, from;
    ReplayStart(rows, from, opts);
    while start < |rows|
      invariant 0 <= start <= |rows|
      invariant ReplayOf(rows, from, opts) == Prepend(all, ReplayOf(rows[start..], cursor, opts))
    {
      var batch := Batch(rows[start..]);
      ReplayStops(rows[start..], cursor, opts);
      var shaped := ShapePage(batch, cursor, opts);
      if shaped.Err? {
        return Err(shaped.error);
      }
      var page := shaped.value;
      PageRows(batch, cursor, opts);
      if page.rows == 0 {
        return Err(EmptyPage);
      }
      var tally := ComparePage(batch, cursor, opts, page);
      if tally.Err? {
        return Err(tally.error);
      }
      ReplayStep(all, rows[start..], cursor, opts, page, tally.value);
      assert rows[start..][page.rows..] == rows[start + page.rows..];
      all := Replayed(all.events + page.events, Add(all.tally, tally.value));
      start := start + page.rows;
      cursor := page.nextCursor;
    }
    ReplayStops(rows[start..], cursor, opts);
    assert all.events + [] == all.events;
    return Ok(all);
  }

  /** Where the replay ends: no row left, a page or comparison that fails, or a page that consumes nothing. */
  lemma ReplayStops(rows: seq<Row>, from: int, opts: Options)
    ensures rows == [] ==> ReplayOf(rows, from, opts) == Ok(Replayed([], Zero()))
    ensures
      var page := PageOf(Batch(rows), from, opts);
      && (rows != [] && page.Err? ==> ReplayOf(rows, from, opts) == Err(page.error))
      && (rows != [] && page.Ok? && page.value.rows == 0 ==> ReplayOf(rows, from, opts) == Err(EmptyPage))
      && (rows != [] && page.Ok? && 0 < page.value.rows <= |Batch(rows)| ==>
            var tally := PageTally(Batch(rows), from, opts, page.value);
            tally.Err? ==> ReplayOf(rows, from, opts) == Err(tally.error))
  {
    hide PageOf, PageTally;
  }

  lemma ReplayStart(rows: seq<Row>, from: int, opts: Options)
    ensures ReplayOf(rows, from, opts) == Prepend(Replayed([], Zero()), ReplayOf(rows[0..], from, opts))
  {
    assert rows[0..] == rows;
    if ReplayOf(rows, from, opts).Ok? {
      assert [] + ReplayOf(rows, from, opts).value.events == ReplayOf(rows, from, opts).value.events;
    }
  }

  lemma ReplayStep(all: Replayed, rows: seq<Row>, from: int, opts: Options, page: Page, tally: Tally)
    requires rows != [] && PageOf(Batch(rows), from, opts) == Ok(page)
    requires 0 < page.rows <= |Batch(rows)| && PageTally(Batch(rows), from, opts, page) == Ok(tally)
    ensures Prepend(all, ReplayOf(rows, from, opts)) ==
            Prepend(Replayed(all.events + page.events, Add(all.tally, tally)),
                    ReplayOf(rows[page.rows..], page.nextCursor, opts))
  {
    hide PageOf, PageTally;
    var rest := ReplayOf(rows[page.rows..], page.nextCursor, opts);
    if rest.Ok? {
      assert all.events + (page.events + rest.value.events) == all.events + page.events + rest.value.events;
    }
  }

  lemma ReplayFirst(rows: seq<Row>, from: int, opts: Options, page: Page, tally: Tally)
    requires rows != [] && PageOf(Batch(rows), from, opts) == Ok(page)
    requires 0 < page.rows <= |Batch(rows)| && PageTally(Batch(rows), from, opts, page) == Ok(tally)
    ensures
      var rest := ReplayOf(rows[page.rows..], page.nextCursor, opts);
      rest.Ok? ==>
        ReplayOf(rows, from, opts) == Ok(Replayed(page.events + rest.value.events, Add(tally, rest.value.tally)))
  {
    hide PageOf, PageTally;
  }

  // ---------- the stream of a row list ----------

  lemma StreamSplit(rows: seq<Row>, n: nat)
    requires n <= |rows| && Stream(rows).Ok?
    ensures Stream(rows[..n]).Ok? && Stream(rows[n..]).Ok?
    ensures Stream(rows).value == Stream(rows[..n]).value + Stream(rows[n..]).value
  {
    hide ResolveAll;
    assert rows[..n] + rows[n..] == rows;
    ResolveAppend(rows[..n], rows[n..], 0);
    EventsAppend(Flat(ResolveAll(rows[..n], 0).value), Flat(ResolveAll(rows[n..], 0).value));
  }

  lemma {:induction false} DenseSplit(rows: seq<Row>, from: int, n: nat)
    requires n <= |rows|
    ensures Dense(rows, from) <==> Dense(rows[..n], from) && Dense(rows[n..], LastRowCursor(rows[..n], from))
  {
    if n > 0 {
      hide FirstCursorOf;
      assert rows[..n][1..] == rows[1..][..n - 1] && rows[n..] == rows[1..][n - 1..];
      DenseSplit(rows[1..], rows[0].cursor, n - 1);
      assert LastRowCursor(rows[..n], from) == LastRowCursor(rows[1..][..n - 1], rows[0].cursor);
    } else {
      assert rows[0..] == rows;
    }
  }

  lemma BatchPrefix(rows: seq<Row>, n: nat)
    requires n <= |Batch(rows)|
    ensures n <= |rows| && Batch(rows)[..n] == rows[..n] && Batch(rows) == rows[..|Batch(rows)|]
    ensures rows != [] ==> Batch(rows) != []
  {
  }

  // ---------- the chain check over a whole replay ----------

  /**
   The chain check is exact for every connection and every row list in cursor order: pages always join, so the
   breaks counted page by page are those of the concatenated events, these end at the last row's cursor, and
   none is counted exactly if their intervals tile the cursors from the start to the last row.
   */
  lemma {:induction false} ReplayChain(rows: seq<Row>, from: int, opts: Options)
    requires Ascending(rows, from) && ReplayOf(rows, from, opts).Ok?
    ensures
      var r := ReplayOf(rows, from, opts).value;
      && r.tally.chainBreaks == Breaks(r.events, opts.compound, from)
      && LastCursor(r.events, from) == LastRowCursor(rows, from)
      && (r.tally.chainBreaks == 0 <==> Tiles(r.events, opts.compound, from, LastRowCursor(rows, from)))
    decreases |rows|
  {
    var r := ReplayOf(rows, from, opts).value;
    if rows != [] {
      hide Ascending, PageOf, Tiles, LastRowCursor, Breaks, LastCursor;
      var batch := Batch(rows);
      var page := PageOf(batch, from, opts).value;
      PageRows(batch, from, opts);
      var n := page.rows;
      BatchPrefix(rows, |batch|);
      BatchPrefix(rows, n);
      AscendingPrefix(rows, from, |batch|);
      AscendingPrefix(rows, from, n);
      PageEndsAtNextCursor(batch, from, opts, page);
      ReplayChain(rows[n..], page.nextCursor, opts);
      var rest := ReplayOf(rows[n..], page.nextCursor, opts).value;
      BreaksJoin(page.events, rest.events, opts.compound, from);
      LastCursorJoin(page.events, rest.events, from);
      LastRowCursorJoin(rows, from, n);
      PageBreaksCounted(batch, from, opts, page);
    }
    NoBreaksMeansTiles(r.events, opts.compound, from, LastRowCursor(rows, from));
  }

  lemma LastRowCursorJoin(rows: seq<Row>, from: int, n: nat)
    requires n <= |rows|
    ensures LastRowCursor(rows, from) == LastRowCursor(rows[n..], LastRowCursor(rows[..n], from))
  {
  }

  lemma PageBreaksCounted(rows: seq<Row>, from: int, opts: Options, page: Page)
    requires page.rows <= |rows| && PageTally(rows, from, opts, page).Ok?
    ensures PageTally(rows, from, opts, page).value.chainBreaks == PageBreaks(page, opts.compound, from)
  {
    hide PageOf, FinalStateOf, PageBreaks, AheadBetween;
  }

  // ---------- a client without compound rows ----------

  /** Rows after a cursor have all their events after it. */
  lemma StreamLater(rows: seq<Row>, from: int, low: int)
    requires InOrder(rows, low) && from <= low && Stream(rows).Ok?
    ensures EventsAfter(Stream(rows).value, from) == Stream(rows).value
  {
    hide ResolveAll, Fresh, AllKept, KeptEvents, Events, EventsAfter, InOrder, Flat;
    StreamAnywhere(rows, from);
    var units := ResolveAll(rows, from).value;
    InOrderKeepsAll(rows, from, low, units);
    AllKeptEvents(Flat(units));
    FlatFresh(rows, from, units);
    FreshEvents(Flat(units), from);
  }

  /** The events of some first rows after a cursor, and those of the other rows, all of them after it. */
  lemma AfterSplit(rows: seq<Row>, from: int, n: nat)
    requires n <= |rows| && n > 0 && Stream(rows).Ok? && Resumes(rows, from)
    ensures Stream(rows[..n]).Ok? && Stream(rows[n..]).Ok?
    ensures EventsAfter(Stream(rows).value, from) ==
            EventsAfter(Stream(rows[..n]).value, from) + Stream(rows[n..]).value
  {
    hide Stream, EventsAfter, Resumes, InOrder, LastRowCursor;
    StreamSplit(rows, n);
    EventsAfterAppend(Stream(rows[..n]).value, Stream(rows[n..]).value, from);
    ResumesPrefix(rows, from, n);
    ResumesIsAscending(rows, from);
    AscendingPrefix(rows, from, n);
    AscendingLastBound(rows[..n], from);
    StreamLater(rows[n..], from, LastRowCursor(rows[..n], from));
  }

  lemma GaplessSplit(rows: seq<Row>, from: int, n: nat)
    requires 0 < n <= |rows|
    ensures Gapless(rows, from) <==> Gapless(rows[..n], from) && Dense(rows[n..], LastRowCursor(rows[..n], from))
  {
    hide FirstCursorOf, Dense;
    assert rows[..n][1..] == rows[1..][..n - 1] && rows[n..] == rows[1..][n - 1..];
    DenseSplit(rows[1..], rows[0].cursor, n - 1);
    assert LastRowCursor(rows[..n], from) == LastRowCursor(rows[1..][..n - 1], rows[0].cursor);
  }

  /** One classic page makes progress and sends the events of the rows it consumes that come after its cursor. */
  lemma ClassicPage(rows: seq<Row>, from: int, maxEvents: nat)
    requires Ascending(rows, from) && Stream(rows).Ok? && rows != []
    ensures PageOf(rows, from, Options(false, false, maxEvents)).Ok?
    ensures
      var page := PageOf(rows, from, Options(false, false, maxEvents)).value;
      && 0 < page.rows <= |rows|
      && page.nextCursor == LastRowCursor(rows[..page.rows], from)
      && Stream(rows[..page.rows]).Ok?
      && page.events == EventsAfter(Stream(rows[..page.rows]).value, from)
      && (Resumes(rows, from) ==> (PageBreaks(page, false, from) == 0 <==> Gapless(rows[..page.rows], from)))
  {
    hide Resolve, Resumes, Ascending, Gapless, KeptEvents, PageBreaks, Fresh, Flat, Events, EventsAfter;
    StreamAnywhere(rows, from);
    var opts := Options(false, false, maxEvents);
    var page := PageOf(rows, from, opts).value;
    var n := page.rows;
    PageEndsAtNextCursor(rows, from, opts, page);
    ResolvedPrefix(rows, from, n);
    var units := ResolveAll(rows[..n], from).value;
    StreamAnywhere(rows[..n], from);
    FlatFresh(rows[..n], from, units);
    FreshEvents(Flat(units), from);
    if Resumes(rows, from) {
      ClassicPageTiles(rows, from, opts, page);
    }
  }

  /**
   Over the whole paged replay, whatever the page cap, a client without compound rows counts no break exactly
   if its events tile the cursors. If the rows' reserved cursors do not overlap, but for a first row that may have been
   delivered in part, it receives the stream of the rows after `from` once and in order, and counts no break exactly if
   the rows leave no cursor out.
   */
  lemma {:induction false} ClassicReplay(rows: seq<Row>, from: int, maxEvents: nat)
    requires Ascending(rows, from) && Stream(rows).Ok?
    ensures ReplayOf(rows, from, Options(false, false, maxEvents)).Ok?
    ensures
      var r := ReplayOf(rows, from, Options(false, false, maxEvents)).value;
      && (r.tally.chainBreaks == 0 <==> Tiles(r.events, false, from, LastRowCursor(rows, from)))
      && (Resumes(rows, from) ==>
            && r.events == EventsAfter(Stream(rows).value, from)
            && (r.tally.chainBreaks == 0 <==> Gapless(rows, from)))
    decreases |rows|
  {
    var opts := Options(false, false, maxEvents);
    hide Ascending, Resumes, InOrder, Gapless, Dense, PageOf, PageTally, Stream, LastRowCursor, Tiles, PageBreaks;
    hide EventsAfter, ReplayOf;
    if rows == [] {
      NoRowsReplayed(from, opts);
      NothingAfter(from);
    } else {
      var batch := Batch(rows);
      BatchPrefix(rows, |batch|);
      AscendingPrefix(rows, from, |batch|);
      StreamSplit(rows, |batch|);
      ClassicPage(batch, from, maxEvents);
      var page := PageOf(batch, from, opts).value;
      var n := page.rows;
      BatchPrefix(rows, n);
      AscendingPrefix(rows, from, n);
      StreamSplit(rows, n);
      ClassicReplay(rows[n..], page.nextCursor, maxEvents);
      ClassicTally(batch, from, opts, page);
      ReplayFirst(rows, from, opts, page, PageTally(batch, from, opts, page).value);
      if Resumes(rows, from) {
        ResumesPrefix(rows, from, |batch|);
        ResumesPrefix(rows, from, n);
        InOrderResumes(rows[n..], page.nextCursor);
        AfterSplit(rows, from, n);
        StreamLater(rows[n..], page.nextCursor, page.nextCursor);
        GaplessInOrder(rows[n..], page.nextCursor);
        GaplessSplit(rows, from, n);
      }
    }
    ReplayChain(rows, from, opts);
  }

  lemma NothingAfter(from: int)
    ensures EventsAfter([], from) == [] && Gapless([], from) && Resumes([], from)
  {
  }

  lemma ClassicTally(rows: seq<Row>, from: int, opts: Options, page: Page)
    requires page.rows <= |rows| && !opts.fold
    ensures PageTally(rows, from, opts, page).Ok?
    ensures PageTally(rows, from, opts, page).value.chainBreaks == PageBreaks(page, opts.compound, from)
  {
  }

  // ---------- a client with compound rows ----------

  /** Unfolding a page gives the events of its rows after its cursor, which the client can read. */
  lemma PlainPage(rows: seq<Row>, from: int)
    requires ReadableRows(rows) && Stream(rows).Ok?
    ensures PageOf(rows, from, PLAIN).Ok?
    ensures
      var plain := PageOf(rows, from, PLAIN).value;
      && plain.rows == |rows|
      && AllClientParts(plain.events) == Ok(plain.events)
      && plain.events == EventsAfter(Stream(rows).value, from)
  {
    hide Resolve, ClientReadable, ClientParts, KeptEvents, Fresh, EventsAfter;
    StreamAnywhere(rows, from);
    var units := ResolveAll(rows, from).value;
    ResolvedUnits(rows, from);
    AllUnitsFit(units, from);
    ExpandedPartsStaySplit(rows, from, units);
    FlatFresh(rows, from, units);
    FreshEvents(Flat(units), from);
  }

  /**
   One compound page: the client can read it and ends in the state of the unfolded page, the rows' events after its
   cursor. If at most its first row was delivered in part, an unread is counted ahead exactly if the rows' events, and
   the sessions delivered before, have one, and the page's events tile the cursors.
   */
  lemma ShapedPage(rows: seq<Row>, from: int, opts: Options)
    requires opts.compound && ReadableRows(rows) && Stream(rows).Ok? && rows != []
    ensures PageOf(rows, from, opts).Ok?
    ensures
      var page := PageOf(rows, from, opts).value;
      && page.rows == |rows| && page.nextCursor == LastRowCursor(rows, from)
      && PageTally(rows, from, opts, page).Ok?
      && AllClientParts(page.events).Ok?
      && StateAfter(AllClientParts(page.events).value) == StateAfter(EventsAfter(Stream(rows).value, from))
      && var tally := PageTally(rows, from, opts, page).value;
      && tally.stateDiffs == 0
      && (Resumes(rows, from) ==>
            (tally.unreadAhead == 0 <==> !opts.fold || !CountsAhead(Stream(rows).value, from)))
      && (Resumes(rows, from) && from >= 0 ==>
            tally.chainBreaks == 0 && Tiles(page.events, true, from, page.nextCursor))
  {
    hide Resolve, Resumes, ReadableRows, Stream, FoldedUnits, FinalParts, CountsAhead, Tiles, StateAfter, EventsAfter;
    StreamAnywhere(rows, from);
    PlainPage(rows, from);
    var plain := PageOf(rows, from, PLAIN).value;
    assert ResolveAll(rows, from).Ok?;
    var page := PageOf(rows, from, opts).value;
    ShapedPageSameState(rows, from, opts, plain, page);
    CompoundPageEndsAtRow(rows, from, opts, page);
    assert rows[..page.rows] == rows;
    if opts.fold && Resumes(rows, from) {
      ShapedPageAhead(rows, from, opts, plain, page);
    }
    if Resumes(rows, from) && from >= 0 {
      ShapedPageTiles(rows, from, opts, page);
    }
  }

  lemma CompoundPageEndsAtRow(rows: seq<Row>, from: int, opts: Options, page: Page)
    requires opts.compound && PageOf(rows, from, opts) == Ok(page)
    ensures page.rows == |rows| && page.nextCursor == LastRowCursor(rows, from)
  {
    hide ResolveAll, CompoundPage;
    ResolvedUnits(rows, from);
    CompoundPageRows(ResolveAll(rows, from).value, from, opts.fold);
    if rows != [] {
      ResolvedRow(rows, from, |rows| - 1);
    }
  }

  /** The unfolded pages of the replay, one after the other. */
  ghost function UnfoldedPages(rows: seq<Row>, from: int): seq<Event>
    decreases |rows|
  {
    if rows == [] || PageOf(Batch(rows), from, PLAIN).Err? then []
    else
      var n := |Batch(rows)|;
      PageOf(Batch(rows), from, PLAIN).value.events + UnfoldedPages(rows[n..], LastRowCursor(rows[..n], from))
  }

  /** No batch of the replay has an unread that is counted. */
  ghost predicate NoBatchCounts(rows: seq<Row>, from: int)
    decreases |rows|
  {
    var n := |Batch(rows)|;
    rows == [] ||
    (Stream(Batch(rows)).Ok? && !CountsAhead(Stream(Batch(rows)).value, from)
     && NoBatchCounts(rows[n..], LastRowCursor(rows[..n], from)))
  }

  /**
   Over the whole paged replay to a client with compound rows, folded or not: it succeeds, every page matches its
   unfolded form and so the whole streams match, and no break is counted exactly if the events tile the cursors. If
   the rows' reserved cursors do not overlap, but for a first row that may have been delivered in part, the events do
   tile them, and an unread is counted ahead of its session exactly if a batch has one.
   */
  lemma {:induction false} ShapedReplay(rows: seq<Row>, from: int, opts: Options)
    requires opts.compound && Ascending(rows, from) && ReadableRows(rows) && Stream(rows).Ok?
    ensures ReplayOf(rows, from, opts).Ok?
    ensures
      var r := ReplayOf(rows, from, opts).value;
      && r.tally.stateDiffs == 0
      && AllClientParts(r.events).Ok?
      && StateAfter(AllClientParts(r.events).value) == StateAfter(UnfoldedPages(rows, from))
      && (r.tally.chainBreaks == 0 <==> Tiles(r.events, true, from, LastRowCursor(rows, from)))
      && (Resumes(rows, from) ==> (r.tally.unreadAhead == 0 <==> !opts.fold || NoBatchCounts(rows, from)))
      && (Resumes(rows, from) && from >= 0 ==> r.tally.chainBreaks == 0)
    decreases |rows|
  {
    hide Ascending, Resumes, InOrder, ReadableRows, Stream, PageOf, PageTally, StateAfter, AllClientParts, Tiles;
    hide LastRowCursor, CountsAhead, ReplayOf, EventsAfter;
    if rows == [] {
      NoRowsReplayed(from, opts);
    } else {
      var batch := Batch(rows);
      var n := |batch|;
      BatchPrefix(rows, n);
      AscendingPrefix(rows, from, n);
      ReadableSplit(rows, n);
      StreamSplit(rows, n);
      PlainPage(batch, from);
      ShapedPage(batch, from, opts);
      var page := PageOf(batch, from, opts).value;
      ShapedReplay(rows[n..], page.nextCursor, opts);
      var rest := ReplayOf(rows[n..], page.nextCursor, opts).value;
      ReplayFirst(rows, from, opts, page, PageTally(batch, from, opts, page).value);
      SameStateJoins(page.events, rest.events, PageOf(batch, from, PLAIN).value.events,
                     UnfoldedPages(rows[n..], page.nextCursor));
      AscendingLastBound(batch, from);
      if Resumes(rows, from) {
        ResumesPrefix(rows, from, n);
        InOrderResumes(rows[n..], page.nextCursor);
      }
    }
    ReplayChain(rows, from, opts);
  }

  /** If only the first row may have been delivered in part, the unfolded pages are the stream after `from`. */
  lemma {:induction false} UnfoldedIsStream(rows: seq<Row>, from: int)
    requires Resumes(rows, from) && ReadableRows(rows) && Stream(rows).Ok?
    ensures UnfoldedPages(rows, from) == EventsAfter(Stream(rows).value, from)
    decreases |rows|
  {
    hide Resumes, InOrder, ReadableRows, Stream, PageOf, LastRowCursor, EventsAfter;
    if rows == [] {
      NoRowsReplayed(from, PLAIN);
      NothingAfter(from);
    } else {
      var batch := Batch(rows);
      var n := |batch|;
      BatchPrefix(rows, n);
      ReadableSplit(rows, n);
      StreamSplit(rows, n);
      PlainPage(batch, from);
      ResumesPrefix(rows, from, n);
      var next := LastRowCursor(rows[..n], from);
      InOrderResumes(rows[n..], next);
      UnfoldedIsStream(rows[n..], next);
      StreamLater(rows[n..], next, next);
      AfterSplit(rows, from, n);
    }
  }

  lemma NoRowsReplayed(from: int, opts: Options)
    ensures ReplayOf([], from, opts) == Ok(Replayed([], Zero()))
    ensures Stream([]) == Ok([]) && AllClientParts([]) == Ok([])
  {
  }

  lemma SameStateJoins(a: seq<Event>, b: seq<Event>, c: seq<Event>, d: seq<Event>)
    requires AllClientParts(a).Ok? && AllClientParts(b).Ok?
    requires StateAfter(AllClientParts(a).value) == StateAfter(c)
             && StateAfter(AllClientParts(b).value) == StateAfter(d)
    ensures AllClientParts(a + b).Ok? && StateAfter(AllClientParts(a + b).value) == StateAfter(c + d)
  {
    hide StateAfter, AllClientParts;
    AllClientPartsAppend(a, b);
    StateOfConcatenation(AllClientParts(a).value, AllClientParts(b).value);
    StateOfConcatenation(c, d);
  }

  lemma AscendingLastBound(rows: seq<Row>, from: int)
    requires Ascending(rows, from)
    ensures LastRowCursor(rows, from) >= from
  {
    if rows != [] {
      AscendingLast(rows, from);
    }
  }

  lemma ReadableSplit(rows: seq<Row>, n: nat)
    requires n <= |rows| && ReadableRows(rows)
    ensures ReadableRows(rows[..n]) && ReadableRows(rows[n..])
  {
    hide ClientReadable, NulFree;
    assert forall row | row in rows[..n] || row in rows[n..] :: row in rows;
  }

  /** One page of stored rows that folding leaves as it is, and on which the backtest counts an unread ahead. */
  lemma RepeatedUnreadIsCounted(id: string, version: int, commandID: string)
    requires ':' !in id && commandID != ""
    ensures
      var rows, opts := RepeatedUnreadRows(id, version, commandID), Options(true, true, 0);
      && PageOf(rows, 0, PLAIN).Ok? && PageOf(rows, 0, opts).Ok?
      && PageOf(rows, 0, opts).value.events == PageOf(rows, 0, PLAIN).value.events
      && PageOf(rows, 0, opts).value.rows == |rows|
      && PageTally(rows, 0, opts, PageOf(rows, 0, opts).value).Ok?
      && PageTally(rows, 0, opts, PageOf(rows, 0, opts).value).value.unreadAhead == 1
  {
    hide PageOf, PageBreaks;
    var rows := RepeatedUnreadRows(id, version, commandID);
    RepeatedUnreadPage(id, version, commandID);
    assert rows[..|rows|] == rows;
  }

  /** The backtest counts an unread ahead of its session on this page. */
  ghost predicate PageCountsAhead(rows: seq<Row>, from: int, opts: Options) {
    && PageOf(rows, from, opts).Ok?
    && var page := PageOf(rows, from, opts).value;
    && page.rows <= |rows|
    && PageTally(rows, from, opts, page).Ok?
    && PageTally(rows, from, opts, page).value.unreadAhead > 0
  }

  /** A compound row with its session and unread state, then a session twice with a read state between. */
  function ResumedRows(): (r: seq<Row>)
    ensures |r| == 4
  {
    [Row(3, MESSAGE_UPSERT, MESSAGE, "m", 1, false, "", 0,
         Obj(map[SESSION_KEY := MismatchedPayload(1), UNREAD_KEY := MismatchedPayload(1)])),
     Row(4, SESSION_UPSERT, SESSION, "s", 2, false, "", 0, Null),
     Row(5, READ_STATE, SESSION_MEMBER, "s", 2, false, "", 0, Null),
     Row(6, SESSION_UPSERT, SESSION, "s", 3, false, "", 0, Null)]
  }

  /**
   Replayed from the cursor before the first row's, whose session part is then delivered already: the first
   session.upsert is folded away, nothing is kept again, and the read state is counted, although (by ResumedCount) it
   is the last one with its key.
   */
  lemma DeliveredSessionIsCounted()
    ensures ResumedRows()[0].cursor - 1 == 2
    ensures Resumes(ResumedRows(), 2) && ReadableRows(ResumedRows())
    ensures PageCountsAhead(ResumedRows(), 2, Options(true, true, 0))
  {
    hide PageOf, PageTally, ReadableRows, Resumes, Stream, ResumedRows, IsCounted, IsLastUnread, DeliveredIn;
    hide EventsAfter, Tiles, StateAfter, AllClientParts, CountsAhead;
    var rows := ResumedRows();
    ResumedOrder();
    ResumedReadable();
    var all := ResumedStream();
    ResumedCount(all);
    CountedIsAhead(all, 2, 2);
    ShapedPage(rows, 2, Options(true, true, 0));
  }

  lemma CountedIsAhead(events: seq<Event>, from: int, i: nat)
    requires i < |EventsAfter(events, from)|
    requires IsCounted(DeliveredIn(events, from), EventsAfter(events, from), i)
    ensures CountsAhead(events, from)
  {
    hide IsCounted;
  }

  lemma ResumedOrder()
    ensures ResumedRows()[0].cursor == 3 && Resumes(ResumedRows(), 2)
  {
    var rows := ResumedRows();
    assert forall i | 1 <= i < 4 :: SplitOf(rows[i]) == None;
    assert rows[1..] == [rows[1], rows[2], rows[3]];
    assert rows[1..][1..] == [rows[2], rows[3]] && rows[1..][1..][1..] == [rows[3]];
    assert InOrder([rows[3]], 5) && InOrder([rows[2], rows[3]], 4);
  }

  lemma ResumedReadable()
    ensures ReadableRows(ResumedRows())
  {
  }

  /** The events of these rows, as far as the count looks at them. */
  ghost predicate ResumedEvents(all: seq<Event>) {
    && |all| == 6
    && (forall i | 0 <= i < 6 :: all[i].cursor == i + 1)
    && all[0].kind == MESSAGE_UPSERT
    && (forall i | i in {1, 3, 5} :: all[i].kind == SESSION_UPSERT && all[i].entity == SESSION)
    && all[2].kind == UNREAD_SET && all[4].kind == READ_STATE
    && all[2].entity == all[4].entity == SESSION_MEMBER
    && (forall i | 1 <= i < 6 :: all[i].entityID == "s" && !all[i].tombstone && all[i].commandID == "")
  }

  lemma ResumedStream() returns (all: seq<Event>)
    ensures Stream(ResumedRows()) == Ok(all) && ResumedEvents(all)
  {
    hide Resolve, ResolveAll, Flat, ResumedEvents;
    var rows := ResumedRows();
    ResumedFirst();
    var first := Resolve(rows[0], 0).value.parts;
    var lone := [WholePart(rows[1], 0), WholePart(rows[2], 0), WholePart(rows[3], 0)];
    LoneRows(rows[1..]);
    assert Flat(ResolveAll(rows[1..], 0).value) == lone;
    assert rows == [rows[0]] + rows[1..];
    ResolveOne(rows[0], 0);
    ResolveAppend([rows[0]], rows[1..], 0);
    all := Events(first + lone);
    ResumedFacts(first, lone);
  }

  lemma ResumedFacts(first: seq<Part>, lone: seq<Part>)
    requires |first| == |lone| == 3
    requires forall i | 0 <= i < 3 :: first[i].cursor == i + 1 && lone[i].cursor == i + 4
    requires first[0].kind == MESSAGE_UPSERT
    requires forall p | p in {first[1], lone[0], lone[2]} :: p.kind == SESSION_UPSERT && p.entity == SESSION
    requires first[2].kind == UNREAD_SET && lone[1].kind == READ_STATE
    requires first[2].entity == lone[1].entity == SESSION_MEMBER
    requires forall p | p in {first[1], first[2], lone[0], lone[1], lone[2]} ::
               p.entityID == "s" && !p.tombstone && p.commandID == ""
    ensures ResumedEvents(Events(first + lone))
  {
    var parts, all := first + lone, Events(first + lone);
    assert parts == [first[0], first[1], first[2], lone[0], lone[1], lone[2]];
    assert all == [EventOf(first[0]), EventOf(first[1]), EventOf(first[2]),
                   EventOf(lone[0]), EventOf(lone[1]), EventOf(lone[2])];
  }

  lemma ResumedFirst()
    ensures
      var row := ResumedRows()[0];
      && Resolve(row, 0).Ok?
      && var parts := Resolve(row, 0).value.parts;
      && |parts| == 3 && (forall i | 0 <= i < 3 :: parts[i].cursor == i + 1)
      && parts[0].kind == MESSAGE_UPSERT
      && parts[1].kind == SESSION_UPSERT && parts[1].entity == SESSION
      && parts[2].kind == UNREAD_SET && parts[2].entity == SESSION_MEMBER
      && (forall i | 1 <= i < 3 :: parts[i].entityID == "s" && !parts[i].tombstone && parts[i].commandID == "")
  {
    MismatchEntity(1);
    ResumedSplit();
    hide EmbeddedEntity, SplitOf, MismatchedPayload;
  }

  lemma ResumedSplit()
    ensures
      var split := SplitOf(ResumedRows()[0]);
      && split.Some?
      && split.value.session == Some(MismatchedPayload(1)) && split.value.unread == Some(MismatchedPayload(1))
  {
    hide MismatchedPayload;
    assert MismatchedPayload(1) != Null by {
      MismatchEntity(1);
    }
  }

  /** Classic rows resolve to themselves. */
  lemma {:induction false} LoneRows(rows: seq<Row>)
    requires forall row | row in rows :: row.kind != MESSAGE_UPSERT
    ensures ResolveAll(rows, 0).Ok?
    ensures Flat(ResolveAll(rows, 0).value) == seq(|rows|, i requires 0 <= i < |rows| => WholePart(rows[i], 0))
  {
    if rows != [] {
      LoneRows(rows[1..]);
      assert rows == [rows[0]] + rows[1..];
      assert Resolve(rows[0], 0) == Ok(Unit(rows[0], None, [WholePart(rows[0], 0)]));
    }
  }

  lemma ResumedCount(all: seq<Event>)
    requires ResumedEvents(all)
    ensures EventsAfter(all, 2) == all[2..]
    ensures IsCounted(DeliveredIn(all, 2), EventsAfter(all, 2), 2) && IsLastUnread(EventsAfter(all, 2), 2)
  {
    AfterIsTail(all, 2, 2);
    assert DeliveredIn(all, 2) == {"s"} by {
      DeliveredInFirst(all, 2, 2);
      assert all[..2] == [all[0], all[1]] && all[..2][..1] == [all[0]] && [all[0]][..0] == [];
      assert DeliveredIn([all[0]], 2) == {};
    }
    ResumedStanding(all[2], all[3], all[4], all[5]);
    assert all[2..] == [all[2], all[3], all[4], all[5]];
  }

  lemma ResumedStanding(a: Event, b: Event, c: Event, d: Event)
    requires IsUnread(a) && IsSessionUpsertEvent(b) && IsUnread(c) && IsSessionUpsertEvent(d)
    requires a.kind == UNREAD_SET && c.kind == READ_STATE
    requires forall e | e in {a, b, c, d} :: e.entityID == "s" && !e.tombstone && e.commandID == ""
    ensures AheadOfSession({"s"}, [a, b, c, d], 2, 2) && IsLastUnread([a, b, c, d], 2)
  {
    var sent := [a, b, c, d];
    assert IsLastState(sent, 1, 3);
    OneKind(a);
    OneKind(b);
    assert SentBefore(sent, 0) == {} && SentBefore(sent, 1) == {} && SentBefore(sent, 2) == {};
    assert DeliveredBefore({"s"}, sent, 0) == {"s"} && DeliveredBefore({"s"}, sent, 1) == {"s"};
    assert DeliveredBefore({"s"}, sent, 2) == {"s"};
    assert sent[..2] == [a, b] && [a, b][..1] == [a] && [a][..0] == [];
    assert CoveredAfter([]) == {} && CoveredAfter([a]) == {};
    assert CoveredAfter([a, b]) == CoveredAfter([a, b][..1]) + {b.entityID};
  }

  // ---------- the whole backtest of one user ----------

  /** Regrouping keeps where rows resume and whether they leave a cursor out. */
  lemma {:induction false} RebuildResumes(rows: seq<Row>, out: seq<Row>, from: int)
    requires BuiltAll(GroupsOf(rows)) == Ok(out) && Resumes(rows, from)
    ensures |out| > 0 <==> |rows| > 0
    ensures Resumes(out, from) && (Gapless(out, from) <==> Gapless(rows, from))
    ensures rows != [] && FirstCursorOf(rows[0]) <= from ==> out[0] == rows[0]
  {
    hide FirstCursorOf, SpanOf, WellGrouped, Built;
    GroupsTile(rows);
    if rows != [] {
      var groups := GroupsOf(rows);
      var low := FirstCursorOf(rows[0]) - 1;
      RebuildKeepsOrder(groups, out, low);
      assert WellGrouped(groups[0]) && Built(groups[0]) == Ok(out[0]);
      FirstRebuilt(groups[0], out[0], from);
    }
  }

  /** The first built row; a row delivered in part is compound already and is left alone. */
  lemma FirstRebuilt(g: Group, row: Row, from: int)
    requires WellGrouped(g) && Built(g) == Ok(row) && g.head.cursor > from
    ensures row.cursor >= g.head.cursor && FirstCursorOf(row) == FirstCursorOf(g.head)
    ensures FirstCursorOf(g.head) <= from ==> row == g.head
  {
    hide WellGrouped, Built;
    BuiltSpan(g, row);
    GroupCursors(g);
    if Absorbs(g) {
      BuiltSplit(g, row);
    } else {
      LoneRestores(g, row, 0);
    }
  }

  /** Streams that differ in versions only, compared after a cursor up to which they are the same. */
  lemma {:induction false} CutSame(a: seq<Event>, b: seq<Event>, from: int, d: nat)
    requires SameButVersions(a, b) && d <= |a| && a[..d] == b[..d]
    requires forall i | 0 <= i < |a| :: a[i].cursor <= from <==> i < d
    ensures |EventsAfter(a, from)| == |EventsAfter(b, from)|
    ensures EventsAfter(a, from) == EventsAfter(b, from) <==> a == b
    ensures SameButVersions(EventsAfter(a, from), EventsAfter(b, from))
    ensures SameLatestVersions(EventsAfter(a, from), EventsAfter(b, from)) <==> SameLatestVersions(a, b)
  {
    hide SameLatestVersions, SameButVersions, EventsAfter, IsLatest, HasKey;
    SameLength(a, b);
    SameCursors(a, b);
    AfterIsTail(a, from, d);
    AfterIsTail(b, from, d);
    assert a == a[..d] + a[d..] && b == b[..d] + b[d..];
    TailSameVersions(a, b, d);
    SameLatestJoin(a[..d], b[..d], a[d..], b[d..]);
  }

  lemma TailSameVersions(a: seq<Event>, b: seq<Event>, d: nat)
    requires SameButVersions(a, b) && d <= |a|
    ensures SameButVersions(a[d..], b[d..])
  {
  }

  lemma SameCursors(a: seq<Event>, b: seq<Event>)
    requires SameButVersions(a, b)
    ensures forall i | 0 <= i < |a| :: a[i].cursor == b[i].cursor
  {
    forall i | 0 <= i < |a| ensures a[i].cursor == b[i].cursor {
      assert a[i].(version := b[i].version) == b[i];
    }
  }

  lemma AfterIsTail(a: seq<Event>, from: int, d: nat)
    requires d <= |a| && forall i | 0 <= i < |a| :: a[i].cursor <= from <==> i < d
    ensures EventsAfter(a, from) == a[d..]
  {
    assert a == a[..d] + a[d..];
    EventsAfterAppend(a[..d], a[d..], from);
    NoneAfter(a[..d], from);
    AllAfter(a[d..], from);
  }

  lemma {:induction false} NoneAfter(events: seq<Event>, from: int)
    requires forall i | 0 <= i < |events| :: events[i].cursor <= from
    ensures EventsAfter(events, from) == []
  {
    if events != [] {
      NoneAfter(events[..|events| - 1], from);
    }
  }

  /** What was delivered before of the stored rows was delivered of the regrouped ones. */
  lemma SameDelivered(rows: seq<Row>, out: seq<Row>, from: int) returns (d: nat)
    requires BuiltAll(GroupsOf(rows)) == Ok(out) && Resumes(rows, from)
    requires Stream(rows).Ok? && Stream(out).Ok? && SameButVersions(Stream(rows).value, Stream(out).value)
    ensures
      var a, b := Stream(rows).value, Stream(out).value;
      && d <= |a| && a[..d] == b[..d]
      && forall i | 0 <= i < |a| :: a[i].cursor <= from <==> i < d
  {
    hide Resumes, BuiltAll, GroupsOf, ResolveAll, Flat, Stream, FirstCursorOf;
    RebuildResumes(rows, out, from);
    StreamAnywhere(rows, from);
    StreamAnywhere(out, from);
    var units, built := ResolveAll(rows, from).value, ResolveAll(out, from).value;
    d := ResumedParts(rows, from, units);
    var a := Stream(rows).value;
    CutAt(Flat(units), from, d);
    if d > 0 {
      RowsGiveParts(rows, from, units);
      FirstUnit(rows, from, units);
      FirstUnit(out, from, built);
      FirstDelivered(rows, from, units, d);
      assert units[0] == built[0];
      EventsAppend(units[0].parts, Flat(units[1..]));
      EventsAppend(units[0].parts, Flat(built[1..]));
    }
  }

  lemma CutAt(parts: seq<Part>, from: int, d: nat)
    requires DeliveredFirst(parts, from, d)
    ensures d <= |parts| && forall i | 0 <= i < |parts| :: Events(parts)[i].cursor <= from <==> i < d
  {
  }

  lemma RowsGiveParts(rows: seq<Row>, from: int, units: seq<Unit>)
    requires ResolveAll(rows, from) == Ok(units) && Flat(units) != []
    ensures rows != []
  {
  }

  lemma FirstDelivered(rows: seq<Row>, from: int, units: seq<Unit>, d: nat)
    requires ResolveAll(rows, from) == Ok(units) && rows != [] && Resumes(rows, from)
    requires DeliveredFirst(Flat(units), from, d) && d > 0
    ensures units != [] && d <= |units[0].parts| && FirstCursorOf(rows[0]) <= from
  {
    hide Resolve, InOrder, FirstCursorOf, ResolveAll, Flat;
    FirstUnit(rows, from, units);
    ResolvedConsecutive(rows[0], from, units[0]);
    var parts := units[0].parts;
    CutRow(rows[0], parts);
    assert Flat(units)[|parts| - 1] == parts[|parts| - 1] && Flat(units)[0] == parts[0];
  }

  lemma CutRow(row: Row, parts: seq<Part>)
    requires Consecutive(parts, row.cursor) && |parts| == SpanOf(row)
    ensures |parts| > 0 && parts[0].cursor == FirstCursorOf(row) && parts[|parts| - 1].cursor == row.cursor
  {
    SpanIsPositive(row);
  }

  /**
   One user's backtest, from any cursor before the end of the first stored row, such as the one before it. Stored and
   regrouped rows replay with the same exactness: a client without compound rows counts no break exactly if the stored
   rows leave no cursor out, one with compound rows counts none, and no page differs from its unfolded form. Expanding
   the regrouped rows gives exactly today's stream if and only if the absorbed payloads carry their rows' versions; and
   the final states agree if and only if the absorbed rows that are the last state of their entity do.
   */
  lemma BacktestOfOneUser(rows: seq<Row>, out: seq<Row>, from: int, cap: nat, opts: Options)
    requires BuiltAll(GroupsOf(rows)) == Ok(out)
    requires Resumes(rows, from) && from >= 0 && ReadableRows(rows) && Stream(rows).Ok?
    requires opts.compound
    ensures ReplayOf(rows, from, Options(false, false, cap)).Ok? && ReplayOf(out, from, Options(false, false, cap)).Ok?
    ensures ReplayOf(rows, from, opts).Ok? && ReplayOf(out, from, opts).Ok?
    ensures
      var today := ReplayOf(rows, from, Options(false, false, cap)).value;
      var expanded := ReplayOf(out, from, Options(false, false, cap)).value;
      var stored := ReplayOf(rows, from, opts).value;
      var regrouped := ReplayOf(out, from, opts).value;
      && (today.tally.chainBreaks == 0 <==> Gapless(rows, from))
      && (expanded.tally.chainBreaks == 0 <==> Gapless(rows, from))
      && stored.tally.chainBreaks == regrouped.tally.chainBreaks == 0
      && stored.tally.stateDiffs == regrouped.tally.stateDiffs == 0
      && (stored.tally.unreadAhead == 0 <==> !opts.fold || NoBatchCounts(rows, from))
      && (regrouped.tally.unreadAhead == 0 <==> !opts.fold || NoBatchCounts(out, from))
      && today.events == EventsAfter(Stream(rows).value, from)
      && (today.events == expanded.events <==> forall g | g in GroupsOf(rows) :: OwnVersions(g))
      && FinalStateOf(today.events).Ok?
      && FinalStateOf(stored.events) == FinalStateOf(today.events)
      && FinalStateOf(regrouped.events) == FinalStateOf(expanded.events)
      && (FinalStateOf(regrouped.events) == FinalStateOf(today.events) <==> LatestFits(GroupsOf(rows)))
  {
    hide Resumes, Gapless, Ascending, ReadableRows, BuiltAll, GroupsOf, ReplayOf, StateAfter, OwnVersions, WellGrouped;
    hide Tiles, NoBatchCounts, SameLatestVersions, AllClientParts, Stream, EventsAfter, UnfoldedPages, LatestFits;
    hide SameButVersions;
    RebuildResumes(rows, out, from);
    ResumesIsAscending(rows, from);
    ResumesIsAscending(out, from);
    GroupsTile(rows);
    RebuiltReadable(GroupsOf(rows), out);
    RebuiltStream(rows, out);
    ClassicReplay(rows, from, cap);
    ClassicReplay(out, from, cap);
    ShapedReplay(rows, from, opts);
    ShapedReplay(out, from, opts);
    UnfoldedIsStream(rows, from);
    UnfoldedIsStream(out, from);
    AfterStaysSplit(rows, from);
    AfterStaysSplit(out, from);
    var a, b := Stream(rows).value, Stream(out).value;
    var d := SameDelivered(rows, out, from);
    SameLength(a, b);
    CutSame(a, b, from, d);
    VersionsDecideState(EventsAfter(a, from), EventsAfter(b, from));
    StreamFits(rows, out);
  }

  /** The streams of stored and regrouped rows differ in versions only. */
  lemma RebuiltStream(rows: seq<Row>, out: seq<Row>)
    requires BuiltAll(GroupsOf(rows)) == Ok(out) && Stream(rows).Ok?
    ensures Stream(out).Ok? && SameButVersions(Stream(rows).value, Stream(out).value)
    ensures Stream(rows).value == Stream(out).value <==> forall g | g in GroupsOf(rows) :: OwnVersions(g)
  {
    hide WellGrouped, BuiltAll, GroupsOf, OwnVersions, ResolveAll, Flat, Events, SameButVersions;
    GroupsTile(rows);
    ExpansionRestoresRows(GroupsOf(rows), out, 0);
  }

  /** Their latest states agree exactly if the last stored states fit. */
  lemma StreamFits(rows: seq<Row>, out: seq<Row>)
    requires BuiltAll(GroupsOf(rows)) == Ok(out) && ReadableRows(rows) && ReadableRows(out)
    requires Stream(rows).Ok? && Stream(out).Ok? && |Stream(rows).value| == |Stream(out).value|
    ensures SameLatestVersions(Stream(rows).value, Stream(out).value) <==> LatestFits(GroupsOf(rows))
  {
    hide WellGrouped, BuiltAll, GroupsOf, ReadableRows, Stream, SameLatestVersions, LatestFits, AllClientParts;
    hide RowEvents;
    GroupsTile(rows);
    RowsSplitIntoStream(rows);
    RowsSplitIntoStream(out);
    LatestVersionsFit(GroupsOf(rows), out);
    LatestOfContents(Stream(rows).value, Stream(out).value);
  }

  /** A client splits the events of a stream no further, from any cursor on. */
  lemma AfterStaysSplit(rows: seq<Row>, from: int)
    requires ReadableRows(rows) && Stream(rows).Ok?
    ensures AllClientParts(EventsAfter(Stream(rows).value, from)) == Ok(EventsAfter(Stream(rows).value, from))
  {
    hide PageOf;
    PlainPage(rows, from);
  }

  /** Two rows of one write whose session payload carries a version of its own. */
  function MismatchedRows(id: string, stored: int, carried: int): (r: seq<Row>)
    ensures |r| == 2
  {
    [Row(1, MESSAGE_UPSERT, MESSAGE, id, 1, false, "", 0, Obj(map["session_id" := Text("s")])),
     Row(2, SESSION_UPSERT, SESSION, "s", stored, false, "", 0, MismatchedPayload(carried))]
  }

  function MismatchedPayload(carried: int): Json {
    Obj(map["session_id" := Text("s"), "state_version" := Num(carried)])
  }

  /** Regrouping them succeeds, and the expansion gives the session the payload's version instead of the row's. */
  lemma MismatchIsNotRestored(id: string, stored: int, carried: int)
    requires stored != carried && INT64_MIN <= carried <= INT64_MAX
    ensures
      var rows := MismatchedRows(id, stored, carried);
      var group := Group(rows[0], Some(rows[1]), None);
      && GroupsOf(rows) == [group] && !OwnVersions(group)
      && BuiltAll(GroupsOf(rows)).Ok?
      && Stream(rows) == Ok([RowEvent(rows[0]), RowEvent(rows[1])])
      && Stream(BuiltAll(GroupsOf(rows)).value) == Ok([RowEvent(rows[0]), RowEvent(rows[1]).(version := carried)])
  {
    hide Stream, GroupsOf, BuiltAll, OwnVersions, Built, MismatchedRows;
    var rows := MismatchedRows(id, stored, carried);
    var group := Group(rows[0], Some(rows[1]), None);
    MismatchGroup(id, stored, carried);
    BuiltAllOfOne(group);
    MismatchStored(rows, group);
    MismatchBuilt(group, Built(group).value, carried);
  }

  lemma BuiltAllOfOne(g: Group)
    requires Built(g).Ok?
    ensures BuiltAll([g]) == Ok([Built(g).value])
  {
    assert [g][1..] == [] && [Built(g).value] + [] == [Built(g).value];
  }

  lemma MismatchStored(rows: seq<Row>, group: Group)
    requires |rows| == 2 && group == Group(rows[0], Some(rows[1]), None)
    requires WellGrouped(group) && SplitOf(rows[0]) == None
    ensures Stream(rows) == Ok([RowEvent(rows[0]), RowEvent(rows[1])])
  {
    hide ResolveAll, WellGrouped, Flat, SplitOf, WholePart;
    GroupParts(group, 0);
    assert GroupRows(group) == rows;
    var plain := [WholePart(rows[0], 0), WholePart(rows[1], 0)];
    assert Flat(ResolveAll(rows, 0).value) == plain;
    assert Events(plain) == [RowEvent(rows[0]), RowEvent(rows[1])];
  }

  lemma MismatchBuilt(group: Group, row: Row, carried: int)
    requires WellGrouped(group) && Built(group) == Ok(row) && group.session.Some? && group.unread.None?
    requires
      var s := group.session.value;
      && EmbeddedEntity(s.payload) == Ok((s.entityID, carried))
      && s.kind == SESSION_UPSERT && s.entity == SESSION && !s.tombstone && s.commandID == ""
    ensures Stream([row]) == Ok([RowEvent(group.head), RowEvent(group.session.value).(version := carried)])
  {
    hide ResolveAll, Resolve, WellGrouped, Flat, EmbeddedEntity, Built;
    BuiltParts(group, row, 0);
    ResolveOne(row, 0);
    var parts := Resolve(row, 0).value.parts;
    assert |parts| == 2 && Events(parts) == [EventOf(parts[0]), EventOf(parts[1])];
    assert EventOf(parts[1]) == RowEvent(group.session.value).(version := carried);
    assert Stream([row]) == Ok(Events(parts));
  }

  lemma MismatchEntity(carried: int)
    requires INT64_MIN <= carried <= INT64_MAX
    ensures EmbeddedEntity(MismatchedPayload(carried)) == Ok(("s", carried))
  {
  }

  lemma MismatchGroup(id: string, stored: int, carried: int)
    requires stored != carried && INT64_MIN <= carried <= INT64_MAX
    ensures
      var rows := MismatchedRows(id, stored, carried);
      var group := Group(rows[0], Some(rows[1]), None);
      && GroupsOf(rows) == [group] && !OwnVersions(group) && WellGrouped(group)
      && EmbeddedEntity(rows[1].payload) == Ok((rows[1].entityID, carried))
      && rows[1].kind == SESSION_UPSERT && rows[1].entity == SESSION && !rows[1].tombstone && rows[1].commandID == ""
      && Built(group).Ok? && SplitOf(rows[0]) == None && |rows| == 2
  {
    var rows := MismatchedRows(id, stored, carried);
    MismatchEntity(carried);
    hide EmbeddedEntity;
    assert rows[1..] == [rows[1]] && [rows[1]][1..] == [];
    var lone, group := Group(rows[0], None, None), Group(rows[0], Some(rows[1]), None);
    assert PendingAccepts(PendingOf(lone), rows[1]);
    assert Grown(lone, rows[1]) == group;
    assert Extend(group, []) == [group] + GroupsOf([]);
  }
}
