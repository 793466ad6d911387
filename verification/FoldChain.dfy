/** The cursors of delivered events: every page covers its rows without gap or overlap. */
module FoldChain {
  import opened Wrappers
  import opened SyncModel
  import opened SyncFold
  import opened FoldState

  // ---------- the check a client makes ----------

  function FirstOf(e: Event, compound: bool): int {
    if compound && e.firstCursor != 0 then e.firstCursor else e.cursor
  }

  /** How many events do not follow the cursor before them. */
  function Breaks(events: seq<Event>, compound: bool, last: int): nat {
    if events == [] then 0
    else
      var first := FirstOf(events[0], compound);
      (if first != last + 1 || events[0].cursor < first then 1 else 0) + Breaks(events[1..], compound, events[0].cursor)
  }

  function PageBreaks(page: Page, compound: bool, from: int): nat {
    Breaks(page.events, compound, from) + if LastCursor(page.events, from) != page.nextCursor then 1 else 0
  }

  /** The events' intervals [first, cursor] follow each other from `from` to `to`. */
  predicate Tiles(events: seq<Event>, compound: bool, from: int, to: int) {
    if events == [] then from == to
    else
      var first := FirstOf(events[0], compound);
      first == from + 1 && first <= events[0].cursor && Tiles(events[1..], compound, events[0].cursor, to)
  }

  /** The event does not start right behind the one before it, or ends before it starts. */
  ghost predicate IsGap(events: seq<Event>, compound: bool, last: int, i: nat)
    requires i < |events|
  {
    var first := if compound && events[i].firstCursor != 0 then events[i].firstCursor else events[i].cursor;
    first != (if i == 0 then last else events[i - 1].cursor) + 1 || events[i].cursor < first
  }

  ghost function Gaps(events: seq<Event>, compound: bool, last: int): set<nat> {
    set i: nat | i < |events| && IsGap(events, compound, last, i)
  }

  /** The checker counts every event that breaks the chain once. */
  lemma {:induction false} BreaksAreGaps(events: seq<Event>, compound: bool, last: int)
    ensures Breaks(events, compound, last) == |Gaps(events, compound, last)|
  {
    if events == [] {
      assert Gaps(events, compound, last) == {};
    } else {
      var n := |events| - 1;
      var before := events[..n];
      hide Breaks, Gaps, IsGap;
      BreaksAreGaps(before, compound, last);
      BreaksLast(events, compound, last);
      GapsLast(events, compound, last);
    }
  }

  lemma GapsLast(events: seq<Event>, compound: bool, last: int)
    requires events != []
    ensures
      var n := |events| - 1;
      |Gaps(events, compound, last)|
      == |Gaps(events[..n], compound, last)| + if IsGap(events, compound, last, n) then 1 else 0
  {
    hide IsGap;
    var n := |events| - 1;
    var before, all := Gaps(events[..n], compound, last), Gaps(events, compound, last);
    forall i: nat | i < n ensures i in before <==> i in all {
      GapOfPrefix(events, compound, last, i);
    }
    if IsGap(events, compound, last, n) {
      assert all == before + {n};
    } else {
      assert all == before;
    }
  }

  lemma GapOfPrefix(events: seq<Event>, compound: bool, last: int, i: nat)
    requires i < |events| - 1
    ensures IsGap(events[..|events| - 1], compound, last, i) == IsGap(events, compound, last, i)
  {
  }

  lemma BreaksLast(events: seq<Event>, compound: bool, last: int)
    requires events != []
    ensures
      var n := |events| - 1;
      Breaks(events, compound, last)
      == Breaks(events[..n], compound, last) + if IsGap(events, compound, last, n) then 1 else 0
  {
    var n := |events| - 1;
    assert events == events[..n] + [events[n]];
    BreaksJoin(events[..n], [events[n]], compound, last);
    assert [events[n]][1..] == [];
  }

  lemma LastCursorTail(events: seq<Event>, from: int)
    requires events != []
    ensures LastCursor(events, from) == LastCursor(events[1..], events[0].cursor)
  {
  }

  /** The checker counts nothing exactly when the intervals tile. */
  lemma {:induction false} NoBreaksMeansTiles(events: seq<Event>, compound: bool, from: int, to: int)
    ensures Breaks(events, compound, from) == 0 && LastCursor(events, from) == to <==> Tiles(events, compound, from, to)
  {
    if events != [] {
      LastCursorTail(events, from);
      NoBreaksMeansTiles(events[1..], compound, events[0].cursor, to);
    }
  }

  ghost predicate InInterval(events: seq<Event>, compound: bool, i: int, c: int)
    requires 0 <= i < |events|
  {
    FirstOf(events[i], compound) <= c <= events[i].cursor
  }

  /**
   Tiling, said cursor by cursor: each cursor after `from` up to `to` lies in exactly one interval, others in
   none.
   */
  lemma {:induction false} TilesIsPartition(events: seq<Event>, compound: bool, from: int, to: int, c: int)
    requires Tiles(events, compound, from, to)
    ensures from <= to
    ensures from < c <= to <==> exists i | 0 <= i < |events| :: InInterval(events, compound, i, c)
    ensures forall i, j | 0 <= i < j < |events| ::
            !(InInterval(events, compound, i, c) && InInterval(events, compound, j, c))
  {
    if events != [] {
      var rest := events[1..];
      TilesIsPartition(rest, compound, events[0].cursor, to, c);
      assert forall i | 0 <= i < |rest| :: InInterval(rest, compound, i, c) == InInterval(events, compound, i + 1, c);
      assert forall i | 1 <= i < |events| :: InInterval(events, compound, i, c) == InInterval(rest, compound, i - 1, c);
      if from < c <= to {
        if c <= events[0].cursor {
          assert InInterval(events, compound, 0, c);
        } else {
          var i :| 0 <= i < |rest| && InInterval(rest, compound, i, c);
          assert InInterval(events, compound, i + 1, c);
        }
      }
    }
  }

  /** Tilings of consecutive pages join. */
  lemma {:induction false} TilesJoin(a: seq<Event>, b: seq<Event>, compound: bool, from: int, mid: int, to: int)
    requires Tiles(a, compound, from, mid)
    ensures Tiles(b, compound, mid, to) <==> Tiles(a + b, compound, from, to)
  {
    if a == [] {
      assert a + b == b;
    } else {
      assert (a + b)[1..] == a[1..] + b;
      TilesJoin(a[1..], b, compound, a[0].cursor, mid, to);
    }
  }

  // ---------- rows in stream order ----------

  function SpanOf(row: Row): nat {
    var split := SplitOf(row);
    if split.Some? then PartCount(split.value) else 1
  }

  function FirstCursorOf(row: Row): int {
    row.cursor - SpanOf(row) + 1
  }

  function LastRowCursor(rows: seq<Row>, from: int): int {
    if rows == [] then from else rows[|rows| - 1].cursor
  }

  /** Every row's cursors lie after those of the rows before it, the first row's after `from`. */
  ghost predicate InOrder(rows: seq<Row>, from: int) {
    rows != [] ==> FirstCursorOf(rows[0]) > from && InOrder(rows[1..], rows[0].cursor)
  }

  /** The rows of one user after `from` in the order they are read: strictly ascending cursors. */
  ghost predicate Ascending(rows: seq<Row>, from: int) {
    rows != [] ==> rows[0].cursor > from && Ascending(rows[1..], rows[0].cursor)
  }

  /** In order and without gaps. */
  ghost predicate Dense(rows: seq<Row>, from: int) {
    rows != [] ==> FirstCursorOf(rows[0]) == from + 1 && Dense(rows[1..], rows[0].cursor)
  }

  /** Rows of which only the first may have been delivered in part: every replay that starts before its last cursor. */
  ghost predicate Resumes(rows: seq<Row>, from: int) {
    rows != [] ==> rows[0].cursor > from && InOrder(rows[1..], rows[0].cursor)
  }

  lemma SpanIsPositive(row: Row)
    ensures SpanOf(row) >= 1 && FirstCursorOf(row) <= row.cursor
  {
  }

  lemma InOrderResumes(rows: seq<Row>, from: int)
    requires InOrder(rows, from)
    ensures Resumes(rows, from)
  {
    if rows != [] {
      SpanIsPositive(rows[0]);
    }
  }

  // ---------- events in increasing cursor order ----------

  /** Strictly increasing cursors in (low, high]. */
  ghost predicate Within(events: seq<Event>, low: int, high: int) {
    if events == [] then low <= high
    else low < events[0].cursor <= high && events[0].firstCursor == 0 && Within(events[1..], events[0].cursor, high)
  }

  lemma {:induction false} WithinJoin(a: seq<Event>, b: seq<Event>, low: int, mid: int, high: int)
    requires Within(a, low, mid) && Within(b, mid, high)
    ensures Within(a + b, low, high)
  {
    WithinBounds(b, mid, high);
    if a == [] {
      assert a + b == b;
      WithinLower(b, low, mid, high);
    } else {
      assert (a + b)[1..] == a[1..] + b;
      WithinJoin(a[1..], b, a[0].cursor, mid, high);
    }
  }

  lemma {:induction false} WithinBounds(events: seq<Event>, low: int, high: int)
    requires Within(events, low, high)
    ensures low <= high
  {
    if events != [] {
      WithinBounds(events[1..], events[0].cursor, high);
    }
  }

  lemma WithinLower(events: seq<Event>, lower: int, low: int, high: int)
    requires lower <= low && Within(events, low, high)
    ensures Within(events, lower, high)
  {
  }

  /** Chaining by first_cursor turns increasing cursors into a tiling. */
  lemma {:induction false} ChainedTiles(events: seq<Event>, from: int, high: int)
    requires from >= 0 && Within(events, from, high)
    ensures Tiles(Chained(events, from), true, from, LastCursor(events, from))
  {
    if events != [] {
      LastCursorTail(events, from);
      ChainedTiles(events[1..], events[0].cursor, high);
      assert Chained(events, from)[1..] == Chained(events[1..], events[0].cursor);
    }
  }

  // ---------- one unit ----------

  /** The parts' cursors are consecutive and end at `last`. */
  ghost predicate Consecutive(parts: seq<Part>, last: int) {
    forall i | 0 <= i < |parts| :: parts[i].cursor == last - |parts| + 1 + i
  }

  lemma ResolvedConsecutive(row: Row, from: int, u: Unit)
    requires Resolve(row, from) == Ok(u)
    ensures Consecutive(u.parts, row.cursor) && |u.parts| == SpanOf(row) && u.row == row
  {
    hide EmbeddedEntity, SplitCompound;
  }

  lemma {:induction false} KeptWithin(parts: seq<Part>, low: int, last: int)
    requires Consecutive(parts, last) && low <= last - |parts|
    ensures Within(KeptEvents(parts), low, last)
    ensures parts != [] && parts[|parts| - 1].kept ==>
            KeptEvents(parts) != [] && LastCursor(KeptEvents(parts), low) == last
  {
    if parts != [] {
      var n := |parts| - 1;
      assert parts == parts[..n] + [parts[n]];
      KeptEventsAppend(parts[..n], [parts[n]]);
      KeptWithin(parts[..n], low, last - 1);
      assert KeptEvents([parts[n]]) == KeptEvent(parts[n]);
      assert Within(KeptEvent(parts[n]), last - 1, last);
      WithinJoin(KeptEvents(parts[..n]), KeptEvent(parts[n]), low, last - 1, last);
    }
  }

  lemma {:induction false} KeptPartsLast(parts: seq<Part>, last: int)
    requires Consecutive(parts, last) && parts != []
    ensures last - |parts| < LastPartCursor(KeptParts(parts), last) <= last
    ensures parts[|parts| - 1].kept ==> LastPartCursor(KeptParts(parts), last - |parts|) == last
    ensures KeptParts(parts) == [] ==> !parts[|parts| - 1].kept
  {
    var n := |parts| - 1;
    if !parts[n].kept && n > 0 {
      KeptPartsLast(parts[..n], last - 1);
    }
  }

  lemma UnitWithin(u: Unit, low: int)
    requires |u.parts| > 0 && Consecutive(u.parts, u.row.cursor) && low <= u.row.cursor - |u.parts|
    ensures Within(UnitEvents(u), low, u.row.cursor)
    ensures u.parts[|u.parts| - 1].kept ==> UnitEvents(u) != [] && LastCursor(UnitEvents(u), low) == u.row.cursor
  {
    if u.split.Some? && u.parts[0].kept {
      if |u.parts| > 1 {
        KeptPartsLast(u.parts[1..], u.row.cursor);
      }
      var event := CompoundEvent(u);
      assert UnitEvents(u) == [event] && [event][1..] == [];
    } else {
      KeptWithin(u.parts, low, u.row.cursor);
    }
  }

  // ---------- whole pages ----------

  lemma {:induction false} UnitsWithin(rows: seq<Row>, low: int, units: seq<Unit>)
    requires Placed(rows, units) && InOrder(rows, low)
    ensures Within(AllUnitEvents(units), low, LastRowCursor(rows, low))
    ensures units != [] && units[|units| - 1].parts[|units[|units| - 1].parts| - 1].kept ==>
              AllUnitEvents(units) != [] && LastCursor(AllUnitEvents(units), low) == LastRowCursor(rows, low)
  {
    if rows != [] {
      hide UnitEvents, SplitOf, Within;
      var events, rest := UnitEvents(units[0]), AllUnitEvents(units[1..]);
      UnitWithin(units[0], low);
      PlacedTail(rows, units);
      UnitsWithin(rows[1..], rows[0].cursor, units[1..]);
      assert LastRowCursor(rows, low) == LastRowCursor(rows[1..], rows[0].cursor);
      WithinJoin(events, rest, low, rows[0].cursor, LastRowCursor(rows, low));
      LastCursorJoin(events, rest, low);
      if |units| > 1 {
        assert units[1..][|units[1..]| - 1] == units[|units| - 1];
      } else {
        assert rest == [];
      }
    } else {
      assert AllUnitEvents(units) == [];
    }
  }

  /** The units belong to the rows and end at their cursors. */
  ghost predicate Placed(rows: seq<Row>, units: seq<Unit>) {
    && |units| == |rows|
    && (forall i | 0 <= i < |units| ::
          && units[i].row == rows[i]
          && |units[i].parts| == SpanOf(rows[i])
          && Consecutive(units[i].parts, rows[i].cursor))
    && forall u | u in units :: |u.parts| > 0
  }

  lemma PlacedTail(rows: seq<Row>, units: seq<Unit>)
    requires Placed(rows, units) && rows != []
    ensures Placed(rows[1..], units[1..])
  {
  }

  lemma LastCursorJoin(a: seq<Event>, b: seq<Event>, from: int)
    ensures LastCursor(a + b, from) == LastCursor(b, LastCursor(a, from))
  {
  }

  lemma LastCursorWithin(events: seq<Event>, low: int, high: int)
    requires Within(events, low, high)
    ensures low <= LastCursor(events, low) <= high
  {
    if events != [] {
      LastCursorTail(events, low);
      LastCursorWithin(events[1..], events[0].cursor, high);
    }
  }

  lemma PlacedUnits(rows: seq<Row>, from: int, units: seq<Unit>, changed: seq<Unit>)
    requires ResolveAll(rows, from) == Ok(units) && SameUnits(changed, units)
    ensures Placed(rows, changed)
  {
    hide SplitOf, Resolve;
    ResolvedUnits(rows, from);
    forall i | 0 <= i < |rows|
      ensures changed[i].row == rows[i] && |changed[i].parts| == SpanOf(rows[i])
              && Consecutive(changed[i].parts, rows[i].cursor)
    {
      ResolvedConsecutive(rows[i], from, units[i]);
      SameIsConsecutive(changed[i].parts, units[i].parts, rows[i].cursor);
    }
    forall u | u in changed ensures |u.parts| > 0 {
      var i :| 0 <= i < |changed| && changed[i] == u;
      assert units[i] in units;
    }
  }

  lemma SameIsConsecutive(a: seq<Part>, b: seq<Part>, last: int)
    requires SameButKept(a, b) && Consecutive(b, last)
    ensures Consecutive(a, last)
  {
    forall i | 0 <= i < |a| ensures a[i].cursor == b[i].cursor {
      assert a[i].(kept := b[i].kept) == b[i];
    }
  }

  lemma LastPartStays(parts: seq<Part>, from: int)
    requires Fresh(parts, from) && parts != [] && parts[|parts| - 1].kept
    ensures FinalParts(parts, from)[|parts| - 1].kept
  {
    hide KeepScan;
    var n := |parts| - 1;
    FoldedParts(parts);
    assert FoldedPart(parts, n) == parts[n];
    KeepScanSound(FoldedFrom(parts, 0), from, |parts|);
  }

  lemma {:induction false} FlatFresh(rows: seq<Row>, from: int, units: seq<Unit>)
    requires ResolveAll(rows, from) == Ok(units)
    ensures Fresh(Flat(units), from)
  {
    if rows != [] {
      hide Resolve;
      ResolvedFresh(rows[0], from, units[0]);
      FlatFresh(rows[1..], from, units[1..]);
    }
  }

  lemma {:induction false} LastFlatPart(units: seq<Unit>)
    requires units != [] && forall u | u in units :: |u.parts| > 0
    ensures Flat(units) != []
    ensures
      var last := units[|units| - 1].parts;
      Flat(units)[|Flat(units)| - 1] == last[|last| - 1]
  {
    if |units| > 1 {
      LastFlatPart(units[1..]);
    } else {
      assert Flat(units[1..]) == [];
    }
  }

  /** The units a compound page is emitted from keep their shape and their very last part. */
  lemma ShapedUnits(rows: seq<Row>, from: int, units: seq<Unit>, changed: seq<Unit>, fold: bool)
    requires ResolveAll(rows, from) == Ok(units)
    requires changed == if fold then FoldedUnits(units, from) else units
    ensures Fresh(Flat(units), from)
    ensures SameUnits(changed, units)
    ensures Flat(units) != [] && Flat(units)[|Flat(units)| - 1].kept ==>
              Flat(changed) != [] && Flat(changed)[|Flat(changed)| - 1].kept
  {
    hide FinalParts, Flat, Fresh, SameUnits, SameShape, SameButKept, ResolveAll;
    FlatFresh(rows, from, units);
    if fold {
      FinalKeepsFolded(Flat(units), from);
      if Flat(units) != [] && Flat(units)[|Flat(units)| - 1].kept {
        LastPartStays(Flat(units), from);
      }
    }
    ShapeIsSameUnits(changed, units);
  }

  lemma SameUnitsReflexive(units: seq<Unit>)
    ensures SameUnits(units, units)
  {
  }

  lemma PlacedLength(rows: seq<Row>, units: seq<Unit>)
    requires Placed(rows, units)
    ensures |units| == |rows| && forall u | u in units :: |u.parts| > 0
    ensures units != [] ==> units[|units| - 1].row == rows[|rows| - 1]
  {
  }

  lemma CompoundEvents(units: seq<Unit>, from: int, fold: bool)
    requires forall u | u in units :: |u.parts| > 0
    ensures
      var changed := if fold then FoldedUnits(units, from) else units;
      && (forall u | u in changed :: |u.parts| > 0)
      && CompoundPage(units, from, fold).events == Chained(AllUnitEvents(changed), from)
  {
    if fold {
      ShapeKeepsParts(FoldedUnits(units, from), units);
    }
  }

  lemma {:induction false} NoneKept(parts: seq<Part>)
    requires forall i | 0 <= i < |parts| :: !parts[i].kept
    ensures KeptEvents(parts) == []
  {
    if parts != [] {
      NoneKept(parts[1..]);
    }
  }

  /** The kept parts of one row, all after `low`, in order. */
  lemma {:induction false} KeptAfter(parts: seq<Part>, low: int, last: int)
    requires Consecutive(parts, last) && low <= last
    requires forall i | 0 <= i < |parts| && parts[i].kept :: parts[i].cursor > low
    ensures Within(KeptEvents(parts), low, last)
  {
    if low == last {
      NoneKept(parts);
    } else if parts != [] {
      var n := |parts| - 1;
      assert parts == parts[..n] + [parts[n]];
      KeptEventsAppend(parts[..n], [parts[n]]);
      KeptAfter(parts[..n], low, last - 1);
      assert KeptEvents([parts[n]]) == KeptEvent(parts[n]);
      assert Within(KeptEvent(parts[n]), last - 1, last);
      WithinJoin(KeptEvents(parts[..n]), KeptEvent(parts[n]), low, last - 1, last);
    }
  }

  lemma UnitAfter(u: Unit, low: int)
    requires |u.parts| > 0 && Consecutive(u.parts, u.row.cursor) && low < u.row.cursor
    requires forall i | 0 <= i < |u.parts| && u.parts[i].kept :: u.parts[i].cursor > low
    ensures Within(UnitEvents(u), low, u.row.cursor)
  {
    if u.split.Some? && u.parts[0].kept {
      UnitWithin(u, low);
    } else {
      KeptAfter(u.parts, low, u.row.cursor);
    }
  }

  lemma ResumedWithin(rows: seq<Row>, low: int, units: seq<Unit>)
    requires Placed(rows, units) && Resumes(rows, low)
    requires forall p | p in Flat(units) && p.kept :: p.cursor > low
    ensures Within(AllUnitEvents(units), low, LastRowCursor(rows, low))
  {
    if rows != [] {
      hide Flat, AllUnitEvents;
      FirstPartsAfter(units, low);
      ResumedUnitsWithin(rows, low, units);
    } else {
      assert AllUnitEvents(units) == [];
    }
  }

  lemma ResumedUnitsWithin(rows: seq<Row>, low: int, units: seq<Unit>)
    requires rows != [] && Placed(rows, units) && Resumes(rows, low)
    requires var parts := units[0].parts; forall i | 0 <= i < |parts| && parts[i].kept :: parts[i].cursor > low
    ensures Within(AllUnitEvents(units), low, LastRowCursor(rows, low))
  {
    hide UnitEvents, SplitOf, Within, InOrder;
    var events, rest := UnitEvents(units[0]), AllUnitEvents(units[1..]);
    UnitAfter(units[0], low);
    PlacedTail(rows, units);
    UnitsWithin(rows[1..], rows[0].cursor, units[1..]);
    assert LastRowCursor(rows, low) == LastRowCursor(rows[1..], rows[0].cursor);
    WithinJoin(events, rest, low, rows[0].cursor, LastRowCursor(rows, low));
  }

  lemma FirstPartsAfter(units: seq<Unit>, low: int)
    requires units != [] && forall p | p in Flat(units) && p.kept :: p.cursor > low
    ensures var parts := units[0].parts; forall i | 0 <= i < |parts| && parts[i].kept :: parts[i].cursor > low
  {
    var parts := units[0].parts;
    forall i | 0 <= i < |parts| && parts[i].kept ensures parts[i].cursor > low {
      assert Flat(units)[i] == parts[i];
    }
  }

  /** Folded or not, only parts after the page's cursor are sent. */
  lemma ShapedAfter(units: seq<Unit>, from: int, changed: seq<Unit>, fold: bool)
    requires Fresh(Flat(units), from)
    requires changed == if fold then FoldedUnits(units, from) else units
    ensures forall p | p in Flat(changed) && p.kept :: p.cursor > from
  {
    hide FinalParts, Flat;
    if fold {
      var orig, final := Flat(units), Flat(changed);
      FinalKeepsFolded(orig, from);
      forall p | p in final && p.kept ensures p.cursor > from {
        var i :| 0 <= i < |final| && final[i] == p;
        assert final[i].(kept := orig[i].kept) == orig[i];
      }
    }
  }

  lemma {:induction false} ResumesIsAscending(rows: seq<Row>, from: int)
    requires Resumes(rows, from)
    ensures Ascending(rows, from)
  {
    if rows != [] {
      InOrderIsAscending(rows[1..], rows[0].cursor);
    }
  }

  /** Before chaining, a compound page's events have ascending cursors up to its last row. */
  lemma ShapedWithin(rows: seq<Row>, from: int, units: seq<Unit>, changed: seq<Unit>, fold: bool)
    requires ResolveAll(rows, from) == Ok(units) && Resumes(rows, from)
    requires changed == if fold then FoldedUnits(units, from) else units
    ensures forall u | u in changed :: |u.parts| > 0
    ensures Within(AllUnitEvents(changed), from, LastRowCursor(rows, from))
    ensures LastCursor(AllUnitEvents(changed), from) == LastRowCursor(rows, from)
  {
    hide ResolveAll, AllUnitEvents, FoldedUnits, Resumes, Fresh, SpanOf, FirstCursorOf, Placed, Within;
    hide SameUnits, Flat;
    ResolvedUnits(rows, from);
    ShapedUnits(rows, from, units, changed, fold);
    PlacedUnits(rows, from, units, changed);
    PlacedLength(rows, changed);
    ShapedAfter(units, from, changed, fold);
    ResumedWithin(rows, from, changed);
    if rows != [] {
      ResumesIsAscending(rows, from);
      UnitsEndThere(rows, from, units, changed, fold);
    } else {
      NoUnitsNoEvents(changed);
    }
  }

  lemma NoUnitsNoEvents(units: seq<Unit>)
    requires |units| == 0
    ensures AllUnitEvents(units) == []
  {
  }

  /** Every page for a compound client, folded or not, covers exactly the cursors from its start to its next cursor. */
  lemma ShapedPageTiles(rows: seq<Row>, from: int, opts: Options, page: Page)
    requires opts.compound && PageOf(rows, from, opts) == Ok(page)
    requires from >= 0 && Resumes(rows, from)
    ensures Tiles(page.events, true, from, page.nextCursor)
    ensures PageBreaks(page, true, from) == 0
    ensures page.rows == |rows| && page.nextCursor == LastRowCursor(rows, from) >= from
  {
    hide ResolveAll, AllUnitEvents, FoldedUnits, Resumes, Chained, CompoundPage, Within, Tiles, SameShape;
    var units := ResolveAll(rows, from).value;
    ResolvedUnits(rows, from);
    var changed := if opts.fold then FoldedUnits(units, from) else units;
    ShapedWithin(rows, from, units, changed, opts.fold);
    CompoundEvents(units, from, opts.fold);
    CompoundPageRows(units, from, opts.fold);
    var raw := AllUnitEvents(changed);
    LastCursorWithin(raw, from, LastRowCursor(rows, from));
    ChainedTiles(raw, from, LastRowCursor(rows, from));
    NoBreaksMeansTiles(page.events, true, from, page.nextCursor);
  }

  // ---------- classic pages ----------

  ghost predicate AllKept(parts: seq<Part>) {
    forall p | p in parts :: p.kept
  }

  lemma {:induction false} InOrderKeepsAll(rows: seq<Row>, from: int, low: int, units: seq<Unit>)
    requires ResolveAll(rows, from) == Ok(units) && InOrder(rows, low) && from <= low
    ensures AllKept(Flat(units))
  {
    if rows != [] {
      hide Resolve, SplitOf;
      ResolvedConsecutive(rows[0], from, units[0]);
      ResolvedFresh(rows[0], from, units[0]);
      assert FirstCursorOf(rows[0]) > low;
      InOrderKeepsAll(rows[1..], from, rows[0].cursor, units[1..]);
    }
  }

  lemma ResolvedFresh(row: Row, from: int, u: Unit)
    requires Resolve(row, from) == Ok(u)
    ensures Fresh(u.parts, from)
  {
    hide EmbeddedEntity, SplitCompound;
  }

  lemma {:induction false} PartsTile(parts: seq<Part>, low: int, last: int)
    requires parts != [] && AllKept(parts) && Consecutive(parts, last)
    ensures Tiles(KeptEvents(parts), false, low, last) <==> last - |parts| == low
  {
    var rest := parts[1..];
    assert KeptEvents(parts)[0] == EventOf(parts[0]) && KeptEvents(parts)[1..] == KeptEvents(rest);
    if rest != [] {
      PartsTile(rest, parts[0].cursor, last);
    }
  }

  /** Classic events tile exactly when the rows leave no cursor out. */
  lemma {:induction false} ClassicTiles(rows: seq<Row>, low: int, units: seq<Unit>)
    requires Placed(rows, units) && AllKept(Flat(units)) && InOrder(rows, low)
    ensures Tiles(KeptEvents(Flat(units)), false, low, LastRowCursor(rows, low)) <==> Dense(rows, low)
  {
    if rows != [] {
      hide SplitOf;
      var parts := units[0].parts;
      var events, rest := KeptEvents(parts), KeptEvents(Flat(units[1..]));
      KeptEventsAppend(parts, Flat(units[1..]));
      PlacedTail(rows, units);
      assert AllKept(parts) && AllKept(Flat(units[1..]));
      PartsTile(parts, low, rows[0].cursor);
      ClassicTiles(rows[1..], rows[0].cursor, units[1..]);
      assert LastRowCursor(rows, low) == LastRowCursor(rows[1..], rows[0].cursor);
      if Dense(rows, low) || Tiles(events, false, low, rows[0].cursor) {
        TilesJoin(events, rest, false, low, rows[0].cursor, LastRowCursor(rows, low));
      } else {
        assert (events + rest)[0] == events[0] == EventOf(parts[0]);
        assert parts[0].cursor == FirstCursorOf(rows[0]) != low + 1;
      }
    }
  }

  /** No cursor after `from` is left out: the first row starts there or before, and the others follow without gaps. */
  ghost predicate Gapless(rows: seq<Row>, from: int) {
    rows != [] ==> FirstCursorOf(rows[0]) <= from + 1 && Dense(rows[1..], rows[0].cursor)
  }

  lemma GaplessInOrder(rows: seq<Row>, from: int)
    requires InOrder(rows, from)
    ensures Gapless(rows, from) <==> Dense(rows, from)
  {
  }

  /** The new parts of a row delivered in part tile from where it was cut off. */
  lemma {:induction false} CutTiles(parts: seq<Part>, low: int, last: int)
    requires parts != [] && Consecutive(parts, last) && Fresh(parts, low) && low < last
    ensures Tiles(KeptEvents(parts), false, low, last) <==> last - |parts| <= low
    ensures KeptEvents(parts) != []
    ensures !Tiles(KeptEvents(parts), false, low, last) ==> KeptEvents(parts)[0].cursor != low + 1
  {
    if parts[0].kept {
      assert AllKept(parts);
      PartsTile(parts, low, last);
      assert KeptEvents(parts)[0] == EventOf(parts[0]);
    } else {
      assert KeptEvents(parts) == KeptEvents(parts[1..]);
      CutTiles(parts[1..], low, last);
    }
  }

  /** Classic events of rows of which the first was delivered in part tile exactly when no cursor is left out. */
  lemma ResumedTiles(rows: seq<Row>, from: int, units: seq<Unit>)
    requires ResolveAll(rows, from) == Ok(units) && Resumes(rows, from)
    ensures Tiles(KeptEvents(Flat(units)), false, from, LastRowCursor(rows, from)) <==> Gapless(rows, from)
  {
    hide ResolveAll, Resolve, SplitOf, InOrder, Dense, KeptEvents, Flat, Fresh, AllKept;
    if rows != [] {
      FirstUnit(rows, from, units);
      ResolvedConsecutive(rows[0], from, units[0]);
      ResolvedFresh(rows[0], from, units[0]);
      SpanIsPositive(rows[0]);
      var parts, later := units[0].parts, units[1..];
      var events, rest := KeptEvents(parts), KeptEvents(Flat(later));
      CutTiles(parts, from, rows[0].cursor);
      KeptEventsAppend(parts, Flat(later));
      SameUnitsReflexive(later);
      PlacedUnits(rows[1..], from, later, later);
      InOrderKeepsAll(rows[1..], from, rows[0].cursor, later);
      ClassicTiles(rows[1..], rows[0].cursor, later);
      assert LastRowCursor(rows, from) == LastRowCursor(rows[1..], rows[0].cursor);
      if Tiles(events, false, from, rows[0].cursor) {
        TilesJoin(events, rest, false, from, rows[0].cursor, LastRowCursor(rows, from));
      } else {
        assert (events + rest)[0] == events[0];
        assert !Tiles(events + rest, false, from, LastRowCursor(rows, from));
      }
    } else {
      ResolvedUnits(rows, from);
      NoUnits(units);
    }
  }

  lemma NoUnits(units: seq<Unit>)
    requires |units| == 0
    ensures KeptEvents(Flat(units)) == []
  {
  }

  lemma FirstUnit(rows: seq<Row>, from: int, units: seq<Unit>)
    requires ResolveAll(rows, from) == Ok(units) && rows != []
    ensures units != [] && Resolve(rows[0], from) == Ok(units[0]) && ResolveAll(rows[1..], from) == Ok(units[1..])
    ensures Flat(units) == units[0].parts + Flat(units[1..])
  {
  }

  /** The breaks a client without compound rows counts on a page are cursors its rows leave out. */
  lemma ClassicPageTiles(rows: seq<Row>, from: int, opts: Options, page: Page)
    requires !opts.compound && PageOf(rows, from, opts) == Ok(page)
    requires Resumes(rows, from)
    ensures page.rows <= |rows| && page.nextCursor == LastRowCursor(rows[..page.rows], from)
    ensures PageBreaks(page, false, from) == 0 <==> Gapless(rows[..page.rows], from)
    ensures rows != [] ==> page.rows > 0
  {
    hide Resolve, Resumes, Gapless, KeptEvents;
    var units := ResolveAll(rows, from).value;
    var n := page.rows;
    ResumesIsAscending(rows, from);
    PageEndsAtNextCursor(rows, from, opts, page);
    UnitsThatFitBound(units, 0, 0, opts.maxEvents);
    ResolvedUnits(rows, from);
    ResolvedPrefix(rows, from, n);
    ResumesPrefix(rows, from, n);
    ResumedTiles(rows[..n], from, units[..n]);
    NoBreaksMeansTiles(page.events, false, from, page.nextCursor);
  }

  lemma ResumesPrefix(rows: seq<Row>, from: int, n: nat)
    requires Resumes(rows, from) && n <= |rows|
    ensures Resumes(rows[..n], from)
    ensures n > 0 ==> InOrder(rows[n..], LastRowCursor(rows[..n], from))
  {
    if n > 0 {
      assert rows[..n][1..] == rows[1..][..n - 1] && rows[n..] == rows[1..][n - 1..];
      InOrderPrefix(rows[1..], rows[0].cursor, n - 1);
      assert LastRowCursor(rows[..n], from) == LastRowCursor(rows[1..][..n - 1], rows[0].cursor);
    }
  }

  lemma {:induction false} ResolvedPrefix(rows: seq<Row>, from: int, n: nat)
    requires ResolveAll(rows, from).Ok? && n <= |rows|
    ensures |ResolveAll(rows, from).value| == |rows|
    ensures ResolveAll(rows[..n], from) == Ok(ResolveAll(rows, from).value[..n])
  {
    ResolvedUnits(rows, from);
    if n > 0 {
      assert rows[..n][1..] == rows[1..][..n - 1];
      ResolvedPrefix(rows[1..], from, n - 1);
      var units := ResolveAll(rows, from).value;
      assert units == [units[0]] + units[1..] && units[..n] == [units[0]] + units[1..][..n - 1];
    }
  }

  lemma {:induction false} InOrderPrefix(rows: seq<Row>, low: int, n: nat)
    requires InOrder(rows, low) && n <= |rows|
    ensures InOrder(rows[..n], low)
    ensures InOrder(rows[n..], LastRowCursor(rows[..n], low))
  {
    if n > 0 {
      assert rows[..n][1..] == rows[1..][..n - 1] && rows[n..] == rows[1..][n - 1..];
      InOrderPrefix(rows[1..], rows[0].cursor, n - 1);
    }
  }

  // ---------- the checker over more than one page ----------

  /** The breaks of two lists one after the other add up when the second starts where the first ends. */
  lemma {:induction false} BreaksJoin(a: seq<Event>, b: seq<Event>, compound: bool, last: int)
    ensures Breaks(a + b, compound, last) == Breaks(a, compound, last) + Breaks(b, compound, LastCursor(a, last))
  {
    if a == [] {
      assert a + b == b;
    } else {
      assert (a + b)[1..] == a[1..] + b;
      LastCursorTail(a, last);
      BreaksJoin(a[1..], b, compound, a[0].cursor);
    }
  }

  lemma {:induction false} ChainedLastCursor(events: seq<Event>, from: int)
    ensures LastCursor(Chained(events, from), from) == LastCursor(events, from)
  {
    if events != [] {
      LastCursorTail(events, from);
      LastCursorTail(Chained(events, from), from);
      ChainedLastCursor(events[1..], events[0].cursor);
      assert Chained(events, from)[1..] == Chained(events[1..], events[0].cursor);
    }
  }

  lemma {:induction false} AscendingPrefix(rows: seq<Row>, low: int, n: nat)
    requires Ascending(rows, low) && n <= |rows|
    ensures Ascending(rows[..n], low)
    ensures Ascending(rows[n..], LastRowCursor(rows[..n], low))
  {
    if n > 0 {
      assert rows[..n][1..] == rows[1..][..n - 1] && rows[n..] == rows[1..][n - 1..];
      AscendingPrefix(rows[1..], rows[0].cursor, n - 1);
    } else {
      assert rows[0..] == rows;
    }
  }

  lemma {:induction false} AscendingLast(rows: seq<Row>, low: int)
    requires Ascending(rows, low) && rows != []
    ensures LastRowCursor(rows, low) > low
  {
    if |rows| > 1 {
      AscendingLast(rows[1..], rows[0].cursor);
    }
  }

  lemma {:induction false} InOrderIsAscending(rows: seq<Row>, low: int)
    requires InOrder(rows, low)
    ensures Ascending(rows, low)
  {
    if rows != [] {
      InOrderIsAscending(rows[1..], rows[0].cursor);
    }
  }

  lemma UnitEndsAtRow(u: Unit)
    requires |u.parts| > 0 && Consecutive(u.parts, u.row.cursor) && u.parts[|u.parts| - 1].kept
    ensures UnitEvents(u) != [] && KeptEvents(u.parts) != []
    ensures forall from :: LastCursor(UnitEvents(u), from) == LastCursor(KeptEvents(u.parts), from) == u.row.cursor
  {
    UnitWithin(u, u.row.cursor - |u.parts|);
    KeptWithin(u.parts, u.row.cursor - |u.parts|, u.row.cursor);
  }

  /** The last event of some units is the last kept part of the last one. */
  lemma UnitsEndAtRow(rows: seq<Row>, units: seq<Unit>, from: int)
    requires Placed(rows, units) && rows != []
    requires Flat(units) != [] ==> Flat(units)[|Flat(units)| - 1].kept
    ensures LastCursor(AllUnitEvents(units), from) == LastRowCursor(rows, from)
    ensures LastCursor(KeptEvents(Flat(units)), from) == LastRowCursor(rows, from)
  {
    hide UnitEvents, KeptEvents, Flat, AllUnitEvents, Consecutive, LastCursor, SpanOf;
    var n := |units| - 1;
    var u := units[n];
    assert u in units;
    LastFlatPart(units);
    UnitEndsAtRow(u);
    assert units == units[..n] + [u] && units[..n + 1] == units;
    AllUnitEventsAppend(units[..n], [u]);
    AllUnitEventsOfOne(u);
    LastCursorJoin(AllUnitEvents(units[..n]), UnitEvents(u), from);
    KeptOfPrefix(units, n);
    LastCursorJoin(KeptEvents(Flat(units[..n])), KeptEvents(u.parts), from);
  }

  lemma AllUnitEventsOfOne(u: Unit)
    requires |u.parts| > 0
    ensures AllUnitEvents([u]) == UnitEvents(u)
  {
    assert [u][1..] == [];
  }

  /** A page's events end at the last row it consumes. */
  lemma UnitsEndThere(rows: seq<Row>, from: int, units: seq<Unit>, changed: seq<Unit>, fold: bool)
    requires ResolveAll(rows, from) == Ok(units) && Ascending(rows, from) && rows != []
    requires changed == if fold then FoldedUnits(units, from) else units
    ensures forall u | u in changed :: |u.parts| > 0
    ensures LastCursor(AllUnitEvents(changed), from) == LastRowCursor(rows, from)
    ensures LastCursor(KeptEvents(Flat(changed)), from) == LastRowCursor(rows, from)
  {
    hide ResolveAll, Ascending, AllUnitEvents, KeptEvents, FoldedUnits, Placed, Fresh, SameUnits, Flat, LastCursor;
    ShapedUnits(rows, from, units, changed, fold);
    SameUnitsReflexive(units);
    PlacedUnits(rows, from, units, units);
    PlacedUnits(rows, from, units, changed);
    PlacedLength(rows, changed);
    LastAscendingKept(rows, from, units);
    UnitsEndAtRow(rows, changed, from);
  }

  lemma CompoundPageEnds(rows: seq<Row>, from: int, units: seq<Unit>, fold: bool)
    requires ResolveAll(rows, from) == Ok(units) && Ascending(rows, from) && rows != []
    ensures forall u | u in units :: |u.parts| > 0
    ensures CompoundPage(units, from, fold).rows == |rows|
    ensures CompoundPage(units, from, fold).nextCursor == LastRowCursor(rows, from)
    ensures LastCursor(CompoundPage(units, from, fold).events, from) == LastRowCursor(rows, from)
  {
    hide ResolveAll, Ascending, FoldedUnits, CompoundPage, AllUnitEvents, Chained, LastCursor, Flat, KeptEvents;
    ResolvedUnits(rows, from);
    ResolvedRow(rows, from, |rows| - 1);
    CompoundPageRows(units, from, fold);
    CompoundEvents(units, from, fold);
    var changed := if fold then FoldedUnits(units, from) else units;
    UnitsEndThere(rows, from, units, changed, fold);
    ChainedLastCursor(AllUnitEvents(changed), from);
  }

  lemma ResolvedRow(rows: seq<Row>, from: int, i: nat)
    requires ResolveAll(rows, from).Ok? && i < |rows|
    ensures |ResolveAll(rows, from).value| == |rows| && ResolveAll(rows, from).value[i].row == rows[i]
  {
    hide ResolveAll, SplitOf;
    ResolvedUnits(rows, from);
  }

  lemma ClassicPageEnds(rows: seq<Row>, from: int, units: seq<Unit>, maxEvents: nat)
    requires ResolveAll(rows, from) == Ok(units) && Ascending(rows, from) && rows != []
    ensures
      var page := Expanded(units, from, maxEvents);
      && 0 < page.rows <= |rows|
      && page.nextCursor == LastRowCursor(rows[..page.rows], from) == LastCursor(page.events, from)
  {
    hide ResolveAll, Ascending, Expanded, KeptEvents, Flat, LastCursor, LastRowCursor;
    ResolvedRow(rows, from, 0);
    ExpandedPage(units, from, maxEvents);
    PrefixEnds(rows, from, units, Expanded(units, from, maxEvents).rows);
  }

  lemma PrefixEnds(rows: seq<Row>, from: int, units: seq<Unit>, n: nat)
    requires ResolveAll(rows, from) == Ok(units) && Ascending(rows, from) && 0 < n <= |rows|
    ensures |units| == |rows| && units[n - 1].row.cursor == LastRowCursor(rows[..n], from)
    ensures LastCursor(KeptEvents(Flat(units[..n])), from) == LastRowCursor(rows[..n], from)
  {
    hide ResolveAll, Ascending, AllUnitEvents, KeptEvents, Flat, LastCursor, FoldedUnits;
    ResolvedRow(rows, from, n - 1);
    ResolvedPrefix(rows, from, n);
    AscendingPrefix(rows, from, n);
    UnitsEndThere(rows[..n], from, units[..n], units[..n], false);
  }

  /** A page ends at its next cursor, the cursor of the last row it consumed, so only its events can break the chain. */
  lemma PageEndsAtNextCursor(rows: seq<Row>, from: int, opts: Options, page: Page)
    requires PageOf(rows, from, opts) == Ok(page) && Ascending(rows, from)
    ensures page.rows <= |rows| && (rows != [] ==> page.rows > 0)
    ensures page.nextCursor == LastRowCursor(rows[..page.rows], from) == LastCursor(page.events, from)
    ensures PageBreaks(page, opts.compound, from) == Breaks(page.events, opts.compound, from)
  {
    hide ResolveAll, Ascending, CompoundPage, Expanded, Breaks;
    if rows == [] {
      NoRowsNoEvents(from, opts);
    } else {
      var units := ResolveAll(rows, from).value;
      assert rows[..|rows|] == rows;
      if opts.compound {
        CompoundPageEnds(rows, from, units, opts.fold);
      } else {
        ClassicPageEnds(rows, from, units, opts.maxEvents);
      }
    }
  }

  lemma ExpandedPage(units: seq<Unit>, from: int, maxEvents: nat)
    ensures
      var page := Expanded(units, from, maxEvents);
      && page.rows <= |units| && (units != [] ==> page.rows > 0)
      && page.events == KeptEvents(Flat(units[..page.rows]))
      && page.nextCursor == if page.rows == 0 then from else units[page.rows - 1].row.cursor
  {
    UnitsThatFitBound(units, 0, 0, maxEvents);
  }

  lemma NoRowsNoEvents(from: int, opts: Options)
    ensures PageOf([], from, opts).Ok? && PageOf([], from, opts).value.events == []
    ensures PageOf([], from, opts).value.rows == 0 && PageOf([], from, opts).value.nextCursor == from
  {
    assert ResolveAll([], from) == Ok([]) && Flat([]) == [] && KeptEvents([]) == [] && AllUnitEvents([]) == [];
    assert |FoldedUnits([], from)| == 0;
  }

  /** The last part of the last row is after every earlier cursor, so it is kept. */
  lemma LastAscendingKept(rows: seq<Row>, from: int, units: seq<Unit>)
    requires Placed(rows, units) && Ascending(rows, from) && rows != []
    requires Fresh(Flat(units), from)
    ensures Flat(units) != [] && Flat(units)[|Flat(units)| - 1].kept
  {
    hide Ascending;
    AscendingLast(rows, from);
    LastFlatPart(units);
  }
}
