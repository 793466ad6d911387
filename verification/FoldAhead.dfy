/**
 The backtest's count of unread events that a folded page sends ahead of their session, read off the
 unfolded events and the sessions delivered before the page.
 */
module FoldAhead {
  import opened Wrappers
  import opened SyncModel
  import opened SyncFold
  import opened SyncClient
  import opened FoldState
  import opened FoldChain
  import opened FoldCoverage

  // ---------- what outlives folding, read off the unfolded events ----------

  /** b is a later state of a's entity, of the same kind. */
  predicate SameState(a: Event, b: Event) {
    b.kind == a.kind && b.entity == a.entity && b.entityID == a.entityID && !b.tombstone
  }

  /** The event after i that a client is left with in place of event i. */
  ghost predicate IsLastState(events: seq<Event>, i: nat, j: nat)
    requires i < j < |events|
  {
    SameState(events[i], events[j]) && forall k | j < k < |events| :: !SameState(events[i], events[k])
  }

  /** A session or member event is not folded away: a tombstone, the last of its states, or a receipt of its own. */
  ghost predicate Outlives(events: seq<Event>, i: nat)
    requires i < |events|
  {
    events[i].tombstone ||
    forall j | i < j < |events| && IsLastState(events, i, j) ::
      events[i].commandID != "" && events[i].commandID != events[j].commandID
  }

  predicate IsStateKind(e: Event) {
    e.entity == SESSION || e.entity == SESSION_MEMBER
  }

  lemma StateKeySame(p: Part, q: Part)
    requires NulFree(p.kind) && NulFree(q.kind) && IsFoldableState(p)
    ensures IsFoldableState(q) && StateKey(q) == StateKey(p) <==> SameState(EventOf(p), EventOf(q))
  {
    if IsFoldableState(q) && StateKey(q) == StateKey(p) {
      StateKeyDetermines(p, q);
    }
  }

  lemma KeptMeansOutlives(orig: seq<Part>, i: nat)
    requires AllKept(orig) && (forall p | p in orig :: NulFree(p.kind)) && i < |orig|
    requires IsStateKind(EventOf(orig[i]))
    ensures FoldedPart(orig, i).kept <==> Outlives(Events(orig), i)
  {
    hide StateKey, NulFree;
    var p, events := orig[i], Events(orig);
    assert p in orig;
    if !p.tombstone {
      var c := StateClass(StateKey(p));
      assert ClassOf(p) == Some(c);
      var last := LastIn(orig, c);
      assert InClass(p, c);
      forall k | 0 <= k < |orig| ensures InClass(orig[k], c) <==> SameState(events[i], events[k]) {
        assert orig[k] in orig;
        StateKeySame(p, orig[k]);
      }
      if last > i {
        assert IsLastState(events, i, last);
        forall j | i < j < |events| && IsLastState(events, i, j) ensures j == last {
        }
      }
    }
  }

  // ---------- what a folded page has sent before an event ----------

  /** The sessions delivered before the page or with an upsert on it, and no surviving removal since. */
  ghost function OfferedBefore(delivered: set<string>, events: seq<Event>, n: nat): set<string>
    requires n <= |events|
  {
    if n == 0 then delivered
    else
      var before, e := OfferedBefore(delivered, events, n - 1), events[n - 1];
      if IsSessionUpsertEvent(e) then before + {e.entityID}
      else if IsSessionRemoveEvent(e) && Outlives(events, n - 1) then before - {e.entityID}
      else before
  }

  /** The sessions delivered before the page, and no surviving removal since. */
  ghost function DeliveredBefore(delivered: set<string>, events: seq<Event>, n: nat): set<string>
    requires n <= |events|
  {
    if n == 0 then delivered
    else
      var before, e := DeliveredBefore(delivered, events, n - 1), events[n - 1];
      if IsSessionRemoveEvent(e) && Outlives(events, n - 1) then before - {e.entityID} else before
  }

  /** The sessions with a surviving upsert on the page, and no surviving removal since. */
  ghost function SentBefore(events: seq<Event>, n: nat): set<string>
    requires n <= |events|
  {
    if n == 0 then {}
    else
      var before, e := SentBefore(events, n - 1), events[n - 1];
      if IsSessionUpsertEvent(e) && Outlives(events, n - 1) then before + {e.entityID}
      else if IsSessionRemoveEvent(e) && Outlives(events, n - 1) then before - {e.entityID}
      else before
  }

  /** Without sessions delivered before, the sessions offered contain all the page has sent. */
  lemma {:induction false} NothingDelivered(events: seq<Event>, n: nat)
    requires n <= |events|
    ensures DeliveredBefore({}, events, n) == {}
  {
    if n > 0 {
      NothingDelivered(events, n - 1);
    }
  }

  /** Removals written as tombstones all outlive folding: then the page offers the sessions it shows unfolded. */
  lemma {:induction false} TombstonesOutlive(events: seq<Event>, n: nat)
    requires n <= |events|
    requires forall e | e in events && IsSessionRemoveEvent(e) :: e.tombstone
    ensures OfferedBefore({}, events, n) == CoveredAfter(events[..n])
  {
    if n > 0 {
      hide IsSessionUpsertEvent, IsSessionRemoveEvent;
      TombstonesOutlive(events, n - 1);
      assert events[..n][..n - 1] == events[..n - 1];
      assert events[n - 1] in events;
    }
  }

  // ---------- the same, of the parts of a page ----------

  /** The sessions whose upsert was delivered up to cursor `from`. */
  ghost function DeliveredIn(events: seq<Event>, from: int): set<string> {
    if events == [] then {}
    else
      var before, e := DeliveredIn(events[..|events| - 1], from), events[|events| - 1];
      if IsSessionUpsertEvent(e) && e.cursor <= from then before + {e.entityID} else before
  }

  /** The first d parts were delivered up to `from`; the others were not, and are kept. */
  ghost predicate DeliveredFirst(parts: seq<Part>, from: int, d: nat) {
    && d <= |parts|
    && (forall i | 0 <= i < d :: !parts[i].kept && parts[i].cursor <= from)
    && (forall i | d <= i < |parts| :: parts[i].kept && parts[i].cursor > from)
  }

  /** Delivered parts take no part in folding. */
  lemma FoldedOfRest(orig: seq<Part>, from: int, d: nat, n: nat)
    requires DeliveredFirst(orig, from, d) && n < |orig| - d
    ensures FoldedPart(orig, d + n) == FoldedPart(orig[d..], n)
  {
    hide InClass;
    var rest, p := orig[d..], orig[d + n];
    if ClassOf(p).Some? {
      var c := ClassOf(p).value;
      var l, r := LastIn(orig, c), LastIn(rest, c);
      SelfInClass(p);
      assert rest[n] == p;
      assert l >= d + n && rest[l - d] == orig[l];
      assert r >= n && orig[d + r] == rest[r];
      assert l == d + r;
    }
  }

  lemma SelfInClass(p: Part)
    requires p.kept && ClassOf(p).Some?
    ensures InClass(p, ClassOf(p).value)
  {
  }

  /** A folded part, seen as the event it was before. */
  lemma FoldedEvent(orig: seq<Part>, folded: seq<Part>, m: nat)
    requires SameButKept(folded, orig) && m < |orig|
    ensures
      var p, e := folded[m], Events(orig)[m];
      && IsSessionUpsert(p) == IsSessionUpsertEvent(e) && IsSessionRemove(p) == IsSessionRemoveEvent(e)
      && p.entityID == e.entityID && p.cursor == e.cursor == orig[m].cursor
      && !(IsSessionUpsert(p) && IsSessionRemove(p))
  {
    assert folded[m].(kept := orig[m].kept) == orig[m];
    SameKind(folded[m], orig[m]);
    SameSessionKind(orig[m]);
    UpsertIsNoRemove(orig[m]);
  }

  lemma DeliveredInStep(events: seq<Event>, from: int, n: nat)
    requires n < |events|
    ensures
      var e := events[n];
      DeliveredIn(events[..n + 1], from) ==
        if IsSessionUpsertEvent(e) && e.cursor <= from then DeliveredIn(events[..n], from) + {e.entityID}
        else DeliveredIn(events[..n], from)
  {
    assert events[..n + 1][..n] == events[..n];
  }

  /** Before its first new part, a folded page has offered what was delivered and sent nothing. */
  lemma {:induction false} FirstStanding(orig: seq<Part>, folded: seq<Part>, from: int, d: nat, m: nat)
    requires DeliveredFirst(orig, from, d) && SameButKept(folded, orig) && m <= d
    requires forall i | 0 <= i < |orig| && folded[i].kept :: orig[i].kept
    ensures Offered(folded[..m]) == Delivered(folded[..m], from) == DeliveredIn(Events(orig)[..m], from)
    ensures Cover(folded[..m]) == {}
  {
    assert |folded| == |orig|;
    hide Offered, Delivered, Cover, DeliveredIn, Events, IsSessionUpsert, IsSessionRemove, SameButKept;
    if m > 0 {
      var n := m - 1;
      FirstStanding(orig, folded, from, d, n);
      assert !folded[n].kept && orig[n].cursor <= from;
      FoldedEvent(orig, folded, n);
      OfferedStep(folded, n);
      DeliveredStep(folded, from, n);
      CoverStep(folded, n);
      DeliveredInStep(Events(orig), from, n);
    } else {
      NoneStanding(folded, Events(orig), from);
    }
  }

  lemma NoneStanding(folded: seq<Part>, events: seq<Event>, from: int)
    ensures Offered(folded[..0]) == Delivered(folded[..0], from) == Cover(folded[..0]) == {}
    ensures DeliveredIn(events[..0], from) == {}
  {
  }

  lemma SameID(p: Part)
    ensures EventOf(p).entityID == p.entityID
  {
  }

  lemma {:induction false} DeliveredInFirst(events: seq<Event>, from: int, d: nat)
    requires d <= |events| && forall i | d <= i < |events| :: events[i].cursor > from
    ensures DeliveredIn(events, from) == DeliveredIn(events[..d], from)
  {
    if d < |events| {
      var n := |events| - 1;
      DeliveredInFirst(events[..n], from, d);
      assert events[..n][..d] == events[..d];
    } else {
      assert events[..d] == events;
    }
  }

  /** Part d + n of the folded page: what it has offered and sent, and what was delivered, before. */
  lemma {:induction false} Standing(orig: seq<Part>, from: int, d: nat, n: nat)
    requires DeliveredFirst(orig, from, d) && n <= |orig| - d
    requires forall p | p in orig :: NulFree(p.kind)
    ensures
      var folded, delivered, events := FoldedFrom(orig, 0), DeliveredIn(Events(orig), from), Events(orig[d..]);
      && Offered(folded[..d + n]) == OfferedBefore(delivered, events, n)
      && Delivered(folded[..d + n], from) == DeliveredBefore(delivered, events, n)
      && Cover(folded[..d + n]) == SentBefore(events, n)
  {
    hide Offered, Delivered, Cover, DeliveredIn, DeliveredFirst, Outlives, FoldedPart, FoldedFrom, NulFree;
    hide Events, IsSessionUpsert, IsSessionRemove, IsSessionUpsertEvent, IsSessionRemoveEvent, IsStateKind;
    hide SameButKept;
    var folded := FoldedFrom(orig, 0);
    FoldedParts(orig);
    if n > 0 {
      var m := d + n - 1;
      Standing(orig, from, d, n - 1);
      OfferedStep(folded, m);
      DeliveredStep(folded, from, m);
      CoverStep(folded, m);
      FoldedEvent(orig, folded, m);
      RestEvent(orig, from, d, n - 1);
      SessionIsState(Events(orig)[m]);
      if IsStateKind(Events(orig)[m]) {
        SurvivalOfRest(orig, from, d, n - 1);
      }
    } else {
      FirstIsWithin(orig, from, d);
      FirstStanding(orig, folded, from, d, d);
      AfterFirst(orig, from, d);
    }
  }

  lemma FirstIsWithin(orig: seq<Part>, from: int, d: nat)
    requires DeliveredFirst(orig, from, d)
    ensures d <= |orig|
  {
  }

  lemma RestEvent(orig: seq<Part>, from: int, d: nat, n: nat)
    requires DeliveredFirst(orig, from, d) && n < |orig| - d
    ensures |Events(orig[d..])| == |orig| - d && Events(orig[d..])[n] == Events(orig)[d + n] == EventOf(orig[d + n])
    ensures Events(orig)[d + n].cursor > from
  {
  }

  lemma AfterFirst(orig: seq<Part>, from: int, d: nat)
    requires DeliveredFirst(orig, from, d)
    ensures DeliveredIn(Events(orig)[..d], from) == DeliveredIn(Events(orig), from)
  {
    DeliveredInFirst(Events(orig), from, d);
  }

  lemma SessionIsState(e: Event)
    ensures IsSessionUpsertEvent(e) || IsSessionRemoveEvent(e) ==> IsStateKind(e)
  {
  }

  lemma SurvivalOfRest(orig: seq<Part>, from: int, d: nat, n: nat)
    requires DeliveredFirst(orig, from, d) && n < |orig| - d
    requires forall p | p in orig :: NulFree(p.kind)
    requires IsStateKind(EventOf(orig[d + n]))
    ensures FoldedPart(orig, d + n).kept <==> Outlives(Events(orig[d..]), n)
  {
    hide FoldedPart, Outlives, NulFree, IsStateKind;
    FoldedOfRest(orig, from, d, n);
    RestKept(orig, from, d);
    assert forall p | p in orig[d..] :: p in orig;
    KeptMeansOutlives(orig[d..], n);
  }

  lemma RestKept(orig: seq<Part>, from: int, d: nat)
    requires DeliveredFirst(orig, from, d)
    ensures AllKept(orig[d..])
  {
  }

  // ---------- the backtest's count ----------

  ghost predicate IsLastUnread(events: seq<Event>, j: nat)
    requires j < |events|
  {
    && IsUnread(events[j])
    && forall k | j < k < |events| && IsUnread(events[k]) :: UnreadKeyOf(events[k]) != UnreadKeyOf(events[j])
  }

  lemma KeptStep(parts: seq<Part>, n: nat)
    requires n < |parts|
    ensures KeptEvents(parts[..n + 1]) ==
            if parts[n].kept then KeptEvents(parts[..n]) + [EventOf(parts[n])] else KeptEvents(parts[..n])
  {
    assert parts[..n + 1] == parts[..n] + [parts[n]];
    KeptEventsAppend(parts[..n], [parts[n]]);
    assert KeptEvents([parts[n]]) == KeptEvent(parts[n]);
  }

  /** The table of the unfolded page remembers, for each key, what the last unread with that key found. */
  lemma {:induction false} CoveredBeforeAt(events: seq<Event>, m: nat, j: nat)
    requires j < m <= |events| && IsLastUnread(events, j)
    ensures
      var known, key := CoveredBefore(events[..m]), UnreadKeyOf(events[j]);
      key in known && known[key] == (events[j].entityID in CoveredAfter(events[..j]))
  {
    hide IsUnread, CoveredAfter, UnreadKeyOf;
    assert events[..m][..m - 1] == events[..m - 1];
    if j < m - 1 {
      CoveredBeforeAt(events, m - 1, j);
    }
  }

  lemma {:induction false} LastUnreadExists(events: seq<Event>, i: nat, m: nat) returns (j: nat)
    requires i < m <= |events| && IsUnread(events[i])
    requires forall k | m <= k < |events| && IsUnread(events[k]) :: UnreadKeyOf(events[k]) != UnreadKeyOf(events[i])
    ensures i <= j < m && IsLastUnread(events, j) && UnreadKeyOf(events[j]) == UnreadKeyOf(events[i])
    decreases m
  {
    hide IsUnread, UnreadKeyOf;
    if IsUnread(events[m - 1]) && UnreadKeyOf(events[m - 1]) == UnreadKeyOf(events[i]) {
      j := m - 1;
    } else {
      j := LastUnreadExists(events, i, m - 1);
    }
  }

  /** Event i is counted: it finds no session, although the table says its key does. */
  ghost predicate IsAhead(known: map<UnreadKey, bool>, parts: seq<Part>, i: nat)
    requires i < |parts|
  {
    var e := EventOf(parts[i]);
    && parts[i].kept && IsUnread(e) && e.entityID !in Cover(parts[..i])
    && UnreadKeyOf(e) in known && known[UnreadKeyOf(e)]
  }

  lemma AheadCountSnoc(known: map<UnreadKey, bool>, events: seq<Event>, e: Event)
    ensures AheadCount(known, events + [e]) ==
            AheadCount(known, events) +
            if IsUnread(e) && e.entityID !in CoveredAfter(events) && UnreadKeyOf(e) in known && known[UnreadKeyOf(e)]
            then 1 else 0
  {
    hide IsUnread, UnreadKeyOf, CoveredAfter;
    assert (events + [e])[..|events|] == events;
  }

  lemma AheadStep(known: map<UnreadKey, bool>, parts: seq<Part>, n: nat)
    requires n < |parts|
    ensures AheadCount(known, KeptEvents(parts[..n + 1])) ==
            AheadCount(known, KeptEvents(parts[..n])) + if IsAhead(known, parts, n) then 1 else 0
  {
    hide IsUnread, Cover, CoveredAfter, UnreadKeyOf, AheadCount, KeptEvents, EventOf;
    KeptStep(parts, n);
    CoverIsClientView(parts[..n]);
    AheadCountSnoc(known, KeptEvents(parts[..n]), EventOf(parts[n]));
  }

  lemma NothingAhead(known: map<UnreadKey, bool>, parts: seq<Part>)
    ensures AheadCount(known, KeptEvents(parts[..0])) == 0
  {
  }

  lemma {:induction false} CountIsZero(known: map<UnreadKey, bool>, parts: seq<Part>, m: nat)
    requires m <= |parts|
    ensures AheadCount(known, KeptEvents(parts[..m])) == 0 <==> forall i | 0 <= i < m :: !IsAhead(known, parts, i)
  {
    hide IsAhead, AheadCount, KeptEvents;
    if m > 0 {
      CountIsZero(known, parts, m - 1);
      AheadStep(known, parts, m - 1);
    } else {
      NothingAhead(known, parts);
    }
  }

  lemma UnreadIsState(p: Part)
    ensures IsUnread(EventOf(p)) ==> IsUnreadState(p) && IsStateKind(EventOf(p)) && !IsSessionUpsert(p)
  {
  }

  /** The page does not send the session before event i: it is unknown there, or known only from before the page. */
  ghost predicate LacksSession(delivered: set<string>, events: seq<Event>, i: nat)
    requires i < |events|
  {
    var id := events[i].entityID;
    id !in OfferedBefore(delivered, events, i)
    || (id in DeliveredBefore(delivered, events, i) && id !in SentBefore(events, i))
  }

  /**
   Event i, an unread that outlives folding, lacks its session on the folded page, but event j, the last unread with
   the same kind, session and version, finds it on the unfolded one.
   */
  ghost predicate AheadOfSession(delivered: set<string>, events: seq<Event>, i: nat, j: nat)
    requires i <= j < |events|
  {
    && IsUnread(events[i]) && Outlives(events, i) && LacksSession(delivered, events, i)
    && IsLastUnread(events, j) && UnreadKeyOf(events[j]) == UnreadKeyOf(events[i])
    && events[j].entityID in CoveredAfter(events[..j])
  }

  ghost predicate IsCounted(delivered: set<string>, events: seq<Event>, i: nat)
    requires i < |events|
  {
    exists j | i <= j < |events| :: AheadOfSession(delivered, events, i, j)
  }

  ghost predicate SomeAhead(delivered: set<string>, events: seq<Event>) {
    exists i | 0 <= i < |events| :: IsCounted(delivered, events, i)
  }

  lemma {:induction false} CoveredIsOffered(delivered: set<string>, events: seq<Event>, n: nat)
    requires n <= |events|
    ensures CoveredAfter(events[..n]) <= OfferedBefore(delivered, events, n)
  {
    if n > 0 {
      hide IsSessionUpsertEvent, IsSessionRemoveEvent;
      CoveredIsOffered(delivered, events, n - 1);
      assert events[..n][..n - 1] == events[..n - 1];
    }
  }

  /** When no session was delivered before, such an unread is repeated after its session: event j is a later one. */
  lemma AheadIsRepeated(events: seq<Event>, i: nat, j: nat)
    requires i <= j < |events| && AheadOfSession({}, events, i, j)
    ensures i < j && events[i].entityID !in OfferedBefore({}, events, i)
  {
    NothingDelivered(events, i);
    CoveredIsOffered({}, events, i);
  }

  /** One part of a folded page is counted exactly if it is such an unread. */
  lemma AheadExactly(orig: seq<Part>, from: int, d: nat, i: nat)
    requires DeliveredFirst(orig, from, d) && i < |orig| - d
    requires forall p | p in orig :: NulFree(p.kind)
    ensures
      var events := Events(orig[d..]);
      IsAhead(CoveredBefore(events), FinalParts(orig, from), d + i)
      <==> IsCounted(DeliveredIn(Events(orig), from), events, i)
  {
    hide NulFree, FinalParts, FoldedFrom, FoldedPart, Cover, Delivered, Offered, OfferedBefore, DeliveredBefore;
    hide SentBefore, Outlives, IsUnread, IsUnreadState, IsStateKind, CoveredBefore, CoveredAfter, UnreadKeyOf;
    hide IsSessionUpsert, DeliveredIn, EventOf, DeliveredFirst;
    var events, delivered, m := Events(orig[d..]), DeliveredIn(Events(orig), from), d + i;
    var folded, final := FoldedFrom(orig, 0), FinalParts(orig, from);
    var known, e := CoveredBefore(events), EventOf(final[m]);
    FinalIsFolded(orig, from, m);
    assert e == events[i];
    if IsUnread(e) {
      UnreadIsState(orig[m]);
      UnreadIsState(final[m]);
      SurvivalOfRest(orig, from, d, i);
      FirstOnly(orig, from, d);
      SentExactly(orig, from, d, m);
      Standing(orig, from, d, i);
      SameID(orig[m]);
      var j := LastUnreadExists(events, i, |events|);
      assert events[..|events|] == events;
      CoveredBeforeAt(events, |events|, j);
      SameKeySameSession(events[i], events[j]);
      forall k | i <= k < |events| && AheadOfSession(delivered, events, i, k) ensures k == j {
        LastUnreadUnique(events, j, k);
      }
      assert IsAhead(known, final, m) <==> AheadOfSession(delivered, events, i, j);
    }
  }

  lemma FirstOnly(orig: seq<Part>, from: int, d: nat)
    requires DeliveredFirst(orig, from, d)
    ensures OnlyFirstDelivered(orig, from, d)
  {
  }

  /** Folding leaves an unread part as the first pass decided. */
  lemma FinalIsFolded(orig: seq<Part>, from: int, m: nat)
    requires m < |orig|
    ensures EventOf(FinalParts(orig, from)[m]) == EventOf(orig[m])
    ensures IsUnread(EventOf(orig[m])) ==> FinalParts(orig, from)[m].kept == FoldedPart(orig, m).kept
  {
    hide FinalParts, FoldedFrom, FoldedPart, IsUnread, IsUnreadState, IsSessionUpsert;
    var folded, final := FoldedFrom(orig, 0), FinalParts(orig, from);
    FoldedUnreadFindsSession(orig, from, m);
    FoldedParts(orig);
    assert folded[m].(kept := orig[m].kept) == orig[m];
    assert final[m] == folded[m] || final[m] == folded[m].(kept := true);
    KeptFlag(folded[m], orig[m]);
    KeptFlag(final[m], folded[m]);
    UnreadIsState(folded[m]);
  }

  lemma SameKeySameSession(a: Event, b: Event)
    requires UnreadKeyOf(a) == UnreadKeyOf(b)
    ensures a.entityID == b.entityID
  {
  }

  lemma LastUnreadUnique(events: seq<Event>, j: nat, k: nat)
    requires j < |events| && k < |events| && IsLastUnread(events, j) && IsLastUnread(events, k)
    requires UnreadKeyOf(events[j]) == UnreadKeyOf(events[k])
    ensures j == k
  {
  }

  lemma {:induction false} ContentDecidesCovered(a: seq<Event>, b: seq<Event>)
    requires Contents(a) == Contents(b)
    ensures CoveredAfter(a) == CoveredAfter(b)
    ensures CoveredBefore(a) == CoveredBefore(b)
  {
    if a != [] {
      hide IsUnread, IsSessionUpsertEvent, IsSessionRemoveEvent;
      var n := |a| - 1;
      assert Contents(a[..n]) == Contents(a)[..n] && Contents(b[..n]) == Contents(b)[..n];
      ContentDecidesCovered(a[..n], b[..n]);
      assert Contents(a)[n] == Contents(b)[n];
      SameEventKind(a[n], b[n]);
    }
  }

  lemma SameEventKind(a: Event, b: Event)
    requires Content(a) == Content(b)
    ensures IsUnread(a) == IsUnread(b) && UnreadKeyOf(a) == UnreadKeyOf(b) && a.entityID == b.entityID
    ensures IsSessionUpsertEvent(a) == IsSessionUpsertEvent(b) && IsSessionRemoveEvent(a) == IsSessionRemoveEvent(b)
  {
  }

  lemma {:induction false} ContentDecidesAhead(known: map<UnreadKey, bool>, a: seq<Event>, b: seq<Event>)
    requires Contents(a) == Contents(b)
    ensures AheadCount(known, a) == AheadCount(known, b)
  {
    if a != [] {
      hide IsUnread, IsSessionUpsertEvent, IsSessionRemoveEvent, CoveredAfter;
      var n := |a| - 1;
      assert Contents(a[..n]) == Contents(a)[..n] && Contents(b[..n]) == Contents(b)[..n];
      ContentDecidesAhead(known, a[..n], b[..n]);
      ContentDecidesCovered(a[..n], b[..n]);
      assert Contents(a)[n] == Contents(b)[n];
      SameEventKind(a[n], b[n]);
    }
  }

  lemma {:induction false} AllKeptEvents(parts: seq<Part>)
    requires AllKept(parts)
    ensures KeptEvents(parts) == Events(parts)
  {
    if parts != [] {
      hide EventOf;
      var n := |parts| - 1;
      AllKeptEvents(parts[..n]);
      KeptEventsStep(parts, n);
      assert parts[..n + 1] == parts;
      assert Events(parts) == Events(parts[..n]) + [EventOf(parts[n])];
    }
  }

  /** What the backtest counts as unread ahead of its session. */
  ghost function AheadBetween(plain: seq<Event>, shaped: seq<Event>): nat
    requires AllClientParts(plain).Ok? && AllClientParts(shaped).Ok?
  {
    AheadCount(CoveredBefore(AllClientParts(plain).value), AllClientParts(shaped).value)
  }

  // ---------- whole pages ----------

  /** Over the parts of a page: the count is zero exactly if no such unread exists. */
  lemma FoldedPartsAhead(orig: seq<Part>, from: int, d: nat)
    requires DeliveredFirst(orig, from, d) && Fresh(orig, from) && forall p | p in orig :: NulFree(p.kind)
    ensures AheadCount(CoveredBefore(KeptEvents(orig)), KeptEvents(FinalParts(orig, from))) == 0
            <==> !SomeAhead(DeliveredIn(Events(orig), from), KeptEvents(orig))
  {
    hide FinalParts, NulFree, CoveredBefore, KeptEvents, AheadCount, IsCounted, IsAhead, DeliveredIn, Fresh;
    var final, events := FinalParts(orig, from), Events(orig[d..]);
    var known, delivered := CoveredBefore(events), DeliveredIn(Events(orig), from);
    KeptAreRest(orig, from, d);
    CountIsZero(known, final, |orig|);
    assert final[..|orig|] == final;
    forall m | d <= m < |orig| ensures IsAhead(known, final, m) <==> IsCounted(delivered, events, m - d) {
      AheadExactly(orig, from, d, m - d);
    }
    forall m | 0 <= m < d ensures !IsAhead(known, final, m) {
      DeliveredNotAhead(known, orig, from, m);
    }
    if i :| 0 <= i < |events| && IsCounted(delivered, events, i) {
      assert IsAhead(known, final, d + i);
    }
  }

  lemma DeliveredNotAhead(known: map<UnreadKey, bool>, orig: seq<Part>, from: int, m: nat)
    requires Fresh(orig, from) && m < |orig| && !orig[m].kept
    ensures !IsAhead(known, FinalParts(orig, from), m)
  {
    hide FinalParts, Cover, IsUnread;
    FinalKeepsFolded(orig, from);
  }

  /** The events a page sends unfolded are those of its parts after the delivered ones. */
  lemma KeptAreRest(orig: seq<Part>, from: int, d: nat)
    requires DeliveredFirst(orig, from, d)
    ensures KeptEvents(orig) == Events(orig[d..])
  {
    assert orig == orig[..d] + orig[d..];
    KeptEventsAppend(orig[..d], orig[d..]);
    NoneKept(orig[..d]);
    RestKept(orig, from, d);
    AllKeptEvents(orig[d..]);
  }

  /** The parts of one row that were delivered are its first ones. */
  lemma RowParts(row: Row, from: int, u: Unit) returns (d: nat)
    requires Resolve(row, from) == Ok(u) && row.cursor > from
    ensures DeliveredFirst(u.parts, from, d)
  {
    hide Resolve, SplitOf;
    ResolvedConsecutive(row, from, u);
    ResolvedFresh(row, from, u);
    var low := row.cursor - |u.parts|;
    d := if from > low then from - low else 0;
  }

  lemma FirstThenNew(first: seq<Part>, rest: seq<Part>, from: int, d: nat)
    requires DeliveredFirst(first, from, d) && AllKept(rest) && Fresh(rest, from)
    ensures DeliveredFirst(first + rest, from, d)
  {
    forall i | 0 <= i < |rest| ensures rest[i].kept && rest[i].cursor > from {
      assert rest[i] in rest;
    }
  }

  /** Rows of which only the first was delivered in part have only first parts delivered. */
  lemma ResumedParts(rows: seq<Row>, from: int, units: seq<Unit>) returns (d: nat)
    requires ResolveAll(rows, from) == Ok(units) && Resumes(rows, from)
    ensures DeliveredFirst(Flat(units), from, d)
  {
    d := 0;
    if rows != [] {
      hide Resolve, SplitOf, ResolveAll, Flat, DeliveredFirst, Fresh, AllKept, InOrder;
      FirstUnit(rows, from, units);
      d := RowParts(rows[0], from, units[0]);
      InOrderKeepsAll(rows[1..], from, rows[0].cursor, units[1..]);
      FlatFresh(rows[1..], from, units[1..]);
      FirstThenNew(units[0].parts, Flat(units[1..]), from, d);
    } else {
      assert Flat(units) == [];
    }
  }

  /** An unread of these events, some of them delivered up to `from`, is counted on their folded page. */
  ghost predicate CountsAhead(events: seq<Event>, from: int) {
    SomeAhead(DeliveredIn(events, from), EventsAfter(events, from))
  }

  /**
   On a page of which only the first row may have been delivered in part, the backtest counts no unread ahead of its
   session exactly if the rows' events, and the sessions delivered before, have no such unread.
   */
  lemma ShapedPageAhead(rows: seq<Row>, from: int, shaped: Options, plain: Page, page: Page)
    requires ReadableRows(rows) && Resumes(rows, from)
    requires shaped.compound && shaped.fold
    requires PageOf(rows, from, Options(false, false, 0)) == Ok(plain)
    requires PageOf(rows, from, shaped) == Ok(page)
    ensures AllClientParts(plain.events).Ok? && AllClientParts(page.events).Ok? && Stream(rows).Ok?
    ensures plain.events == EventsAfter(Stream(rows).value, from)
    ensures AheadBetween(plain.events, page.events) == 0 <==> !CountsAhead(Stream(rows).value, from)
  {
    hide ResolveAll, FinalParts, AllClientParts, CompoundPage, Resumes, NulFree, DeliveredFirst, Stream, EventsAfter;
    hide AheadCount, CoveredBefore, KeptEvents, Flat, SomeAhead, DeliveredIn, Fresh;
    var units := ResolveAll(rows, from).value;
    var orig, final := Flat(units), FinalParts(Flat(units), from);
    ResolvedUnits(rows, from);
    AllUnitsFit(units, from);
    ExpandedPartsStaySplit(rows, from, units);
    CompoundPageSplits(rows, from, units, true);
    FlatFacts(rows, from, units);
    var d := ResumedParts(rows, from, units);
    assert plain.events == KeptEvents(orig);
    FoldedPartsAhead(orig, from, d);
    FreshEvents(orig, from);
    StreamAnywhere(rows, from);
    ContentDecidesAhead(CoveredBefore(KeptEvents(orig)), AllClientParts(page.events).value, KeptEvents(final));
  }

  // ---------- a page on which the count is not zero ----------

  /** An unread with a command id of its own, then its session, then the same unread again. */
  function RepeatedUnreadRows(id: string, version: int, commandID: string): seq<Row> {
    [Row(1, UNREAD_SET, SESSION_MEMBER, id, version, false, commandID, 0, Null),
     Row(2, SESSION_UPSERT, SESSION, id, version, false, "", 0, Null),
     Row(3, UNREAD_SET, SESSION_MEMBER, id, version, false, "", 0, Null)]
  }

  function WholeParts(rows: seq<Row>): (r: seq<Part>)
    ensures |r| == |rows|
  {
    seq(|rows|, i requires 0 <= i < |rows| => WholePart(rows[i], 0))
  }

  /** The first unread is not folded away, nor is anything else here. */
  lemma RepeatedUnreadKept(id: string, version: int, commandID: string)
    requires commandID != ""
    ensures
      var parts := WholeParts(RepeatedUnreadRows(id, version, commandID));
      FoldedFrom(parts, 0) == parts
  {
    var parts := WholeParts(RepeatedUnreadRows(id, version, commandID));
    var first, upsert, last := parts[0], parts[1], parts[2];
    assert LastIn(parts, StateClass(StateKey(first))) == 2 by {
      assert InClass(parts[2], StateClass(StateKey(first)));
    }
    assert LastIn(parts, StateClass(StateKey(upsert))) == 1 by {
      assert InClass(parts[1], StateClass(StateKey(upsert)));
      assert StateKey(last) == UNREAD_SET + "\0" + (SESSION_MEMBER + "\0" + id);
      assert StateKey(upsert) == SESSION_UPSERT + "\0" + (SESSION + "\0" + id);
      assert StateKey(last)[9] == 'n' && StateKey(upsert)[9] == 'p';
    }
  }

  /** The scan finds nothing to keep again. */
  lemma RepeatedUnreadScanned(id: string, version: int, commandID: string)
    ensures
      var parts := WholeParts(RepeatedUnreadRows(id, version, commandID));
      KeepScan(parts, 0, 3).parts == parts
  {
    var parts := WholeParts(RepeatedUnreadRows(id, version, commandID));
    var s1, s2, s3 := KeepScan(parts, 0, 1), KeepScan(parts, 0, 2), KeepScan(parts, 0, 3);
    assert s1 == KeepStep(KeepScan(parts, 0, 0), 0, 0) && s1 == Scan(parts, map[], 0);
    assert s2 == KeepStep(s1, 1, 0) && s2 == Scan(parts, map[id := Existence(Some(1), true)], 0);
    assert s3 == KeepStep(s2, 2, 0);
  }

  /** The count compares the first unread event with what the last one found. */
  lemma RepeatedUnreadCount(first: Event, upsert: Event, last: Event)
    requires IsUnread(first) && IsUnread(last) && UnreadKeyOf(first) == UnreadKeyOf(last)
    requires IsSessionUpsertEvent(upsert) && upsert.entityID == first.entityID
    ensures AheadCount(CoveredBefore([first, upsert, last]), [first, upsert, last]) == 1
  {
    var events, key := [first, upsert, last], UnreadKeyOf(first);
    assert events[..2] == [first, upsert] && [first, upsert][..1] == [first] && [first][..0] == [];
    assert CoveredAfter([first]) == {} && CoveredAfter([first, upsert]) == {first.entityID};
    assert CoveredBefore([first]) == map[key := false];
    assert CoveredBefore([first, upsert]) == map[key := false];
    assert CoveredBefore(events) == map[key := true];
    assert AheadCount(map[key := true], [first]) == 1;
    assert AheadCount(map[key := true], [first, upsert]) == 1;
  }

  /** Units of three classic rows, all new. */
  lemma RepeatedUnreadUnits(id: string, version: int, commandID: string)
    ensures
      var rows := RepeatedUnreadRows(id, version, commandID);
      var parts := WholeParts(rows);
      var units := [Unit(rows[0], None, [parts[0]]), Unit(rows[1], None, [parts[1]]), Unit(rows[2], None, [parts[2]])];
      && ResolveAll(rows, 0) == Ok(units) && Flat(units) == parts
      && AllUnitEvents(units) == Events(parts) && KeptEvents(parts) == Events(parts)
      && Chained(Events(parts), 0) == Events(parts)
      && AllClientParts(Events(parts)) == Ok(Events(parts))
  {
    var rows := RepeatedUnreadRows(id, version, commandID);
    var parts := WholeParts(rows);
    var u, v, w := Unit(rows[0], None, [parts[0]]), Unit(rows[1], None, [parts[1]]), Unit(rows[2], None, [parts[2]]);
    assert rows[1..] == [rows[1], rows[2]] && rows[1..][1..] == [rows[2]] && rows[1..][1..][1..] == [];
    assert Resolve(rows[0], 0) == Ok(u) && Resolve(rows[1], 0) == Ok(v) && Resolve(rows[2], 0) == Ok(w);
    assert [w] + [] == [w] && [v] + [w] == [v, w] && [u] + [v, w] == [u, v, w];
    assert ResolveAll(rows[1..][1..][1..], 0) == Ok([]);
    assert ResolveAll(rows[1..][1..], 0) == Ok([w]) && ResolveAll(rows[1..], 0) == Ok([v, w]);
    assert ResolveAll(rows, 0) == Ok([u, v, w]);
    FlatOfThree(u, v, w);
    assert parts == u.parts + v.parts + w.parts;
    AllKeptEvents(parts);
    assert Events(parts) == [EventOf(parts[0]), EventOf(parts[1]), EventOf(parts[2])];
    ThreeClassicEvents(EventOf(parts[0]), EventOf(parts[1]), EventOf(parts[2]));
  }

  lemma FlatOfThree(u: Unit, v: Unit, w: Unit)
    requires |u.parts| == |v.parts| == |w.parts| == 1 && u.split.None? && v.split.None? && w.split.None?
    requires u.parts[0].kept && v.parts[0].kept && w.parts[0].kept
    ensures Flat([u, v, w]) == u.parts + v.parts + w.parts
    ensures AllUnitEvents([u, v, w]) == [EventOf(u.parts[0]), EventOf(v.parts[0]), EventOf(w.parts[0])]
  {
    assert [u, v, w][1..] == [v, w] && [v, w][1..] == [w] && [w][1..] == [];
    assert Flat([w]) == w.parts + Flat([]) == w.parts;
    assert Flat([v, w]) == v.parts + Flat([w]);
    assert Flat([u, v, w]) == u.parts + Flat([v, w]);
    LoneEvent(u);
    LoneEvent(v);
    LoneEvent(w);
    assert AllUnitEvents([w]) == UnitEvents(w) + AllUnitEvents([]) == UnitEvents(w);
    assert AllUnitEvents([v, w]) == UnitEvents(v) + AllUnitEvents([w]);
    assert AllUnitEvents([u, v, w]) == UnitEvents(u) + AllUnitEvents([v, w]);
  }

  lemma LoneEvent(u: Unit)
    requires |u.parts| == 1 && u.split.None? && u.parts[0].kept
    ensures UnitEvents(u) == [EventOf(u.parts[0])]
  {
    assert KeptEvents(u.parts) == KeptEvent(u.parts[0]) + KeptEvents(u.parts[1..]);
    assert u.parts[1..] == [];
  }

  lemma ThreeClassicEvents(a: Event, b: Event, c: Event)
    requires a.cursor == 1 && b.cursor == 2 && c.cursor == 3
    requires forall e | e in {a, b, c} :: !IsMessageUpsert(e.kind, e.entity)
    ensures Chained([a, b, c], 0) == [a, b, c]
    ensures AllClientParts([a, b, c]) == Ok([a, b, c])
  {
    assert [a, b, c][1..] == [b, c] && [b, c][1..] == [c] && [c][1..] == [];
    assert Chained([c], 2) == [c] && Chained([b, c], 1) == [b, c];
    assert AllClientParts([c]) == Ok([c]) && AllClientParts([b, c]) == Ok([b, c]);
  }

  /** The folded page of these rows is the unfolded one, event for event, and still the count is 1. */
  lemma RepeatedUnreadPage(id: string, version: int, commandID: string)
    requires ':' !in id && commandID != ""
    ensures
      var rows := RepeatedUnreadRows(id, version, commandID);
      var plain, page := PageOf(rows, 0, Options(false, false, 0)), PageOf(rows, 0, Options(true, true, 0));
      && plain.Ok? && page.Ok?
      && page.value.rows == 3 && page.value.events == plain.value.events
      && AllClientParts(plain.value.events).Ok?
      && AheadBetween(plain.value.events, page.value.events) == 1
  {
    hide KeepScan, FoldedFrom, AheadCount, CoveredBefore, ResolveAll, Flat, AllUnitEvents, AllClientParts, Chained;
    hide KeptEvents;
    var rows := RepeatedUnreadRows(id, version, commandID);
    var parts := WholeParts(rows);
    var units := [Unit(rows[0], None, [parts[0]]), Unit(rows[1], None, [parts[1]]), Unit(rows[2], None, [parts[2]])];
    RepeatedUnreadKept(id, version, commandID);
    RepeatedUnreadScanned(id, version, commandID);
    RepeatedUnreadUnits(id, version, commandID);
    RepeatedUnreadCount(EventOf(parts[0]), EventOf(parts[1]), EventOf(parts[2]));
    assert Events(parts) == [EventOf(parts[0]), EventOf(parts[1]), EventOf(parts[2])];
    AllUnitsFit(units, 0);
    assert FinalParts(parts, 0) == parts;
    ShapeAndPartsDetermine(FoldedUnits(units, 0), units);
  }
}
