/**
 After folding, an unread state that is sent still finds its session wherever it did before, among the
 sessions the page sends and those delivered before the page.
 */
module FoldCoverage {
  import opened Wrappers
  import opened SyncModel
  import opened SyncFold
  import opened SyncClient
  import opened FoldState
  import opened FoldChain

  // ---------- sessions sent by a page and sessions delivered before it ----------

  /** The sessions the kept parts send. */
  ghost function Cover(parts: seq<Part>): set<string> {
    if parts == [] then {}
    else
      var before, last := Cover(parts[..|parts| - 1]), parts[|parts| - 1];
      if !last.kept then before
      else if IsSessionUpsert(last) then before + {last.entityID}
      else if IsSessionRemove(last) then before - {last.entityID}
      else before
  }

  lemma {:induction false} CoverIsClientView(parts: seq<Part>)
    ensures Cover(parts) == CoveredAfter(KeptEvents(parts))
  {
    if parts != [] {
      hide KeptEvents, CoveredAfter, IsSessionUpsert, IsSessionRemove, IsSessionUpsertEvent, IsSessionRemoveEvent;
      var n := |parts| - 1;
      CoverIsClientView(parts[..n]);
      assert parts[..n + 1] == parts;
      KeptEventsStep(parts, n);
      SameSessionKind(parts[n]);
      CoveredAfterSnoc(KeptEvents(parts[..n]), EventOf(parts[n]));
    } else {
      assert KeptEvents(parts) == [];
    }
  }

  lemma CoveredAfterSnoc(events: seq<Event>, e: Event)
    ensures CoveredAfter(events + [e]) ==
            if IsSessionUpsertEvent(e) then CoveredAfter(events) + {e.entityID}
            else if IsSessionRemoveEvent(e) then CoveredAfter(events) - {e.entityID}
            else CoveredAfter(events)
  {
    hide IsSessionUpsertEvent, IsSessionRemoveEvent;
    assert (events + [e])[..|events|] == events;
  }

  lemma SameSessionKind(p: Part)
    ensures IsSessionUpsertEvent(EventOf(p)) == IsSessionUpsert(p)
            && IsSessionRemoveEvent(EventOf(p)) == IsSessionRemove(p)
  {
  }

  /** The sessions delivered before the page, by parts up to cursor `from`, and not removed by a kept part since. */
  ghost function Delivered(parts: seq<Part>, from: int): set<string> {
    if parts == [] then {}
    else
      var before, last := Delivered(parts[..|parts| - 1], from), parts[|parts| - 1];
      if IsSessionUpsert(last) && last.cursor <= from then before + {last.entityID}
      else if last.kept && IsSessionRemove(last) then before - {last.entityID}
      else before
  }

  lemma DeliveredStep(parts: seq<Part>, from: int, n: nat)
    requires n < |parts|
    ensures
      var p := parts[n];
      Delivered(parts[..n + 1], from) ==
        if IsSessionUpsert(p) && p.cursor <= from then Delivered(parts[..n], from) + {p.entityID}
        else if p.kept && IsSessionRemove(p) then Delivered(parts[..n], from) - {p.entityID}
        else Delivered(parts[..n], from)
  {
    assert parts[..n + 1][..n] == parts[..n];
  }

  /** The sessions a client knows: sent by kept parts or delivered before. */
  ghost function Known(parts: seq<Part>, from: int): set<string> {
    Cover(parts) + Delivered(parts, from)
  }

  /** Keeping one more session.upsert only adds sessions, and only its own. */
  lemma {:induction false} RekeepAddsCover(parts: seq<Part>, k: nat, m: nat)
    requires k < |parts| && m <= |parts| && IsSessionUpsert(parts[k])
    ensures
      var more := Cover(parts[k := parts[k].(kept := true)][..m]);
      Cover(parts[..m]) <= more <= Cover(parts[..m]) + {parts[k].entityID}
  {
    hide IsSessionUpsert, IsSessionRemove;
    var more := parts[k := parts[k].(kept := true)];
    if m > 0 {
      RekeepAddsCover(parts, k, m - 1);
      CoverStep(parts, m - 1);
      CoverStep(more, m - 1);
      SameKind(more[k], parts[k]);
      UpsertIsNoRemove(parts[k]);
    }
  }

  lemma UpsertIsNoRemove(p: Part)
    ensures !(IsSessionUpsert(p) && IsSessionRemove(p))
    ensures IsUnreadState(p) ==> !IsSessionUpsert(p) && !IsSessionRemove(p)
  {
  }

  // ---------- sessions offered, whether sent or folded away ----------

  /** The sessions with an upsert, kept or not, and no kept removal after it. */
  ghost function Offered(parts: seq<Part>): set<string> {
    if parts == [] then {}
    else
      var before, last := Offered(parts[..|parts| - 1]), parts[|parts| - 1];
      if IsSessionUpsert(last) then before + {last.entityID}
      else if last.kept && IsSessionRemove(last) then before - {last.entityID}
      else before
  }

  lemma OfferedStep(parts: seq<Part>, n: nat)
    requires n < |parts|
    ensures
      var p := parts[n];
      Offered(parts[..n + 1]) ==
        if IsSessionUpsert(p) then Offered(parts[..n]) + {p.entityID}
        else if p.kept && IsSessionRemove(p) then Offered(parts[..n]) - {p.entityID}
        else Offered(parts[..n])
  {
    assert parts[..n + 1][..n] == parts[..n];
  }

  /** The same parts, only some session.upserts kept again. */
  ghost predicate UpsertsKeptAgain(parts: seq<Part>, folded: seq<Part>) {
    && |parts| == |folded|
    && forall i | 0 <= i < |parts| ::
         parts[i] == folded[i] || (IsSessionUpsert(folded[i]) && parts[i] == folded[i].(kept := true))
  }

  lemma {:induction false} KnownIsOffered(parts: seq<Part>, folded: seq<Part>, from: int, m: nat)
    requires UpsertsKeptAgain(parts, folded) && m <= |parts|
    ensures Known(parts[..m], from) <= Offered(folded[..m])
    ensures Cover(folded[..m]) <= Cover(parts[..m])
    ensures Delivered(parts[..m], from) == Delivered(folded[..m], from)
  {
    if m > 0 {
      hide Cover, Delivered, Offered, IsSessionUpsert, IsSessionRemove;
      KnownIsOffered(parts, folded, from, m - 1);
      CoverStep(parts, m - 1);
      CoverStep(folded, m - 1);
      DeliveredStep(parts, from, m - 1);
      DeliveredStep(folded, from, m - 1);
      OfferedStep(folded, m - 1);
      UpsertIsNoRemove(folded[m - 1]);
      SameKind(parts[m - 1], folded[m - 1]) by {
        assert parts[m - 1] == folded[m - 1] || parts[m - 1] == folded[m - 1].(kept := true);
      }
    } else {
      assert Cover(parts[..0]) == Delivered(parts[..0], from) == {};
    }
  }

  /** Dropping kept parts takes no session away that was known before. */
  lemma {:induction false} KnownStaysOffered(orig: seq<Part>, folded: seq<Part>, from: int, m: nat)
    requires SameButKept(folded, orig) && m <= |orig|
    requires forall i | 0 <= i < |orig| && folded[i].kept :: orig[i].kept
    ensures Known(orig[..m], from) <= Offered(folded[..m])
  {
    if m > 0 {
      hide Cover, Delivered, Offered, IsSessionUpsert, IsSessionRemove;
      KnownStaysOffered(orig, folded, from, m - 1);
      CoverStep(orig, m - 1);
      DeliveredStep(orig, from, m - 1);
      OfferedStep(folded, m - 1);
      assert folded[m - 1].(kept := orig[m - 1].kept) == orig[m - 1];
      SameKind(folded[m - 1], orig[m - 1]);
      UpsertIsNoRemove(orig[m - 1]);
    } else {
      assert Cover(orig[..0]) == Delivered(orig[..0], from) == {};
    }
  }

  ghost predicate NoRemoveAfter(parts: seq<Part>, k: int, m: nat, id: string)
    requires m <= |parts|
  {
    forall i | 0 <= i < m && k < i :: !(parts[i].kept && IsSessionRemove(parts[i]) && parts[i].entityID == id)
  }

  lemma {:induction false} KeptUpsertCovers(parts: seq<Part>, k: nat, m: nat, id: string)
    requires k < m <= |parts|
    requires parts[k].kept && IsSessionUpsert(parts[k]) && parts[k].entityID == id
    requires NoRemoveAfter(parts, k, m, id)
    ensures id in Cover(parts[..m])
  {
    hide IsSessionUpsert, IsSessionRemove;
    assert parts[..m][..m - 1] == parts[..m - 1];
    if k < m - 1 {
      KeptUpsertCovers(parts, k, m - 1, id);
    }
  }

  // ---------- what the scan maintains ----------

  /** What the scan knows about one session is true of the parts it has seen. */
  ghost predicate Truthful(folded: seq<Part>, s: Scan, from: int, n: nat, id: string)
    requires n <= |folded| == |s.parts|
  {
    var e := ExistenceOf(s.sessions, id);
    && (e.covered ==> id in Known(s.parts[..n], from))
    && (e.latest.Some? ==>
          var k := e.latest.value;
          k < n && IsSessionUpsert(s.parts[k]) && s.parts[k].entityID == id && NoRemoveAfter(s.parts, k, n, id))
    && (id in Offered(folded[..n]) <==> e.latest.Some?)
  }

  /** A kept unread state finds its session exactly if the session was offered before it. */
  ghost predicate FindsOffered(folded: seq<Part>, parts: seq<Part>, from: int, i: nat)
    requires i < |parts| == |folded|
  {
    parts[i].kept && IsUnreadState(parts[i]) ==>
      (parts[i].entityID in Known(parts[..i], from) <==> parts[i].entityID in Offered(folded[..i]))
  }

  ghost predicate CoverSound(folded: seq<Part>, s: Scan, from: int, n: nat)
    requires n <= |folded| == |s.parts|
  {
    && UpsertsKeptAgain(s.parts, folded)
    && (forall id :: Truthful(folded, s, from, n, id))
    && (forall i | 0 <= i < n :: FindsOffered(folded, s.parts, from, i))
    && (forall i | n <= i < |folded| :: s.parts[i] == folded[i])
  }

  lemma SameKind(a: Part, b: Part)
    requires a.(kept := b.kept) == b
    ensures IsSessionUpsert(a) == IsSessionUpsert(b) && IsSessionRemove(a) == IsSessionRemove(b)
    ensures IsUnreadState(a) == IsUnreadState(b) && a.entityID == b.entityID && a.cursor == b.cursor
  {
  }

  lemma CoverStep(parts: seq<Part>, n: nat)
    requires n < |parts|
    ensures
      var p := parts[n];
      Cover(parts[..n + 1]) ==
        if !p.kept then Cover(parts[..n])
        else if IsSessionUpsert(p) then Cover(parts[..n]) + {p.entityID}
        else if IsSessionRemove(p) then Cover(parts[..n]) - {p.entityID}
        else Cover(parts[..n])
  {
    assert parts[..n + 1][..n] == parts[..n];
  }

  /** Marking the latest upsert as kept keeps everything already established, and makes its session known. */
  lemma RekeepSound(folded: seq<Part>, s: Scan, from: int, n: nat, id: string)
    requires n < |folded| == |s.parts|
    requires CoverSound(folded, s, from, n) && ScanBounds(s, n)
    requires ExistenceOf(s.sessions, id).latest.Some?
    ensures
      var k := ExistenceOf(s.sessions, id).latest.value;
      var more := s.(parts := s.parts[k := s.parts[k].(kept := true)]);
      && CoverSound(folded, more, from, n)
      && id in Known(more.parts[..n], from)
  {
    hide IsSessionUpsert, IsSessionRemove, IsUnreadState, Cover, Delivered, Offered, ExistenceOf;
    assert Truthful(folded, s, from, n, id);
    var k := ExistenceOf(s.sessions, id).latest.value;
    var parts := s.parts[k := s.parts[k].(kept := true)];
    var more := s.(parts := parts);
    SameKind(parts[k], s.parts[k]);
    SameKind(s.parts[k], folded[k]) by {
      assert s.parts[k] == folded[k] || s.parts[k] == folded[k].(kept := true);
    }
    UpsertIsNoRemove(s.parts[k]);
    assert UpsertsKeptAgain(parts, folded);
    KnownIsOffered(parts, folded, from, n);
    KnownIsOffered(s.parts, folded, from, n);
    forall other ensures Truthful(folded, more, from, n, other) {
      assert Truthful(folded, s, from, n, other);
      RekeepAddsCover(s.parts, k, n);
    }
    forall i | 0 <= i < n ensures FindsOffered(folded, parts, from, i) {
      assert FindsOffered(folded, s.parts, from, i);
      RekeepAddsCover(s.parts, k, i);
      KnownIsOffered(parts, folded, from, i);
      KnownIsOffered(s.parts, folded, from, i);
    }
    assert NoRemoveAfter(parts, k, n, id) by {
      assert NoRemoveAfter(s.parts, k, n, id);
    }
    KeptUpsertCovers(parts, k, n, id);
  }

  /** Moving past part n, which needs no other part kept again. */
  lemma PassSound(folded: seq<Part>, s: Scan, n: nat, from: int, sessions: map<string, Existence<nat>>)
    requires n < |folded| == |s.parts|
    requires CoverSound(folded, s, from, n)
    requires var e := ExistenceOf(s.sessions, s.parts[n].entityID);
             IsUnreadState(s.parts[n]) && s.parts[n].kept && e.latest.Some? ==>
               s.parts[n].entityID in Known(s.parts[..n], from)
    requires forall id :: ExistenceOf(sessions, id) ==
               if id == s.parts[n].entityID then NextExistence(ExistenceOf(s.sessions, id), s.parts[n], n, from)
               else ExistenceOf(s.sessions, id)
    ensures CoverSound(folded, s.(sessions := sessions), from, n + 1)
  {
    hide IsSessionUpsert, IsSessionRemove, IsUnreadState, Cover, Delivered, Offered, ExistenceOf, UpsertsKeptAgain;
    var p := s.parts[n];
    UpsertIsNoRemove(p);
    CoverStep(s.parts, n);
    DeliveredStep(s.parts, from, n);
    OfferedStep(folded, n);
    KnownIsOffered(s.parts, folded, from, n);
    var next := s.(sessions := sessions);
    var m := n + 1;
    forall id ensures Truthful(folded, next, from, m, id) {
      assert Truthful(folded, s, from, n, id);
    }
    forall i | 0 <= i < n + 1 ensures FindsOffered(folded, s.parts, from, i) {
      if i == n {
        assert Truthful(folded, s, from, n, p.entityID);
      } else {
        assert FindsOffered(folded, s.parts, from, i);
      }
    }
  }

  lemma KeepStepCovers(folded: seq<Part>, s: Scan, n: nat, from: int)
    requires n < |folded| == |s.parts| && ScanBounds(s, n)
    requires CoverSound(folded, s, from, n)
    ensures CoverSound(folded, KeepStep(s, n, from), from, n + 1)
  {
    hide IsSessionUpsert, IsSessionRemove, IsUnreadState, Known, Offered, ExistenceOf, SessionsAfter, Truthful;
    var p := s.parts[n];
    var e := ExistenceOf(s.sessions, p.entityID);
    forall id
      ensures ExistenceOf(SessionsAfter(s.sessions, p, n, from), id) ==
              if id == p.entityID then NextExistence(ExistenceOf(s.sessions, id), p, n, from)
              else ExistenceOf(s.sessions, id)
    {
      ExistenceAfter(s.sessions, p, n, from, id);
    }
    if Overtakes(e, p) {
      RekeepSound(folded, s, from, n, p.entityID);
      var k := e.latest.value;
      assert k < n;
      var more := s.(parts := s.parts[k := s.parts[k].(kept := true)]);
      PassSound(folded, more, n, from, SessionsAfter(s.sessions, p, n, from));
      CountIrrelevant(folded, more.(sessions := SessionsAfter(s.sessions, p, n, from)), KeepStep(s, n, from), from,
                      n + 1);
    } else {
      if IsUnreadState(p) && p.kept && e.latest.Some? {
        CoveredIsTrue(folded, s, from, n, p.entityID);
      }
      PassSound(folded, s, n, from, SessionsAfter(s.sessions, p, n, from));
    }
  }

  lemma CoveredIsTrue(folded: seq<Part>, s: Scan, from: int, n: nat, id: string)
    requires n <= |folded| == |s.parts|
    requires CoverSound(folded, s, from, n) && ExistenceOf(s.sessions, id).covered
    ensures id in Known(s.parts[..n], from)
  {
    assert Truthful(folded, s, from, n, id);
  }

  lemma CountIrrelevant(folded: seq<Part>, s: Scan, t: Scan, from: int, n: nat)
    requires n <= |folded| == |s.parts|
    requires s.parts == t.parts && s.sessions == t.sessions && CoverSound(folded, s, from, n)
    ensures CoverSound(folded, t, from, n)
  {
    forall id ensures Truthful(folded, t, from, n, id) {
      assert Truthful(folded, s, from, n, id);
    }
  }

  lemma CoverStart(folded: seq<Part>, from: int)
    ensures CoverSound(folded, KeepScan(folded, from, 0), from, 0)
  {
    assert forall id :: Truthful(folded, KeepScan(folded, from, 0), from, 0, id);
  }

  lemma {:induction false} KeepScanCovers(folded: seq<Part>, from: int, n: nat)
    requires n <= |folded|
    ensures CoverSound(folded, KeepScan(folded, from, n), from, n)
  {
    hide CoverSound, KeepStep, KeepScan;
    if n == 0 {
      CoverStart(folded, from);
    } else {
      KeepScanCovers(folded, from, n - 1);
      KeepStepCovers(folded, KeepScan(folded, from, n - 1), n - 1, from);
      KeepScanStep(folded, from, n - 1);
    }
  }

  /**
   What folding and keeping again do to one unread state, on any page: nothing is changed but some session.upserts
   kept again, and the unread finds its session, sent or delivered before, exactly if an upsert of it, even a folded
   one, came before with no surviving removal in between.
   */
  lemma FoldedUnreadFindsSession(orig: seq<Part>, from: int, i: nat)
    requires i < |orig|
    ensures UpsertsKeptAgain(FinalParts(orig, from), FoldedFrom(orig, 0))
    ensures FindsOffered(FoldedFrom(orig, 0), FinalParts(orig, from), from, i)
  {
    hide KeepScan, FoldedFrom, Known, Offered, FindsOffered, UpsertsKeptAgain;
    KeepScanCovers(FoldedFrom(orig, 0), from, |orig|);
  }

  /** Position by position, on any page: an unread state that survives finds its session whenever it did before. */
  lemma FoldingKeepsUnreadCovered(orig: seq<Part>, from: int, i: nat)
    requires i < |orig|
    ensures
      var final := FinalParts(orig, from);
      final[i].kept && IsUnreadState(final[i]) && final[i].entityID in Known(orig[..i], from)
      ==> final[i].entityID in Known(final[..i], from)
  {
    hide FinalParts, FoldedFrom, Known, Offered;
    FoldedUnreadFindsSession(orig, from, i);
    FoldedParts(orig);
    KnownStaysOffered(orig, FoldedFrom(orig, 0), from, i);
  }

  // ---------- what the page itself sends, when only its first parts were delivered before ----------

  /** The first d parts were delivered before, the others were not. */
  ghost predicate OnlyFirstDelivered(parts: seq<Part>, from: int, d: nat) {
    && d <= |parts|
    && (forall i | 0 <= i < d :: !parts[i].kept)
    && (forall i | d <= i < |parts| :: parts[i].cursor > from)
  }

  /** The scan keeps no upsert again of a session that was delivered before and not removed since. */
  ghost predicate SentSound(folded: seq<Part>, s: Scan, from: int, d: nat, n: nat)
    requires n <= |folded| == |s.parts|
  {
    && (n <= d ==> s.parts == folded)
    && (forall id | id in Delivered(folded[..n], from) :: ExistenceOf(s.sessions, id).covered)
    && (forall m | 0 <= m <= n :: NothingAdded(folded, s.parts, from, m))
  }

  ghost predicate NothingAdded(folded: seq<Part>, parts: seq<Part>, from: int, m: nat)
    requires m <= |folded| == |parts|
  {
    forall id | id in Delivered(folded[..m], from) && id in Cover(parts[..m]) :: id in Cover(folded[..m])
  }

  lemma {:induction false} NothingKeptCovers(parts: seq<Part>, m: nat)
    requires m <= |parts| && forall i | 0 <= i < m :: !parts[i].kept
    ensures Cover(parts[..m]) == {}
  {
    if m > 0 {
      NothingKeptCovers(parts, m - 1);
      CoverStep(parts, m - 1);
    }
  }

  /** A delivered session stays so until it is removed. */
  lemma {:induction false} DeliveredStays(folded: seq<Part>, parts: seq<Part>, from: int, k: nat, m: nat, n: nat,
                                          id: string)
    requires UpsertsKeptAgain(parts, folded) && k < m <= n <= |folded|
    requires NoRemoveAfter(parts, k, n, id) && id in Delivered(folded[..m], from)
    ensures id in Delivered(folded[..n], from)
    decreases n
  {
    hide IsSessionUpsert, IsSessionRemove, Delivered, UpsertsKeptAgain, NoRemoveAfter;
    if m < n {
      NotRemovedLast(folded, parts, k, n, id);
      DeliveredStays(folded, parts, from, k, m, n - 1, id);
      DeliveredStep(folded, from, n - 1);
    }
  }

  lemma NotRemovedLast(folded: seq<Part>, parts: seq<Part>, k: nat, n: nat, id: string)
    requires UpsertsKeptAgain(parts, folded) && k + 1 < n <= |folded|
    requires NoRemoveAfter(parts, k, n, id)
    ensures |parts| == |folded| && NoRemoveAfter(parts, k, n - 1, id)
    ensures var p := folded[n - 1]; !(p.kept && IsSessionRemove(p) && p.entityID == id)
  {
    UpsertIsNoRemove(folded[n - 1]);
  }

  /** Moving past part n adds no delivered session either. */
  lemma PassAddsNothing(folded: seq<Part>, parts: seq<Part>, from: int, d: nat, n: nat)
    requires n < |folded| == |parts| && OnlyFirstDelivered(folded, from, d)
    requires parts[n] == folded[n] && NothingAdded(folded, parts, from, n) && (n < d ==> parts == folded)
    ensures NothingAdded(folded, parts, from, n + 1)
  {
    if n < d {
      NothingKeptCovers(parts, n + 1);
    } else {
      hide IsSessionUpsert, IsSessionRemove, Cover, Delivered;
      CoverStep(parts, n);
      CoverStep(folded, n);
      DeliveredStep(folded, from, n);
      UpsertIsNoRemove(folded[n]);
    }
  }

  /** Keeping the latest upsert of a session again that was not delivered before adds only that session. */
  lemma RekeepAddsNothing(folded: seq<Part>, s: Scan, from: int, d: nat, n: nat, id: string, parts: seq<Part>)
    requires n < |folded| == |s.parts| && OnlyFirstDelivered(folded, from, d)
    requires CoverSound(folded, s, from, n) && SentSound(folded, s, from, d, n) && ScanBounds(s, n)
    requires ExistenceOf(s.sessions, id).latest.Some? && !ExistenceOf(s.sessions, id).covered
    requires var k := ExistenceOf(s.sessions, id).latest.value; parts == s.parts[k := s.parts[k].(kept := true)]
    ensures forall m | 0 <= m <= n :: NothingAdded(folded, parts, from, m)
  {
    hide IsSessionUpsert, IsSessionRemove, Cover, Delivered, Offered, ExistenceOf, UpsertsKeptAgain;
    assert Truthful(folded, s, from, n, id);
    var k := ExistenceOf(s.sessions, id).latest.value;
    assert id !in Delivered(folded[..n], from);
    forall m | 0 <= m <= n ensures NothingAdded(folded, parts, from, m) {
      assert NothingAdded(folded, s.parts, from, m);
      if m <= k {
        assert parts[..m] == s.parts[..m];
      } else {
        RekeepAddsCover(s.parts, k, m);
        if id in Delivered(folded[..m], from) {
          DeliveredStays(folded, s.parts, from, k, m, n, id);
          assert false;
        }
      }
    }
  }

  lemma CoveredStays(folded: seq<Part>, s: Scan, from: int, n: nat)
    requires n < |folded| == |s.parts| && s.parts[n] == folded[n]
    requires forall id | id in Delivered(folded[..n], from) :: ExistenceOf(s.sessions, id).covered
    ensures forall id | id in Delivered(folded[..n + 1], from) ::
              ExistenceOf(SessionsAfter(s.sessions, s.parts[n], n, from), id).covered
  {
    hide IsSessionUpsert, IsSessionRemove, IsUnreadState, Delivered, ExistenceOf, SessionsAfter;
    var p := s.parts[n];
    DeliveredStep(folded, from, n);
    UpsertIsNoRemove(p);
    forall id | id in Delivered(folded[..n + 1], from)
      ensures ExistenceOf(SessionsAfter(s.sessions, p, n, from), id).covered
    {
      ExistenceAfter(s.sessions, p, n, from, id);
    }
  }

  lemma KeepStepSends(folded: seq<Part>, s: Scan, from: int, d: nat, n: nat)
    requires n < |folded| == |s.parts| && ScanBounds(s, n) && OnlyFirstDelivered(folded, from, d)
    requires CoverSound(folded, s, from, n) && SentSound(folded, s, from, d, n)
    ensures SentSound(folded, KeepStep(s, n, from), from, d, n + 1)
  {
    hide IsSessionUpsert, IsSessionRemove, IsUnreadState, Cover, Delivered, Offered, ExistenceOf, SessionsAfter;
    hide Truthful, NothingAdded, FindsOffered;
    var p := s.parts[n];
    var e := ExistenceOf(s.sessions, p.entityID);
    var next := KeepStep(s, n, from);
    CoveredStays(folded, s, from, n);
    if Overtakes(e, p) {
      assert e.latest.value < n;
      RekeepAddsNothing(folded, s, from, d, n, p.entityID, next.parts);
    }
    PassAddsNothing(folded, next.parts, from, d, n);
    forall m | 0 <= m <= n + 1 ensures NothingAdded(folded, next.parts, from, m) {
      if m <= n {
        assert NothingAdded(folded, next.parts, from, m);
      }
    }
  }

  lemma {:induction false} KeepScanSends(folded: seq<Part>, from: int, d: nat, n: nat)
    requires n <= |folded| && OnlyFirstDelivered(folded, from, d)
    ensures SentSound(folded, KeepScan(folded, from, n), from, d, n)
  {
    hide SentSound, CoverSound, KeepStep, KeepScan, OnlyFirstDelivered;
    if n == 0 {
      SendStart(folded, from, d);
    } else {
      KeepScanSends(folded, from, d, n - 1);
      KeepScanCovers(folded, from, n - 1);
      KeepStepSends(folded, KeepScan(folded, from, n - 1), from, d, n - 1);
      KeepScanStep(folded, from, n - 1);
    }
  }

  lemma SendStart(folded: seq<Part>, from: int, d: nat)
    ensures SentSound(folded, KeepScan(folded, from, 0), from, d, 0)
  {
  }

  /**
   Whether the page itself sends the session before a surviving unread: exactly if it was offered and, when it was
   delivered before and not removed since, an upsert of it survives folding on its own.
   */
  lemma SentExactly(orig: seq<Part>, from: int, d: nat, i: nat)
    requires OnlyFirstDelivered(orig, from, d) && i < |orig|
    ensures
      var final, folded, id := FinalParts(orig, from), FoldedFrom(orig, 0), orig[i].entityID;
      final[i].kept && IsUnreadState(orig[i]) ==>
        (id in Cover(final[..i]) <==>
         && id in Offered(folded[..i])
         && (id in Delivered(folded[..i], from) ==> id in Cover(folded[..i])))
  {
    hide KeepScan, FoldedFrom, Cover, Delivered, Offered, IsUnreadState, CoverSound;
    var final, folded := FinalParts(orig, from), FoldedFrom(orig, 0);
    FoldedParts(orig);
    FoldedStayFirst(orig, folded, from, d);
    FoldedUnreadFindsSession(orig, from, i);
    KeepScanSends(folded, from, d, |orig|);
    assert NothingAdded(folded, final, from, i);
    KnownIsOffered(final, folded, from, i);
    assert folded[i].(kept := orig[i].kept) == orig[i];
    assert final[i] == folded[i] || final[i] == folded[i].(kept := true);
    SameKind(folded[i], orig[i]);
    SameKind(final[i], folded[i]);
  }

  lemma FoldedStayFirst(orig: seq<Part>, folded: seq<Part>, from: int, d: nat)
    requires OnlyFirstDelivered(orig, from, d) && SameButKept(folded, orig)
    requires forall i | 0 <= i < |orig| && folded[i].kept :: orig[i].kept
    ensures OnlyFirstDelivered(folded, from, d)
  {
    forall i | d <= i < |folded| ensures folded[i].cursor > from {
      assert folded[i].(kept := orig[i].kept) == orig[i];
    }
  }

  // ---------- which parts are kept again ----------

  /**
   The unread state at m survives folding, its session is not known there from what folding left, and k is the last
   session.upsert of it before.
   */
  ghost predicate WasOvertaken(folded: seq<Part>, from: int, k: nat, m: nat)
    requires k < m < |folded|
  {
    var id := folded[m].entityID;
    && folded[m].kept && IsUnreadState(folded[m]) && id !in Known(folded[..m], from)
    && IsSessionUpsert(folded[k]) && folded[k].entityID == id
    && forall j | k < j < m :: !(IsSessionUpsert(folded[j]) && folded[j].entityID == id)
  }

  ghost predicate WasNeeded(folded: seq<Part>, from: int, k: nat)
    requires k < |folded|
  {
    exists m | k < m < |folded| :: WasOvertaken(folded, from, k, m)
  }

  ghost predicate IsLatestUpsert(folded: seq<Part>, s: Scan, n: nat, id: string)
    requires n <= |folded|
  {
    var e := ExistenceOf(s.sessions, id);
    e.latest.Some? ==>
      var k := e.latest.value;
      && k < n && IsSessionUpsert(folded[k]) && folded[k].entityID == id
      && forall j | k < j < n :: !(IsSessionUpsert(folded[j]) && folded[j].entityID == id)
  }

  ghost predicate AgainSound(folded: seq<Part>, s: Scan, from: int, n: nat)
    requires n <= |folded| == |s.parts|
  {
    && (forall id :: IsLatestUpsert(folded, s, n, id))
    && (forall id | id in Known(s.parts[..n], from) :: ExistenceOf(s.sessions, id).covered)
    && (forall k | 0 <= k < |folded| && s.parts[k] != folded[k] :: WasNeeded(folded, from, k))
  }

  /** Keeping the latest upsert again makes only its session known. */
  lemma AgainKnows(s: Scan, from: int, n: nat, k: nat, parts: seq<Part>)
    requires k < n < |s.parts| && IsSessionUpsert(s.parts[k]) && parts == s.parts[k := s.parts[k].(kept := true)]
    ensures Known(parts[..n], from) <= Known(s.parts[..n], from) + {s.parts[k].entityID}
  {
    hide Cover, Delivered, IsSessionUpsert;
    RekeepAddsCover(s.parts, k, n);
    assert UpsertsKeptAgain(parts, s.parts);
    KnownIsOffered(parts, s.parts, from, n);
  }

  lemma LatestIsUpsert(folded: seq<Part>, s: Scan, from: int, n: nat, id: string)
    requires n <= |folded| == |s.parts| && CoverSound(folded, s, from, n)
    requires ExistenceOf(s.sessions, id).latest.Some?
    ensures
      var k := ExistenceOf(s.sessions, id).latest.value;
      k < n && IsSessionUpsert(s.parts[k]) && s.parts[k].entityID == id
  {
    assert Truthful(folded, s, from, n, id);
  }

  lemma AgainStep(folded: seq<Part>, s: Scan, from: int, n: nat)
    requires n < |folded| == |s.parts| && ScanBounds(s, n)
    requires CoverSound(folded, s, from, n) && AgainSound(folded, s, from, n)
    ensures AgainSound(folded, KeepStep(s, n, from), from, n + 1)
  {
    hide IsSessionUpsert, IsSessionRemove, IsUnreadState, Cover, Delivered, Offered, ExistenceOf, SessionsAfter;
    hide Truthful, FindsOffered, WasNeeded;
    var p, next := s.parts[n], KeepStep(s, n, from);
    var e := ExistenceOf(s.sessions, p.entityID);
    UpsertIsNoRemove(p);
    CoverStep(next.parts, n);
    DeliveredStep(next.parts, from, n);
    KnownIsOffered(s.parts, folded, from, n);
    if Overtakes(e, p) {
      var k := e.latest.value;
      LatestIsUpsert(folded, s, from, n, p.entityID);
      assert IsLatestUpsert(folded, s, n, p.entityID);
      AgainKnows(s, from, n, k, next.parts);
      assert WasOvertaken(folded, from, k, n);
      NeededAt(folded, from, k, n);
    }
    var after := n + 1;
    forall id ensures IsLatestUpsert(folded, next, after, id) {
      assert IsLatestUpsert(folded, s, n, id);
      ExistenceAfter(s.sessions, p, n, from, id);
    }
    forall id | id in Known(next.parts[..n + 1], from) ensures ExistenceOf(next.sessions, id).covered {
      ExistenceAfter(s.sessions, p, n, from, id);
    }
  }

  lemma NeededAt(folded: seq<Part>, from: int, k: nat, m: nat)
    requires k < m < |folded| && WasOvertaken(folded, from, k, m)
    ensures WasNeeded(folded, from, k)
  {
  }

  lemma AgainStart(folded: seq<Part>, from: int)
    ensures AgainSound(folded, KeepScan(folded, from, 0), from, 0)
  {
  }

  lemma {:induction false} KeepScanAgain(folded: seq<Part>, from: int, n: nat)
    requires n <= |folded|
    ensures AgainSound(folded, KeepScan(folded, from, n), from, n)
  {
    hide AgainSound, CoverSound, KeepStep, KeepScan;
    if n == 0 {
      AgainStart(folded, from);
    } else {
      KeepScanAgain(folded, from, n - 1);
      KeepScanCovers(folded, from, n - 1);
      AgainStep(folded, KeepScan(folded, from, n - 1), from, n - 1);
      KeepScanStep(folded, from, n - 1);
    }
  }

  /**
   On any page, every part stays as folding left it, but for some session.upserts kept again: each of them is the
   last one before a surviving unread state that finds its session neither sent nor delivered before.
   */
  lemma OnlyNeededKeptAgain(orig: seq<Part>, from: int, k: nat)
    requires k < |orig|
    ensures
      var folded, final := FoldedFrom(orig, 0), FinalParts(orig, from);
      final[k] != FoldedPart(orig, k) ==>
        && IsSessionUpsert(orig[k]) && !FoldedPart(orig, k).kept && final[k] == orig[k].(kept := true)
        && WasNeeded(folded, from, k)
  {
    hide KeepScan, FoldedFrom, FoldedPart, Known, Offered, WasNeeded, IsSessionUpsert;
    var folded, final := FoldedFrom(orig, 0), FinalParts(orig, from);
    FoldedParts(orig);
    FoldedUnreadFindsSession(orig, from, k);
    KeepScanAgain(folded, from, |orig|);
    assert folded[k].(kept := orig[k].kept) == orig[k];
    SameKind(folded[k], orig[k]);
  }

  // ---------- the counts of a page ----------

  ghost function KeptAgain(folded: seq<Part>, parts: seq<Part>): set<nat>
    requires |parts| == |folded|
  {
    set i: nat | i < |folded| && !folded[i].kept && parts[i].kept
  }

  lemma OvertakenWasDropped(folded: seq<Part>, s: Scan, from: int, n: nat, id: string)
    requires n <= |folded| == |s.parts| && CoverSound(folded, s, from, n) && AgainSound(folded, s, from, n)
    requires ExistenceOf(s.sessions, id).latest.Some? && !ExistenceOf(s.sessions, id).covered
    ensures
      var k := ExistenceOf(s.sessions, id).latest.value;
      k < |folded| && !folded[k].kept && !s.parts[k].kept
  {
    hide Cover, Delivered, Offered, WasNeeded, IsLatestUpsert, FindsOffered, ExistenceOf, NoRemoveAfter;
    assert Truthful(folded, s, from, n, id);
    var k := ExistenceOf(s.sessions, id).latest.value;
    if s.parts[k].kept {
      KeptUpsertCovers(s.parts, k, n, id);
    }
    assert s.parts[k] == folded[k] || s.parts[k] == folded[k].(kept := true);
  }

  lemma AgainCounted(folded: seq<Part>, s: Scan, from: int, n: nat)
    requires n < |folded| == |s.parts| && ScanBounds(s, n)
    requires CoverSound(folded, s, from, n) && AgainSound(folded, s, from, n)
    requires s.reordered == |KeptAgain(folded, s.parts)|
    ensures KeepStep(s, n, from).reordered == |KeptAgain(folded, KeepStep(s, n, from).parts)|
  {
    hide CoverSound, AgainSound, ExistenceOf, SessionsAfter;
    var p, next := s.parts[n], KeepStep(s, n, from);
    var e := ExistenceOf(s.sessions, p.entityID);
    if Overtakes(e, p) {
      var k := e.latest.value;
      OvertakenWasDropped(folded, s, from, n, p.entityID);
      assert KeptAgain(folded, next.parts) == KeptAgain(folded, s.parts) + {k};
    }
  }

  /** The second pass counts the parts it keeps again. */
  lemma {:induction false} ReorderedIsSize(folded: seq<Part>, from: int, n: nat)
    requires n <= |folded|
    ensures KeepScan(folded, from, n).reordered == |KeptAgain(folded, KeepScan(folded, from, n).parts)|
  {
    hide CoverSound, AgainSound, KeepStep, KeepScan, KeptAgain;
    if n == 0 {
      NothingKeptAgain(folded, from);
    } else {
      ReorderedIsSize(folded, from, n - 1);
      KeepScanCovers(folded, from, n - 1);
      KeepScanAgain(folded, from, n - 1);
      AgainCounted(folded, KeepScan(folded, from, n - 1), from, n - 1);
      KeepScanStep(folded, from, n - 1);
    }
  }

  lemma NothingKeptAgain(folded: seq<Part>, from: int)
    ensures KeepScan(folded, from, 0).reordered == 0 == |KeptAgain(folded, KeepScan(folded, from, 0).parts)|
  {
    assert KeptAgain(folded, folded) == {};
  }

  /**
   The counts of a compound page: when folding, the kept parts with a receipt of their own and the parts kept again;
   otherwise nothing.
   */
  lemma PageCounts(units: seq<Unit>, from: int)
    requires forall u | u in units :: |u.parts| > 0
    requires forall p | p in Flat(units) :: NulFree(p.kind)
    ensures CompoundPage(units, from, true).receipts == |OwnReceipts(Flat(units), 0)|
    ensures CompoundPage(units, from, true).reordered
            == |KeptAgain(FoldedFrom(Flat(units), 0), FinalParts(Flat(units), from))|
    ensures CompoundPage(units, from, false).receipts == CompoundPage(units, from, false).reordered == 0
  {
    hide KeepScan, FoldedFrom, NulFree, OwnReceipts, KeptAgain, Chained, AllUnitEvents, FoldedUnits, Flat;
    ReceiptsExactly(Flat(units), 0);
    ReorderedIsSize(FoldedFrom(Flat(units), 0), from, |Flat(units)|);
  }
}
