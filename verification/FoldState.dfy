/** Folding a page does not change what a client ends up with. */
module FoldState {
  import opened Wrappers
  import opened SyncModel
  import opened SyncFold
  import opened SyncClient

  // ---------- parts as events with flags ----------

  ghost function Events(parts: seq<Part>): (r: seq<Event>)
    ensures |r| == |parts|
    ensures forall i | 0 <= i < |r| :: r[i] == EventOf(parts[i])
  {
    seq(|parts|, i requires 0 <= i < |parts| => EventOf(parts[i]))
  }

  ghost function Flags(parts: seq<Part>): (r: seq<bool>)
    ensures |r| == |parts|
    ensures forall i | 0 <= i < |r| :: r[i] == parts[i].kept
  {
    seq(|parts|, i requires 0 <= i < |parts| => parts[i].kept)
  }

  lemma EventsAppend(a: seq<Part>, b: seq<Part>)
    ensures Events(a + b) == Events(a) + Events(b)
    ensures Flags(a + b) == Flags(a) + Flags(b)
  {
  }

  lemma {:induction false} KeptEventsAreSelected(parts: seq<Part>)
    ensures KeptEvents(parts) == Select(Events(parts), Flags(parts))
  {
    if parts != [] {
      var n := |parts| - 1;
      KeptEventsAreSelected(parts[..n]);
      assert Events(parts)[..n] == Events(parts[..n]) && Flags(parts)[..n] == Flags(parts[..n]);
      assert parts == parts[..n] + [parts[n]];
      KeptEventsAppend(parts[..n], [parts[n]]);
    }
  }

  // ---------- the stream of a row list ----------

  /** Every part of every row as a classic event, regardless of pages. */
  ghost function Stream(rows: seq<Row>): Result<seq<Event>, SyncError> {
    var units :- ResolveAll(rows, 0);
    Ok(Events(Flat(units)))
  }

  lemma ResolveAnywhere(row: Row, from: int)
    ensures Resolve(row, from).Ok? <==> Resolve(row, 0).Ok?
    ensures Resolve(row, from).Ok? ==> |Resolve(row, from).value.parts| == |Resolve(row, 0).value.parts|
    ensures Resolve(row, from).Ok? ==> Events(Resolve(row, from).value.parts) == Events(Resolve(row, 0).value.parts)
  {
    hide EmbeddedEntity, SplitOf;
  }

  lemma {:induction false} StreamAnywhere(rows: seq<Row>, from: int)
    ensures Stream(rows).Ok? <==> ResolveAll(rows, from).Ok?
    ensures Stream(rows).Ok? ==> Stream(rows).value == Events(Flat(ResolveAll(rows, from).value))
  {
    if rows != [] {
      hide Resolve;
      ResolveAnywhere(rows[0], from);
      StreamAnywhere(rows[1..], from);
      if Stream(rows).Ok? {
        EventsAppend(Resolve(rows[0], 0).value.parts, Flat(ResolveAll(rows[1..], 0).value));
        EventsAppend(Resolve(rows[0], from).value.parts, Flat(ResolveAll(rows[1..], from).value));
      }
    }
  }

  // ---------- events after a cursor ----------

  /** The events not delivered up to cursor `from`. */
  ghost function EventsAfter(events: seq<Event>, from: int): seq<Event> {
    if events == [] then []
    else
      var before, e := EventsAfter(events[..|events| - 1], from), events[|events| - 1];
      if e.cursor > from then before + [e] else before
  }

  lemma {:induction false} EventsAfterAppend(a: seq<Event>, b: seq<Event>, from: int)
    ensures EventsAfter(a + b, from) == EventsAfter(a, from) + EventsAfter(b, from)
  {
    if b == [] {
      assert a + b == a;
    } else {
      var n := |b| - 1;
      assert (a + b)[..|a| + n] == a + b[..n];
      EventsAfterAppend(a, b[..n], from);
    }
  }

  lemma {:induction false} AllAfter(events: seq<Event>, from: int)
    requires forall e | e in events :: e.cursor > from
    ensures EventsAfter(events, from) == events
  {
    if events != [] {
      var n := |events| - 1;
      AllAfter(events[..n], from);
      assert events[n] in events && events == events[..n] + [events[n]];
    }
  }

  /** The parts of a page that are sent are those after its cursor. */
  lemma {:induction false} FreshEvents(parts: seq<Part>, from: int)
    requires Fresh(parts, from)
    ensures KeptEvents(parts) == EventsAfter(Events(parts), from)
  {
    if parts != [] {
      hide EventOf;
      var n := |parts| - 1;
      FreshEvents(parts[..n], from);
      KeptEventsStep(parts, n);
      CursorOf(parts[n]);
      assert parts[..n + 1] == parts && Events(parts)[..n] == Events(parts[..n]);
    }
  }

  lemma CursorOf(p: Part)
    ensures EventOf(p).cursor == p.cursor
  {
  }

  // ---------- one state key, one entity ----------

  predicate NulFree(s: string) {
    '\0' !in s
  }

  lemma NulSeparates(a: string, b: string, c: string, d: string)
    requires NulFree(a) && NulFree(c)
    requires a + "\0" + b == c + "\0" + d
    ensures a == c && b == d
  {
    var left, right := a + "\0" + b, c + "\0" + d;
    assert left[|a|] == '\0' && right[|c|] == '\0';
    assert forall k | 0 <= k < |a| :: left[k] == a[k] != '\0';
    assert forall k | 0 <= k < |c| :: right[k] == c[k] != '\0';
    assert |a| == |c|;
    assert left[..|a|] == a && right[..|c|] == c;
    assert left[|a| + 1..] == b && right[|c| + 1..] == d;
  }

  lemma StateKeyDetermines(p: Part, q: Part)
    requires IsFoldableState(p) && IsFoldableState(q) && StateKey(p) == StateKey(q)
    requires NulFree(p.kind) && NulFree(q.kind)
    ensures p.kind == q.kind && p.entity == q.entity && p.entityID == q.entityID
  {
    assert StateKey(p) == p.kind + "\0" + (p.entity + "\0" + p.entityID);
    assert StateKey(q) == q.kind + "\0" + (q.entity + "\0" + q.entityID);
    NulSeparates(p.kind, p.entity + "\0" + p.entityID, q.kind, q.entity + "\0" + q.entityID);
    assert NulFree(p.entity) && NulFree(q.entity);
    NulSeparates(p.entity, p.entityID, q.entity, q.entityID);
  }

  lemma ClassSharesKey(p: Part, q: Part)
    requires ClassOf(p).Some? && InClass(q, ClassOf(p).value)
    requires NulFree(p.kind) && NulFree(q.kind)
    ensures EntityKey(EventOf(p)) == EntityKey(EventOf(q))
  {
    if ClassOf(p).value.StateClass? {
      StateKeyDetermines(p, q);
    }
  }

  // ---------- what folding keeps, on the fields of the parts ----------

  /**
   q may stand in for p: a message upsert or revoke for an upsert of the message, a revoke for a revoke, and a session
   or member state for a state of the same kind, entity and id, tombstones apart.
   */
  ghost predicate Replaces(q: Part, p: Part) {
    && q.kept && q.entity == p.entity && q.entityID == p.entityID
    && if p.entity == "message" then
         || (p.kind == "message.upsert" && (q.kind == "message.upsert" || q.kind == "message.revoke"))
         || (p.kind == "message.revoke" && q.kind == "message.revoke")
       else
         && (p.entity == "session" || p.entity == "session_member")
         && q.kind == p.kind && !p.tombstone && !q.tombstone
  }

  /** The last later part that may stand in for part i. */
  ghost predicate IsLastReplacing(parts: seq<Part>, i: nat, j: nat)
    requires i < j < |parts|
  {
    Replaces(parts[j], parts[i]) && forall k | j < k < |parts| :: !Replaces(parts[k], parts[i])
  }

  /** The part carries a command id that the last part standing in for it does not. */
  ghost predicate HasOwnReceipt(parts: seq<Part>, i: nat)
    requires i < |parts|
  {
    exists j | i < j < |parts| :: IsLastReplacing(parts, i, j) && parts[i].commandID != ""
                                  && parts[i].commandID != parts[j].commandID
  }

  lemma ClassIsReplaces(p: Part, q: Part)
    requires p.kept && NulFree(p.kind) && NulFree(q.kind)
    ensures ClassOf(p).None? ==> !Replaces(q, p)
    ensures ClassOf(p).Some? ==> (InClass(q, ClassOf(p).value) <==> Replaces(q, p)) && InClass(p, ClassOf(p).value)
  {
    if ClassOf(p).Some? && ClassOf(p).value.StateClass? && IsFoldableState(q) && StateKey(p) == StateKey(q) {
      StateKeyDetermines(p, q);
    }
  }

  /** What the specification of folding calls a survivor is the last part that may stand in. */
  lemma SurvivorIsLast(parts: seq<Part>, i: nat)
    requires i < |parts| && parts[i].kept && forall p | p in parts :: NulFree(p.kind)
    ensures HasSurvivor(parts, i) <==> exists j | i < j < |parts| :: IsLastReplacing(parts, i, j)
    ensures HasSurvivor(parts, i) ==>
              var last := LastIn(parts, ClassOf(parts[i]).value);
              && i < last < |parts| && IsLastReplacing(parts, i, last)
              && forall j | i < j < |parts| && IsLastReplacing(parts, i, j) :: j == last
  {
    hide NulFree, InClass, Replaces;
    var p := parts[i];
    forall j | 0 <= j < |parts|
      ensures ClassOf(p).None? ==> !Replaces(parts[j], p)
      ensures ClassOf(p).Some? ==> (InClass(parts[j], ClassOf(p).value) <==> Replaces(parts[j], p))
    {
      ClassIsReplaces(p, parts[j]);
    }
    ClassIsReplaces(p, p);
    if ClassOf(p).Some? {
      var last := LastIn(parts, ClassOf(p).value);
      assert last >= i;
      if last > i {
        assert IsLastReplacing(parts, i, last);
      }
    }
  }

  /**
   A kept part survives folding exactly if no later kept part may stand in for it, or it has a receipt of its own:
   its command id is not empty and the last part that may stand in for it carries another one.
   */
  lemma SurvivesExactly(parts: seq<Part>, i: nat)
    requires i < |parts| && parts[i].kept && forall p | p in parts :: NulFree(p.kind)
    ensures FoldedPart(parts, i) == parts[i].(kept := FoldedPart(parts, i).kept)
    ensures FoldedPart(parts, i).kept <==>
            (forall j | i < j < |parts| :: !Replaces(parts[j], parts[i])) || HasOwnReceipt(parts, i)
  {
    hide NulFree, Replaces, HasSurvivor;
    SurvivorIsLast(parts, i);
    if j :| i < j < |parts| && Replaces(parts[j], parts[i]) {
      var last := LastReplacing(parts, i, j);
    }
  }

  lemma {:induction false} LastReplacing(parts: seq<Part>, i: nat, j: nat) returns (last: nat)
    requires i < j < |parts| && Replaces(parts[j], parts[i])
    ensures i < last < |parts| && IsLastReplacing(parts, i, last)
    decreases |parts| - j
  {
    hide Replaces;
    if k :| j < k < |parts| && Replaces(parts[k], parts[i]) {
      last := LastReplacing(parts, i, k);
    } else {
      last := j;
    }
  }

  ghost function OwnReceipts(parts: seq<Part>, k: nat): set<int> {
    set i: int | k <= i < |parts| && parts[i].kept && HasOwnReceipt(parts, i)
  }

  /** The receipts folding counts are the kept parts with a receipt of their own. */
  lemma {:induction false} ReceiptsExactly(parts: seq<Part>, k: nat)
    requires k <= |parts| && forall p | p in parts :: NulFree(p.kind)
    ensures ReceiptsFrom(parts, k) == |OwnReceipts(parts, k)|
    decreases |parts| - k
  {
    hide NulFree, HasSurvivor, HasOwnReceipt;
    if k < |parts| {
      ReceiptsExactly(parts, k + 1);
      ReceiptAt(parts, k);
      if parts[k].kept && HasOwnReceipt(parts, k) {
        assert OwnReceipts(parts, k) == OwnReceipts(parts, k + 1) + {k};
      } else {
        assert OwnReceipts(parts, k) == OwnReceipts(parts, k + 1);
      }
    } else {
      assert OwnReceipts(parts, k) == {};
    }
  }

  lemma ReceiptAt(parts: seq<Part>, i: nat)
    requires i < |parts| && forall p | p in parts :: NulFree(p.kind)
    ensures HasSurvivor(parts, i) && IsReceipt(parts, i) <==> parts[i].kept && HasOwnReceipt(parts, i)
  {
    if parts[i].kept {
      hide NulFree, Replaces, HasSurvivor;
      SurvivorIsLast(parts, i);
    }
  }

  /** For example, of two upserts of one message without command ids the first is folded away. */
  lemma EarlierUpsertIsFolded(a: Part, b: Part)
    requires a.kept && b.kept && a.entity == b.entity == "message" && a.entityID == b.entityID
    requires a.kind == b.kind == "message.upsert" && a.commandID == ""
    ensures !FoldedPart([a, b], 0).kept && FoldedPart([a, b], 1).kept
  {
    assert forall p | p in [a, b] :: NulFree(p.kind);
    SurvivesExactly([a, b], 0);
    SurvivesExactly([a, b], 1);
    assert Replaces([a, b][1], [a, b][0]);
  }

  // ---------- what folding drops ----------

  /** The survivor lies later and is not itself replaced. */
  lemma SurvivorStays(parts: seq<Part>, i: nat)
    requires i < |parts| && HasSurvivor(parts, i)
    ensures i < LastIn(parts, ClassOf(parts[i]).value)
    ensures !HasSurvivor(parts, LastIn(parts, ClassOf(parts[i]).value))
  {
    var c := ClassOf(parts[i]).value;
    var j := LastIn(parts, c);
    assert InClass(parts[i], c);
    var own := ClassOf(parts[j]);
    if own.Some? && own.value != c {
      var k := LastIn(parts, own.value);
      assert InClass(parts[j], own.value);
      assert InClass(parts[k], c);
    }
  }

  ghost predicate SameButKept(a: seq<Part>, b: seq<Part>) {
    |a| == |b| && forall i | 0 <= i < |a| :: a[i].(kept := b[i].kept) == b[i]
  }

  /** A part counts only when its cursor was not delivered yet. */
  ghost predicate Fresh(parts: seq<Part>, from: int) {
    forall i | 0 <= i < |parts| :: parts[i].kept <==> parts[i].cursor > from
  }

  /** Parts kept again were still undelivered, and parts kept by folding stay kept. */
  ghost predicate ScanSound(folded: seq<Part>, s: Scan, from: int) {
    && SameButKept(s.parts, folded)
    && (forall i | 0 <= i < |folded| && folded[i].kept :: s.parts[i].kept)
    && (forall i | 0 <= i < |folded| && s.parts[i].kept :: s.parts[i].cursor > from)
  }

  ghost predicate LatestUndelivered(s: Scan, from: int) {
    forall id ::
      var e := ExistenceOf(s.sessions, id);
      e.latest.Some? && !e.covered ==> e.latest.value < |s.parts| && s.parts[e.latest.value].cursor > from
  }

  lemma {:induction false} KeepScanSound(folded: seq<Part>, from: int, n: nat)
    requires n <= |folded|
    requires forall i | 0 <= i < |folded| && folded[i].kept :: folded[i].cursor > from
    ensures ScanSound(folded, KeepScan(folded, from, n), from)
    ensures LatestUndelivered(KeepScan(folded, from, n), from)
  {
    if n > 0 {
      hide KeepStep, SameButKept, LatestUndelivered, ScanSound;
      KeepScanSound(folded, from, n - 1);
      KeepStepSound(folded, KeepScan(folded, from, n - 1), n - 1, from);
      KeepScanStep(folded, from, n - 1);
    } else {
      assert LatestUndelivered(KeepScan(folded, from, 0), from);
    }
  }

  lemma KeepStepSound(folded: seq<Part>, s: Scan, n: nat, from: int)
    requires n < |s.parts| && ScanBounds(s, n)
    requires ScanSound(folded, s, from) && LatestUndelivered(s, from)
    ensures ScanSound(folded, KeepStep(s, n, from), from)
    ensures LatestUndelivered(KeepStep(s, n, from), from)
  {
    hide SessionsAfter, ExistenceOf, IsSessionUpsert, IsSessionRemove, IsUnreadState;
    var p := s.parts[n];
    var r := KeepStep(s, n, from);
    forall id
      ensures
        var e := ExistenceOf(r.sessions, id);
        e.latest.Some? && !e.covered ==> e.latest.value < |r.parts| && r.parts[e.latest.value].cursor > from
    {
      ExistenceAfter(s.sessions, p, n, from, id);
    }
  }

  /** The whole treatment of a page drops only superseded events. */
  lemma FinalPartsDropSuperseded(parts: seq<Part>, from: int)
    requires Fresh(parts, from)
    requires forall p | p in parts :: NulFree(p.kind)
    ensures SameButKept(FinalParts(parts, from), parts)
    ensures Events(FinalParts(parts, from)) == Events(parts)
    ensures DropsOnlySuperseded(Events(parts), Flags(parts), Flags(FinalParts(parts, from)))
  {
    hide EntityKey, KeepScan, FoldedPart, FoldedFrom, FinalParts, Fresh, NulFree;
    var final := FinalParts(parts, from);
    FinalKeepsFolded(parts, from);
    forall i | 0 <= i < |parts| && parts[i].kept && !final[i].kept
      ensures exists j | i < j < |parts| ::
              Flags(parts)[j] && EntityKey(Events(parts)[j]) == EntityKey(Events(parts)[i])
    {
      var j := DroppedHasHeir(parts, i);
      assert Flags(parts)[j];
    }
    forall i | 0 <= i < |parts| && parts[i].kept && parts[i].commandID != ""
      ensures exists j | 0 <= j < |parts| :: Flags(final)[j] && Events(parts)[j].commandID == Events(parts)[i].commandID
    {
      if FoldedPart(parts, i).kept {
        assert Flags(final)[i];
      } else {
        var j := DroppedHasHeir(parts, i);
        assert Flags(final)[j];
      }
    }
  }

  /** The final parts differ from the original ones in flags only, and keep all that folding kept. */
  lemma FinalKeepsFolded(parts: seq<Part>, from: int)
    requires Fresh(parts, from)
    ensures SameButKept(FinalParts(parts, from), parts)
    ensures Events(FinalParts(parts, from)) == Events(parts)
    ensures forall i | 0 <= i < |parts| && FinalParts(parts, from)[i].kept :: parts[i].kept
    ensures forall i | 0 <= i < |parts| && FoldedPart(parts, i).kept :: FinalParts(parts, from)[i].kept
  {
    hide KeepScan, FoldedPart, FoldedFrom;
    FoldedParts(parts);
    KeepScanSound(FoldedFrom(parts, 0), from, |parts|);
    SameEvents(FinalParts(parts, from), parts);
  }

  lemma SameEvents(a: seq<Part>, b: seq<Part>)
    requires SameButKept(a, b)
    ensures Events(a) == Events(b)
  {
    forall i | 0 <= i < |a| ensures EventOf(a[i]) == EventOf(b[i]) {
      KeptFlag(a[i], b[i]);
    }
  }

  lemma FoldedParts(parts: seq<Part>)
    ensures SameButKept(FoldedFrom(parts, 0), parts)
    ensures forall i | 0 <= i < |parts| :: FoldedFrom(parts, 0)[i] == FoldedPart(parts, i)
    ensures forall i | 0 <= i < |parts| && FoldedFrom(parts, 0)[i].kept :: parts[i].kept
  {
    hide HasSurvivor, IsReceipt;
  }

  lemma DroppedHasHeir(parts: seq<Part>, i: nat) returns (j: nat)
    requires i < |parts| && parts[i].kept && !FoldedPart(parts, i).kept
    requires forall p | p in parts :: NulFree(p.kind)
    ensures i < j < |parts| && parts[j].kept && FoldedPart(parts, j).kept
    ensures EntityKey(EventOf(parts[i])) == EntityKey(EventOf(parts[j]))
    ensures parts[i].commandID == "" || parts[i].commandID == parts[j].commandID
  {
    j := LastIn(parts, ClassOf(parts[i]).value);
    SurvivorStays(parts, i);
    ClassSharesKey(parts[i], parts[j]);
  }

  /** Hence the same final client state, part by part. */
  lemma FoldingKeepsStateOfParts(parts: seq<Part>, from: int)
    requires Fresh(parts, from)
    requires forall p | p in parts :: NulFree(p.kind)
    ensures StateAfter(KeptEvents(parts)) == StateAfter(KeptEvents(FinalParts(parts, from)))
  {
    hide FinalParts, StateAfter, DropsOnlySuperseded;
    var final := FinalParts(parts, from);
    FinalPartsDropSuperseded(parts, from);
    DroppingSupersededIsSafe(Events(parts), Flags(parts), Flags(final));
    KeptEventsAreSelected(parts);
    KeptEventsAreSelected(final);
  }

  // ---------- splitting the events of a unit gives back its surviving parts ----------

  /** The message payload is an object (or null) without null `session` or `unread` members. */
  predicate ClientReadable(row: Row) {
    IsMessageUpsert(row.kind, row.entity) ==>
      || row.payload.Null?
      || (row.payload.Obj? &&
          forall key | key in {SESSION_KEY, UNREAD_KEY} && key in row.payload.fields :: row.payload.fields[key] != Null)
  }

  ghost predicate SameUnit(a: Unit, b: Unit) {
    a.row == b.row && a.split == b.split && SameButKept(a.parts, b.parts)
  }

  lemma RefIsEntity(raw: Json)
    requires EmbeddedEntity(raw).Ok?
    ensures ClientRef(raw) == EmbeddedEntity(raw)
  {
  }

  lemma AllOfOne(e: Event)
    ensures AllClientParts([e]) == ClientParts(e)
  {
    assert [e][1..] == [];
    if ClientParts(e).Ok? {
      assert ClientParts(e).value + [] == ClientParts(e).value;
    }
  }

  /** A classic part is never split further. */
  lemma PartsAreClassic(row: Row, from: int, u: Unit, i: nat)
    requires ClientReadable(row) && Resolve(row, from) == Ok(u) && i < |u.parts|
    ensures ClientParts(EventOf(u.parts[i])) == Ok([EventOf(u.parts[i])])
  {
  }

  lemma {:induction false} KeptPartsStaySplit(parts: seq<Part>)
    requires forall i | 0 <= i < |parts| :: ClientParts(EventOf(parts[i])) == Ok([EventOf(parts[i])])
    ensures AllClientParts(KeptEvents(parts)) == Ok(KeptEvents(parts))
  {
    if parts != [] {
      hide ClientParts;
      var rest := KeptEvents(parts[1..]);
      forall i | 0 <= i < |parts[1..]| ensures ClientParts(EventOf(parts[1..][i])) == Ok([EventOf(parts[1..][i])]) {
        assert parts[1..][i] == parts[i + 1];
      }
      KeptPartsStaySplit(parts[1..]);
      if parts[0].kept {
        AllOfOne(EventOf(parts[0]));
        AllClientPartsAppend([EventOf(parts[0])], rest);
      } else {
        assert KeptEvents(parts) == rest;
      }
    }
  }

  lemma KeptFlag(p: Part, q: Part)
    requires p.(kept := q.kept) == q
    ensures EventOf(p) == EventOf(q)
  {
  }

  /** The events a client makes of one embedded payload. */
  ghost function EmbeddedEvents(kind: string, entity: string, raw: Option<Json>): seq<Event>
    requires raw.Some? ==> EmbeddedEntity(raw.value).Ok?
  {
    if raw.None? then []
    else
      var ref := EmbeddedEntity(raw.value).value;
      [Event(0, 0, kind, entity, ref.0, ref.1, false, "", raw.value)]
  }

  /** Splitting what JoinCompound joined gives back the joined pieces. */
  lemma JoinedSplitsBack(event: Event, fields: map<string, Json>, session: Option<Json>, unread: Option<Json>)
    requires IsMessageUpsert(event.kind, event.entity)
    requires SESSION_KEY !in fields && UNREAD_KEY !in fields
    requires session.Some? ==> EmbeddedEntity(session.value).Ok?
    requires unread.Some? ==> EmbeddedEntity(unread.value).Ok?
    requires event.payload == JoinCompound(fields, session, unread)
    ensures ClientParts(event).Ok?
    ensures Contents(ClientParts(event).value) ==
            [Content(event.(payload := Obj(fields)))]
            + EmbeddedEvents(SESSION_UPSERT, SESSION, session) + EmbeddedEvents(UNREAD_SET, SESSION_MEMBER, unread)
  {
    hide EmbeddedEntity, ClientRef;
    var joined := event.payload.fields;
    assert Member(joined, SESSION_KEY) == session && Member(joined, UNREAD_KEY) == unread;
    assert joined - {SESSION_KEY, UNREAD_KEY} == fields;
    if session.Some? {
      RefIsEntity(session.value);
    }
    if unread.Some? {
      RefIsEntity(unread.value);
    }
  }

  /** A readable compound payload is exactly what JoinCompound makes of its pieces. */
  lemma SplitThenJoin(row: Row)
    requires ClientReadable(row) && SplitOf(row).Some?
    ensures
      var c := SplitOf(row).value;
      && SESSION_KEY !in c.fields && UNREAD_KEY !in c.fields
      && row.payload == JoinCompound(c.fields, c.session, c.unread)
  {
    var c := SplitOf(row).value;
    var fields := row.payload.fields;
    assert SESSION_KEY in {SESSION_KEY, UNREAD_KEY} && UNREAD_KEY in {SESSION_KEY, UNREAD_KEY};
    assert JoinCompound(c.fields, c.session, c.unread).fields == fields;
  }

  /** The parts of a resolved compound row. */
  lemma ResolvedCompound(row: Row, from: int, u: Unit)
    requires Resolve(row, from) == Ok(u) && u.split.Some?
    ensures u.row == row && u.split == SplitOf(row)
    ensures
      var c := u.split.value;
      && (c.session.Some? ==> EmbeddedEntity(c.session.value).Ok?)
      && (c.unread.Some? ==> EmbeddedEntity(c.unread.value).Ok?)
      && (c.session.Some? || c.unread.Some?)
      && |u.parts| == PartCount(c)
      && Content(EventOf(u.parts[0])) == Content(EventOf(WholePart(row, from)).(payload := Obj(c.fields)))
      && (c.session.Some? ==> u.parts[1].role == SessionRole && u.parts[1].payload == c.session.value
                              && [Content(EventOf(u.parts[1]))] == EmbeddedEvents(SESSION_UPSERT, SESSION, c.session))
      && (c.unread.Some? ==>
            var last := u.parts[|u.parts| - 1];
            && last.role == UnreadRole && last.payload == c.unread.value
            && [Content(EventOf(last))] == EmbeddedEvents(UNREAD_SET, SESSION_MEMBER, c.unread))
  {
    hide EmbeddedEntity;
  }

  /** What a compound event splits into: the message and the embedded parts that survived. */
  lemma CompoundSplitsBack(row: Row, from: int, u: Unit, u': Unit)
    requires ClientReadable(row) && Resolve(row, from) == Ok(u) && SameUnit(u', u)
    requires u.split.Some? && |u'.parts| > 0 && u'.parts[0].kept
    ensures ClientParts(CompoundEvent(u')).Ok?
    ensures Contents(ClientParts(CompoundEvent(u')).value) == Contents(KeptEvents(u'.parts))
  {
    hide Resolve, EmbeddedEntity, ClientParts, ClientReadable, JoinCompound, CompoundEvent, EmbeddedEvents, KeptEvents;
    ResolvedCompound(row, from, u);
    SplitThenJoin(row);
    var c := u.split.value;
    var parts := u'.parts;
    var n := |parts|;
    var session := if c.session.Some? && parts[1].kept then c.session else None;
    var unread := if c.unread.Some? && parts[n - 1].kept then c.unread else None;
    forall i | 0 <= i < n ensures EventOf(parts[i]) == EventOf(u.parts[i]) {
      KeptFlag(parts[i], u.parts[i]);
    }
    var event := CompoundEvent(u');
    assert event.payload == JoinCompound(c.fields, session, unread) by {
      CompoundEventPayload(u', session, unread);
    }
    CompoundEventHead(u', Obj(c.fields));
    JoinedSplitsBack(event, c.fields, session, unread);
    KeptContents(u, u', session, unread);
  }

  /** The contents of the kept parts of a compound unit whose message is kept. */
  lemma KeptContents(u: Unit, u': Unit, session: Option<Json>, unread: Option<Json>)
    requires u.split.Some? && 1 < |u'.parts| == |u.parts| == PartCount(u.split.value) && u'.parts[0].kept
    requires forall i | 0 <= i < |u.parts| :: EventOf(u'.parts[i]) == EventOf(u.parts[i])
    requires
      var c, last := u.split.value, |u.parts| - 1;
      && (c.session.Some? ==> EmbeddedEntity(c.session.value).Ok?
                              && [Content(EventOf(u.parts[1]))] == EmbeddedEvents(SESSION_UPSERT, SESSION, c.session))
      && (c.unread.Some? ==> EmbeddedEntity(c.unread.value).Ok?
                             && [Content(EventOf(u.parts[last]))]
                               == EmbeddedEvents(UNREAD_SET, SESSION_MEMBER, c.unread))
      && session == (if c.session.Some? && u'.parts[1].kept then c.session else None)
      && unread == (if c.unread.Some? && u'.parts[last].kept then c.unread else None)
    ensures Contents(KeptEvents(u'.parts)) ==
            [Content(EventOf(u.parts[0]))] + EmbeddedEvents(SESSION_UPSERT, SESSION, session)
              + EmbeddedEvents(UNREAD_SET, SESSION_MEMBER, unread)
  {
    hide EmbeddedEntity, Content, EventOf, EmbeddedEvents;
    var parts := u'.parts;
    KeptOfCompound(parts);
    NoEmbeddedEvents();
    forall i | 0 <= i < |parts|
      ensures Contents(KeptEvent(parts[i])) == if parts[i].kept then [Content(EventOf(u.parts[i]))] else []
    {
    }
    ContentsAppend(KeptEvent(parts[0]), KeptEvent(parts[1]));
    if |parts| == 3 {
      ContentsAppend(KeptEvent(parts[0]) + KeptEvent(parts[1]), KeptEvent(parts[2]));
    }
  }

  lemma NoEmbeddedEvents()
    ensures forall kind, entity :: EmbeddedEvents(kind, entity, None) == []
  {
  }

  /** Apart from its payload and cursors, a compound event is its message. */
  lemma CompoundEventHead(u: Unit, payload: Json)
    requires |u.parts| > 0 && u.split.Some?
    ensures Content(CompoundEvent(u).(payload := payload)) == Content(EventOf(u.parts[0]).(payload := payload))
    ensures IsMessageUpsert(u.parts[0].kind, u.parts[0].entity) ==>
            IsMessageUpsert(CompoundEvent(u).kind, CompoundEvent(u).entity)
  {
  }

  /** The payload of a compound event joins the embedded payloads that survived. */
  lemma CompoundEventPayload(u: Unit, session: Option<Json>, unread: Option<Json>)
    requires u.split.Some? && 1 < |u.parts| == PartCount(u.split.value)
    requires
      var c := u.split.value;
      && (c.session.Some? ==> u.parts[1].role == SessionRole && u.parts[1].payload == c.session.value)
      && (c.unread.Some? ==>
            u.parts[|u.parts| - 1].role == UnreadRole && u.parts[|u.parts| - 1].payload == c.unread.value)
      && u.row.payload == JoinCompound(c.fields, c.session, c.unread)
      && session == (if c.session.Some? && u.parts[1].kept then c.session else None)
      && unread == (if c.unread.Some? && u.parts[|u.parts| - 1].kept then c.unread else None)
    ensures CompoundEvent(u).payload == JoinCompound(u.split.value.fields, session, unread)
  {
    hide JoinCompound;
    var tail := u.parts[1..];
    if |tail| == 1 {
      OneEmbedded(tail[0]);
      assert tail == [tail[0]];
    } else {
      TwoEmbedded(tail[0], tail[1]);
      assert tail == [tail[0], tail[1]];
    }
  }

  function PayloadIfKept(p: Part): Option<Json> {
    if p.kept then Some(p.payload) else None
  }

  lemma OneEmbedded(p: Part)
    ensures |KeptParts([p])| == 1 <==> p.kept
    ensures LastPayload(KeptParts([p]), true) == if p.role == SessionRole then PayloadIfKept(p) else None
    ensures LastPayload(KeptParts([p]), false) == if p.role == SessionRole then None else PayloadIfKept(p)
  {
    assert [p][..0] == [] && KeptParts([p]) == if p.kept then [p] else [];
  }

  lemma TwoEmbedded(p: Part, q: Part)
    requires p.role == SessionRole && q.role == UnreadRole
    ensures |KeptParts([p, q])| == 2 <==> p.kept && q.kept
    ensures LastPayload(KeptParts([p, q]), true) == PayloadIfKept(p)
    ensures LastPayload(KeptParts([p, q]), false) == PayloadIfKept(q)
  {
    OneEmbedded(p);
    assert [p, q] == [p] + [q];
    KeptPartsSnoc([p], q);
    if q.kept {
      LastPayloadSnoc(KeptParts([p]), q, true);
      LastPayloadSnoc(KeptParts([p]), q, false);
    }
  }

  /** The kept events of two or three parts, spelled out. */
  lemma KeptOfCompound(parts: seq<Part>)
    requires 1 < |parts| <= 3
    ensures |parts| == 2 ==> KeptEvents(parts) == KeptEvent(parts[0]) + KeptEvent(parts[1])
    ensures |parts| == 3 ==> KeptEvents(parts) == KeptEvent(parts[0]) + KeptEvent(parts[1]) + KeptEvent(parts[2])
  {
    var rest := parts[1..];
    assert KeptEvents(rest) == KeptEvent(parts[1]) + KeptEvents(rest[1..]);
    if |parts| == 2 {
      assert rest[1..] == [];
    } else {
      var last := rest[1..];
      assert last == [parts[2]] && last[1..] == [];
      assert KeptEvents(last) == KeptEvent(parts[2]) + KeptEvents(last[1..]);
    }
  }

  lemma UnitSplitsBack(row: Row, from: int, u: Unit, u': Unit)
    requires ClientReadable(row) && Resolve(row, from) == Ok(u) && SameUnit(u', u)
    requires |u'.parts| > 0
    ensures AllClientParts(UnitEvents(u')).Ok?
    ensures Contents(AllClientParts(UnitEvents(u')).value) == Contents(KeptEvents(u'.parts))
  {
    hide Resolve, ClientReadable, ClientParts;
    if u'.split.Some? && u'.parts[0].kept {
      CompoundSplitsBack(row, from, u, u');
      AllOfOne(CompoundEvent(u'));
    } else {
      forall i | 0 <= i < |u'.parts| ensures ClientParts(EventOf(u'.parts[i])) == Ok([EventOf(u'.parts[i])]) {
        PartsAreClassic(row, from, u, i);
        KeptFlag(u'.parts[i], u.parts[i]);
      }
      KeptPartsStaySplit(u'.parts);
    }
  }

  // ---------- whole pages ----------

  lemma ContentsAppend(a: seq<Event>, b: seq<Event>)
    ensures Contents(a + b) == Contents(a) + Contents(b)
  {
  }

  /** first_cursor does not matter to a client's parts. */
  lemma FirstCursorIgnored(e: Event, previous: int)
    requires ClientParts(e).Ok?
    ensures ClientParts(AddFirstCursor(e, previous)).Ok?
    ensures Contents(ClientParts(AddFirstCursor(e, previous)).value) == Contents(ClientParts(e).value)
  {
    hide ClientRef;
  }

  lemma {:induction false} ChainingKeepsParts(events: seq<Event>, previous: int)
    requires AllClientParts(events).Ok?
    ensures AllClientParts(Chained(events, previous)).Ok?
    ensures Contents(AllClientParts(Chained(events, previous)).value) == Contents(AllClientParts(events).value)
  {
    if events != [] {
      hide ClientParts;
      FirstCursorIgnored(events[0], previous);
      ChainingKeepsParts(events[1..], events[0].cursor);
      var chained := Chained(events, previous);
      assert chained[0] == AddFirstCursor(events[0], previous)
             && chained[1..] == Chained(events[1..], events[0].cursor);
      ContentsAppend(ClientParts(events[0]).value, AllClientParts(events[1..]).value);
      ContentsAppend(ClientParts(chained[0]).value, AllClientParts(chained[1..]).value);
    }
  }

  ghost predicate SameUnits(a: seq<Unit>, b: seq<Unit>) {
    |a| == |b| && forall i | 0 <= i < |a| :: SameUnit(a[i], b[i])
  }

  lemma {:induction false} UnitsSplitBack(rows: seq<Row>, from: int, units: seq<Unit>, changed: seq<Unit>)
    requires ResolveAll(rows, from) == Ok(units)
    requires forall row | row in rows :: ClientReadable(row)
    requires SameUnits(changed, units) && forall u | u in changed :: |u.parts| > 0
    ensures AllClientParts(AllUnitEvents(changed)).Ok?
    ensures Contents(AllClientParts(AllUnitEvents(changed)).value) == Contents(KeptEvents(Flat(changed)))
  {
    if changed != [] {
      hide Resolve, ClientReadable, UnitEvents, ClientParts, SameUnit;
      var first, rest := UnitEvents(changed[0]), AllUnitEvents(changed[1..]);
      UnitSplitsBack(rows[0], from, units[0], changed[0]);
      UnitsSplitBack(rows[1..], from, units[1..], changed[1..]);
      AllClientPartsAppend(first, rest);
      KeptEventsAppend(changed[0].parts, Flat(changed[1..]));
      ContentsAppend(AllClientParts(first).value, AllClientParts(rest).value);
      ContentsAppend(KeptEvents(changed[0].parts), KeptEvents(Flat(changed[1..])));
    }
  }

  lemma ConstantKindsNulFree()
    ensures NulFree(SESSION_UPSERT) && NulFree(UNREAD_SET)
  {
  }

  lemma ResolvedParts(row: Row, from: int, u: Unit)
    requires Resolve(row, from) == Ok(u) && NulFree(row.kind)
    ensures Fresh(u.parts, from)
    ensures forall p | p in u.parts :: NulFree(p.kind)
  {
    hide EmbeddedEntity, SplitCompound, NulFree;
    ConstantKindsNulFree();
  }

  lemma {:induction false} FlatFacts(rows: seq<Row>, from: int, units: seq<Unit>)
    requires ResolveAll(rows, from) == Ok(units)
    requires forall row | row in rows :: NulFree(row.kind)
    ensures Fresh(Flat(units), from)
    ensures forall p | p in Flat(units) :: NulFree(p.kind)
  {
    if rows != [] {
      hide Resolve, NulFree;
      ResolvedParts(rows[0], from, units[0]);
      FlatFacts(rows[1..], from, units[1..]);
    }
  }

  lemma {:induction false} ShapeIsSameUnits(a: seq<Unit>, b: seq<Unit>)
    requires SameShape(a, b) && SameButKept(Flat(a), Flat(b))
    ensures SameUnits(a, b)
  {
    if a != [] {
      var n := |a[0].parts|;
      forall i | 0 <= i < n ensures a[0].parts[i].(kept := b[0].parts[i].kept) == b[0].parts[i] {
        assert Flat(a)[i] == a[0].parts[i] && Flat(b)[i] == b[0].parts[i];
      }
      forall i | 0 <= i < |Flat(a[1..])| ensures Flat(a[1..])[i].(kept := Flat(b[1..])[i].kept) == Flat(b[1..])[i] {
        assert Flat(a)[n + i] == Flat(a[1..])[i] && Flat(b)[n + i] == Flat(b[1..])[i];
      }
      ShapeIsSameUnits(a[1..], b[1..]);
      forall i | 0 <= i < |a| ensures SameUnit(a[i], b[i]) {
        if i > 0 {
          assert a[i] == a[1..][i - 1] && b[i] == b[1..][i - 1];
        }
      }
    }
  }

  lemma AllUnitsFit(units: seq<Unit>, from: int)
    ensures Expanded(units, from, 0).events == KeptEvents(Flat(units))
    ensures Expanded(units, from, 0).rows == |units|
    ensures Expanded(units, from, 0).nextCursor == if units == [] then from else units[|units| - 1].row.cursor
  {
    NoCap(units, 0, 0);
    assert units[..|units|] == units;
  }

  lemma {:induction false} NoCap(units: seq<Unit>, taken: nat, count: nat)
    ensures UnitsThatFit(units, taken, count, 0) == |units|
  {
    if units != [] {
      NoCap(units[1..], taken + 1, count + |KeptEvents(units[0].parts)|);
    }
  }

  /** A page of stored rows a client can read. */
  ghost predicate ReadableRows(rows: seq<Row>) {
    forall row | row in rows :: ClientReadable(row) && NulFree(row.kind)
  }

  lemma {:induction false} ExpandedPartsStaySplit(rows: seq<Row>, from: int, units: seq<Unit>)
    requires ResolveAll(rows, from) == Ok(units) && ReadableRows(rows)
    ensures AllClientParts(KeptEvents(Flat(units))) == Ok(KeptEvents(Flat(units)))
  {
    if rows != [] {
      hide Resolve, ClientReadable, ClientParts;
      forall i | 0 <= i < |units[0].parts|
        ensures ClientParts(EventOf(units[0].parts[i])) == Ok([EventOf(units[0].parts[i])])
      {
        PartsAreClassic(rows[0], from, units[0], i);
      }
      KeptPartsStaySplit(units[0].parts);
      ExpandedPartsStaySplit(rows[1..], from, units[1..]);
      KeptEventsAppend(units[0].parts, Flat(units[1..]));
      AllClientPartsAppend(KeptEvents(units[0].parts), KeptEvents(Flat(units[1..])));
    }
  }

  /** However a page is shaped, a client can split it into the kept parts of its units. */
  lemma CompoundPageSplits(rows: seq<Row>, from: int, units: seq<Unit>, fold: bool)
    requires ResolveAll(rows, from) == Ok(units) && ReadableRows(rows)
    requires forall u | u in units :: |u.parts| > 0
    ensures
      var split := AllClientParts(CompoundPage(units, from, fold).events);
      && split.Ok?
      && Contents(split.value) == Contents(KeptEvents(if fold then FinalParts(Flat(units), from) else Flat(units)))
  {
    hide Resolve, ClientReadable, FinalParts, Chained, ClientParts;
    FlatFacts(rows, from, units);
    var shaped := if fold then FoldedUnits(units, from) else units;
    if fold {
      FinalPartsDropSuperseded(Flat(units), from);
      ShapeKeepsParts(shaped, units);
    }
    ShapeIsSameUnits(shaped, units);
    UnitsSplitBack(rows, from, units, shaped);
    ChainingKeepsParts(AllUnitEvents(shaped), from);
  }

  /**
   The law the backtest checks page by page: a client that receives a page as
   compound events, folded or not, ends in the same state and with the same receipts
   as a client that receives every stored row.
   */
  lemma ShapedPageSameState(rows: seq<Row>, from: int, shaped: Options, plain: Page, page: Page)
    requires ReadableRows(rows)
    requires shaped.compound
    requires PageOf(rows, from, Options(false, false, 0)) == Ok(plain)
    requires PageOf(rows, from, shaped) == Ok(page)
    ensures FinalStateOf(plain.events).Ok?
    ensures FinalStateOf(page.events) == FinalStateOf(plain.events)
    ensures plain.rows == page.rows == |rows| && plain.nextCursor == page.nextCursor
  {
    hide ResolveAll, FinalParts, StateAfter, AllClientParts, CompoundPage;
    var units := ResolveAll(rows, from).value;
    ResolvedUnits(rows, from);
    AllUnitsFit(units, from);
    ExpandedPartsStaySplit(rows, from, units);
    CompoundPageSplits(rows, from, units, shaped.fold);
    CompoundPageRows(units, from, shaped.fold);
    FlatFacts(rows, from, units);
    FoldingKeepsStateOfParts(Flat(units), from);
    var parts := if shaped.fold then FinalParts(Flat(units), from) else Flat(units);
    ContentDecidesState(AllClientParts(page.events).value, KeptEvents(parts));
  }

  lemma CompoundPageRows(units: seq<Unit>, from: int, fold: bool)
    requires forall u | u in units :: |u.parts| > 0
    ensures CompoundPage(units, from, fold).rows == |units|
    ensures CompoundPage(units, from, fold).nextCursor == if units == [] then from else units[|units| - 1].row.cursor
  {
  }

  // ---------- the condition on payloads is exact ----------

  /** A row kept whole can be split by a client exactly when it is readable. */
  lemma ReadableIsExact(row: Row, from: int, u: Unit)
    requires Resolve(row, from) == Ok(u) && u.parts[0].kept && row.cursor > from
    requires KeptParts(u.parts[1..]) == u.parts[1..]
    ensures AllClientParts(UnitEvents(u)).Ok? <==> ClientReadable(row)
  {
    if ClientReadable(row) {
      UnitSplitsBack(row, from, u, u);
    } else {
      hide EmbeddedEntity, StateVersion, StringMember;
      var event := if u.split.Some? then CompoundEvent(u) else EventOf(u.parts[0]);
      assert UnitEvents(u) == [event] by {
        if u.split.None? {
          assert u.parts[1..] == [];
          assert KeptEvents(u.parts) == KeptEvent(u.parts[0]) + KeptEvents(u.parts[1..]);
        }
      }
      AllOfOne(event);
      assert event.payload == row.payload && IsMessageUpsert(event.kind, event.entity);
      UnreadablePayload(event);
    }
  }

  /** A message row whose `session` member is null is shaped into a page that a client cannot read. */
  lemma NullMemberIsUnreadable(id: string, version: int, opts: Options)
    ensures
      var row := Row(1, MESSAGE_UPSERT, MESSAGE, id, version, false, "", 0, Obj(map[SESSION_KEY := Null]));
      && Resolve(row, 0).Ok? && !ClientReadable(row)
      && PageOf([row], 0, opts.(compound := true, fold := false)).Ok?
      && AllClientParts(PageOf([row], 0, opts.(compound := true, fold := false)).value.events).Err?
  {
    var row := Row(1, MESSAGE_UPSERT, MESSAGE, id, version, false, "", 0, Obj(map[SESSION_KEY := Null]));
    var u := Unit(row, None, [WholePart(row, 0)]);
    var event := EventOf(WholePart(row, 0));
    assert Resolve(row, 0) == Ok(u);
    assert [row][1..] == [] && [u] + [] == [u] && [u][1..] == [];
    assert ResolveAll([row], 0) == Ok([u]);
    assert KeptEvents(u.parts) == KeptEvent(u.parts[0]) + KeptEvents(u.parts[1..]) && u.parts[1..] == [];
    assert AllUnitEvents([u]) == [event] + AllUnitEvents([]) && AllUnitEvents([]) == [];
    assert Chained([event], 0) == [event] by {
      assert [event][1..] == [];
    }
    AllOfOne(event);
    assert event.payload.fields[SESSION_KEY] == Null;
    UnreadablePayload(event);
  }

  lemma UnreadablePayload(event: Event)
    requires IsMessageUpsert(event.kind, event.entity) && !event.payload.Null?
    requires event.payload.Obj? ==>
               exists key | key in {SESSION_KEY, UNREAD_KEY} && key in event.payload.fields ::
                 event.payload.fields[key] == Null
    ensures ClientParts(event).Err?
  {
    assert ClientRef(Null).Err?;
  }
}
