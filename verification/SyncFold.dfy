/**
 The page shaping of the sync stream: compound message rows, their expansion into
 classic events, and the folding of superseded events.
 */
module SyncFold {
  import opened Wrappers
  import opened GoText
  import opened SyncModel

  // ---------- compound payloads ----------

  /** A message object without its embedded parts, and the embedded parts. */
  datatype Compound = Compound(fields: map<string, Json>, session: Option<Json>, unread: Option<Json>)

  function Present(fields: map<string, Json>, key: string): Option<Json> {
    if key in fields && fields[key] != Null then Some(fields[key]) else None
  }

  function SplitCompound(payload: Json): Option<Compound> {
    if !payload.Obj? then None
    else
      var session := Present(payload.fields, SESSION_KEY);
      var unread := Present(payload.fields, UNREAD_KEY);
      if session.None? && unread.None? then None
      else Some(Compound(payload.fields - {SESSION_KEY, UNREAD_KEY}, session, unread))
  }

  function PartCount(c: Compound): nat {
    1 + (if c.session.Some? then 1 else 0) + (if c.unread.Some? then 1 else 0)
  }

  function JoinCompound(fields: map<string, Json>, session: Option<Json>, unread: Option<Json>): Json {
    var withSession := if session.Some? then fields[SESSION_KEY := session.value] else fields;
    Obj(if unread.Some? then withSession[UNREAD_KEY := unread.value] else withSession)
  }

  /** The entity id and version an embedded part had as a classic row. */
  function EmbeddedEntity(raw: Json): Result<(string, int), SyncError> {
    match raw
    case Obj(fields) =>
      var id :- StringMember(fields, "session_id");
      if TrimSpace(id) == "" then Err(NoSessionId)
      else
        var version :- StateVersion(fields);
        Ok((id, version))
    case Null => Err(NoSessionId)
    case _ => Err(BadMember)
  }

  /** A payload can be embedded if and only if it names its session, not blank, and its version. */
  lemma EmbeddedMeaning(payload: Json, id: string, version: int)
    ensures EmbeddedEntity(payload) == Ok((id, version)) <==>
            && payload.Obj?
            && "session_id" in payload.fields && payload.fields["session_id"] == Text(id) && TrimSpace(id) != ""
            && StateVersion(payload.fields) == Ok(version)
  {
    hide StateVersion, TrimSpace;
    NothingToTrimInEmpty();
  }

  lemma NothingToTrimInEmpty()
    ensures TrimSpace("") == ""
  {
  }

  function CheckEmbedded(part: Option<Json>): Result<(), SyncError> {
    if part.None? then Ok(())
    else
      var _ :- EmbeddedEntity(part.value);
      Ok(())
  }

  /** Embeds session and unread into a message payload, as the writer of compound rows does. */
  function CompoundPayload(message: Json, session: Option<Json>, unread: Option<Json>): Result<Json, SyncError> {
    if !message.Obj? then Err(NotAnObject)
    else
      var _ :- CheckEmbedded(session);
      var _ :- CheckEmbedded(unread);
      if SESSION_KEY in message.fields then Err(AlreadyHas(SESSION_KEY))
      else if UNREAD_KEY in message.fields then Err(AlreadyHas(UNREAD_KEY))
      else Ok(JoinCompound(message.fields, session, unread))
  }

  // ---------- units: one row and its parts ----------

  datatype Options = Options(compound: bool, fold: bool, maxEvents: nat)

  datatype Page = Page(events: seq<Event>, rows: nat, nextCursor: int, receipts: nat, reordered: nat)

  datatype Role = RowRole | MessageRole | SessionRole | UnreadRole

  /** One classic event of a row; payload is the event's own payload. */
  datatype Part = Part(role: Role, cursor: int, kind: string, entity: string, entityID: string, version: int,
                       tombstone: bool, commandID: string, payload: Json, kept: bool)

  datatype Unit = Unit(row: Row, split: Option<Compound>, parts: seq<Part>)

  function EventOf(p: Part): Event {
    Event(p.cursor, 0, p.kind, p.entity, p.entityID, p.version, p.tombstone, p.commandID, p.payload)
  }

  function WholePart(row: Row, from: int): Part {
    Part(RowRole, row.cursor, row.kind, row.entity, row.entityID, row.version,
         row.tombstone, row.commandID, row.payload, row.cursor > from)
  }

  /** The part an embedded payload stands for; a cursor at or before from was already delivered. */
  function EmbeddedParts(role: Role, raw: Option<Json>, cursor: int, from: int): Result<seq<Part>, SyncError> {
    if raw.None? then Ok([])
    else
      var ref :- EmbeddedEntity(raw.value);
      var (kind, entity) := if role == SessionRole then (SESSION_UPSERT, SESSION) else (UNREAD_SET, SESSION_MEMBER);
      Ok([Part(role, cursor, kind, entity, ref.0, ref.1, false, "", raw.value, cursor > from)])
  }

  function SplitOf(row: Row): Option<Compound> {
    if IsMessageUpsert(row.kind, row.entity) then SplitCompound(row.payload) else None
  }

  function Resolve(row: Row, from: int): Result<Unit, SyncError> {
    var split := SplitOf(row);
    if split.None? then Ok(Unit(row, None, [WholePart(row, from)]))
    else
      var c := split.value;
      var first := row.cursor - PartCount(c) + 1;
      var message := WholePart(row, from).(role := MessageRole, cursor := first, payload := Obj(c.fields),
                                                kept := first > from);
      var session :- EmbeddedParts(SessionRole, c.session, first + 1, from);
      var unread :- EmbeddedParts(UnreadRole, c.unread, first + 1 + |session|, from);
      Ok(Unit(row, split, [message] + session + unread))
  }

  function ResolveAll(rows: seq<Row>, from: int): Result<seq<Unit>, SyncError> {
    if rows == [] then Ok([])
    else
      var unit :- Resolve(rows[0], from);
      var rest :- ResolveAll(rows[1..], from);
      Ok([unit] + rest)
  }

  function Flat(units: seq<Unit>): seq<Part> {
    if units == [] then [] else units[0].parts + Flat(units[1..])
  }

  // ---------- expansion for a client without compound rows ----------

  function KeptEvents(parts: seq<Part>): seq<Event> {
    if parts == [] then []
    else KeptEvent(parts[0]) + KeptEvents(parts[1..])
  }

  function KeptEvent(p: Part): seq<Event> {
    if p.kept then [EventOf(p)] else []
  }

  /** How many leading units fit into maxEvents (0: no cap) when `count` events are already taken. */
  function UnitsThatFit(units: seq<Unit>, taken: nat, count: nat, maxEvents: nat): nat {
    if units == [] then 0
    else if maxEvents > 0 && taken > 0 && count + |units[0].parts| > maxEvents then 0
    else 1 + UnitsThatFit(units[1..], taken + 1, count + |KeptEvents(units[0].parts)|, maxEvents)
  }

  ghost function Expanded(units: seq<Unit>, from: int, maxEvents: nat): Page {
    var n := UnitsThatFit(units, 0, 0, maxEvents);
    UnitsThatFitBound(units, 0, 0, maxEvents);
    Page(KeptEvents(Flat(units[..n])), n, if n == 0 then from else units[n - 1].row.cursor, 0, 0)
  }

  lemma {:induction false} UnitsThatFitBound(units: seq<Unit>, taken: nat, count: nat, maxEvents: nat)
    ensures UnitsThatFit(units, taken, count, maxEvents) <= |units|
  {
    if units != [] {
      UnitsThatFitBound(units[1..], taken + 1, count + |KeptEvents(units[0].parts)|, maxEvents);
    }
  }

  lemma {:induction false} FlatAppend(a: seq<Unit>, b: seq<Unit>)
    ensures Flat(a + b) == Flat(a) + Flat(b)
  {
    if a == [] {
      assert a + b == b;
    } else {
      assert (a + b)[1..] == a[1..] + b;
      FlatAppend(a[1..], b);
    }
  }

  lemma {:induction false} KeptEventsAppend(a: seq<Part>, b: seq<Part>)
    ensures KeptEvents(a + b) == KeptEvents(a) + KeptEvents(b)
  {
    if a == [] {
      assert a + b == b;
    } else {
      assert (a + b)[1..] == a[1..] + b;
      KeptEventsAppend(a[1..], b);
    }
  }

  lemma KeptEventsStep(parts: seq<Part>, j: nat)
    requires j < |parts|
    ensures KeptEvents(parts[..j + 1]) ==
            if parts[j].kept then KeptEvents(parts[..j]) + [EventOf(parts[j])] else KeptEvents(parts[..j])
  {
    hide EventOf;
    assert parts[..j + 1] == parts[..j] + [parts[j]];
    KeptEventsAppend(parts[..j], [parts[j]]);
    assert KeptEvents([parts[j]]) == KeptEvent(parts[j]);
  }

  /** Appends the events of the kept parts. */
  method AppendKept(events: seq<Event>, parts: seq<Part>) returns (all: seq<Event>)
    ensures all == events + KeptEvents(parts)
  {
    all := events;
    var j := 0;
    while j < |parts|
      invariant 0 <= j <= |parts|
      invariant all == events + KeptEvents(parts[..j])
    {
      KeptEventsStep(parts, j);
      if parts[j].kept {
        all := all + [EventOf(parts[j])];
      }
      j := j + 1;
    }
    assert parts[..j] == parts;
  }

  lemma NothingKept(units: seq<Unit>)
    ensures KeptEvents(Flat(units[..0])) == []
  {
  }

  lemma KeptOfPrefix(units: seq<Unit>, i: nat)
    requires i < |units|
    ensures KeptEvents(Flat(units[..i + 1])) == KeptEvents(Flat(units[..i])) + KeptEvents(units[i].parts)
  {
    assert units[..i + 1] == units[..i] + [units[i]];
    FlatAppend(units[..i], [units[i]]);
    assert [units[i]][1..] == [] && Flat([units[i]]) == units[i].parts;
    KeptEventsAppend(Flat(units[..i]), units[i].parts);
  }

  lemma {:induction false} FitIsExact(units: seq<Unit>, taken: nat, count: nat, maxEvents: nat)
    ensures
      var n := UnitsThatFit(units, taken, count, maxEvents);
      && n <= |units|
      && var total := count + |KeptEvents(Flat(units[..n]))|;
      && (maxEvents > 0 && n > 0 && taken + n > 1 ==> total <= maxEvents)
      && (n < |units| ==> maxEvents > 0 && taken + n > 0 && total + |units[n].parts| > maxEvents)
  {
    var n := UnitsThatFit(units, taken, count, maxEvents);
    UnitsThatFitBound(units, taken, count, maxEvents);
    if n == 0 {
      NothingKept(units);
    } else {
      var u, rest, n' := units[0], units[1..], n - 1;
      var count' := count + |KeptEvents(u.parts)|;
      FitIsExact(rest, taken + 1, count', maxEvents);
      assert units[..n] == [u] + rest[..n'] && ([u] + rest[..n'])[1..] == rest[..n'];
      KeptEventsAppend(u.parts, Flat(rest[..n']));
      KeptAtMost(u.parts);
      if n' == 0 {
        NothingKept(rest);
      }
    }
  }

  lemma {:induction false} KeptAtMost(parts: seq<Part>)
    ensures |KeptEvents(parts)| <= |parts|
  {
    if parts != [] {
      KeptAtMost(parts[1..]);
    }
  }

  /**
   A capped page takes whole rows: more than one only while its events stay within the cap, and it leaves a row only
   if the row's parts would exceed it. It never leaves the first row, and without a cap it leaves none.
   */
  lemma CapIsExact(units: seq<Unit>, from: int, maxEvents: nat)
    ensures
      var page := Expanded(units, from, maxEvents);
      && page.rows <= |units|
      && (maxEvents > 0 && page.rows > 1 ==> |page.events| <= maxEvents)
      && (page.rows < |units| ==>
            maxEvents > 0 && page.rows > 0 && |page.events| + |units[page.rows].parts| > maxEvents)
  {
    FitIsExact(units, 0, 0, maxEvents);
  }

  /** Every kept part of the units that fit becomes a classic event at its own cursor. */
  method Expand(units: seq<Unit>, from: int, maxEvents: nat) returns (page: Page)
    ensures page == Expanded(units, from, maxEvents)
  {
    hide KeptEvents, Flat;
    page := Page([], 0, from, 0, 0);
    NothingKept(units);
    var i := 0;
    while i < |units|
      invariant 0 <= i <= |units| && page.rows == i
      invariant page.events == KeptEvents(Flat(units[..i]))
      invariant page.nextCursor == if i == 0 then from else units[i - 1].row.cursor
      invariant page.receipts == page.reordered == 0
      invariant UnitsThatFit(units, 0, 0, maxEvents) == i + UnitsThatFit(units[i..], i, |page.events|, maxEvents)
    {
      var u := units[i];
      if maxEvents > 0 && page.rows > 0 && |page.events| + |u.parts| > maxEvents {
        break;
      }
      KeptOfPrefix(units, i);
      var events := AppendKept(page.events, u.parts);
      page := page.(events := events, rows := page.rows + 1, nextCursor := u.row.cursor);
      i := i + 1;
    }
  }

  // ---------- folding: what is superseded ----------

  /** A set of parts of which only the last one matters to a client. */
  datatype FoldClass = MessageClass(id: string) | RevokeClass(id: string) | StateClass(key: string)

  function StateKey(p: Part): string {
    p.kind + "\0" + p.entity + "\0" + p.entityID
  }

  predicate IsFoldableState(p: Part) {
    (p.entity == SESSION || p.entity == SESSION_MEMBER) && !p.tombstone
  }

  /** The class whose last member may replace p: an upsert yields to upserts and revokes, a revoke to revokes. */
  function ClassOf(p: Part): Option<FoldClass> {
    if p.entity == MESSAGE && p.kind == MESSAGE_UPSERT then Some(MessageClass(p.entityID))
    else if p.entity == MESSAGE && p.kind == MESSAGE_REVOKE then Some(RevokeClass(p.entityID))
    else if IsFoldableState(p) then Some(StateClass(StateKey(p)))
    else None
  }

  predicate InClass(p: Part, class_: FoldClass) {
    p.kept &&
    match class_
    case MessageClass(id) =>
      p.entity == MESSAGE && (p.kind == MESSAGE_UPSERT || p.kind == MESSAGE_REVOKE) && p.entityID == id
    case RevokeClass(id) => p.entity == MESSAGE && p.kind == MESSAGE_REVOKE && p.entityID == id
    case StateClass(key) => IsFoldableState(p) && StateKey(p) == key
  }

  /** The index of the last member of a class, or -1. */
  ghost function LastIn(parts: seq<Part>, class_: FoldClass): (i: int)
    ensures -1 <= i < |parts|
    ensures i >= 0 ==> InClass(parts[i], class_)
    ensures forall j | i < j < |parts| :: !InClass(parts[j], class_)
  {
    if parts == [] then -1
    else if InClass(parts[|parts| - 1], class_) then |parts| - 1
    else LastIn(parts[..|parts| - 1], class_)
  }

  /** A later member of the part's class survives in its place. */
  ghost predicate HasSurvivor(parts: seq<Part>, i: nat)
    requires i < |parts|
  {
    parts[i].kept && ClassOf(parts[i]).Some? && LastIn(parts, ClassOf(parts[i]).value) != i
  }

  /** Its command id is a receipt the survivor does not carry. */
  ghost predicate IsReceipt(parts: seq<Part>, i: nat)
    requires i < |parts| && HasSurvivor(parts, i)
  {
    var p := parts[i];
    p.commandID != "" && p.commandID != parts[LastIn(parts, ClassOf(p).value)].commandID
  }

  ghost function FoldedPart(parts: seq<Part>, i: nat): Part
    requires i < |parts|
  {
    if HasSurvivor(parts, i) && !IsReceipt(parts, i) then parts[i].(kept := false) else parts[i]
  }

  ghost function FoldedFrom(parts: seq<Part>, k: nat): (r: seq<Part>)
    ensures |r| == |parts|
  {
    seq(|parts|, i requires 0 <= i < |parts| => if i < k then parts[i] else FoldedPart(parts, i))
  }

  ghost function ReceiptsFrom(parts: seq<Part>, k: nat): nat
    decreases |parts| - k
  {
    if k >= |parts| then 0
    else (if HasSurvivor(parts, k) && IsReceipt(parts, k) then 1 else 0) + ReceiptsFrom(parts, k + 1)
  }

  /** Puts a new flat list of parts back into the units. */
  ghost function Refill(units: seq<Unit>, flat: seq<Part>): (r: seq<Unit>)
    requires |flat| == |Flat(units)|
    ensures SameShape(r, units) && Flat(r) == flat
  {
    if units == [] then []
    else
      var n := |units[0].parts|;
      [units[0].(parts := flat[..n])] + Refill(units[1..], flat[n..])
  }

  ghost predicate SameShape(a: seq<Unit>, b: seq<Unit>) {
    && |a| == |b|
    && forall i | 0 <= i < |a| :: a[i].row == b[i].row && a[i].split == b[i].split && |a[i].parts| == |b[i].parts|
  }

  lemma {:induction false} ShapeAndPartsDetermine(a: seq<Unit>, b: seq<Unit>)
    requires SameShape(a, b) && Flat(a) == Flat(b)
    ensures a == b
  {
    if a != [] {
      var n := |a[0].parts|;
      assert Flat(a)[..n] == a[0].parts && Flat(b)[..n] == b[0].parts;
      assert Flat(a)[n..] == Flat(a[1..]) && Flat(b)[n..] == Flat(b[1..]);
      ShapeAndPartsDetermine(a[1..], b[1..]);
      assert a == [a[0]] + a[1..] && b == [b[0]] + b[1..];
    }
  }

  ghost function Offset(units: seq<Unit>, i: nat): nat
    requires i <= |units|
  {
    if i == 0 then 0 else |units[0].parts| + Offset(units[1..], i - 1)
  }

  lemma {:induction false} PartAt(units: seq<Unit>, i: nat, j: nat)
    requires i < |units| && j < |units[i].parts|
    ensures Offset(units, i) + j < |Flat(units)|
    ensures Flat(units)[Offset(units, i) + j] == units[i].parts[j]
  {
    if i > 0 {
      PartAt(units[1..], i - 1, j);
    }
  }

  lemma {:induction false} OffsetStep(units: seq<Unit>, i: nat)
    requires i < |units|
    ensures Offset(units, i + 1) == Offset(units, i) + |units[i].parts|
    ensures Offset(units, |units|) == |Flat(units)|
  {
    if i > 0 {
      OffsetStep(units[1..], i - 1);
    } else if |units| > 1 {
      OffsetStep(units[1..], 0);
    }
  }

  lemma {:induction false} OffsetShape(a: seq<Unit>, b: seq<Unit>, i: nat)
    requires SameShape(a, b) && i <= |a|
    ensures Offset(a, i) == Offset(b, i)
  {
    if i > 0 {
      OffsetShape(a[1..], b[1..], i - 1);
    }
  }

  /** Writing one part of one unit writes one position of the flat list. */
  lemma {:induction false} FlatUpdate(units: seq<Unit>, i: nat, j: nat, p: Part)
    requires i < |units| && j < |units[i].parts|
    ensures Offset(units, i) + j < |Flat(units)|
    ensures Flat(units[i := units[i].(parts := units[i].parts[j := p])]) == Flat(units)[Offset(units, i) + j := p]
  {
    PartAt(units, i, j);
    var updated := units[i := units[i].(parts := units[i].parts[j := p])];
    if i == 0 {
      assert updated[1..] == units[1..];
    } else {
      FlatUpdate(units[1..], i - 1, j, p);
      assert updated[1..] == units[1..][i - 1 := units[i].(parts := units[i].parts[j := p])];
    }
  }

  // ---------- folding: the reverse scan ----------

  /** Command ids of the last parts met so far, by message id, revoked message id and state key. */
  datatype Seen = Seen(messages: map<string, string>, revokes: map<string, string>, states: map<string, string>)

  function Lookup(m: map<string, string>, key: string): Option<string> {
    if key in m then Some(m[key]) else None
  }

  function AddIfAbsent(m: map<string, string>, key: string, value: string): map<string, string> {
    if key in m then m else m[key := value]
  }

  /** The command id of the later part that replaces p, if one was met. */
  function SurvivorOf(seen: Seen, p: Part): Option<string> {
    if !p.kept then None
    else if p.entity == MESSAGE && p.kind == MESSAGE_UPSERT then Lookup(seen.messages, p.entityID)
    else if p.entity == MESSAGE && p.kind == MESSAGE_REVOKE then Lookup(seen.revokes, p.entityID)
    else if IsFoldableState(p) then Lookup(seen.states, StateKey(p))
    else None
  }

  function Note(seen: Seen, p: Part): Seen {
    if !p.kept then seen
    else if p.entity == MESSAGE && p.kind == MESSAGE_UPSERT then
      seen.(messages := AddIfAbsent(seen.messages, p.entityID, p.commandID))
    else if p.entity == MESSAGE && p.kind == MESSAGE_REVOKE then
      seen.(revokes := AddIfAbsent(seen.revokes, p.entityID, p.commandID),
            messages := AddIfAbsent(seen.messages, p.entityID, p.commandID))
    else if IsFoldableState(p) then seen.(states := AddIfAbsent(seen.states, StateKey(p), p.commandID))
    else seen
  }

  function Recall(seen: Seen, class_: FoldClass): Option<string> {
    match class_
    case MessageClass(id) => Lookup(seen.messages, id)
    case RevokeClass(id) => Lookup(seen.revokes, id)
    case StateClass(key) => Lookup(seen.states, key)
  }

  /** The command id of the last member of a class, when it lies at or after k. */
  ghost function LastCommandFrom(parts: seq<Part>, k: nat, class_: FoldClass): Option<string> {
    var last := LastIn(parts, class_);
    if last >= k then Some(parts[last].commandID) else None
  }

  ghost predicate SeenFrom(parts: seq<Part>, k: nat, seen: Seen) {
    forall c: FoldClass :: Recall(seen, c) == LastCommandFrom(parts, k, c)
  }

  lemma NoteRecall(seen: Seen, p: Part, c: FoldClass)
    ensures Recall(Note(seen, p), c) ==
            if InClass(p, c) && Recall(seen, c).None? then Some(p.commandID) else Recall(seen, c)
  {
  }

  lemma LastCommandStep(parts: seq<Part>, k: nat, c: FoldClass)
    requires k < |parts|
    ensures LastCommandFrom(parts, k, c) ==
            if InClass(parts[k], c) && LastCommandFrom(parts, k + 1, c).None? then Some(parts[k].commandID)
            else LastCommandFrom(parts, k + 1, c)
  {
    var last := LastIn(parts, c);
  }

  lemma NoteStep(parts: seq<Part>, k: nat, seen: Seen)
    requires k < |parts|
    requires SeenFrom(parts, k + 1, seen)
    ensures SeenFrom(parts, k, Note(seen, parts[k]))
    ensures SurvivorOf(seen, parts[k]) == if HasSurvivor(parts, k)
                                          then Some(parts[LastIn(parts, ClassOf(parts[k]).value)].commandID) else None
  {
    var p := parts[k];
    forall c: FoldClass ensures Recall(Note(seen, p), c) == LastCommandFrom(parts, k, c) {
      NoteRecall(seen, p, c);
      LastCommandStep(parts, k, c);
    }
    SurvivorIsRecall(parts, k, seen);
  }

  lemma SurvivorIsRecall(parts: seq<Part>, k: nat, seen: Seen)
    requires k < |parts|
    requires SeenFrom(parts, k + 1, seen)
    ensures SurvivorOf(seen, parts[k]) == if HasSurvivor(parts, k)
                                          then Some(parts[LastIn(parts, ClassOf(parts[k]).value)].commandID) else None
  {
    var p := parts[k];
    if p.kept && ClassOf(p).Some? {
      var c := ClassOf(p).value;
      assert SurvivorOf(seen, p) == Recall(seen, c) == LastCommandFrom(parts, k + 1, c);
      assert InClass(p, c);
    }
  }

  lemma FoldedStep(parts: seq<Part>, k: nat)
    requires k < |parts|
    ensures FoldedFrom(parts, k) == FoldedFrom(parts, k + 1)[k := FoldedPart(parts, k)]
    ensures FoldedFrom(parts, k + 1)[k] == parts[k]
  {
  }

  lemma {:induction false} OffsetEnd(units: seq<Unit>)
    ensures Offset(units, |units|) == |Flat(units)|
  {
    if units != [] {
      OffsetEnd(units[1..]);
    }
  }

  /** The state of the scan before part k is looked at: everything from k on is decided. */
  ghost predicate FoldedDownTo(units: seq<Unit>, was: seq<Unit>, k: nat, seen: Seen, receipts: nat) {
    && SameShape(units, was)
    && k <= |Flat(was)|
    && Flat(units) == FoldedFrom(Flat(was), k)
    && receipts == ReceiptsFrom(Flat(was), k)
    && SeenFrom(Flat(was), k, seen)
  }

  /** Clears kept on the parts superseded later in the page and returns how many stay as receipts. */
  method Fold(units: array<Unit>) returns (receipts: nat)
    modifies units
    ensures units[..] == Refill(old(units[..]), FoldedFrom(Flat(old(units[..])), 0))
    ensures receipts == ReceiptsFrom(Flat(old(units[..])), 0)
  {
    hide Note, SurvivorOf, LastIn, ClassOf;
    ghost var was := units[..];
    var seen := Seen(map[], map[], map[]);
    receipts := 0;
    var i := units.Length;
    OffsetEnd(was);
    while i > 0
      invariant 0 <= i <= units.Length
      invariant FoldedDownTo(units[..], was, Offset(was, i), seen, receipts)
    {
      i := i - 1;
      OffsetStep(was, i);
      var j := |units[i].parts|;
      while j > 0
        invariant 0 <= j <= |was[i].parts|
        invariant FoldedDownTo(units[..], was, Offset(was, i) + j, seen, receipts)
      {
        j := j - 1;
        FoldOne(units[..], was, i, j, seen, receipts);
        ghost var before := units[..];
        var p := units[i].parts[j];
        var survivor := SurvivorOf(seen, p);
        seen := Note(seen, p);
        if survivor.Some? {
          if p.commandID != "" && p.commandID != survivor.value {
            receipts := receipts + 1;
          } else {
            units[i] := units[i].(parts := units[i].parts[j := p.(kept := false)]);
          }
        }
        assert before[i].parts[j := p] == before[i].parts;
        assert units[..] == before[i := before[i].(parts := before[i].parts[j := units[i].parts[j]])];
      }
    }
    ShapeAndPartsDetermine(units[..], Refill(was, FoldedFrom(Flat(was), 0)));
  }

  lemma FoldOne(now: seq<Unit>, was: seq<Unit>, i: nat, j: nat, seen: Seen, receipts: nat)
    requires i < |now| == |was| && j < |was[i].parts|
    requires FoldedDownTo(now, was, Offset(was, i) + j + 1, seen, receipts)
    ensures j < |now[i].parts|
    ensures
      var p := now[i].parts[j];
      var survivor := SurvivorOf(seen, p);
      var receipt := survivor.Some? && p.commandID != "" && p.commandID != survivor.value;
      var p' := if survivor.Some? && !receipt then p.(kept := false) else p;
      FoldedDownTo(now[i := now[i].(parts := now[i].parts[j := p'])], was, Offset(was, i) + j,
                   Note(seen, p), if receipt then receipts + 1 else receipts)
  {
    hide Note, SurvivorOf, SeenFrom, LastIn, ClassOf, Flat, Offset, SameShape, WithPart, FoldedFrom, FoldedPart;
    hide ReceiptsFrom;
    var parts := Flat(was);
    var k := Offset(was, i) + j;
    PlaceIn(now, was, Place(i, j));
    FoldedStep(parts, k);
    NoteStep(parts, k, seen);
    FoldDecision(parts, k, seen);
    assert now[i].parts[j] == parts[k];
    WithPartIsUpdate(now, was, Place(i, j), FoldedPart(parts, k));
    WithPartHere(now, i, j, FoldedPart(parts, k));
  }

  lemma WithPartHere(now: seq<Unit>, i: nat, j: nat, p: Part)
    requires i < |now| && j < |now[i].parts|
    ensures now[i := now[i].(parts := now[i].parts[j := p])] == WithPart(now, Place(i, j), p)
  {
  }

  /** What the loop decides about one part is what the specification says. */
  lemma FoldDecision(parts: seq<Part>, k: nat, seen: Seen)
    requires k < |parts|
    requires SurvivorOf(seen, parts[k]) == if HasSurvivor(parts, k)
                                           then Some(parts[LastIn(parts, ClassOf(parts[k]).value)].commandID) else None
    ensures
      var p := parts[k];
      var survivor := SurvivorOf(seen, p);
      var receipt := survivor.Some? && p.commandID != "" && p.commandID != survivor.value;
      && FoldedPart(parts, k) == (if survivor.Some? && !receipt then p.(kept := false) else p)
      && ReceiptsFrom(parts, k) == ReceiptsFrom(parts, k + 1) + if receipt then 1 else 0
  {
    hide SurvivorOf, LastIn, ClassOf;
  }

  // ---------- keeping a session.upsert ahead of its unread state ----------

  /** What the page has shown of one session: its latest upsert since the last removal, and whether one was sent. */
  datatype Existence<At> = Existence(latest: Option<At>, covered: bool)

  datatype Scan = Scan(parts: seq<Part>, sessions: map<string, Existence<nat>>, reordered: nat)

  predicate IsSessionUpsert(p: Part) {
    p.kind == SESSION_UPSERT && p.entity == SESSION
  }

  predicate IsSessionRemove(p: Part) {
    p.kind == SESSION_REMOVE && p.entity == SESSION
  }

  predicate IsUnreadState(p: Part) {
    (p.kind == UNREAD_SET || p.kind == READ_STATE) && p.entity == SESSION_MEMBER
  }

  function ExistenceOf<At>(sessions: map<string, Existence<At>>, id: string): Existence<At> {
    if id in sessions then sessions[id] else Existence(None, false)
  }

  /** An unread state is about to overtake the session.upsert that was folded away. */
  predicate Overtakes<At>(e: Existence<At>, p: Part) {
    IsUnreadState(p) && p.kept && !e.covered && e.latest.Some?
  }

  function NextExistence<At>(e: Existence<At>, p: Part, at: At, from: int): Existence<At> {
    if IsSessionUpsert(p) then Existence(Some(at), e.covered || p.kept || p.cursor <= from)
    else if IsSessionRemove(p) && p.kept then Existence(None, false)
    else if Overtakes(e, p) then e.(covered := true)
    else e
  }

  function SessionsAfter<At(==)>(sessions: map<string, Existence<At>>, p: Part, at: At, from: int)
    : map<string, Existence<At>>
  {
    var e := ExistenceOf(sessions, p.entityID);
    var next := NextExistence(e, p, at, from);
    if next == e then sessions else sessions[p.entityID := next]
  }

  lemma ExistenceAfter<At>(sessions: map<string, Existence<At>>, p: Part, at: At, from: int, id: string)
    ensures ExistenceOf(SessionsAfter(sessions, p, at, from), id) ==
            if id == p.entityID then NextExistence(ExistenceOf(sessions, id), p, at, from)
            else ExistenceOf(sessions, id)
  {
  }

  ghost predicate ScanBounds(s: Scan, n: nat) {
    forall id | ExistenceOf(s.sessions, id).latest.Some? :: ExistenceOf(s.sessions, id).latest.value < n <= |s.parts|
  }

  ghost function KeepStep(s: Scan, n: nat, from: int): (r: Scan)
    requires n < |s.parts| && ScanBounds(s, n)
    ensures |r.parts| == |s.parts| && ScanBounds(r, n + 1)
  {
    var p := s.parts[n];
    var e := ExistenceOf(s.sessions, p.entityID);
    var sessions := SessionsAfter(s.sessions, p, n, from);
    assert ScanBounds(s.(sessions := sessions), n + 1) by {
      forall id ensures ExistenceOf(sessions, id).latest.Some? ==> ExistenceOf(sessions, id).latest.value < n + 1 {
        ExistenceAfter(s.sessions, p, n, from, id);
      }
    }
    if Overtakes(e, p) then
      var k := e.latest.value;
      Scan(s.parts[k := s.parts[k].(kept := true)], sessions, s.reordered + 1)
    else s.(sessions := sessions)
  }

  /** The scan after the first n parts. */
  ghost function KeepScan(parts: seq<Part>, from: int, n: nat): (r: Scan)
    requires n <= |parts|
    ensures |r.parts| == |parts| && ScanBounds(r, n)
  {
    if n == 0 then Scan(parts, map[], 0) else KeepStep(KeepScan(parts, from, n - 1), n - 1, from)
  }

  datatype Place = Place(unit: nat, part: nat)

  /** A place within the units is the flat position the specification uses. */
  ghost predicate SameExistence(units: seq<Unit>, e: Existence<Place>, flat: Existence<nat>) {
    && e.covered == flat.covered
    && e.latest.Some? == flat.latest.Some?
    && (e.latest.Some? ==>
          var at := e.latest.value;
          && at.unit < |units|
          && at.part < |units[at.unit].parts|
          && Offset(units, at.unit) + at.part == flat.latest.value)
  }

  ghost predicate SameSessions(units: seq<Unit>, sessions: map<string, Existence<Place>>,
                               flat: map<string, Existence<nat>>) {
    forall id :: SameExistence(units, ExistenceOf(sessions, id), ExistenceOf(flat, id))
  }

  ghost predicate KeptUpTo(units: seq<Unit>, was: seq<Unit>, from: int, n: nat,
                           sessions: map<string, Existence<Place>>, reordered: nat)
  {
    && SameShape(units, was)
    && n <= |Flat(was)|
    && KeepScan(Flat(was), from, n).parts == Flat(units)
    && KeepScan(Flat(was), from, n).reordered == reordered
    && SameSessions(was, sessions, KeepScan(Flat(was), from, n).sessions)
  }

  /** Keeps again the latest superseded session.upsert before an unread state that would overtake it. */
  method KeepSessionBeforeUnread(units: array<Unit>, from: int) returns (reordered: nat)
    modifies units
    ensures units[..] == Refill(old(units[..]), KeepScan(Flat(old(units[..])), from, |Flat(old(units[..]))|).parts)
    ensures reordered == KeepScan(Flat(old(units[..])), from, |Flat(old(units[..]))|).reordered
  {
    hide SessionsAfter, KeepStep, SameSessions, Overtakes, KeepScan;
    ghost var was := units[..];
    var sessions: map<string, Existence<Place>> := map[];
    reordered := 0;
    KeepStart(was, from);
    var i := 0;
    while i < units.Length
      invariant 0 <= i <= units.Length
      invariant KeptUpTo(units[..], was, from, Offset(was, i), sessions, reordered)
    {
      var j := 0;
      OffsetStep(was, i);
      while j < |units[i].parts|
        invariant 0 <= j <= |was[i].parts|
        invariant KeptUpTo(units[..], was, from, Offset(was, i) + j, sessions, reordered)
      {
        var p := units[i].parts[j];
        KeepOne(units[..], was, from, Place(i, j), sessions, reordered);
        var existence := ExistenceOf(sessions, p.entityID);
        if Overtakes(existence, p) {
          var at := existence.latest.value;
          var latest := units[at.unit].parts[at.part];
          ghost var before := units[..];
          units[at.unit] := units[at.unit].(parts := units[at.unit].parts[at.part := latest.(kept := true)]);
          assert units[..] == WithPart(before, at, latest.(kept := true));
          reordered := reordered + 1;
        }
        sessions := SessionsAfter(sessions, p, Place(i, j), from);
        j := j + 1;
      }
      i := i + 1;
    }
    OffsetEnd(was);
    ShapeAndPartsDetermine(units[..], Refill(was, KeepScan(Flat(was), from, |Flat(was)|).parts));
  }

  ghost function WithPart(units: seq<Unit>, at: Place, p: Part): seq<Unit>
    requires at.unit < |units| && at.part < |units[at.unit].parts|
  {
    units[at.unit := units[at.unit].(parts := units[at.unit].parts[at.part := p])]
  }

  lemma KeepStart(units: seq<Unit>, from: int)
    ensures KeptUpTo(units, units, from, 0, map[], 0)
  {
  }

  lemma SessionsStep(units: seq<Unit>, sessions: map<string, Existence<Place>>, flat: map<string, Existence<nat>>,
                     p: Part, at: Place, from: int)
    requires SameSessions(units, sessions, flat)
    requires at.unit < |units| && at.part < |units[at.unit].parts|
    ensures SameSessions(units, SessionsAfter(sessions, p, at, from),
                         SessionsAfter(flat, p, Offset(units, at.unit) + at.part, from))
  {
    hide SessionsAfter, ExistenceOf, IsSessionUpsert, IsSessionRemove, IsUnreadState;
    var n := Offset(units, at.unit) + at.part;
    forall id
      ensures SameExistence(units, ExistenceOf(SessionsAfter(sessions, p, at, from), id),
                            ExistenceOf(SessionsAfter(flat, p, n, from), id))
    {
      ExistenceAfter(sessions, p, at, from, id);
      ExistenceAfter(flat, p, n, from, id);
      assert SameExistence(units, ExistenceOf(sessions, id), ExistenceOf(flat, id));
    }
  }

  lemma KeepScanStep(parts: seq<Part>, from: int, n: nat)
    requires n < |parts|
    ensures KeepScan(parts, from, n + 1) == KeepStep(KeepScan(parts, from, n), n, from)
  {
  }

  lemma KeepOne(now: seq<Unit>, was: seq<Unit>, from: int, here: Place, sessions: map<string, Existence<Place>>,
                reordered: nat)
    requires here.unit < |now| && here.part < |now[here.unit].parts|
    requires here.unit < |was| && here.part < |was[here.unit].parts|
    requires KeptUpTo(now, was, from, Offset(was, here.unit) + here.part, sessions, reordered)
    ensures
      var p := now[here.unit].parts[here.part];
      var n := Offset(was, here.unit) + here.part;
      var e := ExistenceOf(sessions, p.entityID);
      var sessions' := SessionsAfter(sessions, p, here, from);
      if Overtakes(e, p) then
        && e.latest.Some?
        && var at := e.latest.value;
        && at.unit < |now| && at.part < |now[at.unit].parts|
        && KeptUpTo(WithPart(now, at, now[at.unit].parts[at.part].(kept := true)), was, from, n + 1, sessions',
                    reordered + 1)
      else KeptUpTo(now, was, from, n + 1, sessions', reordered)
  {
    hide SessionsAfter, SameSessions, KeepScan, IsUnreadState, ExistenceOf, Flat, Offset, SameShape, WithPart;
    var p := now[here.unit].parts[here.part];
    var n := Offset(was, here.unit) + here.part;
    var scan := KeepScan(Flat(was), from, n);
    PlaceIn(now, was, here);
    SessionsStep(was, sessions, scan.sessions, p, here, from);
    KeepScanStep(Flat(was), from, n);
    SameAt(was, sessions, scan.sessions, p.entityID);
    var e := ExistenceOf(sessions, p.entityID);
    if Overtakes(e, p) {
      var at := e.latest.value;
      PlaceIn(now, was, at);
      WithPartIsUpdate(now, was, at, now[at.unit].parts[at.part].(kept := true));
    }
  }

  lemma PlaceIn(now: seq<Unit>, was: seq<Unit>, at: Place)
    requires SameShape(now, was) && at.unit < |was| && at.part < |was[at.unit].parts|
    ensures at.unit < |now| && at.part < |now[at.unit].parts|
    ensures Offset(was, at.unit) + at.part < |Flat(now)| == |Flat(was)|
    ensures Flat(now)[Offset(was, at.unit) + at.part] == now[at.unit].parts[at.part]
  {
    OffsetShape(now, was, at.unit);
    OffsetShape(now, was, |now|);
    OffsetEnd(now);
    OffsetEnd(was);
    PartAt(now, at.unit, at.part);
  }

  lemma WithPartIsUpdate(now: seq<Unit>, was: seq<Unit>, at: Place, p: Part)
    requires SameShape(now, was) && at.unit < |was| && at.part < |was[at.unit].parts|
    ensures at.unit < |now| && at.part < |now[at.unit].parts|
    ensures Offset(was, at.unit) + at.part < |Flat(now)|
    ensures SameShape(WithPart(now, at, p), was)
    ensures Flat(WithPart(now, at, p)) == Flat(now)[Offset(was, at.unit) + at.part := p]
  {
    OffsetShape(now, was, at.unit);
    FlatUpdate(now, at.unit, at.part, p);
  }

  lemma SameAt(units: seq<Unit>, sessions: map<string, Existence<Place>>, flat: map<string, Existence<nat>>, id: string)
    requires SameSessions(units, sessions, flat)
    ensures SameExistence(units, ExistenceOf(sessions, id), ExistenceOf(flat, id))
  {
  }

  // ---------- events for a client that understands compound rows ----------

  /** The surviving parts of a compound row whose message survives, as one event. */
  function CompoundEvent(u: Unit): Event
    requires |u.parts| > 0 && u.split.Some?
  {
    var message := EventOf(u.parts[0]).(payload := u.row.payload);
    var embedded := KeptParts(u.parts[1..]);
    var atLast := message.(cursor := LastPartCursor(embedded, message.cursor));
    if |embedded| == |u.parts| - 1 then atLast
    else
      atLast.(payload := JoinCompound(u.split.value.fields, LastPayload(embedded, true), LastPayload(embedded, false)))
  }

  function KeptParts(parts: seq<Part>): (r: seq<Part>)
    ensures |r| <= |parts|
  {
    if parts == [] then []
    else
      var before, last := KeptParts(parts[..|parts| - 1]), parts[|parts| - 1];
      if last.kept then before + [last] else before
  }

  function LastPartCursor(parts: seq<Part>, otherwise: int): int {
    if parts == [] then otherwise else parts[|parts| - 1].cursor
  }

  /** The payload of the last part that is (or is not) the session part. */
  function LastPayload(parts: seq<Part>, session: bool): Option<Json> {
    if parts == [] then None
    else if (parts[|parts| - 1].role == SessionRole) == session then Some(parts[|parts| - 1].payload)
    else LastPayload(parts[..|parts| - 1], session)
  }

  /** The events of one unit, not yet chained to the previous one. */
  function UnitEvents(u: Unit): seq<Event>
    requires |u.parts| > 0
  {
    if u.split.None? || !u.parts[0].kept then KeptEvents(u.parts) else [CompoundEvent(u)]
  }

  function AllUnitEvents(units: seq<Unit>): seq<Event>
    requires forall u | u in units :: |u.parts| > 0
  {
    if units == [] then [] else UnitEvents(units[0]) + AllUnitEvents(units[1..])
  }

  /** Adds first_cursor wherever an event covers more than its own cursor. */
  function Chained(events: seq<Event>, previous: int): (r: seq<Event>)
    ensures |r| == |events|
  {
    if events == [] then []
    else
      var e := events[0];
      [if previous + 1 < e.cursor then e.(firstCursor := previous + 1) else e] + Chained(events[1..], e.cursor)
  }

  lemma KeptPartsSnoc(parts: seq<Part>, p: Part)
    ensures KeptParts(parts + [p]) == if p.kept then KeptParts(parts) + [p] else KeptParts(parts)
  {
    assert (parts + [p])[..|parts|] == parts;
  }

  lemma {:induction false} ChainedAppend(a: seq<Event>, b: seq<Event>, previous: int)
    ensures Chained(a + b, previous) ==
            Chained(a, previous) + Chained(b, if a == [] then previous else a[|a| - 1].cursor)
  {
    if a == [] {
      assert a + b == b;
    } else {
      assert (a + b)[1..] == a[1..] + b;
      ChainedAppend(a[1..], b, a[0].cursor);
    }
  }

  lemma {:induction false} AllUnitEventsAppend(a: seq<Unit>, b: seq<Unit>)
    requires forall u | u in a + b :: |u.parts| > 0
    ensures forall u | u in a :: |u.parts| > 0
    ensures forall u | u in b :: |u.parts| > 0
    ensures AllUnitEvents(a + b) == AllUnitEvents(a) + AllUnitEvents(b)
  {
    forall u | u in a || u in b ensures |u.parts| > 0 {
      assert u in a + b;
    }
    if a == [] {
      assert a + b == b;
    } else {
      assert (a + b)[1..] == a[1..] + b;
      AllUnitEventsAppend(a[1..], b);
    }
  }

  lemma LastPayloadSnoc(parts: seq<Part>, p: Part, session: bool)
    ensures LastPayload(parts + [p], session) ==
            if (p.role == SessionRole) == session then Some(p.payload) else LastPayload(parts, session)
  {
    assert (parts + [p])[..|parts|] == parts;
  }

  function AddFirstCursor(event: Event, previous: int): Event {
    if previous + 1 < event.cursor then event.(firstCursor := previous + 1) else event
  }

  /** Rebuilds the one event of a compound row whose message survives. */
  method ShapeCompound(u: Unit) returns (event: Event)
    requires |u.parts| > 0 && u.split.Some?
    ensures event == CompoundEvent(u)
  {
    event := EventOf(u.parts[0]).(payload := u.row.payload);
    var session, unread := None, None;
    var whole := true;
    ghost var embedded: seq<Part> := [];
    var j := 1;
    while j < |u.parts|
      invariant 1 <= j <= |u.parts|
      invariant embedded == KeptParts(u.parts[1..j]) && |embedded| <= j - 1
      invariant event == EventOf(u.parts[0]).(payload := u.row.payload,
                                              cursor := LastPartCursor(embedded, u.parts[0].cursor))
      invariant session == LastPayload(embedded, true) && unread == LastPayload(embedded, false)
      invariant whole == (|embedded| == j - 1)
    {
      var p := u.parts[j];
      assert u.parts[1..j + 1] == u.parts[1..j] + [p];
      KeptPartsSnoc(u.parts[1..j], p);
      if !p.kept {
        whole := false;
      } else {
        LastPayloadSnoc(embedded, p, true);
        LastPayloadSnoc(embedded, p, false);
        embedded := embedded + [p];
        if p.role == SessionRole {
          session := Some(p.payload);
        } else {
          unread := Some(p.payload);
        }
        event := event.(cursor := p.cursor);
      }
      j := j + 1;
    }
    assert u.parts[1..j] == u.parts[1..];
    if !whole {
      event := event.(payload := JoinCompound(u.split.value.fields, session, unread));
    }
  }

  /** The events of one unit: the row itself, its surviving embedded parts, or one compound event. */
  method ShapeUnit(u: Unit) returns (events: seq<Event>)
    requires |u.parts| > 0
    ensures events == UnitEvents(u)
  {
    if u.split.Some? && u.parts[0].kept {
      var event := ShapeCompound(u);
      return [event];
    }
    events := AppendKept([], u.parts);
  }

  lemma AllUnitEventsStep(units: seq<Unit>, i: nat)
    requires i < |units| && forall u | u in units :: |u.parts| > 0
    ensures forall u | u in units[..i] :: |u.parts| > 0
    ensures forall u | u in units[..i + 1] :: |u.parts| > 0
    ensures AllUnitEvents(units[..i + 1]) == AllUnitEvents(units[..i]) + UnitEvents(units[i])
  {
    hide UnitEvents;
    assert units[..i + 1] == units[..i] + [units[i]];
    forall u | u in units[..i + 1] ensures |u.parts| > 0 {
      assert u in units;
    }
    AllUnitEventsAppend(units[..i], [units[i]]);
    assert [units[i]][1..] == [];
    assert AllUnitEvents([units[i]]) == UnitEvents(units[i]) + [];
  }

  function LastCursor(events: seq<Event>, from: int): int {
    if events == [] then from else events[|events| - 1].cursor
  }

  /** One event per row (or per surviving embedded part), chained by first_cursor. */
  method Emit(units: seq<Unit>, from: int) returns (events: seq<Event>)
    requires forall u | u in units :: |u.parts| > 0
    ensures events == Chained(AllUnitEvents(units), from)
  {
    events := [];
    var previous := from;
    ghost var raw: seq<Event> := [];
    var i := 0;
    while i < |units|
      invariant 0 <= i <= |units|
      invariant forall u | u in units[..i] :: |u.parts| > 0
      invariant raw == AllUnitEvents(units[..i])
      invariant events == Chained(raw, from) && previous == LastCursor(raw, from)
    {
      hide CompoundEvent, UnitEvents, Chained, LastCursor, AllUnitEvents;
      var u := units[i];
      AllUnitEventsStep(units, i);
      var shaped := ShapeUnit(u);
      events, previous := AddAll(events, shaped, raw, from, previous);
      raw := raw + shaped;
      i := i + 1;
    }
    assert units[..i] == units;
  }

  lemma ChainedSnoc(events: seq<Event>, event: Event, from: int)
    ensures Chained(events + [event], from) == Chained(events, from) + [AddFirstCursor(event, LastCursor(events, from))]
    ensures LastCursor(events + [event], from) == event.cursor
  {
    ChainedAppend(events, [event], from);
    assert [event][1..] == [];
  }

  /** Appends events one by one, each chained to the one before. */
  method AddAll(events: seq<Event>, shaped: seq<Event>, ghost raw: seq<Event>, from: int, previous: int)
    returns (all: seq<Event>, last: int)
    requires events == Chained(raw, from) && previous == LastCursor(raw, from)
    ensures all == Chained(raw + shaped, from) && last == LastCursor(raw + shaped, from)
  {
    hide Chained, LastCursor, AddFirstCursor;
    all, last := events, previous;
    var j := 0;
    assert raw + shaped[..0] == raw;
    while j < |shaped|
      invariant 0 <= j <= |shaped|
      invariant all == Chained(raw + shaped[..j], from) && last == LastCursor(raw + shaped[..j], from)
    {
      var event := shaped[j];
      assert raw + shaped[..j + 1] == raw + shaped[..j] + [event];
      ChainedSnoc(raw + shaped[..j], event, from);
      all := all + [AddFirstCursor(event, last)];
      last := event.cursor;
      j := j + 1;
    }
    assert shaped[..j] == shaped;
  }

  // ---------- one page ----------

  /** The units of a compound page after folding, when it is asked for. */
  ghost function FoldedUnits(units: seq<Unit>, from: int): (r: seq<Unit>)
    ensures SameShape(r, units)
  {
    Refill(units, FinalParts(Flat(units), from))
  }

  ghost function FinalParts(parts: seq<Part>, from: int): (r: seq<Part>)
    ensures |r| == |parts|
  {
    KeepScan(FoldedFrom(parts, 0), from, |parts|).parts
  }

  lemma {:induction false} ResolvedUnits(rows: seq<Row>, from: int)
    requires ResolveAll(rows, from).Ok?
    ensures |ResolveAll(rows, from).value| == |rows|
    ensures forall i | 0 <= i < |rows| ::
              Resolve(rows[i], from).Ok? && ResolveAll(rows, from).value[i] == Resolve(rows[i], from).value
    ensures forall u | u in ResolveAll(rows, from).value :: |u.parts| > 0
  {
    if rows != [] {
      ResolvedUnits(rows[1..], from);
      var units := ResolveAll(rows, from).value;
      forall i | 0 <= i < |rows|
        ensures Resolve(rows[i], from).Ok? && units[i] == Resolve(rows[i], from).value && |units[i].parts| > 0
      {
        if i > 0 {
          assert rows[1..][i - 1] == rows[i];
        }
      }
    }
  }

  lemma ShapeKeepsParts(a: seq<Unit>, b: seq<Unit>)
    requires SameShape(a, b)
    requires forall u | u in b :: |u.parts| > 0
    ensures forall u | u in a :: |u.parts| > 0
  {
    forall u | u in a ensures |u.parts| > 0 {
      var i :| 0 <= i < |a| && a[i] == u;
      assert b[i] in b;
    }
  }

  ghost function CompoundPage(units: seq<Unit>, from: int, fold: bool): Page
    requires forall u | u in units :: |u.parts| > 0
  {
    var next := if units == [] then from else units[|units| - 1].row.cursor;
    if !fold then Page(Chained(AllUnitEvents(units), from), |units|, next, 0, 0)
    else
      var parts := Flat(units);
      var folded := FoldedUnits(units, from);
      ShapeKeepsParts(folded, units);
      Page(Chained(AllUnitEvents(folded), from), |units|, next,
           ReceiptsFrom(parts, 0), KeepScan(FoldedFrom(parts, 0), from, |parts|).reordered)
  }

  /** What one page of rows after cursor `from` looks like for a connection. */
  ghost function PageOf(rows: seq<Row>, from: int, opts: Options): Result<Page, SyncError> {
    var units :- ResolveAll(rows, from);
    ResolvedUnits(rows, from);
    Ok(if opts.compound then CompoundPage(units, from, opts.fold) else Expanded(units, from, opts.maxEvents))
  }

  lemma RefillOfRefill(units: seq<Unit>, once: seq<Part>, twice: seq<Part>)
    requires |once| == |Flat(units)| == |twice|
    ensures Refill(Refill(units, once), twice) == Refill(units, twice)
  {
    ShapeAndPartsDetermine(Refill(Refill(units, once), twice), Refill(units, twice));
  }

  /** Folding and then keeping again, each in place, gives the folded units of the specification. */
  lemma TwoPasses(units: seq<Unit>, from: int)
    requires forall u | u in units :: |u.parts| > 0
    ensures
      var once := Refill(units, FoldedFrom(Flat(units), 0));
      var scan := KeepScan(Flat(once), from, |Flat(once)|);
      && |scan.parts| == |Flat(once)|
      && Refill(once, scan.parts) == FoldedUnits(units, from)
      && scan.reordered == KeepScan(FoldedFrom(Flat(units), 0), from, |Flat(units)|).reordered
    ensures forall u | u in FoldedUnits(units, from) :: |u.parts| > 0
  {
    hide Refill, FoldedFrom, KeepScan;
    RefillOfRefill(units, FoldedFrom(Flat(units), 0), FinalParts(Flat(units), from));
    ShapeKeepsParts(FoldedUnits(units, from), units);
  }

  /** Shapes one page for one connection. */
  method ShapePage(rows: seq<Row>, from: int, opts: Options) returns (page: Result<Page, SyncError>)
    ensures page == PageOf(rows, from, opts)
  {
    hide Refill, FoldedFrom, KeepScan, Resolve, Chained, AllUnitEvents, Expanded, FoldedUnits, Flat, UnitEvents;
    var resolved := ResolveAll(rows, from);
    if resolved.Err? {
      return Err(resolved.error);
    }
    var units := resolved.value;
    ResolvedUnits(rows, from);
    if !opts.compound {
      var expanded := Expand(units, from, opts.maxEvents);
      return Ok(expanded);
    }
    var next := if units == [] then from else units[|units| - 1].row.cursor;
    if !opts.fold {
      var events := Emit(units, from);
      return Ok(Page(events, |units|, next, 0, 0));
    }
    var shaped := new Unit[|units|](i requires 0 <= i < |units| => units[i]);
    assert shaped[..] == units;
    var receipts := Fold(shaped);
    var reordered := KeepSessionBeforeUnread(shaped, from);
    TwoPasses(units, from);
    assert shaped[..] == FoldedUnits(units, from);
    var events := Emit(shaped[..], from);
    return Ok(Page(events, |units|, next, receipts, reordered));
  }
}
