/** Regrouping stored classic rows into the compound rows the writer produces. */
module SyncRebuild {
  import opened Wrappers
  import opened GoText
  import opened SyncModel
  import opened SyncFold
  import opened SyncClient
  import opened FoldState
  import opened FoldChain

  // ---------- the pending record and its loop ----------

  datatype Pending = Pending(row: Row, sessionID: string, session: Option<Json>, unread: Option<Json>, last: int)

  predicate IsSessionRow(row: Row) {
    row.kind == SESSION_UPSERT && row.entity == SESSION
  }

  predicate IsUnreadRow(row: Row) {
    row.kind == UNREAD_SET && row.entity == SESSION_MEMBER
  }

  predicate PendingAccepts(p: Pending, row: Row) {
    && p.sessionID != ""
    && row.cursor == p.last + 1
    && row.createdAt == p.row.createdAt
    && row.commandID == ""
    && !row.tombstone
    && row.entityID == p.sessionID
    && PayloadSessionID(row.payload) == p.sessionID
    && if IsSessionRow(row) then p.session.None? && p.unread.None?
       else IsUnreadRow(row) && p.unread.None?
  }

  predicate StartsCompound(row: Row) {
    IsMessageUpsert(row.kind, row.entity) && !row.tombstone
  }

  function Flushed(p: Pending): Result<Row, SyncError> {
    if p.session.None? && p.unread.None? then Ok(p.row)
    else
      var payload :- CompoundPayload(p.row.payload, p.session, p.unread);
      Ok(p.row.(payload := payload, cursor := p.last))
  }

  // ---------- specification: groups of rows ----------

  /** One output row and the input rows it stands for. */
  datatype Group = Group(head: Row, session: Option<Row>, unread: Option<Row>)

  function Optional(row: Option<Row>): seq<Row> {
    if row.Some? then [row.value] else []
  }

  function GroupRows(g: Group): seq<Row> {
    [g.head] + Optional(g.session) + Optional(g.unread)
  }

  function LastRow(g: Group): Row {
    if g.unread.Some? then g.unread.value else if g.session.Some? then g.session.value else g.head
  }

  function PayloadOf(row: Option<Row>): Option<Json> {
    if row.Some? then Some(row.value.payload) else None
  }

  function PendingOf(g: Group): Pending {
    Pending(g.head, PayloadSessionID(g.head.payload), PayloadOf(g.session), PayloadOf(g.unread), LastRow(g).cursor)
  }

  function Grown(g: Group, row: Row): Group {
    if row.kind == SESSION_UPSERT then g.(session := Some(row)) else g.(unread := Some(row))
  }

  /** The groups of `rest` when `g` is still open. */
  function Extend(g: Group, rest: seq<Row>): seq<Group>
    decreases |rest|, 2
  {
    if rest != [] && PendingAccepts(PendingOf(g), rest[0]) then Extend(Grown(g, rest[0]), rest[1..])
    else [g] + GroupsOf(rest)
  }

  function GroupsOf(rows: seq<Row>): seq<Group>
    decreases |rows|, 1
  {
    if rows == [] then []
    else
      var g := Group(rows[0], None, None);
      if StartsCompound(rows[0]) then Extend(g, rows[1..]) else [g] + GroupsOf(rows[1..])
  }

  /** The output row of a group: a lone row stays as it is. */
  function Built(g: Group): Result<Row, SyncError> {
    Flushed(PendingOf(g))
  }

  function BuiltAll(groups: seq<Group>): Result<seq<Row>, SyncError> {
    if groups == [] then Ok([])
    else
      var row :- Built(groups[0]);
      var rest :- BuiltAll(groups[1..]);
      Ok([row] + rest)
  }

  // ---------- the loop meets the specification ----------

  ghost function OpenGroups(open: Option<Group>, rest: seq<Row>): seq<Group> {
    if open.Some? then Extend(open.value, rest) else GroupsOf(rest)
  }

  ghost predicate Follows(rows: seq<Row>, out: seq<Row>, open: Option<Group>, rest: seq<Row>) {
    BuiltAll(GroupsOf(rows)) ==
    match BuiltAll(OpenGroups(open, rest))
    case Ok(later) => Ok(out + later)
    case Err(e) => Err(e)
  }

  lemma FlushStep(rows: seq<Row>, out: seq<Row>, g: Group, rest: seq<Row>)
    requires Follows(rows, out, Some(g), rest)
    requires rest == [] || !PendingAccepts(PendingOf(g), rest[0])
    ensures Built(g).Ok? ==> Follows(rows, out + [Built(g).value], None, rest)
    ensures Built(g).Err? ==> BuiltAll(GroupsOf(rows)) == Err(Built(g).error)
  {
    hide PendingAccepts, Flushed;
    var groups := [g] + GroupsOf(rest);
    assert groups[0] == g && groups[1..] == GroupsOf(rest);
    if Built(g).Ok? && BuiltAll(GroupsOf(rest)).Ok? {
      var later := BuiltAll(GroupsOf(rest)).value;
      assert out + ([Built(g).value] + later) == out + [Built(g).value] + later;
    }
  }

  lemma LoneStep(rows: seq<Row>, out: seq<Row>, rest: seq<Row>)
    requires Follows(rows, out, None, rest) && rest != [] && !StartsCompound(rest[0])
    ensures Follows(rows, out + [rest[0]], None, rest[1..])
  {
    var g := Group(rest[0], None, None);
    var groups := [g] + GroupsOf(rest[1..]);
    assert groups[0] == g && groups[1..] == GroupsOf(rest[1..]);
    assert Built(g) == Ok(rest[0]);
    if BuiltAll(GroupsOf(rest[1..])).Ok? {
      var later := BuiltAll(GroupsOf(rest[1..])).value;
      assert out + ([rest[0]] + later) == out + [rest[0]] + later;
    }
  }

  /** Regroups stored classic rows in one pass. */
  method RebuildCompoundRows(rows: seq<Row>) returns (result: Result<seq<Row>, SyncError>)
    ensures result == BuiltAll(GroupsOf(rows))
  {
    hide PendingAccepts, Flushed, StartsCompound, BuiltAll;
    var out: seq<Row> := [];
    var pending: Option<Pending> := None;
    ghost var open: Option<Group> := None;
    FollowsStart(rows);
    var i := 0;
    while i < |rows|
      invariant 0 <= i <= |rows|
      invariant pending == if open.Some? then Some(PendingOf(open.value)) else None
      invariant Follows(rows, out, open, rows[i..])
    {
      var row := rows[i];
      assert rows[i..][0] == row && rows[i..][1..] == rows[i + 1..];
      i := i + 1;
      if pending.Some? && PendingAccepts(pending.value, row) {
        AcceptStep(rows, out, open.value, rows[i - 1..]);
        open := Some(Grown(open.value, row));
        pending := Some(if row.kind == SESSION_UPSERT
                        then pending.value.(session := Some(row.payload), last := row.cursor)
                        else pending.value.(unread := Some(row.payload), last := row.cursor));
        continue;
      }
      if pending.Some? {
        FlushStep(rows, out, open.value, rows[i - 1..]);
        var flushed := Flushed(pending.value);
        if flushed.Err? {
          return Err(flushed.error);
        }
        out := out + [flushed.value];
        pending, open := None, None;
      }
      if StartsCompound(row) {
        open := Some(Group(row, None, None));
        pending := Some(Pending(row, PayloadSessionID(row.payload), None, None, row.cursor));
      } else {
        LoneStep(rows, out, rows[i - 1..]);
        out := out + [row];
      }
    }
    if pending.Some? {
      FlushStep(rows, out, open.value, []);
      var flushed := Flushed(pending.value);
      if flushed.Err? {
        return Err(flushed.error);
      }
      out := out + [flushed.value];
    }
    FollowsEnd(rows, out);
    return Ok(out);
  }

  lemma FollowsStart(rows: seq<Row>)
    ensures Follows(rows, [], None, rows[0..])
  {
    assert rows[0..] == rows;
    if BuiltAll(GroupsOf(rows)).Ok? {
      assert [] + BuiltAll(GroupsOf(rows)).value == BuiltAll(GroupsOf(rows)).value;
    }
  }

  lemma FollowsEnd(rows: seq<Row>, out: seq<Row>)
    requires Follows(rows, out, None, [])
    ensures BuiltAll(GroupsOf(rows)) == Ok(out)
  {
    assert out + [] == out;
  }

  lemma AcceptStep(rows: seq<Row>, out: seq<Row>, g: Group, rest: seq<Row>)
    requires Follows(rows, out, Some(g), rest)
    requires rest != [] && PendingAccepts(PendingOf(g), rest[0])
    ensures Follows(rows, out, Some(Grown(g, rest[0])), rest[1..])
    ensures PendingOf(Grown(g, rest[0])) == if rest[0].kind == SESSION_UPSERT
              then PendingOf(g).(session := Some(rest[0].payload), last := rest[0].cursor)
              else PendingOf(g).(unread := Some(rest[0].payload), last := rest[0].cursor)
  {
  }

  // ---------- the groups tile the input ----------

  function Ungrouped(groups: seq<Group>): seq<Row> {
    if groups == [] then [] else GroupRows(groups[0]) + Ungrouped(groups[1..])
  }

  /** A message row followed by the session row and then the unread row of the same write, each optional. */
  ghost predicate WellGrouped(g: Group) {
    && (g.session.Some? ==>
          IsSessionRow(g.session.value) && PendingAccepts(PendingOf(Group(g.head, None, None)), g.session.value))
    && (g.unread.Some? ==>
          IsUnreadRow(g.unread.value) && PendingAccepts(PendingOf(g.(unread := None)), g.unread.value))
    && (g.session.Some? || g.unread.Some? ==> StartsCompound(g.head))
  }

  /** No group could have taken the row after it. */
  ghost predicate Maximal(groups: seq<Group>) {
    forall i | 0 <= i < |groups| - 1 ::
      StartsCompound(groups[i].head) ==> !PendingAccepts(PendingOf(groups[i]), groups[i + 1].head)
  }

  lemma GrowOne(g: Group, row: Row)
    requires WellGrouped(g) && StartsCompound(g.head) && PendingAccepts(PendingOf(g), row)
    ensures WellGrouped(Grown(g, row)) && GroupRows(Grown(g, row)) == GroupRows(g) + [row]
  {
    assert g.(unread := None) == g;
    if row.kind == SESSION_UPSERT {
      assert g == Group(g.head, None, None);
    }
  }

  lemma {:induction false} ExtendTiles(g: Group, rest: seq<Row>)
    requires WellGrouped(g) && StartsCompound(g.head)
    ensures Ungrouped(Extend(g, rest)) == GroupRows(g) + rest
    ensures forall h | h in Extend(g, rest) :: WellGrouped(h)
    ensures Extend(g, rest) != [] && Maximal(Extend(g, rest)) && Extend(g, rest)[0].head == g.head
    decreases |rest|, 2
  {
    hide WellGrouped, PendingAccepts, StartsCompound, PendingOf;
    if rest != [] && PendingAccepts(PendingOf(g), rest[0]) {
      GrowOne(g, rest[0]);
      ExtendTiles(Grown(g, rest[0]), rest[1..]);
      assert GroupRows(g) + [rest[0]] + rest[1..] == GroupRows(g) + rest;
    } else {
      GroupsTile(rest);
      var groups := [g] + GroupsOf(rest);
      assert groups[1..] == GroupsOf(rest);
      forall i | 0 <= i < |groups| - 1
        ensures StartsCompound(groups[i].head) ==> !PendingAccepts(PendingOf(groups[i]), groups[i + 1].head)
      {
        if i > 0 {
          assert groups[i] == GroupsOf(rest)[i - 1] && groups[i + 1] == GroupsOf(rest)[i];
        }
      }
    }
  }

  /**
   Regrouping is a tiling: concatenating the groups gives back the input rows in order,
   every group has the shape message[, session][, unread] of one write, and none could be longer.
   */
  lemma {:induction false} GroupsTile(rows: seq<Row>)
    ensures Ungrouped(GroupsOf(rows)) == rows
    ensures forall g | g in GroupsOf(rows) :: WellGrouped(g)
    ensures Maximal(GroupsOf(rows))
    ensures rows == [] <==> GroupsOf(rows) == []
    ensures rows != [] ==> GroupsOf(rows)[0].head == rows[0]
    decreases |rows|, 1
  {
    hide PendingAccepts, StartsCompound;
    if rows != [] {
      var g := Group(rows[0], None, None);
      assert GroupRows(g) == [rows[0]];
      if StartsCompound(rows[0]) {
        ExtendTiles(g, rows[1..]);
      } else {
        GroupsTile(rows[1..]);
        var groups := [g] + GroupsOf(rows[1..]);
        assert groups[1..] == GroupsOf(rows[1..]);
        forall i | 0 <= i < |groups| - 1
          ensures StartsCompound(groups[i].head) ==> !PendingAccepts(PendingOf(groups[i]), groups[i + 1].head)
        {
          if i > 0 {
            assert groups[i] == GroupsOf(rows[1..])[i - 1] && groups[i + 1] == GroupsOf(rows[1..])[i];
          }
        }
      }
    }
  }

  // ---------- which rows a group takes, on the fields of the rows ----------

  /** The payload's own session_id. */
  ghost predicate NamesSession(payload: Json, id: string) {
    id != "" && payload.Obj? && "session_id" in payload.fields && payload.fields["session_id"] == Text(id)
  }

  /** The row was stored right behind `previous`, for the session of `head` and at its time, with no receipt. */
  ghost predicate SameWrite(head: Row, previous: Row, row: Row) {
    && row.cursor == previous.cursor + 1
    && row.createdAt == head.createdAt
    && row.commandID == "" && !row.tombstone
    && NamesSession(row.payload, row.entityID) && NamesSession(head.payload, row.entityID)
  }

  ghost predicate LiveMessage(row: Row) {
    row.kind == "message.upsert" && row.entity == "message" && !row.tombstone
  }

  ghost predicate SessionOf(head: Row, previous: Row, row: Row) {
    row.kind == "session.upsert" && row.entity == "session" && SameWrite(head, previous, row)
  }

  ghost predicate UnreadOf(head: Row, previous: Row, row: Row) {
    row.kind == "session.unread_set" && row.entity == "session_member" && SameWrite(head, previous, row)
  }

  /** The first row with the session row and then the unread row behind it, as far as they are of its write. */
  ghost function LeadingGroup(rows: seq<Row>): (g: Group)
    requires rows != []
    ensures |GroupRows(g)| <= |rows|
  {
    var head := rows[0];
    if !LiveMessage(head) then Group(head, None, None)
    else
      var session := if |rows| > 1 && SessionOf(head, head, rows[1]) then Some(rows[1]) else None;
      var next := if session.Some? then 2 else 1;
      var unread := if |rows| > next && UnreadOf(head, rows[next - 1], rows[next]) then Some(rows[next]) else None;
      Group(head, session, unread)
  }

  lemma AcceptsMeaning(g: Group, row: Row)
    ensures PendingAccepts(PendingOf(g), row) <==>
            && g.unread.None?
            && ((g.session.None? && SessionOf(g.head, g.head, row)) || UnreadOf(g.head, LastRow(g), row))
  {
  }

  lemma TookUnread(g: Group, rest: seq<Row>)
    requires g.unread.Some?
    ensures Extend(g, rest) == [g] + GroupsOf(rest)
  {
  }

  lemma TookSession(g: Group, rest: seq<Row>)
    requires g.session.Some? && g.unread.None?
    ensures
      if rest != [] && UnreadOf(g.head, g.session.value, rest[0])
      then Extend(g, rest) == [g.(unread := Some(rest[0]))] + GroupsOf(rest[1..])
      else Extend(g, rest) == [g] + GroupsOf(rest)
  {
    hide PendingAccepts, SameWrite;
    if rest != [] {
      AcceptsMeaning(g, rest[0]);
      TookUnread(g.(unread := Some(rest[0])), rest[1..]);
    }
  }

  /** Regrouping takes exactly the rows of one write together, from the front. */
  lemma LeadingGroupTaken(rows: seq<Row>)
    requires rows != []
    ensures
      var g := LeadingGroup(rows);
      GroupRows(g) == rows[..|GroupRows(g)|] && GroupsOf(rows) == [g] + GroupsOf(rows[|GroupRows(g)|..])
  {
    hide PendingAccepts, SameWrite;
    var g := Group(rows[0], None, None);
    if LiveMessage(rows[0]) && |rows| > 1 {
      AcceptsMeaning(g, rows[1]);
      TookUnread(g.(unread := Some(rows[1])), rows[2..]);
      TookSession(g.(session := Some(rows[1])), rows[2..]);
      assert rows[1..][1..] == rows[2..];
      if |rows| > 2 {
        assert rows[2..][1..] == rows[3..];
      }
    }
  }

  /** Every group is the leading group of the rows behind the earlier groups. */
  lemma {:induction false} GroupsExactly(rows: seq<Row>, k: nat)
    requires k < |GroupsOf(rows)|
    ensures
      var from := |Ungrouped(GroupsOf(rows)[..k])|;
      from < |rows| && GroupsOf(rows)[k] == LeadingGroup(rows[from..])
    decreases k
  {
    hide LeadingGroup, GroupsOf, GroupRows;
    NoGroups();
    LeadingGroupTaken(rows);
    var g := LeadingGroup(rows);
    var n := |GroupRows(g)|;
    if k == 0 {
      assert rows[0..] == rows;
    } else {
      GroupsExactly(rows[n..], k - 1);
      assert GroupsOf(rows)[..k] == [g] + GroupsOf(rows[n..])[..k - 1];
      var from := |Ungrouped(GroupsOf(rows[n..])[..k - 1])|;
      assert rows[n..][from..] == rows[n + from..];
    }
  }

  lemma NoGroups()
    ensures GroupsOf([]) == []
  {
  }

  /** A stored message always starts a group, whatever stands before it. */
  lemma {:induction false} MessageStartsGroup(before: seq<Row>, rows: seq<Row>)
    requires rows != [] && LiveMessage(rows[0])
    ensures GroupsOf(before + rows) == GroupsOf(before) + GroupsOf(rows)
    decreases |before|
  {
    hide GroupsOf, GroupRows, SameWrite;
    NoGroups();
    if before == [] {
      assert before + rows == rows && [] + GroupsOf(rows) == GroupsOf(rows);
    } else {
      var g := LeadingGroup(before);
      assert LeadingGroup(before + rows) == g;
      LeadingGroupTaken(before);
      LeadingGroupTaken(before + rows);
      HasRows(g);
      var n := |GroupRows(g)|;
      assert (before + rows)[n..] == before[n..] + rows;
      MessageStartsGroup(before[n..], rows);
      assert [g] + (GroupsOf(before[n..]) + GroupsOf(rows)) == [g] + GroupsOf(before[n..]) + GroupsOf(rows);
    }
  }

  lemma HasRows(g: Group)
    ensures GroupRows(g) != []
  {
  }

  /** The rows of one write, wherever they are stored, are one group. */
  lemma WriteIsOneGroup(before: seq<Row>, message: Row, session: Row, unread: Row, after: seq<Row>)
    requires LiveMessage(message)
    ensures SessionOf(message, message, session) && UnreadOf(message, session, unread) ==>
              Group(message, Some(session), Some(unread)) in GroupsOf(before + [message, session, unread] + after)
    ensures UnreadOf(message, message, unread) ==>
              Group(message, None, Some(unread)) in GroupsOf(before + [message, unread] + after)
    ensures SessionOf(message, message, session) && (after == [] || !UnreadOf(message, session, after[0])) ==>
              Group(message, Some(session), None) in GroupsOf(before + [message, session] + after)
  {
    hide GroupsOf, SameWrite;
    var all, two, one := [message, session, unread] + after, [message, unread] + after, [message, session] + after;
    assert before + [message, session, unread] + after == before + all;
    assert before + [message, unread] + after == before + two;
    assert before + [message, session] + after == before + one;
    MessageStartsGroup(before, all);
    MessageStartsGroup(before, two);
    MessageStartsGroup(before, one);
    LeadingGroupTaken(all);
    LeadingGroupTaken(two);
    LeadingGroupTaken(one);
  }

  /** Two rows are one group if and only if the first is a message and the second belongs to its write. */
  lemma PairIsOneGroup(message: Row, row: Row)
    ensures |GroupsOf([message, row])| == 1 <==>
            LiveMessage(message) && (SessionOf(message, message, row) || UnreadOf(message, message, row))
  {
    hide GroupsOf, SameWrite;
    var rows := [message, row];
    NoGroups();
    LeadingGroupTaken(rows);
    if |GroupRows(LeadingGroup(rows))| == 1 {
      LeadingGroupTaken(rows[1..]);
    }
  }

  /** What a group took besides its message: the rows behind it, of one write. */
  lemma AbsorbedRows(rows: seq<Row>, g: Group)
    requires g in GroupsOf(rows)
    ensures g.session.Some? || g.unread.Some? ==> LiveMessage(g.head)
    ensures g.session.Some? ==> SessionOf(g.head, g.head, g.session.value)
    ensures g.unread.Some? ==> UnreadOf(g.head, if g.session.Some? then g.session.value else g.head, g.unread.value)
  {
    hide GroupsOf, SameWrite;
    var k :| 0 <= k < |GroupsOf(rows)| && GroupsOf(rows)[k] == g;
    GroupsExactly(rows, k);
  }

  // ---------- what a built row contains ----------

  ghost predicate Absorbs(g: Group) {
    g.session.Some? || g.unread.Some?
  }

  lemma AcceptedPayload(p: Pending, row: Row)
    requires PendingAccepts(p, row)
    ensures row.payload.Obj?
  {
  }

  /** The split of a built compound row is the head's payload and the absorbed payloads. */
  lemma BuiltSplit(g: Group, row: Row)
    requires WellGrouped(g) && Absorbs(g) && Built(g) == Ok(row)
    ensures g.head.payload.Obj? && SplitOf(g.head) == None
    ensures SplitOf(row) == Some(Compound(g.head.payload.fields, PayloadOf(g.session), PayloadOf(g.unread)))
    ensures g.session.Some? ==> EmbeddedEntity(g.session.value.payload).Ok?
    ensures g.unread.Some? ==> EmbeddedEntity(g.unread.value.payload).Ok?
    ensures row == g.head.(payload := row.payload, cursor := LastRow(g).cursor)
  {
    hide EmbeddedEntity, PendingAccepts;
    if g.session.Some? {
      AcceptedPayload(PendingOf(Group(g.head, None, None)), g.session.value);
    }
    if g.unread.Some? {
      AcceptedPayload(PendingOf(g.(unread := None)), g.unread.value);
    }
    var fields := g.head.payload.fields;
    var joined := row.payload.fields;
    assert Present(joined, SESSION_KEY) == PayloadOf(g.session) && Present(joined, UNREAD_KEY) == PayloadOf(g.unread);
    assert joined - {SESSION_KEY, UNREAD_KEY} == fields;
    assert SplitCompound(g.head.payload) == None;
  }

  lemma GroupCursors(g: Group)
    requires WellGrouped(g)
    ensures forall i | 0 <= i < |GroupRows(g)| :: GroupRows(g)[i].cursor == g.head.cursor + i
    ensures LastRow(g).cursor == g.head.cursor + |GroupRows(g)| - 1
    ensures forall i | 1 <= i < |GroupRows(g)| :: SplitOf(GroupRows(g)[i]) == None
  {
  }

  /** The output row covers exactly the cursors of its group. */
  lemma BuiltSpan(g: Group, row: Row)
    requires WellGrouped(g) && Built(g) == Ok(row)
    ensures row.cursor == LastRow(g).cursor && FirstCursorOf(row) == FirstCursorOf(g.head)
    ensures Absorbs(g) ==> SpanOf(row) == |GroupRows(g)|
  {
    hide WellGrouped, SplitOf;
    GroupCursors(g);
    if Absorbs(g) {
      BuiltSplit(g, row);
    }
  }

  lemma GroupOrder(g: Group, rest: seq<Row>, from: int)
    requires WellGrouped(g)
    ensures Dense(GroupRows(g) + rest, from) <==> FirstCursorOf(g.head) == from + 1 && Dense(rest, LastRow(g).cursor)
    ensures InOrder(GroupRows(g) + rest, from) <==> FirstCursorOf(g.head) > from && InOrder(rest, LastRow(g).cursor)
  {
    hide WellGrouped, SplitOf;
    GroupCursors(g);
    var tail := GroupRows(g)[1..] + rest;
    assert GroupRows(g) + rest == [g.head] + tail;
    OrderCons(g.head, tail, from);
    if |GroupRows(g)| == 1 {
      assert tail == rest;
    } else if |GroupRows(g)| == 2 {
      var second := GroupRows(g)[1];
      assert tail == [second] + rest;
      OrderCons(second, rest, g.head.cursor);
    } else {
      var second, third := GroupRows(g)[1], GroupRows(g)[2];
      assert tail == [second] + ([third] + rest);
      OrderCons(second, [third] + rest, g.head.cursor);
      OrderCons(third, rest, second.cursor);
    }
  }

  lemma OrderCons(row: Row, rest: seq<Row>, from: int)
    ensures Dense([row] + rest, from) <==> FirstCursorOf(row) == from + 1 && Dense(rest, row.cursor)
    ensures InOrder([row] + rest, from) <==> FirstCursorOf(row) > from && InOrder(rest, row.cursor)
  {
    assert ([row] + rest)[1..] == rest;
  }

  /** Regrouping neither opens nor closes gaps between rows. */
  lemma {:induction false} RebuildKeepsOrder(groups: seq<Group>, out: seq<Row>, from: int)
    requires forall g | g in groups :: WellGrouped(g)
    requires BuiltAll(groups) == Ok(out)
    ensures Dense(out, from) <==> Dense(Ungrouped(groups), from)
    ensures InOrder(out, from) <==> InOrder(Ungrouped(groups), from)
  {
    if groups != [] {
      hide WellGrouped, Built, FirstCursorOf;
      BuiltSpan(groups[0], out[0]);
      RebuildKeepsOrder(groups[1..], out[1..], LastRow(groups[0]).cursor);
      GroupOrder(groups[0], Ungrouped(groups[1..]), from);
    }
  }

  // ---------- expansion restores the stored rows ----------

  /** The absorbed rows' payloads carry the rows' own version. */
  predicate OwnVersions(g: Group) {
    && (g.session.Some? ==>
          EmbeddedEntity(g.session.value.payload) == Ok((g.session.value.entityID, g.session.value.version)))
    && (g.unread.Some? ==>
          EmbeddedEntity(g.unread.value.payload) == Ok((g.unread.value.entityID, g.unread.value.version)))
  }

  lemma AbsorbedRow(p: Pending, row: Row)
    requires PendingAccepts(p, row) && EmbeddedEntity(row.payload).Ok?
    ensures row.commandID == "" && !row.tombstone
    ensures EmbeddedEntity(row.payload).value.0 == row.entityID
  {
  }

  lemma ResolveOne(row: Row, from: int)
    ensures Resolve(row, from).Ok? ==> ResolveAll([row], from) == Ok([Resolve(row, from).value])
    ensures Resolve(row, from).Err? ==> ResolveAll([row], from).Err?
    ensures Resolve(row, from).Ok? ==> Flat([Resolve(row, from).value]) == Resolve(row, from).value.parts
  {
    assert [row][1..] == [];
    if Resolve(row, from).Ok? {
      assert [Resolve(row, from).value] + [] == [Resolve(row, from).value];
      assert [Resolve(row, from).value][1..] == [];
    }
  }

  lemma {:induction false} ResolveAppend(a: seq<Row>, b: seq<Row>, from: int)
    ensures ResolveAll(a + b, from).Ok? <==> ResolveAll(a, from).Ok? && ResolveAll(b, from).Ok?
    ensures ResolveAll(a + b, from).Ok? ==>
              && ResolveAll(a + b, from).value == ResolveAll(a, from).value + ResolveAll(b, from).value
              && Flat(ResolveAll(a + b, from).value)
                == Flat(ResolveAll(a, from).value) + Flat(ResolveAll(b, from).value)
  {
    ResolveAllAppend(a, b, from);
    if ResolveAll(a + b, from).Ok? {
      FlatAppend(ResolveAll(a, from).value, ResolveAll(b, from).value);
    }
  }

  lemma {:induction false} ResolveAllAppend(a: seq<Row>, b: seq<Row>, from: int)
    ensures ResolveAll(a + b, from) ==
            if ResolveAll(a, from).Err? then ResolveAll(a, from)
            else if ResolveAll(b, from).Err? then ResolveAll(b, from)
            else Ok(ResolveAll(a, from).value + ResolveAll(b, from).value)
  {
    hide Resolve;
    if a == [] {
      assert a + b == b;
      if ResolveAll(b, from).Ok? {
        assert [] + ResolveAll(b, from).value == ResolveAll(b, from).value;
      }
    } else {
      assert (a + b)[0] == a[0] && (a + b)[1..] == a[1..] + b;
      ResolveAllAppend(a[1..], b, from);
      if ResolveAll(a, from).Ok? && ResolveAll(b, from).Ok? {
        assert [Resolve(a[0], from).value] + (ResolveAll(a[1..], from).value + ResolveAll(b, from).value)
            == ResolveAll(a, from).value + ResolveAll(b, from).value;
      }
    }
  }

  /** The resolved parts of a group's own rows. */
  lemma GroupParts(g: Group, from: int)
    requires WellGrouped(g) && SplitOf(g.head) == None
    ensures ResolveAll(GroupRows(g), from).Ok?
    ensures Flat(ResolveAll(GroupRows(g), from).value) ==
            [WholePart(g.head, from)]
            + (if g.session.Some? then [WholePart(g.session.value, from)] else [])
            + (if g.unread.Some? then [WholePart(g.unread.value, from)] else [])
  {
    hide WellGrouped, SplitOf, WholePart;
    GroupCursors(g);
    var head := [g.head];
    ResolveOne(g.head, from);
    ResolveAppend(head, Optional(g.session), from);
    ResolveAppend(head + Optional(g.session), Optional(g.unread), from);
    if g.session.Some? {
      assert GroupRows(g)[1] == g.session.value;
      ResolveOne(g.session.value, from);
    }
    if g.unread.Some? {
      assert GroupRows(g)[|GroupRows(g)| - 1] == g.unread.value;
      ResolveOne(g.unread.value, from);
    }
  }

  /** The classic event an embedded payload becomes. */
  ghost function EmbeddedEvent(cursor: int, kind: string, entity: string, payload: Json): Event
    requires EmbeddedEntity(payload).Ok?
  {
    var ref := EmbeddedEntity(payload).value;
    Event(cursor, 0, kind, entity, ref.0, ref.1, false, "", payload)
  }

  /** The resolved parts of a group's output row, event by event. */
  lemma BuiltParts(g: Group, row: Row, from: int)
    requires WellGrouped(g) && Absorbs(g) && Built(g) == Ok(row)
    ensures Resolve(row, from).Ok?
    ensures g.session.Some? ==> EmbeddedEntity(g.session.value.payload).Ok?
    ensures g.unread.Some? ==> EmbeddedEntity(g.unread.value.payload).Ok?
    ensures
      var parts := Resolve(row, from).value.parts;
      && |parts| == |GroupRows(g)|
      && (forall i | 0 <= i < |parts| ::
          parts[i].cursor == GroupRows(g)[i].cursor && (parts[i].kept <==> parts[i].cursor > from))
      && EventOf(parts[0]) == EventOf(WholePart(g.head, from))
      && (g.session.Some? ==>
            EventOf(parts[1])
              == EmbeddedEvent(g.session.value.cursor, SESSION_UPSERT, SESSION, g.session.value.payload))
      && (g.unread.Some? ==>
            EventOf(parts[|parts| - 1])
              == EmbeddedEvent(g.unread.value.cursor, UNREAD_SET, SESSION_MEMBER, g.unread.value.payload))
  {
    hide EmbeddedEntity, SplitOf, WellGrouped, Built, LastRow;
    BuiltSplit(g, row);
    GroupCursors(g);
    ResolvedFresh(row, from, Resolve(row, from).value);
    if g.session.Some? {
      assert GroupRows(g)[1] == g.session.value;
    }
    if g.unread.Some? {
      assert GroupRows(g)[|GroupRows(g)| - 1] == g.unread.value;
    }
  }

  /** An absorbed row is its embedded event exactly when the payload carries its version. */
  lemma SessionEvent(g: Group, from: int)
    requires WellGrouped(g) && g.session.Some? && EmbeddedEntity(g.session.value.payload).Ok?
    ensures
      var s := g.session.value;
      EmbeddedEvent(s.cursor, SESSION_UPSERT, SESSION, s.payload) == EventOf(WholePart(s, from))
      <==> EmbeddedEntity(s.payload) == Ok((s.entityID, s.version))
    ensures
      var s := g.session.value;
      var embedded := EmbeddedEvent(s.cursor, SESSION_UPSERT, SESSION, s.payload);
      EventOf(WholePart(s, from)).(version := embedded.version) == embedded
  {
    hide PendingAccepts, EmbeddedEntity;
    AbsorbedRow(PendingOf(Group(g.head, None, None)), g.session.value);
  }

  lemma UnreadEvent(g: Group, from: int)
    requires WellGrouped(g) && g.unread.Some? && EmbeddedEntity(g.unread.value.payload).Ok?
    ensures
      var u := g.unread.value;
      EmbeddedEvent(u.cursor, UNREAD_SET, SESSION_MEMBER, u.payload) == EventOf(WholePart(u, from))
      <==> EmbeddedEntity(u.payload) == Ok((u.entityID, u.version))
    ensures
      var u := g.unread.value;
      var embedded := EmbeddedEvent(u.cursor, UNREAD_SET, SESSION_MEMBER, u.payload);
      EventOf(WholePart(u, from)).(version := embedded.version) == embedded
  {
    hide PendingAccepts, EmbeddedEntity;
    AbsorbedRow(PendingOf(g.(unread := None)), g.unread.value);
  }

  /**
   Expanding a group's output row gives the events of its input rows, if and only if the payloads carry their
   rows' versions.
   */
  lemma GroupRestores(g: Group, row: Row, from: int)
    requires WellGrouped(g) && Absorbs(g) && Built(g) == Ok(row)
    ensures ResolveAll(GroupRows(g), from).Ok? && Resolve(row, from).Ok?
    ensures |Resolve(row, from).value.parts| == |Flat(ResolveAll(GroupRows(g), from).value)|
    ensures Flags(Resolve(row, from).value.parts) == Flags(Flat(ResolveAll(GroupRows(g), from).value))
    ensures Events(Resolve(row, from).value.parts) == Events(Flat(ResolveAll(GroupRows(g), from).value))
            <==> OwnVersions(g)
    ensures SameButVersions(Events(Flat(ResolveAll(GroupRows(g), from).value)), Events(Resolve(row, from).value.parts))
  {
    hide EmbeddedEntity, WellGrouped, Built, ResolveAll, Resolve, EmbeddedEvent, EventOf, WholePart, Flags, Events;
    hide SameButVersions;
    BuiltSplit(g, row);
    BuiltParts(g, row, from);
    GroupParts(g, from);
    if g.session.Some? {
      SessionEvent(g, from);
    }
    if g.unread.Some? {
      UnreadEvent(g, from);
    }
    var a, b := Resolve(row, from).value.parts, Flat(ResolveAll(GroupRows(g), from).value);
    forall i | 0 <= i < |a| ensures b[i] == WholePart(GroupRows(g)[i], from) && a[i].kept == b[i].kept {
      KeptByCursor(GroupRows(g)[i], from);
    }
    SmallGroup(a, b, g.session.Some?, g.unread.Some?);
  }

  lemma KeptByCursor(row: Row, from: int)
    ensures WholePart(row, from).kept <==> row.cursor > from
  {
  }

  lemma SmallGroup(a: seq<Part>, b: seq<Part>, session: bool, unread: bool)
    requires |a| == |b| == 1 + (if session then 1 else 0) + (if unread then 1 else 0)
    requires forall i | 0 <= i < |a| :: a[i].kept == b[i].kept
    requires EventOf(a[0]) == EventOf(b[0])
    requires session ==> EventOf(b[1]).(version := EventOf(a[1]).version) == EventOf(a[1])
    requires unread ==> var last := |a| - 1; EventOf(b[last]).(version := EventOf(a[last]).version) == EventOf(a[last])
    ensures Flags(a) == Flags(b)
    ensures Events(a) == Events(b) <==>
            (session ==> EventOf(a[1]) == EventOf(b[1])) && (unread ==> EventOf(a[|a| - 1]) == EventOf(b[|a| - 1]))
    ensures SameButVersions(Events(b), Events(a))
  {
    hide EventOf;
    assert forall i | 0 <= i < |a| :: Events(a)[i] == EventOf(a[i]) && Events(b)[i] == EventOf(b[i]);
  }

  /** The parts of a lone row are its own. */
  lemma LoneRestores(g: Group, row: Row, from: int)
    requires !Absorbs(g) && Built(g) == Ok(row)
    ensures row == g.head && GroupRows(g) == [row] && OwnVersions(g)
  {
  }

  /**
   The tool's claim about compound rows: expanding them restores every stored row exactly,
   cursor by cursor, if and only if every absorbed payload carries its own row's version;
   nothing but versions can differ.
   */
  lemma {:induction false} ExpansionRestoresRows(groups: seq<Group>, out: seq<Row>, from: int)
    requires forall g | g in groups :: WellGrouped(g)
    requires BuiltAll(groups) == Ok(out)
    ensures ResolveAll(out, from).Ok? <==> ResolveAll(Ungrouped(groups), from).Ok?
    ensures ResolveAll(out, from).Ok? ==>
              var a, b := Flat(ResolveAll(out, from).value), Flat(ResolveAll(Ungrouped(groups), from).value);
              && |a| == |b| && Flags(a) == Flags(b)
              && SameButVersions(Events(b), Events(a))
              && (Events(a) == Events(b) <==> forall g | g in groups :: OwnVersions(g))
  {
    if groups != [] {
      hide WellGrouped, Built, OwnVersions, Resolve;
      var g, row := groups[0], out[0];
      var rows, rest := GroupRows(g), Ungrouped(groups[1..]);
      ExpansionRestoresRows(groups[1..], out[1..], from);
      ResolveAppend(rows, rest, from);
      assert out == [row] + out[1..];
      ResolveAppend([row], out[1..], from);
      ResolveOne(row, from);
      if Absorbs(g) {
        GroupRestores(g, row, from);
      } else {
        LoneRestores(g, row, from);
      }
      if ResolveAll(out, from).Ok? {
        var a, a' := Resolve(row, from).value.parts, Flat(ResolveAll(out[1..], from).value);
        var b, b' := Flat(ResolveAll(rows, from).value), Flat(ResolveAll(rest, from).value);
        EventsJoin(a, a', b, b');
        assert groups == [g] + groups[1..];
      }
    }
  }

  lemma EventsJoin(a: seq<Part>, a': seq<Part>, b: seq<Part>, b': seq<Part>)
    requires |a| == |b| && |a'| == |b'|
    requires Flags(a) == Flags(b) && Flags(a') == Flags(b')
    ensures Flags(a + a') == Flags(b + b')
    ensures Events(a + a') == Events(b + b') <==> Events(a) == Events(b) && Events(a') == Events(b')
    ensures SameButVersions(Events(b), Events(a)) && SameButVersions(Events(b'), Events(a')) ==>
              SameButVersions(Events(b + b'), Events(a + a'))
  {
    hide EventOf, SameButVersions;
    hide Events, Flags;
    EventsAppend(a, a');
    EventsAppend(b, b');
    SequencesJoin(Events(a), Events(a'), Events(b), Events(b'));
  }

  lemma SequencesJoin(a: seq<Event>, a': seq<Event>, b: seq<Event>, b': seq<Event>)
    requires |a| == |b|
    ensures a + a' == b + b' <==> a == b && a' == b'
    ensures SameButVersions(b, a) && SameButVersions(b', a') ==> SameButVersions(b + b', a + a')
  {
    if a + a' == b + b' {
      assert (a + a')[..|a|] == a && (b + b')[..|a|] == b;
      assert (a + a')[|a|..] == a' && (b + b')[|a|..] == b';
    }
  }
}
