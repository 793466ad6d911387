/** What regrouping stored rows into compound rows does to the client state they stand for, pages aside. */
module RebuildState {
  import opened Wrappers
  import opened SyncModel
  import opened SyncFold
  import opened SyncClient
  import opened FoldState
  import opened SyncRebuild

  // ---------- what built rows contain ----------

  lemma {:induction false} RebuiltReadable(groups: seq<Group>, out: seq<Row>)
    requires forall g | g in groups :: WellGrouped(g)
    requires BuiltAll(groups) == Ok(out) && ReadableRows(Ungrouped(groups))
    ensures ReadableRows(out)
  {
    if groups != [] {
      hide WellGrouped, Built, ClientReadable, NulFree;
      var g, row := groups[0], out[0];
      assert GroupRows(g)[0] == g.head;
      assert Ungrouped(groups)[0] == g.head && g.head in Ungrouped(groups);
      forall r | r in Ungrouped(groups[1..]) ensures r in Ungrouped(groups) {
      }
      RebuiltReadable(groups[1..], out[1..]);
      BuiltReadable(g, row);
    }
  }

  lemma BuiltReadable(g: Group, row: Row)
    requires WellGrouped(g) && Built(g) == Ok(row) && ClientReadable(g.head)
    ensures ClientReadable(row) && row.kind == g.head.kind
  {
    hide WellGrouped, CompoundPayload;
    if Absorbs(g) {
      BuiltSplit(g, row);
      AbsorbedObjects(g);
      BuiltPayload(g, row);
    } else {
      LoneRestores(g, row, 0);
    }
  }

  lemma AbsorbedObjects(g: Group)
    requires WellGrouped(g)
    ensures g.session.Some? ==> g.session.value.payload.Obj?
    ensures g.unread.Some? ==> g.unread.value.payload.Obj?
  {
    hide PendingOf;
    if g.session.Some? {
      AcceptedPayload(PendingOf(Group(g.head, None, None)), g.session.value);
    }
    if g.unread.Some? {
      AcceptedPayload(PendingOf(g.(unread := None)), g.unread.value);
    }
  }

  lemma BuiltPayload(g: Group, row: Row)
    requires Absorbs(g) && Built(g) == Ok(row)
    ensures g.head.payload.Obj? && row.payload.Obj?
    ensures SESSION_KEY !in g.head.payload.fields && UNREAD_KEY !in g.head.payload.fields
    ensures row.payload == JoinCompound(g.head.payload.fields, PayloadOf(g.session), PayloadOf(g.unread))
  {
    hide EmbeddedEntity;
  }

  // ---------- rows as events, one per row ----------

  /** The event a row is sent as to a client that reads compound rows. */
  function RowEvent(row: Row): Event {
    EventOf(WholePart(row, 0))
  }

  ghost function RowEvents(rows: seq<Row>): (r: seq<Event>)
    ensures |r| == |rows|
    ensures forall i | 0 <= i < |r| :: r[i] == RowEvent(rows[i])
  {
    seq(|rows|, i requires 0 <= i < |rows| => RowEvent(rows[i]))
  }

  lemma {:induction false} ClassicEventsStaySplit(events: seq<Event>)
    requires forall e | e in events :: ClientParts(e) == Ok([e])
    ensures AllClientParts(events) == Ok(events)
  {
    if events != [] {
      hide ClientParts;
      ClassicEventsStaySplit(events[1..]);
      assert events == [events[0]] + events[1..];
    }
  }

  lemma {:induction false} AllClientPartsOk(a: seq<Event>, b: seq<Event>)
    ensures AllClientParts(a + b).Ok? <==> AllClientParts(a).Ok? && AllClientParts(b).Ok?
  {
    hide ClientParts;
    if a == [] {
      assert a + b == b;
    } else {
      assert (a + b)[1..] == a[1..] + b;
      AllClientPartsOk(a[1..], b);
    }
  }

  lemma {:induction false} RowEventsAppend(a: seq<Row>, b: seq<Row>)
    ensures RowEvents(a + b) == RowEvents(a) + RowEvents(b)
  {
  }

  /** The rows of an absorbing group are classic: a client splits none of them further. */
  lemma GroupStaysSplit(g: Group)
    requires WellGrouped(g) && Absorbs(g) && Built(g).Ok?
    ensures AllClientParts(RowEvents(GroupRows(g))) == Ok(RowEvents(GroupRows(g)))
  {
    hide WellGrouped, Built, ClientParts;
    BuiltPayload(g, Built(g).value);
    GroupCursors(g);
    var events := RowEvents(GroupRows(g));
    forall e | e in events ensures ClientParts(e) == Ok([e]) {
      var i :| 0 <= i < |events| && events[i] == e;
      if i == 0 {
        ClassicMessage(g.head);
      } else {
        AbsorbedKinds(g);
        assert !IsMessageUpsert(GroupRows(g)[i].kind, GroupRows(g)[i].entity);
        NoMessage(GroupRows(g)[i]);
      }
    }
    ClassicEventsStaySplit(events);
  }

  lemma ClassicMessage(row: Row)
    requires row.payload.Obj? && SESSION_KEY !in row.payload.fields && UNREAD_KEY !in row.payload.fields
    ensures ClientParts(RowEvent(row)) == Ok([RowEvent(row)])
  {
  }

  lemma NoMessage(row: Row)
    requires !IsMessageUpsert(row.kind, row.entity)
    ensures ClientParts(RowEvent(row)) == Ok([RowEvent(row)])
  {
  }

  lemma AbsorbedKinds(g: Group)
    requires WellGrouped(g)
    ensures forall i | 1 <= i < |GroupRows(g)| :: !IsMessageUpsert(GroupRows(g)[i].kind, GroupRows(g)[i].entity)
  {
  }

  /** The compound row of a group splits into its rows' contents, but for the versions of the absorbed rows. */
  lemma BuiltSplitsBack(g: Group, row: Row)
    requires WellGrouped(g) && Absorbs(g) && Built(g) == Ok(row)
    ensures AllClientParts(RowEvents([row])).Ok?
    ensures
      var a, b := Contents(RowEvents(GroupRows(g))), Contents(AllClientParts(RowEvents([row])).value);
      SameButVersions(a, b) && (a == b <==> OwnVersions(g))
  {
    hide WellGrouped, Built, ClientParts, EmbeddedEntity, AllClientParts;
    BuiltSplit(g, row);
    BuiltIsContents(g, row);
    if g.session.Some? {
      SessionEvent(g, 0);
    }
    if g.unread.Some? {
      UnreadEvent(g, 0);
    }
    SmallContents(g, BuiltContents(g));
  }

  lemma HeadIsMessage(g: Group)
    requires WellGrouped(g) && Absorbs(g)
    ensures IsMessageUpsert(g.head.kind, g.head.entity)
  {
  }

  lemma SmallContents(g: Group, b: seq<Event>)
    requires g.session.Some? ==> EmbeddedEntity(g.session.value.payload).Ok?
    requires g.unread.Some? ==> EmbeddedEntity(g.unread.value.payload).Ok?
    requires
      b == [Content(RowEvent(g.head))]
           + EmbeddedEvents(SESSION_UPSERT, SESSION, PayloadOf(g.session))
           + EmbeddedEvents(UNREAD_SET, SESSION_MEMBER, PayloadOf(g.unread))
    requires
      g.session.Some? ==>
        var s := g.session.value;
        var embedded := EmbeddedEvent(s.cursor, SESSION_UPSERT, SESSION, s.payload);
        && RowEvent(s).(version := embedded.version) == embedded
        && (embedded == RowEvent(s) <==> EmbeddedEntity(s.payload) == Ok((s.entityID, s.version)))
    requires
      g.unread.Some? ==>
        var u := g.unread.value;
        var embedded := EmbeddedEvent(u.cursor, UNREAD_SET, SESSION_MEMBER, u.payload);
        && RowEvent(u).(version := embedded.version) == embedded
        && (embedded == RowEvent(u) <==> EmbeddedEntity(u.payload) == Ok((u.entityID, u.version)))
    ensures
      var a := Contents(RowEvents(GroupRows(g)));
      SameButVersions(a, b) && (a == b <==> OwnVersions(g))
  {
    hide EmbeddedEntity;
    var a := Contents(RowEvents(GroupRows(g)));
    assert |a| == |b|;
    if g.session.Some? {
      assert GroupRows(g)[1] == g.session.value;
      assert a[1] == Content(RowEvent(g.session.value));
    }
    if g.unread.Some? {
      assert GroupRows(g)[|a| - 1] == g.unread.value;
      assert a[|a| - 1] == Content(RowEvent(g.unread.value));
    }
  }

  // ---------- the whole row list ----------

  /**
   Over any stored row list that can be regrouped, with no condition on cursors or payloads: a client can read the
   regrouped rows exactly if it can read the stored ones, and then gets the same contents but for versions, the very
   same ones exactly if every absorbed payload carries its row's version.
   */
  lemma {:induction false} RegroupedContents(groups: seq<Group>, out: seq<Row>)
    requires forall g | g in groups :: WellGrouped(g)
    requires BuiltAll(groups) == Ok(out)
    ensures AllClientParts(RowEvents(out)).Ok? <==> AllClientParts(RowEvents(Ungrouped(groups))).Ok?
    ensures AllClientParts(RowEvents(out)).Ok? ==>
              var a := Contents(AllClientParts(RowEvents(Ungrouped(groups))).value);
              var b := Contents(AllClientParts(RowEvents(out)).value);
              SameButVersions(a, b) && (a == b <==> forall g | g in groups :: OwnVersions(g))
  {
    if groups == [] {
      assert RowEvents(out) == [] && RowEvents(Ungrouped(groups)) == [];
    } else {
      hide WellGrouped, Built, OwnVersions, AllClientParts, RowEvents, SameButVersions, GroupRows, Contents;
      var g, row, rest := groups[0], out[0], Ungrouped(groups[1..]);
      assert out == [row] + out[1..] && groups == [g] + groups[1..];
      RegroupedContents(groups[1..], out[1..]);
      GroupContents(g, row);
      RowEventsAppend([row], out[1..]);
      RowEventsAppend(GroupRows(g), rest);
      AllClientPartsOk(RowEvents([row]), RowEvents(out[1..]));
      AllClientPartsOk(RowEvents(GroupRows(g)), RowEvents(rest));
      if AllClientParts(RowEvents(out)).Ok? {
        var a, a' := RowEvents(GroupRows(g)), RowEvents(rest);
        var b, b' := RowEvents([row]), RowEvents(out[1..]);
        AllClientPartsAppend(a, a');
        AllClientPartsAppend(b, b');
        ContentsAppend(AllClientParts(a).value, AllClientParts(a').value);
        ContentsAppend(AllClientParts(b).value, AllClientParts(b').value);
        SameLength(Contents(AllClientParts(a).value), Contents(AllClientParts(b).value));
        SequencesJoin(Contents(AllClientParts(b).value), Contents(AllClientParts(b').value),
                      Contents(AllClientParts(a).value), Contents(AllClientParts(a').value));
      }
    }
  }

  lemma SameLength(a: seq<Event>, b: seq<Event>)
    requires SameButVersions(a, b)
    ensures |a| == |b|
  {
  }

  lemma GroupContents(g: Group, row: Row)
    requires WellGrouped(g) && Built(g) == Ok(row)
    ensures AllClientParts(RowEvents([row])).Ok? <==> AllClientParts(RowEvents(GroupRows(g))).Ok?
    ensures AllClientParts(RowEvents([row])).Ok? ==>
              var a := Contents(AllClientParts(RowEvents(GroupRows(g))).value);
              var b := Contents(AllClientParts(RowEvents([row])).value);
              SameButVersions(a, b) && (a == b <==> OwnVersions(g))
  {
    hide WellGrouped, Built, AllClientParts, RowEvents, OwnVersions;
    if Absorbs(g) {
      GroupStaysSplit(g);
      BuiltSplitsBack(g, row);
    } else {
      LoneRestores(g, row, 0);
    }
  }

  // ---------- which versions must fit, read off the stored rows ----------

  /** The entities whose states a client takes from these rows. */
  ghost function KeysOf(rows: seq<Row>): set<string> {
    if rows == [] then {} else RowKeys(rows[0]) + KeysOf(rows[1..])
  }

  ghost function RowKeys(row: Row): set<string> {
    match ClientParts(RowEvent(row))
    case Ok(parts) => set p | p in parts :: EntityKey(p)
    case Err(_) => {}
  }

  /** The payload carries the row's own id and version. */
  predicate Fits(row: Row) {
    EmbeddedEntity(row.payload) == Ok((row.entityID, row.version))
  }

  /** An absorbed row fits, or a later stored row replaces the state of its entity. */
  ghost predicate FitsIfLatest(row: Option<Row>, later: seq<Row>) {
    row.Some? && EntityKey(RowEvent(row.value)) !in KeysOf(later) ==> Fits(row.value)
  }

  /** Every absorbed row that is the last stored state of its entity carries its own version. */
  ghost predicate LatestFits(groups: seq<Group>) {
    groups != [] ==>
      var later := Ungrouped(groups[1..]);
      && FitsIfLatest(groups[0].session, Optional(groups[0].unread) + later)
      && FitsIfLatest(groups[0].unread, later)
      && LatestFits(groups[1..])
  }

  lemma {:induction false} OwnVersionsFit(groups: seq<Group>)
    requires forall g | g in groups :: OwnVersions(g)
    ensures LatestFits(groups)
  {
    if groups != [] {
      hide EntityKey;
      OwnVersionsFit(groups[1..]);
      assert groups[0] in groups;
    }
  }

  ghost predicate HasKey(events: seq<Event>, key: string) {
    exists i | 0 <= i < |events| :: EntityKey(events[i]) == key
  }

  lemma HasKeyAppend(a: seq<Event>, b: seq<Event>, key: string)
    ensures HasKey(a + b, key) <==> HasKey(a, key) || HasKey(b, key)
  {
    hide EntityKey;
    if i :| 0 <= i < |a| && EntityKey(a[i]) == key {
      assert EntityKey((a + b)[i]) == key;
    }
    if i :| 0 <= i < |b| && EntityKey(b[i]) == key {
      assert EntityKey((a + b)[|a| + i]) == key;
    }
  }

  lemma KeysOfParts(parts: seq<Event>, key: string)
    ensures HasKey(parts, key) <==> key in (set p | p in parts :: EntityKey(p))
  {
    hide EntityKey;
  }

  /** The keys of rows are those of the parts a client splits them into. */
  lemma {:induction false} KeysAreParts(rows: seq<Row>, key: string)
    requires AllClientParts(RowEvents(rows)).Ok?
    ensures key in KeysOf(rows) <==> HasKey(AllClientParts(RowEvents(rows)).value, key)
  {
    hide ClientParts, EntityKey, HasKey;
    var events := RowEvents(rows);
    if rows == [] {
      assert events == [] && !HasKey([], key) by {
        NoKey(key);
      }
    } else {
      assert events[1..] == RowEvents(rows[1..]);
      KeysAreParts(rows[1..], key);
      KeysOfParts(ClientParts(events[0]).value, key);
      HasKeyAppend(ClientParts(events[0]).value, AllClientParts(events[1..]).value, key);
    }
  }

  lemma NoKey(key: string)
    ensures !HasKey([], key)
  {
  }

  /** Whether event i is the latest of its entity in a longer list. */
  lemma LatestInLonger(a: seq<Event>, more: seq<Event>, i: nat)
    requires i < |a|
    ensures IsLatest(a + more, i) <==> IsLatest(a, i) && !HasKey(more, EntityKey(a[i]))
  {
    hide EntityKey;
    if IsLatest(a + more, i) {
      forall j | i < j < |a| ensures EntityKey(a[j]) != EntityKey(a[i]) {
        assert (a + more)[j] == a[j];
      }
      forall j | 0 <= j < |more| ensures EntityKey(more[j]) != EntityKey(a[i]) {
        assert (a + more)[|a| + j] == more[j];
      }
    }
  }

  lemma LatestInTail(a: seq<Event>, more: seq<Event>, i: nat)
    requires i < |more|
    ensures IsLatest(a + more, |a| + i) <==> IsLatest(more, i)
  {
    hide EntityKey;
    if IsLatest(a + more, |a| + i) {
      forall j | i < j < |more| ensures EntityKey(more[j]) != EntityKey(more[i]) {
        assert (a + more)[|a| + j] == more[j];
      }
    }
  }

  /** The first events agree in version wherever they are the latest of the whole list. */
  ghost predicate LatestAgree(a: seq<Event>, b: seq<Event>, more: seq<Event>)
    requires |a| == |b|
  {
    forall i | 0 <= i < |a| && IsLatest(a, i) && !HasKey(more, EntityKey(a[i])) :: a[i].version == b[i].version
  }

  lemma SameLatestJoin(a: seq<Event>, b: seq<Event>, a': seq<Event>, b': seq<Event>)
    requires |a| == |b| && |a'| == |b'|
    ensures SameLatestVersions(a + a', b + b') <==> LatestAgree(a, b, a') && SameLatestVersions(a', b')
  {
    hide EntityKey, IsLatest, HasKey;
    forall i | 0 <= i < |a| ensures IsLatest(a + a', i) <==> IsLatest(a, i) && !HasKey(a', EntityKey(a[i])) {
      LatestInLonger(a, a', i);
    }
    forall i | 0 <= i < |a'| ensures IsLatest(a + a', |a| + i) <==> IsLatest(a', i) {
      LatestInTail(a, a', i);
    }
    if LatestAgree(a, b, a') && SameLatestVersions(a', b') {
      forall i | 0 <= i < |a + a'| && IsLatest(a + a', i) ensures (a + a')[i].version == (b + b')[i].version {
        if i >= |a| {
          assert IsLatest(a', i - |a|);
        }
      }
    }
    if SameLatestVersions(a + a', b + b') {
      forall i | 0 <= i < |a| && IsLatest(a, i) && !HasKey(a', EntityKey(a[i])) ensures a[i].version == b[i].version {
        assert (a + a')[i].version == (b + b')[i].version;
      }
      forall i | 0 <= i < |a'| && IsLatest(a', i) ensures a'[i].version == b'[i].version {
        assert (a + a')[|a| + i].version == (b + b')[|a| + i].version;
      }
    }
  }

  /** One absorbing group: its rows' events against the parts of its built row, with later parts `more`. */
  lemma GroupLatest(g: Group, b: seq<Event>, more: seq<Event>, later: seq<Row>)
    requires WellGrouped(g)
    requires g.session.Some? ==> EmbeddedEntity(g.session.value.payload).Ok?
    requires g.unread.Some? ==> EmbeddedEntity(g.unread.value.payload).Ok?
    requires b == BuiltContents(g)
    requires forall key :: key in KeysOf(later) <==> HasKey(more, key)
    ensures
      var a := Contents(RowEvents(GroupRows(g)));
      && |a| == |b|
      && (LatestAgree(a, b, more) <==>
          FitsIfLatest(g.session, Optional(g.unread) + later) && FitsIfLatest(g.unread, later))
  {
    hide WellGrouped, EmbeddedEntity, EntityKey, KeysOf, HasKey, Content, RowEvent;
    var rows := GroupRows(g);
    var a := Contents(RowEvents(rows));
    assert |a| == |b| && b[0] == a[0];
    forall i | 0 <= i < |a|
      ensures a[i] == Content(RowEvent(rows[i])) && EntityKey(a[i]) == EntityKey(RowEvent(rows[i]))
    {
      KeyOfContent(RowEvent(rows[i]));
    }
    if g.session.Some? {
      assert rows[1] == g.session.value;
      SessionFits(g);
      LaterKeys(g, later, more, EntityKey(a[1]));
    }
    if g.unread.Some? {
      assert rows[|a| - 1] == g.unread.value;
      UnreadFits(g);
    }
  }

  /** The contents a client reads out of the built row of a group. */
  ghost function BuiltContents(g: Group): seq<Event>
    requires g.session.Some? ==> EmbeddedEntity(g.session.value.payload).Ok?
    requires g.unread.Some? ==> EmbeddedEntity(g.unread.value.payload).Ok?
  {
    [Content(RowEvent(g.head))]
    + EmbeddedEvents(SESSION_UPSERT, SESSION, PayloadOf(g.session))
    + EmbeddedEvents(UNREAD_SET, SESSION_MEMBER, PayloadOf(g.unread))
  }

  lemma SessionFits(g: Group)
    requires WellGrouped(g) && g.session.Some? && EmbeddedEntity(g.session.value.payload).Ok?
    ensures
      var s := g.session.value;
      var embedded := EmbeddedEvents(SESSION_UPSERT, SESSION, Some(s.payload))[0];
      Content(RowEvent(s)).version == embedded.version <==> Fits(s)
  {
    hide PendingAccepts, EmbeddedEntity;
    AbsorbedRow(PendingOf(Group(g.head, None, None)), g.session.value);
  }

  lemma UnreadFits(g: Group)
    requires WellGrouped(g) && g.unread.Some? && EmbeddedEntity(g.unread.value.payload).Ok?
    ensures
      var u := g.unread.value;
      var embedded := EmbeddedEvents(UNREAD_SET, SESSION_MEMBER, Some(u.payload))[0];
      Content(RowEvent(u)).version == embedded.version <==> Fits(u)
  {
    hide PendingAccepts, EmbeddedEntity;
    AbsorbedRow(PendingOf(g.(unread := None)), g.unread.value);
  }

  /** The keys after a group's session row. */
  lemma LaterKeys(g: Group, later: seq<Row>, more: seq<Event>, key: string)
    requires WellGrouped(g)
    requires forall k :: k in KeysOf(later) <==> HasKey(more, k)
    ensures key in KeysOf(Optional(g.unread) + later) <==>
            (g.unread.Some? && EntityKey(RowEvent(g.unread.value)) == key) || HasKey(more, key)
  {
    hide EntityKey, HasKey, KeysOf, WellGrouped;
    if g.unread.Some? {
      var u := g.unread.value;
      assert GroupRows(g)[|GroupRows(g)| - 1] == u;
      AbsorbedKinds(g);
      NoMessage(u);
      var rows := [u] + later;
      assert rows[0] == u && rows[1..] == later;
      KeysOfCons(u, later);
      assert RowKeys(u) == {EntityKey(RowEvent(u))};
    } else {
      assert Optional(g.unread) + later == later;
    }
  }

  lemma KeysOfCons(row: Row, rest: seq<Row>)
    ensures KeysOf([row] + rest) == RowKeys(row) + KeysOf(rest)
  {
    assert ([row] + rest)[1..] == rest;
  }

  /** The versions of the latest states agree exactly if every last stored state of an entity fits. */
  lemma {:induction false} LatestVersionsFit(groups: seq<Group>, out: seq<Row>)
    requires forall g | g in groups :: WellGrouped(g)
    requires BuiltAll(groups) == Ok(out)
    requires AllClientParts(RowEvents(out)).Ok? && AllClientParts(RowEvents(Ungrouped(groups))).Ok?
    ensures
      var a := Contents(AllClientParts(RowEvents(Ungrouped(groups))).value);
      var b := Contents(AllClientParts(RowEvents(out)).value);
      |a| == |b| && (SameLatestVersions(a, b) <==> LatestFits(groups))
  {
    if groups == [] {
      assert RowEvents(out) == [] && RowEvents(Ungrouped(groups)) == [];
    } else {
      hide WellGrouped, Built, AllClientParts, RowEvents, SameLatestVersions, GroupRows, Contents, FitsIfLatest, KeysOf;
      hide HasKey, LatestAgree;
      var g, row, rest := groups[0], out[0], Ungrouped(groups[1..]);
      assert out == [row] + out[1..] && groups == [g] + groups[1..];
      var a, a' := ContentsOfAppend(GroupRows(g), rest);
      var b, b' := ContentsOfAppend([row], out[1..]);
      LatestVersionsFit(groups[1..], out[1..]);
      RestKeys(rest, a');
      GroupFits(g, row, a', rest);
      SameLatestJoin(a, b, a', b');
    }
  }

  lemma RestKeys(rows: seq<Row>, contents: seq<Event>)
    requires AllClientParts(RowEvents(rows)).Ok? && contents == Contents(AllClientParts(RowEvents(rows)).value)
    ensures forall key :: key in KeysOf(rows) <==> HasKey(contents, key)
  {
    hide KeysOf, HasKey, AllClientParts, RowEvents, Contents;
    forall key ensures key in KeysOf(rows) <==> HasKey(contents, key) {
      KeysAreParts(rows, key);
      ContentsHaveKey(AllClientParts(RowEvents(rows)).value, key);
    }
  }

  lemma ContentsOfAppend(x: seq<Row>, y: seq<Row>) returns (a: seq<Event>, b: seq<Event>)
    requires AllClientParts(RowEvents(x + y)).Ok?
    ensures AllClientParts(RowEvents(x)).Ok? && AllClientParts(RowEvents(y)).Ok?
    ensures a == Contents(AllClientParts(RowEvents(x)).value) && b == Contents(AllClientParts(RowEvents(y)).value)
    ensures Contents(AllClientParts(RowEvents(x + y)).value) == a + b
  {
    hide AllClientParts, RowEvents;
    RowEventsAppend(x, y);
    AllClientPartsOk(RowEvents(x), RowEvents(y));
    AllClientPartsAppend(RowEvents(x), RowEvents(y));
    a, b := Contents(AllClientParts(RowEvents(x)).value), Contents(AllClientParts(RowEvents(y)).value);
    ContentsAppend(AllClientParts(RowEvents(x)).value, AllClientParts(RowEvents(y)).value);
  }

  lemma ContentsHaveKey(events: seq<Event>, key: string)
    ensures HasKey(Contents(events), key) <==> HasKey(events, key)
  {
    hide EntityKey;
    forall i | 0 <= i < |events| ensures EntityKey(Contents(events)[i]) == EntityKey(events[i]) {
      KeyOfContent(events[i]);
    }
  }

  lemma GroupFits(g: Group, row: Row, more: seq<Event>, later: seq<Row>)
    requires WellGrouped(g) && Built(g) == Ok(row)
    requires AllClientParts(RowEvents([row])).Ok? && AllClientParts(RowEvents(GroupRows(g))).Ok?
    requires forall key :: key in KeysOf(later) <==> HasKey(more, key)
    ensures
      var a := Contents(AllClientParts(RowEvents(GroupRows(g))).value);
      var b := Contents(AllClientParts(RowEvents([row])).value);
      && |a| == |b|
      && (LatestAgree(a, b, more) <==>
          FitsIfLatest(g.session, Optional(g.unread) + later) && FitsIfLatest(g.unread, later))
  {
    hide WellGrouped, Built, AllClientParts, RowEvents, FitsIfLatest, KeysOf, HasKey, EntityKey, EmbeddedEntity;
    if Absorbs(g) {
      GroupStaysSplit(g);
      BuiltSplit(g, row);
      BuiltIsContents(g, row);
      GroupLatest(g, BuiltContents(g), more, later);
    } else {
      LoneRestores(g, row, 0);
      NothingAbsorbed(g, later);
    }
  }

  lemma NothingAbsorbed(g: Group, later: seq<Row>)
    requires !Absorbs(g)
    ensures FitsIfLatest(g.session, Optional(g.unread) + later) && FitsIfLatest(g.unread, later)
  {
  }

  lemma BuiltIsContents(g: Group, row: Row)
    requires WellGrouped(g) && Absorbs(g) && Built(g) == Ok(row)
    requires g.session.Some? ==> EmbeddedEntity(g.session.value.payload).Ok?
    requires g.unread.Some? ==> EmbeddedEntity(g.unread.value.payload).Ok?
    ensures AllClientParts(RowEvents([row])).Ok?
    ensures Contents(AllClientParts(RowEvents([row])).value) == BuiltContents(g)
  {
    hide WellGrouped, Built, ClientParts, EmbeddedEntity;
    BuiltSplit(g, row);
    BuiltPayload(g, row);
    HeadIsMessage(g);
    var event := RowEvent(row);
    JoinedSplitsBack(event, g.head.payload.fields, PayloadOf(g.session), PayloadOf(g.unread));
    AllOfOne(event);
    assert RowEvents([row]) == [event];
    assert Content(event.(payload := Obj(g.head.payload.fields))) == Content(RowEvent(g.head));
  }

  /**
   The property regrouping exists for: for every row list that can be regrouped, the regrouped rows leave a client in
   the same final state and with the same receipts as the stored rows if and only if every absorbed row that is the
   last stored state of its entity carries its own version in its payload.
   */
  lemma RegroupingKeepsState(rows: seq<Row>, out: seq<Row>)
    requires BuiltAll(GroupsOf(rows)) == Ok(out)
    ensures FinalStateOf(RowEvents(out)).Ok? <==> FinalStateOf(RowEvents(rows)).Ok?
    ensures FinalStateOf(RowEvents(out)).Ok? ==>
              (FinalStateOf(RowEvents(out)) == FinalStateOf(RowEvents(rows)) <==> LatestFits(GroupsOf(rows)))
  {
    hide WellGrouped, BuiltAll, GroupsOf, AllClientParts, RowEvents, StateAfter, SameLatestVersions, LatestFits;
    hide SameButVersions, OwnVersions;
    GroupsTile(rows);
    RegroupedContents(GroupsOf(rows), out);
    if FinalStateOf(RowEvents(out)).Ok? {
      var stored, regrouped := AllClientParts(RowEvents(rows)).value, AllClientParts(RowEvents(out)).value;
      var a, b := Contents(stored), Contents(regrouped);
      SameLength(a, b);
      ContentsIdempotent(stored);
      ContentsIdempotent(regrouped);
      ContentDecidesState(a, stored);
      ContentDecidesState(b, regrouped);
      VersionsDecideState(a, b);
      LatestVersionsFit(GroupsOf(rows), out);
    }
  }

  /** A client splits a readable row into the contents of the row's parts. */
  lemma RowSplitsIntoParts(row: Row)
    requires ClientReadable(row) && Resolve(row, 0).Ok?
    ensures ClientParts(RowEvent(row)).Ok?
    ensures Contents(ClientParts(RowEvent(row)).value) == Contents(Events(Resolve(row, 0).value.parts))
  {
    var u := Resolve(row, 0).value;
    if u.split.Some? {
      hide EmbeddedEntity, ClientParts, Resolve;
      ResolvedCompound(row, 0, u);
      SplitThenJoin(row);
      var c, parts := u.split.value, u.parts;
      SplitIsMessage(row);
      JoinedSplitsBack(RowEvent(row), c.fields, c.session, c.unread);
      SmallParts(c, parts, Contents(ClientParts(RowEvent(row)).value));
    } else {
      hide EmbeddedEntity, StateVersion, ClientRef;
      assert u.parts == [WholePart(row, 0)];
      assert Events(u.parts) == [RowEvent(row)];
      PartsAreClassic(row, 0, u, 0);
    }
  }

  lemma SplitIsMessage(row: Row)
    requires SplitOf(row).Some?
    ensures IsMessageUpsert(row.kind, row.entity)
  {
  }

  lemma SmallParts(c: Compound, parts: seq<Part>, b: seq<Event>)
    requires c.session.Some? ==> EmbeddedEntity(c.session.value).Ok?
    requires c.unread.Some? ==> EmbeddedEntity(c.unread.value).Ok?
    requires |parts| == PartCount(c)
    requires c.session.Some? ==>
               [Content(EventOf(parts[1]))] == EmbeddedEvents(SESSION_UPSERT, SESSION, c.session)
    requires c.unread.Some? ==>
               [Content(EventOf(parts[|parts| - 1]))] == EmbeddedEvents(UNREAD_SET, SESSION_MEMBER, c.unread)
    requires b == [Content(EventOf(parts[0]))] + EmbeddedEvents(SESSION_UPSERT, SESSION, c.session)
                  + EmbeddedEvents(UNREAD_SET, SESSION_MEMBER, c.unread)
    ensures b == Contents(Events(parts))
  {
    hide EmbeddedEntity, EventOf, Content;
    var a := Contents(Events(parts));
    assert forall i | 0 <= i < |a| :: a[i] == Content(EventOf(parts[i]));
    assert |a| == |b|;
  }

  /** So readable rows split into the contents of their stream. */
  lemma {:induction false} RowsSplitIntoStream(rows: seq<Row>)
    requires ReadableRows(rows) && Stream(rows).Ok?
    ensures AllClientParts(RowEvents(rows)).Ok?
    ensures Contents(AllClientParts(RowEvents(rows)).value) == Contents(Stream(rows).value)
  {
    hide Resolve, ClientParts, ClientReadable, EventOf, Content;
    var events := RowEvents(rows);
    if rows == [] {
      assert events == [] && Stream(rows).value == [];
    } else {
      assert events[1..] == RowEvents(rows[1..]);
      RowSplitsIntoParts(rows[0]);
      RowsSplitIntoStream(rows[1..]);
      var parts, rest := Resolve(rows[0], 0).value.parts, Flat(ResolveAll(rows[1..], 0).value);
      EventsAppend(parts, rest);
      ContentsAppend(Events(parts), Events(rest));
      ContentsAppend(ClientParts(events[0]).value, AllClientParts(events[1..]).value);
    }
  }

  lemma ContentsIdempotent(events: seq<Event>)
    ensures Contents(Contents(events)) == Contents(events)
  {
  }

  lemma LatestOfContents(a: seq<Event>, b: seq<Event>)
    requires |a| == |b|
    ensures SameLatestVersions(Contents(a), Contents(b)) <==> SameLatestVersions(a, b)
  {
    hide EntityKey;
    assert forall i | 0 <= i < |a| :: EntityKey(Contents(a)[i]) == EntityKey(a[i]) by {
      forall i | 0 <= i < |a| ensures EntityKey(Contents(a)[i]) == EntityKey(a[i]) {
        KeyOfContent(a[i]);
      }
    }
    assert forall i | 0 <= i < |a| :: IsLatest(Contents(a), i) <==> IsLatest(a, i);
  }

  lemma KeyOfContent(e: Event)
    ensures EntityKey(Content(e)) == EntityKey(e)
  {
  }
}
