/**
 What a client makes of a list of events: it splits compound events into classic
 parts, keeps the last state of every entity and collects command receipts.
 Written independently of SyncFold, as the backtest's own splitter is.
 */
module SyncClient {
  import opened Wrappers
  import opened SyncModel

  datatype EntityState = EntityState(version: int, tombstone: bool, payload: Json)

  datatype ClientState = ClientState(entities: map<string, EntityState>, receipts: set<string>)

  // ---------- splitting ----------

  /** The session_id and state_version of an embedded payload, without the writer's blank-id check. */
  function ClientRef(raw: Json): Result<(string, int), SyncError> {
    match raw
    case Obj(fields) =>
      var id :- StringMember(fields, "session_id");
      var version :- StateVersion(fields);
      Ok((id, version))
    case Null => Err(BadVersion)
    case _ => Err(BadMember)
  }

  function Member(fields: map<string, Json>, key: string): Option<Json> {
    if key in fields then Some(fields[key]) else None
  }

  function ClientEmbedded(kind: string, entity: string, raw: Option<Json>): Result<seq<Event>, SyncError> {
    if raw.None? then Ok([])
    else
      var ref :- ClientRef(raw.value);
      Ok([Event(0, 0, kind, entity, ref.0, ref.1, false, "", raw.value)])
  }

  /** The classic parts of one event. A member that is present but null is not treated as absent here. */
  function ClientParts(event: Event): Result<seq<Event>, SyncError> {
    if !IsMessageUpsert(event.kind, event.entity) || event.payload.Null? then Ok([event])
    else if !event.payload.Obj? then Err(BadMember)
    else
      var fields := event.payload.fields;
      var session, unread := Member(fields, SESSION_KEY), Member(fields, UNREAD_KEY);
      if session.None? && unread.None? then Ok([event])
      else
        var message := event.(firstCursor := 0, payload := Obj(fields - {SESSION_KEY, UNREAD_KEY}));
        var sessionPart :- ClientEmbedded(SESSION_UPSERT, SESSION, session);
        var unreadPart :- ClientEmbedded(UNREAD_SET, SESSION_MEMBER, unread);
        Ok([message] + sessionPart + unreadPart)
  }

  function AllClientParts(events: seq<Event>): Result<seq<Event>, SyncError> {
    if events == [] then Ok([])
    else
      var first :- ClientParts(events[0]);
      var rest :- AllClientParts(events[1..]);
      Ok(first + rest)
  }

  lemma {:induction false} AllClientPartsAppend(a: seq<Event>, b: seq<Event>)
    requires AllClientParts(a).Ok? && AllClientParts(b).Ok?
    ensures AllClientParts(a + b) == Ok(AllClientParts(a).value + AllClientParts(b).value)
  {
    if a == [] {
      assert a + b == b && [] + AllClientParts(b).value == AllClientParts(b).value;
    } else {
      assert (a + b)[1..] == a[1..] + b;
      AllClientPartsAppend(a[1..], b);
      assert ClientParts(a[0]).value + AllClientParts(a[1..]).value + AllClientParts(b).value
          == ClientParts(a[0]).value + (AllClientParts(a[1..]).value + AllClientParts(b).value);
    }
  }

  // ---------- final state ----------

  function EntityKey(e: Event): string {
    if e.entity == MESSAGE then "message|" + e.entityID
    else e.kind + "|" + e.entity + "|" + e.entityID
  }

  /** Which events the client takes for the same entity: a message by its id, anything else by kind, type and id. */
  lemma EntityKeyMeaning(a: Event, b: Event)
    requires '|' !in a.kind + a.entity + b.kind + b.entity
    requires a.kind != "message" && b.kind != "message"
    ensures EntityKey(a) == EntityKey(b) <==>
            if a.entity == "message" || b.entity == "message" then a.entity == b.entity && a.entityID == b.entityID
            else a.kind == b.kind && a.entity == b.entity && a.entityID == b.entityID
  {
    FirstBar(a.kind, a.entity + "|" + a.entityID, b.kind, b.entity + "|" + b.entityID);
    FirstBar(a.entity, a.entityID, b.entity, b.entityID);
    FirstBar("message", a.entityID, b.kind, b.entity + "|" + b.entityID);
    FirstBar(a.kind, a.entity + "|" + a.entityID, "message", b.entityID);
    FirstBar("message", a.entityID, "message", b.entityID);
    assert forall e: Event :: e.kind + "|" + e.entity + "|" + e.entityID
                              == e.kind + "|" + (e.entity + "|" + e.entityID);
    assert forall id: string :: "message" + "|" + id == "message|" + id;
  }

  lemma FirstBar(a: string, s: string, b: string, t: string)
    ensures '|' !in a && '|' !in b ==> (a + "|" + s == b + "|" + t <==> a == b && s == t)
  {
    var v, w := a + "|" + s, b + "|" + t;
    if v == w && '|' !in a && '|' !in b {
      assert v[|a|] == '|' && w[|b|] == '|';
      assert v[..|a|] == a && w[..|b|] == b && v[|a| + 1..] == s && w[|b| + 1..] == t;
    }
  }

  function StateOf(e: Event): EntityState {
    EntityState(e.version, e.tombstone, e.payload)
  }

  function Apply(state: ClientState, part: Event): ClientState {
    ClientState(state.entities[EntityKey(part) := StateOf(part)],
                if part.commandID != "" then state.receipts + {part.commandID} else state.receipts)
  }

  /** The state after applying parts from the left. */
  function StateAfter(parts: seq<Event>): ClientState {
    if parts == [] then ClientState(map[], {})
    else Apply(StateAfter(parts[..|parts| - 1]), parts[|parts| - 1])
  }

  function FinalStateOf(events: seq<Event>): Result<ClientState, SyncError> {
    var parts :- AllClientParts(events);
    Ok(StateAfter(parts))
  }

  lemma StateAfterSnoc(parts: seq<Event>, p: Event)
    ensures StateAfter(parts + [p]) == Apply(StateAfter(parts), p)
  {
    assert (parts + [p])[..|parts|] == parts;
  }

  lemma {:induction false} PartsOfPrefix(events: seq<Event>, k: nat)
    requires k < |events|
    ensures match AllClientParts(events[..k + 1])
            case Ok(parts) =>
              && AllClientParts(events[..k]).Ok? && ClientParts(events[k]).Ok?
              && parts == AllClientParts(events[..k]).value + ClientParts(events[k]).value
            case Err(_) => true
    ensures AllClientParts(events[..k]).Ok? && ClientParts(events[k]).Ok? ==> AllClientParts(events[..k + 1]).Ok?
    ensures AllClientParts(events[..k]).Ok? && ClientParts(events[k]).Err? ==>
            AllClientParts(events) == Err(ClientParts(events[k]).error)
  {
    var first := ClientParts(events[0]);
    assert events[..k + 1][0] == events[0] && events[..k + 1][1..] == events[1..][..k];
    if k == 0 {
      assert events[..0] == [];
      assert events[..1] == [events[0]] && [events[0]][1..] == [];
      if first.Ok? {
        assert AllClientParts(events[..1]) == Ok(first.value + []);
        assert first.value + [] == [] + first.value;
      }
    } else {
      assert events[..k][1..] == events[1..][..k - 1];
      PartsOfPrefix(events[1..], k - 1);
      if AllClientParts(events[..k + 1]).Ok? {
        assert first.value + (AllClientParts(events[1..][..k - 1]).value + ClientParts(events[k]).value)
            == first.value + AllClientParts(events[1..][..k - 1]).value + ClientParts(events[k]).value;
      }
    }
  }

  /** Applies the parts of one event. */
  method ApplyParts(state: ClientState, parts: seq<Event>, ghost before: seq<Event>) returns (after: ClientState)
    requires state == StateAfter(before)
    ensures after == StateAfter(before + parts)
  {
    hide StateAfter, EntityKey, StateOf;
    var entities, receipts := state.entities, state.receipts;
    var j := 0;
    assert before + parts[..0] == before;
    while j < |parts|
      invariant 0 <= j <= |parts|
      invariant ClientState(entities, receipts) == StateAfter(before + parts[..j])
    {
      var p := parts[j];
      assert before + parts[..j + 1] == before + parts[..j] + [p];
      StateAfterSnoc(before + parts[..j], p);
      entities := entities[EntityKey(p) := StateOf(p)];
      if p.commandID != "" {
        receipts := receipts + {p.commandID};
      }
      j := j + 1;
    }
    assert parts[..j] == parts;
    return ClientState(entities, receipts);
  }

  /** Fills the entity and receipt tables event by event, part by part. */
  method FinalState(events: seq<Event>) returns (result: Result<ClientState, SyncError>)
    ensures result == FinalStateOf(events)
  {
    hide ClientParts, StateAfter;
    var state := ClientState(map[], {});
    var i := 0;
    NoParts(events);
    while i < |events|
      invariant 0 <= i <= |events|
      invariant AllClientParts(events[..i]).Ok?
      invariant state == StateAfter(AllClientParts(events[..i]).value)
    {
      PartsOfPrefix(events, i);
      var split := ClientParts(events[i]);
      if split.Err? {
        return Err(split.error);
      }
      state := ApplyParts(state, split.value, AllClientParts(events[..i]).value);
      i := i + 1;
    }
    assert events[..i] == events;
    return Ok(state);
  }

  lemma NoParts(events: seq<Event>)
    ensures AllClientParts(events[..0]) == Ok([])
    ensures StateAfter([]) == ClientState(map[], {})
  {
  }

  /** Whether two event lists leave every entity in the same state and carry the same receipts. */
  method SameFinalState(unfolded: seq<Event>, folded: seq<Event>) returns (same: Result<bool, SyncError>)
    ensures same.Ok? <==> FinalStateOf(unfolded).Ok? && FinalStateOf(folded).Ok?
    ensures same.Ok? ==> same.value == (FinalStateOf(unfolded) == FinalStateOf(folded))
  {
    var a := FinalState(unfolded);
    if a.Err? {
      return Err(a.error);
    }
    var b := FinalState(folded);
    if b.Err? {
      return Err(b.error);
    }
    return Ok(a.value == b.value);
  }

  // ---------- states compose, and only content matters ----------

  ghost function Merge(a: ClientState, b: ClientState): ClientState {
    ClientState(a.entities + b.entities, a.receipts + b.receipts)
  }

  lemma ApplyLast(a: ClientState, b: ClientState, p: Event)
    ensures Merge(a, Apply(b, p)) == Apply(Merge(a, b), p)
  {
    hide EntityKey, StateOf;
    var key := EntityKey(p);
    assert a.entities + b.entities[key := StateOf(p)] == (a.entities + b.entities)[key := StateOf(p)];
    if p.commandID != "" {
      assert a.receipts + (b.receipts + {p.commandID}) == (a.receipts + b.receipts) + {p.commandID};
    }
  }

  lemma MergeNothing(a: ClientState)
    ensures Merge(a, StateAfter([])) == a
  {
    assert a.entities + map[] == a.entities && a.receipts + {} == a.receipts;
  }

  lemma ConcatenationStep(a: seq<Event>, b: seq<Event>, last: Event)
    requires StateAfter(a + b) == Merge(StateAfter(a), StateAfter(b))
    ensures StateAfter(a + (b + [last])) == Merge(StateAfter(a), StateAfter(b + [last]))
  {
    hide Apply, Merge, StateAfter;
    assert a + (b + [last]) == a + b + [last];
    StateAfterSnoc(a + b, last);
    StateAfterSnoc(b, last);
    ApplyLast(StateAfter(a), StateAfter(b), last);
  }

  /** Applying two lists one after the other overwrites the first state with the second. */
  lemma {:induction false} StateOfConcatenation(a: seq<Event>, b: seq<Event>)
    ensures StateAfter(a + b) == Merge(StateAfter(a), StateAfter(b))
  {
    hide Apply, Merge, StateAfter;
    if b == [] {
      assert a + b == a;
      MergeNothing(StateAfter(a));
    } else {
      var init, last := b[..|b| - 1], b[|b| - 1];
      assert b == init + [last];
      StateOfConcatenation(a, init);
      ConcatenationStep(a, init, last);
    }
  }

  /** An event without its cursors. */
  function Content(e: Event): Event {
    e.(cursor := 0, firstCursor := 0)
  }

  ghost function Contents(events: seq<Event>): (r: seq<Event>)
    ensures |r| == |events|
    ensures forall i | 0 <= i < |r| :: r[i] == Content(events[i])
  {
    seq(|events|, i requires 0 <= i < |events| => Content(events[i]))
  }

  lemma SameContentApplies(state: ClientState, a: Event, b: Event)
    requires Content(a) == Content(b)
    ensures Apply(state, a) == Apply(state, b)
  {
  }

  lemma {:induction false} ContentDecidesState(a: seq<Event>, b: seq<Event>)
    requires Contents(a) == Contents(b)
    ensures StateAfter(a) == StateAfter(b)
  {
    if a != [] {
      hide Apply;
      var n := |a| - 1;
      assert Contents(a)[n] == Contents(b)[n];
      assert Contents(a[..n]) == Contents(a)[..n] && Contents(b[..n]) == Contents(b)[..n];
      ContentDecidesState(a[..n], b[..n]);
      SameContentApplies(StateAfter(a[..n]), a[n], b[n]);
    }
  }

  // ---------- superseded events are safe to drop ----------

  /** The events whose flag is set. */
  function Select(events: seq<Event>, keep: seq<bool>): seq<Event>
    requires |keep| == |events|
  {
    if events == [] then []
    else
      var n := |events| - 1;
      var before := Select(events[..n], keep[..n]);
      if keep[n] then before + [events[n]] else before
  }

  /** The last selected event with the given key, or -1. */
  ghost function LastSelected(events: seq<Event>, keep: seq<bool>, key: string): (k: int)
    requires |keep| == |events|
    ensures -1 <= k < |events|
    ensures k >= 0 ==> keep[k] && EntityKey(events[k]) == key
    ensures forall j | k < j < |events| && keep[j] :: EntityKey(events[j]) != key
  {
    if events == [] then -1
    else
      hide EntityKey;
      var n := |events| - 1;
      assert forall j | 0 <= j < n :: events[..n][j] == events[j] && keep[..n][j] == keep[j];
      if keep[n] && EntityKey(events[n]) == key then n else LastSelected(events[..n], keep[..n], key)
  }

  lemma {:induction false} LastSelectedDecides(events: seq<Event>, keep: seq<bool>, key: string)
    requires |keep| == |events|
    ensures
      var k := LastSelected(events, keep, key);
      var entities := StateAfter(Select(events, keep)).entities;
      && (key in entities <==> k >= 0)
      && (k >= 0 ==> entities[key] == EntityState(events[k].version, events[k].tombstone, events[k].payload))
  {
    if events != [] {
      hide EntityKey;
      var n := |events| - 1;
      LastSelectedDecides(events[..n], keep[..n], key);
      if keep[n] {
        StateAfterSnoc(Select(events[..n], keep[..n]), events[n]);
      }
    }
  }

  lemma {:induction false} ReceiptsSelected(events: seq<Event>, keep: seq<bool>, id: string)
    requires |keep| == |events|
    ensures id in StateAfter(Select(events, keep)).receipts
            <==> id != "" && exists k | 0 <= k < |events| :: keep[k] && events[k].commandID == id
  {
    if events != [] {
      hide EntityKey, StateOf;
      var n := |events| - 1;
      ReceiptsSelected(events[..n], keep[..n], id);
      if keep[n] {
        StateAfterSnoc(Select(events[..n], keep[..n]), events[n]);
      }
      if k :| 0 <= k < |events| && keep[k] && events[k].commandID == id {
        if k < n {
          assert keep[..n][k] && events[..n][k].commandID == id;
        }
      }
      if k :| 0 <= k < n && keep[..n][k] && events[..n][k].commandID == id {
        assert keep[k] && events[k].commandID == id;
      }
    }
  }

  /** `fewer` drops from `keep` only events with a later one of the same key, and loses no command id. */
  ghost predicate DropsOnlySuperseded(events: seq<Event>, keep: seq<bool>, fewer: seq<bool>)
    requires |keep| == |fewer| == |events|
  {
    && (forall i | 0 <= i < |events| && fewer[i] :: keep[i])
    && (forall i | 0 <= i < |events| && keep[i] && !fewer[i] ::
          exists j | i < j < |events| :: keep[j] && EntityKey(events[j]) == EntityKey(events[i]))
    && (forall i | 0 <= i < |events| && keep[i] && events[i].commandID != "" ::
          exists j | 0 <= j < |events| :: fewer[j] && events[j].commandID == events[i].commandID)
  }

  /** Dropping superseded events leaves a client in exactly the same state. */
  lemma DroppingSupersededIsSafe(events: seq<Event>, keep: seq<bool>, fewer: seq<bool>)
    requires |keep| == |fewer| == |events|
    requires DropsOnlySuperseded(events, keep, fewer)
    ensures StateAfter(Select(events, keep)) == StateAfter(Select(events, fewer))
  {
    hide EntityKey, StateOf, StateAfter, Select;
    var a, b := StateAfter(Select(events, keep)), StateAfter(Select(events, fewer));
    forall key ensures key in a.entities <==> key in b.entities
               ensures key in a.entities ==> a.entities[key] == b.entities[key]
    {
      LastSelectedDecides(events, keep, key);
      LastSelectedDecides(events, fewer, key);
      var k := LastSelected(events, keep, key);
      if k >= 0 {
        assert fewer[k];
      }
      assert LastSelected(events, fewer, key) == k;
    }
    assert a.entities == b.entities;
    forall id ensures id in a.receipts <==> id in b.receipts {
      ReceiptsSelected(events, keep, id);
      ReceiptsSelected(events, fewer, id);
    }
    assert a.receipts == b.receipts;
  }

  // ---------- lists that differ in versions only ----------

  ghost predicate SameButVersions(a: seq<Event>, b: seq<Event>) {
    |a| == |b| && forall i | 0 <= i < |a| :: a[i].(version := b[i].version) == b[i]
  }

  ghost predicate IsLatest(events: seq<Event>, i: nat)
    requires i < |events|
  {
    forall j | i < j < |events| :: EntityKey(events[j]) != EntityKey(events[i])
  }

  ghost predicate SameLatestVersions(a: seq<Event>, b: seq<Event>)
    requires |a| == |b|
  {
    forall i | 0 <= i < |a| && IsLatest(a, i) :: a[i].version == b[i].version
  }

  ghost function All(n: nat): (r: seq<bool>)
    ensures |r| == n && forall i | 0 <= i < n :: r[i]
  {
    seq(n, i => true)
  }

  lemma {:induction false} SelectAll(events: seq<Event>)
    ensures Select(events, All(|events|)) == events
  {
    if events != [] {
      var n := |events| - 1;
      SelectAll(events[..n]);
      assert All(|events|)[..n] == All(n);
    }
  }

  lemma LatestDecides(events: seq<Event>, key: string)
    ensures
      var k, entities := LastSelected(events, All(|events|), key), StateAfter(events).entities;
      && (key in entities <==> k >= 0)
      && (k >= 0 ==> entities[key] == StateOf(events[k]) && IsLatest(events, k))
  {
    SelectAll(events);
    LastSelectedDecides(events, All(|events|), key);
  }

  lemma SameButVersionsSameReceipts(a: seq<Event>, b: seq<Event>)
    requires SameButVersions(a, b)
    ensures StateAfter(a).receipts == StateAfter(b).receipts
  {
    hide StateAfter, Select;
    SelectAll(a);
    SelectAll(b);
    forall id ensures id in StateAfter(a).receipts <==> id in StateAfter(b).receipts {
      ReceiptsSelected(a, All(|a|), id);
      ReceiptsSelected(b, All(|b|), id);
      assert forall k | 0 <= k < |a| :: a[k].(version := b[k].version) == b[k];
    }
  }

  /** Both states know the same keys, each from the same position. */
  lemma VersionsKeepKeys(a: seq<Event>, b: seq<Event>, key: string) returns (k: int)
    requires SameButVersions(a, b)
    ensures -1 <= k < |a|
    ensures key in StateAfter(a).entities <==> k >= 0
    ensures key in StateAfter(b).entities <==> k >= 0
    ensures k >= 0 ==>
              && IsLatest(a, k) && EntityKey(a[k]) == key
              && StateAfter(a).entities[key] == StateOf(a[k]) && StateAfter(b).entities[key] == StateOf(b[k])
  {
    hide StateAfter, IsLatest, StateOf;
    assert forall i | 0 <= i < |a| :: a[i].(version := b[i].version) == b[i];
    k := LastSelected(a, All(|a|), key);
    LatestDecides(a, key);
    LatestDecides(b, key);
    LastSelectedSame(a, b, key);
  }

  /** Lists that differ in versions only leave the same state exactly if every latest event of an entity agrees. */
  lemma VersionsDecideState(a: seq<Event>, b: seq<Event>)
    requires SameButVersions(a, b)
    ensures StateAfter(a) == StateAfter(b) <==> SameLatestVersions(a, b)
  {
    hide StateAfter, LastSelected, EntityKey, IsLatest;
    SameButVersionsSameReceipts(a, b);
    var s, t := StateAfter(a).entities, StateAfter(b).entities;
    if SameLatestVersions(a, b) {
      forall key ensures key in s <==> key in t
                 ensures key in s ==> s[key] == t[key]
      {
        var k := VersionsKeepKeys(a, b, key);
        if k >= 0 {
          assert a[k].(version := b[k].version) == b[k];
        }
      }
      assert s == t;
    } else {
      var i :| 0 <= i < |a| && IsLatest(a, i) && a[i].version != b[i].version;
      var key := EntityKey(a[i]);
      var k := VersionsKeepKeys(a, b, key);
      LatestDecides(a, key);
      LatestIs(a, i);
      SameLatest(a, i, k);
    }
  }

  lemma SameLatest(events: seq<Event>, i: nat, k: int)
    requires i < |events| && -1 <= k < |events| && IsLatest(events, i)
    requires EntityKey(events[i]) in StateAfter(events).entities
    requires k >= 0 ==> IsLatest(events, k) && EntityKey(events[k]) == EntityKey(events[i])
    ensures k >= 0 ==> k == i
  {
    hide EntityKey, StateAfter;
  }

  lemma LatestIs(events: seq<Event>, i: nat)
    requires i < |events| && IsLatest(events, i)
    ensures LastSelected(events, All(|events|), EntityKey(events[i])) == i
  {
    var k := LastSelected(events, All(|events|), EntityKey(events[i]));
    assert All(|events|)[i];
  }

  lemma {:induction false} LastSelectedSame(a: seq<Event>, b: seq<Event>, key: string)
    requires |a| == |b| && forall k | 0 <= k < |a| :: EntityKey(a[k]) == EntityKey(b[k])
    ensures LastSelected(a, All(|a|), key) == LastSelected(b, All(|b|), key)
  {
    if a != [] {
      hide EntityKey;
      var n := |a| - 1;
      LastSelectedSame(a[..n], b[..n], key);
      assert All(|a|)[..n] == All(n);
    }
  }

  // ---------- unread states that arrive before their session ----------

  predicate IsSessionUpsertEvent(e: Event) {
    e.kind == SESSION_UPSERT && e.entity == SESSION
  }

  predicate IsSessionRemoveEvent(e: Event) {
    e.kind == SESSION_REMOVE && e.entity == SESSION
  }

  predicate IsUnread(e: Event) {
    e.entity == SESSION_MEMBER && ':' !in e.entityID && (e.kind == UNREAD_SET || e.kind == READ_STATE)
  }

  /** The sessions a client has after applying parts. */
  function CoveredAfter(parts: seq<Event>): set<string> {
    if parts == [] then {}
    else
      var before, last := CoveredAfter(parts[..|parts| - 1]), parts[|parts| - 1];
      if IsSessionUpsertEvent(last) then before + {last.entityID}
      else if IsSessionRemoveEvent(last) then before - {last.entityID}
      else before
  }

  datatype UnreadKey = UnreadKey(kind: string, sessionID: string, version: int)

  function UnreadKeyOf(e: Event): UnreadKey {
    UnreadKey(e.kind, e.entityID, e.version)
  }

  /** For every unread key, whether the last unread event with it found its session. */
  function CoveredBefore(parts: seq<Event>): map<UnreadKey, bool> {
    if parts == [] then map[]
    else
      var n := |parts| - 1;
      var before := CoveredBefore(parts[..n]);
      if IsUnread(parts[n]) then before[UnreadKeyOf(parts[n]) := parts[n].entityID in CoveredAfter(parts[..n])]
      else before
  }

  /** How many unread events find no session although the other list's unread with the same key did. */
  function AheadCount(coveredBefore: map<UnreadKey, bool>, parts: seq<Event>): nat {
    if parts == [] then 0
    else
      var n := |parts| - 1;
      var p := parts[n];
      AheadCount(coveredBefore, parts[..n]) +
      if IsUnread(p) && p.entityID !in CoveredAfter(parts[..n])
         && UnreadKeyOf(p) in coveredBefore && coveredBefore[UnreadKeyOf(p)]
      then 1 else 0
  }

  lemma CoveredStep(parts: seq<Event>, i: nat)
    requires i < |parts|
    ensures
      var e := parts[i];
      && CoveredAfter(parts[..i + 1]) ==
         (if IsSessionUpsertEvent(e) then CoveredAfter(parts[..i]) + {e.entityID}
          else if IsSessionRemoveEvent(e) then CoveredAfter(parts[..i]) - {e.entityID}
          else CoveredAfter(parts[..i]))
      && CoveredBefore(parts[..i + 1]) ==
         (if IsUnread(e) then CoveredBefore(parts[..i])[UnreadKeyOf(e) := e.entityID in CoveredAfter(parts[..i])]
          else CoveredBefore(parts[..i]))
  {
    hide IsSessionUpsertEvent, IsSessionRemoveEvent, IsUnread, UnreadKeyOf;
    assert parts[..i + 1][..i] == parts[..i];
  }

  lemma AheadCountStep(known: map<UnreadKey, bool>, parts: seq<Event>, i: nat)
    requires i < |parts|
    ensures
      var e := parts[i];
      AheadCount(known, parts[..i + 1]) ==
      AheadCount(known, parts[..i]) +
      if IsUnread(e) && e.entityID !in CoveredAfter(parts[..i]) && UnreadKeyOf(e) in known && known[UnreadKeyOf(e)]
      then 1 else 0
  {
    hide IsUnread, UnreadKeyOf, CoveredAfter;
    assert parts[..i + 1][..i] == parts[..i];
  }

  lemma OneKind(e: Event)
    ensures !(IsUnread(e) && IsSessionUpsertEvent(e)) && !(IsUnread(e) && IsSessionRemoveEvent(e))
  {
  }

  lemma NothingCovered(known: map<UnreadKey, bool>)
    ensures CoveredAfter([]) == {} && CoveredBefore([]) == map[] && AheadCount(known, []) == 0
  {
  }

  /** A session is known exactly when an upsert brought it that no later removal took away. */
  lemma {:induction false} CoveredMeaning(parts: seq<Event>, id: string)
    ensures id in CoveredAfter(parts) <==>
            exists i | 0 <= i < |parts| ::
              && parts[i].kind == "session.upsert" && parts[i].entity == "session" && parts[i].entityID == id
              && forall j | i < j < |parts| ::
                   !(parts[j].kind == "session.remove" && parts[j].entity == "session" && parts[j].entityID == id)
  {
    if parts != [] {
      var n := |parts| - 1;
      CoveredMeaning(parts[..n], id);
      assert forall j | 0 <= j < n :: parts[..n][j] == parts[j];
    }
  }

  /** An unread state of a session, not of one of its members. */
  ghost predicate UnreadOfSession(e: Event, kind: string, id: string, version: int) {
    && e.kind == kind && kind in ["session.unread_set", "session.read_state"]
    && e.entity == "session_member" && e.entityID == id && ':' !in id && e.version == version
  }

  /** No later unread state has this kind, session and version, and this one followed its session. */
  ghost predicate FollowedLast(parts: seq<Event>, i: nat, key: UnreadKey)
    requires i < |parts|
  {
    && UnreadOfSession(parts[i], key.kind, key.sessionID, key.version) && key.sessionID in CoveredAfter(parts[..i])
    && forall j | i < j < |parts| :: !UnreadOfSession(parts[j], key.kind, key.sessionID, key.version)
  }

  lemma FollowedOfPrefix(parts: seq<Event>, i: nat, key: UnreadKey)
    requires i < |parts| - 1
    ensures
      var n := |parts| - 1;
      FollowedLast(parts, i, key) <==>
      FollowedLast(parts[..n], i, key) && !UnreadOfSession(parts[n], key.kind, key.sessionID, key.version)
  {
    hide UnreadOfSession, CoveredAfter;
    var n := |parts| - 1;
    assert parts[..n][..i] == parts[..i];
    assert forall j | 0 <= j < n :: parts[..n][j] == parts[j];
  }

  /** A key is known as found exactly when its last unread state followed its session. */
  lemma {:induction false} CoveredBeforeMeaning(parts: seq<Event>, key: UnreadKey)
    ensures key in CoveredBefore(parts) && CoveredBefore(parts)[key] <==>
            exists i | 0 <= i < |parts| :: FollowedLast(parts, i, key)
  {
    if parts != [] {
      hide CoveredAfter;
      var n := |parts| - 1;
      CoveredBeforeMeaning(parts[..n], key);
      UnreadIs(parts[n]);
      hide UnreadOfSession, IsUnread, UnreadKeyOf;
      LastFollowed(parts, key);
      hide FollowedLast;
      forall i: nat | i < n
        ensures FollowedLast(parts, i, key) <==>
                FollowedLast(parts[..n], i, key) && !UnreadOfSession(parts[n], key.kind, key.sessionID, key.version)
      {
        FollowedOfPrefix(parts, i, key);
      }
    }
  }

  lemma LastFollowed(parts: seq<Event>, key: UnreadKey)
    requires parts != []
    ensures
      var n := |parts| - 1;
      FollowedLast(parts, n, key) <==>
      UnreadOfSession(parts[n], key.kind, key.sessionID, key.version) && key.sessionID in CoveredAfter(parts[..n])
  {
  }

  lemma UnreadIs(e: Event)
    ensures IsUnread(e) ==> UnreadOfSession(e, e.kind, e.entityID, e.version)
    ensures forall kind, id, version | UnreadOfSession(e, kind, id, version) ::
              IsUnread(e) && UnreadKeyOf(e) == UnreadKey(kind, id, version)
  {
  }

  /** The places of unread states that come without their session although their counterpart had it. */
  ghost function Ahead(known: map<UnreadKey, bool>, parts: seq<Event>): set<nat> {
    set i: nat | i < |parts| && IsAhead(known, parts, i)
  }

  ghost predicate IsAhead(known: map<UnreadKey, bool>, parts: seq<Event>, i: nat)
    requires i < |parts|
  {
    var e := parts[i];
    var key := UnreadKey(e.kind, e.entityID, e.version);
    && UnreadOfSession(e, e.kind, e.entityID, e.version) && e.entityID !in CoveredAfter(parts[..i])
    && key in known && known[key]
  }

  lemma AheadOfPrefix(known: map<UnreadKey, bool>, parts: seq<Event>, n: nat, i: nat)
    requires i < n <= |parts|
    ensures IsAhead(known, parts[..n], i) == IsAhead(known, parts, i)
  {
    hide CoveredAfter, UnreadOfSession;
    assert parts[..n][..i] == parts[..i] && parts[..n][i] == parts[i];
  }

  lemma AheadLast(known: map<UnreadKey, bool>, parts: seq<Event>)
    requires parts != []
    ensures
      var n := |parts| - 1;
      AheadCount(known, parts) == AheadCount(known, parts[..n]) + if IsAhead(known, parts, n) then 1 else 0
  {
    hide CoveredAfter, UnreadOfSession, IsUnread;
    UnreadIs(parts[|parts| - 1]);
  }

  lemma {:induction false} AheadIsSize(known: map<UnreadKey, bool>, parts: seq<Event>)
    ensures AheadCount(known, parts) == |Ahead(known, parts)|
  {
    hide IsAhead;
    if parts == [] {
      assert Ahead(known, parts) == {};
    } else {
      var n := |parts| - 1;
      AheadIsSize(known, parts[..n]);
      AheadLast(known, parts);
      hide AheadCount;
      var before, all := Ahead(known, parts[..n]), Ahead(known, parts);
      forall i: nat | i < n ensures i in before <==> i in all {
        AheadOfPrefix(known, parts, n, i);
      }
      assert all == if n in all then before + {n} else before;
    }
  }

  method UnreadAheadOfSession(unfolded: seq<Event>, folded: seq<Event>) returns (ahead: Result<nat, SyncError>)
    ensures ahead.Ok? <==> AllClientParts(unfolded).Ok? && AllClientParts(folded).Ok?
    ensures ahead.Ok? ==>
            ahead.value == AheadCount(CoveredBefore(AllClientParts(unfolded).value), AllClientParts(folded).value)
  {
    hide CoveredAfter, CoveredBefore, AheadCount, UnreadKeyOf, AllClientParts;
    hide IsUnread, IsSessionUpsertEvent, IsSessionRemoveEvent;
    var split := AllClientParts(unfolded);
    if split.Err? {
      return Err(split.error);
    }
    var parts := split.value;
    var coveredBefore: map<UnreadKey, bool> := map[];
    var covered: set<string> := {};
    var i := 0;
    NothingCovered(map[]);
    assert parts[..0] == [];
    while i < |parts|
      invariant 0 <= i <= |parts|
      invariant covered == CoveredAfter(parts[..i])
      invariant coveredBefore == CoveredBefore(parts[..i])
    {
      var p := parts[i];
      CoveredStep(parts, i);
      OneKind(p);
      if IsSessionUpsertEvent(p) {
        covered := covered + {p.entityID};
      } else if IsSessionRemoveEvent(p) {
        covered := covered - {p.entityID};
      } else if IsUnread(p) {
        coveredBefore := coveredBefore[UnreadKeyOf(p) := p.entityID in covered];
      }
      i := i + 1;
    }
    assert parts[..i] == parts;
    var split' := AllClientParts(folded);
    if split'.Err? {
      return Err(split'.error);
    }
    var parts' := split'.value;
    covered := {};
    var count := 0;
    i := 0;
    NothingCovered(coveredBefore);
    assert parts'[..0] == [];
    while i < |parts'|
      invariant 0 <= i <= |parts'|
      invariant covered == CoveredAfter(parts'[..i])
      invariant count == AheadCount(coveredBefore, parts'[..i])
    {
      var p := parts'[i];
      CoveredStep(parts', i);
      AheadCountStep(coveredBefore, parts', i);
      OneKind(p);
      if IsSessionUpsertEvent(p) {
        covered := covered + {p.entityID};
      } else if IsSessionRemoveEvent(p) {
        covered := covered - {p.entityID};
      } else if IsUnread(p) {
        if p.entityID !in covered && UnreadKeyOf(p) in coveredBefore && coveredBefore[UnreadKeyOf(p)] {
          count := count + 1;
        }
      }
      i := i + 1;
    }
    assert parts'[..i] == parts';
    return Ok(count);
  }
}
