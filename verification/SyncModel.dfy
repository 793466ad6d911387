/** Stored sync rows, the events delivered to clients, and their JSON payloads. */
module SyncModel {
  import opened Wrappers
  import opened GoText

  /** A JSON value as far as the stream code looks into it; Other is any boolean, array or non-integer. */
  datatype Json =
    | Null
    | Num(n: int)
    | Text(s: string)
    | Obj(fields: map<string, Json>)
    | Other(raw: string)

  datatype SyncError =
    | NotAnObject
    | NoSessionId
    | BadVersion
    | BadMember
    | AlreadyHas(member: string)
    | EmptyPage

  datatype Row = Row(cursor: int, kind: string, entity: string, entityID: string, version: int,
                     tombstone: bool, commandID: string, createdAt: int, payload: Json)

  /** firstCursor 0 means the member is absent. */
  datatype Event = Event(cursor: int, firstCursor: int, kind: string, entity: string, entityID: string,
                         version: int, tombstone: bool, commandID: string, payload: Json)

  const MESSAGE_UPSERT := "message.upsert"
  const MESSAGE_REVOKE := "message.revoke"
  const SESSION_UPSERT := "session.upsert"
  const SESSION_REMOVE := "session.remove"
  const UNREAD_SET := "session.unread_set"
  const READ_STATE := "session.read_state"

  const MESSAGE := "message"
  const SESSION := "session"
  const SESSION_MEMBER := "session_member"

  const SESSION_KEY := "session"
  const UNREAD_KEY := "unread"

  /** A string member decoded into a Go struct: absent and null give "", another type is an error. */
  function StringMember(fields: map<string, Json>, key: string): Result<string, SyncError> {
    if key !in fields || fields[key] == Null then Ok("")
    else if fields[key].Text? then Ok(fields[key].s)
    else Err(BadMember)
  }

  /** The state_version member, a decimal integer written as a number or as a string. */
  function StateVersion(fields: map<string, Json>): Result<int, SyncError> {
    if "state_version" !in fields then Err(BadVersion)
    else
      match fields["state_version"]
      case Num(n) => if INT64_MIN <= n <= INT64_MAX then Ok(n) else Err(BadVersion)
      case Text(s) => (match ParseInt64(s) case Some(n) => Ok(n) case None => Err(BadVersion))
      case _ => Err(BadVersion)
  }

  /** A version may be written as a number or as its decimal text; anything outside int64 is an error. */
  lemma VersionForms(fields: map<string, Json>, n: int)
    ensures StateVersion(fields["state_version" := Num(n)]) ==
            if INT64_MIN <= n <= INT64_MAX then Ok(n) else Err(BadVersion)
    ensures n >= 0 ==> StateVersion(fields["state_version" := Text(Decimal(n))])
                       == StateVersion(fields["state_version" := Num(n)])
    ensures n < 0 ==> StateVersion(fields["state_version" := Text("-" + Decimal(0 - n))])
                      == StateVersion(fields["state_version" := Num(n)])
    ensures StateVersion(fields - {"state_version"}) == Err(BadVersion)
  {
    hide ParseInt64;
    if n >= 0 {
      ParseDecimal(n, "");
      assert "" + Decimal(n) == Decimal(n);
    } else {
      ParseNegative(0 - n);
    }
  }

  function PayloadSessionID(payload: Json): string {
    if payload.Obj? && StringMember(payload.fields, "session_id").Ok?
    then StringMember(payload.fields, "session_id").value
    else ""
  }

  predicate IsMessageUpsert(kind: string, entity: string) {
    kind == MESSAGE_UPSERT && entity == MESSAGE
  }
}
