/**
 * The human-contact repository over two tables: `human_contacts` (one row per
 * contact, holding its spec) and `human_contact_status` (at most one status row
 * per contact, keyed by `call_id`, deleted with its parent).
 */
module HumanContactStore {
  import opened Wrappers
  import opened Models
  import opened Errors

  /** A `human_contacts` row; the JSON columns hold the values they serialise. */
  datatype ContactRow = ContactRow(
    callId: string,
    runId: string,
    msg: string,
    subject: Option<string>,
    channel: Option<ContactChannel>,
    responseOptions: Option<seq<ResponseOption>>,
    state: Option<map<string, Json>>)

  /** A `human_contact_status` row; `None` is SQL NULL. */
  datatype StatusRow = StatusRow(
    requestedAt: Option<Time>,
    respondedAt: Option<Time>,
    response: Option<string>,
    responseOptionName: Option<string>)

  /** The three values the status UPDATE binds, in column order. */
  datatype StatusColumns = StatusColumns(
    respondedAt: Option<Time>,
    response: Option<string>,
    responseOptionName: Option<string>)

  /** The two tables. */
  datatype Tables = Tables(contacts: map<string, ContactRow>, statuses: map<string, StatusRow>)

  /** The tables after a write, and whether the write returned or threw. */
  datatype Written = Written(tables: Tables, outcome: Outcome<AppError>)

  /** What the LEFT JOIN yields for the status columns of a contact without a status row. */
  const NoStatusRow := StatusRow(None, None, None, None)

  const DuplicateCallId := InternalFailure("UNIQUE constraint failed: human_contacts.call_id")
  const InvalidTimeValue := InternalFailure("Invalid time value")

  /**
   * The schema's guarantees: a status row references an existing contact, every
   * status row was inserted with its `requested_at`, and a contact row is stored
   * under its own `call_id`.
   */
  predicate WellFormed(t: Tables)
  {
    && t.statuses.Keys <= t.contacts.Keys
    && (forall id :: id in t.statuses ==> t.statuses[id].requestedAt.Some?)
    && (forall id :: id in t.contacts ==> t.contacts[id].callId == id)
  }

  /** Reading the spec columns back: NULL columns become `undefined` (and so does an empty subject). */
  function SpecOf(row: ContactRow): HumanContactSpec
  {
    HumanContactSpec(row.msg, OrNull(row.subject), row.channel, row.responseOptions, row.state)
  }

  /**
   * The values of the INSERT into `human_contacts`: the subject goes through `||`
   * (an empty subject is stored as NULL); the JSON fields are NULL exactly when absent.
   */
  function SpecRow(hc: HumanContact): (row: ContactRow)
    ensures row.callId == hc.callId && row.runId == hc.runId && row.msg == hc.spec.msg
    ensures row.subject.None? <==> hc.spec.subject.None? || hc.spec.subject == Some("")
    ensures row.subject.Some? ==> row.subject == hc.spec.subject
    ensures row.channel.None? <==> hc.spec.channel.None?
    ensures row.responseOptions.None? <==> hc.spec.responseOptions.None?
    ensures row.state.None? <==> hc.spec.state.None?
    ensures SpecOf(row) == hc.spec.(subject := OrNull(hc.spec.subject))
  {
    ContactRow(hc.callId, hc.runId, hc.spec.msg, OrNull(hc.spec.subject), hc.spec.channel,
               hc.spec.responseOptions, hc.spec.state)
  }

  /** Reading the status columns back: no status at all when `requested_at` is NULL. */
  function StatusOf(row: StatusRow): (r: Option<HumanContactStatus>)
    ensures r.None? <==> row.requestedAt.None?
    ensures r.Some? ==>
      && r.value.requestedAt == Some(ValidDate(row.requestedAt.value))
      && (r.value.respondedAt.None? <==> row.respondedAt.None?)
      && (row.respondedAt.Some? ==> r.value.respondedAt == Some(ValidDate(row.respondedAt.value)))
      && r.value.response == OrNull(row.response)
      && r.value.responseOptionName == OrNull(row.responseOptionName)
  {
    if row.requestedAt.None? then None
    else
      Some(HumanContactStatus(
        Some(ValidDate(row.requestedAt.value)),
        if row.respondedAt.Some? then Some(ValidDate(row.respondedAt.value)) else None,
        OrNull(row.response),
        OrNull(row.responseOptionName)))
  }

  /** `rowToHumanContact` over one joined row. */
  function RowToHumanContact(row: ContactRow, status: StatusRow): (hc: HumanContact)
    ensures hc.runId == row.runId && hc.callId == row.callId && hc.spec == SpecOf(row)
    ensures hc.spec.subject == OrNull(row.subject)
    ensures hc.status.None? <==> status.requestedAt.None?
    ensures hc.status.Some? ==> hc.status == StatusOf(status)
  {
    HumanContact(row.runId, row.callId, SpecOf(row), StatusOf(status))
  }

  /** `findById`: the contact row LEFT JOIN its status row; nothing exactly when there is no contact row. */
  function Find(t: Tables, id: string): (r: Option<HumanContact>)
    ensures r.None? <==> id !in t.contacts
    ensures r.Some? ==> r.value.spec == SpecOf(t.contacts[id]) && r.value.runId == t.contacts[id].runId
    ensures r.Some? && WellFormed(t) ==> r.value.callId == id
    ensures r.Some? ==> (r.value.status.Some? <==> id in t.statuses && t.statuses[id].requestedAt.Some?)
    ensures r.Some? && id in t.statuses ==> r.value.status == StatusOf(t.statuses[id])
  {
    if id !in t.contacts then None
    else Some(RowToHumanContact(t.contacts[id], if id in t.statuses then t.statuses[id] else NoStatusRow))
  }

  /**
   * The values bound by `updateStatus`: `toISOString` throws on an invalid
   * `respondedAt`; the strings go through `||`; an absent field becomes NULL.
   */
  function BindStatus(s: HumanContactStatus): (r: Result<StatusColumns, AppError>)
    ensures r.Err? <==> s.respondedAt == Some(InvalidDate)
    ensures r.Err? ==> r.error == InvalidTimeValue
    ensures r.Ok? ==>
      && (r.value.respondedAt.None? <==> s.respondedAt.None?)
      && (s.respondedAt.Some? ==> r.value.respondedAt == Some(s.respondedAt.value.ms))
      && (r.value.response.None? <==> (s.response.None? || s.response == Some("")))
      && (r.value.response.Some? ==> r.value.response == s.response)
      && (r.value.responseOptionName.None? <==> (s.responseOptionName.None? || s.responseOptionName == Some("")))
      && (r.value.responseOptionName.Some? ==> r.value.responseOptionName == s.responseOptionName)
  {
    if s.respondedAt == Some(InvalidDate) then Err(InvalidTimeValue)
    else
      Ok(StatusColumns(
        if s.respondedAt.Some? then Some(s.respondedAt.value.ms) else None,
        OrNull(s.response),
        OrNull(s.responseOptionName)))
  }

  /** The UPDATE of one status row: the three mutable columns are all overwritten; `requested_at` is kept. */
  function ApplyColumns(row: StatusRow, cols: StatusColumns): (r: StatusRow)
    ensures r.requestedAt == row.requestedAt
    ensures r == StatusRow(row.requestedAt, cols.respondedAt, cols.response, cols.responseOptionName)
  {
    row.(respondedAt := cols.respondedAt, response := cols.response, responseOptionName := cols.responseOptionName)
  }

  /**
   * `updateStatus(id, s)` on the tables: it throws before touching anything when
   * the binding throws; otherwise it rewrites the status row of `id` if there is
   * one and changes nothing at all if there is none.
   */
  function UpdateStatusTables(t: Tables, id: string, s: HumanContactStatus): (r: Result<Tables, AppError>)
    ensures r.Err? <==> BindStatus(s).Err?
    ensures r.Err? ==> r.error == InvalidTimeValue
    ensures r.Ok? ==> r.value.contacts == t.contacts && r.value.statuses.Keys == t.statuses.Keys
    ensures r.Ok? ==> forall k :: k in t.statuses && k != id ==> r.value.statuses[k] == t.statuses[k]
    ensures r.Ok? && id in t.statuses ==> r.value.statuses[id] == ApplyColumns(t.statuses[id], BindStatus(s).value)
    ensures r.Ok? && id !in t.statuses ==> r.value == t
    ensures r.Ok? && WellFormed(t) ==> WellFormed(r.value)
  {
    match BindStatus(s)
    case Err(e) => Err(e)
    case Ok(cols) =>
      if id in t.statuses then Ok(t.(statuses := t.statuses[id := ApplyColumns(t.statuses[id], cols)]))
      else Ok(t)
  }

  /** The status row inserted when a contact is created without a status: only `requested_at`. */
  function InitialStatusRow(dbNow: Time): StatusRow
  {
    StatusRow(Some(dbNow), None, None, None)
  }

  /**
   * `create(hc)` on the tables: a duplicate `call_id` throws and changes nothing;
   * otherwise the contact row is inserted, and then either the status is handed
   * to `updateStatus` (which inserts no row) or a row holding only
   * `requested_at` is inserted.
   */
  function CreateTables(t: Tables, hc: HumanContact, dbNow: Time): (w: Written)
    ensures hc.callId in t.contacts ==> w == Written(t, Fail(DuplicateCallId))
    ensures hc.callId !in t.contacts ==> w.tables.contacts == t.contacts[hc.callId := SpecRow(hc)]
    ensures hc.callId !in t.contacts && hc.status.None? ==>
      w.outcome == Pass && w.tables.statuses == t.statuses[hc.callId := InitialStatusRow(dbNow)]
    ensures hc.callId !in t.contacts && hc.status.Some? ==>
      w.outcome == (if BindStatus(hc.status.value).Err? then Fail(InvalidTimeValue) else Pass)
    ensures WellFormed(t) && hc.status.Some? ==> w.tables.statuses == t.statuses
    ensures WellFormed(t) ==> WellFormed(w.tables)
  {
    if hc.callId in t.contacts then Written(t, Fail(DuplicateCallId))
    else
      var t1 := t.(contacts := t.contacts[hc.callId := SpecRow(hc)]);
      if hc.status.Some? then
        match UpdateStatusTables(t1, hc.callId, hc.status.value)
        case Err(e) => Written(t1, Fail(e))
        case Ok(t2) => Written(t2, Pass)
      else
        Written(t1.(statuses := t1.statuses[hc.callId := InitialStatusRow(dbNow)]), Pass)
  }

  /** Writing a status and reading it back gives the written answer, with empty strings read as absent. */
  lemma WriteThenRead(row: StatusRow, s: HumanContactStatus)
    requires row.requestedAt.Some? && BindStatus(s).Ok?
    ensures StatusOf(ApplyColumns(row, BindStatus(s).value)) ==
      Some(s.(requestedAt := Some(ValidDate(row.requestedAt.value)),
              response := OrNull(s.response),
              responseOptionName := OrNull(s.responseOptionName)))
  {
    var cols := BindStatus(s).value;
    if s.respondedAt.Some? {
      assert s.respondedAt.value.ValidDate?;
      assert cols.respondedAt == Some(s.respondedAt.value.ms);
    }
  }

  /** A status as it reads back after being stored: empty strings become absent. */
  function AsStored(s: HumanContactStatus): (r: HumanContactStatus)
    ensures r.requestedAt == s.requestedAt && r.respondedAt == s.respondedAt
    ensures r.response == OrNull(s.response) && r.responseOptionName == OrNull(s.responseOptionName)
  {
    s.(response := OrNull(s.response), responseOptionName := OrNull(s.responseOptionName))
  }

  /**
   * The status row that `create` evidently means to insert for a given status:
   * its `requested_at` (the database clock when it has none) with the columns
   * `updateStatus` binds. An invalid date throws, as `toISOString` does.
   */
  function IntendedStatusRow(s: HumanContactStatus, dbNow: Time): (r: Result<StatusRow, AppError>)
    ensures r.Err? <==> s.requestedAt == Some(InvalidDate) || BindStatus(s).Err?
    ensures r.Err? ==> r.error == InvalidTimeValue
    ensures r.Ok? ==> r.value.requestedAt == Some(if s.requestedAt.Some? then s.requestedAt.value.ms else dbNow)
    ensures r.Ok? && s.requestedAt.Some? ==> StatusOf(r.value) == Some(AsStored(s))
    ensures r.Ok? && s.requestedAt.None? ==> StatusOf(r.value) == Some(AsStored(s).(requestedAt := Some(ValidDate(dbNow))))
  {
    if s.requestedAt == Some(InvalidDate) then Err(InvalidTimeValue)
    else
      match BindStatus(s)
      case Err(e) => Err(e)
      case Ok(cols) =>
        var initial := InitialStatusRow(if s.requestedAt.Some? then s.requestedAt.value.ms else dbNow);
        WriteThenRead(initial, s);
        Ok(ApplyColumns(initial, cols))
  }

  /**
   * `create(hc)` as evidently intended: the contact row is inserted, and then a
   * status row, holding the given status or only `requested_at`. A duplicate
   * `call_id` throws and changes nothing; an unserialisable date throws after the
   * contact row was inserted.
   */
  function IntendedCreateTables(t: Tables, hc: HumanContact, dbNow: Time): (w: Written)
    ensures hc.callId in t.contacts ==> w == Written(t, Fail(DuplicateCallId))
    ensures hc.callId !in t.contacts ==> w.tables.contacts == t.contacts[hc.callId := SpecRow(hc)]
    ensures hc.callId !in t.contacts ==>
      (w.outcome.Fail? <==> hc.status.Some? && IntendedStatusRow(hc.status.value, dbNow).Err?)
    ensures w.outcome.Fail? ==> w.tables.statuses == t.statuses
    ensures hc.callId !in t.contacts && w.outcome.Pass? ==>
      w.tables.statuses.Keys == t.statuses.Keys + {hc.callId}
      && forall k :: k in t.statuses && k != hc.callId ==> w.tables.statuses[k] == t.statuses[k]
    ensures WellFormed(t) ==> WellFormed(w.tables)
  {
    if hc.callId in t.contacts then Written(t, Fail(DuplicateCallId))
    else
      var t1 := t.(contacts := t.contacts[hc.callId := SpecRow(hc)]);
      if hc.status.None? then
        Written(t1.(statuses := t1.statuses[hc.callId := InitialStatusRow(dbNow)]), Pass)
      else
        match IntendedStatusRow(hc.status.value, dbNow)
        case Err(e) => Written(t1, Fail(e))
        case Ok(row) => Written(t1.(statuses := t1.statuses[hc.callId := row]), Pass)
  }

  /** With the intended create, a contact created with a status reads back with that status as stored. */
  lemma IntendedCreateThenFind(t: Tables, hc: HumanContact, dbNow: Time)
    requires WellFormed(t) && hc.callId !in t.contacts
    requires hc.status.Some? && hc.status.value.requestedAt.Some?
    requires IntendedCreateTables(t, hc, dbNow).outcome.Pass?
    ensures Find(IntendedCreateTables(t, hc, dbNow).tables, hc.callId) ==
      Some(hc.(spec := hc.spec.(subject := OrNull(hc.spec.subject)), status := Some(AsStored(hc.status.value))))
  {
    var w := IntendedCreateTables(t, hc, dbNow);
    assert hc.callId in w.tables.statuses;
  }

  /** The repository over its two tables. */
  class HumanContactRepository {
    var contacts: map<string, ContactRow>
    var statuses: map<string, StatusRow>

    /** The two tables as a value. */
    function State(): Tables
      reads this
    {
      Tables(contacts, statuses)
    }

    ghost predicate Valid()
      reads this
    {
      WellFormed(State())
    }

    constructor ()
      ensures Valid() && contacts == map[] && statuses == map[]
    {
      contacts := map[];
      statuses := map[];
    }

    /** `findById`. */
    function FindById(id: string): (r: Option<HumanContact>)
      reads this
      ensures r.None? <==> id !in contacts
      ensures r.Some? ==> r.value.spec == SpecOf(contacts[id]) && r.value.runId == contacts[id].runId
      ensures r.Some? ==> (r.value.status.Some? <==> id in statuses && statuses[id].requestedAt.Some?)
    {
      Find(State(), id)
    }

    method UpdateStatus(id: string, s: HumanContactStatus) returns (r: Outcome<AppError>)
      modifies this
      ensures r.Fail? <==> UpdateStatusTables(old(State()), id, s).Err?
      ensures r.Fail? ==> r.error == InvalidTimeValue && State() == old(State())
      ensures r.Pass? ==> State() == UpdateStatusTables(old(State()), id, s).value
    {
      var cols := BindStatus(s);
      if cols.Err? {
        return Fail(cols.error);
      }
      if id in statuses {
        statuses := statuses[id := ApplyColumns(statuses[id], cols.value)];
      }
      r := Pass;
    }

    method Create(hc: HumanContact, dbNow: Time) returns (r: Outcome<AppError>)
      requires Valid()
      modifies this
      ensures Valid()
      ensures Written(State(), r) == CreateTables(old(State()), hc, dbNow)
    {
      if hc.callId in contacts {
        return Fail(DuplicateCallId);
      }
      contacts := contacts[hc.callId := SpecRow(hc)];
      if hc.status.Some? {
        r := UpdateStatus(hc.callId, hc.status.value);
      } else {
        statuses := statuses[hc.callId := InitialStatusRow(dbNow)];
        r := Pass;
      }
    }
  }
}
