/**
 * The function-call repository over two tables: `function_calls` (one row per
 * call, holding its spec) and `function_call_status` (at most one status row
 * per call, keyed by `call_id`, deleted with its parent).
 */
module FunctionCallStore {
  import opened Wrappers
  import opened Models
  import opened Errors

  /** A `function_calls` row; the JSON columns hold the values they serialise. */
  datatype CallRow = CallRow(
    callId: string,
    runId: string,
    fn: string,
    kwargs: map<string, Json>,
    channel: Option<ContactChannel>,
    rejectOptions: Option<seq<ResponseOption>>,
    state: Option<map<string, Json>>)

  /** A `function_call_status` row; `None` is SQL NULL. */
  datatype StatusRow = StatusRow(
    requestedAt: Option<Time>,
    respondedAt: Option<Time>,
    approved: Option<bool>,
    comment: Option<string>,
    rejectOptionName: Option<string>,
    slackMessageTs: Option<string>)

  /** The five values the status UPDATE binds, in column order. */
  datatype StatusColumns = StatusColumns(
    respondedAt: Option<Time>,
    approved: Option<bool>,
    comment: Option<string>,
    rejectOptionName: Option<string>,
    slackMessageTs: Option<string>)

  /** The two tables. */
  datatype Tables = Tables(calls: map<string, CallRow>, statuses: map<string, StatusRow>)

  /** The tables after a write, and whether the write returned or threw. */
  datatype Written = Written(tables: Tables, outcome: Outcome<AppError>)

  /** What the LEFT JOIN yields for the status columns of a call without a status row. */
  const NoStatusRow := StatusRow(None, None, None, None, None, None)

  const DuplicateCallId := InternalFailure("UNIQUE constraint failed: function_calls.call_id")
  const InvalidTimeValue := InternalFailure("Invalid time value")

  /**
   * The schema's guarantees: a status row references an existing call (foreign
   * key), every status row was inserted with its `requested_at`, and a call row
   * is stored under its own `call_id` (primary key).
   */
  predicate WellFormed(t: Tables)
  {
    && t.statuses.Keys <= t.calls.Keys
    && (forall id :: id in t.statuses ==> t.statuses[id].requestedAt.Some?)
    && (forall id :: id in t.calls ==> t.calls[id].callId == id)
  }

  /** Reading the spec columns back: a NULL JSON column becomes `undefined`. */
  function SpecOf(row: CallRow): FunctionCallSpec
  {
    FunctionCallSpec(row.fn, row.kwargs, row.channel, row.rejectOptions, row.state)
  }

  /**
   * The values of the INSERT into `function_calls`: an optional spec field is
   * stored as NULL exactly when it is absent, so reading the row back gives the spec.
   */
  function SpecRow(fc: FunctionCall): (row: CallRow)
    ensures row.callId == fc.callId && row.runId == fc.runId
    ensures row.channel.None? <==> fc.spec.channel.None?
    ensures row.rejectOptions.None? <==> fc.spec.rejectOptions.None?
    ensures row.state.None? <==> fc.spec.state.None?
    ensures SpecOf(row) == fc.spec
  {
    CallRow(fc.callId, fc.runId, fc.spec.fn, fc.spec.kwargs, fc.spec.channel, fc.spec.rejectOptions, fc.spec.state)
  }

  /**
   * Reading the status columns back: no status at all when `requested_at` is
   * NULL; otherwise NULL columns become `undefined` and `approved` keeps `false`.
   */
  function StatusOf(row: StatusRow): (r: Option<FunctionCallStatus>)
    ensures r.None? <==> row.requestedAt.None?
    ensures r.Some? ==>
      && r.value.requestedAt == ValidDate(row.requestedAt.value)
      && (r.value.respondedAt.None? <==> row.respondedAt.None?)
      && (row.respondedAt.Some? ==> r.value.respondedAt == Some(ValidDate(row.respondedAt.value)))
      && r.value.approved == row.approved
      && r.value.comment == OrNull(row.comment)
      && r.value.rejectOptionName == OrNull(row.rejectOptionName)
      && r.value.slackMessageTs == OrNull(row.slackMessageTs)
  {
    if row.requestedAt.None? then None
    else
      Some(FunctionCallStatus(
        ValidDate(row.requestedAt.value),
        if row.respondedAt.Some? then Some(ValidDate(row.respondedAt.value)) else None,
        row.approved,
        OrNull(row.comment),
        OrNull(row.rejectOptionName),
        OrNull(row.slackMessageTs)))
  }

  /** `rowToFunctionCall` over one joined row. */
  function RowToFunctionCall(row: CallRow, status: StatusRow): (fc: FunctionCall)
    ensures fc.runId == row.runId && fc.callId == row.callId && fc.spec == SpecOf(row)
    ensures fc.status.None? <==> status.requestedAt.None?
    ensures fc.status.Some? ==> fc.status == StatusOf(status)
  {
    FunctionCall(row.runId, row.callId, SpecOf(row), StatusOf(status))
  }

  /**
   * `findById`: the call row LEFT JOIN its status row, mapped to an entity;
   * nothing exactly when there is no call row.
   */
  function Find(t: Tables, id: string): (r: Option<FunctionCall>)
    ensures r.None? <==> id !in t.calls
    ensures r.Some? ==> r.value.spec == SpecOf(t.calls[id]) && r.value.runId == t.calls[id].runId
    ensures r.Some? && WellFormed(t) ==> r.value.callId == id
    ensures r.Some? ==> (r.value.status.Some? <==> id in t.statuses && t.statuses[id].requestedAt.Some?)
    ensures r.Some? && id in t.statuses ==> r.value.status == StatusOf(t.statuses[id])
  {
    if id !in t.calls then None
    else Some(RowToFunctionCall(t.calls[id], if id in t.statuses then t.statuses[id] else NoStatusRow))
  }

  /**
   * The values bound by `updateStatus`: `toISOString` throws on an invalid
   * `respondedAt`; `approved` goes through `??` (false is kept); the strings go
   * through `||` (empty becomes NULL); an absent field becomes NULL.
   */
  function BindStatus(s: FunctionCallStatus): (r: Result<StatusColumns, AppError>)
    ensures r.Err? <==> s.respondedAt == Some(InvalidDate)
    ensures r.Err? ==> r.error == InvalidTimeValue
    ensures r.Ok? ==>
      && (r.value.respondedAt.None? <==> s.respondedAt.None?)
      && (s.respondedAt.Some? ==> r.value.respondedAt == Some(s.respondedAt.value.ms))
      && r.value.approved == s.approved
      && (r.value.comment.None? <==> (s.comment.None? || s.comment == Some("")))
      && (r.value.comment.Some? ==> r.value.comment == s.comment)
      && (r.value.rejectOptionName.None? <==> (s.rejectOptionName.None? || s.rejectOptionName == Some("")))
      && (r.value.rejectOptionName.Some? ==> r.value.rejectOptionName == s.rejectOptionName)
      && (r.value.slackMessageTs.None? <==> (s.slackMessageTs.None? || s.slackMessageTs == Some("")))
      && (r.value.slackMessageTs.Some? ==> r.value.slackMessageTs == s.slackMessageTs)
  {
    if s.respondedAt == Some(InvalidDate) then Err(InvalidTimeValue)
    else
      Ok(StatusColumns(
        if s.respondedAt.Some? then Some(s.respondedAt.value.ms) else None,
        s.approved,
        OrNull(s.comment),
        OrNull(s.rejectOptionName),
        OrNull(s.slackMessageTs)))
  }

  /**
   * The UPDATE of one status row: the five mutable columns are all overwritten
   * by the bound values (this is not a sparse patch); `requested_at` is kept.
   */
  function ApplyColumns(row: StatusRow, cols: StatusColumns): (r: StatusRow)
    ensures r.requestedAt == row.requestedAt
    ensures r == StatusRow(row.requestedAt, cols.respondedAt, cols.approved, cols.comment, cols.rejectOptionName, cols.slackMessageTs)
  {
    row.(respondedAt := cols.respondedAt, approved := cols.approved, comment := cols.comment,
         rejectOptionName := cols.rejectOptionName, slackMessageTs := cols.slackMessageTs)
  }

  /**
   * `updateStatus(id, s)` on the tables: it throws before touching anything when
   * the binding throws; otherwise it rewrites the status row of `id` if there is
   * one and changes nothing at all if there is none.
   */
  function UpdateStatusTables(t: Tables, id: string, s: FunctionCallStatus): (r: Result<Tables, AppError>)
    ensures r.Err? <==> BindStatus(s).Err?
    ensures r.Err? ==> r.error == InvalidTimeValue
    ensures r.Ok? ==> r.value.calls == t.calls && r.value.statuses.Keys == t.statuses.Keys
    ensures r.Ok? ==> forall k :: k in t.statuses && k != id ==> r.value.statuses[k] == t.statuses[k]
    ensures r.Ok? && id in t.statuses ==> r.value.statuses[id] == ApplyColumns(t.statuses[id], BindStatus(s).value)
    ensures r.Ok? && id !in t.statuses ==> r.value == t
    ensures r.Ok? && WellFormed(t) ==> WellFormed(r.value)
  {
    match BindStatus(s)
    case Err(e) => Err(e)
    case Ok(cols) =>
      if id in t.statuses then Ok(t.(statuses := t.statuses[id := ApplyColumns(t.statuses[id], cols)]))
      else Ok(t)
  }

  /** The status row inserted when a call is created without a status: only `requested_at`, from the database clock. */
  function InitialStatusRow(dbNow: Time): StatusRow
  {
    StatusRow(Some(dbNow), None, None, None, None, None)
  }

  /**
   * `create(fc)` on the tables: a duplicate `call_id` throws and changes nothing;
   * otherwise the call row is inserted, and then either the status is handed to
   * `updateStatus` (which inserts no row) or a row holding only `requested_at` is
   * inserted. A throwing `updateStatus` leaves the call row in place.
   */
  function CreateTables(t: Tables, fc: FunctionCall, dbNow: Time): (w: Written)
    ensures fc.callId in t.calls ==> w == Written(t, Fail(DuplicateCallId))
    ensures fc.callId !in t.calls ==> w.tables.calls == t.calls[fc.callId := SpecRow(fc)]
    ensures fc.callId !in t.calls && fc.status.None? ==>
      w.outcome == Pass && w.tables.statuses == t.statuses[fc.callId := InitialStatusRow(dbNow)]
    ensures fc.callId !in t.calls && fc.status.Some? ==>
      w.outcome == (if BindStatus(fc.status.value).Err? then Fail(InvalidTimeValue) else Pass)
    ensures WellFormed(t) && fc.status.Some? ==> w.tables.statuses == t.statuses
    ensures WellFormed(t) ==> WellFormed(w.tables)
  {
    if fc.callId in t.calls then Written(t, Fail(DuplicateCallId))
    else
      var t1 := t.(calls := t.calls[fc.callId := SpecRow(fc)]);
      if fc.status.Some? then
        match UpdateStatusTables(t1, fc.callId, fc.status.value)
        case Err(e) => Written(t1, Fail(e))
        case Ok(t2) => Written(t2, Pass)
      else
        Written(t1.(statuses := t1.statuses[fc.callId := InitialStatusRow(dbNow)]), Pass)
  }

  /**
   * Writing a status and reading it back gives the written status with the
   * stored `requestedAt`, empty strings read as absent, and `approved` as written.
   */
  lemma WriteThenRead(row: StatusRow, s: FunctionCallStatus)
    requires row.requestedAt.Some? && BindStatus(s).Ok?
    ensures StatusOf(ApplyColumns(row, BindStatus(s).value)) ==
      Some(s.(requestedAt := ValidDate(row.requestedAt.value),
              comment := OrNull(s.comment),
              rejectOptionName := OrNull(s.rejectOptionName),
              slackMessageTs := OrNull(s.slackMessageTs)))
  {
    var cols := BindStatus(s).value;
    if s.respondedAt.Some? {
      assert s.respondedAt.value.ValidDate?;
      assert cols.respondedAt == Some(s.respondedAt.value.ms);
    }
  }

  /** Creating a call and reading it back gives its ids and its spec unchanged. */
  lemma CreateThenFind(t: Tables, fc: FunctionCall, dbNow: Time)
    requires WellFormed(t) && fc.callId !in t.calls
    ensures var f := Find(CreateTables(t, fc, dbNow).tables, fc.callId);
      f.Some? && f.value.callId == fc.callId && f.value.runId == fc.runId && f.value.spec == fc.spec
  {
  }

  /** A status as it reads back after being stored: empty strings become absent. */
  function AsStored(s: FunctionCallStatus): (r: FunctionCallStatus)
    ensures r.requestedAt == s.requestedAt && r.respondedAt == s.respondedAt && r.approved == s.approved
    ensures r.comment == OrNull(s.comment) && r.rejectOptionName == OrNull(s.rejectOptionName)
    ensures r.slackMessageTs == OrNull(s.slackMessageTs)
  {
    s.(comment := OrNull(s.comment), rejectOptionName := OrNull(s.rejectOptionName), slackMessageTs := OrNull(s.slackMessageTs))
  }

  /**
   * The status row that `create` evidently means to insert for a given status:
   * its `requested_at` together with the columns `updateStatus` binds. Either
   * date being invalid throws, as `toISOString` does.
   */
  function IntendedStatusRow(s: FunctionCallStatus): (r: Result<StatusRow, AppError>)
    ensures r.Err? <==> s.requestedAt.InvalidDate? || BindStatus(s).Err?
    ensures r.Err? ==> r.error == InvalidTimeValue
    ensures r.Ok? ==> r.value.requestedAt == Some(s.requestedAt.ms)
    ensures r.Ok? ==> StatusOf(r.value) == Some(AsStored(s))
  {
    if s.requestedAt.InvalidDate? then Err(InvalidTimeValue)
    else
      match BindStatus(s)
      case Err(e) => Err(e)
      case Ok(cols) =>
        var row := ApplyColumns(InitialStatusRow(s.requestedAt.ms), cols);
        WriteThenRead(InitialStatusRow(s.requestedAt.ms), s);
        Ok(row)
  }

  /**
   * `create(fc)` as evidently intended: the call row is inserted, and then a status
   * row, holding the given status or only `requested_at` from the database clock.
   * A duplicate `call_id` throws and changes nothing; a status whose dates cannot
   * be serialised throws after the call row was inserted, as the code does.
   */
  function IntendedCreateTables(t: Tables, fc: FunctionCall, dbNow: Time): (w: Written)
    ensures fc.callId in t.calls ==> w == Written(t, Fail(DuplicateCallId))
    ensures fc.callId !in t.calls ==> w.tables.calls == t.calls[fc.callId := SpecRow(fc)]
    ensures fc.callId !in t.calls ==>
      (w.outcome.Fail? <==> fc.status.Some? && IntendedStatusRow(fc.status.value).Err?)
    ensures w.outcome.Fail? ==> w.tables.statuses == t.statuses
    ensures fc.callId !in t.calls && w.outcome.Pass? ==>
      w.tables.statuses.Keys == t.statuses.Keys + {fc.callId}
      && forall k :: k in t.statuses && k != fc.callId ==> w.tables.statuses[k] == t.statuses[k]
    ensures WellFormed(t) ==> WellFormed(w.tables)
  {
    if fc.callId in t.calls then Written(t, Fail(DuplicateCallId))
    else
      var t1 := t.(calls := t.calls[fc.callId := SpecRow(fc)]);
      if fc.status.None? then
        Written(t1.(statuses := t1.statuses[fc.callId := InitialStatusRow(dbNow)]), Pass)
      else
        match IntendedStatusRow(fc.status.value)
        case Err(e) => Written(t1, Fail(e))
        case Ok(row) => Written(t1.(statuses := t1.statuses[fc.callId := row]), Pass)
  }

  /**
   * With the intended create, the call reads back with its status: the given one
   * as stored, or `{requestedAt}` from the database clock.
   */
  lemma IntendedCreateThenFind(t: Tables, fc: FunctionCall, dbNow: Time)
    requires WellFormed(t) && fc.callId !in t.calls
    requires IntendedCreateTables(t, fc, dbNow).outcome.Pass?
    ensures Find(IntendedCreateTables(t, fc, dbNow).tables, fc.callId) ==
      Some(fc.(status := Some(if fc.status.Some? then AsStored(fc.status.value)
                              else FunctionCallStatus(ValidDate(dbNow), None, None, None, None, None))))
  {
    var w := IntendedCreateTables(t, fc, dbNow);
    assert fc.callId in w.tables.statuses;
    assert SpecOf(SpecRow(fc)) == fc.spec;
  }

  /** The repository over its two tables. */
  class FunctionCallRepository {
    var calls: map<string, CallRow>
    var statuses: map<string, StatusRow>

    /** The two tables as a value. */
    function State(): Tables
      reads this
    {
      Tables(calls, statuses)
    }

    ghost predicate Valid()
      reads this
    {
      WellFormed(State())
    }

    constructor ()
      ensures Valid() && calls == map[] && statuses == map[]
    {
      calls := map[];
      statuses := map[];
    }

    /** `findById`. */
    function FindById(id: string): (r: Option<FunctionCall>)
      reads this
      ensures r.None? <==> id !in calls
      ensures r.Some? ==> r.value.spec == SpecOf(calls[id]) && r.value.runId == calls[id].runId
      ensures r.Some? ==> (r.value.status.Some? <==> id in statuses && statuses[id].requestedAt.Some?)
    {
      Find(State(), id)
    }

    method UpdateStatus(id: string, s: FunctionCallStatus) returns (r: Outcome<AppError>)
      modifies this
      ensures r.Fail? <==> UpdateStatusTables(old(State()), id, s).Err?
      ensures r.Fail? ==> r.error == InvalidTimeValue && State() == old(State())
      ensures r.Pass? ==> State() == UpdateStatusTables(old(State()), id, s).value
    {
      var cols := BindStatus(s);
      if cols.Err? {
        return Fail(cols.error);
      }
      if id in statuses {
        statuses := statuses[id := ApplyColumns(statuses[id], cols.value)];
      }
      r := Pass;
    }

    method Create(fc: FunctionCall, dbNow: Time) returns (r: Outcome<AppError>)
      requires Valid()
      modifies this
      ensures Valid()
      ensures Written(State(), r) == CreateTables(old(State()), fc, dbNow)
    {
      if fc.callId in calls {
        return Fail(DuplicateCallId);
      }
      calls := calls[fc.callId := SpecRow(fc)];
      if fc.status.Some? {
        r := UpdateStatus(fc.callId, fc.status.value);
      } else {
        statuses := statuses[fc.callId := InitialStatusRow(dbNow)];
        r := Pass;
      }
    }
  }
}
