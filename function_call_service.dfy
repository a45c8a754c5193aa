/**
 * The function-call service: create, get, respond and escalate over the
 * repository, with the read-check-write guard that a call is decided once.
 */
module FunctionCalls {
  import opened Wrappers
  import opened Models
  import opened Errors
  import opened FunctionCallStore
  import opened Channels

  function NotFound(id: string): AppError
  {
    ApiError(404, "NOT_FOUND", "Function call " + id + " not found")
  }

  const AlreadyDecided := ApiError(409, "ALREADY_DECIDED", "Approval decision already made")

  /** The tables after a service call, and what the call returned or threw. */
  datatype Step = Step(tables: Tables, result: Result<FunctionCall, AppError>)

  /** A call created without a status gets exactly `{requestedAt: now}`; a supplied status is kept. */
  function WithDefaultStatus(fc: FunctionCall, now: Time): (r: FunctionCall)
    ensures fc.status.None? ==> r.status == Some(FunctionCallStatus(ValidDate(now), None, None, None, None, None))
    ensures fc.status.Some? ==> r == fc
    ensures r.runId == fc.runId && r.callId == fc.callId && r.spec == fc.spec
    ensures r.status.Some?
  {
    if fc.status.None? then fc.(status := Some(FunctionCallStatus(ValidDate(now), None, None, None, None, None)))
    else fc
  }

  /**
   * `create`: the status is defaulted, the repository writes, and the caller's
   * object (with its status) is returned; a throwing repository call is passed on.
   */
  function CreateSpec(t: Tables, fc: FunctionCall, now: Time): (s: Step)
    ensures s.tables == CreateTables(t, WithDefaultStatus(fc, now), now).tables
    ensures s.result.Ok? <==> CreateTables(t, WithDefaultStatus(fc, now), now).outcome.Pass?
    ensures s.result.Ok? ==> s.result.value == WithDefaultStatus(fc, now)
    ensures s.result.Err? ==> s.result.error == CreateTables(t, WithDefaultStatus(fc, now), now).outcome.error
    ensures fc.callId in t.calls ==> s == Step(t, Err(DuplicateCallId))
  {
    var fc' := WithDefaultStatus(fc, now);
    var w := CreateTables(t, fc', now);
    if w.outcome.Fail? then Step(w.tables, Err(w.outcome.error)) else Step(w.tables, Ok(fc'))
  }

  /** `get`: the stored call, or 404 NOT_FOUND exactly when there is none. */
  function GetSpec(t: Tables, id: string): (r: Result<FunctionCall, AppError>)
    ensures r.Err? <==> id !in t.calls
    ensures r.Err? ==> r.error == NotFound(id)
    ensures r.Ok? ==> Find(t, id) == Some(r.value)
  {
    match Find(t, id)
    case None => Err(NotFound(id))
    case Some(fc) => Ok(fc)
  }

  /**
   * `respond`: 404 and no write for an unknown call; 409 ALREADY_DECIDED and no
   * write when the stored status has `respondedAt`; otherwise `updateStatus` with
   * the given status and the re-read call.
   */
  function RespondSpec(t: Tables, id: string, s: FunctionCallStatus): (r: Step)
    ensures id !in t.calls ==> r == Step(t, Err(NotFound(id)))
    ensures id in t.calls && Decided(Find(t, id).value) ==> r == Step(t, Err(AlreadyDecided))
    ensures id in t.calls && !Decided(Find(t, id).value) ==>
      && (r.result.Err? <==> UpdateStatusTables(t, id, s).Err?)
      && (r.result.Err? ==> r == Step(t, Err(InvalidTimeValue)))
      && (r.result.Ok? ==> r.tables == UpdateStatusTables(t, id, s).value && Find(r.tables, id) == Some(r.result.value))
    ensures r.tables.calls == t.calls
    ensures r.tables.statuses.Keys == t.statuses.Keys
    ensures forall k :: k in t.statuses && k != id ==> r.tables.statuses[k] == t.statuses[k]
    ensures forall k :: k in t.statuses ==> r.tables.statuses[k].requestedAt == t.statuses[k].requestedAt
    ensures WellFormed(t) ==> WellFormed(r.tables)
  {
    match Find(t, id)
    case None => Step(t, Err(NotFound(id)))
    case Some(existing) =>
      if Decided(existing) then Step(t, Err(AlreadyDecided))
      else
        match UpdateStatusTables(t, id, s)
        case Err(e) => Step(t, Err(e))
        case Ok(t') => Step(t', Ok(Find(t', id).value))
  }

  /**
   * The at-most-once guarantee as the code states it: once a call's status row
   * records a `respondedAt`, every later `respond` is refused and writes nothing.
   */
  lemma RespondAtMostOnce(t: Tables, id: string, first: FunctionCallStatus, second: FunctionCallStatus)
    requires WellFormed(t) && id in t.statuses
    requires first.respondedAt.Some?
    requires RespondSpec(t, id, first).result.Ok?
    ensures var t1 := RespondSpec(t, id, first).tables;
      RespondSpec(t1, id, second) == Step(t1, Err(AlreadyDecided))
  {
    var t1 := RespondSpec(t, id, first).tables;
    assert t1.statuses[id].respondedAt.Some?;
  }

  /**
   * A successful respond overwrites every mutable column: a field left out of the
   * new status (here the comment) does not survive from before.
   */
  lemma RespondIsNotASparsePatch(t: Tables, id: string, s: FunctionCallStatus)
    requires WellFormed(t) && id in t.statuses
    requires s.comment.None? && RespondSpec(t, id, s).result.Ok?
    ensures RespondSpec(t, id, s).tables.statuses[id].comment.None?
  {
  }

  /**
   * As written, the service always hands a status to the repository, whose
   * `updateStatus` finds no status row for a new call: the call is stored without
   * a status row, so reading it back shows no status (although `create` returned one).
   */
  lemma CreateStoresNoStatus(t: Tables, fc: FunctionCall, now: Time)
    requires WellFormed(t) && fc.callId !in t.calls
    ensures var s := CreateSpec(t, fc, now);
      && s.tables.statuses == t.statuses
      && fc.callId !in s.tables.statuses
      && Find(s.tables, fc.callId).Some?
      && Find(s.tables, fc.callId).value.status.None?
      && (s.result.Ok? ==> s.result.value.status.Some?)
  {
  }

  /**
   * Consequently, for a call created through the service, `respond` never writes
   * and never answers 409: any number of responses each see an undecided call.
   */
  lemma RespondAfterCreateNeverConflicts(t: Tables, fc: FunctionCall, now: Time, s: FunctionCallStatus)
    requires WellFormed(t) && fc.callId !in t.calls
    ensures var t1 := CreateSpec(t, fc, now).tables;
      && RespondSpec(t1, fc.callId, s).tables == t1
      && RespondSpec(t1, fc.callId, s).result != Err(AlreadyDecided)
  {
    var t1 := CreateSpec(t, fc, now).tables;
    CreateStoresNoStatus(t, fc, now);
    assert !Decided(Find(t1, fc.callId).value);
  }

  /**
   * The approval flow the code as written gives for a call created without a
   * status: it reads back with no status, a valid respond succeeds but returns a
   * call still without status, and a second respond is not refused.
   */
  lemma AsWrittenApprovalFlow(t: Tables, fc: FunctionCall, now: Time, first: FunctionCallStatus, second: FunctionCallStatus)
    requires WellFormed(t) && fc.callId !in t.calls && fc.status.None?
    requires first.respondedAt.Some? && first.respondedAt.value.ValidDate?
    ensures var t1 := CreateSpec(t, fc, now).tables;
      var r1 := RespondSpec(t1, fc.callId, first);
      && GetSpec(t1, fc.callId).Ok? && GetSpec(t1, fc.callId).value.status.None?
      && r1.result.Ok? && r1.result.value.status.None?
      && RespondSpec(r1.tables, fc.callId, second).result != Err(AlreadyDecided)
  {
    CreateStoresNoStatus(t, fc, now);
    RespondAfterCreateNeverConflicts(t, fc, now, first);
    RespondAfterCreateNeverConflicts(t, fc, now, second);
  }

  /** `create` over the intended repository create, which inserts the status row. */
  function IntendedCreateSpec(t: Tables, fc: FunctionCall, now: Time): (s: Step)
    ensures s.tables == IntendedCreateTables(t, WithDefaultStatus(fc, now), now).tables
    ensures s.result.Ok? <==> IntendedCreateTables(t, WithDefaultStatus(fc, now), now).outcome.Pass?
    ensures s.result.Ok? ==> s.result.value == WithDefaultStatus(fc, now)
    ensures s.result.Err? ==> s.result.error == IntendedCreateTables(t, WithDefaultStatus(fc, now), now).outcome.error
    ensures WellFormed(t) && fc.callId !in t.calls && s.result.Ok? ==> fc.callId in s.tables.statuses
  {
    var fc' := WithDefaultStatus(fc, now);
    var w := IntendedCreateTables(t, fc', now);
    if w.outcome.Fail? then Step(w.tables, Err(w.outcome.error)) else Step(w.tables, Ok(fc'))
  }

  /**
   * The at-most-once guarantee for every call the intended create stored: once a
   * respond on it has recorded `respondedAt`, every later respond is refused.
   */
  lemma IntendedRespondAtMostOnce(t: Tables, fc: FunctionCall, now: Time, first: FunctionCallStatus, second: FunctionCallStatus)
    requires WellFormed(t) && fc.callId !in t.calls
    requires IntendedCreateSpec(t, fc, now).result.Ok?
    requires first.respondedAt.Some?
    requires RespondSpec(IntendedCreateSpec(t, fc, now).tables, fc.callId, first).result.Ok?
    ensures var t2 := RespondSpec(IntendedCreateSpec(t, fc, now).tables, fc.callId, first).tables;
      RespondSpec(t2, fc.callId, second) == Step(t2, Err(AlreadyDecided))
  {
    var t1 := IntendedCreateSpec(t, fc, now).tables;
    RespondAtMostOnce(t1, fc.callId, first, second);
  }

  /**
   * The approval flow with the intended create: the call reads back pending with
   * `requestedAt`, a valid respond succeeds and reads back its decision and
   * comment, and a second respond is refused with 409.
   */
  lemma IntendedApprovalFlow(t: Tables, fc: FunctionCall, now: Time, first: FunctionCallStatus, second: FunctionCallStatus)
    requires WellFormed(t) && fc.callId !in t.calls && fc.status.None?
    requires first.respondedAt.Some? && first.respondedAt.value.ValidDate?
    ensures var t1 := IntendedCreateSpec(t, fc, now).tables;
      var r1 := RespondSpec(t1, fc.callId, first);
      && GetSpec(t1, fc.callId).Ok?
      && GetSpec(t1, fc.callId).value.status == Some(FunctionCallStatus(ValidDate(now), None, None, None, None, None))
      && r1.result.Ok? && r1.result.value.status.Some?
      && r1.result.value.status.value.approved == first.approved
      && r1.result.value.status.value.comment == OrNull(first.comment)
      && RespondSpec(r1.tables, fc.callId, second) == Step(r1.tables, Err(AlreadyDecided))
  {
    var fc' := WithDefaultStatus(fc, now);
    IntendedCreateThenFind(t, fc', now);
    var t1 := IntendedCreateSpec(t, fc, now).tables;
    assert fc.callId in t1.statuses;
    WriteThenRead(t1.statuses[fc.callId], first);
    IntendedRespondAtMostOnce(t, fc, now, first, second);
  }

  class FunctionCallService {
    const repository: FunctionCallRepository
    const channelService: ChannelService

    ghost predicate Valid()
      reads repository
    {
      repository.Valid()
    }

    constructor (repository: FunctionCallRepository, channelService: ChannelService)
      ensures this.repository == repository && this.channelService == channelService
    {
      this.repository := repository;
      this.channelService := channelService;
    }

    /** Defaults the status, persists, and only then notifies, and only when the spec names a channel. */
    method Create(fc: FunctionCall, now: Time) returns (r: Result<FunctionCall, AppError>)
      requires Valid()
      modifies repository, channelService
      ensures Valid()
      ensures Step(repository.State(), r) == CreateSpec(old(repository.State()), fc, now)
      ensures channelService.sent ==
        old(channelService.sent) + (if r.Ok? && fc.spec.channel.Some? then [ApprovalRequest(r.value)] else [])
    {
      var call := fc;
      if call.status.None? {
        call := call.(status := Some(FunctionCallStatus(ValidDate(now), None, None, None, None, None)));
      }
      var written := repository.Create(call, now);
      if written.Fail? {
        return Err(written.error);
      }
      if call.spec.channel.Some? {
        channelService.SendApprovalRequest(call);
      }
      r := Ok(call);
    }

    method Get(id: string) returns (r: Result<FunctionCall, AppError>)
      ensures r == GetSpec(repository.State(), id)
    {
      var found := repository.FindById(id);
      if found.None? {
        return Err(NotFound(id));
      }
      r := Ok(found.value);
    }

    method Respond(id: string, s: FunctionCallStatus) returns (r: Result<FunctionCall, AppError>)
      requires Valid()
      modifies repository
      ensures Valid()
      ensures Step(repository.State(), r) == RespondSpec(old(repository.State()), id, s)
    {
      var existing := repository.FindById(id);
      if existing.None? {
        return Err(NotFound(id));
      }
      if existing.value.status.Some? && existing.value.status.value.respondedAt.Some? {
        return Err(AlreadyDecided);
      }
      var written := repository.UpdateStatus(id, s);
      if written.Fail? {
        return Err(written.error);
      }
      var reread := repository.FindById(id);
      r := Ok(reread.value);
    }

    /** Forwards the escalation to the channel and returns the stored call unchanged. */
    method EscalateEmail(id: string, escalation: Json) returns (r: Result<FunctionCall, AppError>)
      modifies channelService
      ensures r == GetSpec(repository.State(), id)
      ensures channelService.sent ==
        old(channelService.sent) + (if r.Ok? then [FunctionCallEscalation(r.value, escalation)] else [])
    {
      var existing := repository.FindById(id);
      if existing.None? {
        return Err(NotFound(id));
      }
      channelService.SendFunctionCallEscalation(existing.value, escalation);
      r := Ok(existing.value);
    }
  }
}
