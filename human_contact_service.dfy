/**
 * The human-contact service: create, get, respond and escalate over the
 * repository, with the read-check-write guard that a contact is answered once.
 */
module HumanContacts {
  import opened Wrappers
  import opened Models
  import opened Errors
  import opened HumanContactStore
  import opened Channels

  function NotFound(id: string): AppError
  {
    ApiError(404, "NOT_FOUND", "Human contact " + id + " not found")
  }

  const AlreadyResponded := ApiError(409, "ALREADY_RESPONDED", "Contact already has a response")

  /** The tables after a service call, and what the call returned or threw. */
  datatype Step = Step(tables: Tables, result: Result<HumanContact, AppError>)

  /** A contact created without a status gets exactly `{requestedAt: now}`; a supplied status is kept. */
  function WithDefaultStatus(hc: HumanContact, now: Time): (r: HumanContact)
    ensures hc.status.None? ==> r.status == Some(HumanContactStatus(Some(ValidDate(now)), None, None, None))
    ensures hc.status.Some? ==> r == hc
    ensures r.runId == hc.runId && r.callId == hc.callId && r.spec == hc.spec
    ensures r.status.Some?
  {
    if hc.status.None? then hc.(status := Some(HumanContactStatus(Some(ValidDate(now)), None, None, None)))
    else hc
  }

  /** `create`: the status is defaulted, the repository writes, and the caller's object is returned. */
  function CreateSpec(t: Tables, hc: HumanContact, now: Time): (s: Step)
    ensures s.tables == CreateTables(t, WithDefaultStatus(hc, now), now).tables
    ensures s.result.Ok? <==> CreateTables(t, WithDefaultStatus(hc, now), now).outcome.Pass?
    ensures s.result.Ok? ==> s.result.value == WithDefaultStatus(hc, now)
    ensures s.result.Err? ==> s.result.error == CreateTables(t, WithDefaultStatus(hc, now), now).outcome.error
    ensures hc.callId in t.contacts ==> s == Step(t, Err(DuplicateCallId))
  {
    var hc' := WithDefaultStatus(hc, now);
    var w := CreateTables(t, hc', now);
    if w.outcome.Fail? then Step(w.tables, Err(w.outcome.error)) else Step(w.tables, Ok(hc'))
  }

  /** `get`: the stored contact, or 404 NOT_FOUND exactly when there is none. */
  function GetSpec(t: Tables, id: string): (r: Result<HumanContact, AppError>)
    ensures r.Err? <==> id !in t.contacts
    ensures r.Err? ==> r.error == NotFound(id)
    ensures r.Ok? ==> Find(t, id) == Some(r.value)
  {
    match Find(t, id)
    case None => Err(NotFound(id))
    case Some(hc) => Ok(hc)
  }

  /**
   * `respond`: 404 and no write for an unknown contact; 409 ALREADY_RESPONDED and
   * no write when the stored status has `respondedAt`; otherwise `updateStatus`
   * with the given status and the re-read contact.
   */
  function RespondSpec(t: Tables, id: string, s: HumanContactStatus): (r: Step)
    ensures id !in t.contacts ==> r == Step(t, Err(NotFound(id)))
    ensures id in t.contacts && Answered(Find(t, id).value) ==> r == Step(t, Err(AlreadyResponded))
    ensures id in t.contacts && !Answered(Find(t, id).value) ==>
      && (r.result.Err? <==> UpdateStatusTables(t, id, s).Err?)
      && (r.result.Err? ==> r == Step(t, Err(InvalidTimeValue)))
      && (r.result.Ok? ==> r.tables == UpdateStatusTables(t, id, s).value && Find(r.tables, id) == Some(r.result.value))
    ensures r.tables.contacts == t.contacts
    ensures r.tables.statuses.Keys == t.statuses.Keys
    ensures forall k :: k in t.statuses && k != id ==> r.tables.statuses[k] == t.statuses[k]
    ensures forall k :: k in t.statuses ==> r.tables.statuses[k].requestedAt == t.statuses[k].requestedAt
    ensures WellFormed(t) ==> WellFormed(r.tables)
  {
    match Find(t, id)
    case None => Step(t, Err(NotFound(id)))
    case Some(existing) =>
      if Answered(existing) then Step(t, Err(AlreadyResponded))
      else
        match UpdateStatusTables(t, id, s)
        case Err(e) => Step(t, Err(e))
        case Ok(t') => Step(t', Ok(Find(t', id).value))
  }

  /** Once a contact's status row records a `respondedAt`, every later `respond` is refused and writes nothing. */
  lemma RespondAtMostOnce(t: Tables, id: string, first: HumanContactStatus, second: HumanContactStatus)
    requires WellFormed(t) && id in t.statuses
    requires first.respondedAt.Some?
    requires RespondSpec(t, id, first).result.Ok?
    ensures var t1 := RespondSpec(t, id, first).tables;
      RespondSpec(t1, id, second) == Step(t1, Err(AlreadyResponded))
  {
    var t1 := RespondSpec(t, id, first).tables;
    assert t1.statuses[id].respondedAt.Some?;
  }

  /**
   * As written, a contact created through the service is stored without a status
   * row, so reading it back shows no status, and `respond` never writes to it.
   */
  lemma CreateStoresNoStatus(t: Tables, hc: HumanContact, now: Time, s: HumanContactStatus)
    requires WellFormed(t) && hc.callId !in t.contacts
    ensures var t1 := CreateSpec(t, hc, now).tables;
      && t1.statuses == t.statuses
      && Find(t1, hc.callId).Some? && Find(t1, hc.callId).value.status.None?
      && RespondSpec(t1, hc.callId, s).tables == t1
      && RespondSpec(t1, hc.callId, s).result != Err(AlreadyResponded)
  {
    var t1 := CreateSpec(t, hc, now).tables;
    assert hc.callId !in t1.statuses;
    assert !Answered(Find(t1, hc.callId).value);
  }

  /**
   * The answer flow the code as written gives for a contact created without a
   * status: it reads back with no status, and a valid respond succeeds but
   * returns a contact still without status.
   */
  lemma AsWrittenAnswerFlow(t: Tables, hc: HumanContact, now: Time, answer: HumanContactStatus)
    requires WellFormed(t) && hc.callId !in t.contacts && hc.status.None?
    requires answer.respondedAt.Some? && answer.respondedAt.value.ValidDate?
    ensures var t1 := CreateSpec(t, hc, now).tables;
      var r1 := RespondSpec(t1, hc.callId, answer);
      && GetSpec(t1, hc.callId).Ok? && GetSpec(t1, hc.callId).value.status.None?
      && r1.result.Ok? && r1.result.value.status.None?
  {
    CreateStoresNoStatus(t, hc, now, answer);
  }

  /** `create` over the intended repository create, which inserts the status row. */
  function IntendedCreateSpec(t: Tables, hc: HumanContact, now: Time): (s: Step)
    ensures s.tables == IntendedCreateTables(t, WithDefaultStatus(hc, now), now).tables
    ensures s.result.Ok? <==> IntendedCreateTables(t, WithDefaultStatus(hc, now), now).outcome.Pass?
    ensures s.result.Ok? ==> s.result.value == WithDefaultStatus(hc, now)
    ensures s.result.Err? ==> s.result.error == IntendedCreateTables(t, WithDefaultStatus(hc, now), now).outcome.error
    ensures WellFormed(t) && hc.callId !in t.contacts && s.result.Ok? ==> hc.callId in s.tables.statuses
  {
    var hc' := WithDefaultStatus(hc, now);
    var w := IntendedCreateTables(t, hc', now);
    if w.outcome.Fail? then Step(w.tables, Err(w.outcome.error)) else Step(w.tables, Ok(hc'))
  }

  /** For every contact the intended create stored, a recorded answer refuses every later respond. */
  lemma IntendedRespondAtMostOnce(t: Tables, hc: HumanContact, now: Time, first: HumanContactStatus, second: HumanContactStatus)
    requires WellFormed(t) && hc.callId !in t.contacts
    requires IntendedCreateSpec(t, hc, now).result.Ok?
    requires first.respondedAt.Some?
    requires RespondSpec(IntendedCreateSpec(t, hc, now).tables, hc.callId, first).result.Ok?
    ensures var t2 := RespondSpec(IntendedCreateSpec(t, hc, now).tables, hc.callId, first).tables;
      RespondSpec(t2, hc.callId, second) == Step(t2, Err(AlreadyResponded))
  {
    var t1 := IntendedCreateSpec(t, hc, now).tables;
    RespondAtMostOnce(t1, hc.callId, first, second);
  }

  /**
   * The answer flow with the intended create: the contact reads back pending
   * without a response, and a valid respond succeeds and reads back its answer.
   */
  lemma IntendedAnswerFlow(t: Tables, hc: HumanContact, now: Time, answer: HumanContactStatus)
    requires WellFormed(t) && hc.callId !in t.contacts && hc.status.None?
    requires answer.respondedAt.Some? && answer.respondedAt.value.ValidDate?
    ensures var t1 := IntendedCreateSpec(t, hc, now).tables;
      var r1 := RespondSpec(t1, hc.callId, answer);
      && GetSpec(t1, hc.callId).Ok?
      && GetSpec(t1, hc.callId).value.status == Some(HumanContactStatus(Some(ValidDate(now)), None, None, None))
      && r1.result.Ok? && r1.result.value.status.Some?
      && r1.result.value.status.value.response == OrNull(answer.response)
  {
    var hc' := WithDefaultStatus(hc, now);
    IntendedCreateThenFind(t, hc', now);
    var t1 := IntendedCreateSpec(t, hc, now).tables;
    assert hc.callId in t1.statuses;
    WriteThenRead(t1.statuses[hc.callId], answer);
  }

  class HumanContactService {
    const repository: HumanContactRepository
    const channelService: ChannelService

    ghost predicate Valid()
      reads repository
    {
      repository.Valid()
    }

    constructor (repository: HumanContactRepository, channelService: ChannelService)
      ensures this.repository == repository && this.channelService == channelService
    {
      this.repository := repository;
      this.channelService := channelService;
    }

    /** Defaults the status, persists, and only then notifies, and only when the spec names a channel. */
    method Create(hc: HumanContact, now: Time) returns (r: Result<HumanContact, AppError>)
      requires Valid()
      modifies repository, channelService
      ensures Valid()
      ensures Step(repository.State(), r) == CreateSpec(old(repository.State()), hc, now)
      ensures channelService.sent ==
        old(channelService.sent) + (if r.Ok? && hc.spec.channel.Some? then [HumanContactRequest(r.value)] else [])
    {
      var contact := hc;
      if contact.status.None? {
        contact := contact.(status := Some(HumanContactStatus(Some(ValidDate(now)), None, None, None)));
      }
      var written := repository.Create(contact, now);
      if written.Fail? {
        return Err(written.error);
      }
      if contact.spec.channel.Some? {
        channelService.SendHumanContactRequest(contact);
      }
      r := Ok(contact);
    }

    method Get(id: string) returns (r: Result<HumanContact, AppError>)
      ensures r == GetSpec(repository.State(), id)
    {
      var found := repository.FindById(id);
      if found.None? {
        return Err(NotFound(id));
      }
      r := Ok(found.value);
    }

    method Respond(id: string, s: HumanContactStatus) returns (r: Result<HumanContact, AppError>)
      requires Valid()
      modifies repository
      ensures Valid()
      ensures Step(repository.State(), r) == RespondSpec(old(repository.State()), id, s)
    {
      var existing := repository.FindById(id);
      if existing.None? {
        return Err(NotFound(id));
      }
      if existing.value.status.Some? && existing.value.status.value.respondedAt.Some? {
        return Err(AlreadyResponded);
      }
      var written := repository.UpdateStatus(id, s);
      if written.Fail? {
        return Err(written.error);
      }
      var reread := repository.FindById(id);
      r := Ok(reread.value);
    }

    /** Forwards the escalation to the channel and returns the stored contact unchanged. */
    method EscalateEmail(id: string, escalation: Json) returns (r: Result<HumanContact, AppError>)
      modifies channelService
      ensures r == GetSpec(repository.State(), id)
      ensures channelService.sent ==
        old(channelService.sent) + (if r.Ok? then [HumanContactEscalation(r.value, escalation)] else [])
    {
      var existing := repository.FindById(id);
      if existing.None? {
        return Err(NotFound(id));
      }
      channelService.SendHumanContactEscalation(existing.value, escalation);
      r := Ok(existing.value);
    }
  }
}
