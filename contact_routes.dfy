/**
 * The human-contact routes: create (validated body, dates converted), get,
 * respond (status built from the raw body) and escalate_email.
 */
module ContactRoutes {
  import opened Wrappers
  import opened Models
  import opened Errors
  import opened Http
  import opened HumanContactStore
  import opened HumanContacts
  import opened Channels

  /** A status in a validated create body; dates are valid ISO datetimes, here as milliseconds. */
  datatype StatusInput = StatusInput(
    requestedAt: Option<Time>,
    respondedAt: Option<Time>,
    response: Option<string>,
    responseOptionName: Option<string>)

  /** A body that passed the create schema. */
  datatype CreateRequest = CreateRequest(runId: string, callId: string, spec: HumanContactSpec, status: Option<StatusInput>)

  /** The create route's status: `requested_at` defaults to now, `responded_at` only when given, the rest copied. */
  function CreatedStatus(s: StatusInput, now: Time): (r: HumanContactStatus)
    ensures r.requestedAt == Some(ValidDate(if s.requestedAt.Some? then s.requestedAt.value else now))
    ensures r.respondedAt.Some? <==> s.respondedAt.Some?
    ensures r.respondedAt.Some? ==> r.respondedAt.value == ValidDate(s.respondedAt.value)
    ensures r.response == s.response && r.responseOptionName == s.responseOptionName
  {
    HumanContactStatus(
      Some(ValidDate(if s.requestedAt.Some? then s.requestedAt.value else now)),
      if s.respondedAt.Some? then Some(ValidDate(s.respondedAt.value)) else None,
      s.response, s.responseOptionName)
  }

  /** The entity handed to the service: the body itself, with its status (if any) converted. */
  function HumanContactOf(req: CreateRequest, now: Time): (hc: HumanContact)
    ensures hc.runId == req.runId && hc.callId == req.callId && hc.spec == req.spec
    ensures hc.status.Some? <==> req.status.Some?
    ensures hc.status.Some? ==> hc.status.value == CreatedStatus(req.status.value, now)
  {
    HumanContact(req.runId, req.callId, req.spec,
                 if req.status.Some? then Some(CreatedStatus(req.status.value, now)) else None)
  }

  /** The fields the respond route reads from its (unvalidated) body. */
  datatype RespondBody = RespondBody(
    requestedAt: Option<DateText>,
    respondedAt: Option<DateText>,
    response: Option<string>,
    responseOptionName: Option<string>)

  /**
   * The respond route's status: `requested_at` only when the body has a non-empty
   * one, `responded_at` always through `new Date(...)` (absent is an invalid date),
   * the answer fields copied.
   */
  function RespondStatus(b: RespondBody): (s: HumanContactStatus)
    ensures s.requestedAt.Some? <==> b.requestedAt.Some? && b.requestedAt.value.text != ""
    ensures s.requestedAt.Some? ==> s.requestedAt.value == b.requestedAt.value.date
    ensures s.respondedAt == Some(DateOf(b.respondedAt))
    ensures s.response == b.response && s.responseOptionName == b.responseOptionName
  {
    HumanContactStatus(
      if b.requestedAt.Some? && b.requestedAt.value.text != "" then Some(b.requestedAt.value.date) else None,
      Some(DateOf(b.respondedAt)), b.response, b.responseOptionName)
  }

  /**
   * On a contact that has a status row and no answer yet, a respond with a valid
   * `responded_at` and a non-empty response succeeds, and the contact read back
   * carries exactly that time and that response.
   */
  lemma RespondRouteRecordsAnswer(t: Tables, id: string, b: RespondBody, ms: Time)
    requires WellFormed(t) && id in t.statuses && !Answered(Find(t, id).value)
    requires b.respondedAt.Some? && b.respondedAt.value.date == ValidDate(ms)
    requires b.response.Some? && b.response.value != ""
    ensures var s := RespondSpec(t, id, RespondStatus(b));
      && s.result.Ok?
      && s.result.value.status.Some?
      && s.result.value.status.value.respondedAt == Some(ValidDate(ms))
      && s.result.value.status.value.response == b.response
  {
    var status := RespondStatus(b);
    assert BindStatus(status).Ok?;
  }

  /** A respond body without `responded_at` gets 500 and writes nothing. */
  lemma MissingRespondedAtIsServerError(t: Tables, id: string, b: RespondBody)
    requires b.respondedAt.None?
    requires id in t.contacts && !Answered(Find(t, id).value)
    ensures RespondSpec(t, id, RespondStatus(b)).tables == t
    ensures ReplyWith(RespondSpec(t, id, RespondStatus(b)).result, 200).status == 500
  {
  }

  /** `POST /contact_requests`: 400 for a body the schema rejects, else the service's create answered with 201. */
  method CreateHumanContact(service: HumanContactService, body: Result<CreateRequest, seq<string>>, now: Time)
    returns (reply: Reply<HumanContact>)
    requires service.Valid()
    modifies service.repository, service.channelService
    ensures service.Valid()
    ensures body.Err? ==>
      && reply == ReplyWith(Err(ValidationError(body.error)), 201)
      && service.repository.State() == old(service.repository.State())
      && service.channelService.sent == old(service.channelService.sent)
    ensures body.Ok? ==>
      var hc := HumanContactOf(body.value, now);
      var s := CreateSpec(old(service.repository.State()), hc, now);
      && service.repository.State() == s.tables
      && reply == ReplyWith(s.result, 201)
      && service.channelService.sent
         == old(service.channelService.sent) + (if s.result.Ok? && hc.spec.channel.Some? then [HumanContactRequest(s.result.value)] else [])
  {
    if body.Err? {
      return ReplyWith(Err(ValidationError(body.error)), 201);
    }
    var r := service.Create(HumanContactOf(body.value, now), now);
    reply := ReplyWith(r, 201);
  }

  /** `GET /contact_requests/:call_id`. */
  method GetHumanContact(service: HumanContactService, id: string) returns (reply: Reply<HumanContact>)
    ensures reply == ReplyWith(GetSpec(service.repository.State(), id), 200)
  {
    var r := service.Get(id);
    reply := ReplyWith(r, 200);
  }

  /** `POST /agent/human_contacts/:call_id/respond`. */
  method RespondToHumanContact(service: HumanContactService, id: string, body: RespondBody) returns (reply: Reply<HumanContact>)
    requires service.Valid()
    modifies service.repository
    ensures service.Valid()
    ensures var s := RespondSpec(old(service.repository.State()), id, RespondStatus(body));
      service.repository.State() == s.tables && reply == ReplyWith(s.result, 200)
  {
    var r := service.Respond(id, RespondStatus(body));
    reply := ReplyWith(r, 200);
  }

  /** `POST /agent/human_contacts/:call_id/escalate_email`: the whole body is the escalation. */
  method EscalateHumanContact(service: HumanContactService, id: string, body: Json) returns (reply: Reply<HumanContact>)
    modifies service.channelService
    ensures reply == ReplyWith(GetSpec(service.repository.State(), id), 200)
    ensures service.channelService.sent == old(service.channelService.sent)
      + (if reply.body.EntityBody? then [HumanContactEscalation(reply.body.entity, body)] else [])
  {
    var r := service.EscalateEmail(id, body);
    reply := ReplyWith(r, 200);
  }
}
