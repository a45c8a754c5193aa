/**
 * The function-call routes: create (validated body, dates converted), get,
 * respond (status built from the raw body) and escalate_email.
 */
module FunctionCallRoutes {
  import opened Wrappers
  import opened Models
  import opened Errors
  import opened Http
  import opened FunctionCallStore
  import opened FunctionCalls
  import opened Channels

  /** A status in a validated create body; dates are valid ISO datetimes, here as milliseconds. */
  datatype StatusInput = StatusInput(
    requestedAt: Option<Time>,
    respondedAt: Option<Time>,
    approved: Option<bool>,
    comment: Option<string>,
    rejectOptionName: Option<string>,
    slackMessageTs: Option<string>)

  /** A body that passed the create schema. */
  datatype CreateRequest = CreateRequest(runId: string, callId: string, spec: FunctionCallSpec, status: Option<StatusInput>)

  /** The create route's status: `requested_at` defaults to now, `responded_at` only when given, the rest copied. */
  function CreatedStatus(s: StatusInput, now: Time): (r: FunctionCallStatus)
    ensures r.requestedAt == ValidDate(if s.requestedAt.Some? then s.requestedAt.value else now)
    ensures r.respondedAt.Some? <==> s.respondedAt.Some?
    ensures r.respondedAt.Some? ==> r.respondedAt.value == ValidDate(s.respondedAt.value)
    ensures r.approved == s.approved && r.comment == s.comment
    ensures r.rejectOptionName == s.rejectOptionName && r.slackMessageTs == s.slackMessageTs
  {
    FunctionCallStatus(
      ValidDate(if s.requestedAt.Some? then s.requestedAt.value else now),
      if s.respondedAt.Some? then Some(ValidDate(s.respondedAt.value)) else None,
      s.approved, s.comment, s.rejectOptionName, s.slackMessageTs)
  }

  /** The entity handed to the service: the body itself, with its status (if any) converted. */
  function FunctionCallOf(req: CreateRequest, now: Time): (fc: FunctionCall)
    ensures fc.runId == req.runId && fc.callId == req.callId && fc.spec == req.spec
    ensures fc.status.Some? <==> req.status.Some?
    ensures fc.status.Some? ==> fc.status.value == CreatedStatus(req.status.value, now)
  {
    FunctionCall(req.runId, req.callId, req.spec,
                 if req.status.Some? then Some(CreatedStatus(req.status.value, now)) else None)
  }

  /**
   * The fields the respond route reads from its (unvalidated) body. A date field
   * is its text and what `new Date(text)` makes of it.
   */
  datatype RespondBody = RespondBody(
    requestedAt: Option<DateText>,
    respondedAt: Option<DateText>,
    approved: Option<bool>,
    comment: Option<string>,
    rejectOptionName: Option<string>,
    slackMessageTs: Option<string>)

  /**
   * The respond route's status: both dates through `new Date(...)` (an absent one
   * is an invalid date), `approved` and `comment` copied, and nothing else: a
   * reject option or Slack timestamp in the body is not passed on.
   */
  function RespondStatus(b: RespondBody): (s: FunctionCallStatus)
    ensures s.requestedAt == DateOf(b.requestedAt)
    ensures s.respondedAt == Some(DateOf(b.respondedAt))
    ensures s.approved == b.approved && s.comment == b.comment
    ensures s.rejectOptionName.None? && s.slackMessageTs.None?
  {
    FunctionCallStatus(DateOf(b.requestedAt), Some(DateOf(b.respondedAt)), b.approved, b.comment, None, None)
  }

  /**
   * On a call that has a status row and no decision yet, a respond with a valid
   * `responded_at` succeeds, and the call read back carries that time and the
   * body's `approved` (false included).
   */
  lemma RespondRouteRecordsDecision(t: Tables, id: string, b: RespondBody, ms: Time)
    requires WellFormed(t) && id in t.statuses && !Decided(Find(t, id).value)
    requires b.respondedAt.Some? && b.respondedAt.value.date == ValidDate(ms)
    ensures var s := RespondSpec(t, id, RespondStatus(b));
      && s.result.Ok?
      && s.result.value.status.Some?
      && s.result.value.status.value.respondedAt == Some(ValidDate(ms))
      && s.result.value.status.value.approved == b.approved
  {
    var status := RespondStatus(b);
    assert BindStatus(status).Ok?;
  }

  /**
   * A respond body without `responded_at` makes an invalid date, which the
   * repository cannot serialise: the client gets 500 and nothing is written.
   */
  lemma MissingRespondedAtIsServerError(t: Tables, id: string, b: RespondBody)
    requires b.respondedAt.None?
    requires id in t.calls && !Decided(Find(t, id).value)
    ensures RespondSpec(t, id, RespondStatus(b)).tables == t
    ensures ReplyWith(RespondSpec(t, id, RespondStatus(b)).result, 200).status == 500
  {
  }

  /**
   * Whatever reject option or Slack message timestamp the respond body carries,
   * a successful respond leaves both columns NULL.
   */
  lemma RespondRouteDropsRejectOption(t: Tables, id: string, b: RespondBody)
    requires WellFormed(t) && id in t.statuses
    requires RespondSpec(t, id, RespondStatus(b)).result.Ok?
    ensures var row := RespondSpec(t, id, RespondStatus(b)).tables.statuses[id];
      row.rejectOptionName.None? && row.slackMessageTs.None?
  {
  }

  /** `POST /function_calls`: 400 for a body the schema rejects, else the service's create answered with 201. */
  method CreateFunctionCall(service: FunctionCallService, body: Result<CreateRequest, seq<string>>, now: Time)
    returns (reply: Reply<FunctionCall>)
    requires service.Valid()
    modifies service.repository, service.channelService
    ensures service.Valid()
    ensures body.Err? ==>
      && reply == ReplyWith(Err(ValidationError(body.error)), 201)
      && service.repository.State() == old(service.repository.State())
      && service.channelService.sent == old(service.channelService.sent)
    ensures body.Ok? ==>
      var fc := FunctionCallOf(body.value, now);
      var s := CreateSpec(old(service.repository.State()), fc, now);
      && service.repository.State() == s.tables
      && reply == ReplyWith(s.result, 201)
      && service.channelService.sent
         == old(service.channelService.sent) + (if s.result.Ok? && fc.spec.channel.Some? then [ApprovalRequest(s.result.value)] else [])
  {
    if body.Err? {
      return ReplyWith(Err(ValidationError(body.error)), 201);
    }
    var r := service.Create(FunctionCallOf(body.value, now), now);
    reply := ReplyWith(r, 201);
  }

  /** `GET /function_calls/:call_id`. */
  method GetFunctionCall(service: FunctionCallService, id: string) returns (reply: Reply<FunctionCall>)
    ensures reply == ReplyWith(GetSpec(service.repository.State(), id), 200)
  {
    var r := service.Get(id);
    reply := ReplyWith(r, 200);
  }

  /** `POST /agent/function_calls/:call_id/respond`. */
  method RespondToFunctionCall(service: FunctionCallService, id: string, body: RespondBody) returns (reply: Reply<FunctionCall>)
    requires service.Valid()
    modifies service.repository
    ensures service.Valid()
    ensures var s := RespondSpec(old(service.repository.State()), id, RespondStatus(body));
      service.repository.State() == s.tables && reply == ReplyWith(s.result, 200)
  {
    var r := service.Respond(id, RespondStatus(body));
    reply := ReplyWith(r, 200);
  }

  /** `POST /agent/function_calls/:call_id/escalate_email`: the whole body is the escalation. */
  method EscalateFunctionCall(service: FunctionCallService, id: string, body: Json) returns (reply: Reply<FunctionCall>)
    modifies service.channelService
    ensures reply == ReplyWith(GetSpec(service.repository.State(), id), 200)
    ensures service.channelService.sent == old(service.channelService.sent)
      + (if reply.body.EntityBody? then [FunctionCallEscalation(reply.body.entity, body)] else [])
  {
    var r := service.EscalateEmail(id, body);
    reply := ReplyWith(r, 200);
  }
}
