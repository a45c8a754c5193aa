/**
 * The Slack interactions endpoint: signature check, payload extraction, the
 * acknowledgement, and the button handlers that turn a click into a
 * `respond` on a function call or a human contact.
 */
module SlackInteractions {
  import opened Wrappers
  import opened Models
  import opened Errors
  import opened JsStrings
  import opened Digests
  import opened SlackSignature
  import FunctionCallStore
  import HumanContactStore
  import FunctionCalls
  import HumanContacts

  /** A button value `action:call_id` or `action:call_id:option`, split at its first two colons. */
  datatype ActionValue = ActionValue(actionType: string, callId: string, optionName: string)

  /** Splits at `:`; the option is the rest rejoined with `:`, so it may itself hold colons. */
  function DecodeActionValue(value: string): (r: Option<ActionValue>)
    ensures r.None? <==> ':' !in value
    ensures r.Some? ==> ':' !in r.value.actionType && ':' !in r.value.callId
  {
    var parts := Split(value, ':');
    SplitHasTwoPieces(value, ':');
    if |parts| < 2 then None
    else Some(ActionValue(parts[0], parts[1], Join(parts[2..], ':')))
  }

  /** The button value for an action; without an option it is `action:call_id`. */
  function EncodeActionValue(a: ActionValue): string
  {
    a.actionType + ":" + a.callId + (if a.optionName == "" then "" else ":" + a.optionName)
  }

  /** Decoding reads back every value whose action type and call id are colon-free. */
  lemma {:induction false} DecodeEncode(a: ActionValue)
    requires ':' !in a.actionType && ':' !in a.callId
    ensures DecodeActionValue(EncodeActionValue(a)) == Some(a)
  {
    var v := EncodeActionValue(a);
    if a.optionName == "" {
      assert v == a.actionType + [':'] + a.callId;
      SplitAfterPiece(a.actionType, a.callId, ':');
      SplitWithoutSeparator(a.callId, ':');
      assert Split(v, ':') == [a.actionType, a.callId];
    } else {
      assert v == a.actionType + [':'] + (a.callId + [':'] + a.optionName);
      SplitAfterPiece(a.actionType, a.callId + [':'] + a.optionName, ':');
      SplitAfterPiece(a.callId, a.optionName, ':');
      var parts := Split(v, ':');
      assert parts == [a.actionType, a.callId] + Split(a.optionName, ':');
      assert parts[2..] == Split(a.optionName, ':');
      JoinSplit(a.optionName, ':');
    }
  }

  /** Decoding loses nothing: the value is the three fields put back together. */
  lemma {:induction false} DecodeRecoversValue(value: string)
    requires DecodeActionValue(value).Some?
    ensures var a := DecodeActionValue(value).value;
      || (value == a.actionType + ":" + a.callId && a.optionName == "")
      || value == a.actionType + ":" + a.callId + ":" + a.optionName
  {
    var parts := Split(value, ':');
    JoinSplit(value, ':');
    assert |parts| >= 2;
    assert parts[1..][1..] == parts[2..];
    if |parts| > 2 {
      assert Join(parts[1..], ':') == parts[1] + [':'] + Join(parts[2..], ':');
    } else {
      assert parts[2..] == [];
    }
  }

  /** What a click asks for, by the action type of its value. */
  datatype SlackCommand =
    | Approve(callId: string)
    | Deny(callId: string)
    | Reject(callId: string, optionName: string)
    | RespondWith(callId: string, optionName: string)
    | UnknownAction(actionType: string)

  function CommandOf(a: ActionValue): (c: SlackCommand)
    ensures c.UnknownAction? <==> a.actionType !in ["approve", "deny", "reject", "respond"]
    ensures c.UnknownAction? ==> c.actionType == a.actionType
    ensures !c.UnknownAction? ==> c.callId == a.callId
    ensures c.Reject? || c.RespondWith? ==> c.optionName == a.optionName
    ensures c.Approve? <==> a.actionType == "approve"
    ensures c.Deny? <==> a.actionType == "deny"
    ensures c.Reject? <==> a.actionType == "reject"
    ensures c.RespondWith? <==> a.actionType == "respond"
  {
    if a.actionType == "approve" then Approve(a.callId)
    else if a.actionType == "deny" then Deny(a.callId)
    else if a.actionType == "reject" then Reject(a.callId, a.optionName)
    else if a.actionType == "respond" then RespondWith(a.callId, a.optionName)
    else UnknownAction(a.actionType)
  }

  datatype SlackUser = SlackUser(id: string, username: string)
  datatype SlackAction = SlackAction(actionId: string, value: string)

  /** The parsed `payload`: its `type`, its `actions` and the clicking `user`. */
  datatype InteractionPayload = InteractionPayload(kind: Option<string>, actions: Option<seq<SlackAction>>, user: SlackUser)

  datatype Interaction =
    | NotABlockAction
    | MalformedValue(value: string)
    | Command(command: SlackCommand)

  /** Only block actions with at least one action are handled, and only their first action. */
  function ParseInteraction(p: InteractionPayload): (r: Interaction)
    ensures r.NotABlockAction? <==> p.kind != Some("block_actions") || p.actions.None? || |p.actions.value| == 0
    ensures r.MalformedValue? <==> !r.NotABlockAction? && ':' !in p.actions.value[0].value
    ensures r.MalformedValue? ==> r.value == p.actions.value[0].value
    ensures r.Command? ==> r.command == CommandOf(DecodeActionValue(p.actions.value[0].value).value)
  {
    if p.kind != Some("block_actions") || p.actions.None? || |p.actions.value| == 0 then NotABlockAction
    else
      var value := p.actions.value[0].value;
      match DecodeActionValue(value)
      case None => MalformedValue(value)
      case Some(a) => Command(CommandOf(a))
  }

  /** The three buttons that decide a function call. */
  predicate IsDecision(c: SlackCommand)
  {
    c.Approve? || c.Deny? || c.Reject?
  }

  /**
   * The status a decision button writes: requested and responded now, `approved`
   * exactly for approve, a reject option only for reject, and a comment naming the user.
   */
  function ApprovalStatus(c: SlackCommand, user: SlackUser, now: Time): (s: FunctionCallStatus)
    requires IsDecision(c)
    ensures s.requestedAt == ValidDate(now) && s.respondedAt == Some(ValidDate(now))
    ensures s.approved == Some(c.Approve?)
    ensures s.rejectOptionName == (if c.Reject? then Some(c.optionName) else None)
    ensures s.slackMessageTs.None?
    ensures c.Approve? ==> s.comment == Some("Approved by @" + user.username + " via Slack")
    ensures c.Deny? ==> s.comment == Some("Denied by @" + user.username + " via Slack")
    ensures c.Reject? ==> s.comment == Some("Rejected (" + c.optionName + ") by @" + user.username + " via Slack")
  {
    match c
    case Approve(_) =>
      FunctionCallStatus(ValidDate(now), Some(ValidDate(now)), Some(true),
                         Some("Approved by @" + user.username + " via Slack"), None, None)
    case Deny(_) =>
      FunctionCallStatus(ValidDate(now), Some(ValidDate(now)), Some(false),
                         Some("Denied by @" + user.username + " via Slack"), None, None)
    case Reject(_, option) =>
      FunctionCallStatus(ValidDate(now), Some(ValidDate(now)), Some(false),
                         Some("Rejected (" + option + ") by @" + user.username + " via Slack"), Some(option), None)
  }

  /** `options.find(opt => opt.name === name)`: the first option with that name. */
  function FindOption(options: seq<ResponseOption>, name: string): (r: Option<ResponseOption>)
    ensures r.None? <==> forall i :: 0 <= i < |options| ==> options[i].name != name
    ensures r.Some? ==> r.value.name == name
    ensures r.Some? ==>
      exists i :: (0 <= i < |options| && options[i] == r.value && forall j :: 0 <= j < i ==> options[j].name != name)
  {
    if options == [] then None
    else if options[0].name == name then Some(options[0])
    else
      var r := FindOption(options[1..], name);
      assert forall i :: 1 <= i < |options| ==> options[i] == options[1..][i - 1];
      r
  }

  /** `responseOption?.title || optionName`: a non-empty title of the chosen option, else its name. */
  function ResponseText(options: Option<seq<ResponseOption>>, optionName: string): (text: string)
    ensures options.Some? && FindOption(options.value, optionName).Some?
      && OrNull(FindOption(options.value, optionName).value.title).Some?
      ==> text == FindOption(options.value, optionName).value.title.value
    ensures options.None? || FindOption(options.value, optionName).None?
      || OrNull(FindOption(options.value, optionName).value.title).None?
      ==> text == optionName
  {
    if options.None? then optionName
    else
      match FindOption(options.value, optionName)
      case None => optionName
      case Some(o) => if OrNull(o.title).Some? then o.title.value else optionName
  }

  /** The status a `respond` button writes on a human contact. */
  function ContactStatus(options: Option<seq<ResponseOption>>, optionName: string, user: SlackUser, now: Time)
    : (s: HumanContactStatus)
    ensures s.requestedAt == Some(ValidDate(now)) && s.respondedAt == Some(ValidDate(now))
    ensures s.response == Some(ResponseText(options, optionName) + " (by @" + user.username + ")")
    ensures s.responseOptionName == Some(optionName)
  {
    HumanContactStatus(Some(ValidDate(now)), Some(ValidDate(now)),
                       Some(ResponseText(options, optionName) + " (by @" + user.username + ")"), Some(optionName))
  }

  /** How an interaction ended; errors of the service calls are caught and only logged. */
  datatype Handled =
    | Ignored
    | Malformed(value: string)
    | UnknownType(actionType: string)
    | CallResponded(callId: string, callResult: Result<FunctionCall, AppError>)
    | ContactResponded(contactId: string, contactResult: Result<HumanContact, AppError>)

  /** Both tables after an interaction, and how it ended. */
  datatype Effect = Effect(calls: FunctionCallStore.Tables, contacts: HumanContactStore.Tables, handled: Handled)

  /**
   * `handleInteraction`: a decision button responds on the function call, a
   * `respond` button reads the contact (404 when unknown) and responds on it with
   * the option's response text; anything else writes nothing.
   */
  function InteractionSpec(p: InteractionPayload, now: Time, calls: FunctionCallStore.Tables, contacts: HumanContactStore.Tables)
    : (e: Effect)
    ensures ParseInteraction(p).NotABlockAction? ==> e == Effect(calls, contacts, Ignored)
    ensures ParseInteraction(p).MalformedValue? ==> e == Effect(calls, contacts, Malformed(ParseInteraction(p).value))
    ensures ParseInteraction(p).Command? && ParseInteraction(p).command.UnknownAction? ==>
      e == Effect(calls, contacts, UnknownType(ParseInteraction(p).command.actionType))
    ensures !(ParseInteraction(p).Command? && ParseInteraction(p).command.RespondWith?) ==> e.contacts == contacts
    ensures !(ParseInteraction(p).Command? && IsDecision(ParseInteraction(p).command)) ==> e.calls == calls
    ensures ParseInteraction(p).Command? && IsDecision(ParseInteraction(p).command) ==>
      var c := ParseInteraction(p).command;
      && e.handled.CallResponded? && e.handled.callId == c.callId
      && FunctionCalls.Step(e.calls, e.handled.callResult) == FunctionCalls.RespondSpec(calls, c.callId, ApprovalStatus(c, p.user, now))
    ensures ParseInteraction(p).Command? && ParseInteraction(p).command.RespondWith? ==>
      var c := ParseInteraction(p).command;
      && e.handled.ContactResponded? && e.handled.contactId == c.callId
      && (c.callId !in contacts.contacts ==> e == Effect(calls, contacts, ContactResponded(c.callId, Err(HumanContacts.NotFound(c.callId)))))
      && (c.callId in contacts.contacts ==>
            var options := HumanContactStore.Find(contacts, c.callId).value.spec.responseOptions;
            HumanContacts.Step(e.contacts, e.handled.contactResult)
              == HumanContacts.RespondSpec(contacts, c.callId, ContactStatus(options, c.optionName, p.user, now)))
  {
    match ParseInteraction(p)
    case NotABlockAction => Effect(calls, contacts, Ignored)
    case MalformedValue(v) => Effect(calls, contacts, Malformed(v))
    case Command(c) =>
      match c
      case UnknownAction(t) => Effect(calls, contacts, UnknownType(t))
      case RespondWith(id, option) =>
        (match HumanContacts.GetSpec(contacts, id)
         case Err(e) => Effect(calls, contacts, ContactResponded(id, Err(e)))
         case Ok(hc) =>
           var step := HumanContacts.RespondSpec(contacts, id, ContactStatus(hc.spec.responseOptions, option, p.user, now));
           Effect(calls, step.tables, ContactResponded(id, step.result)))
      case _ =>
        var step := FunctionCalls.RespondSpec(calls, c.callId, ApprovalStatus(c, p.user, now));
        Effect(step.tables, contacts, CallResponded(c.callId, step.result))
  }

  /**
   * Approving through Slack records the decision on a call that has a status row and
   * no decision yet, and every later click on any decision button is refused with 409.
   */
  lemma {:induction false} ApproveThenClickAgain(p: InteractionPayload, q: InteractionPayload, now: Time, later: Time,
                                                 calls: FunctionCallStore.Tables, contacts: HumanContactStore.Tables)
    requires FunctionCallStore.WellFormed(calls)
    requires ParseInteraction(p).Command? && ParseInteraction(p).command.Approve?
    requires var id := ParseInteraction(p).command.callId;
      id in calls.statuses && !Decided(FunctionCallStore.Find(calls, id).value)
    requires ParseInteraction(q).Command? && IsDecision(ParseInteraction(q).command)
    requires ParseInteraction(q).command.callId == ParseInteraction(p).command.callId
    ensures var id := ParseInteraction(p).command.callId;
      var first := InteractionSpec(p, now, calls, contacts);
      && first.calls.statuses[id].approved == Some(true)
      && first.calls.statuses[id].respondedAt == Some(now)
      && first.handled.CallResponded? && first.handled.callResult.Ok?
      && InteractionSpec(q, later, first.calls, first.contacts)
         == Effect(first.calls, first.contacts, CallResponded(id, Err(FunctionCalls.AlreadyDecided)))
  {
    var id := ParseInteraction(p).command.callId;
    var c := ParseInteraction(p).command;
    var status := ApprovalStatus(c, p.user, now);
    assert FunctionCallStore.BindStatus(status).Ok?;
    var first := InteractionSpec(p, now, calls, contacts);
    FunctionCalls.RespondAtMostOnce(calls, id, status, ApprovalStatus(ParseInteraction(q).command, q.user, later));
  }

  /**
   * A `reject` button without an option (`reject:<id>`) stores no reject option
   * name: the empty option becomes NULL in the repository, while the comment still
   * reads "Rejected () by …".
   */
  lemma EmptyRejectOptionIsDropped(user: SlackUser, now: Time, calls: FunctionCallStore.Tables, id: string)
    requires FunctionCallStore.WellFormed(calls) && ':' !in id
    requires id in calls.statuses && !Decided(FunctionCallStore.Find(calls, id).value)
    ensures var p := InteractionPayload(Some("block_actions"), Some([SlackAction("reject", "reject:" + id)]), user);
      var e := InteractionSpec(p, now, calls, HumanContactStore.Tables(map[], map[]));
      && e.calls.statuses[id].rejectOptionName.None?
      && e.calls.statuses[id].comment == Some("Rejected () by @" + user.username + " via Slack")
  {
    DecodeEncode(ActionValue("reject", id, ""));
    assert EncodeActionValue(ActionValue("reject", id, "")) == "reject:" + id;
    var p := InteractionPayload(Some("block_actions"), Some([SlackAction("reject", "reject:" + id)]), user);
    assert ParseInteraction(p) == Command(Reject(id, ""));
    var status := ApprovalStatus(Reject(id, ""), user, now);
    assert FunctionCallStore.BindStatus(status).Ok?;
    assert FunctionCallStore.BindStatus(status).value.rejectOptionName.None?;
    assert "Rejected (" + "" + ") by @" + user.username + " via Slack" == "Rejected () by @" + user.username + " via Slack";
    assert FunctionCallStore.BindStatus(status).value.comment == Some("Rejected () by @" + user.username + " via Slack");
  }

  /** The parsed request body's `payload` field. */
  datatype PayloadField =
    | NoPayload                                 // absent, or a falsy value
    | UnparseablePayload                        // a string `JSON.parse` rejects
    | PayloadValue(payload: InteractionPayload)

  datatype SlackBody =
    | Acknowledged                              // `{ ok: true }`
    | SlackError(error: string)                 // `{ error: ... }`
    | HandlerError(body: ErrorBody)             // from the error handler

  datatype SlackReply = SlackReply(status: int, body: SlackBody)

  const InvalidSignatureReply := SlackReply(401, SlackError("Invalid signature"))
  const NoPayloadReply := SlackReply(400, SlackError("No payload provided"))
  const AcknowledgedReply := SlackReply(200, Acknowledged)
  const MalformedPayloadJson := InternalFailure("Unexpected token in JSON")

  function ErrorToReply(e: AppError): (r: SlackReply)
    ensures r.status == HandleError(e).status && r.body == HandlerError(HandleError(e).body)
  {
    SlackReply(HandleError(e).status, HandlerError(HandleError(e).body))
  }

  /** The route's whole effect: both tables, the reply sent, and the interaction if it was handled. */
  datatype RouteEffect = RouteEffect(
    calls: FunctionCallStore.Tables,
    contacts: HumanContactStore.Tables,
    reply: SlackReply,
    handled: Option<Handled>)

  /**
   * `POST /slack/interactions`: an unverified request gets 401 and a throwing check
   * 500, both before the payload is looked at; a missing payload gets 400 and an
   * unparseable one 500; otherwise the request is acknowledged with 200 and then handled.
   */
  function RouteSpec(secret: Option<string>, headers: SlackHeaders, rawBody: string, payload: PayloadField, nowMs: Time,
                     hmac: Hmac, calls: FunctionCallStore.Tables, contacts: HumanContactStore.Tables)
    : (e: RouteEffect)
    ensures e.handled.None? ==> e.calls == calls && e.contacts == contacts
    ensures e.handled.Some? <==> VerifySlackSignature(secret, headers, rawBody, nowMs, hmac) == Ok(true) && payload.PayloadValue?
    ensures e.handled.Some? ==>
      && e.reply == AcknowledgedReply
      && Effect(e.calls, e.contacts, e.handled.value) == InteractionSpec(payload.payload, nowMs, calls, contacts)
    ensures VerifySlackSignature(secret, headers, rawBody, nowMs, hmac) == Ok(false) ==> e.reply == InvalidSignatureReply
    ensures VerifySlackSignature(secret, headers, rawBody, nowMs, hmac).Err? ==>
      e.reply == ErrorToReply(VerifySlackSignature(secret, headers, rawBody, nowMs, hmac).error)
    ensures VerifySlackSignature(secret, headers, rawBody, nowMs, hmac) == Ok(true) && payload.NoPayload? ==> e.reply == NoPayloadReply
    ensures VerifySlackSignature(secret, headers, rawBody, nowMs, hmac) == Ok(true) && payload.UnparseablePayload? ==>
      e.reply == ErrorToReply(MalformedPayloadJson)
  {
    match VerifySlackSignature(secret, headers, rawBody, nowMs, hmac)
    case Err(err) => RouteEffect(calls, contacts, ErrorToReply(err), None)
    case Ok(verified) =>
      if !verified then RouteEffect(calls, contacts, InvalidSignatureReply, None)
      else
        match payload
        case NoPayload => RouteEffect(calls, contacts, NoPayloadReply, None)
        case UnparseablePayload => RouteEffect(calls, contacts, ErrorToReply(MalformedPayloadJson), None)
        case PayloadValue(p) =>
          var e := InteractionSpec(p, nowMs, calls, contacts);
          RouteEffect(e.calls, e.contacts, AcknowledgedReply, Some(e.handled))
  }

  /** With a signing secret set, a request whose signature or timestamp header is missing changes nothing and gets 401. */
  lemma UnsignedRequestChangesNothing(secret: string, rawBody: string, payload: PayloadField, nowMs: Time, hmac: Hmac,
                                      calls: FunctionCallStore.Tables, contacts: HumanContactStore.Tables, timestamp: Option<string>)
    requires secret != ""
    ensures RouteSpec(Some(secret), SlackHeaders(None, timestamp), rawBody, payload, nowMs, hmac, calls, contacts)
      == RouteEffect(calls, contacts, InvalidSignatureReply, None)
  {
  }

  /**
   * As configured, no signing secret is set: whatever the headers say, every request
   * with a payload is acknowledged and acted on exactly as a verified one.
   */
  lemma AsConfiguredHeadersAreIgnored(h1: SlackHeaders, h2: SlackHeaders, rawBody: string, payload: PayloadField, nowMs: Time,
                                      hmac: Hmac, calls: FunctionCallStore.Tables, contacts: HumanContactStore.Tables)
    ensures RouteSpec(ConfiguredSigningSecret, h1, rawBody, payload, nowMs, hmac, calls, contacts)
      == RouteSpec(ConfiguredSigningSecret, h2, rawBody, payload, nowMs, hmac, calls, contacts)
  {
    AsConfiguredEveryRequestPasses(h1, rawBody, nowMs, hmac);
    AsConfiguredEveryRequestPasses(h2, rawBody, nowMs, hmac);
  }

  /**
   * `handleInteraction` over the two services. Exceptions of the service calls
   * are caught and reported in the result instead of logged.
   */
  method HandleInteraction(p: InteractionPayload, now: Time,
                           callService: FunctionCalls.FunctionCallService, contactService: HumanContacts.HumanContactService)
    returns (h: Handled)
    requires callService.Valid() && contactService.Valid()
    modifies callService.repository, contactService.repository
    ensures callService.Valid() && contactService.Valid()
    ensures Effect(callService.repository.State(), contactService.repository.State(), h)
      == InteractionSpec(p, now, old(callService.repository.State()), old(contactService.repository.State()))
  {
    if p.kind != Some("block_actions") || p.actions.None? || |p.actions.value| == 0 {
      return Ignored;
    }
    var value := p.actions.value[0].value;
    var decoded := DecodeActionValue(value);
    if decoded.None? {
      return Malformed(value);
    }
    var command := CommandOf(decoded.value);
    match command {
      case UnknownAction(t) =>
        h := UnknownType(t);
      case RespondWith(id, option) =>
        var contact := contactService.Get(id);
        if contact.Err? {
          return ContactResponded(id, Err(contact.error));
        }
        var status := ContactStatus(contact.value.spec.responseOptions, option, p.user, now);
        var r := contactService.Respond(id, status);
        h := ContactResponded(id, r);
      case _ =>
        var r := callService.Respond(command.callId, ApprovalStatus(command, p.user, now));
        h := CallResponded(command.callId, r);
    }
  }

  /**
   * The route handler. The reply is decided, and sent, before the interaction is
   * handled; `handled` is what the handling then did.
   */
  method InteractionsRoute(secret: Option<string>, headers: SlackHeaders, rawBody: string, payload: PayloadField, nowMs: Time,
                           hmac: Hmac, callService: FunctionCalls.FunctionCallService,
                           contactService: HumanContacts.HumanContactService)
    returns (reply: SlackReply, handled: Option<Handled>)
    requires callService.Valid() && contactService.Valid()
    modifies callService.repository, contactService.repository
    ensures callService.Valid() && contactService.Valid()
    ensures RouteEffect(callService.repository.State(), contactService.repository.State(), reply, handled)
      == RouteSpec(secret, headers, rawBody, payload, nowMs, hmac,
                   old(callService.repository.State()), old(contactService.repository.State()))
  {
    var verified := VerifySlackSignature(secret, headers, rawBody, nowMs, hmac);
    if verified.Err? {
      return ErrorToReply(verified.error), None;
    }
    if !verified.value {
      return InvalidSignatureReply, None;
    }
    if payload.NoPayload? {
      return NoPayloadReply, None;
    }
    if payload.UnparseablePayload? {
      return ErrorToReply(MalformedPayloadJson), None;
    }
    reply := AcknowledgedReply;
    var h := HandleInteraction(payload.payload, nowMs, callService, contactService);
    handled := Some(h);
  }
}
