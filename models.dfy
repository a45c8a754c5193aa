/**
 * The entities of the approval broker: function calls awaiting approval,
 * human contacts awaiting an answer, and the values embedded in them.
 * Field names follow the API's JSON keys in lowerCamelCase.
 */
module Models {
  import opened Wrappers

  /** An instant in milliseconds since the epoch; used for Date values and stored timestamps. */
  type Time = int

  /** A JavaScript Date: a valid instant, or the "Invalid Date" that `new Date` makes of bad input. */
  datatype Date = ValidDate(ms: Time) | InvalidDate

  /**
   * A date string taken from a request body, together with what `new Date(text)`
   * makes of it (date parsing itself is not modelled).
   */
  datatype DateText = DateText(text: string, date: Date)

  /** What `new Date(x)` yields for a body field that may be missing: `new Date(undefined)` is invalid. */
  function DateOf(x: Option<DateText>): Date
  {
    if x.Some? then x.value.date else InvalidDate
  }

  /** Arbitrary JSON, for `kwargs`, `state` and escalation payloads. */
  datatype Json =
    | JNull
    | JBool(b: bool)
    | JNumber(n: int)
    | JString(s: string)
    | JArray(items: seq<Json>)
    | JObject(fields: map<string, Json>)

  datatype SlackContactChannel = SlackContactChannel(
    channelOrUserId: string,
    contextAboutChannelOrUser: Option<string>,
    botToken: Option<string>,
    experimentalSlackBlocks: Option<bool>,
    threadTs: Option<string>)

  datatype EmailContactChannel = EmailContactChannel(address: string, contextAboutUser: Option<string>)

  /** The SMS and WhatsApp variants carry the same fields. */
  datatype PhoneContactChannel = PhoneContactChannel(phoneNumber: string, contextAboutUser: Option<string>)

  /** Where a human is notified; several variants may be set, only Slack is wired to a notifier. */
  datatype ContactChannel = ContactChannel(
    slack: Option<SlackContactChannel>,
    email: Option<EmailContactChannel>,
    sms: Option<PhoneContactChannel>,
    whatsapp: Option<PhoneContactChannel>)

  /** A named reject option of a function call, or a named answer of a human contact. */
  datatype ResponseOption = ResponseOption(
    name: string,
    title: Option<string>,
    description: Option<string>,
    promptFill: Option<string>,
    interactive: Option<bool>)

  datatype FunctionCallSpec = FunctionCallSpec(
    fn: string,
    kwargs: map<string, Json>,
    channel: Option<ContactChannel>,
    rejectOptions: Option<seq<ResponseOption>>,
    state: Option<map<string, Json>>)

  datatype FunctionCallStatus = FunctionCallStatus(
    requestedAt: Date,
    respondedAt: Option<Date>,
    approved: Option<bool>,
    comment: Option<string>,
    rejectOptionName: Option<string>,
    slackMessageTs: Option<string>)

  datatype FunctionCall = FunctionCall(
    runId: string,
    callId: string,
    spec: FunctionCallSpec,
    status: Option<FunctionCallStatus>)

  datatype HumanContactSpec = HumanContactSpec(
    msg: string,
    subject: Option<string>,
    channel: Option<ContactChannel>,
    responseOptions: Option<seq<ResponseOption>>,
    state: Option<map<string, Json>>)

  datatype HumanContactStatus = HumanContactStatus(
    requestedAt: Option<Date>,
    respondedAt: Option<Date>,
    response: Option<string>,
    responseOptionName: Option<string>)

  datatype HumanContact = HumanContact(
    runId: string,
    callId: string,
    spec: HumanContactSpec,
    status: Option<HumanContactStatus>)

  /** JavaScript's `s || null` (and `s || undefined`) on an optional string. */
  function OrNull(s: Option<string>): (r: Option<string>)
    ensures r.Some? <==> s.Some? && s.value != ""
    ensures r.Some? ==> r == s
  {
    if s.Some? && s.value != "" then s else None
  }

  /** A function call "has been decided" when its status carries a `respondedAt` (any Date object is truthy). */
  predicate Decided(fc: FunctionCall)
  {
    fc.status.Some? && fc.status.value.respondedAt.Some?
  }

  /** A human contact "has a response" when its status carries a `respondedAt`. */
  predicate Answered(hc: HumanContact)
  {
    hc.status.Some? && hc.status.value.respondedAt.Some?
  }
}
