# humanlayer-api: approvals, human contacts, Slack interactions and API keys

This project models the core of the humanlayer-api server in Dafny. In that server an
agent registers a *function call* that a human must approve, deny or reject, or a
*human contact* that a human must answer. A human answers through the `respond` routes
or by clicking a Slack button. Bearer API keys guard the agent routes.

The model covers these parts:

- **Repositories** (`FunctionCallStore`, `HumanContactStore`). Each works over two
  tables: the entity table and its status table. The tables are `map`s held in the
  fields of a repository class. Pure functions define `create`, `findById` (a LEFT JOIN)
  and `updateStatus` (a full overwrite of the mutable status columns that throws on an
  invalid `responded_at`). The class methods are proved equal to those functions.
- **Services** (`FunctionCalls`, `HumanContacts`). They implement `create` (with a default
  status), `get`, `respond` (the read-check-write guard: 404, then 409 once `responded_at`
  is set) and `escalateEmail`. Notifications go to a channel modelled as an outbox of
  sent notifications (`Channels`).
- **Routes** (`FunctionCallRoutes`, `ContactRoutes`). These cover request bodies turned
  into entities and statuses, the resulting status codes, and the error middleware
  (`Errors.HandleError`, `Http.ReplyWith`).
- **Slack** (`SlackSignature`, `SlackInteractions`). The signature check has a replay
  window of 300 seconds, JavaScript `parseInt`, an HMAC over `v0:<ts>:<body>` and the
  `timingSafeEqual` byte-length rule. The interactions route models decoding of the
  `action:call_id[:option]` button value, dispatch, the status each button writes, and
  acknowledging before handling.
- **Auth** (`Auth`). This is the bearer-token middleware over the `api_keys` table. It
  stamps `last_used_at` on a match. It also covers `hashApiKey` and `createApiKey`.
- **Supporting modules.** JavaScript string built-ins (`JsStrings`: `split`/`join`,
  `parseInt`, UTF-8 length) and lower-case hex (`Digests`).

The model follows the code as written. The proofs establish these facts about it:

- **No status row is created through the service.** The service's `create` always
  supplies a status, so the repository passes it to `updateStatus`. That UPDATE finds no
  status row, and the branch that inserts one is never taken. A call or contact created
  through the service is therefore stored without a status row and reads back with no
  status. `respond` on it never writes and never answers 409
  (`FunctionCalls.CreateStoresNoStatus`, `FunctionCalls.RespondAfterCreateNeverConflicts`,
  `HumanContacts.CreateStoresNoStatus`). The at-most-once guarantee holds only for rows
  that do have a status row (`FunctionCalls.RespondAtMostOnce`). The repository's own
  tests expect the opposite, so this is recorded under "## Findings" together with the
  evidently intended `create`, which inserts the status row.
- **`updateStatus` overwrites; it does not patch.** Every mutable status column is
  overwritten, and an absent field becomes NULL. A sparse patch would keep the prior
  columns; the code overwrites them (`FunctionCalls.RespondIsNotASparsePatch`).
- **Slack signatures are never checked as configured.** The configuration defines no Slack
  signing secret, so verification always takes its bypass
  (`SlackSignature.AsConfiguredEveryRequestPasses`).
- **A non-numeric timestamp never expires.** When `parseInt` yields NaN, the replay-window
  test never fires (`SlackSignature.NonNumericTimestampNeverExpires`).
- **The Slack route acknowledges before it handles.** The 200 is sent before the
  interaction handler runs, so the reply never depends on the handling. Errors in
  handling are caught and are not seen by the client (`SlackInteractions.RouteSpec`).

## Model

| member | source | states |
|---|---|---|
| Models.OrNull | humanlayer-api/src/db/repositories/functionCallRepository.ts:75-77 | `s \|\| null` is absent exactly for an absent or empty string, otherwise the string itself |
| Errors.HandleError | humanlayer-api/src/middleware/errorHandler.ts:15-46 | ApiError answers with its own status, code and message; a validation error gives 400 VALIDATION_ERROR with its issues as details; anything else gives 500 INTERNAL_ERROR with a fixed message; details appear only for validation errors |
| Errors.InternalFailuresLookAlike | humanlayer-api/src/middleware/errorHandler.ts:40-45 | two unexpected errors give the client identical replies, whatever their messages |
| Http.ReplyWith | humanlayer-api/src/routes/functionCalls.ts:35-39 | a result is sent with the route's own status, and an error goes through the error handler; an entity is in the body exactly on success |
| FunctionCallStore.SpecRow | humanlayer-api/src/db/repositories/functionCallRepository.ts:8-21 | each optional spec column is NULL exactly when the field is absent, and reading the row back gives the spec |
| FunctionCallStore.StatusOf | humanlayer-api/src/db/repositories/functionCallRepository.ts:93-102 | no status exactly when `requested_at` is NULL; otherwise dates are read back, empty strings read as absent, `approved` is kept |
| FunctionCallStore.Find | humanlayer-api/src/db/repositories/functionCallRepository.ts:36-58 | null exactly for an unknown id; otherwise the row's ids and spec, and a status exactly when a status row with `requested_at` exists |
| FunctionCallStore.BindStatus | humanlayer-api/src/db/repositories/functionCallRepository.ts:72-79 | throws "Invalid time value" exactly when `responded_at` is an invalid date; otherwise binds the time, and each string is bound only when non-empty |
| FunctionCallStore.ApplyColumns | humanlayer-api/src/db/repositories/functionCallRepository.ts:61-70 | the UPDATE overwrites all five mutable columns and keeps `requested_at` |
| FunctionCallStore.UpdateStatusTables | humanlayer-api/src/db/repositories/functionCallRepository.ts:60-80 | throws before writing exactly when binding throws; rewrites only the row of `id`; changes nothing when `id` has no status row; keeps the schema invariants |
| FunctionCallStore.CreateTables | humanlayer-api/src/db/repositories/functionCallRepository.ts:7-34 | a duplicate id throws and writes nothing; otherwise the call row is inserted, plus a `requested_at`-only status row when no status was given; a given status inserts no status row |
| FunctionCallStore.WriteThenRead | humanlayer-api/src/db/repositories/functionCallRepository.ts:60-104 | writing a status and reading it back gives that status with the stored `requested_at` and empty strings as absent |
| FunctionCallStore.RowToFunctionCall | humanlayer-api/src/db/repositories/functionCallRepository.ts:82-104 | the entity carries the row's ids and spec, and a status exactly when `requested_at` is set, read back by `StatusOf` |
| FunctionCallStore.FunctionCallRepository.FindById | humanlayer-api/src/db/repositories/functionCallRepository.ts:36-58 | null exactly for an id without a call row; otherwise the stored spec and run id, with a status exactly when its status row has `requested_at` |
| FunctionCallStore.CreateThenFind | humanlayer-api/src/db/repositories/functionCallRepository.ts:7-58 | after a create, `findById` returns the call with its ids and spec unchanged |
| FunctionCallStore.FunctionCallRepository.UpdateStatus | humanlayer-api/src/db/repositories/functionCallRepository.ts:60-80 | the new tables are `UpdateStatusTables` of the old ones, and nothing changes on a throw |
| FunctionCallStore.FunctionCallRepository.Create | humanlayer-api/src/db/repositories/functionCallRepository.ts:7-34 | the new tables and the outcome are `CreateTables` of the old tables; the schema invariant is kept |
| HumanContactStore.SpecRow | humanlayer-api/src/db/repositories/humanContactRepository.ts:13-21 | optional columns are NULL exactly when absent, and an empty subject is stored as NULL; reading the row back gives the spec with an empty subject as absent |
| HumanContactStore.StatusOf | humanlayer-api/src/db/repositories/humanContactRepository.ts:86-93 | no status exactly when `requested_at` is NULL; otherwise dates are read back and empty strings read as absent |
| HumanContactStore.Find | humanlayer-api/src/db/repositories/humanContactRepository.ts:35-55 | null exactly for an unknown id; otherwise the row's ids and spec, and a status exactly when a status row with `requested_at` exists |
| HumanContactStore.BindStatus | humanlayer-api/src/db/repositories/humanContactRepository.ts:67-72 | throws exactly on an invalid `responded_at`; each string is bound only when non-empty |
| HumanContactStore.ApplyColumns | humanlayer-api/src/db/repositories/humanContactRepository.ts:58-65 | the UPDATE overwrites the three mutable columns and keeps `requested_at` |
| HumanContactStore.UpdateStatusTables | humanlayer-api/src/db/repositories/humanContactRepository.ts:57-73 | throws before writing exactly when binding throws; rewrites only the row of `id`; changes nothing without a status row |
| HumanContactStore.CreateTables | humanlayer-api/src/db/repositories/humanContactRepository.ts:7-33 | a duplicate id throws and writes nothing; a status row is inserted only when no status was given |
| HumanContactStore.RowToHumanContact | humanlayer-api/src/db/repositories/humanContactRepository.ts:75-95 | the entity carries the row's ids and spec, an empty subject as absent, and a status exactly when `requested_at` is set |
| HumanContactStore.HumanContactRepository.FindById | humanlayer-api/src/db/repositories/humanContactRepository.ts:35-55 | null exactly for an id without a contact row; otherwise the stored spec and run id, with a status exactly when its status row has `requested_at` |
| HumanContactStore.WriteThenRead | humanlayer-api/src/db/repositories/humanContactRepository.ts:57-95 | writing a status and reading it back gives that status with the stored `requested_at` and empty strings as absent |
| HumanContactStore.HumanContactRepository.UpdateStatus | humanlayer-api/src/db/repositories/humanContactRepository.ts:57-73 | the new tables are `UpdateStatusTables` of the old ones |
| HumanContactStore.HumanContactRepository.Create | humanlayer-api/src/db/repositories/humanContactRepository.ts:7-33 | the new tables and the outcome are `CreateTables` of the old tables; the schema invariant is kept |
| Channels.ChannelService.SendApprovalRequest | humanlayer-api/src/services/channelService.ts:5-13 | appends exactly one approval-request notification |
| Channels.ChannelService.SendHumanContactRequest | humanlayer-api/src/services/channelService.ts:15-23 | appends exactly one contact-request notification |
| Channels.ChannelService.SendFunctionCallEscalation | humanlayer-api/src/services/channelService.ts:25-27 | appends exactly one escalation notification for the call |
| Channels.ChannelService.SendHumanContactEscalation | humanlayer-api/src/services/channelService.ts:25-27 | appends exactly one escalation notification for the contact |
| FunctionCalls.WithDefaultStatus | humanlayer-api/src/services/functionCallService.ts:14-18 | a missing status becomes exactly `{requestedAt: now}`; a given one is kept; ids and spec are unchanged |
| FunctionCalls.CreateSpec | humanlayer-api/src/services/functionCallService.ts:12-28 | the repository writes the defaulted call and the caller gets it back; a repository throw is passed on; a duplicate id changes nothing |
| FunctionCalls.GetSpec | humanlayer-api/src/services/functionCallService.ts:30-36 | the stored call, or 404 NOT_FOUND exactly when there is none |
| FunctionCalls.RespondSpec | humanlayer-api/src/services/functionCallService.ts:38-55 | 404 and no write for an unknown id; 409 ALREADY_DECIDED and no write once `responded_at` is set; otherwise the update's tables and the re-read call; other rows and `requested_at` are untouched |
| FunctionCalls.RespondAtMostOnce | humanlayer-api/src/services/functionCallService.ts:47-50 | after a successful respond that set `responded_at`, every later respond is refused with 409 and writes nothing |
| FunctionCalls.RespondIsNotASparsePatch | humanlayer-api/src/db/repositories/functionCallRepository.ts:61-79 | a field absent from the new status is erased, not kept from before |
| FunctionCalls.CreateStoresNoStatus | humanlayer-api/src/services/functionCallService.ts:14-20 | a call created through the service has no status row and reads back without status, although create returned one |
| FunctionCalls.RespondAfterCreateNeverConflicts | humanlayer-api/src/services/functionCallService.ts:38-55 | on a call created through the service, respond never writes and never answers 409 |
| FunctionCalls.FunctionCallService.Create | humanlayer-api/src/services/functionCallService.ts:12-28 | the result and new tables are `CreateSpec`; an approval request is sent exactly when the write succeeded and the spec has a channel |
| FunctionCalls.FunctionCallService.Get | humanlayer-api/src/services/functionCallService.ts:30-36 | returns `GetSpec` of the current tables |
| FunctionCalls.FunctionCallService.Respond | humanlayer-api/src/services/functionCallService.ts:38-55 | the result and new tables are `RespondSpec` of the old tables |
| FunctionCalls.FunctionCallService.EscalateEmail | humanlayer-api/src/services/functionCallService.ts:57-67 | returns the stored call or 404; exactly one escalation is sent when the call exists |
| HumanContacts.WithDefaultStatus | humanlayer-api/src/services/humanContactService.ts:13-17 | a missing status becomes exactly `{requestedAt: now}`; a given one is kept |
| HumanContacts.CreateSpec | humanlayer-api/src/services/humanContactService.ts:12-27 | the repository writes the defaulted contact and the caller gets it back; a duplicate id changes nothing |
| HumanContacts.GetSpec | humanlayer-api/src/services/humanContactService.ts:29-35 | the stored contact, or 404 NOT_FOUND exactly when there is none |
| HumanContacts.RespondSpec | humanlayer-api/src/services/humanContactService.ts:37-54 | 404 and no write for an unknown id; 409 ALREADY_RESPONDED once `responded_at` is set; otherwise the update and the re-read contact |
| HumanContacts.RespondAtMostOnce | humanlayer-api/src/services/humanContactService.ts:46-49 | after a successful respond that set `responded_at`, every later respond is refused with 409 |
| HumanContacts.CreateStoresNoStatus | humanlayer-api/src/services/humanContactService.ts:12-19 | a contact created through the service has no status row; respond on it never writes and never answers 409 |
| HumanContacts.HumanContactService.Create | humanlayer-api/src/services/humanContactService.ts:12-27 | the result and new tables are `CreateSpec`; a contact request is sent exactly on success with a channel |
| HumanContacts.HumanContactService.Get | humanlayer-api/src/services/humanContactService.ts:29-35 | returns `GetSpec` of the current tables |
| HumanContacts.HumanContactService.Respond | humanlayer-api/src/services/humanContactService.ts:37-54 | the result and new tables are `RespondSpec` of the old tables |
| HumanContacts.HumanContactService.EscalateEmail | humanlayer-api/src/services/humanContactService.ts:56-65 | returns the stored contact or 404; exactly one escalation is sent when it exists |
| FunctionCallRoutes.CreatedStatus | humanlayer-api/src/routes/functionCalls.ts:21-34 | `requested_at` defaults to now, `responded_at` is present only when given, the other fields are copied |
| FunctionCallRoutes.FunctionCallOf | humanlayer-api/src/routes/functionCalls.ts:21-34 | the validated body with its status, if any, converted |
| FunctionCallRoutes.RespondStatus | humanlayer-api/src/routes/functionCalls.ts:55-60 | both dates go through `new Date`, so an absent one is invalid; `approved` and `comment` are copied; the reject option and Slack timestamp are dropped |
| FunctionCallRoutes.RespondRouteRecordsDecision | humanlayer-api/src/routes/functionCalls.ts:53-66 | on an undecided call with a status row, a valid respond succeeds and records its time and `approved` |
| FunctionCallRoutes.MissingRespondedAtIsServerError | humanlayer-api/src/routes/functionCalls.ts:56 | a body without `responded_at` gives 500 and writes nothing |
| FunctionCallRoutes.RespondRouteDropsRejectOption | humanlayer-api/src/routes/functionCalls.ts:55-60 | after the respond route, the reject option and Slack timestamp columns are NULL, whatever the body said |
| FunctionCallRoutes.CreateFunctionCall | humanlayer-api/src/routes/functionCalls.ts:17-40 | a body the schema rejects gives 400 and changes nothing; otherwise the service's create, answered with 201 |
| FunctionCallRoutes.GetFunctionCall | humanlayer-api/src/routes/functionCalls.ts:43-50 | 200 with the call, or the 404 reply |
| FunctionCallRoutes.RespondToFunctionCall | humanlayer-api/src/routes/functionCalls.ts:53-66 | the service's respond on the status built from the body, answered with 200 or the error reply |
| FunctionCallRoutes.EscalateFunctionCall | humanlayer-api/src/routes/functionCalls.ts:69-76 | the whole body is the escalation; 200 with the stored call, or the 404 reply |
| ContactRoutes.CreatedStatus | humanlayer-api/src/routes/contacts.ts:22-32 | `requested_at` defaults to now, `responded_at` is present only when given, the answer fields are copied |
| ContactRoutes.HumanContactOf | humanlayer-api/src/routes/contacts.ts:20-33 | the validated body with its status, if any, converted |
| ContactRoutes.RespondStatus | humanlayer-api/src/routes/contacts.ts:54-59 | `requested_at` only for a non-empty one; `responded_at` always through `new Date`; the answer fields are copied |
| ContactRoutes.RespondRouteRecordsAnswer | humanlayer-api/src/routes/contacts.ts:52-65 | on an unanswered contact with a status row, a valid respond records its time and response |
| ContactRoutes.MissingRespondedAtIsServerError | humanlayer-api/src/routes/contacts.ts:56 | a body without `responded_at` gives 500 and writes nothing |
| ContactRoutes.CreateHumanContact | humanlayer-api/src/routes/contacts.ts:16-39 | a body the schema rejects gives 400 and changes nothing; otherwise the service's create, answered with 201 |
| ContactRoutes.GetHumanContact | humanlayer-api/src/routes/contacts.ts:42-49 | 200 with the contact, or the 404 reply |
| ContactRoutes.RespondToHumanContact | humanlayer-api/src/routes/contacts.ts:52-65 | the service's respond on the status built from the body |
| ContactRoutes.EscalateHumanContact | humanlayer-api/src/routes/contacts.ts:68-75 | the whole body is the escalation; 200 with the stored contact, or the 404 reply |
| JsStrings.Split | humanlayer-api/src/routes/slack.ts:112 | `split` yields at least one piece and no piece contains the separator |
| JsStrings.JoinSplit | humanlayer-api/src/routes/slack.ts:112-119 | joining the pieces of a split with the same separator gives back the string |
| JsStrings.Join | humanlayer-api/src/routes/slack.ts:119 | `join` of no pieces is empty, and the first piece starts the result |
| JsStrings.SplitJoin | humanlayer-api/src/routes/slack.ts:112-119 | splitting the join of separator-free pieces gives back the pieces |
| JsStrings.SplitWithoutSeparator | humanlayer-api/src/routes/slack.ts:112 | a string without the separator splits into itself alone |
| JsStrings.SplitAfterPiece | humanlayer-api/src/routes/slack.ts:112 | a separator-free piece followed by the separator splits off as the first piece |
| JsStrings.SplitHasTwoPieces | humanlayer-api/src/routes/slack.ts:112-113 | a split has at least two pieces exactly when the separator occurs |
| JsStrings.TrimStart | humanlayer-api/src/routes/slack.ts:40 | `parseInt` skips exactly the leading JavaScript whitespace: every removed character is whitespace, and the remaining suffix does not start with whitespace |
| JsStrings.DigitRun | humanlayer-api/src/routes/slack.ts:40 | the length of the leading decimal digits: all of them are digits and the next character is not |
| JsStrings.DigitValue | humanlayer-api/src/routes/slack.ts:40 | a digit's value is below 10 |
| JsStrings.ParseInt | humanlayer-api/src/routes/slack.ts:40 | `parseInt(s, 10)` is NaN exactly when no digit follows the leading whitespace and optional sign; otherwise the value of that digit run, negative only after `-` |
| JsStrings.ParseAtDigit | humanlayer-api/src/routes/slack.ts:40 | text starting with a digit parses as the value of its leading digits |
| JsStrings.ParseIgnoresTrailing | humanlayer-api/src/routes/slack.ts:40 | a numeral followed by any non-digit text reads as the numeral |
| JsStrings.LeadingDigits | humanlayer-api/src/routes/slack.ts:40 | the digits `parseInt` reads: a prefix made only of digits, followed by a non-digit or the end |
| JsStrings.Unsigned | humanlayer-api/src/routes/slack.ts:40 | at most one leading character is removed, and exactly when it is `+` or `-` |
| JsStrings.DecimalString | humanlayer-api/src/routes/slack.ts:40-41 | a number's decimal form is a non-empty string of digits |
| JsStrings.DecimalStringValue | humanlayer-api/src/routes/slack.ts:40 | the digits of a number's decimal form have that number as value |
| JsStrings.DigitRunOfDigits | humanlayer-api/src/routes/slack.ts:40 | an all-digit string is one whole digit run |
| JsStrings.ParseDigits | humanlayer-api/src/routes/slack.ts:40 | `parseInt` of a non-empty digit string is the digits' value |
| JsStrings.ParseDecimal | humanlayer-api/src/routes/slack.ts:40 | `parseInt` reads back a number's decimal form |
| JsStrings.Utf8Length | humanlayer-api/src/routes/slack.ts:52-55 | `Buffer.from` length is at least the character count, and equal to it exactly for ASCII text |
| Digests.HexDigit | humanlayer-api/src/middleware/auth.ts:59 | every value below 16 maps to a lower-case hex digit |
| Digests.Hex | humanlayer-api/src/middleware/auth.ts:59 | `digest('hex')` has two lower-case hex digits per byte |
| Digests.HexDigitInjective | humanlayer-api/src/middleware/auth.ts:59 | different nibbles give different hex digits |
| Digests.HexInjective | humanlayer-api/src/middleware/auth.ts:59 | different digests have different hex strings |
| SlackSignature.VerifySlackSignature | humanlayer-api/src/routes/slack.ts:25-56 | no or an empty secret accepts; missing headers reject; acceptance holds exactly for a fresh timestamp and the matching `v0=` HMAC hex; it throws exactly when a fresh request's signature differs in UTF-8 byte length from the computed one |
| SlackSignature.Stale | humanlayer-api/src/routes/slack.ts:40-44 | stale exactly when `parseInt` reads a number more than 300 seconds before or after the current second; NaN is never stale |
| SlackSignature.ComputedSignature | humanlayer-api/src/routes/slack.ts:47-49 | `v0=` followed by the lower-case hex of the HMAC over `v0:<ts>:<body>`, two digits per byte |
| SlackSignature.AsConfiguredEveryRequestPasses | humanlayer-api/src/config.ts:14-16 | with the configured (absent) secret, every request verifies |
| SlackSignature.FreshSignedRequestPasses | humanlayer-api/src/routes/slack.ts:39-55 | a request signed over its own body, stamped with the current second, verifies |
| SlackSignature.TamperedBodyRejected | humanlayer-api/src/routes/slack.ts:47-55 | a signature made for one body does not verify another body that the HMAC tells apart |
| SlackSignature.StaleRequestRejected | humanlayer-api/src/routes/slack.ts:39-44 | a timestamp more than 300 seconds away rejects, even with a valid signature |
| SlackSignature.NonNumericTimestampNeverExpires | humanlayer-api/src/routes/slack.ts:40-42 | for a timestamp `parseInt` reads as NaN, the verdict is the same at every moment |
| SlackInteractions.DecodeActionValue | humanlayer-api/src/routes/slack.ts:112-119 | malformed exactly when the value has no colon; the action type and call id are colon-free |
| SlackInteractions.DecodeEncode | humanlayer-api/src/routes/slack.ts:111-119 | every `action:call_id[:option]` value with a colon-free type and id decodes to its parts, options holding colons included |
| SlackInteractions.DecodeRecoversValue | humanlayer-api/src/routes/slack.ts:118-119 | the decoded fields put back together are the original value |
| SlackInteractions.CommandOf | humanlayer-api/src/routes/slack.ts:122-141 | dispatch by action type: each of the four known types gives its command, carrying the call id and option; anything else is unknown |
| SlackInteractions.ParseInteraction | humanlayer-api/src/routes/slack.ts:97-119 | ignored exactly for a non-block-action payload or one without actions; malformed exactly when the first value has no colon; otherwise the command of the first action |
| SlackInteractions.ApprovalStatus | humanlayer-api/src/routes/slack.ts:150-194 | requested and responded now; `approved` only for approve; a reject option only for reject; the comment names the user |
| SlackInteractions.FindOption | humanlayer-api/src/routes/slack.ts:204 | `find` gives the first option with that name, or none exactly when no option has it |
| SlackInteractions.ResponseText | humanlayer-api/src/routes/slack.ts:204-205 | the chosen option's non-empty title, else the option name |
| SlackInteractions.ContactStatus | humanlayer-api/src/routes/slack.ts:207-212 | requested and responded now; the response text followed by the clicking user; the option name |
| SlackInteractions.InteractionSpec | humanlayer-api/src/routes/slack.ts:97-145 | only a decision button touches the function calls (by the service's respond), only a respond button touches the contacts (404 when unknown); anything else writes nothing |
| SlackInteractions.ApproveThenClickAgain | humanlayer-api/src/routes/slack.ts:150-194 | an approval click records `approved` and the time on an undecided call, and every later decision click on it gets 409 |
| SlackInteractions.EmptyRejectOptionIsDropped | humanlayer-api/src/routes/slack.ts:182-194 | `reject:<id>` stores no reject option, while its comment reads "Rejected () by …" |
| SlackInteractions.ErrorToReply | humanlayer-api/src/routes/slack.ts:89-90 | an error reaching `next` is answered as the error handler answers it |
| SlackInteractions.RouteSpec | humanlayer-api/src/routes/slack.ts:62-92 | an unverified request gets 401 and a throwing check the error reply, with no effect; no payload gives 400; otherwise 200 and the interaction is handled exactly then |
| SlackInteractions.UnsignedRequestChangesNothing | humanlayer-api/src/routes/slack.ts:32-37 | with a secret set, a request without a signature header gets 401 and changes nothing |
| SlackInteractions.AsConfiguredHeadersAreIgnored | humanlayer-api/src/routes/slack.ts:26-30 | as configured, the route's whole effect does not depend on the Slack headers |
| SlackInteractions.HandleInteraction | humanlayer-api/src/routes/slack.ts:97-145 | the effect on both repositories and the outcome are `InteractionSpec` of the old tables |
| SlackInteractions.InteractionsRoute | humanlayer-api/src/routes/slack.ts:62-92 | the reply, the effect on both repositories and the handling are `RouteSpec` of the old tables |
| Auth.HashApiKey | humanlayer-api/src/middleware/auth.ts:58-60 | the stored hash is hex, two characters per digest byte |
| Auth.HashApiKeyInjective | humanlayer-api/src/middleware/auth.ts:58-60 | with an injective SHA-256, different keys have different hashes |
| Auth.ExtractToken | humanlayer-api/src/middleware/auth.ts:16-17 | a token exactly for a header starting with `Bearer `, and the header is the prefix followed by the token |
| Auth.ExtractBearerToken | humanlayer-api/src/middleware/auth.ts:17 | `Bearer <t>` yields the token `t` |
| Auth.Decide | humanlayer-api/src/middleware/auth.ts:16-46 | 401 UNAUTHORIZED exactly for a missing or empty token; authenticated exactly when an active row has the token's hash; otherwise 401 INVALID_API_KEY |
| Auth.Touch | humanlayer-api/src/middleware/auth.ts:49-52 | only `last_used_at` of the matched row changes, set to the current second; hash uniqueness is kept |
| Auth.EmptyBearerIsMissing | humanlayer-api/src/middleware/auth.ts:17-19 | `Bearer ` with nothing after it is treated as a missing header |
| Auth.DeactivatedKeyRejected | humanlayer-api/src/middleware/auth.ts:35-46 | the key of an inactive row gets 401 INVALID_API_KEY |
| Auth.OneTokenPerKey | humanlayer-api/src/middleware/auth.ts:30-38 | with an injective SHA-256, two requests that matched the same row carried the same header |
| Auth.CreateApiKey | humanlayer-api/src/middleware/auth.ts:62-73 | the key is the prefix and 64 hex digits, its hash is `hashApiKey` of it, and the display prefix is its first 8 characters |
| Auth.DefaultKeyShape | humanlayer-api/src/middleware/auth.ts:62-70 | a default key is `sk-` and 64 hex digits, 67 characters, shown as `sk-` and five hex digits |
| Auth.CreatedKeyAuthenticates | humanlayer-api/src/middleware/auth.ts:30-55 | a created key authenticates once an active row holds its hash |
| Auth.ApiKeyTable.AuthenticateToken | humanlayer-api/src/middleware/auth.ts:11-56 | the reply is `Decide` of the old table; on success exactly the matched row is touched, otherwise the table is unchanged; hash uniqueness is kept |
| FunctionCallStore.AsStored | humanlayer-api/src/db/repositories/functionCallRepository.ts:93-102 | a status as it reads back: the same dates and `approved`, empty strings as absent |
| FunctionCallStore.IntendedStatusRow | humanlayer-api/src/db/repositories/functionCallRepository.ts:23-33 | the status row a given status should be inserted as: it throws exactly when a date is invalid, and otherwise reads back as the status stored |
| FunctionCallStore.IntendedCreateTables | humanlayer-api/src/db/repositories/functionCallRepository.ts:7-34 | corrected create: the call row and a status row (the given status, or `requested_at` only) are inserted; a duplicate throws and writes nothing |
| FunctionCallStore.IntendedCreateThenFind | humanlayer-api/src/db/repositories/functionCallRepository.ts:7-58 | after the corrected create, `findById` returns the call with its status as stored |
| HumanContactStore.AsStored | humanlayer-api/src/db/repositories/humanContactRepository.ts:86-93 | a status as it reads back: the same dates, empty strings as absent |
| HumanContactStore.IntendedStatusRow | humanlayer-api/src/db/repositories/humanContactRepository.ts:23-32 | the status row a given status should be inserted as, with the database clock for a missing `requested_at`; throws exactly on an invalid date |
| HumanContactStore.IntendedCreateTables | humanlayer-api/src/db/repositories/humanContactRepository.ts:7-33 | corrected create: the contact row and a status row are inserted; a duplicate throws and writes nothing |
| HumanContactStore.IntendedCreateThenFind | humanlayer-api/src/db/repositories/humanContactRepository.ts:7-55 | after the corrected create with a status, `findById` returns the contact with that status as stored |
| FunctionCalls.AsWrittenApprovalFlow | humanlayer-api/src/db/repositories/functionCallRepository.ts:23-33 | as written, a call created without status reads back without status, a respond returns it still without status, and a second respond is not refused |
| FunctionCalls.IntendedCreateSpec | humanlayer-api/src/services/functionCallService.ts:12-28 | the service's create over the corrected repository create; a stored call always has a status row |
| FunctionCalls.IntendedRespondAtMostOnce | humanlayer-api/src/services/functionCallService.ts:47-50 | for every call the corrected create stored, a respond that recorded `respondedAt` refuses every later respond with 409 |
| FunctionCalls.IntendedApprovalFlow | humanlayer-api/src/__tests__/api.test.ts:147-179 | with the corrected create: pending with `requested_at`, then a respond reads back its decision and comment, then a second respond gets 409 |
| HumanContacts.AsWrittenAnswerFlow | humanlayer-api/src/db/repositories/humanContactRepository.ts:23-32 | as written, a contact created without status reads back without status, and a respond returns it still without status |
| HumanContacts.IntendedCreateSpec | humanlayer-api/src/services/humanContactService.ts:12-27 | the service's create over the corrected repository create; a stored contact always has a status row |
| HumanContacts.IntendedRespondAtMostOnce | humanlayer-api/src/services/humanContactService.ts:46-49 | for every contact the corrected create stored, a recorded answer refuses every later respond with 409 |
| HumanContacts.IntendedAnswerFlow | humanlayer-api/src/__tests__/api.test.ts:223-246 | with the corrected create: pending without response, then a respond reads back its answer |

`Models.DateOf` (what `new Date(x)` makes of a body field) is folded into the
`RespondStatus` rows of both route modules, and `Auth.Matches` (the lookup's WHERE
clause) into `Auth.Decide` and `Auth.ApiKeyTable.AuthenticateToken`.

## Findings

| source | as written | input that shows it | evidently intended | confidence | as-written member | corrected member |
|---|---|---|---|---|---|---|
| humanlayer-api/src/db/repositories/functionCallRepository.ts:23-33 | the service always supplies a status (functionCallService.ts:14-18), so `create` hands it to `updateStatus`, whose UPDATE matches no row: no status row is inserted, the call reads back without status, and `respond` never answers 409 | any `POST /function_calls` without `status`, then `GET` (api.test.ts:83 expects `status.requested_at`), `respond` (api.test.ts:111 expects `status.approved` true) and a second `respond` (api.test.ts:179 expects 409) | a status row holding the given status is inserted, so every created call can be decided exactly once | high; not executed | FunctionCalls.AsWrittenApprovalFlow | FunctionCalls.IntendedApprovalFlow |
| humanlayer-api/src/db/repositories/humanContactRepository.ts:23-32 | the same for contacts (humanContactService.ts:13-17): no status row, the contact reads back without status, and a respond's answer is not stored | any `POST /contact_requests` without `status`, then `GET` (api.test.ts:220 reads `status.response`) and `respond` (api.test.ts:246 expects the response back) | a status row holding the given status is inserted | high; not executed | HumanContacts.AsWrittenAnswerFlow | HumanContacts.IntendedAnswerFlow |

The service classes and the routes keep modelling the code as written. The
corrected members (`IntendedCreateTables`, `IntendedCreateSpec` and the lemmas over
them) state the behaviour the tests expect, and prove the at-most-once guarantee for
every created id (`FunctionCalls.IntendedRespondAtMostOnce`,
`HumanContacts.IntendedRespondAtMostOnce`).

## Left out

- Concurrency: Node runs each handler on one thread. `respond`'s read and write run with
  no `await` between them, so each service call is modelled as one atomic step. The
  Slack handler's asynchronous processing after the acknowledgement is modelled as
  running to completion right after the reply is decided.
- JSON: `JSON.stringify`/`JSON.parse` of the spec columns are taken as lossless. A `Json`
  value stands for a JSON document (for numbers see `Models.Json` below). A payload string that `JSON.parse` rejects is one
  `UnparseablePayload` case with one fixed error message.
- SQLite details: the text form of
  `CURRENT_TIMESTAMP` and ISO strings, and date parsing. A date is its millisecond
  value, or "invalid". `created_at` columns, migrations and the database connection are
  not modelled.
- Request validation (zod): the validated create body, or the list of issues, is an
  input to the create routes (`Result<CreateRequest, seq<string>>`). The schemas in
  `utils/validators.ts` are not part of this model.
- Express plumbing and routing, `console` logging, and the server start-up are left out.
- Aliasing: the service writes the default status into the caller's object in place.
  The model returns the updated value (`WithDefaultStatus`) instead.
- SlackInteractions.InteractionsRoute: the raw body is the string the route computes
  with `URLSearchParams`; that re-encoding is not modelled and the string is an input.
- SlackInteractions.ParseInteraction: the payload is assumed to carry a `user` and
  string action values. A payload that makes `handleInteraction` throw (no `user`, a
  non-string value) after the acknowledgement is not modelled.
- FunctionCallRoutes.RespondStatus: the body's fields are taken as already typed (a
  boolean `approved`, string comments). Other JSON types in an unvalidated body are not
  modelled.
- JsStrings.ParseInt: it reads the digits as an unbounded integer. Floating-point
  rounding of very long digit strings is not modelled.
- Clock: each handler calls `new Date()` / `Date.now()` several times. The model passes
  one `now` value for all of them, so two calls within one request see the same time.
- Crypto: SHA-256, HMAC-SHA256 and `randomBytes` are function parameters. Injectivity is
  assumed only where a lemma states it as a requirement. `timingSafeEqual` is modelled as
  its byte-length check followed by equality.
- Auth.ApiKeyTable: the `api_keys` table is a map from the integer primary key to its
  row. `key_hash` uniqueness is a class invariant.
- Auth.Touch: `last_used_at` is stored in whole seconds, as the timestamp mode stores it.
  `createApiKey` does not insert a row; the model does not either.
- FunctionCallStore.BindStatus: binds `approved` as a JavaScript boolean and assumes a
  driver that accepts it. better-sqlite3 binds only numbers, strings, bigints, buffers
  and null, so with it every status write that carries `approved` would most likely
  throw. A respond with `approved` would then answer 500, and the Slack decision
  buttons would fail silently. The model does not capture that failure.
- Models.Json: `JNumber` holds an integer. Non-integer JSON numbers in `kwargs`,
  `state` or an escalation body are not represented.
- FunctionCallStore.StatusOf: reads `approved` back as the boolean that was written.
  SQLite has no boolean storage class, so the driver returns a stored decision as the
  number 1 or 0. `row.approved ?? undefined` (functionCallRepository.ts:97) keeps that
  number, so GET and respond answer `"approved": 1` rather than `true`. The model does
  not capture this coercion. The same goes for `FunctionCallStore.AsStored` and for the
  read-back lemmas built on both (`WriteThenRead`, `IntendedCreateThenFind`,
  `FunctionCalls.IntendedApprovalFlow`).
