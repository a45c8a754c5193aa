/**
 * The notification channel. Its operations only write a log line; the model
 * records each call in an outbox so that callers can state when they notify.
 */
module Channels {
  import opened Models

  datatype Notification =
    | ApprovalRequest(call: FunctionCall)
    | HumanContactRequest(contact: HumanContact)
    | FunctionCallEscalation(call: FunctionCall, escalation: Json)
    | HumanContactEscalation(contact: HumanContact, escalation: Json)

  class ChannelService {
    /** Every notification requested so far, oldest first. */
    var sent: seq<Notification>

    constructor ()
      ensures sent == []
    {
      sent := [];
    }

    method SendApprovalRequest(fc: FunctionCall)
      modifies this
      ensures sent == old(sent) + [ApprovalRequest(fc)]
    {
      sent := sent + [ApprovalRequest(fc)];
    }

    method SendHumanContactRequest(hc: HumanContact)
      modifies this
      ensures sent == old(sent) + [HumanContactRequest(hc)]
    {
      sent := sent + [HumanContactRequest(hc)];
    }

    method SendFunctionCallEscalation(fc: FunctionCall, escalation: Json)
      modifies this
      ensures sent == old(sent) + [FunctionCallEscalation(fc, escalation)]
    {
      sent := sent + [FunctionCallEscalation(fc, escalation)];
    }

    method SendHumanContactEscalation(hc: HumanContact, escalation: Json)
      modifies this
      ensures sent == old(sent) + [HumanContactEscalation(hc, escalation)]
    {
      sent := sent + [HumanContactEscalation(hc, escalation)];
    }
  }
}
