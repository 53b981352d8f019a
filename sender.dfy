/** shieldsender: the messages the handlers hand to the application's sender,
    kept as an append-only outbox. */
module Sender {
  import opened Base

  /** The payload of each kind of message the toolkit sends.  The kind stands
      in for the `Key` that shielduser and shieldworkspace set. */
  datatype Payload =
    | PasswordResetRequest(token: string)
    | PasswordResetSuccess
    | EmailChange
    | WorkspaceInvite(memberId: Option<Uuid>, email: string, workspaceId: Uuid)

  datatype Message = Message(email: string, payload: Payload)

  /** Sender.Send.  A sender that is down refuses every message. */
  class Outbox {
    var sent: seq<Message>
    const failure: Option<Error>

    constructor (failure: Option<Error>)
      ensures sent == [] && this.failure == failure
    {
      sent := [];
      this.failure := failure;
    }

    method Send(m: Message) returns (err: Option<Error>)
      modifies this
      ensures err == failure
      ensures sent == if err.None? then old(sent) + [m] else old(sent)
    {
      if failure.Some? {
        return failure;
      }
      sent := sent + [m];
      err := None;
    }
  }
}
