/** The `messages` table row and its sender enumeration (server/models/message.py). */
module MessageModel {
  import opened Wrappers

  /** `SenderType`: the closed two-valued `sent_by` column, held here as the enum itself. */
  datatype SenderType = FromUser | FromAssistant

  /** The enum member's `.value`: the text a conversation response carries as the sender. */
  function SenderValue(s: SenderType): (r: string)
    ensures r == "user" || r == "assistant"
  {
    match s
    case FromUser => "user"
    case FromAssistant => "assistant"
  }

  /** `SenderType(v)`: the enum lookup by value; only the two enum values are accepted. */
  function ParseSender(v: string): (r: Option<SenderType>)
    ensures r.Some? <==> v == "user" || v == "assistant"
  {
    if v == "user" then Some(FromUser)
    else if v == "assistant" then Some(FromAssistant)
    else None
  }

  /** Looking up a sender's value gives the same sender back. */
  lemma SenderRoundTrip(s: SenderType)
    ensures ParseSender(SenderValue(s)) == Some(s)
  {
  }

  /** Every accepted value is the value of the sender it parses to. */
  lemma ParseSenderInverse(v: string)
    requires ParseSender(v).Some?
    ensures SenderValue(ParseSender(v).value) == v
  {
  }

  /** One chat turn; `createdAt` is the server clock at insertion, `updatedAt` is set only by an update. */
  datatype Message = Message(
    id: int,
    conversationId: int,
    sentBy: SenderType,
    content: string,
    createdAt: nat,
    updatedAt: Option<nat>)
}
