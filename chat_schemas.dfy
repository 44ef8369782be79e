/** The chat request and response bodies of server/schemas/chat_model.py and their field constraints. */
module ChatSchemas {
  import opened Wrappers

  /** `ChatRole`: a string enumeration with exactly three members. */
  datatype ChatRole = SystemRole | UserRole | AssistantRole

  function RoleValue(r: ChatRole): (v: string)
    ensures v == "system" || v == "user" || v == "assistant"
  {
    match r
    case SystemRole => "system"
    case UserRole => "user"
    case AssistantRole => "assistant"
  }

  /** How a JSON role string is read into the enumeration; anything else is a validation error. */
  function ParseRole(v: string): (r: Option<ChatRole>)
    ensures r.Some? <==> v == "system" || v == "user" || v == "assistant"
  {
    if v == "system" then Some(SystemRole)
    else if v == "user" then Some(UserRole)
    else if v == "assistant" then Some(AssistantRole)
    else None
  }

  /** Every role survives being written out and read back. */
  lemma RoleRoundTrip(r: ChatRole)
    ensures ParseRole(RoleValue(r)) == Some(r)
  {
  }

  /** Every accepted role string is the value of the role it parses to. */
  lemma ParseRoleInverse(v: string)
    requires ParseRole(v).Some?
    ensures RoleValue(ParseRole(v).value) == v
  {
  }

  datatype ChatMessage = ChatMessage(role: ChatRole, content: string)

  /** `conversation_id` and `prompt` are optional: an absent field is None. */
  datatype ChatRequest = ChatRequest(conversationId: Option<int>, prompt: Option<string>, messages: seq<ChatMessage>)

  /** Content of 1 to 4000 characters. */
  predicate ValidChatMessage(m: ChatMessage) {
    1 <= |m.content| <= 4000
  }

  /** Prompt, when present, of at most 4000 characters; 1 to 10 messages, each valid. */
  predicate ValidChatRequest(r: ChatRequest) {
    && (r.prompt.Some? ==> |r.prompt.value| <= 4000)
    && 1 <= |r.messages| <= 10
    && forall k :: 0 <= k < |r.messages| ==> ValidChatMessage(r.messages[k])
  }

  /** Every valid request has a last message, and its content is not empty. */
  lemma ValidRequestHasLastMessage(r: ChatRequest)
    requires ValidChatRequest(r)
    ensures |r.messages| >= 1
    ensures |r.messages[|r.messages| - 1].content| >= 1
  {
    assert ValidChatMessage(r.messages[|r.messages| - 1]);
  }

  /** A request with no messages, or with more than ten, is rejected. */
  lemma MessageCountBounds(r: ChatRequest)
    requires |r.messages| == 0 || |r.messages| > 10
    ensures !ValidChatRequest(r)
  {
  }

  /** Given valid messages, the prompt may be absent and otherwise holds at most 4000 characters. */
  lemma PromptOptionalAndBounded(r: ChatRequest)
    requires 1 <= |r.messages| <= 10
    requires forall k :: 0 <= k < |r.messages| ==> ValidChatMessage(r.messages[k])
    ensures ValidChatRequest(r) <==> r.prompt.None? || |r.prompt.value| <= 4000
  {
  }

  /** The smallest valid request: no id, no prompt, one one-character message. */
  lemma MinimalRequestValid()
    ensures ValidChatRequest(ChatRequest(None, None, [ChatMessage(UserRole, "a")]))
  {
  }
}
