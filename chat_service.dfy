/**
 * Request resolution and prompt-text building of
 * server/services/chat_model_services.py.
 */
module ChatService {
  import opened Wrappers
  import opened Text
  import opened UserModel
  import opened MessageModel
  import opened ConversationModel
  import opened Store
  import opened ChatSchemas

  /** The user every chat request acts for until authentication exists. */
  const DUMMY_USER_ID: int := 1

  /** The title a new conversation gets: the content of the request's last message. */
  function RequestTitle(messages: seq<ChatMessage>): string {
    if |messages| > 0 then messages[|messages| - 1].content else "New Conversation"
  }

  /** The prompt handed to creation: an absent prompt becomes "". */
  function RequestPrompt(prompt: Option<string>): string {
    if prompt.Some? && prompt.value != "" then prompt.value else ""
  }

  /** For a validated request the title is always its last message's (non-empty) content. */
  lemma ValidRequestTitle(r: ChatRequest)
    requires ValidChatRequest(r)
    ensures RequestTitle(r.messages) == r.messages[|r.messages| - 1].content
    ensures RequestTitle(r.messages) != ""
  {
    ValidRequestHasLastMessage(r);
  }

  /** An absent or empty request prompt is stored as the default system prompt, any other verbatim. */
  lemma RequestPromptStored(p: Option<string>)
    ensures StoredPrompt(Some(RequestPrompt(p))) == if p == None || p == Some("") then DEFAULT_SYSTEM_PROMPT else p.value
  {
  }

  /**
   * `get_conversation_from_request`. With an id: the stored conversation with
   * its messages, or None, and nothing is written. Without one: a new
   * conversation of DUMMY_USER_ID titled after the last request message; it
   * fails, writing nothing, when that user does not exist.
   */
  method GetConversationFromRequest(db: Database, request: ChatRequest, now: nat)
    returns (r: Result<Option<ConversationWithMessages>, DbError>)
    requires db.Valid() && db.clock <= now
    modifies db
    ensures db.Valid()
    ensures request.conversationId.Some? ==>
              unchanged(db) && r == Ok(db.GetById(request.conversationId.value, true))
    ensures request.conversationId.None? ==> (r.Err? <==> !UserExists(old(db.users), DUMMY_USER_ID))
    ensures request.conversationId.None? && r.Err? ==> r.error == ForeignKeyViolation && unchanged(db)
    ensures request.conversationId.None? && r.Ok? ==>
              && r.value.Some?
              && var c := r.value.value.conversation;
              && db.conversations == old(db.conversations) + [c]
              && db.users == old(db.users) && db.messages == old(db.messages)
              && db.nextConversationId == old(db.nextConversationId) + 1
              && db.nextUserId == old(db.nextUserId) && db.nextMessageId == old(db.nextMessageId)
              && db.clock == now
              && c.id == old(db.nextConversationId)
              && c.userId == DUMMY_USER_ID
              && c.title == (if |request.messages| > 0 then request.messages[|request.messages| - 1].content
                             else "New Conversation")
              && c.prompt == (if request.prompt == None || request.prompt == Some("") then DEFAULT_SYSTEM_PROMPT
                              else request.prompt.value)
              && c.createdAt == now && c.updatedAt == None
              && r.value.value.messages == []
              && db.GetById(c.id, true) == r.value
  {
    var title := RequestTitle(request.messages);
    var prompt := RequestPrompt(request.prompt);
    if request.conversationId.Some? {
      r := Ok(db.GetById(request.conversationId.value, true));
    } else {
      var created := db.CreateConversation(DUMMY_USER_ID, title, Some(prompt), now);
      match created
      case Err(e) =>
        r := Err(e);
      case Ok(c) =>
        db.GetByIdStored(c);
        OrderByCreatedAtKeepsSorted([]);
        r := Ok(Some(ConversationWithMessages(c, [])));
    }
  }

  /** The text `generate_prompt` appends for the latest message. */
  function TurnSuffix(content: string): string {
    "\nUser: " + content + "\nAssistant:"
  }

  /**
   * `generate_prompt`: the stored prompt when there are no messages, otherwise
   * the stored prompt followed by the latest message as a User line and an
   * open Assistant line; both parts can be read back out of the result.
   */
  method GeneratePrompt(c: ConversationWithMessages) returns (prompt: string)
    ensures c.messages == [] ==> prompt == c.conversation.prompt
    ensures c.messages != [] ==>
              prompt == c.conversation.prompt + TurnSuffix(c.messages[|c.messages| - 1].content)
    ensures c.messages != [] ==>
              var p, last := c.conversation.prompt, c.messages[|c.messages| - 1].content;
              && |prompt| == |p| + |last| + 18
              && prompt[..|p|] == p
              && prompt[|p| + 7..|prompt| - 11] == last
  {
    prompt := c.conversation.prompt;
    if c.messages != [] {
      var latest := c.messages[|c.messages| - 1].content;
      prompt := prompt + TurnSuffix(latest);
    }
  }

  /**
   * `_generate_system_prompt`: a "[System Instruction]" header, then the
   * prompt on its own line, or a built-in instruction on the header line when
   * the prompt is empty.
   */
  function SystemPrompt(prompt: string): (r: string)
    ensures |r| > 20 && r[..20] == "[System Instruction]"
    ensures r[20] == '\n' <==> prompt != ""
    ensures prompt != "" ==> r[21..] == prompt
  {
    if prompt == "" then "[System Instruction] You are a helpful assistant."
    else "[System Instruction]\n" + prompt
  }

  /** The empty prompt gets the built-in instruction. */
  lemma SystemPromptOfEmpty()
    ensures SystemPrompt("") == "[System Instruction] You are a helpful assistant."
  {
  }

  /** Different prompts give different system sections. */
  lemma SystemPromptInjective(p: string, q: string)
    requires SystemPrompt(p) == SystemPrompt(q)
    ensures p == q
  {
    var r := SystemPrompt(p);
    if p != "" && q != "" {
      assert p == r[21..] == q;
    }
  }

  function RoleLabel(s: SenderType): string {
    if s == FromUser then "User" else "Assistant"
  }

  /** One line of the history section: the sender's label, ": ", the content. */
  function HistoryLine(m: Message): string {
    RoleLabel(m.sentBy) + ": " + m.content
  }

  function HistoryLines(ms: seq<Message>): seq<string> {
    seq(|ms|, k requires 0 <= k < |ms| => HistoryLine(ms[k]))
  }

  /** The history section of a conversation: empty without messages, else a header and one line per message. */
  function HistorySection(ms: seq<Message>): string {
    if ms == [] then "" else "[Conversation History]\n" + Join("\n", HistoryLines(ms))
  }

  /**
   * `_generate_conversation_history`: collects one line per message in stored
   * order, joins them with newlines and puts the header in front unless the
   * join is empty.
   */
  method ConversationHistory(c: ConversationWithMessages) returns (r: string)
    ensures r == HistorySection(c.messages)
    ensures r == "" <==> c.messages == []
  {
    var history: seq<string> := [];
    var i := 0;
    while i < |c.messages|
      invariant 0 <= i <= |c.messages|
      invariant |history| == i
      invariant forall k :: 0 <= k < i ==> history[k] == HistoryLine(c.messages[k])
    {
      var message := c.messages[i];
      var role := if message.sentBy == FromUser then "User" else "Assistant";
      history := history + [role + ": " + message.content];
      i := i + 1;
    }
    assert history == HistoryLines(c.messages);
    var joined := Join("\n", history);
    if history != [] {
      JoinStartsWithFirst("\n", history);
      assert |history[0]| > 0;
    }
    r := if joined != "" then "[Conversation History]\n" + joined else "";
  }

  /** A message appended to a conversation adds exactly one line at the end of its history. */
  lemma HistoryAppend(ms: seq<Message>, m: Message)
    requires ms != []
    ensures HistorySection(ms + [m]) == HistorySection(ms) + "\n" + HistoryLine(m)
  {
    assert HistoryLines(ms + [m]) == HistoryLines(ms) + [HistoryLine(m)];
    JoinSnoc("\n", HistoryLines(ms), HistoryLine(m));
  }

  /** The two-turn example: the header, then a user line and an assistant line separated by a newline. */
  lemma HistoryExample(conversationId: int)
    ensures HistorySection([Message(1, conversationId, FromUser, "a", 0, None),
                            Message(2, conversationId, FromAssistant, "b", 0, None)])
         == "[Conversation History]\n" + "User: a" + "\n" + "Assistant: b"
  {
    var m1, m2 := Message(1, conversationId, FromUser, "a", 0, None), Message(2, conversationId, FromAssistant, "b", 0, None);
    assert [m1, m2] == [m1] + [m2];
    HistoryAppend([m1], m2);
    assert HistoryLines([m1]) == [HistoryLine(m1)];
    assert HistoryLine(m1) == "User: a";
    assert HistoryLine(m2) == "Assistant: b";
  }

  const TASK_INSTRUCTION := "Reply to the last user message."

  /** `_generate_task_description`: a fixed "[Task]" section whatever the conversation. */
  function TaskDescription(c: ConversationWithMessages): (r: string)
    ensures |r| > 7 && r[..7] == "[Task]\n"
    ensures r[7..] == TASK_INSTRUCTION
  {
    "[Task]\n" + TASK_INSTRUCTION
  }
}
