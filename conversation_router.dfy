/**
 * The read endpoints of server/routers/conversation.py: one conversation with
 * its messages, and all conversations of the development user.
 */
module ConversationRouter {
  import opened Wrappers
  import opened Http
  import opened MessageModel
  import opened ConversationModel
  import opened Store
  import Settings

  /** One message as the client sees it (server/schemas/conversation.py). */
  datatype MessageInConversationResponse = MessageInConversationResponse(
    id: int,
    sender: string,
    content: string,
    createdAt: nat)

  datatype GetConversationResponse = GetConversationResponse(
    conversationId: int,
    title: string,
    prompt: string,
    createdAt: nat,
    messages: seq<MessageInConversationResponse>)

  const CONVERSATION_NOT_FOUND: HttpError := HttpError(404, "Conversation not found")
  const NO_CONVERSATIONS: HttpError := HttpError(404, "No conversations found for user")

  /** A message copied into the response; its sender is the enum's text value. */
  function MessageResponse(m: Message): (r: MessageInConversationResponse)
    ensures r.id == m.id && r.content == m.content && r.createdAt == m.createdAt
    ensures r.sender == "user" || r.sender == "assistant"
    ensures ParseSender(r.sender) == Some(m.sentBy)
  {
    MessageInConversationResponse(m.id, SenderValue(m.sentBy), m.content, m.createdAt)
  }

  /** A conversation copied into the response: same fields, same messages in the same order. */
  function ConversationResponse(c: ConversationWithMessages): (r: GetConversationResponse)
    ensures r.conversationId == c.conversation.id
    ensures r.title == c.conversation.title && r.prompt == c.conversation.prompt
    ensures r.createdAt == c.conversation.createdAt
    ensures |r.messages| == |c.messages|
    ensures forall k :: 0 <= k < |c.messages| ==> r.messages[k] == MessageResponse(c.messages[k])
  {
    GetConversationResponse(
      c.conversation.id, c.conversation.title, c.conversation.prompt, c.conversation.createdAt,
      seq(|c.messages|, k requires 0 <= k < |c.messages| => MessageResponse(c.messages[k])))
  }

  /** The loop of `get_conversation`: one response entry per message, in order. */
  method MessageResponses(messages: seq<Message>) returns (rs: seq<MessageInConversationResponse>)
    ensures |rs| == |messages|
    ensures forall k :: 0 <= k < |messages| ==> rs[k] == MessageResponse(messages[k])
  {
    rs := [];
    var i := 0;
    while i < |messages|
      invariant 0 <= i <= |messages|
      invariant |rs| == i
      invariant forall k :: 0 <= k < i ==> rs[k] == MessageResponse(messages[k])
    {
      var message := messages[i];
      rs := rs + [MessageInConversationResponse(message.id, SenderValue(message.sentBy), message.content, message.createdAt)];
      i := i + 1;
    }
  }

  /**
   * `get_conversation`: 404 "Conversation not found" when no row has the id,
   * otherwise the conversation with one response entry per message, in order.
   */
  method GetConversation(db: Database, conversationId: int) returns (r: Result<GetConversationResponse, HttpError>)
    ensures db.GetById(conversationId, true).None? ==> r == Err(CONVERSATION_NOT_FOUND)
    ensures db.GetById(conversationId, true).Some? ==>
              r == Ok(ConversationResponse(db.GetById(conversationId, true).value))
  {
    var found := db.GetById(conversationId, true);
    if found.None? {
      return Err(CONVERSATION_NOT_FOUND);
    }
    var conversation := found.value;
    var messageResponses := MessageResponses(conversation.messages);
    assert messageResponses == ConversationResponse(conversation).messages;
    r := Ok(GetConversationResponse(
      conversation.conversation.id, conversation.conversation.title, conversation.conversation.prompt,
      conversation.conversation.createdAt, messageResponses));
  }

  /** On a consistent store, the returned messages are exactly the conversation's rows in insertion order. */
  lemma GetConversationMessages(db: Database, conversationId: int)
    requires db.Valid()
    requires db.GetById(conversationId, true).Some?
    ensures var rows := MessagesFor(db.messages, conversationId);
            var resp := ConversationResponse(db.GetById(conversationId, true).value);
            && |resp.messages| == |rows|
            && forall k :: 0 <= k < |rows| ==> resp.messages[k] == MessageResponse(rows[k])
  {
    db.GetByIdMessagesInInsertionOrder(conversationId, true);
  }

  /**
   * `get_user_conversations`: the path's user id is ignored and
   * DUMMY_USER_ID's conversations are listed; none gives 404.
   */
  function GetUserConversations(db: Database, userId: int): (r: Result<seq<GetConversationResponse>, HttpError>)
    reads db
    ensures var owned := db.GetByUserId(Settings.DUMMY_USER_ID, true);
            && (r.Err? <==> owned == [])
            && (r.Err? ==> r.error == NO_CONVERSATIONS)
            && (r.Ok? ==> |r.value| == |owned|
                          && forall k :: 0 <= k < |owned| ==> r.value[k] == ConversationResponse(owned[k]))
  {
    var owned := db.GetByUserId(Settings.DUMMY_USER_ID, true);
    if owned == [] then Err(NO_CONVERSATIONS)
    else Ok(seq(|owned|, k requires 0 <= k < |owned| => ConversationResponse(owned[k])))
  }

  /** Whatever user id the path names, the answer is the same. */
  lemma UserIdIgnored(db: Database, a: int, b: int)
    ensures GetUserConversations(db, a) == GetUserConversations(db, b)
  {
  }

  /**
   * On a consistent store, each listed conversation is what the single
   * conversation endpoint answers for its id.
   */
  lemma UserConversationsAgreeWithGetById(db: Database, userId: int, k: int)
    requires db.Valid()
    requires GetUserConversations(db, userId).Ok?
    requires 0 <= k < |GetUserConversations(db, userId).value|
    ensures var entry := GetUserConversations(db, userId).value[k];
            && db.GetById(entry.conversationId, true).Some?
            && entry == ConversationResponse(db.GetById(entry.conversationId, true).value)
  {
    var owned := db.GetByUserId(Settings.DUMMY_USER_ID, true);
    db.GetByUserIdAgreesWithGetById(Settings.DUMMY_USER_ID, k);
    assert GetUserConversations(db, userId).value[k] == ConversationResponse(owned[k]);
  }

  /** Every conversation of DUMMY_USER_ID appears in the list. */
  lemma UserConversationsComplete(db: Database, userId: int, c: Conversation)
    requires c in db.conversations && c.userId == Settings.DUMMY_USER_ID
    ensures GetUserConversations(db, userId).Ok?
    ensures var list := GetUserConversations(db, userId).value;
            exists k :: 0 <= k < |list| && list[k].conversationId == c.id
  {
    var owned := db.GetByUserId(Settings.DUMMY_USER_ID, true);
    var k :| 0 <= k < |owned| && owned[k].conversation == c;
    assert GetUserConversations(db, userId).value[k].conversationId == c.id;
  }
}
