/**
 * The database session as one in-memory store: the three tables in insertion
 * order, the autoincrement counters and the server clock. Each write is one
 * committed transaction; a write that violates a constraint changes nothing.
 */
module Store {
  import opened Wrappers
  import opened Text
  import opened UserModel
  import opened MessageModel
  import opened ConversationModel

  /** The IntegrityError kinds the database raises on an insert. */
  datatype DbError = ForeignKeyViolation | UniqueViolation

  /** Primary keys below the counter and increasing, UNIQUE username and email. */
  ghost predicate UsersValid(users: seq<User>, nextUserId: int, clock: nat) {
    && 1 <= nextUserId
    && (forall i :: 0 <= i < |users| ==> 1 <= users[i].id < nextUserId && users[i].createdAt <= clock)
    && (forall i, j :: 0 <= i < j < |users| ==> users[i].id < users[j].id)
    && (forall i, j :: 0 <= i < j < |users| ==>
          users[i].username != users[j].username && users[i].email != users[j].email)
  }

  /** Primary keys as above; `user_id` is a foreign key into `users`. */
  ghost predicate ConversationsValid(cs: seq<Conversation>, users: seq<User>, nextConversationId: int, clock: nat) {
    && 1 <= nextConversationId
    && (forall i :: 0 <= i < |cs| ==> 1 <= cs[i].id < nextConversationId && cs[i].createdAt <= clock)
    && (forall i, j :: 0 <= i < j < |cs| ==> cs[i].id < cs[j].id)
    && (forall c :: c in cs ==> UserExists(users, c.userId))
  }

  /**
   * Primary keys as above; `conversation_id` is a foreign key into
   * `conversations`; the table is in `created_at` order because the clock
   * never goes back.
   */
  ghost predicate MessagesValid(ms: seq<Message>, cs: seq<Conversation>, nextMessageId: int, clock: nat) {
    && 1 <= nextMessageId
    && (forall i :: 0 <= i < |ms| ==> 1 <= ms[i].id < nextMessageId && ms[i].createdAt <= clock)
    && (forall i, j :: 0 <= i < j < |ms| ==> ms[i].id < ms[j].id)
    && (forall m :: m in ms ==> ConversationExists(cs, m.conversationId))
    && SortedByCreatedAt(ms)
  }

  lemma UsersValidLater(users: seq<User>, n: int, clock: nat, now: nat)
    requires UsersValid(users, n, clock) && clock <= now
    ensures UsersValid(users, n, now)
  {
  }

  lemma ConversationsValidLater(cs: seq<Conversation>, users: seq<User>, n: int, clock: nat, now: nat)
    requires ConversationsValid(cs, users, n, clock) && clock <= now
    ensures ConversationsValid(cs, users, n, now)
  {
  }

  lemma MessagesValidLater(ms: seq<Message>, cs: seq<Conversation>, n: int, clock: nat, now: nat)
    requires MessagesValid(ms, cs, n, clock) && clock <= now
    ensures MessagesValid(ms, cs, n, now)
  {
  }

  lemma UsersAppend(users: seq<User>, nextUserId: int, clock: nat, u: User)
    requires UsersValid(users, nextUserId, clock)
    requires u.id == nextUserId && clock <= u.createdAt
    requires !IsUsernameExists(users, u.username) && !IsEmailExists(users, u.email)
    ensures UsersValid(users + [u], nextUserId + 1, u.createdAt)
    ensures forall x :: x in users ==> x.id != u.id
  {
  }

  lemma ConversationsAfterUsersAppend(cs: seq<Conversation>, users: seq<User>, n: int, clock: nat, u: User, now: nat)
    requires ConversationsValid(cs, users, n, clock) && clock <= now
    ensures ConversationsValid(cs, users + [u], n, now)
  {
    forall c | c in cs ensures UserExists(users + [u], c.userId) {
      var owner :| owner in users && owner.id == c.userId;
      assert owner in users + [u];
    }
  }

  lemma ConversationsAppend(cs: seq<Conversation>, users: seq<User>, n: int, clock: nat, c: Conversation)
    requires ConversationsValid(cs, users, n, clock)
    requires c.id == n && clock <= c.createdAt && UserExists(users, c.userId)
    ensures ConversationsValid(cs + [c], users, n + 1, c.createdAt)
    ensures forall x :: x in cs ==> x.id != c.id
  {
  }

  lemma MessagesAfterConversationsAppend(ms: seq<Message>, cs: seq<Conversation>, n: int, clock: nat, c: Conversation, now: nat)
    requires MessagesValid(ms, cs, n, clock) && clock <= now
    ensures MessagesValid(ms, cs + [c], n, now)
  {
    forall m | m in ms ensures ConversationExists(cs + [c], m.conversationId) {
      var owner :| owner in cs && owner.id == m.conversationId;
      assert owner in cs + [c];
    }
  }

  lemma MessagesAppend(ms: seq<Message>, cs: seq<Conversation>, n: int, clock: nat, m: Message)
    requires MessagesValid(ms, cs, n, clock)
    requires m.id == n && clock <= m.createdAt && ConversationExists(cs, m.conversationId)
    ensures MessagesValid(ms + [m], cs, n + 1, m.createdAt)
    ensures forall x :: x in ms ==> x.id != m.id && x.createdAt <= m.createdAt
  {
  }

  /** No stored message points at an id at or above the conversation counter. */
  lemma NextConversationHasNoMessages(ms: seq<Message>, cs: seq<Conversation>, users: seq<User>, nc: int, nm: int, clock: nat)
    requires ConversationsValid(cs, users, nc, clock) && MessagesValid(ms, cs, nm, clock)
    ensures MessagesFor(ms, nc) == []
  {
    forall m | m in ms ensures m.conversationId != nc {
      var owner :| owner in cs && owner.id == m.conversationId;
      var i :| 0 <= i < |cs| && cs[i] == owner;
    }
    MessagesForNone(ms, nc);
  }

  /** Storing user u under the next id keeps all three tables valid. */
  lemma UserStep(users: seq<User>, cs: seq<Conversation>, ms: seq<Message>,
                 nu: int, nc: int, nm: int, clock: nat, u: User)
    requires UsersValid(users, nu, clock) && ConversationsValid(cs, users, nc, clock) && MessagesValid(ms, cs, nm, clock)
    requires u.id == nu && clock <= u.createdAt
    requires !IsUsernameExists(users, u.username) && !IsEmailExists(users, u.email)
    ensures UsersValid(users + [u], nu + 1, u.createdAt)
    ensures ConversationsValid(cs, users + [u], nc, u.createdAt)
    ensures MessagesValid(ms, cs, nm, u.createdAt)
    ensures forall x :: x in users ==> x.id != u.id
  {
    UsersAppend(users, nu, clock, u);
    ConversationsAfterUsersAppend(cs, users, nc, clock, u, u.createdAt);
    MessagesValidLater(ms, cs, nm, clock, u.createdAt);
  }

  /** Storing conversation c under the next id keeps all three tables valid; c has no messages yet. */
  lemma ConversationStep(users: seq<User>, cs: seq<Conversation>, ms: seq<Message>,
                         nu: int, nc: int, nm: int, clock: nat, c: Conversation)
    requires UsersValid(users, nu, clock) && ConversationsValid(cs, users, nc, clock) && MessagesValid(ms, cs, nm, clock)
    requires c.id == nc && clock <= c.createdAt && UserExists(users, c.userId)
    ensures UsersValid(users, nu, c.createdAt)
    ensures ConversationsValid(cs + [c], users, nc + 1, c.createdAt)
    ensures MessagesValid(ms, cs + [c], nm, c.createdAt)
    ensures forall x :: x in cs ==> x.id != c.id
    ensures MessagesFor(ms, c.id) == []
  {
    NextConversationHasNoMessages(ms, cs, users, nc, nm, clock);
    ConversationsAppend(cs, users, nc, clock, c);
    MessagesAfterConversationsAppend(ms, cs, nm, clock, c, c.createdAt);
    UsersValidLater(users, nu, clock, c.createdAt);
  }

  /** Storing message m under the next id keeps all three tables valid and adds m to its conversation only. */
  lemma MessageStep(users: seq<User>, cs: seq<Conversation>, ms: seq<Message>,
                    nu: int, nc: int, nm: int, clock: nat, m: Message)
    requires UsersValid(users, nu, clock) && ConversationsValid(cs, users, nc, clock) && MessagesValid(ms, cs, nm, clock)
    requires m.id == nm && clock <= m.createdAt && ConversationExists(cs, m.conversationId)
    ensures UsersValid(users, nu, m.createdAt)
    ensures ConversationsValid(cs, users, nc, m.createdAt)
    ensures MessagesValid(ms + [m], cs, nm + 1, m.createdAt)
    ensures forall x :: x in ms ==> x.id != m.id && x.createdAt <= m.createdAt
    ensures forall id :: MessagesFor(ms + [m], id)
                      == if m.conversationId == id then MessagesFor(ms, id) + [m] else MessagesFor(ms, id)
  {
    forall id ensures MessagesFor(ms + [m], id)
                   == if m.conversationId == id then MessagesFor(ms, id) + [m] else MessagesFor(ms, id) {
      MessagesForAppend(ms, m, id);
    }
    MessagesAppend(ms, cs, nm, clock, m);
    ConversationsValidLater(cs, users, nc, clock, m.createdAt);
    UsersValidLater(users, nu, clock, m.createdAt);
  }

  /** A list that follows the owner filter entry by entry lists exactly the owner's rows, in table order. */
  lemma LoadedOwned(cs: seq<Conversation>, userId: int, owned: seq<Conversation>, r: seq<ConversationWithMessages>)
    requires forall c :: c in owned <==> c in cs && c.userId == userId
    requires IdsIncreasing(cs) ==> IdsIncreasing(owned)
    requires |r| == |owned| && forall k :: 0 <= k < |r| ==> r[k].conversation == owned[k]
    ensures forall k :: 0 <= k < |r| ==> r[k].conversation in cs && r[k].conversation.userId == userId
    ensures forall c :: c in cs && c.userId == userId ==> exists k :: 0 <= k < |r| && r[k].conversation == c
    ensures IdsIncreasing(cs) ==> forall i, j :: 0 <= i < j < |r| ==> r[i].conversation.id < r[j].conversation.id
  {
    forall k | 0 <= k < |r| ensures r[k].conversation in cs && r[k].conversation.userId == userId {
      assert owned[k] in owned;
    }
    forall c | c in cs && c.userId == userId ensures exists k :: 0 <= k < |r| && r[k].conversation == c {
      var k :| 0 <= k < |owned| && owned[k] == c;
      assert r[k].conversation == c;
    }
  }

  class Database {
    var users: seq<User>
    var conversations: seq<Conversation>
    var messages: seq<Message>
    var nextUserId: int
    var nextConversationId: int
    var nextMessageId: int
    /** The latest `func.now()` value handed out; timestamps never go backwards. */
    var clock: nat

    ghost predicate Valid()
      reads this
    {
      && UsersValid(users, nextUserId, clock)
      && ConversationsValid(conversations, users, nextConversationId, clock)
      && MessagesValid(messages, conversations, nextMessageId, clock)
    }

    /** Every stored username and email is lower case (what registration keeps true). */
    ghost predicate CaseFolded()
      reads this
    {
      forall u :: u in users ==> IsLower(u.username) && IsLower(u.email)
    }

    /** An empty database whose autoincrement counters start at 1. */
    constructor ()
      ensures Valid() && CaseFolded()
      ensures users == [] && conversations == [] && messages == []
      ensures nextUserId == 1 && nextConversationId == 1 && nextMessageId == 1 && clock == 0
    {
      users, conversations, messages := [], [], [];
      nextUserId, nextConversationId, nextMessageId := 1, 1, 1;
      clock := 0;
    }

    /** A conversation row with its `messages` relationship as the ORM loads it. */
    function Load(c: Conversation): ConversationWithMessages
      reads this
    {
      ConversationWithMessages(c, OrderByCreatedAt(MessagesFor(messages, c.id)))
    }

    /**
     * `Conversation.get_by_id`: None for an id with no row, otherwise that row
     * with its messages; eager or lazy loading yields the same object.
     */
    function GetById(conversationId: int, withMessages: bool): (r: Option<ConversationWithMessages>)
      reads this
      ensures r.None? <==> !ConversationExists(conversations, conversationId)
      ensures r.Some? ==> r.value.conversation in conversations && r.value.conversation.id == conversationId
      ensures r.Some? ==> multiset(r.value.messages) == multiset(MessagesFor(messages, conversationId))
    {
      match FindConversation(conversations, conversationId)
      case None => None
      case Some(c) => Some(Load(c))
    }

    /** The loading option does not change what is returned. */
    lemma GetByIdLoadingIrrelevant(conversationId: int)
      ensures GetById(conversationId, true) == GetById(conversationId, false)
    {
    }

    /** Ids start at 1, so no id at or below 0 is ever found. */
    lemma GetByIdNonPositive(conversationId: int, withMessages: bool)
      requires Valid()
      requires conversationId <= 0
      ensures GetById(conversationId, withMessages) == None
    {
    }

    /**
     * A found conversation's messages are exactly the rows that carry its id,
     * in insertion order: ordering them by `created_at` moves nothing.
     */
    lemma GetByIdMessagesInInsertionOrder(conversationId: int, withMessages: bool)
      requires Valid()
      requires GetById(conversationId, withMessages).Some?
      ensures GetById(conversationId, withMessages).value.messages == MessagesFor(messages, conversationId)
      ensures SortedByCreatedAt(GetById(conversationId, withMessages).value.messages)
    {
      MessagesForSorted(messages, conversationId);
      OrderByCreatedAtKeepsSorted(MessagesFor(messages, conversationId));
    }

    /** A stored conversation is found by its id, with its relationship loaded. */
    lemma GetByIdStored(c: Conversation)
      requires Valid()
      requires c in conversations
      ensures GetById(c.id, true) == Some(Load(c))
    {
      FindStored(conversations, c);
    }

    /**
     * `Conversation.get_by_user_id`, which routers/conversation.py:46 calls but
     * models/conversation.py does not define: taken to be the user's
     * conversations in insertion order, each with its messages loaded.
     */
    function GetByUserId(userId: int, withMessages: bool): (r: seq<ConversationWithMessages>)
      reads this
      ensures forall k :: 0 <= k < |r| ==>
                r[k].conversation in conversations && r[k].conversation.userId == userId
      ensures forall k :: 0 <= k < |r| ==> r[k] == Load(r[k].conversation)
      ensures forall c :: c in conversations && c.userId == userId ==>
                exists k :: 0 <= k < |r| && r[k].conversation == c
      ensures IdsIncreasing(conversations) ==>
                forall i, j :: 0 <= i < j < |r| ==> r[i].conversation.id < r[j].conversation.id
    {
      var owned := ConversationsOwnedBy(conversations, userId);
      var r := seq(|owned|, k requires 0 <= k < |owned| reads this => Load(owned[k]));
      ConversationsOwnedByIncreasing(conversations, userId);
      LoadedOwned(conversations, userId, owned, r);
      r
    }

    /** Each entry of `get_by_user_id` is what `get_by_id` returns for that entry's id. */
    lemma GetByUserIdAgreesWithGetById(userId: int, k: int)
      requires Valid()
      requires 0 <= k < |GetByUserId(userId, true)|
      ensures var e := GetByUserId(userId, true)[k]; GetById(e.conversation.id, true) == Some(e)
    {
      var e := GetByUserId(userId, true)[k];
      assert e.conversation in conversations && e == Load(e.conversation);
      GetByIdStored(e.conversation);
    }

    /** Inserts a `users` row; a duplicate username or email violates its UNIQUE constraint. */
    method AddUser(username: string, email: string, passwordHash: string, now: nat)
      returns (r: Result<User, DbError>)
      requires Valid() && clock <= now
      modifies this
      ensures Valid()
      ensures r.Err? <==> IsUsernameExists(old(users), username) || IsEmailExists(old(users), email)
      ensures r.Err? ==> r.error == UniqueViolation && unchanged(this)
      ensures r.Ok? ==>
                && r.value == User(old(nextUserId), username, email, passwordHash, now, None)
                && users == old(users) + [r.value]
                && conversations == old(conversations) && messages == old(messages)
                && nextUserId == old(nextUserId) + 1
                && nextConversationId == old(nextConversationId) && nextMessageId == old(nextMessageId)
                && clock == now
      ensures r.Ok? ==> forall u :: u in old(users) ==> u.id != r.value.id
    {
      if IsUsernameExists(users, username) || IsEmailExists(users, email) {
        return Err(UniqueViolation);
      }
      var u := User(nextUserId, username, email, passwordHash, now, None);
      users := users + [u];
      nextUserId := nextUserId + 1;
      clock := now;
      UserStep(old(users), conversations, messages, old(nextUserId), nextConversationId, nextMessageId, old(clock), u);
      r := Ok(u);
    }

    /**
     * `Conversation.create_conversation`: stores the title and owner as given
     * and the prompt through the default-prompt rule; a `userId` with no user
     * row violates the foreign key and nothing is stored.
     */
    method CreateConversation(userId: int, title: string, prompt: Option<string>, now: nat)
      returns (r: Result<Conversation, DbError>)
      requires Valid() && clock <= now
      modifies this
      ensures Valid()
      ensures r.Err? <==> !UserExists(old(users), userId)
      ensures r.Err? ==> r.error == ForeignKeyViolation && unchanged(this)
      ensures r.Ok? ==>
                && r.value == Conversation(old(nextConversationId), userId, title, StoredPrompt(prompt), now, None)
                && conversations == old(conversations) + [r.value]
                && users == old(users) && messages == old(messages)
                && nextConversationId == old(nextConversationId) + 1
                && nextUserId == old(nextUserId) && nextMessageId == old(nextMessageId)
                && clock == now
      ensures r.Ok? ==> forall c :: c in old(conversations) ==> c.id != r.value.id
      ensures r.Ok? ==> MessagesFor(messages, r.value.id) == []
    {
      if !UserExists(users, userId) {
        return Err(ForeignKeyViolation);
      }
      var c := Conversation(nextConversationId, userId, title, StoredPrompt(prompt), now, None);
      conversations := conversations + [c];
      nextConversationId := nextConversationId + 1;
      clock := now;
      ConversationStep(users, old(conversations), messages, nextUserId, old(nextConversationId), nextMessageId, old(clock), c);
      r := Ok(c);
    }

    /**
     * `Message.create_message`: appends one row with the given conversation,
     * sender and content (stored verbatim); an unknown conversation violates
     * the foreign key and nothing is stored.
     */
    method CreateMessage(conversationId: int, sentBy: SenderType, content: string, now: nat)
      returns (r: Result<Message, DbError>)
      requires Valid() && clock <= now
      modifies this
      ensures Valid()
      ensures r.Err? <==> !ConversationExists(old(conversations), conversationId)
      ensures r.Err? ==> r.error == ForeignKeyViolation && unchanged(this)
      ensures r.Ok? ==>
                && r.value == Message(old(nextMessageId), conversationId, sentBy, content, now, None)
                && messages == old(messages) + [r.value]
                && users == old(users) && conversations == old(conversations)
                && nextMessageId == old(nextMessageId) + 1
                && nextUserId == old(nextUserId) && nextConversationId == old(nextConversationId)
                && clock == now
      ensures r.Ok? ==> forall m :: m in old(messages) ==> m.id != r.value.id && m.createdAt <= r.value.createdAt
      ensures r.Ok? ==> MessagesFor(messages, conversationId) == MessagesFor(old(messages), conversationId) + [r.value]
      ensures forall id :: id != conversationId ==> MessagesFor(messages, id) == MessagesFor(old(messages), id)
    {
      if !ConversationExists(conversations, conversationId) {
        return Err(ForeignKeyViolation);
      }
      var m := Message(nextMessageId, conversationId, sentBy, content, now, None);
      messages := messages + [m];
      nextMessageId := nextMessageId + 1;
      clock := now;
      MessageStep(users, conversations, old(messages), nextUserId, nextConversationId, old(nextMessageId), old(clock), m);
      r := Ok(m);
    }
  }
}
