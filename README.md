# chat-box server core in Dafny

This project models the core of the chat-box server. The server is a FastAPI application that stores users,
conversations and messages in a SQL database and builds prompt strings for a language model. The model covers:

- the three persistent entities and their class methods: `User.is_username_exists` / `is_email_exists`,
  `Conversation.create_conversation` / `get_by_id` and `Message.create_message`;
- the store that backs them, as one `Store.Database` class standing in for the SQLAlchemy session. The tables
  are sequences in insertion order. The auto-increment counters start at 1. A `clock` holds the latest
  server timestamp;
- the Pydantic validation rules on `UserCreate`, `ChatMessage` and `ChatRequest`;
- the registration endpoint `POST /users`: lower-casing, the duplicate check, password hashing, and the
  400 and 500 answers;
- the read-side endpoints `GET /conv-with-msg/{conversation_id}` and `GET /user-conv-with-msg/{user_id}`;
- the request resolution and prompt builders in `services/chat_model_services.py`.

Module layout:

| module | file |
|---|---|
| `Wrappers` (Option, Result) and `Http` (status and detail of an `HTTPException`) | helpers |
| `Text` (ASCII lower-casing, `"\n".join`) | helpers |
| `Settings` | `config.py` (only `DUMMY_USER_ID`) |
| `UserModel`, `MessageModel`, `ConversationModel` | `models/*.py` |
| `Store` | the database session behind the models |
| `UserSchemas`, `ChatSchemas` | `schemas/user.py`, `schemas/chat_model.py` |
| `ChatService` | `services/chat_model_services.py` |
| `UserRouter`, `ConversationRouter` | `routers/user.py`, `routers/conversation.py` |

Server timestamps (`func.now()`) enter as a `now` parameter. Every writing method requires `clock <= now`, so
the clock never goes backwards. The bcrypt hash enters as a `hashPassword` function parameter. An unexpected
exception inside `create_user` (a broken connection, say) enters as a `Fault` parameter that names where it strikes:
before the lookups, before the commit, or after the commit (in `refresh`), where the user stays stored.

Points of the code the model keeps as they are:

- `get_conversation_from_request` returns `None` for an unknown `conversation_id`; it raises no "not found" error.
  The model returns `Ok(None)`.
- `sent_by` is a SQL `Enum(SenderType)` column. The model holds the enum itself. The text that leaves the server is
  the member's `.value` ("user" or "assistant"), which the conversation responses carry.

Assumed where the code gives no definition:

- `Conversation.get_by_user_id` is called at routers/conversation.py:46 but models/conversation.py does not define
  it. As written, that call raises `AttributeError` and the endpoint answers 500. The model supplies the evident
  definition: a filter of the conversations table by `user_id`, in insertion order, with messages loaded.

The messages relationship is declared with `order_by="Message.created_at"`. It is modelled as a stable insertion
sort by `createdAt` (`ConversationModel.OrderByCreatedAt`). `Store` keeps the invariant that the messages table
is sorted by creation time. From that invariant the model proves that the sort returns the messages in the
order they were inserted. Where two messages share a `created_at`, the database leaves their order open; the
model breaks the tie by insertion order (see "## Left out").

## Model

| member | source | states |
|---|---|---|
| Text.Lower | server/routers/user.py:20-21 | The result has the input's length, lower-cases each ASCII capital and keeps every other character, and contains no capital |
| Text.LowerIdempotent | server/routers/user.py:20-21 | Lower-casing twice is the same as lower-casing once |
| Text.LowerKeepsPunctuation | server/schemas/user.py:17 | A character lower-cases to '@' exactly when it is '@', and to '.' exactly when it is '.' |
| Text.JoinSnoc | server/services/chat_model_services.py:56 | Joining a non-empty list with one more part appends the separator and that part |
| UserModel.IsUsernameExists | server/models/user.py:18-22 | True exactly when some stored user has that username |
| UserModel.IsEmailExists | server/models/user.py:24-28 | True exactly when some stored user has that email |
| UserModel.EmptyEmailNotFound | server/tests/test_user_model.py:60-65 | An empty email is never found among users that all have non-empty emails |
| MessageModel.SenderValue | server/routers/conversation.py:27 | A sender's `.value`, which responses carry, is "user" or "assistant" |
| MessageModel.ParseSender | server/models/message.py:10-12 | The enum lookup by value, `SenderType(v)`, succeeds exactly for "user" and "assistant" |
| MessageModel.SenderRoundTrip | server/models/message.py:10-12 | Looking up a sender's value gives that sender back |
| MessageModel.ParseSenderInverse | server/models/message.py:10-12 | A value that the lookup accepts is the value of the sender it gives |
| ConversationModel.StoredPrompt | server/models/conversation.py:36 | The stored prompt is never empty: the default system prompt when none or "" is given, the given prompt otherwise |
| ConversationModel.FindConversation | server/models/conversation.py:51 | Finds nothing exactly when no conversation has the id; what it finds is stored and has that id |
| ConversationModel.FindStored | server/models/conversation.py:14 | With strictly increasing ids, looking up a stored conversation's id returns that conversation |
| ConversationModel.ConversationsOwnedBy | server/routers/conversation.py:46 | Keeps exactly the conversations whose owner is the user |
| ConversationModel.ConversationsOwnedByAppend | server/routers/conversation.py:46 | A new conversation joins the end of its owner's list and no other list, so the list is in table order |
| ConversationModel.ConversationsOwnedByIncreasing | server/routers/conversation.py:46 | When ids increase along the table, they increase along each owner's list: table order, each conversation once |
| ConversationModel.MessagesFor | server/models/conversation.py:22-27 | Keeps exactly the messages of the conversation, in table order |
| ConversationModel.MessagesForNone | server/models/message.py:19-21 | A conversation id that no message references has no messages |
| ConversationModel.MessagesForAppend | server/models/message.py:32-35 | Appending a message adds it to its own conversation's list and leaves every other conversation's list unchanged |
| ConversationModel.MessagesForSorted | server/models/conversation.py:26 | The messages of a conversation stay sorted by creation time when the table is |
| ConversationModel.InsertByCreatedAt | server/models/conversation.py:26 | Inserting keeps the same messages (as a multiset) |
| ConversationModel.OrderByCreatedAt | server/models/conversation.py:26 | Ordering keeps the same messages (as a multiset) |
| ConversationModel.InsertByCreatedAtSorted | server/models/conversation.py:26 | Inserting into a sorted list gives a sorted list |
| ConversationModel.OrderByCreatedAtSorted | server/models/conversation.py:26 | The ordered messages are sorted by creation time |
| ConversationModel.OrderByCreatedAtKeepsSorted | server/models/conversation.py:26 | The ordering leaves an already sorted list exactly as it is (it is stable) |
| Store.Database.constructor | server/models/user.py:11 | A fresh database is empty, valid and case-folded, with every id counter at 1 |
| Store.Database.GetById | server/models/conversation.py:43-52 | None exactly when no conversation has the id; otherwise the stored row with that id, whose messages are exactly the message rows carrying that id |
| Store.Database.GetByIdLoadingIrrelevant | server/models/conversation.py:47-51 | Eager and lazy loading of messages return the same conversation with the same messages |
| Store.Database.GetByIdNonPositive | server/models/conversation.py:51-52 | In a valid store, ids 0 and below are never found |
| Store.Database.GetByIdMessagesInInsertionOrder | server/models/conversation.py:22-27 | In a valid store the loaded messages are the conversation's messages sorted by creation time, ties kept in insertion order |
| Store.Database.GetByIdStored | server/models/conversation.py:51 | Every stored conversation is found by its id, with its messages loaded |
| Store.Database.GetByUserId | server/routers/conversation.py:46 | A conversation is listed exactly when it is stored and owned by the user, each with its own messages loaded; with increasing table ids (as in a valid store) the list is in id order with no repeats |
| Store.Database.GetByUserIdAgreesWithGetById | server/routers/conversation.py:46 | Each listed entry is what get_by_id returns for its id |
| Store.Database.AddUser | server/routers/user.py:34-39 | Fails with a unique violation exactly when the username or email is taken, changing nothing; otherwise appends the user with the next id and the current time, advances the user id counter and sets the clock, leaving the other tables and counters alone |
| Store.Database.CreateConversation | server/models/conversation.py:29-41 | Fails with a foreign-key violation exactly when the user does not exist, changing nothing; otherwise appends a conversation with the next id, the stored prompt and the current time, which has no messages yet; advances the conversation id counter and sets the clock, leaving the other tables and counters alone |
| Store.Database.CreateMessage | server/models/message.py:28-36 | Fails with a foreign-key violation exactly when the conversation does not exist, changing nothing; otherwise appends the message with the next id and the current time to that conversation only; advances the message id counter and sets the clock, leaving the other tables and counters alone |
| UserSchemas.ValidUsername | server/schemas/user.py:12-14 | A username is valid exactly when it has 3 to 50 characters |
| UserSchemas.ValidPassword | server/schemas/user.py:20 | A password is valid exactly when it has at least 8 characters |
| UserSchemas.ValidEmail | server/schemas/user.py:15-19 | One '@' with something before it, and a '.' strictly inside what follows; equal to the pattern by EmailPatternIff |
| UserSchemas.FirstAt | server/schemas/user.py:17 | The position of the first '@', or the length when there is none, with no '@' before it |
| UserSchemas.EmailPatternIff | server/schemas/user.py:15-19 | The executable email check accepts exactly the strings the pattern ^[^@]+@[^@]+\.[^@]+$ matches |
| UserSchemas.EmailFromParts | server/schemas/user.py:17 | Any local part, domain and suffix that are non-empty and free of '@' form a valid email |
| UserSchemas.InvalidEmailRejected | server/tests/test_user_model.py:180-190 | "invalid-email" is rejected |
| UserSchemas.PlainEmailAccepted | server/schemas/user.py:17 | "test@example.com" is accepted |
| UserSchemas.UsernameLengthBoundary | server/schemas/user.py:12-14 | Usernames of 3 and 50 characters are accepted; usernames of 2 and 51 characters are rejected |
| UserSchemas.PasswordLengthBoundary | server/tests/test_user_model.py:204-214 | 7 characters are rejected and 8 accepted |
| UserSchemas.LowerKeepsEmailValid | server/routers/user.py:20 | Lower-casing a valid email keeps it valid |
| UserSchemas.LowerKeepsValidity | server/routers/user.py:19-21 | Under ASCII lower-casing, the username and email of a valid registration stay valid |
| ChatSchemas.ValidChatMessage | server/schemas/chat_model.py:14-18 | A message is valid exactly when its content has 1 to 4000 characters |
| ChatSchemas.ValidChatRequest | server/schemas/chat_model.py:21-28 | A request is valid exactly when it has 1 to 10 valid messages and no prompt or one of at most 4000 characters |
| ChatSchemas.RoleValue | server/schemas/chat_model.py:6-11 | A role's value is "system", "user" or "assistant" |
| ChatSchemas.ParseRole | server/schemas/chat_model.py:15 | Parsing succeeds exactly for the three role values |
| ChatSchemas.RoleRoundTrip | server/schemas/chat_model.py:6-11 | Parsing a role's value gives the role back |
| ChatSchemas.ParseRoleInverse | server/schemas/chat_model.py:15 | A value that parses is the value of its role |
| ChatSchemas.ValidRequestHasLastMessage | server/schemas/chat_model.py:26-28 | A valid request has a last message, and its content is non-empty and at most 4000 characters |
| ChatSchemas.MessageCountBounds | server/schemas/chat_model.py:26-28 | A valid request holds between 1 and 10 messages |
| ChatSchemas.PromptOptionalAndBounded | server/schemas/chat_model.py:23-25 | Given valid messages, a request is valid exactly when the prompt is absent or at most 4000 characters |
| ChatSchemas.MinimalRequestValid | server/schemas/chat_model.py:21-28 | A request with no id, no prompt and one user message "a" is valid |
| ChatService.ValidRequestTitle | server/services/chat_model_services.py:15 | For a valid request, the title is the last message's content |
| ChatService.RequestPromptStored | server/services/chat_model_services.py:16 | The stored prompt of a request without a prompt, or with "", is the default system prompt |
| ChatService.GetConversationFromRequest | server/services/chat_model_services.py:9-28 | With an id, the store is unchanged and the result is get_by_id with messages; without one, a conversation for the placeholder user is created with the last message as title and the request's prompt, and the result is what get_by_id then returns for it; its creation time is `now` and it has no update time or messages; the conversation id counter advances, the clock is set and the other tables and counters stay |
| ChatService.GeneratePrompt | server/services/chat_model_services.py:31-40 | Without messages the prompt is the stored prompt; with messages it is the stored prompt, "\nUser: ", the last message's content and "\nAssistant:", and both of those can be read back from the result |
| ChatService.SystemPrompt | server/services/chat_model_services.py:43-46 | The result starts with "[System Instruction]"; a newline follows exactly when the prompt is non-empty, and then the prompt itself |
| ChatService.SystemPromptOfEmpty | server/services/chat_model_services.py:44-45 | An empty prompt gives the fixed helpful-assistant instruction |
| ChatService.SystemPromptInjective | server/services/chat_model_services.py:43-46 | Different prompts give different system instructions |
| ChatService.ConversationHistory | server/services/chat_model_services.py:49-57 | The loop builds the header followed by the "Role: content" lines joined by newlines, and the result is empty exactly when there are no messages |
| ChatService.HistoryAppend | server/services/chat_model_services.py:52-56 | One more message adds a newline and that message's line to a non-empty history |
| ChatService.HistoryExample | server/services/chat_model_services.py:52-57 | A user message "a" then an assistant message "b" give the header, "User: a", a newline and "Assistant: b" |
| ChatService.TaskDescription | server/services/chat_model_services.py:60-61 | The task section is the "[Task]" header line followed by "Reply to the last user message.", whatever the conversation |
| UserRouter.CreateUser | server/routers/user.py:13-61 | A fault at the lookups or before the commit gives 500 and changes nothing; a taken lower-cased username or email gives 400 and changes nothing; otherwise the user is appended with the lower-cased names, the hash of the password and the current time, the user id counter advances and the clock is set, and the response repeats the id, names and time, or is 500 with the user still stored when the fault strikes after the commit. The store stays valid and case-folded |
| UserRouter.CaseVariantIsDuplicate | server/routers/user.py:20-29 | In a case-folded store, a registration whose names differ from a stored user's only in case is a duplicate |
| UserRouter.MixedCaseUsernameCollides | server/tests/test_user_model.py:134-155 | After "testuser" is stored, "TestUser" is rejected as a duplicate |
| UserRouter.MixedCaseEmailCollides | server/tests/test_user_model.py:157-178 | After "test@example.com" is stored, "Test@Example.Com" is rejected as a duplicate |
| ConversationRouter.MessageResponse | server/routers/conversation.py:25-30 | Copies id, content and time; the sender is "user" or "assistant" and parses back to the message's sender |
| ConversationRouter.ConversationResponse | server/routers/conversation.py:33-39 | Copies id, title, prompt and time, and maps every message one for one, in order |
| ConversationRouter.MessageResponses | server/routers/conversation.py:21-31 | The loop yields one response per message, of the same length and in the same order |
| ConversationRouter.GetConversation | server/routers/conversation.py:15-39 | 404 "Conversation not found" exactly when get_by_id finds nothing; otherwise the response built from the loaded conversation |
| ConversationRouter.GetConversationMessages | server/routers/conversation.py:21-31 | In a valid store the response lists the conversation's messages sorted by creation time, ties kept in insertion order |
| ConversationRouter.GetUserConversations | server/routers/conversation.py:42-68 | 404 "No conversations found for user" exactly when the placeholder user owns no conversation; otherwise one response per owned conversation, in order |
| ConversationRouter.UserIdIgnored | server/routers/conversation.py:45 | The answer does not depend on the user id in the path |
| ConversationRouter.UserConversationsAgreeWithGetById | server/routers/conversation.py:51-68 | On a valid store, each listed response equals the single-conversation response for its id |
| ConversationRouter.UserConversationsComplete | server/routers/conversation.py:45-51 | Every conversation of the placeholder user appears in the answer, which is then never the 404 |

## Left out

- `routers/chat_model.py`, the model loader and text generation: they call an external language model, and the
  chat router stores no messages.
- bcrypt: `hash_password` draws a random salt, and `verify_password` is never called by the core. The hash is
  the `hashPassword` parameter of `UserRouter.CreateUser`.
- Cascade deletes (`ondelete="CASCADE"`, `delete-orphan`): the core has no delete operation.
- SQL sessions, transactions, `joinedload`, `refresh` and the N+1 query concern. The store is a value in memory,
  and each writing method is one commit.
- Concurrency between requests: each method runs alone.
- Column length limits (`String(50)`, `String(255)`, `String(4000)`): the database dialect decides what happens
  on overflow. Only the Pydantic limits are modelled.
- `isoformat()` rendering of timestamps: a timestamp is a `nat` and responses carry it unchanged.
- `updated_at` (`onupdate`): nothing in the core updates a row, so it is always `None`.
- Text.Lower: folds ASCII capitals only, where Python's `str.lower` folds every script. `str.lower` can also
  lengthen a string (U+0130 'İ' becomes two characters), so the length clause of `Text.Lower` holds for ASCII
  folding only.
- UserSchemas.LowerKeepsValidity: its username bound holds for ASCII folding only. With `str.lower`, 26 × 'İ'
  passes `max_length=50` and is stored with 52 characters. The email half holds for full folding too: no
  lower-case mapping creates or removes an '@' or a '.', or empties a part.
- The nullable `prompt` column: every create path stores a non-empty prompt, so the model keeps a `string`.
- `ChatResponse` (schemas/chat_model.py:31-33): only the chat router builds one, and that router is left out.
- ConversationModel.OrderByCreatedAt: SQL leaves the order of rows with equal `created_at` open (`func.now()` can
  give two messages of one request the same second); the model breaks such ties by insertion order, which is what
  the conversation tests expect.
- Authentication (`auth.py`), configuration loading, database start-up and the client application.
- Logging in `create_user`; a failure in the log line after the commit is the `FailsAfterCommit` fault.
