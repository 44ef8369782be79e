/**
 * The `conversations` table row, its default system prompt, its `messages`
 * relationship (the rows of `messages` carrying its id, ordered by
 * `created_at`) and the lookups over the table (server/models/conversation.py).
 */
module ConversationModel {
  import opened Wrappers
  import opened MessageModel

  const DEFAULT_SYSTEM_PROMPT: string := "You are a helpful and friendly assistant."

  datatype Conversation = Conversation(
    id: int,
    userId: int,
    title: string,
    prompt: string,
    createdAt: nat,
    updatedAt: Option<nat>)

  /** A conversation object as a query hands it out: the row and its `messages` relationship. */
  datatype ConversationWithMessages = ConversationWithMessages(conversation: Conversation, messages: seq<Message>)

  /** The prompt `create_conversation` persists: the default when none or an empty one is given. */
  function StoredPrompt(prompt: Option<string>): (r: string)
    ensures r != ""
    ensures prompt == None || prompt == Some("") ==> r == DEFAULT_SYSTEM_PROMPT
    ensures prompt.Some? && prompt.value != "" ==> r == prompt.value
  {
    if prompt.Some? && prompt.value != "" then prompt.value else DEFAULT_SYSTEM_PROMPT
  }

  predicate ConversationExists(cs: seq<Conversation>, id: int) {
    exists c :: c in cs && c.id == id
  }

  /** `filter(Conversation.id == id).first()`: the first row with this id, None when there is none. */
  function FindConversation(cs: seq<Conversation>, id: int): (r: Option<Conversation>)
    ensures r.None? <==> !ConversationExists(cs, id)
    ensures r.Some? ==> r.value in cs && r.value.id == id
  {
    if cs == [] then None
    else if cs[0].id == id then Some(cs[0])
    else FindConversation(cs[1..], id)
  }

  /** With pairwise distinct ids, looking up a stored row's id finds that row. */
  lemma {:induction false} FindStored(cs: seq<Conversation>, c: Conversation)
    requires forall i, j :: 0 <= i < j < |cs| ==> cs[i].id < cs[j].id
    requires c in cs
    ensures FindConversation(cs, c.id) == Some(c)
  {
    if cs[0] != c {
      assert c in cs[1..];
      assert cs[0].id != c.id by {
        var j :| 0 <= j < |cs| && cs[j] == c;
      }
      FindStored(cs[1..], c);
    }
  }

  /** The conversations of one user, in insertion order (the query behind `get_by_user_id`). */
  function ConversationsOwnedBy(cs: seq<Conversation>, userId: int): (r: seq<Conversation>)
    ensures forall c :: c in r <==> c in cs && c.userId == userId
  {
    if cs == [] then []
    else
      var init := ConversationsOwnedBy(cs[..|cs| - 1], userId);
      assert cs == cs[..|cs| - 1] + [cs[|cs| - 1]];
      if cs[|cs| - 1].userId == userId then init + [cs[|cs| - 1]] else init
  }

  /** Ids strictly increase along the list: each row appears once, in insertion order. */
  predicate IdsIncreasing(cs: seq<Conversation>) {
    forall i, j :: 0 <= i < j < |cs| ==> cs[i].id < cs[j].id
  }

  /** A new conversation joins the list of its own owner, at the end, and no other list. */
  lemma ConversationsOwnedByAppend(cs: seq<Conversation>, c: Conversation, userId: int)
    ensures ConversationsOwnedBy(cs + [c], userId)
         == if c.userId == userId then ConversationsOwnedBy(cs, userId) + [c]
            else ConversationsOwnedBy(cs, userId)
  {
    assert (cs + [c])[..|cs + [c]| - 1] == cs;
  }

  /** Filtering by owner keeps the table's order: increasing ids stay increasing. */
  lemma {:induction false} ConversationsOwnedByIncreasing(cs: seq<Conversation>, userId: int)
    ensures IdsIncreasing(cs) ==> IdsIncreasing(ConversationsOwnedBy(cs, userId))
  {
    if cs != [] && IdsIncreasing(cs) {
      var init, last := cs[..|cs| - 1], cs[|cs| - 1];
      assert IdsIncreasing(init) by {
        forall i, j | 0 <= i < j < |init| ensures init[i].id < init[j].id {
          assert init[i] == cs[i] && init[j] == cs[j];
        }
      }
      ConversationsOwnedByIncreasing(init, userId);
      var r := ConversationsOwnedBy(init, userId);
      forall x | x in r ensures x.id < last.id {
        var i :| 0 <= i < |init| && init[i] == x;
        assert cs[i] == x;
      }
      assert forall i, j :: 0 <= i < j < |r + [last]| ==> (r + [last])[i].id < (r + [last])[j].id by {
        forall i, j | 0 <= i < j < |r + [last]| ensures (r + [last])[i].id < (r + [last])[j].id {
          if j == |r| {
            assert (r + [last])[i] in r;
          }
        }
      }
    }
  }

  predicate SortedByCreatedAt(ms: seq<Message>) {
    forall i, j :: 0 <= i < j < |ms| ==> ms[i].createdAt <= ms[j].createdAt
  }

  /** The rows of the messages table that carry `conversationId`, in insertion order. */
  function MessagesFor(ms: seq<Message>, conversationId: int): (r: seq<Message>)
    ensures forall m :: m in r <==> m in ms && m.conversationId == conversationId
  {
    if ms == [] then []
    else
      var init := MessagesFor(ms[..|ms| - 1], conversationId);
      assert ms == ms[..|ms| - 1] + [ms[|ms| - 1]];
      if ms[|ms| - 1].conversationId == conversationId then init + [ms[|ms| - 1]] else init
  }

  /** A conversation that no row points to has no messages. */
  lemma {:induction false} MessagesForNone(ms: seq<Message>, conversationId: int)
    requires forall m :: m in ms ==> m.conversationId != conversationId
    ensures MessagesFor(ms, conversationId) == []
  {
    if ms != [] {
      MessagesForNone(ms[..|ms| - 1], conversationId);
      assert ms[|ms| - 1] in ms;
    }
  }

  /** Appending a row adds it to its own conversation's messages and to no other. */
  lemma MessagesForAppend(ms: seq<Message>, m: Message, conversationId: int)
    ensures MessagesFor(ms + [m], conversationId)
         == if m.conversationId == conversationId then MessagesFor(ms, conversationId) + [m]
            else MessagesFor(ms, conversationId)
  {
    assert (ms + [m])[..|ms + [m]| - 1] == ms;
  }

  /** Taking one conversation's messages out of a table ordered by `created_at` keeps that order. */
  lemma {:induction false} MessagesForSorted(ms: seq<Message>, conversationId: int)
    requires SortedByCreatedAt(ms)
    ensures SortedByCreatedAt(MessagesFor(ms, conversationId))
  {
    if ms != [] {
      var init, last := ms[..|ms| - 1], ms[|ms| - 1];
      assert ms == init + [last];
      MessagesForSorted(init, conversationId);
      var r := MessagesFor(init, conversationId);
      forall x | x in r ensures x.createdAt <= last.createdAt {
        var i :| 0 <= i < |init| && init[i] == x;
        assert ms[i] == x;
      }
    }
  }

  /**
   * Inserts m into a list ordered by `created_at`, after every element whose
   * time is at most m's: equal times keep their insertion order.
   */
  function InsertByCreatedAt(sorted: seq<Message>, m: Message): (r: seq<Message>)
    ensures multiset(r) == multiset(sorted) + multiset{m}
  {
    if sorted == [] || sorted[|sorted| - 1].createdAt <= m.createdAt then sorted + [m]
    else
      assert sorted == sorted[..|sorted| - 1] + [sorted[|sorted| - 1]];
      InsertByCreatedAt(sorted[..|sorted| - 1], m) + [sorted[|sorted| - 1]]
  }

  /** `order_by="Message.created_at"`: a stable sort of the rows by their creation time. */
  function OrderByCreatedAt(ms: seq<Message>): (r: seq<Message>)
    ensures multiset(r) == multiset(ms)
  {
    if ms == [] then []
    else
      assert ms == ms[..|ms| - 1] + [ms[|ms| - 1]];
      InsertByCreatedAt(OrderByCreatedAt(ms[..|ms| - 1]), ms[|ms| - 1])
  }

  /** Dropping the newest row of an ordered list leaves an ordered list. */
  lemma SortedInit(ms: seq<Message>)
    requires ms != [] && SortedByCreatedAt(ms)
    ensures SortedByCreatedAt(ms[..|ms| - 1])
  {
    var init := ms[..|ms| - 1];
    forall i, j | 0 <= i < j < |init| ensures init[i].createdAt <= init[j].createdAt {
      assert init[i] == ms[i] && init[j] == ms[j];
    }
  }

  /** A row no older than any row of an ordered list may follow it. */
  lemma SortedSnoc(ms: seq<Message>, m: Message)
    requires SortedByCreatedAt(ms)
    requires forall x :: x in ms ==> x.createdAt <= m.createdAt
    ensures SortedByCreatedAt(ms + [m])
  {
    forall i, j | 0 <= i < j < |ms + [m]| ensures (ms + [m])[i].createdAt <= (ms + [m])[j].createdAt {
      if j == |ms| {
        assert (ms + [m])[i] in ms;
      }
    }
  }

  lemma {:induction false} InsertByCreatedAtSorted(sorted: seq<Message>, m: Message)
    requires SortedByCreatedAt(sorted)
    ensures SortedByCreatedAt(InsertByCreatedAt(sorted, m))
  {
    if sorted == [] || sorted[|sorted| - 1].createdAt <= m.createdAt {
      forall x | x in sorted ensures x.createdAt <= m.createdAt {
        var i :| 0 <= i < |sorted| && sorted[i] == x;
      }
      SortedSnoc(sorted, m);
    } else {
      var init, last := sorted[..|sorted| - 1], sorted[|sorted| - 1];
      SortedInit(sorted);
      InsertByCreatedAtSorted(init, m);
      var r := InsertByCreatedAt(init, m);
      forall x | x in r ensures x.createdAt <= last.createdAt {
        assert x in multiset(r);
        if x != m {
          assert x in multiset(init);
          var i :| 0 <= i < |init| && init[i] == x;
          assert sorted[i] == x;
        }
      }
      SortedSnoc(r, last);
    }
  }

  /** The ordering really sorts: its result is ordered by `created_at`. */
  lemma {:induction false} OrderByCreatedAtSorted(ms: seq<Message>)
    ensures SortedByCreatedAt(OrderByCreatedAt(ms))
  {
    if ms != [] {
      OrderByCreatedAtSorted(ms[..|ms| - 1]);
      InsertByCreatedAtSorted(OrderByCreatedAt(ms[..|ms| - 1]), ms[|ms| - 1]);
    }
  }

  /** A row no older than the last one goes at the end. */
  lemma InsertAtEnd(sorted: seq<Message>, m: Message)
    requires sorted == [] || sorted[|sorted| - 1].createdAt <= m.createdAt
    ensures InsertByCreatedAt(sorted, m) == sorted + [m]
  {
  }

  /** A list already in `created_at` order comes back exactly as it is (ties are never reordered). */
  lemma {:induction false} OrderByCreatedAtKeepsSorted(ms: seq<Message>)
    requires SortedByCreatedAt(ms)
    ensures OrderByCreatedAt(ms) == ms
  {
    if ms != [] {
      var init, last := ms[..|ms| - 1], ms[|ms| - 1];
      assert ms == init + [last];
      calc {
        OrderByCreatedAt(ms);
        InsertByCreatedAt(OrderByCreatedAt(init), last);
        { SortedInit(ms); OrderByCreatedAtKeepsSorted(init); }
        InsertByCreatedAt(init, last);
        { assert init == [] || init[|init| - 1] == ms[|ms| - 2];
          InsertAtEnd(init, last); }
        init + [last];
      }
    }
  }
}
