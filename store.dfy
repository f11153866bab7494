/**
  The conversation store and the request handlers of rag_api.py: the two
  module-level dictionaries `conversations` and `conversation_chunks`, and
  `create` (POST /chat), `show` (GET /conversations/{id}) and `destroy`
  (DELETE /conversations/{id}) acting on them.

  The vector search and the completion call are external services: their
  results, the search hits and the reply text, are parameters of `Create`,
  where `None` stands for a call that raised.
*/
module Store {
  import opened Wrappers
  import opened Chunks
  import opened Prompt
  import opened Citations

  /** The id a chat request carries when it names none. */
  const DefaultConversationId: string := "default"

  const NotFoundError: string := "Conversation not found"
  const DeletedMessage: string := "Conversation deleted"

  /** Body of the POST /chat response. */
  datatype ChatReply = ChatReply(message: string, conversationId: string)

  /** Body of the GET /conversations/{id} response. */
  datatype ShowReply = History(conversationId: string, history: seq<Message>) | ShowError(error: string)

  /** Body of the DELETE /conversations/{id} response. */
  datatype DestroyReply = Deleted(message: string) | DestroyError(error: string)

  /** The history a new conversation starts from, before its first turn. */
  function InitialHistory(): (h: seq<Message>)
    ensures |h| == 2 && h[0] == SystemPrompt(None) && h[1] == Message(Assistant, Text(Greeting))
  {
    [SystemPrompt(None), Message(Assistant, Text(Greeting))]
  }

  /**
    The shape of a history built only from completed turns, apart from its
    first entry: a greeting, then user and assistant entries strictly
    alternating, ending with an assistant entry.
  */
  predicate Alternating(h: seq<Message>) {
    && |h| >= 2 && |h| % 2 == 0
    && h[1] == Message(Assistant, Text(Greeting))
    && forall k :: 2 <= k < |h| ==> h[k].role == (if k % 2 == 0 then User else Assistant)
  }

  /** A history of completed turns whose prompt was built from `pool`. */
  predicate WellFormedHistory(h: seq<Message>, pool: Pool) {
    Alternating(h) && h[0] == SystemPrompt(Some(pool))
  }

  /**
    The shape of any stored history apart from its first entry: a greeting,
    then only user and assistant entries, each assistant entry answering the
    user entry right before it. A user entry may stay unanswered, because the
    question is stored before the completion call, which may raise.
  */
  predicate Dialogue(h: seq<Message>) {
    && |h| >= 2
    && h[1] == Message(Assistant, Text(Greeting))
    && forall k :: 2 <= k < |h| ==> h[k].role != Developer && (h[k].role == Assistant ==> h[k - 1].role == User)
  }

  /**
    What a stored history looks like between requests: its prompt is built
    from the conversation's pool, or, when the search raised on the first
    turn, it is still the initial history next to an empty pool.
  */
  predicate StoredHistory(h: seq<Message>, pool: Pool) {
    Dialogue(h) && (h[0] == SystemPrompt(Some(pool)) || (h == InitialHistory() && pool == map[]))
  }

  /** Histories of completed turns are among the stored ones. */
  lemma WellFormedIsStored(h: seq<Message>, pool: Pool)
    requires WellFormedHistory(h, pool)
    ensures StoredHistory(h, pool)
  {
  }

  /** The part of a turn before the completion call: new prompt, then the question. */
  function Question(h: seq<Message>, pool: Pool, userMessage: string): (h': seq<Message>)
    requires |h| >= 1
    ensures |h'| == |h| + 1 && h'[0] == SystemPrompt(Some(pool)) && h'[1..|h|] == h[1..]
    ensures h'[|h|] == Message(User, Text(userMessage))
  {
    h[0 := SystemPrompt(Some(pool))] + [Message(User, Text(userMessage))]
  }

  /** One completed turn of `create` applied to a history: new prompt, question, answer. */
  function Turn(h: seq<Message>, pool: Pool, userMessage: string, reply: string): (h': seq<Message>)
    requires |h| >= 1
    ensures |h'| == |h| + 2 && h'[0] == SystemPrompt(Some(pool)) && h'[1..|h|] == h[1..]
    ensures h'[|h|] == Message(User, Text(userMessage)) && h'[|h| + 1] == Message(Assistant, Text(reply))
  {
    Question(h, pool, userMessage) + [Message(Assistant, Text(reply))]
  }

  /**
    A completed turn keeps the dialogue alternating and leaves the history
    well formed for the pool it was given, whatever the first entry was.
  */
  lemma TurnKeepsWellFormed(h: seq<Message>, pool: Pool, userMessage: string, reply: string)
    requires Alternating(h)
    ensures WellFormedHistory(Turn(h, pool, userMessage, reply), pool)
  {
  }

  /** A question left unanswered still leaves a stored history, ending with the question. */
  lemma QuestionKeepsDialogue(h: seq<Message>, pool: Pool, userMessage: string)
    requires Dialogue(h)
    ensures StoredHistory(Question(h, pool, userMessage), pool)
  {
  }

  /** A completed turn, after any stored history, leaves a stored history. */
  lemma TurnKeepsDialogue(h: seq<Message>, pool: Pool, userMessage: string, reply: string)
    requires Dialogue(h)
    ensures StoredHistory(Turn(h, pool, userMessage, reply), pool)
  {
  }

  /**
    When the completion call raises, the question stays in the history and
    the next turn puts its own question right after it: two user entries
    follow each other and the history is no longer alternating.
  */
  lemma UnansweredQuestionBreaksAlternation(h: seq<Message>, pool: Pool, question: string,
                                            pool': Pool, userMessage: string, reply: string)
    requires |h| >= 2
    ensures
      var h' := Turn(Question(h, pool, question), pool', userMessage, reply);
      h'[|h|] == Message(User, Text(question)) && h'[|h| + 1] == Message(User, Text(userMessage))
      && !Alternating(h')
  {
  }

  /**
    Every stored conversation has a pool, and its history is a stored
    history for that pool. The converse does not hold: `destroy` leaves the
    pool behind.
  */
  predicate ConsistentStore(conversations: map<string, seq<Message>>, chunks: map<string, Pool>) {
    && conversations.Keys <= chunks.Keys
    && forall id :: id in conversations ==> StoredHistory(conversations[id], chunks[id])
  }

  lemma UpdateTwice<K, V>(m: map<K, V>, k: K, a: V, b: V)
    ensures m[k := a][k := b] == m[k := b]
  {
  }

  lemma UpdateSame<K, V>(m: map<K, V>, k: K)
    requires k in m
    ensures m[k := m[k]] == m
  {
  }

  /** Storing a history together with a pool it fits keeps the store consistent. */
  lemma StoreTurnConsistent(conversations: map<string, seq<Message>>, chunks: map<string, Pool>,
                            id: string, h: seq<Message>, pool: Pool)
    requires ConsistentStore(conversations, chunks)
    requires StoredHistory(h, pool)
    ensures ConsistentStore(conversations[id := h], chunks[id := pool])
  {
  }

  /** Forgetting a history, and only the history, keeps the store consistent. */
  lemma StoreRemoveConsistent(conversations: map<string, seq<Message>>, chunks: map<string, Pool>, id: string)
    requires ConsistentStore(conversations, chunks)
    ensures ConsistentStore(conversations - {id}, chunks)
  {
  }

  class ConversationStore {
    var conversations: map<string, seq<Message>>
    var conversationChunks: map<string, Pool>

    ghost predicate Valid()
      reads this
    {
      ConsistentStore(conversations, conversationChunks)
    }

    constructor ()
      ensures Valid()
      ensures conversations == map[] && conversationChunks == map[]
    {
      conversations := map[];
      conversationChunks := map[];
    }

    /**
      rag_api.py `rag` after the search: each hit is written into the pool
      of `id` in place, one at a time.
    */
    method Rag(id: string, hits: seq<Hit>)
      requires id in conversationChunks
      modifies this
      ensures conversationChunks == old(conversationChunks)[id := MergeHits(old(conversationChunks)[id], hits)]
      ensures conversations == old(conversations)
    {
      var i := 0;
      while i < |hits|
        invariant 0 <= i <= |hits|
        invariant conversationChunks == old(conversationChunks)[id := MergeHits(old(conversationChunks)[id], hits[..i])]
        invariant conversations == old(conversations)
      {
        var hit := hits[i];
        assert hits[..i + 1][..i] == hits[..i];
        conversationChunks := conversationChunks[id := conversationChunks[id][hit.id := hit.text]];
        i := i + 1;
      }
      assert hits[..i] == hits;
    }

    /**
      rag_api.py `create`: one chat turn. `hits` is what the search returned
      for `userMessage` and `reply` what the model answered; `None` stands
      for a call that raised, which ends the request with what it had
      stored so far and no reply.
    */
    method Create(id: string, userMessage: string, hits: Option<seq<Hit>>, reply: Option<string>)
      returns (r: Option<ChatReply>)
      requires Valid()
      modifies this
      ensures Valid()
      // an unseen id, or one whose history was deleted, starts from the
      // initial history and an empty pool
      ensures
        var before := if id in old(conversations) then old(conversations)[id] else InitialHistory();
        var pool0: Pool := if id in old(conversations) then old(conversationChunks)[id] else map[];
        if hits.None? then
          // the search raised: only the initialisation took place
          && r.None?
          && conversationChunks == old(conversationChunks)[id := pool0]
          && conversations == old(conversations)[id := before]
        else
          var pool := MergeHits(pool0, hits.value);
          && conversationChunks == old(conversationChunks)[id := pool]
          && if reply.None? then
               // the completion call raised: the question stays unanswered
               && r.None?
               && conversations == old(conversations)[id := Question(before, pool, userMessage)]
             else
               && r == Some(ChatReply(RemoveBracketTags(reply.value), id))
               && conversations == old(conversations)[id := Turn(before, pool, userMessage, reply.value)]
    {
      ghost var conversations0, chunks0 := conversations, conversationChunks;
      if id !in conversations {
        conversations := conversations[id := InitialHistory()];
        conversationChunks := conversationChunks[id := map[]];
      }
      var before := conversations[id];
      if hits.None? {
        if id in conversations0 {
          UpdateSame(conversations0, id);
          UpdateSame(chunks0, id);
        } else {
          StoreTurnConsistent(conversations0, chunks0, id, before, map[]);
        }
        return None;
      }
      Rag(id, hits.value);
      var pool := conversationChunks[id];
      if id !in conversations0 {
        UpdateTwice(chunks0, id, map[], pool);
      }
      var asked := Question(before, pool, userMessage);
      conversations := conversations[id := asked];
      if id !in conversations0 {
        UpdateTwice(conversations0, id, InitialHistory(), asked);
      }
      if reply.None? {
        QuestionKeepsDialogue(before, pool, userMessage);
        StoreTurnConsistent(conversations0, chunks0, id, asked, pool);
        return None;
      }
      var answer := reply.value;
      var answered := asked + [Message(Assistant, Text(answer))];
      TurnKeepsDialogue(before, pool, userMessage, answer);
      StoreTurnConsistent(conversations0, chunks0, id, answered, pool);
      UpdateTwice(conversations0, id, asked, answered);
      conversations := conversations[id := answered];
      r := Some(ChatReply(RemoveBracketTags(answer), id));
    }

    /** rag_api.py `show`: the stored history, raw replies included. */
    method Show(id: string) returns (r: ShowReply)
      ensures r.History? <==> id in conversations
      ensures r.History? ==> r == History(id, conversations[id])
      ensures r.ShowError? ==> r.error == NotFoundError
    {
      if id !in conversations {
        return ShowError(NotFoundError);
      }
      r := History(id, conversations[id]);
    }

    /**
      rag_api.py `destroy`: forgets the history of `id` but keeps its pool,
      which is only emptied when the id is used again.
    */
    method Destroy(id: string) returns (r: DestroyReply)
      requires Valid()
      modifies this
      ensures Valid()
      ensures r == if id in old(conversations) then Deleted(DeletedMessage) else DestroyError(NotFoundError)
      ensures conversations == old(conversations) - {id}
      ensures conversationChunks == old(conversationChunks)
      ensures id in old(conversations) ==> id in conversationChunks && id !in conversations
    {
      if id in conversations {
        StoreRemoveConsistent(conversations, conversationChunks, id);
        conversations := conversations - {id};
        return Deleted(DeletedMessage);
      }
      r := DestroyError(NotFoundError);
    }
  }

  /**
    The life of one conversation under the default id: two turns, a turn
    whose completion call raises, a turn after it, a deletion, and a fresh
    start whose pool no longer holds the earlier hits.
  */
  method DefaultConversationLifecycle(h1: Hit, h2: Hit, q1: string, q2: string, q3: string, q4: string,
                                      a1: string, a2: string, a4: string)
    requires h1.id != h2.id
  {
    var store := new ConversationStore();
    var id := DefaultConversationId;
    var r1 := store.Create(id, q1, Some([h1]), Some(a1));
    assert r1 == Some(ChatReply(RemoveBracketTags(a1), id));
    assert |store.conversations[id]| == 4;
    var r2 := store.Create(id, q2, Some([h2]), Some(a2));
    assert |store.conversations[id]| == 6;
    assert store.conversationChunks[id] == map[h1.id := h1.text, h2.id := h2.text];
    assert store.conversations[id][0] == SystemPrompt(Some(store.conversationChunks[id]));
    // the completion call raises: the question is stored without an answer
    var r3 := store.Create(id, q3, Some([]), None);
    assert r3.None? && |store.conversations[id]| == 7;
    var r4 := store.Create(id, q4, Some([]), Some(a4));
    assert store.conversations[id][6] == Message(User, Text(q3));
    assert store.conversations[id][7] == Message(User, Text(q4));
    var shown := store.Show(id);
    assert shown == History(id, store.conversations[id]);
    var gone := store.Destroy(id);
    assert gone == Deleted(DeletedMessage);
    // the pool outlives the history
    assert store.conversationChunks[id] == map[h1.id := h1.text, h2.id := h2.text];
    shown := store.Show(id);
    assert shown == ShowError(NotFoundError);
    gone := store.Destroy(id);
    assert gone == DestroyError(NotFoundError);
    // the search raises on the fresh start: the stale pool is already gone
    var r5 := store.Create(id, q1, None, Some(a1));
    assert r5.None? && store.conversations[id] == InitialHistory();
    assert store.conversationChunks[id] == map[];
  }
}
