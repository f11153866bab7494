# GROSS support chatbot: conversation store and citation stripping

This project is a Dafny model of the stateful core of the GROSS support chatbot API (`rag_api.py`).
The API keeps one history per conversation id, together with a pool of documentation chunks.
Each chat turn does the following:

- it merges the chunks the vector search returned into the pool;
- it rebuilds the developer prompt around that pool;
- it appends the user's question and the model's answer to the history;
- it returns the answer with its `[[chunk-id]]` citation markers removed.

Other requests show a stored history or delete it.

Modules:

- `Wrappers`: `Option`.
- `Citations`: `remove_bracket_tags`, written as a left-to-right scanner that behaves like Python's `re.sub` with the pattern `\[\[.*?\]\]\s*(\r?\n)?`. Around it are lemmas that describe what the scanner removes and what it keeps.
- `CitationExamples`: consequences of those lemmas for the shapes of text that replies take.
- `Chunks`: the chunk pool and `MergeHits`, the specification of the merge loop in `rag`.
- `Prompt`: messages, roles, the greeting and `system_prompt`.
- `Store`: the class `ConversationStore`.
  - Its two fields are the dictionaries `conversations` and `conversation_chunks`.
  - Its methods are `Rag` (the merge loop, done in place), `Create`, `Show` and `Destroy`.
  - The module also has the invariant the store keeps and a scenario over the default id, including a failed completion call and a failed search.

The model follows what the code does at these points:

- Citations: the `\s*` in the pattern is greedy. It removes all white space after a marker, line breaks included, not only the "immediate newlines" the comment at rag_api.py:135 speaks of. So `"[[a]]\ntext[[b]]\nmore"` becomes `"textmore"`, not `"text\nmore"` (`CitationExamples.TwoMarkersExample`). The trailing `(\r?\n)?` can then only match the empty string.
- Deletion: `destroy` removes the id from `conversations` only (rag_api.py:236). The chunk pool stays behind until the id is used again, and at that point the pool is reset to empty (rag_api.py:167). So the two maps do not always have the same keys. The invariant `Store.ConsistentStore` only requires that every stored history has a pool.
- First prompt: on a conversation's first turn the initial history holds `system_prompt()`, which is called with no argument and so embeds `None`. That entry is replaced within the same turn (rag_api.py:177), unless the search raises first; then the initial history stays next to an empty pool.
- Failed calls: `Create` takes the search hits and the reply as `Option` values, with `None` standing for a call that raised. Whatever the handler stored before the failure stays stored. In particular the question is appended (rag_api.py:196) before the completion call (rag_api.py:199-203), so a failed call leaves an unanswered question, and the next turn puts a second question right after it (`Store.UnansweredQuestionBreaksAlternation`). The store invariant `Store.ConsistentStore` therefore only asks that each assistant entry answers the user entry before it; strict alternation (`Store.TurnKeepsWellFormed`) holds for histories built from completed turns alone.

## Model

| member | source | states |
|---|---|---|
| Citations.FindClose | rag_api.py:136 | The lazy `.*?\]\]` part: any position it returns is at or after the start and holds `]]`. |
| Citations.FindCloseSpec | rag_api.py:136 | What `FindClose` finds is the first `]]` from the start, with no line feed before it. When it finds nothing, every later `]]` has a line feed before it. |
| Citations.SkipSpace | rag_api.py:136 | The greedy `\s*` part: it stops at the end of the text or at a character that is not white space. |
| Citations.SkipSpaceSpec | rag_api.py:136 | Everything `SkipSpace` skips is white space, so the run it takes is maximal. |
| Citations.MarkerEnd | rag_api.py:136 | A match that starts at `i` ends at least four characters later and within the text. |
| Citations.MarkerEndIsMarker | rag_api.py:136 | `MarkerEnd` finds exactly the matches `IsMarker` describes: `[[`, the first `]]` on the same line, then maximal white space. It finds none when `[[` is missing or every later `]]` is on another line. |
| Citations.Scan | rag_api.py:136 | Scanning from index `i` never yields more than the remaining characters. |
| Citations.RemoveBracketTags | rag_api.py:134-136 | The output is never longer than the input. |
| Citations.ScanVerbatim | rag_api.py:136 | A stretch of text where no match starts is copied verbatim. |
| Citations.FirstMarkerRemoved | rag_api.py:136 | The text before the first match is kept, the match is removed, and the scan continues after it. |
| Citations.MarkerMatches | rag_api.py:136 | A `[[` with a `]]` later on its line always starts a match. |
| Citations.ScanShrinks | rag_api.py:136 | If a match starts anywhere after `i`, the scan from `i` is strictly shorter than the rest of the text. |
| Citations.UnchangedIffNoMarker | rag_api.py:134-136 | The output equals the input if and only if the input holds no `[[` followed on the same line by `]]`. |
| Citations.FindCloseSuffix | rag_api.py:136 | The lazy search looks only forward, so it gives the same answer on a suffix of the text. |
| Citations.SkipSpaceSuffix | rag_api.py:136 | The white-space run is the same on a suffix of the text. |
| Citations.MarkerEndSuffix | rag_api.py:136 | Matching at a position is the same on a suffix of the text. |
| Citations.ScanSuffix | rag_api.py:136 | Scanning from `k` on is `remove_bracket_tags` of the text from `k` on. |
| Citations.MarkerEndAt | rag_api.py:136 | A `[[`, an id with no `]` and no line feed, `]]`, and then maximal white space form one match, ending exactly where the white space ends. |
| Citations.MarkerDropped | rag_api.py:136 | In `p + "[[" + x + "]]" + w + t`, where `p` has no `[`, the marker and all of the white space `w` are removed, `p` is kept, and the rest is `remove_bracket_tags(t)`. |
| CitationExamples.NoBracketKept | rag_api.py:134-136 | Text without `[` comes back unchanged. |
| CitationExamples.TwoMarkersExample | rag_api.py:136 | Two cited points, each marker on its own line: both markers and both line breaks are removed, so the points run together. |
| CitationExamples.SplitMarkerKept | rag_api.py:136 | A `[[` whose `]]` is on a later line is not a marker and stays in the output. |
| Chunks.MergeHits | rag_api.py:54-58 | The pool after writing every hit's text under its id, first hit to last: it keeps every old key and holds every hit id. |
| Chunks.MergeHitsKeys | rag_api.py:54-58 | After the merge, the pool's keys are its old keys plus the hit ids, so the pool only grows. |
| Chunks.MergeHitsLastWins | rag_api.py:58 | Each hit id maps to the text of the last hit that carries it. |
| Chunks.MergeHitsKeepsOthers | rag_api.py:54-58 | Ids that no hit carries keep their old entry, or stay absent. |
| Chunks.MergeHitsOverrides | rag_api.py:58 | Merging into a pool equals overriding the pool with the merge of the hits alone. |
| Chunks.MergeHitsIdempotent | rag_api.py:58 | Merging the same hits twice gives the same pool as merging them once. |
| Prompt.SystemPrompt | rag_api.py:63-66 | The prompt always has role developer and the instruction template as content. |
| Prompt.SystemPromptDeterminedByPool | rag_api.py:63-90 | Two prompts are equal if and only if they embed the same pool. This holds by construction, because the model's prompt content is the pool itself. |
| Store.InitialHistory | rag_api.py:161-165 | A new history holds two entries: the prompt built with no pool (`system_prompt()`), then the assistant greeting. |
| Store.Question | rag_api.py:177-196 | The part of a turn before the completion call makes the history one entry longer. Slot 0 becomes the prompt for the new pool, entries 1 to the old end are unchanged, and the last entry is the user's message. |
| Store.Turn | rag_api.py:177-211 | A completed turn makes the history two entries longer. Slot 0 becomes the prompt for the new pool, entries 1 to the old end are unchanged, and the last two entries are the user's message and the raw reply. |
| Store.TurnKeepsWellFormed | rag_api.py:177-211 | After a completed turn on a history of completed turns, the history is well formed for the pool it was given: prompt, greeting, then strictly alternating user and assistant entries. |
| Store.WellFormedIsStored | rag_api.py:161-211 | A history of completed turns satisfies the store invariant. |
| Store.QuestionKeepsDialogue | rag_api.py:177-203 | When the completion call raises, the history, now ending with the unanswered question, still satisfies the store invariant for the merged pool. |
| Store.TurnKeepsDialogue | rag_api.py:177-211 | A completed turn after any stored history leaves a history that satisfies the store invariant for the merged pool. |
| Store.UnansweredQuestionBreaksAlternation | rag_api.py:196-208 | After a failed completion call, the next turn places its question right after the unanswered one, so the history is no longer alternating. |
| Store.StoreTurnConsistent | rag_api.py:167-211 | Storing a history that fits its pool keeps every stored history backed by its pool. |
| Store.StoreRemoveConsistent | rag_api.py:235-236 | Removing only a history keeps the store consistent, even though its pool stays. |
| Store.ConversationStore.constructor | rag_api.py:32-33 | The store starts with both maps empty and is consistent. |
| Store.ConversationStore.Rag | rag_api.py:54-58 | The in-place loop leaves the pool of `id` equal to `MergeHits` of its old pool and the hits. No other pool and no history changes. |
| Store.ConversationStore.Create | rag_api.py:156-217 | An unseen or deleted id first gets the initial history and an empty pool; a stored id keeps both. If the search raises, nothing else changes and there is no reply. Otherwise the pool becomes its merge with the hits. If the completion call then raises, the history becomes `Question` of the old history with the new pool and there is no reply. Otherwise the history becomes `Turn` of the old history, and the reply is `remove_bracket_tags(reply)` with the same id. Other ids are untouched, and the store stays consistent in every case. |
| Store.ConversationStore.Show | rag_api.py:222-229 | The history is returned if and only if the id is stored, and it is the stored history. Otherwise the result is the "Conversation not found" error. |
| Store.ConversationStore.Destroy | rag_api.py:234-239 | "Conversation deleted" is returned if and only if the id was stored, and "Conversation not found" otherwise. Only `conversations` loses the id. `conversation_chunks` is unchanged. The store stays consistent. |

## Left out

- The FastAPI application, the CORS middleware, the routes and the pydantic request model (rag_api.py:1-29, 37-39, 142-151) are transport plumbing. Only the default id `"default"` is kept, as `Store.DefaultConversationId`.
- The vector search (rag_api.py:44-50) and the completion call with its tracing (rag_api.py:199-205) are network services. Their results, the hits and the reply text, are parameters of `Create`, with `None` for a call that raised. The query text, the `top_k` of 3, the kind of exception and the error response the framework then sends do not appear.
- Malformed hits, where `fields` or `chunk_text` is missing (rag_api.py:55-56), are not modelled. Every hit carries an id and a text.
- Prompt.SystemPrompt: the template's wording (rag_api.py:66-131) is not reproduced. A developer message holds the value that fills the `<documentation>` slot. Python prints that dictionary in insertion order, and a Dafny `map` does not record that order. So two pools with the same entries, inserted in different orders, give the same model prompt, while Python's prompt text would differ.
- Citations.IsSpace: Python's `\s` also accepts other Unicode white space. The model accepts only space, tab, line feed, carriage return, form feed and vertical tab.
- Concurrent requests: the source has no locking, and the model treats requests as one after another.
- The interactive scripts bot_00.py, bot_04.py and agent/agent_00.py are not part of this model. They do console I/O, completion calls and e-mail, and hold no logic of their own.
