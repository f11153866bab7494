/**
  Messages of a conversation and `system_prompt` in rag_api.py.

  The developer prompt is one fixed template (the product overview, the
  behaviour rules, the citation-marker protocol and two worked examples) with
  the chunk pool written into its `<documentation>` slot. The template's
  wording is static text and is not reproduced: the content of a developer
  message is represented by the value filling that slot.
*/
module Prompt {
  import opened Wrappers
  import opened Chunks

  /** The `role` of a message. */
  datatype Role = Developer | Assistant | User

  /**
    The `content` of a message: plain text, or the developer template
    instantiated with what `system_prompt` received (`None` when it was
    called without argument, as on a conversation's first turn).
  */
  datatype Content = Text(text: string) | Instructions(documentation: Option<Pool>)

  datatype Message = Message(role: Role, content: Content)

  /** The canned greeting that opens every conversation. */
  const Greeting: string := "How can I help you today?"

  /** rag_api.py `system_prompt`: a developer message built from the pool alone. */
  function SystemPrompt(chunks: Option<Pool>): (m: Message)
    ensures m.role == Developer
    ensures m.content.Instructions?
  {
    Message(Developer, Instructions(chunks))
  }

  /**
    The prompt depends on the pool and on nothing else, and distinct pools
    give distinct prompts: rebuilding it from an unchanged pool reproduces it.
  */
  lemma SystemPromptDeterminedByPool(a: Option<Pool>, b: Option<Pool>)
    ensures SystemPrompt(a) == SystemPrompt(b) <==> a == b
  {
  }
}
