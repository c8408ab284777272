/**
 * The conversation context the voice framework hands to the turn hook: an ordered
 * list of role-tagged messages that only ever grows at the end.
 */
module Chat {

  /** The roles a chat message can carry. */
  datatype Role = Developer | System | User | Assistant

  datatype ChatMessage = ChatMessage(role: Role, content: string)

  /** `llm.ChatContext`: its `items`, changed only by `add_message`. */
  class ChatContext {
    var items: seq<ChatMessage>

    /** An empty context. */
    constructor ()
      ensures items == []
    {
      items := [];
    }

    /** `add_message(role=..., content=...)`: appends one message at the end. */
    method AddMessage(role: Role, content: string)
      modifies this
      ensures items == old(items) + [ChatMessage(role, content)]
    {
      items := items + [ChatMessage(role, content)];
    }
  }
}
