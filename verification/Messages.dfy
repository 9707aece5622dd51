/** Chat messages as the agent stores them and hands them to a provider. */
module Messages {

  datatype Role = System | User | Assistant | Tool | Other(name: string)

  datatype ToolCall = ToolCall(id: string, name: string, arguments: string)

  datatype Message = Message(
    role: Role, content: string, media: seq<string>, reasoning: string, toolCalls: seq<ToolCall>, toolCallID: string)

  /** `providers.Message{Role: role, Content: content}`. */
  function Plain(role: Role, content: string): Message {
    Message(role, content, [], "", [], "")
  }

  /** An assistant message that asks for tools. */
  predicate IsCall(m: Message) {
    m.role == Assistant && m.toolCalls != []
  }

  predicate IsTool(m: Message) { m.role == Tool }

  /** What no filter may drop: user and other messages, and assistant messages without tool calls. */
  predicate IsKept(m: Message) {
    m.role != System && m.role != Tool && !IsCall(m)
  }
}
