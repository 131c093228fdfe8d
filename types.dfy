/** The records the client passes around: chat messages, persisted sessions,
    agent presets and the connection settings. */
module Types {
  import opened Strings

  datatype Role = User | Assistant | System

  /** The role as it is written on the wire and in storage. */
  function RoleName(r: Role): string
  {
    match r
    case User => "user"
    case Assistant => "assistant"
    case System => "system"
  }

  /** A chat message; its `timestamp` doubles as its identity while a reply
      streams into it. */
  datatype Message = Message(role: Role, content: string, timestamp: int)

  datatype ChatSession = ChatSession(
    id: string,
    title: string,
    messages: seq<Message>,
    createdAt: int,
    updatedAt: int)

  datatype Agent = Agent(id: string, name: string, systemPrompt: string)

  /** `systemPrompt` is optional in the settings record. */
  datatype OllamaConfig = OllamaConfig(baseUrl: string, model: string, systemPrompt: Option<string>)

  const DefaultHost: string := "http://localhost:11434"
  const DefaultModel: string := "qwen3:0.6b"

  /** JavaScript truthiness of a `string | undefined` value: present and
      non-empty. */
  predicate Truthy(s: Option<string>)
  {
    s.Some? && s.value != []
  }
}
