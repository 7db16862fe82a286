/** The conversation a session keeps and the compaction pipeline rewrites. */
module Conversation {
  import opened Wrappers
  import opened Text

  datatype ToolCall = ToolCall(id: string, name: string, arguments: string)

  datatype ContentPart = TextPart(text: string) | ImagePart(url: string)

  datatype SyntheticReason =
    | CompactionMeta | SystemReminder | ProjectInstructions | AutoContinue | AutoRecovery
    | Interjection | TaskCompleted | SubagentCompleted | NotificationDrain | GoalSummary
    | GoalClassifierNudge | SchedulerFired | Unknown

  datatype PriorTurnInterrupt = MidTurnAbort | PermissionRejected | PermissionCancelled | UnknownInterrupt

  /**
   A backend tool call is represented by the one-line summary the source renders
   it to, a reasoning item by its text and its encrypted blob.
   */
  datatype Item =
    | System(content: string)
    | User(parts: seq<ContentPart>, reason: Option<SyntheticReason>,
           interrupt: Option<PriorTurnInterrupt>, promptIndex: Option<nat>)
    | Assistant(content: string, toolCalls: seq<ToolCall>, modelId: Option<string>)
    | ToolResult(callId: string, content: string, images: seq<ContentPart>)
    | BackendToolCall(summary: string)
    | Reasoning(text: string, encrypted: Option<string>)

  function UserText(text: string, reason: Option<SyntheticReason>): Item {
    User([TextPart(text)], reason, None, None)
  }

  function Result(callId: string, content: string): Item {
    ToolResult(callId, content, [])
  }

  function Texts(parts: seq<ContentPart>): seq<string> {
    if parts == [] then []
    else (match parts[0] case TextPart(text) => [text] case ImagePart(_) => []) + Texts(parts[1..])
  }

  predicate HasImages(parts: seq<ContentPart>) {
    exists p | p in parts :: p.ImagePart?
  }

  function TextContent(item: Item): string {
    match item
    case System(content) => content
    case User(parts, _, _, _) => Join(Texts(parts), "\n")
    case Assistant(content, _, _) => content
    case ToolResult(_, content, _) => content
    case BackendToolCall(summary) => summary
    case Reasoning(text, _) => text
  }

  /** The tool-call ids an item declares: only assistant turns declare any. */
  function CallIds(item: Item): set<string> {
    if item.Assistant? then (set call | call in item.toolCalls :: call.id) else {}
  }
}
