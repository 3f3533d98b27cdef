/** The records shared by the chat client: roles, attachments, messages and sessions. */
module Types {

  datatype Option<+T> = None | Some(value: T) {
    function GetOr(default: T): T {
      match this
      case Some(v) => v
      case None => default
    }
  }

  datatype Result<+T, +E> = Ok(value: T) | Err(error: E)

  /** The two speakers of a conversation. */
  datatype Role = User | Model

  /** Id of the greeting every session starts with; the history filter leaves it out. */
  const WELCOME_ID := "welcome"

  /** The wire literal of a role, as the enum in types.ts spells it. */
  function RoleLiteral(r: Role): (lit: string)
    ensures lit == "user" || lit == "model"
    ensures lit == "user" <==> r == User
  {
    match r
    case User => "user"
    case Model => "model"
  }

  /**
   * One piece of media bound to a message. `data` is the base64 payload; it is
   * `None` where JavaScript would hold `undefined` (a data URL without a comma).
   * `previewUrl` is a local display reference and is never sent to the backend.
   */
  datatype Attachment = Attachment(mimeType: string, data: Option<string>, previewUrl: Option<string>)

  /**
   * A chat message. `isStreaming` and `attachments` are optional fields:
   * `None` is an absent property.
   */
  datatype Message = Message(
    id: string,
    role: Role,
    text: string,
    isStreaming: Option<bool>,
    attachments: Option<seq<Attachment>>,
    timestamp: int)

  datatype ChatSession = ChatSession(id: string, title: string, messages: seq<Message>, timestamp: int)
}
