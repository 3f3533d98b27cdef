/**
 * The client of the generative backend: how a conversation becomes a chat
 * request (history turns and the new turn, each a list of content parts), how
 * the reply stream is turned into the fragments the application sees, and how a
 * picked file's data URL is turned into an inline-data part.
 *
 * The backend itself is not modelled: its reply is the value `BackendReply`,
 * the text of each streamed event and whether the stream failed after them.
 */
module GeminiService {
  import opened Types
  import opened Text

  const MODEL_NAME := "gemini-2.5-flash"
  const SYSTEM_INSTRUCTION := "You are Lumina, a helpful, witty, and concise AI assistant. You prefer short, elegant answers unless asked for details. You can see images and watch video clips."
  /** The one fragment yielded when creating or consuming the stream fails. */
  const FALLBACK := "I encountered an error connecting to the neural network. Please check your connection and try again."

  /** A content part of a turn: inline media or text. */
  datatype Part = InlineData(mimeType: string, data: Option<string>) | TextPart(text: string)

  /** One turn of the conversation as the backend receives it; `role` is the role's literal. */
  datatype Turn = Turn(role: string, parts: seq<Part>)

  /** What `chats.create` and `sendMessageStream` are given. */
  datatype ChatRequest = ChatRequest(model: string, systemInstruction: string, history: seq<Turn>, message: seq<Part>)

  /** The backend's answer: the `text` of each streamed event (`None` when absent), and whether it failed after them. */
  datatype BackendReply = BackendReply(events: seq<Option<string>>, failed: bool)

  // ---------------------------------------------------------------------------
  // Request construction

  /** The inline-data part of an attachment: its MIME type and payload, never its preview URL. */
  function InlinePart(a: Attachment): Part {
    InlineData(a.mimeType, a.data)
  }

  /** The parts of a turn: every attachment in order, then the text when it is non-empty. */
  function TurnParts(attachments: seq<Attachment>, text: string): (parts: seq<Part>)
    ensures |parts| == |attachments| + (if text != "" then 1 else 0)
    ensures forall i :: 0 <= i < |attachments| ==>
              parts[i] == InlineData(attachments[i].mimeType, attachments[i].data)
    ensures text != "" ==> parts[|attachments|] == TextPart(text)
  {
    if attachments == [] then
      (if text != "" then [TextPart(text)] else [])
    else
      [InlinePart(attachments[0])] + TurnParts(attachments[1..], text)
  }

  /** The attachment list of a message, empty when the property is absent. */
  function AttachmentsOf(m: Message): seq<Attachment> {
    m.attachments.GetOr([])
  }

  /** The history filter: not the welcome message, and some text or at least one attachment. */
  predicate IsSent(m: Message): (sent: bool)
    ensures sent <==> m.id != WELCOME_ID && (m.text != "" || AttachmentsOf(m) != [])
  {
    m.id != WELCOME_ID && (m.text != "" || (m.attachments.Some? && |m.attachments.value| > 0))
  }

  /** A sent message as a turn: its role's literal, then its parts. */
  function FormatTurn(m: Message): (t: Turn)
    ensures t.role == RoleLiteral(m.role)
    ensures |t.parts| == |AttachmentsOf(m)| + (if m.text != "" then 1 else 0)
    ensures forall i :: 0 <= i < |AttachmentsOf(m)| ==>
              t.parts[i] == InlineData(AttachmentsOf(m)[i].mimeType, AttachmentsOf(m)[i].data)
    ensures m.text != "" ==> t.parts[|AttachmentsOf(m)|] == TextPart(m.text)
  {
    Turn(RoleLiteral(m.role), TurnParts(AttachmentsOf(m), m.text))
  }

  /** The messages of `history` that pass the filter, in their order. */
  function Kept(history: seq<Message>): (kept: seq<Message>)
    ensures |kept| <= |history|
    ensures forall i :: 0 <= i < |kept| ==> IsSent(kept[i]) && kept[i] in history
  {
    if history == [] then []
    else
      var last := history[|history| - 1];
      Kept(history[..|history| - 1]) + (if IsSent(last) then [last] else [])
  }

  /** The formatted history: each kept message becomes a turn. */
  function FormattedHistory(history: seq<Message>): (turns: seq<Turn>)
    ensures |turns| == |Kept(history)|
  {
    if history == [] then []
    else
      var last := history[|history| - 1];
      FormattedHistory(history[..|history| - 1]) + (if IsSent(last) then [FormatTurn(last)] else [])
  }

  /** The request sent for `newMessage` with `attachments` after `history`. */
  function BuildRequest(history: seq<Message>, newMessage: string, attachments: seq<Attachment>): ChatRequest {
    ChatRequest(MODEL_NAME, SYSTEM_INSTRUCTION, FormattedHistory(history), TurnParts(attachments, newMessage))
  }

  /** A message is kept exactly when it occurs in the history and passes the filter. */
  lemma {:induction false} KeptMembers(history: seq<Message>, m: Message)
    ensures m in Kept(history) <==> m in history && IsSent(m)
  {
    if history != [] {
      var init := history[..|history| - 1];
      KeptMembers(init, m);
      assert history == init + [history[|history| - 1]];
    }
  }

  /** Filtering keeps relative order: it distributes over concatenation. */
  lemma {:induction false} KeptAppend(a: seq<Message>, b: seq<Message>)
    ensures Kept(a + b) == Kept(a) + Kept(b)
  {
    if b != [] {
      var init := b[..|b| - 1];
      var last := b[|b| - 1];
      KeptAppend(a, init);
      assert (a + b)[..|a + b| - 1] == a + init;
      assert (a + b)[|a + b| - 1] == last;
      var tail := if IsSent(last) then [last] else [];
      calc {
        Kept(a + b);
        Kept(a + init) + tail;
        (Kept(a) + Kept(init)) + tail;
        Kept(a) + (Kept(init) + tail);
      }
      assert Kept(b) == Kept(init) + tail;
    } else {
      assert a + b == a;
    }
  }

  /** A message the filter rejects leaves no turn in front of any history. */
  lemma {:induction false} FormattedHistoryDropsUnsent(m: Message, history: seq<Message>)
    requires !IsSent(m)
    ensures FormattedHistory([m] + history) == FormattedHistory(history)
  {
    if history == [] {
      assert [m][..0] == [];
    } else {
      var init := history[..|history| - 1];
      FormattedHistoryDropsUnsent(m, init);
      assert ([m] + history)[..|history|] == [m] + init;
      assert ([m] + history)[|history|] == history[|history| - 1];
    }
  }

  /** The formatted history is the kept messages, each formatted as a turn, in order. */
  lemma {:induction false} FormattedHistoryIsKept(history: seq<Message>)
    ensures |FormattedHistory(history)| == |Kept(history)|
    ensures forall i :: 0 <= i < |Kept(history)| ==> FormattedHistory(history)[i] == FormatTurn(Kept(history)[i])
  {
    if history != [] {
      FormattedHistoryIsKept(history[..|history| - 1]);
    }
  }

  /**
   * Every turn of the formatted history keeps its message's role, and its part
   * count is the attachment count plus one for non-empty text.
   */
  lemma HistoryTurnShape(history: seq<Message>, i: nat)
    requires i < |Kept(history)|
    ensures i < |FormattedHistory(history)|
    ensures FormattedHistory(history)[i].role == RoleLiteral(Kept(history)[i].role)
    ensures |FormattedHistory(history)[i].parts| ==
              |AttachmentsOf(Kept(history)[i])| + (if Kept(history)[i].text != "" then 1 else 0)
  {
    FormattedHistoryIsKept(history);
  }

  /** Builds the parts of one turn by pushing onto a list, as the source's `forEach` does. */
  method BuildParts(attachments: seq<Attachment>, text: string) returns (parts: seq<Part>)
    ensures parts == TurnParts(attachments, text)
  {
    parts := [];
    var i := 0;
    while i < |attachments|
      invariant 0 <= i <= |attachments|
      invariant |parts| == i
      invariant forall j :: 0 <= j < i ==> parts[j] == InlinePart(attachments[j])
    {
      parts := parts + [InlinePart(attachments[i])];
      i := i + 1;
    }
    if text != "" {
      parts := parts + [TextPart(text)];
    }
  }

  /** Filters and formats the history one message at a time. */
  method FormatHistory(history: seq<Message>) returns (turns: seq<Turn>)
    ensures turns == FormattedHistory(history)
  {
    turns := [];
    var i := 0;
    while i < |history|
      invariant 0 <= i <= |history|
      invariant turns == FormattedHistory(history[..i])
    {
      var m := history[i];
      assert history[..i + 1][..i] == history[..i];
      if IsSent(m) {
        var parts := BuildParts(AttachmentsOf(m), m.text);
        turns := turns + [Turn(RoleLiteral(m.role), parts)];
      }
      i := i + 1;
    }
    assert history[..|history|] == history;
  }

  // ---------------------------------------------------------------------------
  // The reply stream

  /** The text of one event; an absent text reads as empty. */
  function EventText(e: Option<string>): string {
    e.GetOr("")
  }

  /** The texts the generator yields for `events`: the non-empty ones, in order. */
  function NonEmptyTexts(events: seq<Option<string>>): (texts: seq<string>)
    ensures |texts| <= |events|
    ensures forall i :: 0 <= i < |texts| ==> texts[i] != ""
  {
    if events == [] then []
    else
      var t := EventText(events[|events| - 1]);
      NonEmptyTexts(events[..|events| - 1]) + (if t != "" then [t] else [])
  }

  /** Everything the stream delivered, concatenated. */
  function ReplyText(events: seq<Option<string>>): string {
    if events == [] then "" else ReplyText(events[..|events| - 1]) + EventText(events[|events| - 1])
  }

  /** Everything the generator yields: the non-empty texts, then the fallback on failure. */
  function Yielded(reply: BackendReply): (fragments: seq<string>)
    ensures |fragments| <= |reply.events| + (if reply.failed then 1 else 0)
    ensures reply.failed ==> fragments != [] && fragments[|fragments| - 1] == FALLBACK
  {
    NonEmptyTexts(reply.events) + (if reply.failed then [FALLBACK] else [])
  }

  /** Dropping empty texts loses nothing of the reply: the fragments still concatenate to it. */
  lemma {:induction false} NonEmptyTextsKeepText(events: seq<Option<string>>)
    ensures Concat(NonEmptyTexts(events)) == ReplyText(events)
  {
    if events != [] {
      var init := events[..|events| - 1];
      NonEmptyTextsKeepText(init);
      var t := EventText(events[|events| - 1]);
      if t != "" {
        var r := NonEmptyTexts(init) + [t];
        assert NonEmptyTexts(events) == r;
        assert r[..|r| - 1] == NonEmptyTexts(init) && r[|r| - 1] == t;
      } else {
        assert NonEmptyTexts(events) == NonEmptyTexts(init);
        assert ReplyText(events) == ReplyText(init) + "";
      }
    }
  }

  /** Yielding keeps the order received: the filter distributes over concatenation. */
  lemma {:induction false} NonEmptyTextsAppend(a: seq<Option<string>>, b: seq<Option<string>>)
    ensures NonEmptyTexts(a + b) == NonEmptyTexts(a) + NonEmptyTexts(b)
  {
    if b != [] {
      var init := b[..|b| - 1];
      var t := EventText(b[|b| - 1]);
      var tail := if t != "" then [t] else [];
      NonEmptyTextsAppend(a, init);
      assert (a + b)[..|a + b| - 1] == a + init;
      assert (a + b)[|a + b| - 1] == b[|b| - 1];
      calc {
        NonEmptyTexts(a + b);
        NonEmptyTexts(a + init) + tail;
        (NonEmptyTexts(a) + NonEmptyTexts(init)) + tail;
        NonEmptyTexts(a) + (NonEmptyTexts(init) + tail);
      }
    } else {
      assert a + b == a;
    }
  }

  /** A concatenation of non-empty fragments is empty only when there are none. */
  lemma ConcatOfNonEmpty(fragments: seq<string>)
    requires forall i :: 0 <= i < |fragments| ==> fragments[i] != ""
    ensures Concat(fragments) == "" <==> fragments == []
  {
    if fragments != [] {
      assert fragments[|fragments| - 1] != "";
    }
  }

  /**
   * The generator yields nothing at all exactly when the backend succeeded and
   * delivered no text; every item it yields is a non-empty string.
   */
  lemma YieldedShape(reply: BackendReply)
    ensures Yielded(reply) == [] <==> !reply.failed && ReplyText(reply.events) == ""
    ensures forall i :: 0 <= i < |Yielded(reply)| ==> Yielded(reply)[i] != ""
  {
    NonEmptyTextsKeepText(reply.events);
    ConcatOfNonEmpty(NonEmptyTexts(reply.events));
  }

  /** A failure before any text was delivered yields the fallback fragment and nothing else. */
  lemma SilentFailureYieldsFallback(reply: BackendReply)
    requires reply.failed && ReplyText(reply.events) == ""
    ensures Yielded(reply) == [FALLBACK]
  {
    NonEmptyTextsKeepText(reply.events);
    ConcatOfNonEmpty(NonEmptyTexts(reply.events));
  }

  /** Formatting a history with one more message adds that message's turn, if it passes the filter. */
  lemma FormattedHistorySnoc(history: seq<Message>, m: Message)
    ensures FormattedHistory(history + [m]) == FormattedHistory(history) + (if IsSent(m) then [FormatTurn(m)] else [])
  {
    assert (history + [m])[..|history|] == history;
  }

  /**
   * `streamGeminiResponse`: formats the request, then yields every non-empty
   * event text in order; a failure adds the one fallback fragment and is not raised.
   */
  method StreamReply(history: seq<Message>, newMessage: string, attachments: seq<Attachment>, reply: BackendReply)
    returns (request: ChatRequest, yielded: seq<string>)
    ensures request == BuildRequest(history, newMessage, attachments)
    ensures yielded == Yielded(reply)
  {
    var turns := FormatHistory(history);
    var current := BuildParts(attachments, newMessage);
    request := ChatRequest(MODEL_NAME, SYSTEM_INSTRUCTION, turns, current);
    yielded := [];
    var events := reply.events;
    var i := 0;
    while i < |events|
      invariant 0 <= i <= |events|
      invariant yielded == NonEmptyTexts(events[..i])
    {
      assert events[..i + 1][..i] == events[..i];
      var text := events[i];
      if text.Some? && text.value != "" {
        yielded := yielded + [text.value];
      }
      i := i + 1;
    }
    assert events[..|events|] == events;
    if reply.failed {
      yielded := yielded + [FALLBACK];
    }
  }

  // ---------------------------------------------------------------------------
  // The attachment encoder

  /** A picked file: only its declared type matters here. */
  datatype File = File(mimeType: string)

  /** What the file reader delivers: a data URL, or a read error. */
  datatype ReadOutcome = Loaded(dataUrl: string) | ReadFailed

  datatype EncodedPart = EncodedPart(mimeType: string, data: Option<string>)

  datatype ReadError = ReadError

  /** `dataUrl.split(',')[1]`: the field after the first comma, `None` (undefined) when there is no comma. */
  function DataUrlPayload(dataUrl: string): (payload: Option<string>)
    ensures payload.Some? ==>
      var start := IndexOf(dataUrl, ',') + 1;
      var end := start + |payload.value|;
      && end <= |dataUrl| && payload.value == dataUrl[start..end]
      && (end == |dataUrl| || dataUrl[end] == ',')
  {
    var fields := Split(dataUrl, ',');
    if |fields| > 1 then Some(fields[1]) else None
  }

  /** The data URL the reader produces, `data:<mime>;base64,<payload>`. */
  function DataUrl(mimeType: string, payload: string): string {
    "data:" + mimeType + ";base64," + payload
  }

  /** A payload is found exactly when the URL has a comma, and it never holds one. */
  lemma DataUrlPayloadPresence(dataUrl: string)
    ensures DataUrlPayload(dataUrl).Some? <==> ',' in dataUrl
    ensures DataUrlPayload(dataUrl).Some? ==> ',' !in DataUrlPayload(dataUrl).value
  {
    if ',' !in dataUrl {
      IndexOfAbsent(dataUrl, ',');
    } else {
      JoinSplit(dataUrl, ',');
    }
  }

  /** The payload of a reader-produced data URL is exactly the base64 text after the comma. */
  lemma DataUrlPayloadRoundTrip(mimeType: string, payload: string)
    requires ',' !in mimeType && ',' !in payload
    ensures DataUrlPayload(DataUrl(mimeType, payload)) == Some(payload)
  {
    var head := "data:" + mimeType + ";base64";
    assert ',' !in head by {
      forall i | 0 <= i < |head| ensures head[i] != ',' {
        if 5 <= i < 5 + |mimeType| {
          assert head[i] == mimeType[i - 5];
        }
      }
    }
    assert DataUrl(mimeType, payload) == Join([head, payload], ',');
    SplitJoin([head, payload], ',');
  }

  /**
   * `fileToGenerativePart`: the part carries the file's declared type and the
   * payload of the data URL; a read error rejects.
   */
  function FileToGenerativePart(file: File, read: ReadOutcome): (r: Result<EncodedPart, ReadError>)
    ensures r.Err? <==> read.ReadFailed?
    ensures r.Ok? ==> r.value.mimeType == file.mimeType
  {
    match read
    case Loaded(url) => Ok(EncodedPart(file.mimeType, DataUrlPayload(url)))
    case ReadFailed => Err(ReadError)
  }

  /** Encoding a file whose reader produced `data:<type>;base64,<payload>` gives that type and payload. */
  lemma EncodeRoundTrip(file: File, payload: string)
    requires ',' !in file.mimeType && ',' !in payload
    ensures FileToGenerativePart(file, Loaded(DataUrl(file.mimeType, payload))) == Ok(EncodedPart(file.mimeType, Some(payload)))
  {
    DataUrlPayloadRoundTrip(file.mimeType, payload);
  }
}
