/**
 * The pure state updaters behind the session store: every change to the list
 * of sessions is a copy in which the sessions with one id are edited and every
 * other session is kept as it was, or a new session put in front.
 */
module Sessions {
  import opened Types
  import opened Text

  /** The title of a session that has not been named yet. */
  const NEW_CHAT := "New Chat"
  /** The title given when the first user text is blank (an image-only message). */
  const IMAGE_ANALYSIS := "Image Analysis"
  /** How many characters of the trimmed first text the title keeps. */
  const TITLE_LENGTH := 30
  const ELLIPSIS := "..."
  const WELCOME_TEXT := "Hello! I'm Lumina. I can see, read, and think. Show me an image or ask me anything."

  /** The greeting every session starts with; `timestamp` is the time the module was loaded. */
  function WelcomeMessage(timestamp: int): (m: Message)
    ensures m.id == WELCOME_ID && m.role == Model && m.text != "" && m.timestamp == timestamp
    ensures m.isStreaming.None? && m.attachments.None?
  {
    Message(WELCOME_ID, Model, WELCOME_TEXT, None, None, timestamp)
  }

  /** A fresh session: the sentinel title and only the welcome message. */
  function NewSession(id: string, welcome: Message, timestamp: int): (s: ChatSession)
    ensures s.id == id && s.title == NEW_CHAT && s.messages == [welcome] && s.timestamp == timestamp
  {
    ChatSession(id, NEW_CHAT, [welcome], timestamp)
  }

  /** The message a send appends for the user. */
  function UserMessage(id: string, text: string, attachments: seq<Attachment>, timestamp: int): (m: Message)
    ensures m.id == id && m.role == User && m.text == text && m.attachments == Some(attachments)
    ensures m.isStreaming.None? && m.timestamp == timestamp
  {
    Message(id, User, text, None, Some(attachments), timestamp)
  }

  /** The empty, streaming model message created on the first fragment. */
  function Placeholder(id: string, timestamp: int): (m: Message)
    ensures m.id == id && m.role == Model && m.text == "" && m.isStreaming == Some(true)
    ensures m.attachments.None? && m.timestamp == timestamp
  {
    Message(id, Model, "", Some(true), None, timestamp)
  }

  // ---------------------------------------------------------------------------
  // Title derivation

  /**
   * The title after a user message with `text` is added: a session still called
   * "New Chat" is named after the trimmed text cut to 30 characters, or
   * "Image Analysis" when that is empty, with "..." added when the untrimmed
   * text is longer than 30; any other title is kept.
   */
  function DeriveTitle(title: string, text: string): (r: string)
    ensures title != NEW_CHAT ==> r == title
    ensures title == NEW_CHAT ==> 0 < |r| <= TITLE_LENGTH + |ELLIPSIS|
  {
    if title != NEW_CHAT then title
    else
      var cut := Take(Trim(text), TITLE_LENGTH);
      var base := if cut != "" then cut else IMAGE_ANALYSIS;
      if |text| > TITLE_LENGTH then base + ELLIPSIS else base
  }

  /** A short first text that is not blank becomes the title as trimmed ("Hi" gives "Hi"). */
  lemma TitleOfShortText(text: string)
    requires |text| <= TITLE_LENGTH && !IsBlank(text)
    ensures DeriveTitle(NEW_CHAT, text) == Trim(text)
  {
    TrimEmptyIffBlank(text);
  }

  /**
   * A first text longer than 30 characters, with no blank at its start or at
   * position 29, gives its first 30 characters followed by "...".
   */
  lemma TitleOfLongText(text: string)
    requires |text| > TITLE_LENGTH
    requires !IsWhitespace(text[0]) && !IsWhitespace(text[TITLE_LENGTH - 1])
    ensures DeriveTitle(NEW_CHAT, text) == text[..TITLE_LENGTH] + ELLIPSIS
  {
    TrimKeepsPrefix(text, TITLE_LENGTH);
  }

  /**
   * A blank first text (the empty text of an image-only message, or only spaces)
   * gives "Image Analysis", and "Image Analysis..." when it is longer than 30
   * characters: 31 spaces are not trimmed away before the length test.
   */
  lemma TitleOfBlankText(text: string)
    requires IsBlank(text)
    ensures DeriveTitle(NEW_CHAT, text) == IMAGE_ANALYSIS + (if |text| > TITLE_LENGTH then ELLIPSIS else "")
  {
    TrimEmptyIffBlank(text);
  }

  /**
   * The title is not derived only once: a first text that trims to "New Chat"
   * leaves the sentinel in place, so the next user message names the session.
   */
  lemma TitleRederivedAfterSentinelText(first: string, second: string)
    requires |first| <= TITLE_LENGTH && Trim(first) == NEW_CHAT
    requires |second| <= TITLE_LENGTH && !IsBlank(second)
    ensures DeriveTitle(NEW_CHAT, first) == NEW_CHAT
    ensures DeriveTitle(DeriveTitle(NEW_CHAT, first), second) == Trim(second)
  {
    TitleOfShortText(second);
  }

  // ---------------------------------------------------------------------------
  // Message and session edits

  /** A change to one message: overwrite its text, or clear its streaming flag. */
  datatype MessageEdit = WithText(text: string) | StopStreaming

  function EditMessage(m: Message, e: MessageEdit): (r: Message)
    ensures r.id == m.id && r.role == m.role && r.attachments == m.attachments && r.timestamp == m.timestamp
    ensures e.WithText? ==> r.text == e.text && r.isStreaming == m.isStreaming
    ensures e.StopStreaming? ==> r.isStreaming == Some(false) && r.text == m.text
  {
    match e
    case WithText(t) => m.(text := t)
    case StopStreaming => m.(isStreaming := Some(false))
  }

  /** `messages.map(msg => msg.id === id ? edited : msg)`: every message with that id is edited. */
  function EditMessages(messages: seq<Message>, id: string, e: MessageEdit): (r: seq<Message>)
    ensures |r| == |messages|
    ensures forall j :: 0 <= j < |r| ==> r[j].id == messages[j].id
    ensures forall j :: 0 <= j < |r| && messages[j].id != id ==> r[j] == messages[j]
  {
    seq(|messages|, j requires 0 <= j < |messages| =>
      if messages[j].id == id then EditMessage(messages[j], e) else messages[j])
  }

  /** A change to one session. */
  datatype SessionEdit =
    | AppendUser(message: Message)
    | AppendReply(message: Message)
    | EditById(messageId: string, edit: MessageEdit)

  function ApplyEdit(s: ChatSession, e: SessionEdit): (r: ChatSession)
    ensures r.id == s.id && r.timestamp == s.timestamp
    ensures |r.messages| >= |s.messages|
  {
    match e
    case AppendUser(m) => s.(messages := s.messages + [m], title := DeriveTitle(s.title, m.text))
    case AppendReply(m) => s.(messages := s.messages + [m])
    case EditById(id, me) => s.(messages := EditMessages(s.messages, id, me))
  }

  /** `sessions.map(s => s.id === sessionId ? edited : s)`: only sessions with that id change. */
  function EditSessions(sessions: seq<ChatSession>, sessionId: string, e: SessionEdit): (r: seq<ChatSession>)
    ensures |r| == |sessions|
    ensures forall i :: 0 <= i < |r| ==>
              r[i].id == sessions[i].id && |r[i].messages| >= |sessions[i].messages|
    ensures forall i :: 0 <= i < |r| && sessions[i].id != sessionId ==> r[i] == sessions[i]
  {
    seq(|sessions|, i requires 0 <= i < |sessions| =>
      if sessions[i].id == sessionId then ApplyEdit(sessions[i], e) else sessions[i])
  }

  /** Every session holds at least one message. */
  predicate AllNonEmpty(sessions: seq<ChatSession>) {
    forall i :: 0 <= i < |sessions| ==> |sessions[i].messages| > 0
  }

  /** `messages` contains no message with id `id`. */
  predicate FreshIn(messages: seq<Message>, id: string) {
    forall j :: 0 <= j < |messages| ==> messages[j].id != id
  }

  /** `id` names no message of any session with id `sessionId`. */
  predicate FreshInSession(sessions: seq<ChatSession>, sessionId: string, id: string) {
    forall i :: 0 <= i < |sessions| && sessions[i].id == sessionId ==> FreshIn(sessions[i].messages, id)
  }

  /**
   * Adding a user message appends exactly that message to every session with the
   * id and derives its title; the number of sessions and all other sessions stay.
   */
  lemma AppendUserEffect(sessions: seq<ChatSession>, sessionId: string, m: Message)
    ensures var r := EditSessions(sessions, sessionId, AppendUser(m));
      && |r| == |sessions|
      && forall i :: 0 <= i < |r| ==>
           if sessions[i].id == sessionId then
             r[i].messages == sessions[i].messages + [m] && r[i].title == DeriveTitle(sessions[i].title, m.text)
             && r[i].timestamp == sessions[i].timestamp
           else r[i] == sessions[i]
  {
  }

  /**
   * Overwriting a message's text sets it on every message with that id in the
   * target sessions, leaving their other fields and every other message as they were.
   */
  lemma SetTextEffect(sessions: seq<ChatSession>, sessionId: string, messageId: string, text: string)
    ensures var r := EditSessions(sessions, sessionId, EditById(messageId, WithText(text)));
      forall i, j :: 0 <= i < |r| && sessions[i].id == sessionId && 0 <= j < |sessions[i].messages| ==>
        && r[i].title == sessions[i].title
        && |r[i].messages| == |sessions[i].messages|
        && r[i].messages[j] ==
             if sessions[i].messages[j].id == messageId then sessions[i].messages[j].(text := text)
             else sessions[i].messages[j]
  {
  }

  /**
   * Finalizing clears the streaming flag of every message with that id in the
   * target sessions, leaving their other fields and every other message as they were.
   */
  lemma StopStreamingEffect(sessions: seq<ChatSession>, sessionId: string, messageId: string)
    ensures var r := EditSessions(sessions, sessionId, EditById(messageId, StopStreaming));
      forall i, j :: 0 <= i < |r| && sessions[i].id == sessionId && 0 <= j < |sessions[i].messages| ==>
        && r[i].title == sessions[i].title
        && |r[i].messages| == |sessions[i].messages|
        && r[i].messages[j] ==
             if sessions[i].messages[j].id == messageId then sessions[i].messages[j].(isStreaming := Some(false))
             else sessions[i].messages[j]
  {
  }

  /** A later text overwrite of the same message replaces an earlier one. */
  lemma {:induction false} SetTextOverwrites(sessions: seq<ChatSession>, sessionId: string, messageId: string, a: string, b: string)
    ensures EditSessions(EditSessions(sessions, sessionId, EditById(messageId, WithText(a))), sessionId, EditById(messageId, WithText(b)))
         == EditSessions(sessions, sessionId, EditById(messageId, WithText(b)))
  {
    var once := EditSessions(sessions, sessionId, EditById(messageId, WithText(b)));
    var twice := EditSessions(EditSessions(sessions, sessionId, EditById(messageId, WithText(a))), sessionId, EditById(messageId, WithText(b)));
    forall i | 0 <= i < |sessions| ensures twice[i] == once[i] {
      if sessions[i].id == sessionId {
        var ms := sessions[i].messages;
        assert EditMessages(EditMessages(ms, messageId, WithText(a)), messageId, WithText(b)) == EditMessages(ms, messageId, WithText(b));
      }
    }
  }

  /** Clearing the streaming flag twice is the same as clearing it once. */
  lemma {:induction false} StopStreamingIdempotent(sessions: seq<ChatSession>, sessionId: string, messageId: string)
    ensures var once := EditSessions(sessions, sessionId, EditById(messageId, StopStreaming));
      EditSessions(once, sessionId, EditById(messageId, StopStreaming)) == once
  {
    var once := EditSessions(sessions, sessionId, EditById(messageId, StopStreaming));
    var twice := EditSessions(once, sessionId, EditById(messageId, StopStreaming));
    forall i | 0 <= i < |sessions| ensures twice[i] == once[i] {
      if sessions[i].id == sessionId {
        var ms := once[i].messages;
        assert EditMessages(ms, messageId, StopStreaming) == ms;
      }
    }
  }

  /** Editing a list and dropping its first session is editing the rest. */
  lemma EditSessionsTail(sessions: seq<ChatSession>, sessionId: string, e: SessionEdit)
    requires |sessions| > 0
    ensures EditSessions(sessions, sessionId, e)[1..] == EditSessions(sessions[1..], sessionId, e)
  {
    var l := EditSessions(sessions, sessionId, e);
    var rest := EditSessions(sessions[1..], sessionId, e);
    forall i | 0 <= i < |rest| ensures l[1..][i] == rest[i] {
      assert sessions[1..][i] == sessions[i + 1];
    }
  }

  /** A session put in front with another id is not touched by edits aimed at `sessionId`. */
  lemma EditsCommuteWithNewSession(sessions: seq<ChatSession>, s: ChatSession, sessionId: string, e: SessionEdit)
    requires s.id != sessionId
    ensures EditSessions([s] + sessions, sessionId, e) == [s] + EditSessions(sessions, sessionId, e)
  {
    var all := [s] + sessions;
    var l := EditSessions(all, sessionId, e);
    EditSessionsTail(all, sessionId, e);
    assert all[1..] == sessions;
    assert l == [l[0]] + l[1..];
  }

  /** Edits never remove messages, so every session stays non-empty. */
  lemma EditsKeepNonEmpty(sessions: seq<ChatSession>, sessionId: string, e: SessionEdit)
    requires AllNonEmpty(sessions)
    ensures AllNonEmpty(EditSessions(sessions, sessionId, e))
  {
  }

  /** Editing a message appended under an id no other message has edits only that message. */
  lemma EditAppendedMessage(messages: seq<Message>, m: Message, e: MessageEdit)
    requires FreshIn(messages, m.id)
    ensures EditMessages(messages + [m], m.id, e) == messages + [EditMessage(m, e)]
  {
    var l := EditMessages(messages + [m], m.id, e);
    forall j | 0 <= j < |messages| ensures l[j] == messages[j] {
      assert (messages + [m])[j] == messages[j];
    }
  }

  /**
   * In sessions where `m.id` is fresh, appending `m` and then editing the message
   * with that id is the same as appending the edited message.
   */
  lemma {:induction false} EditAfterAppend(sessions: seq<ChatSession>, sessionId: string, m: Message, e: MessageEdit)
    requires FreshInSession(sessions, sessionId, m.id)
    ensures EditSessions(EditSessions(sessions, sessionId, AppendReply(m)), sessionId, EditById(m.id, e))
         == EditSessions(sessions, sessionId, AppendReply(EditMessage(m, e)))
  {
    var l := EditSessions(EditSessions(sessions, sessionId, AppendReply(m)), sessionId, EditById(m.id, e));
    var r := EditSessions(sessions, sessionId, AppendReply(EditMessage(m, e)));
    forall i | 0 <= i < |sessions| ensures l[i] == r[i] {
      if sessions[i].id == sessionId {
        EditAppendedMessage(sessions[i].messages, m, e);
      }
    }
  }

  // ---------------------------------------------------------------------------
  // The effect of one send

  /** The model reply a send leaves behind: none if nothing was yielded, else one settled message. */
  function ReplyMessages(fragments: seq<string>, replyId: string, replyTimestamp: int): seq<Message> {
    if fragments == [] then []
    else [Message(replyId, Model, Concat(fragments), Some(false), None, replyTimestamp)]
  }

  /** The sessions while a reply is streaming with `fullText` received so far. */
  function Streaming(withUser: seq<ChatSession>, sessionId: string, replyId: string, replyTimestamp: int, fullText: string): (r: seq<ChatSession>)
    ensures |r| == |withUser|
    ensures forall i :: 0 <= i < |r| ==>
              && r[i].id == withUser[i].id
              && (withUser[i].id == sessionId ==> |r[i].messages| == |withUser[i].messages| + 1)
              && (withUser[i].id != sessionId ==> r[i] == withUser[i])
  {
    EditSessions(EditSessions(withUser, sessionId, AppendReply(Placeholder(replyId, replyTimestamp))),
                 sessionId, EditById(replyId, WithText(fullText)))
  }

  /**
   * The sessions after one send whose stream yielded `fragments`: the user
   * message is added; on a first fragment a placeholder follows, its text is set
   * to the concatenation, and it is finalized. Nothing yielded, no reply message.
   */
  function AfterSend(sessions: seq<ChatSession>, sessionId: string, user: Message,
                     fragments: seq<string>, replyId: string, replyTimestamp: int): (r: seq<ChatSession>)
    ensures |r| == |sessions|
    ensures forall i :: 0 <= i < |r| ==>
              && r[i].id == sessions[i].id
              && (sessions[i].id == sessionId ==>
                    |r[i].messages| == |sessions[i].messages| + (if fragments == [] then 1 else 2))
              && (sessions[i].id != sessionId ==> r[i] == sessions[i])
  {
    var withUser := EditSessions(sessions, sessionId, AppendUser(user));
    if fragments == [] then withUser
    else EditSessions(Streaming(withUser, sessionId, replyId, replyTimestamp, Concat(fragments)),
                      sessionId, EditById(replyId, StopStreaming))
  }

  /**
   * While streaming under a fresh reply id, the target sessions hold the user's
   * messages followed by one model message whose text is what was received so
   * far and which is still streaming.
   */
  lemma StreamingOutcome(withUser: seq<ChatSession>, sessionId: string, replyId: string, replyTimestamp: int, fullText: string)
    requires FreshInSession(withUser, sessionId, replyId)
    ensures var r := Streaming(withUser, sessionId, replyId, replyTimestamp, fullText);
      && |r| == |withUser|
      && forall i :: 0 <= i < |r| ==>
           if withUser[i].id == sessionId then
             r[i] == withUser[i].(messages := withUser[i].messages + [Message(replyId, Model, fullText, Some(true), None, replyTimestamp)])
           else r[i] == withUser[i]
  {
    EditAfterAppend(withUser, sessionId, Placeholder(replyId, replyTimestamp), WithText(fullText));
  }

  /**
   * When the reply id is new to the target sessions and differs from the user
   * message's id, a send appends exactly the user message and, if anything was
   * yielded, one settled model message whose text is the concatenation of the
   * fragments; the title is derived and no other session changes.
   */
  lemma {:induction false} SendOutcome(sessions: seq<ChatSession>, sessionId: string, user: Message,
                                       fragments: seq<string>, replyId: string, replyTimestamp: int)
    requires replyId != user.id && FreshInSession(sessions, sessionId, replyId)
    ensures var r := AfterSend(sessions, sessionId, user, fragments, replyId, replyTimestamp);
      && |r| == |sessions|
      && forall i :: 0 <= i < |r| ==>
           if sessions[i].id == sessionId then
             r[i] == sessions[i].(messages := sessions[i].messages + [user] + ReplyMessages(fragments, replyId, replyTimestamp),
                                  title := DeriveTitle(sessions[i].title, user.text))
           else r[i] == sessions[i]
  {
    var withUser := EditSessions(sessions, sessionId, AppendUser(user));
    if fragments != [] {
      assert FreshInSession(withUser, sessionId, replyId) by {
        forall i | 0 <= i < |withUser| && withUser[i].id == sessionId ensures FreshIn(withUser[i].messages, replyId) {
          assert withUser[i].messages == sessions[i].messages + [user];
        }
      }
      var p := Placeholder(replyId, replyTimestamp);
      var filled := EditMessage(p, WithText(Concat(fragments)));
      EditAfterAppend(withUser, sessionId, p, WithText(Concat(fragments)));
      EditAfterAppend(withUser, sessionId, filled, StopStreaming);
    }
  }

  /** A send keeps every session non-empty. */
  lemma SendKeepsNonEmpty(sessions: seq<ChatSession>, sessionId: string, user: Message,
                          fragments: seq<string>, replyId: string, replyTimestamp: int)
    requires AllNonEmpty(sessions)
    ensures AllNonEmpty(AfterSend(sessions, sessionId, user, fragments, replyId, replyTimestamp))
  {
  }

  // ---------------------------------------------------------------------------
  // Lookup

  /** Session `k` is the first with id `id`. */
  predicate IsFirstWithId(sessions: seq<ChatSession>, id: string, k: int) {
    0 <= k < |sessions| && sessions[k].id == id && forall j :: 0 <= j < k ==> sessions[j].id != id
  }

  /** `sessions.find(s => s.id === id)`: the first session with that id. */
  function FindSession(sessions: seq<ChatSession>, id: string): (r: Option<ChatSession>)
    ensures r.None? <==> forall i :: 0 <= i < |sessions| ==> sessions[i].id != id
    ensures r.Some? ==> r.value in sessions && r.value.id == id
    ensures forall k :: IsFirstWithId(sessions, id, k) ==> r == Some(sessions[k])
  {
    if sessions == [] then None
    else if sessions[0].id == id then Some(sessions[0])
    else
      var r := FindSession(sessions[1..], id);
      assert forall k :: IsFirstWithId(sessions, id, k) ==> IsFirstWithId(sessions[1..], id, k - 1);
      r
  }

  /** The messages shown for `id`: those of the first session with that id, or none. */
  function MessagesOf(sessions: seq<ChatSession>, id: string): (r: seq<Message>)
    ensures (forall i :: 0 <= i < |sessions| ==> sessions[i].id != id) ==> r == []
    ensures forall k :: IsFirstWithId(sessions, id, k) ==> r == sessions[k].messages
    ensures AllNonEmpty(sessions) && (exists i :: 0 <= i < |sessions| && sessions[i].id == id) ==> r != []
  {
    match FindSession(sessions, id)
    case Some(s) => s.messages
    case None => []
  }

  /** Looking a session up after an edit finds the edited version of what was found before. */
  lemma {:induction false} FindAfterEdit(sessions: seq<ChatSession>, sessionId: string, e: SessionEdit)
    ensures FindSession(EditSessions(sessions, sessionId, e), sessionId) ==
              match FindSession(sessions, sessionId)
              case Some(s) => Some(ApplyEdit(s, e))
              case None => None
  {
    if sessions != [] && sessions[0].id != sessionId {
      EditSessionsTail(sessions, sessionId, e);
      FindAfterEdit(sessions[1..], sessionId, e);
    }
  }
}
