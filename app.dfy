/**
 * The session store and the send-message driver. The store owns the list of
 * sessions, the active-session id and the two progress flags; each method
 * replaces the list through one of the pure updaters of `Sessions`. The driver
 * captures the active id once, before the stream starts, and aims every later
 * update at that id, whatever session the user selects meanwhile.
 */
module App {
  import opened Types
  import opened Text
  import opened Sessions
  import GeminiService

  /** The id of the session the application starts with. */
  const DEFAULT_SESSION_ID := "default"

  /** The active id after the user's selections, applied in order; `None` is no selection. */
  function AfterSwitches(active: string, switches: seq<Option<string>>): string {
    if switches == [] then active
    else
      match switches[|switches| - 1]
      case Some(id) => id
      case None => AfterSwitches(active, switches[..|switches| - 1])
  }

  function Min(a: int, b: int): int {
    if a < b then a else b
  }

  /**
   * A backend failure before any text settles the turn on one model message
   * holding only the fallback text, no longer streaming.
   */
  lemma SilentFailureSettlesOnFallback(sessions: seq<ChatSession>, sessionId: string, user: Message,
                                       reply: GeminiService.BackendReply, replyId: string, replyTimestamp: int)
    requires reply.failed && GeminiService.ReplyText(reply.events) == ""
    requires replyId != user.id && FreshInSession(sessions, sessionId, replyId)
    ensures var r := AfterSend(sessions, sessionId, user, GeminiService.Yielded(reply), replyId, replyTimestamp);
      forall i :: 0 <= i < |r| && sessions[i].id == sessionId ==>
        r[i].messages == sessions[i].messages + [user, Message(replyId, Model, GeminiService.FALLBACK, Some(false), None, replyTimestamp)]
  {
    GeminiService.SilentFailureYieldsFallback(reply);
    SendOutcome(sessions, sessionId, user, [GeminiService.FALLBACK], replyId, replyTimestamp);
    assert Concat([GeminiService.FALLBACK]) == GeminiService.FALLBACK by {
      assert [GeminiService.FALLBACK][..0] == [];
    }
  }

  /**
   * The history is read before the user message is added: reading it afterwards
   * would put the new message into the history as well as into the new turn.
   */
  lemma HistoryCapturedBeforeAppend(sessions: seq<ChatSession>, sessionId: string, user: Message)
    requires exists i :: 0 <= i < |sessions| && sessions[i].id == sessionId
    ensures GeminiService.FormattedHistory(MessagesOf(EditSessions(sessions, sessionId, AppendUser(user)), sessionId))
         == GeminiService.FormattedHistory(MessagesOf(sessions, sessionId))
            + (if GeminiService.IsSent(user) then [GeminiService.FormatTurn(user)] else [])
  {
    FindAfterEdit(sessions, sessionId, AppendUser(user));
    GeminiService.FormattedHistorySnoc(MessagesOf(sessions, sessionId), user);
  }

  /**
   * The greeting a session starts with is never sent: whatever the history,
   * the filter leaves it out of the turns the backend receives.
   */
  lemma WelcomeNeverSent(history: seq<Message>, loadTime: int)
    ensures WelcomeMessage(loadTime) !in GeminiService.Kept(history)
    ensures GeminiService.FormattedHistory([WelcomeMessage(loadTime)] + history) == GeminiService.FormattedHistory(history)
  {
    GeminiService.KeptMembers(history, WelcomeMessage(loadTime));
    GeminiService.FormattedHistoryDropsUnsent(WelcomeMessage(loadTime), history);
  }

  class ChatStore {
    /** The welcome message, created once when the application loads. */
    const welcome: Message
    var sessions: seq<ChatSession>
    var activeSessionId: string
    /** A send is in progress. */
    var isLoading: bool
    /** The typing indicator: a send is waiting for its first fragment. */
    var isThinking: bool

    /** Every session holds at least one message. */
    ghost predicate Valid()
      reads this
    {
      AllNonEmpty(sessions)
    }

    /** The initial state: one session "default", titled "New Chat", holding the welcome message, and active. */
    constructor (loadTime: int, now: int)
      ensures Valid()
      ensures welcome == WelcomeMessage(loadTime)
      ensures sessions == [ChatSession(DEFAULT_SESSION_ID, NEW_CHAT, [welcome], now)]
      ensures activeSessionId == DEFAULT_SESSION_ID && !isLoading && !isThinking
    {
      welcome := WelcomeMessage(loadTime);
      sessions := [ChatSession(DEFAULT_SESSION_ID, NEW_CHAT, [WelcomeMessage(loadTime)], now)];
      activeSessionId := DEFAULT_SESSION_ID;
      isLoading, isThinking := false, false;
    }

    /**
     * The messages on screen: those of the first session with the active id,
     * none when no session has it, and never none when one does.
     */
    function ActiveMessages(): (msgs: seq<Message>)
      reads this
      ensures (forall i :: 0 <= i < |sessions| ==> sessions[i].id != activeSessionId) ==> msgs == []
      ensures forall k :: IsFirstWithId(sessions, activeSessionId, k) ==> msgs == sessions[k].messages
      ensures Valid() && (exists i :: 0 <= i < |sessions| && sessions[i].id == activeSessionId) ==> msgs != []
    {
      MessagesOf(sessions, activeSessionId)
    }

    /** `handleNewChat`: puts a fresh session in front and makes it active. */
    method NewChat(newId: string, now: int)
      requires Valid()
      modifies this
      ensures Valid()
      ensures sessions == [NewSession(newId, welcome, now)] + old(sessions)
      ensures activeSessionId == newId
      ensures isLoading == old(isLoading) && isThinking == old(isThinking)
    {
      sessions := [NewSession(newId, welcome, now)] + sessions;
      activeSessionId := newId;
    }

    /** Selecting a session in the sidebar: only the active id changes, to any id at all. */
    method SelectSession(id: string)
      modifies this
      ensures activeSessionId == id
      ensures sessions == old(sessions) && isLoading == old(isLoading) && isThinking == old(isThinking)
    {
      activeSessionId := id;
    }

    /** The first updater of a send: appends the user message and derives the title. */
    method AppendUserMessage(sessionId: string, m: Message)
      requires Valid()
      modifies this
      ensures Valid()
      ensures sessions == EditSessions(old(sessions), sessionId, AppendUser(m))
      ensures activeSessionId == old(activeSessionId) && isLoading == old(isLoading) && isThinking == old(isThinking)
    {
      sessions := EditSessions(sessions, sessionId, AppendUser(m));
    }

    /** On the first fragment: appends the empty, streaming model message. */
    method BeginModelMessage(sessionId: string, placeholder: Message)
      requires Valid()
      modifies this
      ensures Valid()
      ensures sessions == EditSessions(old(sessions), sessionId, AppendReply(placeholder))
      ensures activeSessionId == old(activeSessionId) && isLoading == old(isLoading) && isThinking == old(isThinking)
    {
      sessions := EditSessions(sessions, sessionId, AppendReply(placeholder));
    }

    /** On every fragment: the reply's text becomes the running concatenation. */
    method ApplyChunk(sessionId: string, messageId: string, fullText: string)
      requires Valid()
      modifies this
      ensures Valid()
      ensures sessions == EditSessions(old(sessions), sessionId, EditById(messageId, WithText(fullText)))
      ensures activeSessionId == old(activeSessionId) && isLoading == old(isLoading) && isThinking == old(isThinking)
    {
      sessions := EditSessions(sessions, sessionId, EditById(messageId, WithText(fullText)));
    }

    /** After the stream: the reply stops streaming. */
    method FinalizeMessage(sessionId: string, messageId: string)
      requires Valid()
      modifies this
      ensures Valid()
      ensures sessions == EditSessions(old(sessions), sessionId, EditById(messageId, StopStreaming))
      ensures activeSessionId == old(activeSessionId) && isLoading == old(isLoading) && isThinking == old(isThinking)
    {
      sessions := EditSessions(sessions, sessionId, EditById(messageId, StopStreaming));
    }

    /**
     * One yielded fragment: on the first, the typing indicator goes down and the
     * empty placeholder is appended; then the reply's text becomes the text so
     * far followed by the fragment.
     */
    method ReceiveFragment(sessionId: string, replyId: string, replyTimestamp: int, ghost withUser: seq<ChatSession>,
                           started: bool, fullText: string, fragment: string)
      returns (newText: string)
      requires Valid()
      requires !started ==> sessions == withUser
      requires started ==> sessions == Streaming(withUser, sessionId, replyId, replyTimestamp, fullText)
      modifies this
      ensures Valid()
      ensures newText == fullText + fragment
      ensures sessions == Streaming(withUser, sessionId, replyId, replyTimestamp, newText)
      ensures isThinking == (started && old(isThinking))
      ensures activeSessionId == old(activeSessionId) && isLoading == old(isLoading)
    {
      if !started {
        isThinking := false;
        BeginModelMessage(sessionId, Placeholder(replyId, replyTimestamp));
      } else {
        SetTextOverwrites(EditSessions(withUser, sessionId, AppendReply(Placeholder(replyId, replyTimestamp))),
                          sessionId, replyId, fullText, fullText + fragment);
      }
      newText := fullText + fragment;
      ApplyChunk(sessionId, replyId, newText);
    }

    /**
     * The `for await` loop of `handleSendMessage`: each fragment is folded into
     * the reply message of `sessionId`. The user may select another session
     * while the first fragment is awaited (`switches[0]`) and after fragment `i`
     * (`switches[i + 1]`). Returns the reply's id once a fragment has arrived.
     */
    method FoldFragments(sessionId: string, replyId: string, replyTimestamp: int,
                         fragments: seq<string>, switches: seq<Option<string>>)
      returns (aiMsgId: Option<string>)
      requires Valid() && isLoading && isThinking
      modifies this
      ensures Valid()
      ensures aiMsgId == if fragments == [] then None else Some(replyId)
      ensures sessions == if fragments == [] then old(sessions)
                          else Streaming(old(sessions), sessionId, replyId, replyTimestamp, Concat(fragments))
      ensures activeSessionId == AfterSwitches(old(activeSessionId), switches[..Min(|fragments| + 1, |switches|)])
      ensures isLoading && isThinking == (fragments == [])
    {
      ghost var withUser := sessions;
      var fullText := "";
      aiMsgId := None;
      if 0 < |switches| && switches[0].Some? {
        SelectSession(switches[0].value);
      }
      assert switches[..Min(1, |switches|)] == if 0 < |switches| then [switches[0]] else [];
      var i := 0;
      while i < |fragments|
        invariant 0 <= i <= |fragments|
        invariant Valid()
        invariant fullText == Concat(fragments[..i])
        invariant aiMsgId == if i == 0 then None else Some(replyId)
        invariant i == 0 ==> sessions == withUser
        invariant i > 0 ==> sessions == Streaming(withUser, sessionId, replyId, replyTimestamp, fullText)
        invariant isLoading && isThinking == (i == 0)
        invariant activeSessionId == AfterSwitches(old(activeSessionId), switches[..Min(i + 1, |switches|)])
      {
        assert fragments[..i + 1][..i] == fragments[..i];
        fullText := ReceiveFragment(sessionId, replyId, replyTimestamp, withUser, aiMsgId.Some?, fullText, fragments[i]);
        aiMsgId := Some(replyId);
        if i + 1 < |switches| {
          assert switches[..i + 2][..i + 1] == switches[..i + 1];
          if switches[i + 1].Some? {
            SelectSession(switches[i + 1].value);
          }
        }
        i := i + 1;
      }
      assert fragments[..|fragments|] == fragments;
    }

    /**
     * `handleSendMessage`. With no active id nothing happens. Otherwise the
     * active id and its messages are captured, the user message is added, the
     * backend is asked with the captured history, and each yielded fragment is
     * folded into the reply message of the captured session. While the first
     * fragment is awaited the user may select another session (`switches[0]`),
     * and again after fragment `i` (`switches[i + 1]`). At the end both
     * flags are down.
     */
    method SendMessage(text: string, attachments: seq<Attachment>, userId: string, userTimestamp: int,
                       reply: GeminiService.BackendReply, replyId: string, replyTimestamp: int,
                       switches: seq<Option<string>>)
      returns (request: Option<GeminiService.ChatRequest>)
      requires Valid()
      modifies this
      ensures Valid()
      ensures old(activeSessionId) == "" ==>
                && request == None && sessions == old(sessions) && activeSessionId == old(activeSessionId)
                && isLoading == old(isLoading) && isThinking == old(isThinking)
      ensures old(activeSessionId) != "" ==>
                var fragments := GeminiService.Yielded(reply);
                && request == Some(GeminiService.BuildRequest(MessagesOf(old(sessions), old(activeSessionId)), text, attachments))
                && sessions == AfterSend(old(sessions), old(activeSessionId), UserMessage(userId, text, attachments, userTimestamp),
                                         fragments, replyId, replyTimestamp)
                && activeSessionId == AfterSwitches(old(activeSessionId), switches[..Min(|fragments| + 1, |switches|)])
                && !isLoading && !isThinking
    {
      if activeSessionId == "" {
        return None;
      }
      var currentSessionId := activeSessionId;
      var history := MessagesOf(sessions, currentSessionId);
      var user := UserMessage(userId, text, attachments, userTimestamp);
      AppendUserMessage(currentSessionId, user);
      isLoading, isThinking := true, true;

      var sent, fragments := GeminiService.StreamReply(history, text, attachments, reply);
      request := Some(sent);
      var aiMsgId := FoldFragments(currentSessionId, replyId, replyTimestamp, fragments, switches);
      if aiMsgId.Some? {
        FinalizeMessage(currentSessionId, replyId);
      }
      isLoading, isThinking := false, false;
    }
  }
}
