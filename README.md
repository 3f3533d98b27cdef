# Lumina chat client: session store and streaming reconciliation

This project models the core of Lumina, a browser chat client that streams replies from a
generative backend. It covers four parts:

- **The session store** (`App.tsx`, module `App`, class `ChatStore`). It holds the list of
  chat sessions, the active-session id and the loading and typing-indicator flags. Every
  change replaces the list through a pure updater (module `Sessions`). A new chat is put in
  front. A user message is appended, and the first one names the session. On the first
  fragment an empty, streaming model placeholder is appended. Each fragment overwrites that
  message's text with the running concatenation, and finalizing clears its streaming flag.
- **The send-message driver** (`ChatStore.SendMessage`). It captures the active session id
  and its messages before anything else happens. It then loops over the fragments the
  backend client yields and aims every update at the captured id, even when the user
  selects another session while the stream is running.
- **The backend client** (`services/geminiService.ts`, module `GeminiService`). It filters
  the history and formats it into turns of content parts, and builds the new turn. It yields
  the non-empty streamed texts. A failure is turned into one fixed fallback fragment and is
  never raised. It also takes the payload out of a file's `data:` URL.
- **The composer** (`components/InputArea.tsx`, module `InputArea`, class `Composer`). This
  covers the send guard, the reset after a send, the image/video type filter, appending a
  picked file and removing an attachment by index.

Module `Types` mirrors `types.ts`. Module `Text` gives the JavaScript string operations the
code uses: `trim`, `slice(0, n)`, `startsWith`, `split` on one character, and concatenation.
It also defines `join` as the inverse of `split`, which is used only by the round-trip
lemmas.

Ids, timestamps, the file reader's output, preview URLs and the backend's reply are
parameters. Message and session ids are not assumed unique. An edit applies to every
message or session with the given id, as the source's `map` does. The lemmas that describe
a whole send (`Sessions.SendOutcome`) state the freshness of the reply id as a hypothesis.

Where the code departs from what its names and comments suggest, the model follows the code:

- The title is not derived "only once". Derivation runs while the title is still
  `"New Chat"`, so a first text that trims to `New Chat` leaves the sentinel in place, and
  the next message names the session (`Sessions.TitleRederivedAfterSentinelText`).
- The active id need not name an existing session. Selection accepts any id, and the
  on-screen list is then empty (`App.ChatStore.ActiveMessages`).
- Each fragment overwrites the stored text with the locally accumulated full text
  (`fullText`). It does not append the fragment to the stored text.
- The driver's error state cannot be reached. The stream generator catches every failure
  and yields the fallback text, so the `catch` in `handleSendMessage` never runs. The model
  has no error path there, and only the `finally` flags are kept.

## Model

| member | source | states |
|---|---|---|
| Types.RoleLiteral | types.ts:1-4 | the two roles are sent as exactly the literals `user` and `model`, and `user` only for the user role; every history turn carries this literal |
| Text.TrimStart | components/InputArea.tsx:28 | leading trim removes exactly the maximal blank prefix: the result is a suffix, every dropped character is white space, and the result does not start with white space |
| Text.TrimEnd | App.tsx:182 | trailing trim removes exactly the maximal blank suffix: the result is a prefix, every dropped character is white space, and the result does not end with white space |
| Text.Trim | components/InputArea.tsx:28 | `trim()` gives one contiguous slice of its input, which neither starts nor ends with white space when non-empty |
| Text.TrimDropsOnlyBlank | components/InputArea.tsx:28 | `trim()` drops only white space: every character before the kept slice and every character after it is white space |
| Text.TrimEmptyIffBlank | components/InputArea.tsx:28 | `text.trim()` is empty exactly when every character is white space |
| Text.TrimKeepsPrefix | App.tsx:182 | trimming keeps the first `n` characters when the first and the `n`-th are not blank |
| Text.Take | App.tsx:182 | `slice(0, n)` is the prefix of length `min(n, length)` |
| Text.IndexOf | services/geminiService.ts:21 | gives the first occurrence of the separator, or the length when there is none |
| Text.Split | services/geminiService.ts:21 | `split(',')` gives at least one field, and no field contains the separator |
| Text.JoinSplit | services/geminiService.ts:21 | joining the fields of a split gives back the original string |
| Text.SplitJoin | services/geminiService.ts:21 | splitting a join of separator-free fields gives back those fields |
| GeminiService.IsSent | services/geminiService.ts:45 | a message passes the history filter exactly when its id is not `welcome` and it has non-empty text or a non-empty attachment list |
| GeminiService.FormatTurn | services/geminiService.ts:46-69 | a history turn carries its message's role literal, then its attachments in order as `{mimeType, data}`, then one text part when the text is non-empty, and nothing else |
| GeminiService.Kept | services/geminiService.ts:44-45 | the filtered history is no longer than the history, and every message in it is from the history and passes the filter |
| GeminiService.FormattedHistory | services/geminiService.ts:44-70 | the formatted history has exactly one turn per message the filter keeps |
| GeminiService.FormattedHistoryDropsUnsent | services/geminiService.ts:44-45 | a message the filter drops, put in front of a history, does not change the formatted history |
| GeminiService.TurnParts | services/geminiService.ts:46-69 | a turn's parts are its attachments in order as `{mimeType, data}`, followed by one text part when the text is non-empty; the count is attachments + (text non-empty ? 1 : 0) |
| GeminiService.BuildParts | services/geminiService.ts:73-88 | the push loop over the new attachments, followed by the text if non-empty, builds exactly those parts; no preview URL is copied |
| GeminiService.FormatHistory | services/geminiService.ts:44-70 | the filter/format loop gives the formatted history of the messages |
| GeminiService.KeptMembers | services/geminiService.ts:44-45 | a message reaches the history exactly when it is in the input, its id is not `welcome`, and it has text or at least one attachment |
| GeminiService.KeptAppend | services/geminiService.ts:44-45 | filtering keeps relative order: it distributes over concatenation |
| GeminiService.FormattedHistoryIsKept | services/geminiService.ts:44-70 | the formatted history has one turn per kept message, in order, each built from that message |
| GeminiService.HistoryTurnShape | services/geminiService.ts:46-69 | each formatted turn carries its message's role literal, and its part count is the attachment count plus one for non-empty text |
| GeminiService.FormattedHistorySnoc | services/geminiService.ts:44-70 | one more message in the history adds its turn at the end, if it passes the filter |
| GeminiService.NonEmptyTexts | services/geminiService.ts:104-109 | only non-empty event texts are yielded, and never more of them than events |
| GeminiService.Yielded | services/geminiService.ts:104-113 | at most one fragment per streamed event, plus one on failure; a failed stream always yields, and its last fragment is the fallback text |
| GeminiService.NonEmptyTextsKeepText | services/geminiService.ts:104-109 | dropping empty events loses nothing: the yielded fragments concatenate to the whole streamed text |
| GeminiService.NonEmptyTextsAppend | services/geminiService.ts:104-109 | fragments are yielded in the order received |
| GeminiService.ConcatOfNonEmpty | services/geminiService.ts:104-109 | non-empty fragments concatenate to the empty string only when there are none |
| GeminiService.YieldedShape | services/geminiService.ts:90-113 | the generator yields nothing exactly when the backend succeeded with no text, and every yielded item is non-empty |
| GeminiService.SilentFailureYieldsFallback | services/geminiService.ts:110-113 | a failure before any text yields the fallback string and nothing else |
| GeminiService.StreamReply | services/geminiService.ts:36-113 | the request carries the model, the system instruction, the formatted history and the new turn; the yields are the non-empty texts in order, then exactly one fallback on failure, and nothing is raised |
| GeminiService.DataUrlPayloadPresence | services/geminiService.ts:21 | `split(',')[1]` is defined exactly when the URL has a comma, and holds no comma |
| GeminiService.DataUrlPayload | services/geminiService.ts:21 | `split(',')[1]`, when present, is the slice of the URL that starts just after the first comma and ends at the next comma or at the end |
| GeminiService.DataUrlPayloadRoundTrip | services/geminiService.ts:19-21 | for `data:<mime>;base64,<payload>` the payload is exactly the text after the comma |
| GeminiService.FileToGenerativePart | services/geminiService.ts:13-31 | a read error rejects, and a read file resolves with the file's declared type |
| GeminiService.EncodeRoundTrip | services/geminiService.ts:16-26 | encoding a file whose reader produced `data:<type>;base64,<payload>` gives `{type, payload}` |
| InputArea.CanSendIff | components/InputArea.tsx:28 | a send goes through exactly when nothing is loading and there is a non-blank character or an attachment |
| InputArea.CanSend | components/InputArea.tsx:28 | the guard refuses while loading, lets any attachment through when not loading, and lets text alone through only when it is not blank |
| InputArea.AcceptedMimeIff | components/InputArea.tsx:47-50 | a file type is accepted exactly when it is `image/` or `video/` followed by anything |
| InputArea.PdfIsRejected | components/InputArea.tsx:47-50 | `application/pdf` is rejected |
| InputArea.IsAcceptedMime | components/InputArea.tsx:47-50 | a type is accepted exactly when its first six characters are `image/` or `video/` |
| InputArea.FilePickOutcome | components/InputArea.tsx:42-58 | a pick adds at most one attachment, at the end; it adds one exactly when a file was picked, its type is accepted and it was read; the new attachment has the file's type and its preview URL; otherwise the list is unchanged |
| InputArea.AfterFilePick | components/InputArea.tsx:42-58 | a pick keeps the existing attachments as a prefix and adds at most one |
| InputArea.WithoutIndexRemoves | components/InputArea.tsx:65-67 | the index filter removes exactly the element at `index` and keeps the others in order; an out-of-range index changes nothing |
| InputArea.WithoutIndex | components/InputArea.tsx:66 | the index filter drops one element when the index is in range; out of range it returns the list unchanged |
| InputArea.Composer.constructor | components/InputArea.tsx:14-15 | the composer starts with empty text and no attachments |
| InputArea.Composer.SetText | components/InputArea.tsx:142 | typing replaces the text and keeps the attachments |
| InputArea.Composer.Send | components/InputArea.tsx:27-33 | a refused send changes nothing and calls nothing; an accepted send passes the untrimmed text and the attachments on, then clears both |
| InputArea.Composer.KeyDown | components/InputArea.tsx:35-40 | Enter without Shift is the guarded send; any other key changes nothing |
| InputArea.Composer.AttachFile | components/InputArea.tsx:42-63 | the attachment list becomes the result of the file pick, and the text is kept |
| InputArea.Composer.RemoveAttachment | components/InputArea.tsx:65-67 | the attachment list loses the element at the index, and the text is kept |
| Sessions.DeriveTitle | App.tsx:180-184 | any title other than `New Chat` is kept; a derived title is non-empty and at most 33 characters |
| Sessions.WelcomeMessage | App.tsx:13-18 | the greeting is a model message with id `welcome`, non-empty text, the load time, and no streaming flag or attachments |
| Sessions.NewSession | App.tsx:264-269 | a new chat has the given id and time, the title `New Chat` and exactly the welcome message |
| Sessions.UserMessage | App.tsx:167-173 | the user message has the user role, the untrimmed text, the attachment list (possibly empty) and no streaming flag |
| Sessions.Placeholder | App.tsx:206-212 | the placeholder is a model message with empty text, streaming, and no attachments |
| Sessions.TitleOfShortText | App.tsx:180-184 | a first text of at most 30 characters that is not blank becomes the title as trimmed (`Hi` gives `Hi`) |
| Sessions.TitleOfLongText | App.tsx:180-184 | a longer first text with no blank at its start or at position 29 gives its first 30 characters and `...` |
| Sessions.TitleOfBlankText | App.tsx:180-184 | a blank first text gives `Image Analysis`, and `Image Analysis...` when it is longer than 30 (31 spaces) |
| Sessions.TitleRederivedAfterSentinelText | App.tsx:180-184 | a first text trimming to `New Chat` keeps the sentinel, so the next message names the session |
| Sessions.EditMessage | App.tsx:226-245 | a text edit sets the text and keeps the streaming flag; finalizing sets the streaming flag to false and keeps the text; both keep the id, role, attachments and timestamp |
| Sessions.EditMessages | App.tsx:241-245 | the message map keeps length and ids, and leaves every message with another id unchanged |
| Sessions.ApplyEdit | App.tsx:176-189 | a session edit keeps the id and timestamp and never removes messages |
| Sessions.EditSessions | App.tsx:224-234 | the session map keeps the count and ids, never shrinks a session, and leaves every session with another id unchanged |
| Sessions.AppendUserEffect | App.tsx:176-189 | adding the user message appends exactly it at the end of each target session and derives the title; the count and all other sessions are unchanged |
| Sessions.SetTextEffect | App.tsx:222-234 | a chunk update gives every message with the reply id the new text and keeps its other fields; every other message is unchanged |
| Sessions.StopStreamingEffect | App.tsx:238-250 | finalizing sets the streaming flag to false on every message with the reply id in the target sessions, for any ids, and keeps their other fields; every other message is unchanged |
| Sessions.EditSessionsTail | App.tsx:224-234 | the session map works session by session: editing a list and dropping its head equals editing its tail |
| Sessions.SetTextOverwrites | App.tsx:222-234 | a later text overwrite replaces an earlier one, so only the latest running concatenation counts |
| Sessions.StopStreamingIdempotent | App.tsx:238-250 | finalizing twice gives the same state as finalizing once |
| Sessions.EditsCommuteWithNewSession | App.tsx:262-271 | a new chat put in front mid-stream is untouched by updates aimed at the captured session |
| Sessions.EditsKeepNonEmpty | App.tsx:176-250 | no updater empties a session |
| Sessions.EditAppendedMessage | App.tsx:214-234 | editing a just-appended message under a fresh id changes only that message |
| Sessions.EditAfterAppend | App.tsx:214-234 | with a fresh id, appending the placeholder and then editing it equals appending the edited message |
| Sessions.StreamingOutcome | App.tsx:214-234 | after each chunk the target session holds its messages and then one model message whose text is the text so far, still streaming; other sessions are unchanged |
| Sessions.Streaming | App.tsx:214-234 | after a chunk the count and ids of the sessions are kept, each target session holds one more message than before, and every other session is unchanged |
| Sessions.SendOutcome | App.tsx:157-250 | with a fresh reply id, a send appends exactly the user message and, if anything was yielded, one settled model message whose text is the concatenation of the fragments; nothing else changes |
| Sessions.AfterSend | App.tsx:176-250 | a send keeps the count and ids of the sessions, adds one message to each target session when nothing was yielded and two otherwise, and leaves every other session unchanged |
| Sessions.SendKeepsNonEmpty | App.tsx:157-250 | a send keeps every session non-empty |
| Sessions.FindSession | App.tsx:161 | `find` gives nothing exactly when no session has the id, and otherwise the first session with that id |
| Sessions.MessagesOf | App.tsx:124-125 | the shown messages are those of the first session with the id, empty when no session has it, and non-empty when one does and all sessions are non-empty |
| Sessions.FindAfterEdit | App.tsx:161-189 | looking a session up after an edit finds the edited version of what was found before |
| App.SilentFailureSettlesOnFallback | App.tsx:196-250 | a backend failure before any text leaves exactly one model message holding only the fallback text, not streaming |
| App.WelcomeNeverSent | services/geminiService.ts:44-45 | the greeting that starts every session is never kept in the history, so a history with it formats exactly as one without it |
| App.HistoryCapturedBeforeAppend | App.tsx:161-196 | the history is read before the user message is appended; reading it afterwards would add the new turn to the history as well |
| App.ChatStore.constructor | App.tsx:102-113 | the store starts with the session `default`, titled `New Chat`, holding the welcome message and active, with both flags down |
| App.ChatStore.ActiveMessages | App.tsx:124-125 | the shown list is the messages of the first session with the active id, empty when the active id names no session, and non-empty when it does |
| App.ChatStore.NewChat | App.tsx:262-273 | one session titled `New Chat` holding exactly the welcome message is put in front and made active |
| App.ChatStore.SelectSession | App.tsx:302 | selection changes only the active id |
| App.ChatStore.AppendUserMessage | App.tsx:176-189 | the list becomes the user-message update of the old list, and every session stays non-empty |
| App.ChatStore.BeginModelMessage | App.tsx:214-219 | the list becomes the old list with the placeholder appended to the target session |
| App.ChatStore.ApplyChunk | App.tsx:224-234 | the list becomes the old list with the reply's text set to the running concatenation |
| App.ChatStore.FinalizeMessage | App.tsx:238-250 | the list becomes the old list with the reply's streaming flag cleared |
| App.ChatStore.ReceiveFragment | App.tsx:198-234 | one fragment: the first lowers the typing indicator and appends the placeholder; then the reply holds the text so far plus the fragment, still streaming |
| App.ChatStore.FoldFragments | App.tsx:196-236 | after the loop the reply holds the concatenation of all fragments (no reply message if none came), the reply id is known exactly when a fragment came, and the active id reflects the user's selections made while the first fragment is awaited and after each fragment |
| App.ChatStore.SendMessage | App.tsx:157-260 | with no active id nothing happens; otherwise the request is built from the history captured before the append, the sessions become `AfterSend` of the captured id whatever sessions are selected mid-stream, and both flags end down |

## Left out

- The backend SDK (`ai.chats.create`, `sendMessageStream`) is a network client. Its answer
  is the parameter `BackendReply`: the text of each event, and whether the stream failed
  after them. A failure while creating the chat is a failed reply with no events.
- `FileReader`, `URL.createObjectURL` and base64 encoding are browser I/O. The reader's data
  URL and the preview URL are parameters. Only the split of the data URL is modelled.
- `Date.now()` is a clock. Message ids, session ids and timestamps are parameters.
- The stream is driven sequentially: the generator runs to the end before its fragments
  are folded into the store. This is equivalent here because the generator touches no
  store state. A mid-stream selection is an interleaved `SelectSession`, either while the first
  fragment is awaited or after any fragment. Several selections in one gap act like the
  last of them, so one optional selection per gap is enough.
  A mid-stream new chat is covered only by `Sessions.EditsCommuteWithNewSession`, not by
  the driver.
- React's update scheduling is left out. Each updater is applied to the current state at
  once.
- The error toast (`setError`, `Toast`), `console` logging and the `catch` branch of
  `handleSendMessage` are left out. That branch cannot be reached because the stream
  never raises.
- Presentation is left out: the sidebar, theme toggle, mobile menu flag, scrolling,
  textarea auto-resize, the Send button's `disabled` styling, message rendering, buttons,
  the typing indicator animation and the toast's timer.
- Sessions.DeriveTitle: counts characters as Unicode scalar values, not JavaScript's UTF-16
  code units. For text outside the Basic Multilingual Plane, the 30-character cut and the
  length test can differ from the source. The set of white-space characters for `trim` is
  written out in `Text.IsWhitespace`.
- InputArea.Composer.RemoveAttachment: the index is an integer. The source's JavaScript
  number could also be fractional, which matches no position and so changes nothing.
- InputArea.Composer.AttachFile: only `files[0]` is used, as in the source. A missing
  `files` list is the empty sequence. Resetting the file input's value is left out.
