# A verified model of the Ollama chat client and its chat-log server

The application is a single-page chat client for locally served Ollama
models. A Flask/Socket.IO server keeps each conversation in the user's
session. It relays the model's streamed reply and stores every finished
conversation as a JSON log in one directory. The page renders the
conversation as message bubbles, lists the stored logs, and lets the user
reopen or soft-delete them.

This project models the two stateful cores of that application and proves
properties of them.

- **The conversation view** (`static/js/scripts.js`). The model has these parts:
  - The chat box is a sequence of bubbles. Each bubble has a role, its rendered HTML, and the `data-updating` flag.
  - There is one optional "Thinking..." indicator.
  - The compose box, the model selector, the chat list and the selected file name are plain values.
  - The requests the page sends are an appended outbox. Error pop-ups are an appended list.
  - `marked.parse` and `DOMPurify.sanitize` stay uninterpreted: they are the two function fields of a `Renderer`.
  - The `<think>` rewrite and the empty-message guard are concrete string functions.
  - Each handler is a pure transition of a `View` (module `ChatView`). A `Controller` class holds the same state in fields. Its methods update those fields in place, with `forEach` loops as `while` loops, and each method's contract ties the new state to the transition.
  - An `async` handler is split at its `await`. The part before the `await` records the request in the outbox. The part after it is a separate method that takes the answer.
- **The server's chat-log and streaming rules** (`app.py`):
  - The log directory is a map from file names to records, held by a `LogDirectory` class.
  - The session is a `Session` class.
  - The model covers file-name validation, listing and sorting, soft delete, loading, subject update and saving.
  - `handle_send_message` is a method over a given sequence of parsed stream lines and the way the stream ended. Its loop is proved against the functions `Receipts`, `OutcomeOf`, `AfterSend` and `SendEvents`.

Files and modules:

- `text.dfy` (`Text`): the whitespace sets of JavaScript's `trim` and Python's `strip`, trimming, prefixes, ASCII lower-casing and `s[:n]`.
- `think_tags.dfy` (`ThinkTags`): `transformCustomTags` as a global lazy regular-expression replacement, and the summary toggle.
- `send_check.dfy` (`SendCheck`): the `<br>` removal, the `&nbsp;`/tag removal, and the blank-input guard of `sendMessage`.
- `chat_view.dfy` (`ChatView`): the view, its transitions, the one-updating-bubble invariant, and the `Controller` class.
- `chat_logs.dfy` (`ChatLogs`): log records, validation, listing, delete, subject update, and the `LogDirectory` class.
- `chat_session.dfy` (`ChatSession`): the session, `load_chat`, the stream model, `handle_send_message`, and the `Session` class.

## Model

| member | source | states |
|---|---|---|
| Text.TrimStart | static/js/scripts.js:388 | The result is a suffix of the input, everything dropped is whitespace, and the result does not start with whitespace |
| Text.TrimEnd | static/js/scripts.js:388 | The result is a prefix of the input, everything dropped is whitespace, and the result does not end with whitespace |
| Text.TrimEmptyIff | static/js/scripts.js:472 | Trimming yields the empty string exactly when every character is whitespace |
| Text.TrimKeepsInner | static/js/scripts.js:388 | A string that begins and ends with non-whitespace is unchanged by trimming |
| Text.TrimKeepsChars | static/js/scripts.js:388 | Trimming introduces no character that was not in the input |
| Text.TrimIdempotent | app.py:220 | Stripping twice gives the same string as stripping once |
| Text.LowerAscii | static/js/scripts.js:471 | The `i` flag's folding never yields an ASCII capital, changes a character exactly when it is an ASCII capital, maps each capital onto the same letter in lower case, and leaves every character from 128 up unchanged |
| Text.LowerAsciiFolds | static/js/scripts.js:471 | Folding twice equals folding once, and two characters fold alike exactly when they are equal or one is the ASCII capital of the other |
| Text.Take | app.py:234 | `s[:n]` has length `min(n, len(s))` and is a prefix of `s` |
| ThinkTags.TagsMatchThemselves | static/js/scripts.js:471 | `<think>` and `</think>` match the pattern, and a string matches a tag exactly when it equals that tag ignoring ASCII case |
| ThinkTags.FindClose | static/js/scripts.js:471 | The lazy `[\s\S]*?` stops at the first closing tag: a close tag starts at the index found, none starts before it, and none at all when nothing is found |
| ThinkTags.NoLessThanNoTags | static/js/scripts.js:471 | Text without `<` contains no opening and no closing tag |
| ThinkTags.UntaggedUnchanged | static/js/scripts.js:470-481 | Text in which no closing tag starts after the end of an opening tag is returned unchanged; this covers text without one of the two tags, and stray closing tags before an unclosed opening tag |
| ThinkTags.UntaggedHasNoRegion | static/js/scripts.js:471 | Text without an opening tag, or without a closing tag, has no match |
| ThinkTags.ExampleStrayCloseUnchanged | static/js/scripts.js:471 | `</think>x<think>y` is returned unchanged |
| ThinkTags.TransformRegion | static/js/scripts.js:471 | Text before the first region is kept verbatim, the region and its tags are replaced by the callback's value for the captured text, and the scan continues after the closing tag |
| ThinkTags.BlankRegionDropped | static/js/scripts.js:471-474 | A region whose captured text is all whitespace disappears, tags included, and the surrounding text is kept |
| ThinkTags.FilledRegionCollapsed | static/js/scripts.js:475-479 | A region with visible content becomes one collapsible block: the summary label, then a `display:none` pane holding the captured text verbatim |
| ThinkTags.ExampleBlankDropped | static/js/scripts.js:471-474 | `pre<think>  </think>post` becomes `prepost` |
| ThinkTags.ExampleReasoningCollapsed | static/js/scripts.js:471-479 | `<THINK>reasoning</Think>` becomes the collapsible block around `reasoning` |
| ThinkTags.ToggleThink | static/js/scripts.js:484-495 | A summary without a pane is untouched; a shown pane (`display` is `block`) becomes exactly `none` with the Expand caption, any other pane becomes exactly `block` with the Hide caption |
| ThinkTags.ToggleTwiceRestores | static/js/scripts.js:488-492 | One click on a collapsed block shows it; a second click restores the collapsed block |
| SendCheck.BrMatch | static/js/scripts.js:387 | A prefix is found exactly when it matches `<br\s*\/?>` case-insensitively (`<`, `b` and `r` in either case, JavaScript whitespace, at most one `/`, then `>`), and the prefix found is the only one that matches |
| SendCheck.ExampleBrMatches | static/js/scripts.js:387 | `<BR />` and `<br>` match; `<bra>` and `<b r>` do not |
| SendCheck.BrTagShape | static/js/scripts.js:387 | A tag counts as a `<br>` exactly when the whole tag matches the pattern |
| SendCheck.IndexOf | static/js/scripts.js:390 | The index found holds the first occurrence of the character; none is found only when the character is absent |
| SendCheck.MarkupMatch | static/js/scripts.js:390 | A prefix is found exactly when it is `&nbsp;` or a `<` followed by everything up to and including the first `>`, and the prefix found is the only one that matches |
| SendCheck.ExampleMarkupMatches | static/js/scripts.js:390 | The entity is matched before a tag, a tag stops at its first `>`, and neither an unclosed `<` nor another entity matches |
| SendCheck.StripBrPlain | static/js/scripts.js:387 | Text without `<` passes through the `<br>` removal unchanged, whatever follows it |
| SendCheck.StripBrJoin | static/js/scripts.js:386-387 | On input made of whitespace, `&nbsp;` and tags, the `<br>` removal drops exactly the tags that match `<br>` |
| SendCheck.TrimJoin | static/js/scripts.js:388 | On such input, trimming drops exactly the leading and the trailing whitespace pieces |
| SendCheck.StripMarkupJoin | static/js/scripts.js:390 | On such input, removing `&nbsp;` and tags leaves only whitespace |
| SendCheck.StripMarkupPlain | static/js/scripts.js:390 | Text without `<` and `&` is unchanged by the markup removal |
| SendCheck.MarkupOnlyIsBlank | static/js/scripts.js:386-392 | Any input made only of whitespace, `&nbsp;` and tags is rejected by the guard |
| SendCheck.PlainTextIsSent | static/js/scripts.js:386-392 | Plain text with a visible character passes the guard, and the message is that text trimmed |
| ChatView.IndicatorShowHide | static/js/scripts.js:92-106 | Showing is idempotent and leaves a reference set; on a page without one it attaches the indicator; hiding always clears the reference; neither touches the bubbles |
| ChatView.ClearedIndicatorStaysInvisible | static/js/scripts.js:92-100 | After the chat box is cleared, the stale reference makes a show add nothing visible until a hide resets it |
| ChatView.BlankSendIsNoOp | static/js/scripts.js:389-392 | A send whose input the guard rejects changes nothing and emits nothing |
| ChatView.MarkupOnlySendIsNoOp | static/js/scripts.js:386-392 | A send of input made only of whitespace, `&nbsp;` and tags changes nothing and emits nothing |
| ChatView.SendWithoutModel | static/js/scripts.js:393-397 | With no model selected, a send reports "Please select a model." and adds no bubble, no request, and no change to the input or the indicator |
| ChatView.SendEffect | static/js/scripts.js:398-409 | A valid send appends one User bubble at the end, clears the input, shows the indicator, emits one `send_message` with the model and the message, and changes nothing else |
| ChatView.PlainTextIsEmitted | static/js/scripts.js:385-409 | Plain text with a visible character is emitted trimmed |
| ChatView.LastUpdating | static/js/scripts.js:416-417 | The bubble found is an updating Bot bubble and none after it is; none is found only when no bubble is updating |
| ChatView.LastUpdatingIsOnly | static/js/scripts.js:416-417 | When exactly one bubble is updating, the selector finds that one |
| ChatView.ReceiveEffect | static/js/scripts.js:413-426 | A chunk hides the indicator. With no updating bubble it appends one updating Bot bubble; otherwise it replaces the updating bubble's HTML with the chunk's render. The bubble count grows by at most one |
| ChatView.ReceiveShowsLatest | static/js/scripts.js:419-426 | After a chunk, exactly one bubble is updating and it shows the chunk's render |
| ChatView.ReceiveLatestWins | static/js/scripts.js:423-426 | Two chunks in a row leave the same view as the second alone: content is replaced, not concatenated |
| ChatView.CompleteEffect | static/js/scripts.js:436-441 | `response_complete` leaves no bubble updating, keeps every bubble's role and HTML, and asks for the chat logs again, which re-shows the indicator |
| ChatView.NextReplyAppends | static/js/scripts.js:419-421 | After `response_complete`, the next chunk starts a new bubble at the end |
| ChatView.UnflaggedNoneUpdating | static/js/scripts.js:438-439 | Removing the flag from every updating Bot bubble leaves none updating |
| ChatView.UnflaggedIdleThenReply | static/js/scripts.js:438-439 | Clearing the flags after a single updating reply turns just that reply into a plain bubble |
| ChatView.PartialThenErrorAsWritten | static/js/scripts.js:443-447 | As written, an error after a partial reply leaves that reply marked updating |
| ChatView.ErrorLeavesStaleReply | static/js/scripts.js:443-447 | As written: partial reply, error, new question, new chunk. The new reply overwrites the old bubble, which sits above the new question |
| ChatView.PartialThenError | static/js/scripts.js:443-447 | With the corrected handler, an error after a partial reply leaves that reply as a plain bubble |
| ChatView.ErrorAsWrittenEffect | static/js/scripts.js:443-447 | The handler as written keeps every bubble and its flag, records the error, hides the indicator, sends nothing, and keeps the invariant |
| ChatView.ErrorEndsReply | static/js/scripts.js:443-447 | The corrected handler leaves no bubble updating, keeps every role and HTML, records the error, hides the indicator and sends nothing |
| ChatView.ErrorKeepsReplyOrder | static/js/scripts.js:443-447 | Under the same sequence, the corrected handler keeps the partial reply, then the question, then the new reply in its own bubble |
| ChatView.ReceiveIntoStale | static/js/scripts.js:416-426 | A chunk that arrives while an older bubble is still updating overwrites that bubble in place |
| ChatView.RenderHistoryEffect | static/js/scripts.js:355-361 | The box is replaced by one bubble per entry, in order, none updating; role `user` gives a User bubble and any other role a Bot bubble |
| ChatView.HistoryBubblesSnoc | static/js/scripts.js:357-360 | One more history entry adds its bubble at the end |
| ChatView.LogsLoadedEffect | static/js/scripts.js:206-229 | The list gets one item per log, in order, with the subject as caption or "Untitled Chat" when it is empty; exactly the items naming a non-empty selected file are highlighted; the indicator is hidden |
| ChatView.LogsFailedEffect | static/js/scripts.js:230-236 | A failed listing keeps the list, reports "Error fetching chat logs" and hides the indicator |
| ChatView.SelectChatEffect | static/js/scripts.js:240-250 | Clicking an item highlights it alone, selects its file and posts `load_chat` for it, without touching the bubbles |
| ChatView.ChatLoadedEffect | static/js/scripts.js:251-262 | A true status clears the box and asks for the history. A false status reports "Failed to load chat.". A failed request reports "Error loading chat". The selection is kept in every case |
| ChatView.DeleteWithoutSelection | static/js/scripts.js:317-339 | With no selected chat, delete only reports "Please select a chat to delete." |
| ChatView.DeleteWithSelection | static/js/scripts.js:318-324 | With a selected chat, delete posts `delete_chat` for it and reports nothing |
| ChatView.DeleteSucceeded | static/js/scripts.js:326-329 | A successful delete clears the box, clears the selection and asks for the chat logs |
| ChatView.ReceiveKeepsValid | static/js/scripts.js:416-426 | A chunk keeps the invariant: only Bot bubbles are updating, and at most one is |
| ChatView.SendKeepsValid | static/js/scripts.js:398-402 | A send keeps the invariant |
| ChatView.StepKeepsValid | static/js/scripts.js:413-447 | Every event handler, the `error` handler as written included, keeps the invariant |
| ChatView.RunKeepsValid | static/js/scripts.js:364-447 | Every sequence of events keeps the invariant |
| ChatView.StartupValid | static/js/scripts.js:511-514 | The initial calls ask for the history and then the chat logs, show the indicator, and start in the invariant |
| ChatView.Controller.constructor | static/js/scripts.js:511-514 | The page starts in the startup view |
| ChatView.Controller.ShowLoadingIndicator | static/js/scripts.js:92-100 | The new state is the show transition of the old |
| ChatView.Controller.HideLoadingIndicator | static/js/scripts.js:101-106 | The new state is the hide transition of the old |
| ChatView.Controller.ShowError | static/js/scripts.js:110-128 | The message is appended to the reported errors and nothing else changes |
| ChatView.Controller.ClearChatBox | static/js/scripts.js:253 | The bubbles go, and an attached indicator becomes detached |
| ChatView.Controller.AddMessageToChat | static/js/scripts.js:450-467 | One bubble with the rendered text is appended, and its index is returned |
| ChatView.Controller.LoadChatLogs | static/js/scripts.js:206-209 | The indicator is shown and the chat logs are requested |
| ChatView.Controller.LoadChatHistory | static/js/scripts.js:343-345 | The chat history is requested |
| ChatView.Controller.SendMessage | static/js/scripts.js:385-410 | The new state is the send transition of the old |
| ChatView.Controller.ReceiveMessage | static/js/scripts.js:413-433 | The new state is the receive transition of the old |
| ChatView.Controller.ClearUpdatingFlags | static/js/scripts.js:438-439 | The `forEach` loop clears exactly the updating Bot bubbles' flags |
| ChatView.Controller.ResponseComplete | static/js/scripts.js:436-441 | The new state is the completion transition of the old |
| ChatView.Controller.SocketError | static/js/scripts.js:443-447 | The handler as written: the error is reported and the indicator hidden, and nothing else changes |
| ChatView.Controller.SocketErrorCorrected | static/js/scripts.js:443-447 | The evidently intended handler: it also clears the updating flags, as the corrected error transition says |
| ChatView.Controller.ChatLogsArrived | static/js/scripts.js:210-237 | The `forEach` loops rebuild the list and re-highlight as the listing transition says |
| ChatView.Controller.SelectChat | static/js/scripts.js:240-250 | The new state is the selection transition of the old |
| ChatView.Controller.ChatLoadArrived | static/js/scripts.js:251-262 | The new state is the load-answer transition of the old |
| ChatView.Controller.RenderChatHistory | static/js/scripts.js:355-361 | The `forEach` loop leaves one bubble per entry, as the history transition says |
| ChatView.Controller.ChatHistoryArrived | static/js/scripts.js:346-352 | The new state is the history-answer transition of the old |
| ChatView.Controller.DeleteClicked | static/js/scripts.js:317-339 | The new state is the delete-request transition of the old |
| ChatView.Controller.DeleteArrived | static/js/scripts.js:325-336 | The new state is the delete-answer transition of the old |
| ChatLogs.Basename | app.py:92 | The base name contains no `/`, ends the path, is preceded by a `/` when shorter than the path (so it is everything after the last `/`), and is the whole name when there is no `/` |
| ChatLogs.BasenameIsName | app.py:92-93 | A name equals its base name exactly when it contains no `/` |
| ChatLogs.ValidLogFilenameIff | app.py:88-97 | A name is valid exactly when it ends in `.json`, has no `/`, and is in the directory |
| ChatLogs.NotJsonIsInvalid | app.py:90-91 | A name not ending in `.json` is invalid |
| ChatLogs.PathIsInvalid | app.py:92-93 | A name containing a path separator is invalid |
| ChatLogs.MissingIsInvalid | app.py:94-96 | A name not in the directory is invalid |
| ChatLogs.LoadChatLog | app.py:99-107 | A record is returned exactly when the name ends in `.json`, has no `/` and is in the directory, and it is that file's record |
| ChatLogs.SaveThenLoad | app.py:62-66 | A record saved under a `.json` name without `/` loads back unchanged |
| ChatLogs.StrLeTotal | app.py:85 | Any two datetimes are comparable |
| ChatLogs.StrLeTrans | app.py:85 | The datetime order is transitive |
| ChatLogs.Insert | app.py:85 | Insertion adds exactly the new entry |
| ChatLogs.SortByDatetimeDesc | app.py:85 | Sorting keeps exactly the same entries |
| ChatLogs.InsertSorted | app.py:85 | Insertion into a list sorted newest-first keeps it sorted |
| ChatLogs.SortSorted | app.py:85 | The sorted list is ordered by datetime, non-increasing |
| ChatLogs.CollectedMembers | app.py:72-83 | The loop collects the summary of exactly those listed names that are neither `deleted-` prefixed nor missing `.json` |
| ChatLogs.InsertDistinct | app.py:85 | Inserting an entry for a file the list does not name keeps every file named once |
| ChatLogs.SortDistinct | app.py:85 | Sorting keeps every file named once |
| ChatLogs.CollectedDistinct | app.py:72-83 | A directory listing that names each file once gives a collection that names each file once |
| ChatLogs.ListChatLogsSpec | app.py:68-86 | The listing holds the summary of every listable file and of nothing else, each file once, sorted newest first |
| ChatLogs.SummarySubject | app.py:80-82 | A missing subject becomes "Untitled Chat"; a missing datetime becomes "" |
| ChatLogs.DeleteEffect | app.py:109-118 | For a valid name, the record moves to `deleted-` + name and every other file is untouched; for an invalid name nothing changes |
| ChatLogs.DeletedNotListed | app.py:115-116 | After a delete, neither the name nor its `deleted-` copy is listed, and every other listable file still is |
| ChatLogs.UpdateSubjectEffect | app.py:191-203 | Only the named record's subject changes, and only for a valid name with a present subject; no file appears or disappears |
| ChatLogs.LogDirectory.GetChatLogs | app.py:68-86 | The loop and the sort return the listing: every listable file's summary, nothing else, each file once, newest first |
| ChatLogs.LogDirectory.DeleteChatLog | app.py:109-118 | Returns whether the name was valid, and renames as the delete rule says |
| ChatLogs.LogDirectory.SaveChatToLog | app.py:62-66 | The file's record becomes the saved one |
| ChatLogs.LogDirectory.UpdateChatSubject | app.py:191-203 | Status 200 exactly when the subject can be updated, with the directory updated as the rule says |
| ChatLogs.LogDirectory.DeleteChat | app.py:205-212 | Status 200 exactly for a non-empty valid name, whose record is soft-deleted; otherwise 400 and no change |
| ChatSession.FreshLogIsListed | app.py:126-129 | A new session's log name is listable and, once saved, valid |
| ChatSession.LoadChatEffect | app.py:174-189 | A loadable file replaces the history with its chat log, or `[]` when it has none, and points the session at it; otherwise, including for any name with `/`, the session is unchanged |
| ChatSession.SaveThenLoadChat | app.py:174-189 | Loading the log a session saved restores that session |
| ChatSession.ReceiptsArePrefixSums | app.py:284-287 | The k-th `receive_message` carries the concatenation of the first k chunks |
| ChatSession.ReceiptsPrefixChain | app.py:284-287 | Each emission extends the previous one |
| ChatSession.ReplyIsAllChunks | app.py:261-269 | When `done` arrives, the reply is the concatenation of every chunk before it |
| ChatSession.DoneEndsStream | app.py:261-283 | Lines after the first `done` are never read and change neither the emissions nor the reply |
| ChatSession.HelloWorldStream | tests/test_api.py:73-75 | The chunks "Hello " and "World!", then `done`, emit "Hello " then "Hello World!" and finish with "Hello World!" |
| ChatSession.SubjectRule | app.py:232-234 | A set subject is kept. An empty prompt gives "Untitled Chat". Otherwise the subject is the prompt's first `min(30, len)` characters |
| ChatSession.StrippedBlank | app.py:220 | A missing prompt strips to ""; a prompt strips to "" exactly when it is all whitespace |
| ChatSession.SendHistoryEffect | app.py:225-269 | The user message is appended with the stripped prompt and the model. On `done` the assistant message with the whole reply follows; otherwise nothing else is added. The subject follows the subject rule |
| ChatSession.SendEventsShape | app.py:252-293 | The emissions are the running replies, then save and `response_complete` on `done`, the timeout or connect error when the stream fails, nothing more on a crash; `response_complete` is emitted exactly when `done` is seen |
| ChatSession.LineStep | app.py:256-287 | One loop step: blank lines are skipped, a chunk extends the accumulated text, `done` finishes, an unparsable line crashes |
| ChatSession.SendFinished | app.py:261-283 | On `done`, the saved record is the session with both messages |
| ChatSession.SendUnfinished | app.py:284-293 | Without `done`, only the user message is kept, and the errors follow the way the stream ended |
| ChatSession.TimeoutSendsOnlyError | app.py:288-290 | A request that times out before the reply starts keeps only the user message and emits only the timeout error |
| ChatSession.SavedReplyReloads | app.py:273-280 | The log saved after a finished reply reloads to the session after that reply |
| ChatSession.Session.constructor | app.py:123-136 | A new session has an empty history, an empty subject, and the log name built from the timestamp and the id |
| ChatSession.Session.LoadChat | app.py:174-189 | Status 200 exactly for a loadable file, with the session updated as the load rule says |
| ChatSession.Session.HandleSendMessage | app.py:217-293 | Strips the prompt and defaults the model to `llama3.2`; the new session and the emissions are those of the send rule. A timeout is taken to come before the first line |
| ChatSession.Session.Converse | app.py:225-293 | The loop's new session and emissions are exactly those the stream functions give |

## Left out

- `loadModels` and `/api/models`: the model list is network I/O. The model selector is a field set by an event.
- The paste handlers, `insertHtmlAtCursor` and `handlePastedFile`: DOM range, clipboard and FileReader APIs.
- `makeListItemEditable` and `saveNewSubject`: the client side of a subject edit is DOM editing. The server side is `ChatLogs.LogDirectory.UpdateChatSubject`.
- The New Chat button: it reloads the page, which starts over from `ChatView.Controller.constructor` and a fresh `ChatSession.Session`.
- `showError`'s styling and its 4.5 s removal timer: errors are an appended list that is never pruned.
- `hljs.highlightElement`, the copy button and its 1.5 s timer: foreign library and clipboard.
- Scroll positions.
- `ChatView.LastUpdating`, `ChatView.Unflagged` and `ChatView.Receive` assume that the selector `.bot-message[data-updating="true"]` matches only the chat's bubbles. On the page it searches the whole document, including the markup rendered inside each bubble, which the sanitizer may leave carrying that class and attribute. Such an element is not modelled.
- Where the indicator sits among the bubbles: the model records whether it is attached, not its position in the chat box.
- `Render`: `marked.parse` and `DOMPurify.sanitize` are uninterpreted, so no property of their output is stated. Only `transformCustomTags` is concrete.
- `fetch` and the Socket.IO transport: requests are an appended outbox, and answers are separate events. `None` stands for a failed request, a bad status or a bad body.
- The order of asynchronous answers: each answer is applied when its event arrives, and any interleaving is one sequence of events.
- Flask routing, Flask-Session storage, `log_request_info` and `get_models`: plumbing and I/O.
- `get_chat_history` and `list_chat_logs`: they only serialise the session history and `get_chat_logs`.
- The Ollama request payload and the HTTP call: the reply is a given sequence of parsed lines plus the way the stream ended (closed, timed out, connection error).
- `ChatSession.Session.HandleSendMessage`: requires that a timeout comes before the first line. `requests` raises `Timeout` only while connecting or waiting for the response headers. A stall after lines have arrived is re-raised as a connection error, which the model gives as `Broken`.
- `ChatSession.Session.HandleSendMessage`: an exception the handler does not catch ends it with nothing more emitted. Examples are a line that is not JSON, or a chunk without a `message` field.
- `ChatSession.OutcomeOf`: a `done` line's other fields are ignored, as the code ignores them.
- The background save's timing: the save is one emitted event carrying the record as it is when `done` arrives.
- `datetime.now()` and `uuid4()`: the clock readings and the id are parameters.
- JSON values other than strings and lists are not modelled: `null` where a string is expected, or a number for a subject. A record's absent key is `None`.
- Subdirectories and files that are not JSON in the log directory are not modelled. The directory is a map from file names to records.
- `ChatLogs.SortByDatetimeDesc`: states order and permutation but not the stability of Python's sort among equal datetimes.
- `ChatLogs.StrLe`: compares strings by code point, as Python does. Datetimes are not parsed.
- `ChatView.Controller.SelectChat`: requires that the clicked item exists. The page can only call it from an item's click listener.
- Stream tagging by session id and dropping late chunks after a chat switch are not in the code and are not modelled.
- `config.py` is not part of this model.

## Findings

| source | as written | input that shows it | evidently intended | confidence | as-written member | corrected member |
|---|---|---|---|---|---|---|
| static/js/scripts.js:443-447 | The `error` handler hides the indicator and reports the error, but leaves `data-updating` on a partly streamed reply | A chunk arrives, then `error` (for example a dropped connection). The user then asks a new question and its first chunk arrives. That chunk overwrites the old partial reply, which sits above the new question, and no new bubble appears | The handler ends the reply the way `response_complete` does, by clearing the updating flags, so the next reply gets its own bubble below the question | medium, not executed | ChatView.ErrorLeavesStaleReply | ChatView.ErrorKeepsReplyOrder |
