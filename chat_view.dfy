/** The browser's conversation view: the chat box's message bubbles, the
    single "Thinking..." indicator, the compose box, the chat list and the
    selected chat, with the requests the page sends out (socket emissions
    and `fetch` calls) kept as an appended log and their answers fed back
    in as events. `marked.parse` and `DOMPurify.sanitize` stay opaque: they
    are the two functions of a `Renderer`. */
module ChatView {
  import opened Text
  import ThinkTags
  import SendCheck

  datatype Role = User | Bot

  /** A `.message-bubble`: its role class, its inner HTML, and whether it
      carries `data-updating="true"`. */
  datatype Bubble = Bubble(role: Role, html: string, updating: bool)

  /** The `loadingIndicator` reference: unset, set and inside the chat box,
      or set while the element was removed by clearing the chat box. */
  datatype Indicator = NoIndicator | Attached | Detached

  /** One entry of `/api/chat_history`. */
  datatype HistoryEntry = HistoryEntry(role: string, content: string)

  /** One entry of `/api/chat_logs`. */
  datatype LogEntry = LogEntry(filename: string, subject: string)

  /** An `li` of the chat list: its file name, its text and whether it has
      the `selected` class. */
  datatype ListItem = ListItem(filename: string, caption: string, highlighted: bool)

  /** What the page sends out. */
  datatype Outbound =
    | EmitSendMessage(model: string, prompt: string)
    | GetChatLogs
    | GetChatHistory
    | PostLoadChat(filename: string)
    | PostDeleteChat(filename: string)

  /** The two foreign libraries every message goes through. */
  datatype Renderer = Renderer(markdown: string -> string, sanitize: string -> string)

  /** What a bubble shows for a text: markdown, then sanitising, then the
      `<think>` rewrite. */
  function Render(r: Renderer, text: string): string {
    ThinkTags.TransformCustomTags(r.sanitize(r.markdown(text)))
  }

  datatype View = View(
    messages: seq<Bubble>,
    indicator: Indicator,
    input: string,
    model: string,
    selected: Option<string>,
    items: seq<ListItem>,
    outbox: seq<Outbound>,
    errors: seq<string>)

  /** A bubble that `.bot-message[data-updating="true"]` selects. */
  predicate IsUpdating(b: Bubble) {
    b.role == Bot && b.updating
  }

  predicate NoneUpdating(ms: seq<Bubble>) {
    forall i :: 0 <= i < |ms| ==> !ms[i].updating
  }

  /** The invariant every handler keeps: only a Bot bubble is ever marked
      updating, and at most one is. */
  predicate OneUpdating(ms: seq<Bubble>) {
    && (forall i :: 0 <= i < |ms| && ms[i].updating ==> ms[i].role == Bot)
    && (forall i, j :: (0 <= i < |ms| && 0 <= j < |ms| && ms[i].updating && ms[j].updating) ==> i == j)
  }

  predicate Valid(v: View) {
    OneUpdating(v.messages)
  }

  // ---------------------------------------------------------------------
  // The handlers, as transitions of the view.

  const Initial := View([], NoIndicator, "", "", None, [], [], [])

  function ShowIndicator(v: View): View {
    if v.indicator == NoIndicator then v.(indicator := Attached) else v
  }

  function HideIndicator(v: View): View {
    v.(indicator := NoIndicator)
  }

  /** `chatBox.innerHTML = ''`: the bubbles go, and so does the indicator
      element, but not the reference to it. */
  function ClearBox(v: View): View {
    v.(messages := [], indicator := if v.indicator == Attached then Detached else v.indicator)
  }

  function AddMessage(v: View, r: Renderer, role: Role, text: string): View {
    v.(messages := v.messages + [Bubble(role, Render(r, text), false)])
  }

  /** The part of `loadChatLogs` before its `await`. */
  function RequestChatLogs(v: View): View {
    ShowIndicator(v).(outbox := v.outbox + [GetChatLogs])
  }

  /** The part of `loadChatHistory` before its `await`. */
  function RequestChatHistory(v: View): View {
    v.(outbox := v.outbox + [GetChatHistory])
  }

  /** The page's initial calls, without `loadModels`. */
  function Startup(): View {
    RequestChatLogs(RequestChatHistory(Initial))
  }

  function Send(v: View, r: Renderer): View {
    if SendCheck.IsBlankInput(v.input) then v
    else if v.model == "" then v.(errors := v.errors + ["Please select a model."])
    else
      var message := SendCheck.MessageOf(v.input);
      var w := ShowIndicator(AddMessage(v, r, User, message).(input := ""));
      w.(outbox := w.outbox + [EmitSendMessage(v.model, message)])
  }

  /** The last bubble the updating selector finds. */
  function LastUpdating(ms: seq<Bubble>): (r: Option<nat>)
    ensures r.Some? ==> r.value < |ms| && IsUpdating(ms[r.value])
    ensures r.Some? ==> forall j :: r.value < j < |ms| ==> !IsUpdating(ms[j])
    ensures r.None? ==> forall j :: 0 <= j < |ms| ==> !IsUpdating(ms[j])
  {
    if ms == [] then None
    else if IsUpdating(ms[|ms| - 1]) then Some(|ms| - 1)
    else LastUpdating(ms[..|ms| - 1])
  }

  /** `receive_message`: `content` is the whole reply so far. */
  function Receive(v: View, r: Renderer, content: string): View {
    var w := HideIndicator(v);
    match LastUpdating(w.messages)
    case None =>
      w.(messages := w.messages + [Bubble(Bot, Render(r, content), true)])
    case Some(i) =>
      w.(messages := w.messages[i := w.messages[i].(html := Render(r, content))])
  }

  function Unflagged(ms: seq<Bubble>): seq<Bubble> {
    seq(|ms|, i requires 0 <= i < |ms| =>
      if IsUpdating(ms[i]) then ms[i].(updating := false) else ms[i])
  }

  /** `response_complete`. */
  function Complete(v: View): View {
    RequestChatLogs(HideIndicator(v).(messages := Unflagged(v.messages)))
  }

  /** The `error` handler as the page has it: the flag of a partly
      streamed reply survives. */
  function OnErrorAsWritten(v: View, message: string): View {
    HideIndicator(v.(errors := v.errors + [message]))
  }

  /** The `error` handler as evidently intended: it ends the reply the way
      `response_complete` does. */
  function OnError(v: View, message: string): View {
    HideIndicator(v.(messages := Unflagged(v.messages), errors := v.errors + [message]))
  }

  function Caption(subject: string): string {
    if subject == "" then "Untitled Chat" else subject
  }

  /** The re-selection test of `loadChatLogs`. */
  predicate Highlight(selected: Option<string>, filename: string) {
    selected.Some? && selected.value != "" && filename == selected.value
  }

  function ListedItems(logs: seq<LogEntry>, selected: Option<string>): seq<ListItem> {
    seq(|logs|, i requires 0 <= i < |logs| =>
      ListItem(logs[i].filename, Caption(logs[i].subject), Highlight(selected, logs[i].filename)))
  }

  /** The rest of `loadChatLogs`, given the answer (`None` when the request,
      its status or its body failed). */
  function LogsLoaded(v: View, answer: Option<seq<LogEntry>>): View {
    match answer
    case None => HideIndicator(v.(errors := v.errors + ["Error fetching chat logs"]))
    case Some(logs) => HideIndicator(v.(items := ListedItems(logs, v.selected)))
  }

  /** A click on the `index`-th chat of the list, up to its `await`. */
  function Select(v: View, index: nat): View
    requires index < |v.items|
  {
    var f := v.items[index].filename;
    v.(items := seq(|v.items|, j requires 0 <= j < |v.items| => v.items[j].(highlighted := j == index)),
       selected := Some(f),
       outbox := v.outbox + [PostLoadChat(f)])
  }

  /** The rest of `selectChat`, given `data.status` (`None` when the
      request failed). */
  function ChatLoaded(v: View, status: Option<bool>): View {
    match status
    case None => v.(errors := v.errors + ["Error loading chat"])
    case Some(false) => v.(errors := v.errors + ["Failed to load chat."])
    case Some(true) => RequestChatHistory(ClearBox(v))
  }

  function RoleOf(role: string): Role {
    if role == "user" then User else Bot
  }

  function HistoryBubbles(r: Renderer, history: seq<HistoryEntry>): seq<Bubble> {
    seq(|history|, i requires 0 <= i < |history| =>
      Bubble(RoleOf(history[i].role), Render(r, history[i].content), false))
  }

  /** One more history entry adds one bubble at the end. */
  lemma HistoryBubblesSnoc(r: Renderer, history: seq<HistoryEntry>, k: nat)
    requires k < |history|
    ensures HistoryBubbles(r, history[..k + 1])
      == HistoryBubbles(r, history[..k]) + [Bubble(RoleOf(history[k].role), Render(r, history[k].content), false)]
  {
    assert history[..k + 1][..k] == history[..k];
  }

  function RenderHistory(v: View, r: Renderer, history: seq<HistoryEntry>): View {
    ClearBox(v).(messages := HistoryBubbles(r, history))
  }

  /** The rest of `loadChatHistory`. */
  function HistoryLoaded(v: View, r: Renderer, answer: Option<seq<HistoryEntry>>): View {
    match answer
    case None => v.(errors := v.errors + ["Error fetching chat history"])
    case Some(history) => RenderHistory(v, r, history)
  }

  /** A click on the delete button, up to its `await`. */
  function RequestDelete(v: View): View {
    if v.selected.Some? && v.selected.value != "" then
      v.(outbox := v.outbox + [PostDeleteChat(v.selected.value)])
    else v.(errors := v.errors + ["Please select a chat to delete."])
  }

  /** The rest of the delete handler, given `data.status`. */
  function DeleteAnswered(v: View, status: Option<bool>): View {
    match status
    case None => v.(errors := v.errors + ["Error deleting chat"])
    case Some(false) => v.(errors := v.errors + ["Failed to delete chat."])
    case Some(true) => RequestChatLogs(ClearBox(v).(selected := None))
  }

  /** What can happen to the page. */
  datatype Event =
    | Typed(html: string)
    | ModelChosen(model: string)
    | Submitted
    | Chunk(content: string)
    | Finished
    | Failed(message: string)
    | LogsArrived(logs: Option<seq<LogEntry>>)
    | ChatClicked(index: nat)
    | LoadArrived(status: Option<bool>)
    | HistoryArrived(history: Option<seq<HistoryEntry>>)
    | DeleteClicked
    | DeleteArrived(status: Option<bool>)

  function Step(v: View, r: Renderer, e: Event): View {
    match e
    case Typed(html) => v.(input := html)
    case ModelChosen(m) => v.(model := m)
    case Submitted => Send(v, r)
    case Chunk(content) => Receive(v, r, content)
    case Finished => Complete(v)
    case Failed(message) => OnErrorAsWritten(v, message)
    case LogsArrived(logs) => LogsLoaded(v, logs)
    case ChatClicked(i) => if i < |v.items| then Select(v, i) else v
    case LoadArrived(status) => ChatLoaded(v, status)
    case HistoryArrived(history) => HistoryLoaded(v, r, history)
    case DeleteClicked => RequestDelete(v)
    case DeleteArrived(status) => DeleteAnswered(v, status)
  }

  function Run(v: View, r: Renderer, es: seq<Event>): View
    decreases |es|
  {
    if es == [] then v else Run(Step(v, r, es[0]), r, es[1..])
  }

  // ---------------------------------------------------------------------
  // The loading indicator.

  /** Showing twice adds nothing; hiding always drops the reference. */
  lemma IndicatorShowHide(v: View)
    ensures ShowIndicator(ShowIndicator(v)) == ShowIndicator(v)
    ensures ShowIndicator(v).indicator != NoIndicator
    ensures v.indicator == NoIndicator ==> ShowIndicator(v).indicator == Attached
    ensures HideIndicator(v).indicator == NoIndicator
    ensures ShowIndicator(v).messages == v.messages && HideIndicator(v).messages == v.messages
  {
  }

  /** Once the chat box was cleared under a shown indicator, showing it
      again displays nothing until it is hidden. */
  lemma ClearedIndicatorStaysInvisible(v: View)
    requires v.indicator == Attached
    ensures ShowIndicator(ClearBox(v)).indicator == Detached
    ensures ShowIndicator(HideIndicator(ClearBox(v))).indicator == Attached
  {
  }

  // ---------------------------------------------------------------------
  // Sending.

  /** A blank compose box changes nothing and emits nothing. */
  lemma BlankSendIsNoOp(v: View, r: Renderer)
    requires SendCheck.IsBlankInput(v.input)
    ensures Send(v, r) == v
  {
  }

  /** Whitespace, `&nbsp;` and tags alone are blank, `<br>` or not. */
  lemma MarkupOnlySendIsNoOp(v: View, r: Renderer, ps: seq<SendCheck.Piece>)
    requires SendCheck.AllWellFormed(ps) && v.input == SendCheck.Join(ps)
    ensures Send(v, r) == v
  {
    SendCheck.MarkupOnlyIsBlank(ps);
  }

  /** Without a model only the error is shown. */
  lemma SendWithoutModel(v: View, r: Renderer)
    requires !SendCheck.IsBlankInput(v.input) && v.model == ""
    ensures var w := Send(v, r);
      && w.messages == v.messages && w.outbox == v.outbox && w.input == v.input
      && w.indicator == v.indicator && w.errors == v.errors + ["Please select a model."]
  {
  }

  /** A send appends one User bubble, empties the box, shows the indicator
      and emits one `send_message`; nothing else changes. */
  lemma SendEffect(v: View, r: Renderer)
    requires !SendCheck.IsBlankInput(v.input) && v.model != ""
    ensures var w := Send(v, r); var m := SendCheck.MessageOf(v.input);
      && w.messages == v.messages + [Bubble(User, Render(r, m), false)]
      && w.input == ""
      && w.indicator != NoIndicator
      && w.outbox == v.outbox + [EmitSendMessage(v.model, m)]
      && w.errors == v.errors && w.selected == v.selected && w.items == v.items
      && w.model == v.model
  {
  }

  /** Plain text reaches the server trimmed. */
  lemma PlainTextIsEmitted(v: View, r: Renderer)
    requires '<' !in v.input && '&' !in v.input && !AllSpace(Js, v.input) && v.model != ""
    ensures Send(v, r).outbox == v.outbox + [EmitSendMessage(v.model, Trim(Js, v.input))]
  {
    SendCheck.PlainTextIsSent(v.input);
  }

  // ---------------------------------------------------------------------
  // Streaming.

  lemma LastUpdatingIsOnly(ms: seq<Bubble>, i: nat)
    requires i < |ms| && ms[i].updating && ms[i].role == Bot
    requires forall j :: 0 <= j < |ms| && ms[j].updating ==> j == i
    ensures LastUpdating(ms) == Some(i)
  {
  }

  /** With no reply in progress a chunk appends one updating Bot bubble;
      otherwise the updating bubble's content is replaced, not extended. */
  lemma ReceiveEffect(v: View, r: Renderer, content: string)
    requires Valid(v)
    ensures var w := Receive(v, r, content);
      && w.indicator == NoIndicator
      && |v.messages| <= |w.messages| <= |v.messages| + 1
      && (NoneUpdating(v.messages) ==>
            w.messages == v.messages + [Bubble(Bot, Render(r, content), true)])
      && (forall i :: 0 <= i < |v.messages| && v.messages[i].updating ==>
            w.messages == v.messages[i := v.messages[i].(html := Render(r, content))])
      && w.outbox == v.outbox && w.errors == v.errors
  {
    forall i | 0 <= i < |v.messages| && v.messages[i].updating
      ensures LastUpdating(v.messages) == Some(i)
    {
      LastUpdatingIsOnly(v.messages, i);
    }
  }

  /** After any chunk exactly one bubble is updating, and it shows that
      chunk's text. */
  lemma ReceiveShowsLatest(v: View, r: Renderer, content: string)
    requires Valid(v)
    ensures var w := Receive(v, r, content);
      exists i :: 0 <= i < |w.messages| && w.messages[i] == Bubble(Bot, Render(r, content), true)
        && (forall j :: 0 <= j < |w.messages| && w.messages[j].updating ==> j == i)
  {
    ReceiveEffect(v, r, content);
    var w := Receive(v, r, content);
    if NoneUpdating(v.messages) {
      var i := |v.messages|;
      assert w.messages[i] == Bubble(Bot, Render(r, content), true);
    } else {
      var i :| 0 <= i < |v.messages| && v.messages[i].updating;
      assert w.messages[i] == Bubble(Bot, Render(r, content), true);
    }
  }

  lemma UpdateLast(ms: seq<Bubble>, b: Bubble, html: string)
    ensures (ms + [b])[|ms| := b.(html := html)] == ms + [b.(html := html)]
  {
  }

  /** Two chunks of one reply leave what the second alone would: the bubble
      count grows by one per reply, not per chunk. */
  lemma {:induction false} ReceiveLatestWins(v: View, r: Renderer, a: string, b: string)
    requires Valid(v)
    ensures Receive(Receive(v, r, a), r, b) == Receive(v, r, b)
  {
    ReceiveEffect(v, r, a);
    var w := Receive(v, r, a);
    ReceiveKeepsValid(v, r, a);
    ReceiveEffect(w, r, b);
    ReceiveEffect(v, r, b);
    if NoneUpdating(v.messages) {
      var n := |v.messages|;
      assert w.messages[n].updating;
      UpdateLast(v.messages, Bubble(Bot, Render(r, a), true), Render(r, b));
    } else {
      var i :| 0 <= i < |v.messages| && v.messages[i].updating;
      assert w.messages[i].updating;
      assert w.messages[i := w.messages[i].(html := Render(r, b))]
        == v.messages[i := v.messages[i].(html := Render(r, b))];
    }
  }

  /** `response_complete` clears every flag and changes no content; the
      chat list is then requested again, which shows the indicator anew. */
  lemma CompleteEffect(v: View)
    requires Valid(v)
    ensures var w := Complete(v);
      && NoneUpdating(w.messages)
      && |w.messages| == |v.messages|
      && (forall i :: 0 <= i < |v.messages| ==>
            w.messages[i].role == v.messages[i].role && w.messages[i].html == v.messages[i].html)
      && w.indicator == Attached
      && w.outbox == v.outbox + [GetChatLogs]
  {
  }

  /** After a completed reply the next chunk starts a new bubble at the end. */
  lemma NextReplyAppends(v: View, r: Renderer, content: string)
    requires Valid(v)
    ensures Receive(Complete(v), r, content).messages
      == Complete(v).messages + [Bubble(Bot, Render(r, content), true)]
  {
    CompleteEffect(v);
    ReceiveEffect(Complete(v), r, content);
  }

  /** A partial reply cut off by the page's `error` handler stays updating. */
  lemma PartialThenErrorAsWritten(v: View, r: Renderer, partial: string, message: string)
    requires NoneUpdating(v.messages)
    ensures var w := OnErrorAsWritten(Receive(v, r, partial), message);
      w.messages == v.messages + [Bubble(Bot, Render(r, partial), true)] && w.model == v.model
  {
    NoneUpdatingIsOne(v.messages);
    ReceiveEffect(v, r, partial);
  }

  /** A partial reply cut off by the corrected handler is ended. */
  lemma PartialThenError(v: View, r: Renderer, partial: string, message: string)
    requires NoneUpdating(v.messages)
    ensures var w := OnError(Receive(v, r, partial), message);
      w.messages == v.messages + [Bubble(Bot, Render(r, partial), false)] && w.model == v.model
  {
    NoneUpdatingIsOne(v.messages);
    ReceiveEffect(v, r, partial);
    UnflaggedIdleThenReply(v.messages, Render(r, partial));
  }

  /** A chunk while the bubble at `n` is the only one updating rewrites it. */
  lemma ReceiveIntoStale(v: View, r: Renderer, n: nat, reply: string)
    requires n < |v.messages| && v.messages[n].role == Bot && v.messages[n].updating
    requires forall j :: 0 <= j < |v.messages| && j != n ==> !v.messages[j].updating
    ensures Receive(v, r, reply).messages == v.messages[n := v.messages[n].(html := Render(r, reply))]
  {
    LastUpdatingIsOnly(v.messages, n);
  }

  /** The page as written: an error after part of a reply leaves that bubble
      updating, so the next question's reply overwrites it, above the
      question. */
  lemma ErrorLeavesStaleReply(v: View, r: Renderer, partial: string, message: string,
                              question: string, reply: string)
    requires NoneUpdating(v.messages) && v.model != ""
    requires !SendCheck.IsBlankInput(question)
    ensures var w1 := OnErrorAsWritten(Receive(v, r, partial), message);
      var w3 := Receive(Send(w1.(input := question), r), r, reply);
      var n := |v.messages|;
      && |w3.messages| == n + 2
      && w3.messages[n] == Bubble(Bot, Render(r, reply), true)
      && w3.messages[n + 1].role == User
  {
    var n := |v.messages|;
    PartialThenErrorAsWritten(v, r, partial, message);
    var w1 := OnErrorAsWritten(Receive(v, r, partial), message);
    SendEffect(w1.(input := question), r);
    var w2 := Send(w1.(input := question), r);
    var ms := w2.messages;
    assert ms == v.messages + [Bubble(Bot, Render(r, partial), true), Bubble(User, Render(r, SendCheck.MessageOf(question)), false)];
    assert forall j :: 0 <= j < |ms| && j != n ==> !ms[j].updating by {
      assert forall j :: 0 <= j < n ==> ms[j] == v.messages[j];
    }
    ReceiveIntoStale(w2, r, n, reply);
  }

  /** The handler as written only reports and hides: every bubble, its
      flag included, is kept, and nothing is sent. */
  lemma ErrorAsWrittenEffect(v: View, message: string)
    ensures var w := OnErrorAsWritten(v, message);
      && w.messages == v.messages
      && w.indicator == NoIndicator
      && w.errors == v.errors + [message]
      && w.outbox == v.outbox && w.selected == v.selected && w.items == v.items
      && w.input == v.input && w.model == v.model
    ensures Valid(v) ==> Valid(OnErrorAsWritten(v, message))
  {
  }

  /** The corrected handler ends the reply: nothing stays updating. */
  lemma ErrorEndsReply(v: View, message: string)
    requires Valid(v)
    ensures var w := OnError(v, message);
      && NoneUpdating(w.messages)
      && |w.messages| == |v.messages|
      && (forall i :: 0 <= i < |v.messages| ==>
            w.messages[i].role == v.messages[i].role && w.messages[i].html == v.messages[i].html)
      && w.indicator == NoIndicator
      && w.errors == v.errors + [message] && w.outbox == v.outbox
  {
  }

  lemma UnflaggedIdleThenReply(ms: seq<Bubble>, html: string)
    requires NoneUpdating(ms)
    ensures Unflagged(ms + [Bubble(Bot, html, true)]) == ms + [Bubble(Bot, html, false)]
  {
    var xs := ms + [Bubble(Bot, html, true)];
    assert forall i :: 0 <= i < |ms| ==> xs[i] == ms[i];
  }

  /** With the corrected handler the same run keeps the partial reply and
      puts the new reply after the new question. */
  lemma ErrorKeepsReplyOrder(v: View, r: Renderer, partial: string, message: string,
                             question: string, reply: string)
    requires NoneUpdating(v.messages) && v.model != ""
    requires !SendCheck.IsBlankInput(question)
    ensures var w1 := OnError(Receive(v, r, partial), message);
      var w3 := Receive(Send(w1.(input := question), r), r, reply);
      var n := |v.messages|;
      && |w3.messages| == n + 3
      && w3.messages[n] == Bubble(Bot, Render(r, partial), false)
      && w3.messages[n + 1].role == User
      && w3.messages[n + 2] == Bubble(Bot, Render(r, reply), true)
  {
    PartialThenError(v, r, partial, message);
    var w1 := OnError(Receive(v, r, partial), message);
    NoneUpdatingSnoc(v.messages, Bubble(Bot, Render(r, partial), false));
    SendEffect(w1.(input := question), r);
    var w2 := Send(w1.(input := question), r);
    NoneUpdatingSnoc(w1.messages, Bubble(User, Render(r, SendCheck.MessageOf(question)), false));
    NoneUpdatingIsOne(w2.messages);
    ReceiveEffect(w2, r, reply);
  }

  // ---------------------------------------------------------------------
  // History, chat list, selection and deletion.

  /** The box shows one bubble per history entry, in order; `user` maps to
      User and every other role to Bot. */
  lemma RenderHistoryEffect(v: View, r: Renderer, history: seq<HistoryEntry>)
    ensures var w := RenderHistory(v, r, history);
      && |w.messages| == |history|
      && (forall i :: 0 <= i < |history| ==>
            && (w.messages[i].role == User <==> history[i].role == "user")
            && w.messages[i].html == Render(r, history[i].content))
      && NoneUpdating(w.messages)
      && w.selected == v.selected && w.outbox == v.outbox
  {
  }

  /** The listed chats carry their subject, or `Untitled Chat`, and exactly
      the ones named by a non-empty selection are highlighted. */
  lemma LogsLoadedEffect(v: View, logs: seq<LogEntry>)
    ensures var w := LogsLoaded(v, Some(logs));
      && |w.items| == |logs|
      && (forall i :: 0 <= i < |logs| ==>
            && w.items[i].filename == logs[i].filename
            && w.items[i].caption != ""
            && (logs[i].subject != "" ==> w.items[i].caption == logs[i].subject)
            && (logs[i].subject == "" ==> w.items[i].caption == "Untitled Chat")
            && (w.items[i].highlighted <==>
                  v.selected.Some? && v.selected.value != "" && logs[i].filename == v.selected.value))
      && w.indicator == NoIndicator && w.messages == v.messages
  {
  }

  /** A failed listing keeps the old list and shows an error. */
  lemma LogsFailedEffect(v: View)
    ensures var w := LogsLoaded(v, None);
      w.items == v.items && w.errors == v.errors + ["Error fetching chat logs"]
      && w.indicator == NoIndicator
  {
  }

  /** Clicking a chat highlights that item alone, selects its file and asks
      for it; the box is left as it is until the answer. */
  lemma SelectChatEffect(v: View, index: nat)
    requires index < |v.items|
    ensures var w := Select(v, index);
      && |w.items| == |v.items|
      && (forall j :: 0 <= j < |w.items| ==>
            w.items[j].highlighted == (j == index) && w.items[j].filename == v.items[j].filename)
      && w.selected == Some(v.items[index].filename)
      && w.outbox == v.outbox + [PostLoadChat(v.items[index].filename)]
      && w.messages == v.messages
  {
  }

  /** A loaded chat empties the box and asks for the history; a refusal or a
      failure only shows an error. */
  lemma ChatLoadedEffect(v: View, status: Option<bool>)
    ensures var w := ChatLoaded(v, status);
      && (status == Some(true) ==>
            w.messages == [] && w.outbox == v.outbox + [GetChatHistory] && w.errors == v.errors)
      && (status == Some(false) ==>
            w.messages == v.messages && w.outbox == v.outbox
            && w.errors == v.errors + ["Failed to load chat."])
      && (status == None ==>
            w.messages == v.messages && w.outbox == v.outbox
            && w.errors == v.errors + ["Error loading chat"])
      && w.selected == v.selected
  {
  }

  /** Delete with no chat selected only shows an error and sends nothing. */
  lemma DeleteWithoutSelection(v: View)
    requires v.selected == None || v.selected == Some("")
    ensures RequestDelete(v) == v.(errors := v.errors + ["Please select a chat to delete."])
  {
  }

  /** Delete with a chat selected asks for exactly that file. */
  lemma DeleteWithSelection(v: View, f: string)
    requires v.selected == Some(f) && f != ""
    ensures RequestDelete(v).outbox == v.outbox + [PostDeleteChat(f)]
    ensures RequestDelete(v).errors == v.errors && RequestDelete(v).messages == v.messages
  {
  }

  /** A confirmed delete empties the box, drops the selection and reloads
      the chat list. */
  lemma DeleteSucceeded(v: View)
    ensures var w := DeleteAnswered(v, Some(true));
      w.messages == [] && w.selected == None && w.outbox == v.outbox + [GetChatLogs]
      && w.errors == v.errors
  {
  }

  // ---------------------------------------------------------------------
  // The invariant.

  lemma ReceiveKeepsValid(v: View, r: Renderer, content: string)
    requires Valid(v)
    ensures Valid(Receive(v, r, content))
  {
    var w := HideIndicator(v);
    match LastUpdating(w.messages)
    case None =>
      assert NoneUpdating(v.messages);
    case Some(i) =>
  }

  lemma UnflaggedNoneUpdating(ms: seq<Bubble>)
    requires forall i :: 0 <= i < |ms| && ms[i].updating ==> ms[i].role == Bot
    ensures NoneUpdating(Unflagged(ms))
  {
  }

  lemma NoneUpdatingIsOne(ms: seq<Bubble>)
    requires NoneUpdating(ms)
    ensures OneUpdating(ms)
  {
  }

  /** A bubble that is not updating may be appended. */
  lemma OneUpdatingSnoc(ms: seq<Bubble>, b: Bubble)
    requires OneUpdating(ms) && !b.updating
    ensures OneUpdating(ms + [b])
  {
    var xs := ms + [b];
    assert forall i :: 0 <= i < |ms| ==> xs[i] == ms[i];
  }

  lemma NoneUpdatingSnoc(ms: seq<Bubble>, b: Bubble)
    requires NoneUpdating(ms) && !b.updating
    ensures NoneUpdating(ms + [b])
  {
    var xs := ms + [b];
    assert forall i :: 0 <= i < |ms| ==> xs[i] == ms[i];
  }

  lemma SendKeepsValid(v: View, r: Renderer)
    requires Valid(v)
    ensures Valid(Send(v, r))
  {
    if !SendCheck.IsBlankInput(v.input) && v.model != "" {
      SendEffect(v, r);
      OneUpdatingSnoc(v.messages, Bubble(User, Render(r, SendCheck.MessageOf(v.input)), false));
    } else {
      assert Send(v, r).messages == v.messages;
    }
  }

  lemma {:induction false} StepKeepsValid(v: View, r: Renderer, e: Event)
    requires Valid(v)
    ensures Valid(Step(v, r, e))
  {
    var w := Step(v, r, e);
    match e
    case Typed(_) => assert w.messages == v.messages;
    case ModelChosen(_) => assert w.messages == v.messages;
    case Submitted => SendKeepsValid(v, r);
    case Chunk(content) => ReceiveKeepsValid(v, r, content);
    case Finished =>
      UnflaggedNoneUpdating(v.messages);
      NoneUpdatingIsOne(w.messages);
    case Failed(_) => assert w.messages == v.messages;
    case LogsArrived(_) => assert w.messages == v.messages;
    case ChatClicked(_) => assert w.messages == v.messages;
    case LoadArrived(status) =>
      assert w.messages == v.messages || w.messages == [];
    case HistoryArrived(history) =>
      assert w.messages == v.messages || NoneUpdating(w.messages);
    case DeleteClicked => assert w.messages == v.messages;
    case DeleteArrived(status) =>
      assert w.messages == v.messages || w.messages == [];
  }

  /** At most one bubble is updating, whatever happens to the page. */
  lemma {:induction false} RunKeepsValid(v: View, r: Renderer, es: seq<Event>)
    requires Valid(v)
    ensures Valid(Run(v, r, es))
    decreases |es|
  {
    if es != [] {
      StepKeepsValid(v, r, es[0]);
      RunKeepsValid(Step(v, r, es[0]), r, es[1..]);
    }
  }

  lemma StartupValid()
    ensures Valid(Startup()) && Startup().outbox == [GetChatHistory, GetChatLogs]
    ensures Startup().indicator == Attached
  {
  }

  // ---------------------------------------------------------------------
  // The page's handlers as they run: each changes the page's state in
  // place and is proved to perform the transition above.

  class Controller {
    var messages: seq<Bubble>
    var indicator: Indicator
    var input: string
    var model: string
    var selected: Option<string>
    var items: seq<ListItem>
    var outbox: seq<Outbound>
    var errors: seq<string>
    const renderer: Renderer

    function State(): View
      reads this
    {
      View(messages, indicator, input, model, selected, items, outbox, errors)
    }

    /** The page after `DOMContentLoaded` has made its initial calls. */
    constructor (renderer: Renderer)
      ensures State() == Startup() && this.renderer == renderer
    {
      this.renderer := renderer;
      messages, indicator, input, model := [], NoIndicator, "", "";
      selected, items, outbox, errors := None, [], [], [];
      new;
      LoadChatHistory();
      LoadChatLogs();
    }

    method ShowLoadingIndicator()
      modifies this
      ensures State() == ShowIndicator(old(State()))
    {
      if indicator == NoIndicator {
        indicator := Attached;
      }
    }

    method HideLoadingIndicator()
      modifies this
      ensures State() == HideIndicator(old(State()))
    {
      if indicator != NoIndicator {
        indicator := NoIndicator;
      }
    }

    method ShowError(message: string)
      modifies this
      ensures State() == old(State()).(errors := old(errors) + [message])
    {
      errors := errors + [message];
    }

    method ClearChatBox()
      modifies this
      ensures State() == ClearBox(old(State()))
    {
      messages := [];
      if indicator == Attached {
        indicator := Detached;
      }
    }

    /** Appends a bubble and returns its position. */
    method AddMessageToChat(role: Role, text: string) returns (index: nat)
      modifies this
      ensures index == |old(messages)| && index < |messages|
      ensures State() == AddMessage(old(State()), renderer, role, text)
    {
      var html := Render(renderer, text);
      index := |messages|;
      messages := messages + [Bubble(role, html, false)];
    }

    method LoadChatLogs()
      modifies this
      ensures State() == RequestChatLogs(old(State()))
    {
      ShowLoadingIndicator();
      outbox := outbox + [GetChatLogs];
    }

    method LoadChatHistory()
      modifies this
      ensures State() == RequestChatHistory(old(State()))
    {
      outbox := outbox + [GetChatHistory];
    }

    method SendMessage()
      modifies this
      ensures State() == Send(old(State()), renderer)
    {
      var message := SendCheck.MessageOf(input);
      if SendCheck.IsBlankInput(input) {
        return;
      }
      var selectedModel := model;
      if selectedModel == "" {
        ShowError("Please select a model.");
        return;
      }
      var _ := AddMessageToChat(User, message);
      input := "";
      ShowLoadingIndicator();
      outbox := outbox + [EmitSendMessage(selectedModel, message)];
    }

    method ReceiveMessage(content: string)
      modifies this
      ensures State() == Receive(old(State()), renderer, content)
    {
      HideLoadingIndicator();
      var last := LastUpdating(messages);
      var index: nat;
      if last.None? {
        index := AddMessageToChat(Bot, "");
        messages := messages[index := messages[index].(updating := true)];
      } else {
        index := last.value;
      }
      var html := Render(renderer, content);
      messages := messages[index := messages[index].(html := html)];
    }

    /** Removes `data-updating` from every bubble the selector finds. */
    method ClearUpdatingFlags()
      modifies this
      ensures State() == old(State()).(messages := Unflagged(old(messages)))
    {
      ghost var before := messages;
      var i := 0;
      while i < |messages|
        invariant 0 <= i <= |messages| == |before|
        invariant forall j :: 0 <= j < i ==> messages[j] == Unflagged(before)[j]
        invariant forall j :: i <= j < |messages| ==> messages[j] == before[j]
        invariant State() == old(State()).(messages := messages)
      {
        if IsUpdating(messages[i]) {
          messages := messages[i := messages[i].(updating := false)];
        }
        i := i + 1;
      }
    }

    method ResponseComplete()
      modifies this
      ensures State() == Complete(old(State()))
    {
      HideLoadingIndicator();
      ClearUpdatingFlags();
      LoadChatLogs();
    }

    /** The `error` handler. */
    method SocketError(message: string)
      modifies this
      ensures State() == OnErrorAsWritten(old(State()), message)
    {
      ShowError(message);
      HideLoadingIndicator();
    }

    /** The `error` handler as evidently intended: it also clears the flag
        of a cut-off reply, as `response_complete` does. */
    method SocketErrorCorrected(message: string)
      modifies this
      ensures State() == OnError(old(State()), message)
    {
      ShowError(message);
      HideLoadingIndicator();
      ClearUpdatingFlags();
    }

    /** The answer to `GetChatLogs`. */
    method ChatLogsArrived(answer: Option<seq<LogEntry>>)
      modifies this
      ensures State() == LogsLoaded(old(State()), answer)
    {
      if answer.None? {
        ShowError("Error fetching chat logs");
        HideLoadingIndicator();
        return;
      }
      var logs := answer.value;
      items := [];
      var k := 0;
      while k < |logs|
        invariant 0 <= k <= |logs| && |items| == k
        invariant forall j :: 0 <= j < k ==>
          items[j] == ListItem(logs[j].filename, Caption(logs[j].subject), false)
        invariant State() == old(State()).(items := items)
      {
        items := items + [ListItem(logs[k].filename, Caption(logs[k].subject), false)];
        k := k + 1;
      }
      if selected.Some? && selected.value != "" {
        var name := selected.value;
        k := 0;
        while k < |items|
          invariant 0 <= k <= |items| == |logs|
          invariant forall j :: 0 <= j < |items| ==>
            items[j].filename == logs[j].filename && items[j].caption == Caption(logs[j].subject)
          invariant forall j :: 0 <= j < k ==> items[j].highlighted == (logs[j].filename == name)
          invariant forall j :: k <= j < |items| ==> !items[j].highlighted
          invariant State() == old(State()).(items := items)
        {
          if items[k].filename == name {
            items := items[k := items[k].(highlighted := true)];
          }
          k := k + 1;
        }
      }
      assert items == ListedItems(logs, selected);
      HideLoadingIndicator();
    }

    /** A click on the `index`-th chat, up to its `await`. */
    method SelectChat(index: nat)
      requires index < |items|
      modifies this
      ensures State() == Select(old(State()), index)
    {
      ghost var before := items;
      var k := 0;
      while k < |items|
        invariant 0 <= k <= |items| == |before|
        invariant forall j :: 0 <= j < k ==> items[j] == before[j].(highlighted := false)
        invariant forall j :: k <= j < |items| ==> items[j] == before[j]
        invariant State() == old(State()).(items := items)
      {
        items := items[k := items[k].(highlighted := false)];
        k := k + 1;
      }
      items := items[index := items[index].(highlighted := true)];
      selected := Some(items[index].filename);
      outbox := outbox + [PostLoadChat(items[index].filename)];
    }

    /** The answer to `PostLoadChat`. */
    method ChatLoadArrived(status: Option<bool>)
      modifies this
      ensures State() == ChatLoaded(old(State()), status)
    {
      match status
      case None => ShowError("Error loading chat");
      case Some(false) => ShowError("Failed to load chat.");
      case Some(true) =>
        ClearChatBox();
        LoadChatHistory();
    }

    method RenderChatHistory(history: seq<HistoryEntry>)
      modifies this
      ensures State() == RenderHistory(old(State()), renderer, history)
    {
      ClearChatBox();
      ghost var cleared := State();
      var k := 0;
      while k < |history|
        invariant 0 <= k <= |history|
        invariant messages == HistoryBubbles(renderer, history[..k])
        invariant State() == cleared.(messages := messages)
      {
        var sender := if history[k].role == "user" then User else Bot;
        var _ := AddMessageToChat(sender, history[k].content);
        HistoryBubblesSnoc(renderer, history, k);
        k := k + 1;
      }
      assert history[..k] == history;
    }

    /** The answer to `GetChatHistory`. */
    method ChatHistoryArrived(answer: Option<seq<HistoryEntry>>)
      modifies this
      ensures State() == HistoryLoaded(old(State()), renderer, answer)
    {
      match answer
      case None => ShowError("Error fetching chat history");
      case Some(history) => RenderChatHistory(history);
    }

    /** A click on the delete button, up to its `await`. */
    method DeleteClicked()
      modifies this
      ensures State() == RequestDelete(old(State()))
    {
      if selected.Some? && selected.value != "" {
        outbox := outbox + [PostDeleteChat(selected.value)];
      } else {
        ShowError("Please select a chat to delete.");
      }
    }

    /** The answer to `PostDeleteChat`. */
    method DeleteArrived(status: Option<bool>)
      modifies this
      ensures State() == DeleteAnswered(old(State()), status)
    {
      match status
      case None => ShowError("Error deleting chat");
      case Some(false) => ShowError("Failed to delete chat.");
      case Some(true) =>
        ClearChatBox();
        selected := None;
        LoadChatLogs();
    }
  }
}
