/** The server's per-user session (the current chat's history, log file,
    id, subject and time) and the two operations that change it: loading a
    saved chat, and answering a prompt by streaming the model's reply.
    The reply stream is the sequence of already parsed lines the model
    sent, and the way the stream ended. */
module ChatSession {
  import opened Text
  import opened ChatLogs

  datatype SessionState = SessionState(
    chatHistory: seq<ChatMessage>,
    logFilename: string,
    chatUuid: string,
    chatSubject: string,
    chatDatetime: string)

  /** The log file name `initialize_session` gives a new chat. */
  function LogFilenameFor(timestamp: string, uuid: string): string {
    "chat_" + timestamp + "_" + uuid + LogSuffix
  }

  /** A new session; the clock readings and the id are parameters. */
  function Fresh(timestamp: string, uuid: string, now: string): SessionState {
    SessionState([], LogFilenameFor(timestamp, uuid), uuid, "", now)
  }

  /** A new chat's log, once saved, is valid and shows in the listing. */
  lemma FreshLogIsListed(timestamp: string, uuid: string, files: Directory, rec: LogRecord)
    requires '/' !in timestamp && '/' !in uuid
    ensures var name := LogFilenameFor(timestamp, uuid);
      Listable(name) && IsValidLogFilename(AfterSave(files, name, rec), name)
  {
    var name := LogFilenameFor(timestamp, uuid);
    var head := "chat_" + timestamp + "_" + uuid;
    assert name == head + LogSuffix;
    assert name[|name| - |LogSuffix|..] == LogSuffix;
    assert name[0] == 'c';
    assert !StartsWith(name, DeletedPrefix) by { assert DeletedPrefix[0] == 'd'; }
    assert '/' !in name by {
      forall i | 0 <= i < |name| ensures name[i] != '/' {
        if i < 5 {
        } else if i < 5 + |timestamp| {
          assert name[i] == timestamp[i - 5];
        } else if i == 5 + |timestamp| {
        } else if i < 6 + |timestamp| + |uuid| {
          assert name[i] == uuid[i - 6 - |timestamp|];
        } else {
          assert name[i] == LogSuffix[i - |head|];
        }
      }
    }
    ValidLogFilenameIff(AfterSave(files, name, rec), name);
  }

  // ---------------------------------------------------------------------
  // Loading a saved chat.

  /** The check of `load_chat` before it changes the session. */
  predicate Loadable(files: Directory, filename: Option<string>) {
    && filename.Some? && filename.value != ""
    && IsValidLogFilename(files, filename.value)
    && IsTruthy(files[filename.value])
  }

  function AfterLoadChat(s: SessionState, files: Directory, filename: Option<string>): SessionState {
    if Loadable(files, filename) then
      var rec := files[filename.value];
      SessionState(rec.chatLogs.GetOr([]), filename.value, rec.uuid.GetOr(""),
                   rec.subject.GetOr(""), rec.datetime.GetOr(""))
    else s
  }

  /** The record the server saves for a session. */
  function SessionRecord(s: SessionState): LogRecord {
    LogRecord(Some(s.chatUuid), Some(s.chatDatetime), Some(s.chatSubject), Some(s.chatHistory), {})
  }

  /** A loaded chat takes its history from the file, `[]` when the file has
      none, and points the session at that file; otherwise nothing changes. */
  lemma LoadChatEffect(s: SessionState, files: Directory, filename: Option<string>)
    ensures var t := AfterLoadChat(s, files, filename);
      && (Loadable(files, filename) ==>
            && t.logFilename == filename.value
            && (files[filename.value].chatLogs.None? ==> t.chatHistory == [])
            && (files[filename.value].chatLogs.Some? ==> t.chatHistory == files[filename.value].chatLogs.value))
      && (!Loadable(files, filename) ==> t == s)
      && (filename.Some? && '/' in filename.value ==> t == s)
  {
    if filename.Some? && '/' in filename.value {
      PathIsInvalid(files, filename.value);
    }
  }

  /** Saving a session and loading its file restores it. */
  lemma SaveThenLoadChat(s: SessionState, t: SessionState, files: Directory)
    requires EndsWith(s.logFilename, LogSuffix) && '/' !in s.logFilename
    ensures AfterLoadChat(t, AfterSave(files, s.logFilename, SessionRecord(s)), Some(s.logFilename)) == s
  {
    SaveThenLoad(files, s.logFilename, SessionRecord(s));
  }

  // ---------------------------------------------------------------------
  // The reply stream.

  /** A line of the model's answer: empty, a chunk (its `message.content`,
      `None` when absent), the `done` line, or one whose parsing raises. */
  datatype StreamLine = Blank | Part(content: Option<string>) | Done | Unparsable

  /** How the stream stopped if no `done` line came: the body ended, the
      request timed out, or the connection failed. `requests` raises its
      `Timeout` only while connecting or waiting for the response headers;
      a stall while the lines arrive surfaces as a connection error. */
  datatype StreamEnd = Closed | TimedOut | Broken

  /** A timeout can only come before the first line. */
  predicate PossibleEnd(lines: seq<StreamLine>, end: StreamEnd) {
    end == TimedOut ==> lines == []
  }

  /** What the loop came to: the `done` line with the whole reply, an
      exception no handler catches, or the end of the lines. */
  datatype Outcome = Finished(reply: string) | Crashed | Exhausted

  /** The contents of the `receive_message` emissions, from the text
      accumulated so far. */
  function Receipts(lines: seq<StreamLine>, acc: string): seq<string>
    decreases |lines|
  {
    if lines == [] then []
    else match lines[0]
      case Blank => Receipts(lines[1..], acc)
      case Part(c) => var a := acc + c.GetOr(""); [a] + Receipts(lines[1..], a)
      case Done => []
      case Unparsable => []
  }

  function OutcomeOf(lines: seq<StreamLine>, acc: string): Outcome
    decreases |lines|
  {
    if lines == [] then Exhausted
    else match lines[0]
      case Blank => OutcomeOf(lines[1..], acc)
      case Part(c) => OutcomeOf(lines[1..], acc + c.GetOr(""))
      case Done => Finished(acc)
      case Unparsable => Crashed
  }

  /** The chunk texts the loop takes in before it stops. */
  function Chunks(lines: seq<StreamLine>): seq<string>
    decreases |lines|
  {
    if lines == [] then []
    else match lines[0]
      case Blank => Chunks(lines[1..])
      case Part(c) => [c.GetOr("")] + Chunks(lines[1..])
      case Done => []
      case Unparsable => []
  }

  function Concat(cs: seq<string>): string
    decreases |cs|
  {
    if cs == [] then "" else Concat(cs[..|cs| - 1]) + cs[|cs| - 1]
  }

  lemma ConcatCons(c: string, cs: seq<string>)
    ensures Concat([c] + cs) == c + Concat(cs)
    decreases |cs|
  {
    if cs != [] {
      var init := cs[..|cs| - 1];
      assert ([c] + cs)[..|cs|] == [c] + init;
      ConcatCons(c, init);
    }
  }

  lemma ReceiptsPartStep(c: string, rest: seq<string>, rs: seq<string>, acc: string)
    requires |rs| == |rest|
    requires forall k :: 0 <= k < |rest| ==> rs[k] == (acc + c) + Concat(rest[..k + 1])
    ensures forall k :: 0 <= k < |rest| + 1 ==>
      ([acc + c] + rs)[k] == acc + Concat(([c] + rest)[..k + 1])
  {
    forall k | 0 <= k < |rest| + 1
      ensures ([acc + c] + rs)[k] == acc + Concat(([c] + rest)[..k + 1])
    {
      var cs := [c] + rest;
      if k == 0 {
        assert cs[..1] == [c];
        assert Concat(cs[..1]) == Concat([]) + c;
      } else {
        assert cs[..k + 1] == [c] + rest[..k];
        ConcatCons(c, rest[..k]);
      }
    }
  }

  /** The `k`-th emission carries the first `k + 1` chunks joined. */
  lemma {:induction false} ReceiptsArePrefixSums(lines: seq<StreamLine>, acc: string)
    ensures |Receipts(lines, acc)| == |Chunks(lines)|
    ensures forall k :: 0 <= k < |Chunks(lines)| ==>
      Receipts(lines, acc)[k] == acc + Concat(Chunks(lines)[..k + 1])
    decreases |lines|
  {
    if lines != [] {
      match lines[0]
      case Blank => ReceiptsArePrefixSums(lines[1..], acc);
      case Done =>
      case Unparsable =>
      case Part(c) =>
        var a := acc + c.GetOr("");
        ReceiptsArePrefixSums(lines[1..], a);
        ReceiptsPartStep(c.GetOr(""), Chunks(lines[1..]), Receipts(lines[1..], a), acc);
    }
  }

  /** The reply stored at `done` is all chunks joined. */
  lemma {:induction false} ReplyIsAllChunks(lines: seq<StreamLine>, acc: string)
    requires OutcomeOf(lines, acc).Finished?
    ensures OutcomeOf(lines, acc).reply == acc + Concat(Chunks(lines))
    decreases |lines|
  {
    match lines[0]
    case Blank => ReplyIsAllChunks(lines[1..], acc);
    case Done =>
    case Part(c) =>
      ReplyIsAllChunks(lines[1..], acc + c.GetOr(""));
      ConcatCons(c.GetOr(""), Chunks(lines[1..]));
  }

  /** Successive emissions extend each other. */
  lemma ReceiptsPrefixChain(lines: seq<StreamLine>)
    ensures var rs := Receipts(lines, "");
      forall k :: 0 < k < |rs| ==> StartsWith(rs[k], rs[k - 1])
  {
    ReceiptsArePrefixSums(lines, "");
    var rs := Receipts(lines, "");
    var cs := Chunks(lines);
    forall k | 0 < k < |rs| ensures StartsWith(rs[k], rs[k - 1]) {
      assert cs[..k + 1][..k] == cs[..k];
      assert Concat(cs[..k + 1]) == Concat(cs[..k]) + cs[k];
      assert rs[k] == "" + Concat(cs[..k]) + cs[k];
    }
  }

  /** The lines before the first `done`, none of which stops the loop. */
  predicate Continues(lines: seq<StreamLine>) {
    forall i :: 0 <= i < |lines| ==> lines[i].Blank? || lines[i].Part?
  }

  /** At the first `done` the loop stops: what follows is never read, and
      the reply is the text accumulated up to it. */
  lemma {:induction false} DoneEndsStream(pre: seq<StreamLine>, post: seq<StreamLine>, acc: string)
    requires Continues(pre)
    ensures Receipts(pre + [Done] + post, acc) == Receipts(pre, acc)
    ensures OutcomeOf(pre + [Done] + post, acc) == Finished(acc + Concat(Chunks(pre)))
    ensures Chunks(pre + [Done] + post) == Chunks(pre)
    decreases |pre|
  {
    var s := pre + [Done] + post;
    if pre == [] {
      assert s[0] == Done;
    } else {
      assert s[0] == pre[0];
      assert s[1..] == pre[1..] + [Done] + post;
      match pre[0]
      case Blank => DoneEndsStream(pre[1..], post, acc);
      case Part(c) =>
        DoneEndsStream(pre[1..], post, acc + c.GetOr(""));
        ConcatCons(c.GetOr(""), Chunks(pre[1..]));
    }
  }

  /** The two chunks of the test suite's fake model. */
  lemma HelloWorldStream(lines: seq<StreamLine>)
    requires lines == [Part(Some("Hello ")), Part(Some("World!")), Done]
    ensures Receipts(lines, "") == ["Hello ", "Hello World!"]
    ensures OutcomeOf(lines, "") == Finished("Hello World!")
  {
    var hello, world := "Hello ", "World!";
    assert "" + hello == hello;
    assert hello + world == "Hello World!";
    var tail := lines[1..];
    assert tail == [Part(Some(world)), Done];
    assert tail[1..] == [Done];
    assert Receipts(tail[1..], hello + world) == [];
    assert Receipts(tail, hello) == [hello + world] + Receipts(tail[1..], hello + world);
    assert Receipts(lines, "") == [hello] + Receipts(tail, hello);
    assert OutcomeOf(tail[1..], hello + world) == Finished(hello + world);
    assert OutcomeOf(tail, hello) == OutcomeOf(tail[1..], hello + world);
    assert OutcomeOf(lines, "") == OutcomeOf(tail, hello);
  }

  // ---------------------------------------------------------------------
  // `handle_send_message`.

  const DefaultModel := "llama3.2"
  const TimeoutMessage := "The model took too long to respond (timed out after 5 minutes)."
  const ConnectMessage := "Unable to connect to Ollama API"

  /** What the server sends back on the socket, and the save it starts. */
  datatype Emission =
    | ReceiveMessage(content: string)
    | ResponseComplete
    | Error(message: string)
    | SaveInBackground(filename: string, record: LogRecord)

  function Receives(rs: seq<string>): seq<Emission> {
    seq(|rs|, k requires 0 <= k < |rs| => ReceiveMessage(rs[k]))
  }

  /** The chat's subject after a prompt: set from the first prompt only. */
  function NewSubject(current: string, prompt: string): string {
    if current != "" then current
    else if prompt != "" then Take(prompt, 30)
    else "Untitled Chat"
  }

  lemma SubjectRule(current: string, prompt: string)
    ensures current != "" ==> NewSubject(current, prompt) == current
    ensures current == "" && prompt == "" ==> NewSubject(current, prompt) == "Untitled Chat"
    ensures current == "" && prompt != "" ==>
      && StartsWith(prompt, NewSubject(current, prompt))
      && |NewSubject(current, prompt)| == (if |prompt| < 30 then |prompt| else 30)
  {
  }

  /** `data.get('prompt', '').strip()`. */
  function Stripped(prompt: Option<string>): string {
    Trim(Py, prompt.GetOr(""))
  }

  /** Each running reply becomes one `receive_message`, in order. */
  lemma ReceivesSnoc(rs: seq<string>, a: string)
    ensures Receives(rs + [a]) == Receives(rs) + [ReceiveMessage(a)]
  {
  }

  /** The session once the prompt `p` for model `m` is recorded, before
      the reply: the subject rule, the session's time and the user message. */
  function Asked(s: SessionState, p: string, m: string, userAt: string, sessionAt: string): SessionState {
    s.(chatSubject := NewSubject(s.chatSubject, p), chatDatetime := sessionAt,
       chatHistory := s.chatHistory + [ChatMessage("user", p, userAt, m)])
  }

  /** The session after `handle_send_message` with the stripped prompt `p`
      and the model `m`; `userAt`, `sessionAt` and `doneAt` are the three
      readings of the clock. */
  function AfterSend(s: SessionState, p: string, m: string,
                     userAt: string, sessionAt: string, doneAt: string,
                     lines: seq<StreamLine>): SessionState
  {
    var asked := Asked(s, p, m, userAt, sessionAt);
    match OutcomeOf(lines, "")
    case Finished(reply) =>
      asked.(chatHistory := asked.chatHistory + [ChatMessage("assistant", reply, doneAt, m)])
    case _ => asked
  }

  /** What follows the `receive_message` emissions. */
  function SendTail(t: SessionState, outcome: Outcome, end: StreamEnd): seq<Emission> {
    match outcome
    case Finished(_) => [SaveInBackground(t.logFilename, SessionRecord(t)), ResponseComplete]
    case Crashed => []
    case Exhausted =>
      match end
      case Closed => []
      case TimedOut => [Error(TimeoutMessage)]
      case Broken => [Error(ConnectMessage)]
  }

  /** Everything `handle_send_message` emits, in order. */
  function SendEvents(s: SessionState, p: string, m: string,
                      userAt: string, sessionAt: string, doneAt: string,
                      lines: seq<StreamLine>, end: StreamEnd): seq<Emission>
  {
    Receives(Receipts(lines, ""))
      + SendTail(AfterSend(s, p, m, userAt, sessionAt, doneAt, lines), OutcomeOf(lines, ""), end)
  }

  /** The prompt is stored before any reply; a finished reply adds exactly
      one assistant message holding all chunks joined; the other session
      fields keep their values. */
  lemma SendHistoryEffect(s: SessionState, p: string, m: string,
                          userAt: string, sessionAt: string, doneAt: string, lines: seq<StreamLine>)
    ensures var t := AfterSend(s, p, m, userAt, sessionAt, doneAt, lines);
      var user := ChatMessage("user", p, userAt, m);
      && t.logFilename == s.logFilename && t.chatUuid == s.chatUuid && t.chatDatetime == sessionAt
      && t.chatSubject == NewSubject(s.chatSubject, p)
      && (OutcomeOf(lines, "").Finished? ==>
            t.chatHistory == s.chatHistory + [user, ChatMessage("assistant", Concat(Chunks(lines)), doneAt, m)])
      && (!OutcomeOf(lines, "").Finished? ==> t.chatHistory == s.chatHistory + [user])
  {
    if OutcomeOf(lines, "").Finished? {
      ReplyIsAllChunks(lines, "");
      assert "" + Concat(Chunks(lines)) == Concat(Chunks(lines));
    }
  }

  /** A missing prompt reads as empty, and a prompt strips to nothing
      exactly when it is all whitespace in Python's sense. */
  lemma StrippedBlank(prompt: Option<string>)
    ensures prompt == None ==> Stripped(prompt) == ""
    ensures Stripped(prompt) == "" <==> AllSpace(Py, prompt.GetOr(""))
  {
    TrimEmptyIff(Py, prompt.GetOr(""));
  }

  /** No running reply is a `response_complete`. */
  lemma ReceivesOnly(rs: seq<string>)
    ensures ResponseComplete !in Receives(rs)
  {
    assert forall k :: 0 <= k < |rs| ==> Receives(rs)[k].ReceiveMessage?;
  }

  /** `response_complete` is emitted once, last, and only for a finished
      reply, right after the save of the whole session; a stream that
      stops early reports why, if the exception is one the handler
      catches. */
  lemma SendEventsShape(s: SessionState, p: string, m: string,
                        userAt: string, sessionAt: string, doneAt: string,
                        lines: seq<StreamLine>, end: StreamEnd)
    ensures var es := SendEvents(s, p, m, userAt, sessionAt, doneAt, lines, end);
      var n := |Receipts(lines, "")|;
      var t := AfterSend(s, p, m, userAt, sessionAt, doneAt, lines);
      var o := OutcomeOf(lines, "");
      && es[..n] == Receives(Receipts(lines, ""))
      && (ResponseComplete in es <==> o.Finished?)
      && (o.Finished? ==> es[n..] == [SaveInBackground(s.logFilename, SessionRecord(t)), ResponseComplete])
      && (o == Exhausted && end == TimedOut ==> es[n..] == [Error(TimeoutMessage)])
      && (o == Exhausted && end == Broken ==> es[n..] == [Error(ConnectMessage)])
      && (o == Crashed ==> es == Receives(Receipts(lines, "")))
  {
    var rs := Receipts(lines, "");
    var t := AfterSend(s, p, m, userAt, sessionAt, doneAt, lines);
    var tail := SendTail(t, OutcomeOf(lines, ""), end);
    ReceivesOnly(rs);
    assert t.logFilename == s.logFilename;
    assert (Receives(rs) + tail)[..|rs|] == Receives(rs);
    assert (Receives(rs) + tail)[|rs|..] == tail;
    assert ResponseComplete in Receives(rs) + tail <==> ResponseComplete in tail;
  }

  /** One turn of the handler's loop, on the line at `i`. */
  lemma LineStep(lines: seq<StreamLine>, i: nat, acc: string)
    requires i < |lines|
    ensures lines[i].Unparsable? ==>
      Receipts(lines[i..], acc) == [] && OutcomeOf(lines[i..], acc) == Crashed
    ensures lines[i].Done? ==>
      Receipts(lines[i..], acc) == [] && OutcomeOf(lines[i..], acc) == Finished(acc)
    ensures lines[i].Blank? ==>
      && Receipts(lines[i..], acc) == Receipts(lines[i + 1..], acc)
      && OutcomeOf(lines[i..], acc) == OutcomeOf(lines[i + 1..], acc)
    ensures lines[i].Part? ==>
      var a := acc + lines[i].content.GetOr("");
      && Receipts(lines[i..], acc) == [a] + Receipts(lines[i + 1..], a)
      && OutcomeOf(lines[i..], acc) == OutcomeOf(lines[i + 1..], a)
  {
    assert lines[i..][1..] == lines[i + 1..];
  }

  /** A finished reply: the assistant message goes after the prompt, and
      the save and `response_complete` follow the running replies. */
  lemma SendFinished(s: SessionState, p: string, m: string,
                     userAt: string, sessionAt: string, doneAt: string,
                     lines: seq<StreamLine>, end: StreamEnd, reply: string)
    requires OutcomeOf(lines, "") == Finished(reply)
    ensures var asked := Asked(s, p, m, userAt, sessionAt);
      var t := asked.(chatHistory := asked.chatHistory + [ChatMessage("assistant", reply, doneAt, m)]);
      && AfterSend(s, p, m, userAt, sessionAt, doneAt, lines) == t
      && SendEvents(s, p, m, userAt, sessionAt, doneAt, lines, end)
         == Receives(Receipts(lines, "")) + [SaveInBackground(s.logFilename, SessionRecord(t)), ResponseComplete]
  {
  }

  /** A reply that never finished leaves the prompt alone in the history;
      only the running replies and, for a caught exception, its message
      are emitted. */
  lemma SendUnfinished(s: SessionState, p: string, m: string,
                       userAt: string, sessionAt: string, doneAt: string,
                       lines: seq<StreamLine>, end: StreamEnd)
    requires !OutcomeOf(lines, "").Finished?
    ensures AfterSend(s, p, m, userAt, sessionAt, doneAt, lines) == Asked(s, p, m, userAt, sessionAt)
    ensures OutcomeOf(lines, "") == Crashed ==>
      SendEvents(s, p, m, userAt, sessionAt, doneAt, lines, end) == Receives(Receipts(lines, ""))
    ensures OutcomeOf(lines, "") == Exhausted ==>
      SendEvents(s, p, m, userAt, sessionAt, doneAt, lines, end) == Receives(Receipts(lines, "")) +
        (if end == TimedOut then [Error(TimeoutMessage)]
         else if end == Broken then [Error(ConnectMessage)]
         else [])
  {
    assert Receives(Receipts(lines, "")) + [] == Receives(Receipts(lines, ""));
  }

  /** A request that times out records the prompt and sends only the
      timeout error: no reply text, no save, no `response_complete`. */
  lemma TimeoutSendsOnlyError(s: SessionState, p: string, m: string,
                              userAt: string, sessionAt: string, doneAt: string,
                              lines: seq<StreamLine>)
    requires PossibleEnd(lines, TimedOut)
    ensures AfterSend(s, p, m, userAt, sessionAt, doneAt, lines) == Asked(s, p, m, userAt, sessionAt)
    ensures SendEvents(s, p, m, userAt, sessionAt, doneAt, lines, TimedOut) == [Error(TimeoutMessage)]
  {
    SendUnfinished(s, p, m, userAt, sessionAt, doneAt, lines, TimedOut);
  }

  /** What the background save writes lets `load_chat` restore the session
      after the reply, once the new chat's log name is in place. */
  lemma SavedReplyReloads(s: SessionState, p: string, m: string,
                          userAt: string, sessionAt: string, doneAt: string,
                          lines: seq<StreamLine>, files: Directory, other: SessionState)
    requires EndsWith(s.logFilename, LogSuffix) && '/' !in s.logFilename
    requires OutcomeOf(lines, "").Finished?
    ensures var t := AfterSend(s, p, m, userAt, sessionAt, doneAt, lines);
      AfterLoadChat(other, AfterSave(files, s.logFilename, SessionRecord(t)), Some(s.logFilename)) == t
  {
    var t := AfterSend(s, p, m, userAt, sessionAt, doneAt, lines);
    SaveThenLoadChat(t, other, files);
  }

  // ---------------------------------------------------------------------
  // The session as the server changes it.

  class Session {
    var chatHistory: seq<ChatMessage>
    var logFilename: string
    var chatUuid: string
    var chatSubject: string
    var chatDatetime: string

    function State(): SessionState
      reads this
    {
      SessionState(chatHistory, logFilename, chatUuid, chatSubject, chatDatetime)
    }

    /** `initialize_session` on a session without keys. */
    constructor (timestamp: string, uuid: string, now: string)
      ensures State() == Fresh(timestamp, uuid, now)
    {
      chatUuid := uuid;
      logFilename := LogFilenameFor(timestamp, uuid);
      chatDatetime := now;
      chatHistory := [];
      chatSubject := "";
    }

    /** The `/api/load_chat` route: 200 or 400. */
    method LoadChat(dir: LogDirectory, filename: Option<string>) returns (status: int)
      modifies this
      ensures status == if Loadable(dir.files, filename) then 200 else 400
      ensures State() == AfterLoadChat(old(State()), dir.files, filename)
    {
      if filename.Some? && filename.value != "" && IsValidLogFilename(dir.files, filename.value) {
        var chatSession := LoadChatLog(dir.files, filename.value);
        if chatSession.Some? && IsTruthy(chatSession.value) {
          var rec := chatSession.value;
          chatHistory := rec.chatLogs.GetOr([]);
          logFilename := filename.value;
          chatUuid := rec.uuid.GetOr("");
          chatSubject := rec.subject.GetOr("");
          chatDatetime := rec.datetime.GetOr("");
          return 200;
        }
      }
      return 400;
    }

    /** The `send_message` handler, given the model's parsed reply lines
      and how its stream ended. */
    method HandleSendMessage(prompt: Option<string>, model: Option<string>,
                             userAt: string, sessionAt: string, doneAt: string,
                             lines: seq<StreamLine>, end: StreamEnd) returns (events: seq<Emission>)
      requires PossibleEnd(lines, end)
      modifies this
      ensures State() == AfterSend(old(State()), Stripped(prompt), model.GetOr(DefaultModel),
                                   userAt, sessionAt, doneAt, lines)
      ensures events == SendEvents(old(State()), Stripped(prompt), model.GetOr(DefaultModel),
                                   userAt, sessionAt, doneAt, lines, end)
    {
      var p := Stripped(prompt);
      var m := model.GetOr(DefaultModel);
      events := Converse(p, m, userAt, sessionAt, doneAt, lines, end);
    }

    /** The rest of `send_message` once the prompt `p` is stripped and the
      model `m` chosen: record the prompt, relay the stream, save on `done`. */
    method Converse(p: string, m: string,
                    userAt: string, sessionAt: string, doneAt: string,
                    lines: seq<StreamLine>, end: StreamEnd) returns (events: seq<Emission>)
      requires PossibleEnd(lines, end)
      modifies this
      ensures State() == AfterSend(old(State()), p, m, userAt, sessionAt, doneAt, lines)
      ensures events == SendEvents(old(State()), p, m, userAt, sessionAt, doneAt, lines, end)
    {
      ghost var before := State();
      var userMessage := ChatMessage("user", p, userAt, m);
      if chatSubject == "" {
        chatSubject := if p != "" then Take(p, 30) else "Untitled Chat";
      }
      chatDatetime := sessionAt;
      chatHistory := chatHistory + [userMessage];
      ghost var asked := State();
      assert asked == Asked(before, p, m, userAt, sessionAt);

      var accumulated := "";
      ghost var got: seq<string> := [];
      events := [];
      var i := 0;
      while i < |lines|
        invariant 0 <= i <= |lines|
        invariant State() == asked
        invariant events == Receives(got)
        invariant Receipts(lines, "") == got + Receipts(lines[i..], accumulated)
        invariant OutcomeOf(lines, "") == OutcomeOf(lines[i..], accumulated)
      {
        var line := lines[i];
        LineStep(lines, i, accumulated);
        if line.Unparsable? {
          assert got + [] == got;
          SendUnfinished(before, p, m, userAt, sessionAt, doneAt, lines, end);
          return;
        } else if line.Done? {
          assert got + [] == got;
          SendFinished(before, p, m, userAt, sessionAt, doneAt, lines, end, accumulated);
          var assistantMessage := ChatMessage("assistant", accumulated, doneAt, m);
          chatHistory := chatHistory + [assistantMessage];
          var chatSession := SessionRecord(State());
          events := events + [SaveInBackground(logFilename, chatSession), ResponseComplete];
          return;
        } else if line.Part? {
          accumulated := accumulated + line.content.GetOr("");
          ReceivesSnoc(got, accumulated);
          got := got + [accumulated];
          events := events + [ReceiveMessage(accumulated)];
        }
        i := i + 1;
      }
      assert lines[i..] == [];
      assert got + [] == got;
      SendUnfinished(before, p, m, userAt, sessionAt, doneAt, lines, end);
      if end == TimedOut {
        events := events + [Error(TimeoutMessage)];
      } else if end == Broken {
        events := events + [Error(ConnectMessage)];
      }
    }
  }
}
