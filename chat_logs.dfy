/** The server's log directory: JSON chat records kept one file per chat,
    listed newest first, soft-deleted by renaming, and checked against path
    traversal before any access. The directory is a map from file names to
    the records their files hold. */
module ChatLogs {
  import opened Text

  datatype ChatMessage = ChatMessage(role: string, content: string, datetime: string, model: string)

  /** A log file's JSON object: the four keys the server reads (`None` when
      the key is absent) and the names of any other keys. */
  datatype LogRecord = LogRecord(
    uuid: Option<string>,
    datetime: Option<string>,
    subject: Option<string>,
    chatLogs: Option<seq<ChatMessage>>,
    others: set<string>)

  /** Python's truth value of the record: a dict is true when it has a key. */
  predicate IsTruthy(rec: LogRecord) {
    rec.uuid.Some? || rec.datetime.Some? || rec.subject.Some? || rec.chatLogs.Some? || rec.others != {}
  }

  /** One entry of the listing. */
  datatype LogSummary = LogSummary(filename: string, uuid: string, datetime: string, subject: string)

  type Directory = map<string, LogRecord>

  const DeletedPrefix := "deleted-"
  const LogSuffix := ".json"

  // ---------------------------------------------------------------------
  // File names.

  /** `os.path.basename` on POSIX: what follows the last `/`. */
  function Basename(s: string): (r: string)
    ensures '/' !in r && EndsWith(s, r)
    ensures |r| < |s| ==> s[|s| - |r| - 1] == '/'
    ensures '/' !in s ==> r == s
  {
    if s == [] then []
    else if s[|s| - 1] == '/' then []
    else
      var init := s[..|s| - 1];
      assert s == init + [s[|s| - 1]];
      Basename(init) + [s[|s| - 1]]
  }

  /** A name is its own basename exactly when it holds no `/`. */
  lemma BasenameIsName(s: string)
    ensures Basename(s) == s <==> '/' !in s
  {
  }

  /** `is_valid_log_filename`. */
  predicate IsValidLogFilename(files: Directory, name: string) {
    EndsWith(name, LogSuffix) && Basename(name) == name && name in files
  }

  /** A valid name is a `.json` file directly inside the directory. */
  lemma ValidLogFilenameIff(files: Directory, name: string)
    ensures IsValidLogFilename(files, name)
      <==> EndsWith(name, LogSuffix) && '/' !in name && name in files
  {
    BasenameIsName(name);
  }

  lemma NotJsonIsInvalid(files: Directory, name: string)
    requires !EndsWith(name, LogSuffix)
    ensures !IsValidLogFilename(files, name)
  {
  }

  lemma PathIsInvalid(files: Directory, name: string)
    requires '/' in name
    ensures !IsValidLogFilename(files, name)
  {
    BasenameIsName(name);
  }

  lemma MissingIsInvalid(files: Directory, name: string)
    requires name !in files
    ensures !IsValidLogFilename(files, name)
  {
  }

  /** `load_chat_log`: the record of a valid name. */
  function LoadChatLog(files: Directory, name: string): (r: Option<LogRecord>)
    ensures r.Some? <==> EndsWith(name, LogSuffix) && '/' !in name && name in files
    ensures r.Some? ==> r.value == files[name]
  {
    ValidLogFilenameIff(files, name);
    if IsValidLogFilename(files, name) then Some(files[name]) else None
  }

  /** `save_chat_to_log`: the file is written whatever its name. */
  function AfterSave(files: Directory, name: string, rec: LogRecord): Directory {
    files[name := rec]
  }

  /** A record saved under a valid-looking name loads back unchanged. */
  lemma SaveThenLoad(files: Directory, name: string, rec: LogRecord)
    requires EndsWith(name, LogSuffix) && '/' !in name
    ensures LoadChatLog(AfterSave(files, name, rec), name) == Some(rec)
  {
    ValidLogFilenameIff(AfterSave(files, name, rec), name);
  }

  // ---------------------------------------------------------------------
  // Listing.

  /** The names the listing shows. */
  predicate Listable(name: string) {
    !StartsWith(name, DeletedPrefix) && EndsWith(name, LogSuffix)
  }

  function Summary(name: string, rec: LogRecord): LogSummary {
    LogSummary(name, rec.uuid.GetOr(""), rec.datetime.GetOr(""), rec.subject.GetOr("Untitled Chat"))
  }

  /** What `os.listdir` may give: every name of the directory, once. */
  ghost predicate IsListing(files: Directory, listing: seq<string>) {
    && (forall i, j :: 0 <= i < j < |listing| ==> listing[i] != listing[j])
    && (forall n :: n in listing <==> n in files)
  }

  /** The summaries the loop of `get_chat_logs` collects, in listing order. */
  function Collected(files: Directory, listing: seq<string>): seq<LogSummary>
    decreases |listing|
  {
    if listing == [] then []
    else
      var name := listing[|listing| - 1];
      Collected(files, listing[..|listing| - 1])
        + (if Listable(name) && name in files then [Summary(name, files[name])] else [])
  }

  /** Python's `<=` on strings: code point by code point. */
  predicate StrLe(a: string, b: string)
    decreases |a|
  {
    a == [] || (b != [] && (a[0] < b[0] || (a[0] == b[0] && StrLe(a[1..], b[1..]))))
  }

  lemma {:induction false} StrLeTotal(a: string, b: string)
    ensures StrLe(a, b) || StrLe(b, a)
    decreases |a|
  {
    if a != [] && b != [] && a[0] == b[0] {
      StrLeTotal(a[1..], b[1..]);
    }
  }

  lemma {:induction false} StrLeTrans(a: string, b: string, c: string)
    requires StrLe(a, b) && StrLe(b, c)
    ensures StrLe(a, c)
    decreases |a|
  {
    if a != [] && a[0] == b[0] && b[0] == c[0] {
      StrLeTrans(a[1..], b[1..], c[1..]);
    }
  }

  /** Newest first: no entry has a later `datetime` than one before it. */
  predicate SortedDesc(s: seq<LogSummary>) {
    forall i, j :: 0 <= i < j < |s| ==> StrLe(s[j].datetime, s[i].datetime)
  }

  /** Inserts `x` after every entry at least as new. */
  function Insert(x: LogSummary, s: seq<LogSummary>): (r: seq<LogSummary>)
    ensures multiset(r) == multiset(s) + multiset{x}
  {
    if s == [] || !StrLe(x.datetime, s[0].datetime) then [x] + s
    else
      assert s == [s[0]] + s[1..];
      [s[0]] + Insert(x, s[1..])
  }

  /** `chat_logs.sort(key=lambda x: x['datetime'], reverse=True)`. */
  function SortByDatetimeDesc(s: seq<LogSummary>): (r: seq<LogSummary>)
    ensures multiset(r) == multiset(s)
  {
    if s == [] then []
    else
      assert s == s[..|s| - 1] + [s[|s| - 1]];
      Insert(s[|s| - 1], SortByDatetimeDesc(s[..|s| - 1]))
  }

  /** An entry no older than all of a sorted list may go in front of it. */
  lemma SortedCons(y: LogSummary, t: seq<LogSummary>)
    requires SortedDesc(t)
    requires forall k :: 0 <= k < |t| ==> StrLe(t[k].datetime, y.datetime)
    ensures SortedDesc([y] + t)
  {
    var r := [y] + t;
    forall i, j | 0 <= i < j < |r| ensures StrLe(r[j].datetime, r[i].datetime) {
      assert r[j] == t[j - 1];
      if i > 0 { assert r[i] == t[i - 1]; }
    }
  }

  lemma SortedTail(s: seq<LogSummary>)
    requires s != [] && SortedDesc(s)
    ensures SortedDesc(s[1..])
  {
    var rest := s[1..];
    forall i, j | 0 <= i < j < |rest| ensures StrLe(rest[j].datetime, rest[i].datetime) {
      assert rest[i] == s[i + 1] && rest[j] == s[j + 1];
    }
  }

  /** Every entry of a sorted list is no newer than its head. */
  lemma SortedHeadNewest(s: seq<LogSummary>)
    requires s != [] && SortedDesc(s)
    ensures forall y :: y in s ==> StrLe(y.datetime, s[0].datetime)
  {
    forall y | y in s ensures StrLe(y.datetime, s[0].datetime) {
      var k :| 0 <= k < |s| && s[k] == y;
      if k == 0 {
        StrLeTotal(y.datetime, y.datetime);
      }
    }
  }

  lemma {:induction false} InsertSorted(x: LogSummary, s: seq<LogSummary>)
    requires SortedDesc(s)
    ensures SortedDesc(Insert(x, s))
  {
    if s == [] {
    } else if !StrLe(x.datetime, s[0].datetime) {
      StrLeTotal(x.datetime, s[0].datetime);
      SortedHeadNewest(s);
      forall k | 0 <= k < |s| ensures StrLe(s[k].datetime, x.datetime) {
        assert s[k] in s;
        StrLeTrans(s[k].datetime, s[0].datetime, x.datetime);
      }
      SortedCons(x, s);
    } else {
      var rest := s[1..];
      SortedTail(s);
      InsertSorted(x, rest);
      var t := Insert(x, rest);
      SortedHeadNewest(s);
      forall k | 0 <= k < |t| ensures StrLe(t[k].datetime, s[0].datetime) {
        var y := t[k];
        assert y in multiset(t);
        if y != x {
          assert y in multiset(rest);
          assert y in s;
        }
      }
      SortedCons(s[0], t);
    }
  }

  lemma {:induction false} SortSorted(s: seq<LogSummary>)
    ensures SortedDesc(SortByDatetimeDesc(s))
    decreases |s|
  {
    if s != [] {
      SortSorted(s[..|s| - 1]);
      InsertSorted(s[|s| - 1], SortByDatetimeDesc(s[..|s| - 1]));
    }
  }

  /** `get_chat_logs` for the directory order `listing`. */
  function ListChatLogs(files: Directory, listing: seq<string>): seq<LogSummary> {
    SortByDatetimeDesc(Collected(files, listing))
  }

  lemma {:induction false} CollectedMembers(files: Directory, listing: seq<string>)
    ensures forall e :: e in Collected(files, listing) ==>
      e.filename in listing && e.filename in files && Listable(e.filename)
      && e == Summary(e.filename, files[e.filename])
    ensures forall n :: n in listing && n in files && Listable(n) ==>
      Summary(n, files[n]) in Collected(files, listing)
    decreases |listing|
  {
    if listing != [] {
      var init := listing[..|listing| - 1];
      CollectedMembers(files, init);
      assert listing == init + [listing[|listing| - 1]];
      assert forall n :: n in init ==> n in listing;
    }
  }

  /** No two entries name the same file. */
  predicate DistinctNames(s: seq<LogSummary>) {
    forall i, j :: 0 <= i < j < |s| ==> s[i].filename != s[j].filename
  }

  /** An entry naming a file the rest does not name may go in front. */
  lemma ConsDistinct(y: LogSummary, t: seq<LogSummary>)
    requires DistinctNames(t)
    requires forall e :: e in t ==> e.filename != y.filename
    ensures DistinctNames([y] + t)
  {
    var r := [y] + t;
    forall i, j | 0 <= i < j < |r| ensures r[i].filename != r[j].filename {
      assert r[j] == t[j - 1];
      if i == 0 { assert t[j - 1] in t; } else { assert r[i] == t[i - 1]; }
    }
  }

  lemma DistinctTail(s: seq<LogSummary>)
    requires s != [] && DistinctNames(s)
    ensures DistinctNames(s[1..])
    ensures forall e :: e in s[1..] ==> e.filename != s[0].filename
  {
    forall e | e in s[1..] ensures e.filename != s[0].filename {
      var k :| 0 <= k < |s[1..]| && s[1..][k] == e;
      assert s[k + 1] == e;
    }
  }

  lemma InsertMembers(x: LogSummary, s: seq<LogSummary>, e: LogSummary)
    requires e in Insert(x, s)
    ensures e == x || e in s
  {
    assert e in multiset(Insert(x, s));
  }

  /** A file not named in `s` may be inserted without naming a file twice. */
  lemma {:induction false} InsertDistinct(x: LogSummary, s: seq<LogSummary>)
    requires DistinctNames(s)
    requires forall e :: e in s ==> e.filename != x.filename
    ensures DistinctNames(Insert(x, s))
    decreases |s|
  {
    if s == [] || !StrLe(x.datetime, s[0].datetime) {
      ConsDistinct(x, s);
    } else {
      var t := s[1..];
      DistinctTail(s);
      assert forall e :: e in t ==> e in s;
      InsertDistinct(x, t);
      forall e | e in Insert(x, t) ensures e.filename != s[0].filename {
        InsertMembers(x, t, e);
      }
      ConsDistinct(s[0], Insert(x, t));
    }
  }

  /** Sorting names no file twice that the input did not. */
  lemma {:induction false} SortDistinct(s: seq<LogSummary>)
    requires DistinctNames(s)
    ensures DistinctNames(SortByDatetimeDesc(s))
    decreases |s|
  {
    if s != [] {
      var init, last := s[..|s| - 1], s[|s| - 1];
      SortDistinct(init);
      var u := SortByDatetimeDesc(init);
      forall e | e in u ensures e.filename != last.filename {
        assert e in multiset(u);
        assert e in multiset(init);
        var k :| 0 <= k < |init| && init[k] == e;
        assert s[k] == e;
      }
      InsertDistinct(last, u);
    }
  }

  /** A listing that names each file once collects each file once. */
  lemma {:induction false} CollectedDistinct(files: Directory, listing: seq<string>)
    requires forall i, j :: 0 <= i < j < |listing| ==> listing[i] != listing[j]
    ensures DistinctNames(Collected(files, listing))
    decreases |listing|
  {
    if listing != [] {
      var init, last := listing[..|listing| - 1], listing[|listing| - 1];
      CollectedDistinct(files, init);
      CollectedMembers(files, init);
      var c := Collected(files, init);
      if Listable(last) && last in files {
        assert last !in init by {
          forall k | 0 <= k < |init| ensures init[k] != last { assert init[k] == listing[k]; }
        }
        var r := c + [Summary(last, files[last])];
        forall i, j | 0 <= i < j < |r| ensures r[i].filename != r[j].filename {
          assert r[i] == c[i];
          if j == |c| { assert c[i] in c; } else { assert r[j] == c[j]; }
        }
      }
    }
  }

  /** The listing shows exactly the non-deleted `.json` files, each once
      with its subject or `Untitled Chat`, newest first. */
  lemma ListChatLogsSpec(files: Directory, listing: seq<string>)
    requires IsListing(files, listing)
    ensures var r := ListChatLogs(files, listing);
      && (forall e :: e in r ==>
            e.filename in files && Listable(e.filename) && e == Summary(e.filename, files[e.filename]))
      && (forall n :: n in files && Listable(n) ==> Summary(n, files[n]) in r)
      && DistinctNames(r)
      && SortedDesc(r)
  {
    CollectedMembers(files, listing);
    CollectedDistinct(files, listing);
    SortDistinct(Collected(files, listing));
    var c := Collected(files, listing);
    var r := ListChatLogs(files, listing);
    assert forall e :: e in r <==> e in c by {
      forall e ensures e in r <==> e in c {
        assert e in r <==> e in multiset(r);
        assert e in c <==> e in multiset(c);
      }
    }
    SortSorted(c);
  }

  lemma SummarySubject(name: string, rec: LogRecord)
    ensures Summary(name, rec).subject == (if rec.subject.Some? then rec.subject.value else "Untitled Chat")
    ensures Summary(name, rec).datetime == (if rec.datetime.Some? then rec.datetime.value else "")
  {
  }

  // ---------------------------------------------------------------------
  // Soft delete and subject update.

  /** `delete_chat_log`: a valid name is renamed to `deleted-` + name, which
      replaces any file already under that name. */
  function AfterDelete(files: Directory, name: string): Directory {
    if IsValidLogFilename(files, name) then (files - {name})[DeletedPrefix + name := files[name]]
    else files
  }

  lemma DeleteEffect(files: Directory, name: string)
    ensures var r := AfterDelete(files, name);
      && (IsValidLogFilename(files, name) ==>
            && name !in r
            && DeletedPrefix + name in r && r[DeletedPrefix + name] == files[name]
            && (forall n :: n != name && n != DeletedPrefix + name ==>
                  (n in r <==> n in files) && (n in r ==> r[n] == files[n])))
      && (!IsValidLogFilename(files, name) ==> r == files)
  {
    assert |DeletedPrefix + name| != |name|;
  }

  /** After a delete the file is in no listing, under either name, and
      every other listed chat is still there. */
  lemma DeletedNotListed(files: Directory, name: string, listing: seq<string>)
    requires IsValidLogFilename(files, name)
    requires IsListing(AfterDelete(files, name), listing)
    ensures var r := ListChatLogs(AfterDelete(files, name), listing);
      && (forall e :: e in r ==> e.filename != name && e.filename != DeletedPrefix + name)
      && (forall n :: n in files && Listable(n) && n != name ==> Summary(n, files[n]) in r)
  {
    var after := AfterDelete(files, name);
    DeleteEffect(files, name);
    ListChatLogsSpec(after, listing);
    assert StartsWith(DeletedPrefix + name, DeletedPrefix) by {
      assert (DeletedPrefix + name)[..|DeletedPrefix|] == DeletedPrefix;
    }
    forall n | n in files && Listable(n) && n != name
      ensures n in after && after[n] == files[n]
    {
      assert n != DeletedPrefix + name;
    }
  }

  /** The check of `update_chat_subject` before it writes. */
  predicate SubjectUpdatable(files: Directory, filename: Option<string>, subject: Option<string>) {
    && filename.Some? && filename.value != "" && subject.Some?
    && IsValidLogFilename(files, filename.value)
    && IsTruthy(files[filename.value])
  }

  function AfterUpdateSubject(files: Directory, filename: Option<string>, subject: Option<string>): Directory {
    if SubjectUpdatable(files, filename, subject) then
      files[filename.value := files[filename.value].(subject := subject)]
    else files
  }

  /** Only the named record's `subject` changes, and only when the request
      names a valid log and carries a subject. */
  lemma UpdateSubjectEffect(files: Directory, filename: Option<string>, subject: Option<string>)
    ensures var r := AfterUpdateSubject(files, filename, subject);
      && r.Keys == files.Keys
      && (forall n :: n in files && (filename.None? || n != filename.value) ==> r[n] == files[n])
      && (SubjectUpdatable(files, filename, subject) ==>
            var old_ := files[filename.value]; var new_ := r[filename.value];
            new_.subject == subject && new_.uuid == old_.uuid && new_.datetime == old_.datetime
            && new_.chatLogs == old_.chatLogs && new_.others == old_.others)
      && (subject.None? ==> r == files)
  {
  }

  // ---------------------------------------------------------------------
  // The directory as the server changes it.

  class LogDirectory {
    var files: Directory

    constructor (files: Directory)
      ensures this.files == files
    {
      this.files := files;
    }

    /** `get_chat_logs`, with `listing` the order `os.listdir` gives. */
    method GetChatLogs(listing: seq<string>) returns (logs: seq<LogSummary>)
      requires IsListing(files, listing)
      ensures logs == ListChatLogs(files, listing)
      ensures forall e :: e in logs ==>
        e.filename in files && Listable(e.filename) && e == Summary(e.filename, files[e.filename])
      ensures forall n :: n in files && Listable(n) ==> Summary(n, files[n]) in logs
      ensures DistinctNames(logs)
      ensures SortedDesc(logs)
    {
      var chatLogs: seq<LogSummary> := [];
      var i := 0;
      while i < |listing|
        invariant 0 <= i <= |listing|
        invariant chatLogs == Collected(files, listing[..i])
      {
        var filename := listing[i];
        assert listing[..i + 1] == listing[..i] + [filename];
        if !StartsWith(filename, DeletedPrefix) && EndsWith(filename, LogSuffix) {
          assert filename in files;
          chatLogs := chatLogs + [Summary(filename, files[filename])];
        }
        i := i + 1;
      }
      assert listing[..i] == listing;
      logs := SortByDatetimeDesc(chatLogs);
      ListChatLogsSpec(files, listing);
    }

    /** `delete_chat_log`. */
    method DeleteChatLog(name: string) returns (ok: bool)
      modifies this
      ensures ok == IsValidLogFilename(old(files), name)
      ensures files == AfterDelete(old(files), name)
    {
      if !IsValidLogFilename(files, name) {
        return false;
      }
      var rec := files[name];
      files := files - {name};
      files := files[DeletedPrefix + name := rec];
      ok := true;
    }

    method SaveChatToLog(name: string, rec: LogRecord)
      modifies this
      ensures files == AfterSave(old(files), name, rec)
    {
      files := files[name := rec];
    }

    /** The `/api/update_chat_subject` route: 200 or 400. */
    method UpdateChatSubject(filename: Option<string>, subject: Option<string>) returns (status: int)
      modifies this
      ensures status == if SubjectUpdatable(old(files), filename, subject) then 200 else 400
      ensures files == AfterUpdateSubject(old(files), filename, subject)
    {
      if filename.Some? && filename.value != "" && subject.Some?
        && IsValidLogFilename(files, filename.value)
      {
        var chatSession := LoadChatLog(files, filename.value);
        if chatSession.Some? && IsTruthy(chatSession.value) {
          var updated := chatSession.value.(subject := subject);
          SaveChatToLog(filename.value, updated);
          return 200;
        }
      }
      return 400;
    }

    /** The `/api/delete_chat` route: 200 or 400. */
    method DeleteChat(filename: Option<string>) returns (status: int)
      modifies this
      ensures var valid := filename.Some? && filename.value != ""
        && IsValidLogFilename(old(files), filename.value);
        && status == (if valid then 200 else 400)
        && files == (if valid then AfterDelete(old(files), filename.value) else old(files))
    {
      if filename.Some? && filename.value != "" && IsValidLogFilename(files, filename.value) {
        var ok := DeleteChatLog(filename.value);
        if ok {
          return 200;
        }
      }
      return 400;
    }
  }
}
