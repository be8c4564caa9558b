/** The archival payload built from a parsed transcript (session.py
    `build_thread_request`).  The clock is read three times by the source;
    the three formatted readings are parameters here. */
module ThreadPayload {
  import opened Results
  import opened Transcript

  /** Formatted clock readings: `%Y%m%d_%H%M%S` local time for the thread
      id, `%Y-%m-%d %H:%M` local time for the fallback title, ISO-8601 UTC
      for the import date. */
  datatype Clock = Clock(compact: string, minutes: string, isoUtc: string)

  datatype Metadata = Metadata(
    sessionFile: string,
    totalLinesInFile: int,
    messagesExtracted: nat,
    persistMethod: string,
    cli: string)

  datatype ThreadRequest = ThreadRequest(
    threadId: string,
    title: string,
    messages: seq<Msg>,
    participants: seq<string>,
    source: string,
    project: string,
    workspace: string,
    importDate: string,
    metadata: Metadata)

  /** Characters of the first user message kept in a derived title. */
  const TitleLength: nat := 80
  const Ellipsis: string := "..."
  const FallbackTitlePrefix: string := "Claude Code Session - "

  /** Position of the first user message. */
  function FirstUserIndex(ms: seq<Msg>): (r: Option<nat>)
    ensures r.Some? ==> r.value < |ms| && ms[r.value].role == User
    ensures r.Some? ==> forall j :: 0 <= j < r.value ==> ms[j].role == Assistant
    ensures r.None? ==> forall j :: 0 <= j < |ms| ==> ms[j].role == Assistant
  {
    if |ms| == 0 then None
    else if ms[0].role == User then Some(0)
    else
      var rest := FirstUserIndex(ms[1..]);
      assert ms[0].role == Assistant;
      assert forall j :: 1 <= j < |ms| ==> ms[j] == ms[1..][j - 1];
      match rest
      case None => None
      case Some(k) => Some(k + 1)
  }

  /** The title a message's content yields: its first 80 characters, with
      an ellipsis appended iff something was cut off. */
  function Headline(content: string): (t: string)
    ensures |content| <= TitleLength ==> t == content
    ensures |content| > TitleLength ==> |t| == TitleLength + |Ellipsis|
    ensures |content| > TitleLength ==> t[..TitleLength] == content[..TitleLength] && t[TitleLength..] == Ellipsis
  {
    content[..if |content| < TitleLength then |content| else TitleLength]
      + (if |content| > TitleLength then Ellipsis else "")
  }

  /** A non-empty custom title is used as given; otherwise the title is the
      headline of the first user message, or the timestamped fallback when
      there is none. */
  function DeriveTitle(customTitle: string, messages: seq<Msg>, clock: Clock): (t: string)
    ensures customTitle != "" ==> t == customTitle
    ensures customTitle == "" && (exists j :: 0 <= j < |messages| && messages[j].role == User) ==>
      exists k :: 0 <= k < |messages| && messages[k].role == User
        && (forall j :: 0 <= j < k ==> messages[j].role == Assistant)
        && t == Headline(messages[k].content)
    ensures customTitle == "" && (forall j :: 0 <= j < |messages| ==> messages[j].role == Assistant) ==>
      t == FallbackTitlePrefix + clock.minutes
  {
    if customTitle != "" then customTitle
    else
      match FirstUserIndex(messages)
      case Some(k) => Headline(messages[k].content)
      case None => FallbackTitlePrefix + clock.minutes
  }

  function BuildThreadRequest(
    messages: seq<Msg>,
    projectName: string,
    workspace: string,
    sessionFileName: string,
    customTitle: string,
    totalLines: int,
    source: string,
    clock: Clock): (r: ThreadRequest)
    ensures r.messages == messages
    ensures r.metadata.messagesExtracted == |messages|
    ensures r.metadata.totalLinesInFile == totalLines
    ensures r.metadata.sessionFile == sessionFileName && r.metadata.cli == source && r.source == source
    ensures r.threadId == projectName + "_" + clock.compact && r.project == projectName
    ensures r.participants == ["user", "claude"] <==> source == "claude-code"
    ensures r.participants == ["user", "codex"] <==> source != "claude-code"
    ensures customTitle != "" ==> r.title == customTitle
    ensures customTitle == "" ==> r.title == DeriveTitle("", messages, clock)
    ensures r.workspace == workspace && r.importDate == clock.isoUtc
    ensures r.metadata.persistMethod == "knowledge_mem"
  {
    ThreadRequest(
      projectName + "_" + clock.compact,
      DeriveTitle(customTitle, messages, clock),
      messages,
      if source == "claude-code" then ["user", "claude"] else ["user", "codex"],
      source,
      projectName,
      workspace,
      clock.isoUtc,
      Metadata(sessionFileName, totalLines, |messages|, "knowledge_mem", source))
  }
}
