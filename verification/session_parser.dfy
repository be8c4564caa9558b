/** The transcript parser (session.py `parse_session_file`,
    `_parse_claude_message`, `_parse_codex_message`).  The file is given as
    its sequence of lines, each already stripped and JSON-decoded. */
module SessionParser {
  import opened Results
  import opened JsonData
  import opened Sequences
  import opened Configuration
  import opened Content
  import opened Transcript
  import opened TurnFilter

  /** A line after `strip()`: empty, not JSON, or a decoded JSON value. */
  datatype Line = Blank | Undecodable | Decoded(value: Json)

  datatype ParseResult = ParseResult(messages: seq<Msg>, totalLines: nat)

  /** Format A (Claude): `type` is the role, the text is under `message`. */
  function ParseClaudeMessage(data: map<string, Json>): (r: Result<Option<Msg>, string>)
    ensures r.Ok? && r.value.Some? ==>
      && GetOr(data, "type", JNull) == JStr(RoleName(r.value.value.role))
      && r.value.value.content != ""
      && r.value.value.timestamp == GetOr(data, "timestamp", JNull)
    ensures RoleOf(GetOr(data, "type", JNull)).None? ==> r == Ok(None)
    ensures RoleOf(GetOr(data, "type", JNull)).Some? ==>
      var role := RoleOf(GetOr(data, "type", JNull)).value;
      var text := ExtractContent(GetOr(data, "message", EmptyObject));
      && (text.Err? ==> r.Err?)
      && (text == Ok("") ==> r == Ok(None))
      && (text.Ok? && text.value != "" ==> r == Ok(Some(Msg(role, text.value, GetOr(data, "timestamp", JNull)))))
  {
    var role := RoleOf(GetOr(data, "type", JNull));
    if role.None? then Ok(None)
    else
      var content :- ExtractContent(GetOr(data, "message", EmptyObject));
      if content == "" then Ok(None)
      else Ok(Some(Msg(role.value, content, GetOr(data, "timestamp", JNull))))
  }

  /** Format B (Codex): a `response_item` envelope around a `message`
      payload that carries the role and the content.  A payload that is not
      a dict has no `get`: the parser raises. */
  function ParseCodexMessage(data: map<string, Json>): (r: Result<Option<Msg>, string>)
    ensures GetOr(data, "type", JNull) != JStr("response_item") ==> r == Ok(None)
    ensures r.Ok? && r.value.Some? ==>
      && var payload := GetOr(data, "payload", EmptyObject);
      && payload.JObj?
      && GetOr(payload.fields, "type", JNull) == JStr("message")
      && GetOr(payload.fields, "role", JNull) == JStr(RoleName(r.value.value.role))
      && r.value.value.content != ""
      && var envelope := GetOr(data, "timestamp", JNull);
      && r.value.value.timestamp == (if Truthy(envelope) then envelope else GetOr(payload.fields, "timestamp", JNull))
    ensures GetOr(data, "type", JNull) == JStr("response_item") ==>
      var payload := GetOr(data, "payload", EmptyObject);
      && (!payload.JObj? ==> r.Err?)
      && (payload.JObj? && GetOr(payload.fields, "type", JNull) != JStr("message") ==> r == Ok(None))
      && (payload.JObj? && RoleOf(GetOr(payload.fields, "role", JNull)).None? ==> r == Ok(None))
    ensures
      var payload := GetOr(data, "payload", EmptyObject);
      (GetOr(data, "type", JNull) == JStr("response_item") && payload.JObj?
       && GetOr(payload.fields, "type", JNull) == JStr("message")
       && RoleOf(GetOr(payload.fields, "role", JNull)).Some?) ==>
      var role := RoleOf(GetOr(payload.fields, "role", JNull)).value;
      var text := ExtractContent(payload);
      var envelope := GetOr(data, "timestamp", JNull);
      var stamp := if Truthy(envelope) then envelope else GetOr(payload.fields, "timestamp", JNull);
      && (text.Err? ==> r.Err?)
      && (text == Ok("") ==> r == Ok(None))
      && (text.Ok? && text.value != "" ==> r == Ok(Some(Msg(role, text.value, stamp))))
  {
    if GetOr(data, "type", JNull) != JStr("response_item") then Ok(None)
    else
      var payload := GetOr(data, "payload", EmptyObject);
      if !payload.JObj? then Err("payload is not an object")
      else if GetOr(payload.fields, "type", JNull) != JStr("message") then Ok(None)
      else
        var role := RoleOf(GetOr(payload.fields, "role", JNull));
        if role.None? then Ok(None)
        else
          var content :- ExtractContent(payload);
          if content == "" then Ok(None)
          else
            var envelope := GetOr(data, "timestamp", JNull);
            var stamp := if Truthy(envelope) then envelope else GetOr(payload.fields, "timestamp", JNull);
            Ok(Some(Msg(role.value, content, stamp)))
  }

  /** A decoded line: Format A is tried first, Format B only when Format A
      yields nothing.  A JSON value that is not an object has no `get`, so
      the parser raises on it. */
  function ParseRecord(data: Json): (r: Result<Option<Msg>, string>)
    ensures !data.JObj? ==> r.Err?
    ensures data.JObj? && RoleOf(GetOr(data.fields, "type", JNull)).Some? ==>
      r == ParseClaudeMessage(data.fields)
    ensures data.JObj? && GetOr(data.fields, "type", JNull) == JStr("response_item") ==>
      r == ParseCodexMessage(data.fields)
    ensures (data.JObj? && RoleOf(GetOr(data.fields, "type", JNull)).None?
      && GetOr(data.fields, "type", JNull) != JStr("response_item")) ==> r == Ok(None)
  {
    if !data.JObj? then Err("line is not a JSON object")
    else
      var claude :- ParseClaudeMessage(data.fields);
      if claude.Some? then Ok(claude) else ParseCodexMessage(data.fields)
  }

  /** What a stored message looks like. */
  predicate Stored(m: Msg) {
    |m.content| <= MaxContentLength && NoStrippedControl(m.content)
  }

  /** One line that reaches the parsing step: blank and undecodable lines
      are skipped; a message is kept iff its RAW text is longer than
      `MinContentLength`, and is stored cleaned. */
  function AcceptLine(line: Line): (r: Result<Option<Msg>, string>)
    ensures r.Ok? && r.value.Some? ==> Stored(r.value.value)
    ensures r.Ok? && r.value.Some? ==>
      && line.Decoded?
      && var raw := ParseRecord(line.value);
      && raw.Ok? && raw.value.Some?
      && |raw.value.value.content| > MinContentLength
      && r.value.value == raw.value.value.(content := Clean(raw.value.value.content))
    ensures r.Err? <==> line.Decoded? && ParseRecord(line.value).Err?
    ensures !line.Decoded? ==> r == Ok(None)
    ensures line.Decoded? && ParseRecord(line.value) == Ok(None) ==> r == Ok(None)
    ensures line.Decoded? && ParseRecord(line.value).Ok? && ParseRecord(line.value).value.Some? ==>
      var m := ParseRecord(line.value).value.value;
      r == if |m.content| <= MinContentLength then Ok(None) else Ok(Some(m.(content := Clean(m.content))))
  {
    match line
    case Blank => Ok(None)
    case Undecodable => Ok(None)
    case Decoded(v) =>
      var parsed :- ParseRecord(v);
      match parsed
      case None => Ok(None)
      case Some(m) =>
        if |m.content| <= MinContentLength then Ok(None)
        else Ok(Some(m.(content := Clean(m.content))))
  }

  datatype ScanState = ScanState(buffer: seq<Msg>, totalLines: nat)

  /** With a positive cap the buffer stops growing at twice the cap. */
  predicate BufferFull(buffer: seq<Msg>, cap: int) {
    cap > 0 && |buffer| >= 2 * cap
  }

  /** One iteration of the read loop: the line is always counted; once the
      buffer is full it is not even parsed. */
  function ScanLine(st: ScanState, line: Line, cap: int): (r: Result<ScanState, string>)
    ensures r.Ok? ==> r.value.totalLines == st.totalLines + 1
    ensures BufferFull(st.buffer, cap) ==> r == Ok(st.(totalLines := st.totalLines + 1))
    ensures !BufferFull(st.buffer, cap) ==> (r.Err? <==> AcceptLine(line).Err?)
    ensures !BufferFull(st.buffer, cap) && AcceptLine(line).Ok? ==>
      && |r.value.buffer| == |st.buffer| + (if AcceptLine(line).value.Some? then 1 else 0)
      && r.value.buffer[..|st.buffer|] == st.buffer
      && (AcceptLine(line).value.Some? ==> r.value.buffer[|st.buffer|] == AcceptLine(line).value.value)
  {
    if BufferFull(st.buffer, cap) then Ok(st.(totalLines := st.totalLines + 1))
    else
      var accepted :- AcceptLine(line);
      var added := if accepted.Some? then [accepted.value] else [];
      Ok(ScanState(st.buffer + added, st.totalLines + 1))
  }

  /** The read loop over the whole file. */
  function Scan(lines: seq<Line>, cap: int): (r: Result<ScanState, string>)
    ensures r.Ok? ==> r.value.totalLines == |lines|
    ensures r.Ok? && cap > 0 ==> |r.value.buffer| <= 2 * cap
    ensures r.Ok? ==> forall i :: 0 <= i < |r.value.buffer| ==> Stored(r.value.buffer[i])
    decreases |lines|
  {
    if |lines| == 0 then Ok(ScanState([], 0))
    else
      var st :- Scan(lines[..|lines| - 1], cap);
      ScanLine(st, lines[|lines| - 1], cap)
  }

  /** An accepted line as the messages it contributes. */
  function Contributed(a: Option<Msg>): (r: seq<Msg>)
    ensures |r| <= 1
  {
    if a.Some? then [a.value] else []
  }

  /** A filter-map over lines from the first on, failing at the first line
      that fails. */
  function Collect(lines: seq<Line>, accept: Line -> Result<Option<Msg>, string>): (r: Result<seq<Msg>, string>)
    ensures r.Ok? ==> |r.value| <= |lines|
  {
    if |lines| == 0 then Ok([])
    else
      var head :- accept(lines[0]);
      var rest :- Collect(lines[1..], accept);
      Ok(Contributed(head) + rest)
  }

  /** The messages of all lines, read without a cap: `AcceptLine` mapped
      over the lines from the first on. */
  function Accepted(lines: seq<Line>): Result<seq<Msg>, string> {
    Collect(lines, AcceptLine)
  }

  lemma {:induction false} CollectAppend(lines: seq<Line>, line: Line, accept: Line -> Result<Option<Msg>, string>)
    ensures Collect(lines + [line], accept) ==
      (match Collect(lines, accept)
       case Err(e) => Err(e)
       case Ok(ms) =>
         match accept(line)
         case Err(e) => Err(e)
         case Ok(a) => Ok(ms + Contributed(a)))
  {
    if |lines| == 0 {
      assert lines + [line] == [line];
      assert [line][1..] == [];
      if accept(line).Ok? {
        var a := Contributed(accept(line).value);
        assert a + [] == [] + a;
      }
    } else {
      var longer := lines + [line];
      assert longer[0] == lines[0] && longer[1..] == lines[1..] + [line];
      CollectAppend(lines[1..], line, accept);
      match accept(lines[0]) {
        case Err(_) =>
        case Ok(head) =>
          match Collect(lines[1..], accept) {
            case Err(_) =>
            case Ok(rest) =>
              match accept(line) {
                case Err(_) =>
                case Ok(a) =>
                  assert Contributed(head) + (rest + Contributed(a)) == (Contributed(head) + rest) + Contributed(a);
              }
          }
      }
    }
  }

  /** One more line adds its accepted message, or its error. */
  lemma AcceptedAppend(lines: seq<Line>, line: Line)
    ensures Accepted(lines + [line]) ==
      (match Accepted(lines)
       case Err(e) => Err(e)
       case Ok(ms) =>
         match AcceptLine(line)
         case Err(e) => Err(e)
         case Ok(a) => Ok(ms + Contributed(a)))
  {
    CollectAppend(lines, line, AcceptLine);
  }

  /** Without a cap the read loop collects exactly `Accepted`, and fails
      exactly when it does, with the same error. */
  lemma {:induction false} UncappedScanIsAccepted(lines: seq<Line>, cap: int)
    requires cap <= 0
    ensures Scan(lines, cap) ==
      (match Accepted(lines)
       case Err(e) => Err(e)
       case Ok(ms) => Ok(ScanState(ms, |lines|)))
    decreases |lines|
  {
    if |lines| > 0 {
      var front := lines[..|lines| - 1];
      var last := lines[|lines| - 1];
      UncappedScanIsAccepted(front, cap);
      assert lines == front + [last];
      AcceptedAppend(front, last);
    }
  }

  /** Once the buffer is full no later line is parsed: whatever the lines
      after it are, the read only counts them. */
  lemma {:induction false} FullBufferReadsNoFurther(lines: seq<Line>, n: nat, cap: int)
    requires n <= |lines| && Scan(lines[..n], cap).Ok?
    requires BufferFull(Scan(lines[..n], cap).value.buffer, cap)
    ensures Scan(lines, cap) == Ok(Scan(lines[..n], cap).value.(totalLines := |lines|))
    decreases |lines| - n
  {
    if n == |lines| {
      assert lines[..n] == lines;
    } else {
      ScanStep(lines, n, cap);
      FullBufferReadsNoFurther(lines, n + 1, cap);
    }
  }

  /** Reading one more line is one more loop iteration. */
  lemma ScanStep(lines: seq<Line>, i: nat, cap: int)
    requires i < |lines| && Scan(lines[..i], cap).Ok?
    ensures Scan(lines[..i + 1], cap) == ScanLine(Scan(lines[..i], cap).value, lines[i], cap)
  {
    assert lines[..i + 1][..i] == lines[..i];
  }

  /** A failure at some line ends the read: every longer prefix fails with
      the same error. */
  lemma {:induction false} ScanFailureSticks(lines: seq<Line>, n: nat, cap: int)
    requires n <= |lines| && Scan(lines[..n], cap).Err?
    ensures Scan(lines, cap) == Scan(lines[..n], cap)
    decreases |lines| - n
  {
    if n < |lines| {
      assert lines[..n + 1][..n] == lines[..n];
      ScanFailureSticks(lines, n + 1, cap);
    } else {
      assert lines[..n] == lines;
    }
  }

  /** The cap only suppresses: the capped buffer holds the first `2 * cap`
      messages the uncapped read would have collected. */
  lemma {:induction false} CapKeepsFirstMessages(lines: seq<Line>, cap: int)
    requires cap > 0 && Scan(lines, 0).Ok?
    ensures Scan(lines, cap).Ok?
    ensures var all := Scan(lines, 0).value.buffer;
      Scan(lines, cap).value.buffer == all[..Min(|all|, 2 * cap)]
  {
    if |lines| > 0 {
      var front := lines[..|lines| - 1];
      CapKeepsFirstMessages(front, cap);
      var all0 := Scan(front, 0).value.buffer;
      var capped0 := Scan(front, cap).value.buffer;
      var all := Scan(lines, 0).value.buffer;
      assert all0 <= all;
      if BufferFull(capped0, cap) {
        assert Scan(lines, cap).value.buffer == capped0;
        assert all[..2 * cap] == all0[..2 * cap];
      } else {
        assert capped0 == all0;
      }
    }
  }

  /** The last `cap` messages of the buffer, when a positive cap is set. */
  function KeepLast(buffer: seq<Msg>, cap: int): (r: seq<Msg>)
    ensures |r| <= |buffer| && r == buffer[|buffer| - |r|..]
    ensures cap > 0 ==> |r| == Min(|buffer|, cap)
    ensures cap <= 0 ==> r == buffer
  {
    if cap > 0 && |buffer| > cap then buffer[|buffer| - cap..] else buffer
  }

  /** Both turn passes, each only on lists of at least two messages. */
  function FilterTurns(ms: seq<Msg>, skipLastTurn: bool, skipIncompleteTurns: bool): (r: seq<Msg>)
    ensures IsSubsequence(r, ms)
    ensures |ms| < 2 ==> r == ms
    ensures !skipIncompleteTurns && !skipLastTurn ==> r == ms
    ensures skipIncompleteTurns && !skipLastTurn && |ms| >= 2 ==> r == DropCancelled(ms)
    ensures !skipIncompleteTurns && skipLastTurn && |ms| >= 2 ==> r == DropLastTurn(ms)
    ensures skipIncompleteTurns && skipLastTurn && |ms| >= 2 ==>
      && (|DropCancelled(ms)| >= 2 ==> r == DropLastTurn(DropCancelled(ms)))
      && (|DropCancelled(ms)| < 2 ==> r == DropCancelled(ms))
  {
    var afterCancelled := if skipIncompleteTurns && |ms| >= 2 then DropCancelled(ms) else ms;
    SubsequenceReflexive(ms);
    var r := if skipLastTurn && |afterCancelled| >= 2 then DropLastTurn(afterCancelled) else afterCancelled;
    PrefixIsSubsequence(afterCancelled, |r|);
    assert afterCancelled[..|r|] == r;
    SubsequenceTransitive(r, afterCancelled, ms);
    r
  }

  /** The whole of `parse_session_file`. */
  function ParseSession(lines: seq<Line>, maxMessages: int, skipLastTurn: bool, skipIncompleteTurns: bool)
    : (r: Result<ParseResult, string>)
    ensures r.Err? <==> Scan(lines, maxMessages).Err?
    ensures r.Ok? ==> r.value.totalLines == |lines|
    ensures r.Ok? && maxMessages > 0 ==> |r.value.messages| <= maxMessages
    ensures r.Ok? ==> forall i :: 0 <= i < |r.value.messages| ==> Stored(r.value.messages[i])
    ensures r.Ok? ==> IsSubsequence(r.value.messages, KeepLast(Scan(lines, maxMessages).value.buffer, maxMessages))
    ensures r.Ok? ==> (r.value.messages ==
      FilterTurns(KeepLast(Scan(lines, maxMessages).value.buffer, maxMessages), skipLastTurn, skipIncompleteTurns))
  {
    var st :- Scan(lines, maxMessages);
    var recent := KeepLast(st.buffer, maxMessages);
    var messages := FilterTurns(recent, skipLastTurn, skipIncompleteTurns);
    SubsequenceLength(messages, recent);
    SubsequenceElements(messages, recent);
    assert forall m :: m in recent ==> Stored(m);
    Ok(ParseResult(messages, st.totalLines))
  }

  /** A loop iteration on a full buffer only counts the line. */
  lemma ScanStepFull(lines: seq<Line>, i: nat, cap: int, buffer: seq<Msg>, total: nat)
    requires i < |lines| && Scan(lines[..i], cap) == Ok(ScanState(buffer, total))
    requires BufferFull(buffer, cap)
    ensures Scan(lines[..i + 1], cap) == Ok(ScanState(buffer, total + 1))
  {
    ScanStep(lines, i, cap);
  }

  /** A loop iteration below the cap appends what the line contributes. */
  lemma ScanStepAccepted(lines: seq<Line>, i: nat, cap: int, buffer: seq<Msg>, total: nat, a: Option<Msg>)
    requires i < |lines| && Scan(lines[..i], cap) == Ok(ScanState(buffer, total))
    requires !BufferFull(buffer, cap) && AcceptLine(lines[i]) == Ok(a)
    ensures Scan(lines[..i + 1], cap) == Ok(ScanState(buffer + Contributed(a), total + 1))
  {
    ScanStep(lines, i, cap);
  }

  /** A line that raises below the cap fails the whole parse with its error. */
  lemma ScanStepFails(lines: seq<Line>, i: nat, cap: int, skipLastTurn: bool, skipIncompleteTurns: bool)
    requires i < |lines| && Scan(lines[..i], cap).Ok?
    requires !BufferFull(Scan(lines[..i], cap).value.buffer, cap) && AcceptLine(lines[i]).Err?
    ensures ParseSession(lines, cap, skipLastTurn, skipIncompleteTurns) == Err(AcceptLine(lines[i]).error)
  {
    ScanStep(lines, i, cap);
    ScanFailureSticks(lines, i + 1, cap);
  }

  /** The parse of a read that ended with `st`. */
  lemma ParseSessionOfScan(lines: seq<Line>, cap: int, skipLastTurn: bool, skipIncompleteTurns: bool, st: ScanState)
    requires Scan(lines, cap) == Ok(st)
    ensures ParseSession(lines, cap, skipLastTurn, skipIncompleteTurns) ==
      Ok(ParseResult(FilterTurns(KeepLast(st.buffer, cap), skipLastTurn, skipIncompleteTurns), st.totalLines))
  {
  }

  /** The read loop as the source writes it, checked against `ParseSession`. */
  method ParseSessionFile(lines: seq<Line>, maxMessages: int, skipLastTurn: bool, skipIncompleteTurns: bool)
    returns (r: Result<ParseResult, string>)
    ensures r == ParseSession(lines, maxMessages, skipLastTurn, skipIncompleteTurns)
    ensures r.Ok? ==> r.value.totalLines == |lines|
    ensures r.Ok? && maxMessages > 0 ==> |r.value.messages| <= maxMessages
  {
    var messages: seq<Msg> := [];
    var totalLines := 0;
    var i := 0;
    while i < |lines|
      invariant 0 <= i <= |lines|
      invariant Scan(lines[..i], maxMessages) == Ok(ScanState(messages, totalLines))
    {
      if maxMessages > 0 && |messages| >= maxMessages * 2 {
        ScanStepFull(lines, i, maxMessages, messages, totalLines);
        totalLines := totalLines + 1;
        i := i + 1;
        continue;
      }
      var accepted := AcceptLine(lines[i]);
      if accepted.Err? {
        ScanStepFails(lines, i, maxMessages, skipLastTurn, skipIncompleteTurns);
        return Err(accepted.error);
      }
      ScanStepAccepted(lines, i, maxMessages, messages, totalLines, accepted.value);
      if accepted.value.Some? {
        messages := messages + [accepted.value.value];
      } else {
        assert messages + Contributed(accepted.value) == messages;
      }
      totalLines := totalLines + 1;
      i := i + 1;
    }
    assert lines[..i] == lines;
    ParseSessionOfScan(lines, maxMessages, skipLastTurn, skipIncompleteTurns, ScanState(messages, totalLines));
    var recent := KeepLast(messages, maxMessages);
    r := Ok(ParseResult(FilterTurns(recent, skipLastTurn, skipIncompleteTurns), totalLines));
  }

  /** Without a cap, the session is the turn-filtered `Accepted` messages
      of all lines, or the error of the first line that fails. */
  lemma UncappedSessionIsFilteredAccepted(lines: seq<Line>, maxMessages: int, skipLastTurn: bool, skipIncompleteTurns: bool)
    requires maxMessages <= 0
    ensures ParseSession(lines, maxMessages, skipLastTurn, skipIncompleteTurns) ==
      (match Accepted(lines)
       case Err(e) => Err(e)
       case Ok(ms) => Ok(ParseResult(FilterTurns(ms, skipLastTurn, skipIncompleteTurns), |lines|)))
  {
    UncappedScanIsAccepted(lines, maxMessages);
  }

  /** With a cap, when every line parses, the session is the turn-filtered
      last `maxMessages` of the first `2 * maxMessages` accepted messages. */
  lemma CappedSessionIsFilteredAccepted(lines: seq<Line>, maxMessages: int, skipLastTurn: bool, skipIncompleteTurns: bool)
    requires maxMessages > 0 && Accepted(lines).Ok?
    ensures
      var all := Accepted(lines).value;
      ParseSession(lines, maxMessages, skipLastTurn, skipIncompleteTurns) ==
        Ok(ParseResult(FilterTurns(KeepLast(all[..Min(|all|, 2 * maxMessages)], maxMessages), skipLastTurn, skipIncompleteTurns), |lines|))
  {
    UncappedScanIsAccepted(lines, 0);
    CapKeepsFirstMessages(lines, maxMessages);
  }

  /** Two user messages: the incomplete-turn pass drops the first, which
      leaves a single message, so the last-turn pass does not run and the
      final user message is kept. */
  lemma LoneFinalUserSurvives(u1: Msg, u2: Msg)
    requires u1.role == User && u2.role == User
    ensures FilterTurns([u1, u2], true, true) == [u2]
  {
    DropCancelledIsIndexedFilter([u1, u2]);
    assert KeptFrom([u1, u2], 2) == [];
    assert KeptFrom([u1, u2], 1) == [u2];
  }

  /** A Format A line whose message is a plain string. */
  function UserLine(text: string): Line {
    Decoded(JObj(map["type" := JStr("user"), "message" := JStr(text)]))
  }

  /** A plain-string user line is a user message with the cleaned text iff
      the raw text is longer than the minimum. */
  lemma UserLineAccepted(text: string)
    ensures |text| > MinContentLength ==> AcceptLine(UserLine(text)) == Ok(Some(Msg(User, Clean(text), JNull)))
    ensures |text| <= MinContentLength ==> AcceptLine(UserLine(text)) == Ok(None)
  {
    var fields := map["type" := JStr("user"), "message" := JStr(text)];
    assert ParseClaudeMessage(fields) == if text == "" then Ok(None) else Ok(Some(Msg(User, text, JNull)));
  }

  /** The minimum-length boundary: text of exactly `MinContentLength`
      characters is dropped, one character more is kept. */
  lemma MinimumLengthBoundary(text: string)
    ensures AcceptLine(UserLine(text)).Ok?
    ensures AcceptLine(UserLine(text)).value.Some? <==> |text| > MinContentLength
  {
    UserLineAccepted(text);
  }

  /** The length check is made on the raw text, so control characters can
      leave a stored message shorter than the minimum. */
  lemma CleanedMessageMayBeShorterThanMinimum()
    ensures var raw := seq(5, _ => 1 as char) + "abc";
      && AcceptLine(UserLine(raw)).Ok?
      && AcceptLine(UserLine(raw)).value == Some(Msg(User, "abc", JNull))
      && |"abc"| < MinContentLength
  {
    var controls := seq(5, _ => 1 as char);
    var raw := controls + "abc";
    UserLineAccepted(raw);
    StripControlAppend(controls, "abc");
    StripOnlyControls(controls);
    StripControlIdentity("abc");
    assert Clean(raw) == "abc";
  }

  /** A Format A line whose message holds its text in a content field. */
  function ClaudeLine(role: string, text: string): Line {
    Decoded(JObj(map["type" := JStr(role), "message" := JObj(map["content" := JStr(text)])]))
  }

  /** A Format A line with short, clean text is stored as it stands. */
  lemma AcceptCleanClaudeLine(role: string, text: string)
    requires RoleOf(JStr(role)).Some?
    requires MinContentLength < |text| <= MaxContentLength && NoStrippedControl(text)
    ensures AcceptLine(ClaudeLine(role, text)) == Ok(Some(Msg(RoleOf(JStr(role)).value, text, JNull)))
  {
    StripControlIdentity(text);
  }

  /** Without a cap, an accepted line is appended to the buffer. */
  lemma ScanAppendsAccepted(lines: seq<Line>, i: nat, buffer: seq<Msg>, m: Msg)
    requires i < |lines| && Scan(lines[..i], 0) == Ok(ScanState(buffer, i))
    requires AcceptLine(lines[i]) == Ok(Some(m))
    ensures Scan(lines[..i + 1], 0) == Ok(ScanState(buffer + [m], i + 1))
  {
    ScanStep(lines, i, 0);
  }

  const ScenarioUser := Msg(User, "hello there, how are you", JNull)
  const ScenarioAssistant := Msg(Assistant, "I am fine, thanks for asking!", JNull)
  const ScenarioLast := Msg(User, "ok bye", JNull)

  /** The transcript of the scenario below. */
  function ScenarioLines(): seq<Line> {
    [ClaudeLine("user", ScenarioUser.content),
     ClaudeLine("assistant", ScenarioAssistant.content),
     ClaudeLine("user", ScenarioLast.content)]
  }

  lemma ScenarioUserAccepted()
    ensures AcceptLine(ClaudeLine("user", ScenarioUser.content)) == Ok(Some(ScenarioUser))
  {
    AcceptCleanClaudeLine("user", ScenarioUser.content);
  }

  lemma ScenarioAssistantAccepted()
    ensures AcceptLine(ClaudeLine("assistant", ScenarioAssistant.content)) == Ok(Some(ScenarioAssistant))
  {
    AcceptCleanClaudeLine("assistant", ScenarioAssistant.content);
  }

  lemma ScenarioLastAccepted()
    ensures AcceptLine(ClaudeLine("user", ScenarioLast.content)) == Ok(Some(ScenarioLast))
  {
    AcceptCleanClaudeLine("user", ScenarioLast.content);
  }

  /** Two accepted lines, read without a cap. */
  lemma ScanTwoAccepted(l0: Line, l1: Line, m0: Msg, m1: Msg)
    requires AcceptLine(l0) == Ok(Some(m0)) && AcceptLine(l1) == Ok(Some(m1))
    ensures Scan([l0, l1], 0) == Ok(ScanState([m0, m1], 2))
  {
    var lines := [l0, l1];
    assert lines[..0] == [] && lines[..2] == lines;
    ScanAppendsAccepted(lines, 0, [], m0);
    assert [] + [m0] == [m0];
    ScanAppendsAccepted(lines, 1, [m0], m1);
    assert [m0] + [m1] == [m0, m1];
  }

  /** Three accepted lines, read without a cap. */
  lemma ScanThreeAccepted(l0: Line, l1: Line, l2: Line, m0: Msg, m1: Msg, m2: Msg)
    requires AcceptLine(l0) == Ok(Some(m0))
    requires AcceptLine(l1) == Ok(Some(m1))
    requires AcceptLine(l2) == Ok(Some(m2))
    ensures Scan([l0, l1, l2], 0) == Ok(ScanState([m0, m1, m2], 3))
  {
    ScanTwoAccepted(l0, l1, m0, m1);
    var lines := [l0, l1, l2];
    assert lines[..2] == [l0, l1] && lines[..3] == lines;
    ScanAppendsAccepted(lines, 2, [m0, m1], m2);
    assert [m0, m1] + [m2] == [m0, m1, m2];
  }

  /** user / assistant / user: both passes leave the first exchange. */
  lemma FilterUserAssistantUser(m0: Msg, m1: Msg, m2: Msg)
    requires m0.role == User && m1.role == Assistant && m2.role == User
    ensures FilterTurns([m0, m1, m2], true, true) == [m0, m1]
  {
    var ms := [m0, m1, m2];
    NoCancelledTurnKeepsAll(ms);
    assert LastUserIndex(ms) == Some(2);
    assert ms[..2] == [m0, m1];
  }

  /** Without a cap, a user / assistant / user transcript keeps the first
      exchange: the trailing user line is removed by the last-turn pass. */
  lemma TrailingUserTurnDropped()
    ensures ParseSession(ScenarioLines(), 0, true, true) ==
      Ok(ParseResult([ScenarioUser, ScenarioAssistant], 3))
  {
    ScenarioUserAccepted();
    ScenarioAssistantAccepted();
    ScenarioLastAccepted();
    ScanThreeAccepted(ClaudeLine("user", ScenarioUser.content), ClaudeLine("assistant", ScenarioAssistant.content),
      ClaudeLine("user", ScenarioLast.content), ScenarioUser, ScenarioAssistant, ScenarioLast);
    FilterUserAssistantUser(ScenarioUser, ScenarioAssistant, ScenarioLast);
    assert KeepLast([ScenarioUser, ScenarioAssistant, ScenarioLast], 0) == [ScenarioUser, ScenarioAssistant, ScenarioLast];
  }
}
