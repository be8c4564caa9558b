/** Finding the newest transcript of a project in the two session stores
    (session.py `find_session_directory`, `find_latest_session`,
    `find_latest_codex_session`, `_extract_codex_cwd`,
    `find_latest_session_for_project`).  Directory listings are given as
    sequences of entries in enumeration order; path resolution is a
    parameter. */
module SessionLocator {
  import opened Results
  import opened JsonData
  import opened SessionParser

  /** A file yielded by the glob: its final name component, whether it is a
      regular file, its mtime (`None` when `stat` fails) and its stripped,
      decoded first line (`None` when it cannot be opened). */
  datatype FileEntry = FileEntry(name: string, isFile: bool, mtime: Option<real>, firstLine: Option<Line>)

  /** `SessionNotFoundError` carries the diagnostics of every failed store;
      `Raised` is any other exception escaping the lookup. */
  datatype LookupError = NotFound(reasons: seq<string>) | Raised(reason: string)

  /** The file a lookup settled on, its mtime and the store's label. */
  datatype Candidate = Candidate(file: FileEntry, mtime: real, source: string)

  /** The user's two session stores. `claudeProjects` maps each encoded
      directory name under the Claude projects root to its `*.jsonl`
      listing; `codexFiles` is the recursive `*.jsonl` listing of the Codex
      sessions root; `resolve` is `Path.resolve` (`None` when it raises
      OSError or ValueError). */
  datatype Stores = Stores(
    claudeProjects: map<string, seq<FileEntry>>,
    codexRootExists: bool,
    codexFiles: seq<FileEntry>,
    resolve: string -> Option<string>)

  // ---------------------------------------------------------------------
  // Claude store: directory-name encoding

  predicate NoSlashDot(s: string) {
    forall i :: 0 <= i < |s| - 1 ==> !(s[i] == '/' && s[i + 1] == '.')
  }

  /** Position `i` is one of the two characters of an occurrence of "/.".
      Occurrences cannot overlap, since a '.' is never a '/'. */
  predicate InSlashDot(s: string, i: nat)
    requires i < |s|
  {
    (s[i] == '/' && i + 1 < |s| && s[i + 1] == '.') || (s[i] == '.' && i > 0 && s[i - 1] == '/')
  }

  /** `replace("/.", "--")`: left to right, non-overlapping. */
  function ReplaceSlashDot(s: string): (r: string)
    ensures |r| == |s|
    ensures forall i {:trigger r[i]} :: 0 <= i < |s| ==> r[i] == if InSlashDot(s, i) then '-' else s[i]
    ensures NoSlashDot(r)
    ensures forall i :: 0 <= i < |r| ==> r[i] == s[i] || r[i] == '-'
    ensures |s| > 0 && s[0] != '/' ==> r[0] == s[0]
    ensures |s| > 0 && s[0] == '/' ==> r[0] == '/' || r[0] == '-'
    ensures |s| > 0 && s[0] == '/' && (|s| == 1 || s[1] != '.') ==> r[0] == '/'
  {
    if |s| >= 2 && s[0] == '/' && s[1] == '.' then
      var rest := ReplaceSlashDot(s[2..]);
      assert forall i :: 2 <= i < |s| ==> ("--" + rest)[i] == rest[i - 2];
      assert forall i :: 2 <= i < |s| ==> s[2..][i - 2] == s[i] && (InSlashDot(s[2..], i - 2) <==> InSlashDot(s, i));
      "--" + rest
    else if |s| == 0 then ""
    else
      var rest := ReplaceSlashDot(s[1..]);
      assert forall i :: 1 <= i < |s| ==> ([s[0]] + rest)[i] == rest[i - 1];
      assert forall i :: 1 <= i < |s| ==> s[1..][i - 1] == s[i] && (InSlashDot(s[1..], i - 1) <==> InSlashDot(s, i));
      [s[0]] + rest
  }

  /** `replace("/", "-")`. */
  function DashSlashes(s: string): (r: string)
    ensures |r| == |s|
    ensures forall i :: 0 <= i < |r| ==> r[i] != '/'
    ensures forall i :: 0 <= i < |r| ==> r[i] == s[i] || (s[i] == '/' && r[i] == '-')
  {
    if |s| == 0 then ""
    else
      var rest := DashSlashes(s[1..]);
      assert forall i :: 1 <= i < |s| ==> s[i] == s[1..][i - 1];
      [if s[0] == '/' then '-' else s[0]] + rest
  }

  /** How many characters `lstrip("-")` removes. */
  function LeadingDashes(s: string): (n: nat)
    ensures n <= |s|
    ensures forall i :: 0 <= i < n ==> s[i] == '-'
    ensures n < |s| ==> s[n] != '-'
  {
    if |s| > 0 && s[0] == '-' then 1 + LeadingDashes(s[1..]) else 0
  }

  /** `lstrip("-")`: the suffix after the leading dashes. */
  function StripLeadingDashes(s: string): string {
    s[LeadingDashes(s)..]
  }

  function Encoded(absPath: string): string {
    "-" + StripLeadingDashes(DashSlashes(ReplaceSlashDot(absPath)))
  }

  /** What both replacements make of the character at position `i`: a
      dash for every '/' and for the '.' of every "/.", the character
      itself otherwise. */
  function EncodedChar(s: string, i: nat): char
    requires i < |s|
  {
    if s[i] == '/' || InSlashDot(s, i) then '-' else s[i]
  }

  /** `c` is one of the characters of `s`. */
  predicate OccursIn(c: char, s: string) {
    c in s
  }

  lemma {:induction false} DashedIsEncodedChar(absPath: string)
    ensures var dashed := DashSlashes(ReplaceSlashDot(absPath));
      forall i {:trigger dashed[i]} :: 0 <= i < |absPath| ==> dashed[i] == EncodedChar(absPath, i)
  {
    var replaced := ReplaceSlashDot(absPath);
    var dashed := DashSlashes(replaced);
    forall i | 0 <= i < |absPath|
      ensures dashed[i] == EncodedChar(absPath, i)
    {
      assert dashed[i] == replaced[i] || (replaced[i] == '/' && dashed[i] == '-');
    }
  }

  /** A leading dash followed by `lstrip("-")` of any string that agrees
      with `EncodedChar` at every position. */
  lemma {:induction false} StripEncodedChars(absPath: string, d: string, r: string)
    requires |d| == |absPath|
    requires forall i {:trigger d[i]} :: 0 <= i < |absPath| ==> d[i] == EncodedChar(absPath, i)
    requires r == "-" + StripLeadingDashes(d)
    ensures var k := |absPath| + 1 - |r|;
      && 0 <= k <= |absPath|
      && (forall j :: 0 <= j < k ==> EncodedChar(absPath, j) == '-')
      && (forall i :: 1 <= i < |r| ==> r[i] == EncodedChar(absPath, k + i - 1))
  {
    var k := LeadingDashes(d);
    assert |r| == 1 + |absPath| - k;
    forall j | 0 <= j < k
      ensures EncodedChar(absPath, j) == '-'
    {
      assert d[j] == '-';
    }
    forall i | 1 <= i < |r|
      ensures r[i] == EncodedChar(absPath, k + i - 1)
    {
      assert r[i] == d[k..][i - 1] == d[k + i - 1];
    }
  }

  /** The encoded name character by character: a leading dash, then the
      encoded characters of the path after the run of them that encodes to
      dashes. */
  lemma EncodedPointwise(absPath: string)
    ensures var r := Encoded(absPath);
      var k := |absPath| + 1 - |r|;
      && 0 <= k <= |absPath|
      && (forall j :: 0 <= j < k ==> EncodedChar(absPath, j) == '-')
      && (forall i :: 1 <= i < |r| ==> r[i] == EncodedChar(absPath, k + i - 1))
  {
    DashedIsEncodedChar(absPath);
    StripEncodedChars(absPath, DashSlashes(ReplaceSlashDot(absPath)), Encoded(absPath));
  }

  /** One leading dash, and no second one. */
  lemma EncodedShape(absPath: string)
    ensures var r := Encoded(absPath);
      && |r| >= 1 && r[0] == '-'
      && (|r| >= 2 ==> r[1] != '-')
      && |r| <= |absPath| + 1
  {
    var d := DashSlashes(ReplaceSlashDot(absPath));
    var k := LeadingDashes(d);
    var r := Encoded(absPath);
    assert r == "-" + d[k..];
    if |r| >= 2 {
      assert r[1] == d[k];
    }
  }

  lemma EncodedHasNoSlash(absPath: string)
    ensures forall i :: 0 <= i < |Encoded(absPath)| ==> Encoded(absPath)[i] != '/'
  {
    EncodedPointwise(absPath);
  }

  lemma EncodedCharsFromPath(absPath: string)
    ensures forall i :: 0 <= i < |Encoded(absPath)| && Encoded(absPath)[i] != '-' ==> OccursIn(Encoded(absPath)[i], absPath)
  {
    EncodedPointwise(absPath);
    var r := Encoded(absPath);
    var k := |absPath| + 1 - |r|;
    forall i | 0 <= i < |r| && r[i] != '-'
      ensures OccursIn(r[i], absPath)
    {
      assert r[i] == EncodedChar(absPath, k + i - 1) == absPath[k + i - 1];
    }
  }

  /** Everything the encoding promises, about `Encoded`. */
  lemma EncodedFacts(absPath: string)
    ensures var r := Encoded(absPath);
      && |r| >= 1 && r[0] == '-'
      && (|r| >= 2 ==> r[1] != '-')
      && (forall i :: 0 <= i < |r| ==> r[i] != '/')
      && |r| <= |absPath| + 1
      && (forall i :: 0 <= i < |r| && r[i] != '-' ==> OccursIn(r[i], absPath))
      && var k := |absPath| + 1 - |r|;
      && (forall j :: 0 <= j < k ==> EncodedChar(absPath, j) == '-')
      && (forall i :: 1 <= i < |r| ==> r[i] == EncodedChar(absPath, k + i - 1))
  {
    EncodedShape(absPath);
    EncodedPointwise(absPath);
    EncodedHasNoSlash(absPath);
    EncodedCharsFromPath(absPath);
  }

  /** The name of a project's directory in the Claude store. */
  function EncodeProjectPath(absPath: string): (r: string)
    ensures |r| >= 1 && r[0] == '-'
    ensures |r| >= 2 ==> r[1] != '-'
    ensures forall i :: 0 <= i < |r| ==> r[i] != '/'
    ensures |r| <= |absPath| + 1
    ensures forall i :: 0 <= i < |r| && r[i] != '-' ==> OccursIn(r[i], absPath)
    ensures var k := |absPath| + 1 - |r|;
      && (forall j :: 0 <= j < k ==> EncodedChar(absPath, j) == '-')
      && (forall i :: 1 <= i < |r| ==> r[i] == EncodedChar(absPath, k + i - 1))
  {
    EncodedFacts(absPath);
    Encoded(absPath)
  }

  /** A hidden directory gives a double dash: `/.` is rewritten before the
      remaining separators are. */
  lemma EncodeHiddenDirectory()
    ensures EncodeProjectPath("/a/.b") == "-a--b"
  {
    assert ReplaceSlashDot("b") == "b";
    assert ReplaceSlashDot("/.b") == "--b";
    assert ReplaceSlashDot("a/.b") == "a--b";
    assert ReplaceSlashDot("/a/.b") == "/a--b";
    assert DashSlashes("/a--b") == "-a--b";
    assert StripLeadingDashes("-a--b") == "a--b";
  }

  // ---------------------------------------------------------------------
  // Running maximum over a listing

  /** State of a newest-file scan: index of the file held, and the mtime to
      beat (0 before any file is held). */
  datatype Pick = Pick(index: Option<nat>, mtime: real)

  function StatTime(e: FileEntry): real {
    match e.mtime
    case Some(t) => t
    case None => 0.0
  }

  /** Considered by the Claude scan: not a sub-agent transcript and
      `stat` succeeds. */
  predicate ClaudeEligible(e: FileEntry) {
    !("agent-" <= e.name) && e.mtime.Some?
  }

  /** The Claude scan over a directory listing: a strict running maximum of
      the mtime, starting from 0, over eligible files. */
  function ClaudeScan(entries: seq<FileEntry>): (p: Pick)
    ensures p.mtime >= 0.0
    ensures forall i :: 0 <= i < |entries| && ClaudeEligible(entries[i]) ==> StatTime(entries[i]) <= p.mtime
    ensures p.index.None? ==> p.mtime == 0.0
    ensures p.index.Some? ==>
      && p.index.value < |entries|
      && ClaudeEligible(entries[p.index.value])
      && StatTime(entries[p.index.value]) == p.mtime > 0.0
      && forall j :: 0 <= j < p.index.value && ClaudeEligible(entries[j]) ==> StatTime(entries[j]) < p.mtime
    decreases |entries|
  {
    if |entries| == 0 then Pick(None, 0.0)
    else
      var front := entries[..|entries| - 1];
      var p := ClaudeScan(front);
      assert forall i :: 0 <= i < |front| ==> front[i] == entries[i];
      var f := entries[|entries| - 1];
      if ClaudeEligible(f) && StatTime(f) > p.mtime then Pick(Some(|entries| - 1), StatTime(f))
      else p
  }

  /** `find_session_directory` followed by `find_latest_session`. */
  function FindClaudeSession(stores: Stores, projectReal: string): (r: Result<Candidate, LookupError>)
    ensures r.Err? ==> r.error.NotFound?
    ensures r.Ok? ==>
      && EncodeProjectPath(projectReal) in stores.claudeProjects
      && r.value.file in stores.claudeProjects[EncodeProjectPath(projectReal)]
      && ClaudeEligible(r.value.file)
      && r.value.mtime == StatTime(r.value.file) > 0.0
      && r.value.source == "claude-code"
      && forall e :: e in stores.claudeProjects[EncodeProjectPath(projectReal)] && ClaudeEligible(e) ==>
           StatTime(e) <= r.value.mtime
    ensures EncodeProjectPath(projectReal) !in stores.claudeProjects ==> r.Err?
    ensures EncodeProjectPath(projectReal) in stores.claudeProjects ==>
      var entries := stores.claudeProjects[EncodeProjectPath(projectReal)];
      && (r.Ok? <==> ClaudeScan(entries).index.Some?)
      && (r.Ok? ==> r.value.file == entries[ClaudeScan(entries).index.value])
  {
    var dir := EncodeProjectPath(projectReal);
    if dir !in stores.claudeProjects then Err(NotFound(["Session directory not found: " + dir]))
    else
      var entries := stores.claudeProjects[dir];
      var p := ClaudeScan(entries);
      match p.index
      case None => Err(NotFound(["No session files found in " + dir]))
      case Some(k) => Ok(Candidate(entries[k], p.mtime, "claude-code"))
  }

  /** No file qualifies iff every listed file is a sub-agent transcript,
      cannot be stat'ed, or has an mtime of at most 0. */
  lemma ClaudeNotFoundIffNoCandidate(entries: seq<FileEntry>)
    ensures ClaudeScan(entries).index.None? <==>
      forall i :: 0 <= i < |entries| && ClaudeEligible(entries[i]) ==> StatTime(entries[i]) <= 0.0
  {
    var p := ClaudeScan(entries);
    if p.index.Some? {
      assert StatTime(entries[p.index.value]) > 0.0;
    }
  }

  /** The Claude lookup finds a file iff the project's directory exists and
      holds an eligible file with a positive mtime. */
  lemma ClaudeFoundIffCandidate(stores: Stores, projectReal: string)
    ensures FindClaudeSession(stores, projectReal).Ok? <==>
      && EncodeProjectPath(projectReal) in stores.claudeProjects
      && var entries := stores.claudeProjects[EncodeProjectPath(projectReal)];
         exists i :: 0 <= i < |entries| && ClaudeEligible(entries[i]) && StatTime(entries[i]) > 0.0
  {
    var dir := EncodeProjectPath(projectReal);
    if dir in stores.claudeProjects {
      ClaudeNotFoundIffNoCandidate(stores.claudeProjects[dir]);
    }
  }

  // ---------------------------------------------------------------------
  // Codex store

  /** `_extract_codex_cwd` on a file's first line; `JNull` is Python's
      `None`.  Only decoding and opening errors are caught: a first line
      that is JSON but not an object, or whose `payload` is not an object,
      raises out of the lookup. */
  function CodexCwd(firstLine: Option<Line>): (r: Result<Json, string>)
    ensures r.Ok? && Truthy(r.value) ==>
      && firstLine.Some? && firstLine.value.Decoded? && firstLine.value.value.JObj?
      && GetOr(firstLine.value.value.fields, "type", JNull) == JStr("session_meta")
    ensures firstLine.None? || !firstLine.value.Decoded? ==> r == Ok(JNull)
    ensures firstLine.Some? && firstLine.value.Decoded? ==>
      var data := firstLine.value.value;
      && (!data.JObj? ==> r.Err?)
      && (data.JObj? && GetOr(data.fields, "type", JNull) != JStr("session_meta") ==> r == Ok(JNull))
      && (data.JObj? && GetOr(data.fields, "type", JNull) == JStr("session_meta") ==>
           var payload := GetOr(data.fields, "payload", EmptyObject);
           && (!payload.JObj? ==> r.Err?)
           && (payload.JObj? ==> r == Ok(GetOr(payload.fields, "cwd", JNull))))
  {
    match firstLine
    case None => Ok(JNull)
    case Some(Blank) => Ok(JNull)
    case Some(Undecodable) => Ok(JNull)
    case Some(Decoded(data)) =>
      if !data.JObj? then Err("first line is not an object")
      else if GetOr(data.fields, "type", JNull) != JStr("session_meta") then Ok(JNull)
      else
        var payload := GetOr(data.fields, "payload", EmptyObject);
        if !payload.JObj? then Err("payload is not an object")
        else Ok(GetOr(payload.fields, "cwd", JNull))
  }

  /** A Codex file recorded as a session of the project. */
  predicate CodexMatches(e: FileEntry, projectReal: string, resolve: string -> Option<string>) {
    var cwd := CodexCwd(e.firstLine);
    && cwd.Ok?
    && cwd.value.JStr? && cwd.value.s != ""
    && resolve(cwd.value.s) == Some(projectReal)
  }

  predicate CodexEligible(e: FileEntry, projectReal: string, resolve: string -> Option<string>) {
    e.isFile && e.mtime.Some? && CodexMatches(e, projectReal, resolve)
  }

  /** Reading this file's first line raises: `_extract_codex_cwd` raises,
      or yields a truthy `cwd` that is not a path string. */
  predicate FirstLineRaises(e: FileEntry) {
    var cwd := CodexCwd(e.firstLine);
    cwd.Err? || (Truthy(cwd.value) && !cwd.value.JStr?)
  }

  /** The Codex scan: a file's first line is only read when its mtime beats
      the running maximum, so only such files can make the scan raise. */
  function CodexScan(entries: seq<FileEntry>, projectReal: string, resolve: string -> Option<string>)
    : (r: Result<Pick, string>)
    ensures r.Ok? ==> r.value.mtime >= 0.0
    ensures r.Ok? ==> forall i :: 0 <= i < |entries| && CodexEligible(entries[i], projectReal, resolve) ==>
      StatTime(entries[i]) <= r.value.mtime
    ensures r.Ok? && r.value.index.None? ==> r.value.mtime == 0.0
    ensures r.Ok? && r.value.index.Some? ==>
      && r.value.index.value < |entries|
      && CodexEligible(entries[r.value.index.value], projectReal, resolve)
      && StatTime(entries[r.value.index.value]) == r.value.mtime > 0.0
      && forall j :: 0 <= j < r.value.index.value && CodexEligible(entries[j], projectReal, resolve) ==>
           StatTime(entries[j]) < r.value.mtime
    decreases |entries|
  {
    if |entries| == 0 then Ok(Pick(None, 0.0))
    else
      var front := entries[..|entries| - 1];
      var p :- CodexScan(front, projectReal, resolve);
      assert forall i :: 0 <= i < |front| ==> front[i] == entries[i];
      var f := entries[|entries| - 1];
      if !f.isFile || f.mtime.None? || StatTime(f) <= p.mtime then Ok(p)
      else
        var cwd :- CodexCwd(f.firstLine);
        if !Truthy(cwd) then Ok(p)
        else if !cwd.JStr? then Err("cwd is not a path")
        else if resolve(cwd.s) == Some(projectReal) then Ok(Pick(Some(|entries| - 1), StatTime(f)))
        else Ok(p)
  }

  /** `find_latest_codex_session`. */
  function FindCodexSession(stores: Stores, projectReal: string): (r: Result<Candidate, LookupError>)
    ensures !stores.codexRootExists ==> r.Err? && r.error.NotFound?
    ensures r.Ok? ==>
      && r.value.file in stores.codexFiles
      && CodexEligible(r.value.file, projectReal, stores.resolve)
      && r.value.mtime == StatTime(r.value.file) > 0.0
      && r.value.source == "codex"
      && forall e :: e in stores.codexFiles && CodexEligible(e, projectReal, stores.resolve) ==>
           StatTime(e) <= r.value.mtime
    ensures stores.codexRootExists ==>
      var scan := CodexScan(stores.codexFiles, projectReal, stores.resolve);
      && (scan.Err? <==> r.Err? && r.error.Raised?)
      && (scan.Err? ==> r == Err(Raised(scan.error)))
      && (scan.Ok? ==> (r.Ok? <==> scan.value.index.Some?))
      && (r.Ok? ==> scan.Ok? && r.value.file == stores.codexFiles[scan.value.index.value])
  {
    if !stores.codexRootExists then Err(NotFound(["Codex sessions root not found"]))
    else
      match CodexScan(stores.codexFiles, projectReal, stores.resolve)
      case Err(e) => Err(Raised(e))
      case Ok(p) =>
        match p.index
        case None => Err(NotFound(["No Codex session files found for project: " + projectReal]))
        case Some(k) => Ok(Candidate(stores.codexFiles[k], p.mtime, "codex"))
  }

  // ---------------------------------------------------------------------
  // Source preference and auto mode

  function LowerAscii(s: string): (r: string)
    ensures |r| == |s|
  {
    seq(|s|, i requires 0 <= i < |s| => if 'A' <= s[i] <= 'Z' then (s[i] as int + 32) as char else s[i])
  }

  /** `(preferred or "auto").lower()`, with anything outside the three
      known sources read as `auto`.  ASCII lower-casing decides membership
      exactly as Python's `lower` does: no other character lower-cases to a
      letter of the three names. */
  function NormalizePreference(preferred: string): (r: string)
    ensures r in {"auto", "claude", "codex"}
    ensures preferred == "" ==> r == "auto"
    ensures preferred in {"auto", "claude", "codex"} ==> r == preferred
    ensures LowerAscii(preferred) !in {"auto", "claude", "codex"} ==> r == "auto"
    ensures LowerAscii(preferred) in {"auto", "claude", "codex"} ==> r == LowerAscii(preferred)
  {
    var lowered := LowerAscii(if preferred == "" then "auto" else preferred);
    assert preferred in {"auto", "claude", "codex"} ==> lowered == preferred;
    if lowered in {"auto", "claude", "codex"} then lowered else "auto"
  }

  /** Auto mode: the newer of the two stores' candidates, the Claude one on
      a tie since it is listed first.  Not-found conditions are collected;
      anything else the Codex lookup raises escapes. */
  function PickNewer(claude: Result<Candidate, LookupError>, codex: Result<Candidate, LookupError>)
    : (r: Result<Candidate, LookupError>)
    requires claude.Err? ==> claude.error.NotFound?
    ensures codex.Err? && codex.error.Raised? ==> r == codex
    ensures claude.Ok? && codex.Ok? ==>
      r == (if codex.value.mtime > claude.value.mtime then codex else claude)
    ensures claude.Ok? && codex.Err? && codex.error.NotFound? ==> r == claude
    ensures claude.Err? && codex.Ok? ==> r == codex
    ensures r.Err? && r.error.NotFound? <==> claude.Err? && codex.Err? && codex.error.NotFound?
    ensures claude.Err? && codex.Err? && codex.error.NotFound? ==>
      r == Err(NotFound(claude.error.reasons + codex.error.reasons))
  {
    if codex.Err? && codex.error.Raised? then codex
    else if claude.Err? && codex.Err? then Err(NotFound(claude.error.reasons + codex.error.reasons))
    else if claude.Err? then codex
    else if codex.Err? then claude
    else if codex.value.mtime > claude.value.mtime then codex
    else claude
  }

  /** `find_latest_session_for_project`. */
  function FindLatestSessionForProject(stores: Stores, projectReal: string, preferred: string)
    : (r: Result<Candidate, LookupError>)
    ensures r.Ok? ==> r.value.source in {"claude-code", "codex"}
    ensures NormalizePreference(preferred) == "claude" ==> r == FindClaudeSession(stores, projectReal)
    ensures NormalizePreference(preferred) == "codex" ==> r == FindCodexSession(stores, projectReal)
    ensures NormalizePreference(preferred) == "auto" ==>
      r == PickNewer(FindClaudeSession(stores, projectReal), FindCodexSession(stores, projectReal))
  {
    var source := NormalizePreference(preferred);
    if source == "claude" then FindClaudeSession(stores, projectReal)
    else if source == "codex" then FindCodexSession(stores, projectReal)
    else PickNewer(FindClaudeSession(stores, projectReal), FindCodexSession(stores, projectReal))
  }

  /** In auto mode the result is the newest file over both stores: no
      qualifying file of either store is newer. */
  lemma AutoModePicksNewest(stores: Stores, projectReal: string)
    requires FindLatestSessionForProject(stores, projectReal, "auto").Ok?
    ensures var c := FindLatestSessionForProject(stores, projectReal, "auto").value;
      && (EncodeProjectPath(projectReal) in stores.claudeProjects ==>
           forall e :: e in stores.claudeProjects[EncodeProjectPath(projectReal)] && ClaudeEligible(e) ==> StatTime(e) <= c.mtime)
      && (stores.codexRootExists && CodexScan(stores.codexFiles, projectReal, stores.resolve).Ok? ==>
           forall e :: e in stores.codexFiles && CodexEligible(e, projectReal, stores.resolve) ==> StatTime(e) <= c.mtime)
  {
    var claude := FindClaudeSession(stores, projectReal);
    var codex := FindCodexSession(stores, projectReal);
    var dir := EncodeProjectPath(projectReal);
    if dir in stores.claudeProjects && claude.Err? {
      ClaudeNotFoundIffNoCandidate(stores.claudeProjects[dir]);
    }
    if stores.codexRootExists && CodexScan(stores.codexFiles, projectReal, stores.resolve).Ok? && codex.Err? {
      CodexNotFoundIffNoCandidate(stores.codexFiles, projectReal, stores.resolve);
    }
  }

  /** Whether the Codex scan raises: the file at `i` beats the running
      maximum of the files before it, so its first line is read, and that
      read raises. */
  predicate RaisesAt(entries: seq<FileEntry>, i: nat, projectReal: string, resolve: string -> Option<string>)
    requires i < |entries|
  {
    var before := CodexScan(entries[..i], projectReal, resolve);
    && before.Ok?
    && entries[i].isFile && entries[i].mtime.Some?
    && StatTime(entries[i]) > before.value.mtime
    && FirstLineRaises(entries[i])
  }

  /** One more file: the scan raises iff it raised before, or this file's
      first line is read and raises. */
  lemma CodexScanRaisesStep(entries: seq<FileEntry>, projectReal: string, resolve: string -> Option<string>)
    requires |entries| > 0
    ensures CodexScan(entries, projectReal, resolve).Err? <==>
      CodexScan(entries[..|entries| - 1], projectReal, resolve).Err?
      || RaisesAt(entries, |entries| - 1, projectReal, resolve)
  {
  }

  /** Whether the scan raises at `i` depends only on the files up to `i`. */
  lemma RaisesAtPrefix(entries: seq<FileEntry>, n: nat, i: nat, projectReal: string, resolve: string -> Option<string>)
    requires i < n <= |entries|
    ensures RaisesAt(entries[..n], i, projectReal, resolve) == RaisesAt(entries, i, projectReal, resolve)
  {
    assert entries[..n][..i] == entries[..i];
  }

  /** The Codex scan raises exactly when some file whose first line it
      reads raises; every other file is skipped or compared. */
  lemma {:induction false} CodexScanRaisesIff(entries: seq<FileEntry>, projectReal: string, resolve: string -> Option<string>)
    ensures CodexScan(entries, projectReal, resolve).Err? <==>
      exists i :: 0 <= i < |entries| && RaisesAt(entries, i, projectReal, resolve)
  {
    if CodexScan(entries, projectReal, resolve).Err? {
      CodexScanRaisesSomewhere(entries, projectReal, resolve);
    } else {
      CodexScanOkRaisesNowhere(entries, projectReal, resolve);
    }
  }

  /** A scan that raises does so at some file whose first line it reads. */
  lemma {:induction false} CodexScanRaisesSomewhere(entries: seq<FileEntry>, projectReal: string, resolve: string -> Option<string>)
    requires CodexScan(entries, projectReal, resolve).Err?
    ensures exists i :: 0 <= i < |entries| && RaisesAt(entries, i, projectReal, resolve)
    decreases |entries|
  {
    var n := |entries| - 1;
    var front := entries[..n];
    CodexScanRaisesStep(entries, projectReal, resolve);
    if CodexScan(front, projectReal, resolve).Err? {
      CodexScanRaisesSomewhere(front, projectReal, resolve);
      var i :| 0 <= i < n && RaisesAt(front, i, projectReal, resolve);
      RaisesAtPrefix(entries, n, i, projectReal, resolve);
    }
  }

  /** A scan that succeeds reads no first line that raises. */
  lemma {:induction false} CodexScanOkRaisesNowhere(entries: seq<FileEntry>, projectReal: string, resolve: string -> Option<string>)
    requires CodexScan(entries, projectReal, resolve).Ok?
    ensures forall i :: 0 <= i < |entries| ==> !RaisesAt(entries, i, projectReal, resolve)
    decreases |entries|
  {
    if |entries| > 0 {
      var n := |entries| - 1;
      var front := entries[..n];
      CodexScanRaisesStep(entries, projectReal, resolve);
      CodexScanOkRaisesNowhere(front, projectReal, resolve);
      forall i | 0 <= i < n
        ensures !RaisesAt(entries, i, projectReal, resolve)
      {
        RaisesAtPrefix(entries, n, i, projectReal, resolve);
      }
    }
  }

  /** A listing none of whose first lines raises on reading is scanned
      without raising. */
  lemma CleanFirstLinesNeverRaise(entries: seq<FileEntry>, projectReal: string, resolve: string -> Option<string>)
    ensures (forall i :: 0 <= i < |entries| ==> !FirstLineRaises(entries[i])) ==>
      CodexScan(entries, projectReal, resolve).Ok?
  {
    if CodexScan(entries, projectReal, resolve).Err? {
      CodexScanRaisesSomewhere(entries, projectReal, resolve);
    }
  }

  /** With the root present and no raise, the Codex lookup finds a file iff
      some matching regular file has a positive mtime. */
  lemma CodexFoundIffCandidate(stores: Stores, projectReal: string)
    ensures stores.codexRootExists && CodexScan(stores.codexFiles, projectReal, stores.resolve).Ok? ==>
      (FindCodexSession(stores, projectReal).Ok? <==>
         exists i :: 0 <= i < |stores.codexFiles| && CodexEligible(stores.codexFiles[i], projectReal, stores.resolve)
           && StatTime(stores.codexFiles[i]) > 0.0)
  {
    if stores.codexRootExists && CodexScan(stores.codexFiles, projectReal, stores.resolve).Ok? {
      CodexNotFoundIffNoCandidate(stores.codexFiles, projectReal, stores.resolve);
    }
  }

  lemma CodexNotFoundIffNoCandidate(entries: seq<FileEntry>, projectReal: string, resolve: string -> Option<string>)
    requires CodexScan(entries, projectReal, resolve).Ok?
    ensures CodexScan(entries, projectReal, resolve).value.index.None? <==>
      forall i :: 0 <= i < |entries| && CodexEligible(entries[i], projectReal, resolve) ==> StatTime(entries[i]) <= 0.0
  {
    var p := CodexScan(entries, projectReal, resolve).value;
    if p.index.Some? {
      assert StatTime(entries[p.index.value]) > 0.0;
    }
  }
}
