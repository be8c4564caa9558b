/** Text extraction from message content and its sanitisation
    (session.py `_extract_content` and the cleaning step of
    `parse_session_file`). */
module Content {
  import opened Results
  import opened JsonData
  import opened Sequences
  import opened Configuration

  /** Block types that carry text: Claude writes `text`, Codex writes
      `input_text` and `output_text`. */
  const TextTypes: set<string> := {"text", "input_text", "output_text"}

  predicate IsTextType(t: Json) {
    t.JStr? && t.s in TextTypes
  }

  /** A dict block whose `type` is a list or dict: the `in` test against the
      Python set of text types raises TypeError. */
  predicate HasUnhashableType(block: Json) {
    block.JObj? && !Hashable(GetOr(block.fields, "type", JNull))
  }

  /** The text a well-typed dict block contributes. */
  function TextOf(block: Json): string {
    if block.JObj? && IsTextType(GetOr(block.fields, "type", JNull)) then
      match GetOr(block.fields, "text", JNull)
      case JStr(s) => s
      case _ => ""
    else ""
  }

  /** One element of a bare content list: `block.get("type")` with no
      default, `block.get("text", "")`. */
  function ListBlockText(block: Json): Result<string, string> {
    if !block.JObj? then Ok("")
    else
      var t := GetOr(block.fields, "type", JNull);
      if !Hashable(t) then Err("unhashable block type")
      else if t.JStr? && t.s in TextTypes then
        match GetOr(block.fields, "text", JStr(""))
        case JStr(s) => Ok(s)
        case _ => Ok("")
      else Ok("")
  }

  /** One element of a dict's `content` list: `block.get("type", "")`,
      `block.get("text")`. */
  function DictBlockText(block: Json): Result<string, string> {
    if !block.JObj? then Ok("")
    else
      var t := GetOr(block.fields, "type", JStr(""));
      if !Hashable(t) then Err("unhashable block type")
      else if t.JStr? && t.s in TextTypes then
        match GetOr(block.fields, "text", JNull)
        case JStr(s) => Ok(s)
        case _ => Ok("")
      else Ok("")
  }

  /** The two loops of the extractor treat every block alike, despite their
      different defaults: a block fails iff its type is unhashable, and
      otherwise contributes the string `text` of a text-typed dict, else
      nothing. */
  lemma BlockLoopsAgree(block: Json)
    ensures ListBlockText(block) == DictBlockText(block)
    ensures HasUnhashableType(block) <==> ListBlockText(block).Err?
    ensures !HasUnhashableType(block) ==> ListBlockText(block) == Ok(TextOf(block))
  {
  }

  /** In-order concatenation of the text of `blocks`, failing at the first
      block whose type is unhashable. */
  function JoinBlocks(blocks: seq<Json>, inList: bool): (r: Result<string, string>)
    ensures r.Err? <==> exists i :: 0 <= i < |blocks| && HasUnhashableType(blocks[i])
  {
    if |blocks| == 0 then Ok("")
    else
      BlockLoopsAgree(blocks[0]);
      var head :- if inList then ListBlockText(blocks[0]) else DictBlockText(blocks[0]);
      var tail :- JoinBlocks(blocks[1..], inList);
      Ok(head + tail)
  }

  /** Text of a message value: a string as is, `None` as "", a list of
      blocks or a dict whose `content` is a string or a list of blocks.
      Everything else yields "". */
  function ExtractContent(data: Json): (r: Result<string, string>)
    ensures data.JNull? || data.JBool? || data.JNum? ==> r == Ok("")
    ensures data.JStr? ==> r == Ok(data.s)
    ensures data.JArr? ==> (r.Err? <==> exists i :: 0 <= i < |data.items| && HasUnhashableType(data.items[i]))
    ensures data.JArr? && r.Ok? ==> r.value == Concat(data.items)
    ensures data.JObj? ==>
      var c := GetOr(data.fields, "content", JArr([]));
      && (c.JStr? ==> r == Ok(c.s))
      && (c.JArr? ==> (r.Err? <==> exists i :: 0 <= i < |c.items| && HasUnhashableType(c.items[i])))
      && (c.JArr? && r.Ok? ==> r.value == Concat(c.items))
      && (!c.JStr? && !c.JArr? ==> r == Ok(""))
  {
    match data
    case JNull => Ok("")
    case JStr(s) => Ok(s)
    case JArr(blocks) =>
      JoinBlocksIsConcat(blocks, true);
      JoinBlocks(blocks, true)
    case JObj(fields) =>
      (match GetOr(fields, "content", JArr([]))
       case JStr(s) => Ok(s)
       case JArr(blocks) =>
         JoinBlocksIsConcat(blocks, false);
         JoinBlocks(blocks, false)
       case _ => Ok(""))
    case _ => Ok("")
  }

  /** The blocks' texts, joined: the reference the extractor is held to. */
  function Concat(blocks: seq<Json>): string {
    if |blocks| == 0 then "" else TextOf(blocks[0]) + Concat(blocks[1..])
  }

  lemma {:induction false} JoinBlocksIsConcat(blocks: seq<Json>, inList: bool)
    ensures JoinBlocks(blocks, inList).Ok? ==> JoinBlocks(blocks, inList).value == Concat(blocks)
  {
    if |blocks| > 0 {
      BlockLoopsAgree(blocks[0]);
      JoinBlocksIsConcat(blocks[1..], inList);
    }
  }

  /** Both loops of the extractor return the same result on any list. */
  lemma {:induction false} JoinBlocksLoopsAgree(blocks: seq<Json>)
    ensures JoinBlocks(blocks, true) == JoinBlocks(blocks, false)
  {
    if |blocks| > 0 {
      BlockLoopsAgree(blocks[0]);
      JoinBlocksLoopsAgree(blocks[1..]);
    }
  }

  /** Extracting a block list split in two: it fails iff either part
      fails, and otherwise yields the two parts' texts joined. */
  lemma ExtractListAppend(a: seq<Json>, b: seq<Json>)
    ensures ExtractContent(JArr(a + b)).Err? <==> ExtractContent(JArr(a)).Err? || ExtractContent(JArr(b)).Err?
    ensures ExtractContent(JArr(a + b)).Ok? ==>
      ExtractContent(JArr(a + b)).value == ExtractContent(JArr(a)).value + ExtractContent(JArr(b)).value
  {
    ConcatAppend(a, b);
    assert forall i :: 0 <= i < |a| ==> (a + b)[i] == a[i];
    assert forall j :: 0 <= j < |b| ==> (a + b)[|a| + j] == b[j];
    if ExtractContent(JArr(a + b)).Err? {
      var i :| 0 <= i < |a + b| && HasUnhashableType((a + b)[i]);
      if i >= |a| {
        assert b[i - |a|] == (a + b)[i];
      }
    }
  }

  lemma {:induction false} ConcatAppend(a: seq<Json>, b: seq<Json>)
    ensures Concat(a + b) == Concat(a) + Concat(b)
  {
    if |a| == 0 {
      assert a + b == b;
    } else {
      assert (a + b)[1..] == a[1..] + b;
      ConcatAppend(a[1..], b);
    }
  }

  /** Characters removed by the cleaning regex: the ASCII controls except
      tab, line feed and carriage return, plus DEL. */
  predicate IsStrippedControl(c: char) {
    var n := c as int;
    n <= 8 || n == 11 || n == 12 || (14 <= n <= 31) || n == 127
  }

  predicate NoStrippedControl(s: string) {
    forall i :: 0 <= i < |s| ==> !IsStrippedControl(s[i])
  }

  function ControlCount(s: string): (n: nat)
    ensures n <= |s|
  {
    if |s| == 0 then 0 else (if IsStrippedControl(s[0]) then 1 else 0) + ControlCount(s[1..])
  }

  /** Deletes every stripped control character and keeps everything else in
      order: a subsequence, free of controls, shorter by their count. */
  function StripControl(s: string): (r: string)
    ensures NoStrippedControl(r)
    ensures IsSubsequence(r, s)
    ensures |r| == |s| - ControlCount(s)
  {
    if |s| == 0 then ""
    else
      var rest := StripControl(s[1..]);
      assert s == [s[0]] + s[1..];
      SubsequenceOfCons(rest, s[0], s[1..]);
      if IsStrippedControl(s[0]) then rest else [s[0]] + rest
  }

  lemma {:induction false} StripControlIdentity(s: string)
    ensures StripControl(s) == s <==> NoStrippedControl(s)
  {
    if |s| > 0 {
      StripControlIdentity(s[1..]);
      if IsStrippedControl(s[0]) {
        assert |StripControl(s)| < |s|;
      }
    }
  }

  /** Text made only of stripped characters cleans to nothing. */
  lemma {:induction false} StripOnlyControls(s: string)
    requires forall i :: 0 <= i < |s| ==> IsStrippedControl(s[i])
    ensures StripControl(s) == ""
  {
    if |s| > 0 {
      StripOnlyControls(s[1..]);
    }
  }

  lemma {:induction false} StripControlAppend(a: string, b: string)
    ensures StripControl(a + b) == StripControl(a) + StripControl(b)
  {
    if |a| == 0 {
      assert a + b == b;
    } else {
      assert (a + b)[1..] == a[1..] + b;
      StripControlAppend(a[1..], b);
    }
  }

  /** Python's `s[:n]`. */
  function Truncate(s: string, n: nat): (r: string)
    ensures |r| <= n && r <= s
    ensures |r| == Min(|s|, n)
    ensures |s| <= n ==> r == s
  {
    if |s| <= n then s else s[..n]
  }

  /** The stored form of raw message text: cut to `MaxContentLength`
      characters first, then stripped of control characters. */
  function Clean(raw: string): (r: string)
    ensures |r| <= MaxContentLength
    ensures NoStrippedControl(r)
    ensures IsSubsequence(r, raw)
    ensures IsSubsequence(r, Truncate(raw, MaxContentLength))
    ensures |r| == |Truncate(raw, MaxContentLength)| - ControlCount(Truncate(raw, MaxContentLength))
    ensures |raw| <= MaxContentLength && NoStrippedControl(raw) ==> r == raw
  {
    var cut := Truncate(raw, MaxContentLength);
    PrefixIsSubsequence(raw, |cut|);
    assert raw[..|cut|] == cut;
    StripControlIdentity(cut);
    SubsequenceLength(StripControl(cut), cut);
    SubsequenceTransitive(StripControl(cut), cut, raw);
    StripControl(cut)
  }
}
