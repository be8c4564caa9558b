/** The two passes `parse_session_file` runs over the parsed messages to
    drop conversational turns that were cancelled or are still open. */
module TurnFilter {
  import opened Results
  import opened Sequences
  import opened Transcript

  /** The first message is a user turn the user abandoned: a user message
      that is not the last one and is not answered by the next message. */
  predicate CancelledHead(ms: seq<Msg>)
    requires |ms| > 0
  {
    ms[0].role == User && |ms| >= 2 && ms[1].role != Assistant
  }

  /** Every user message but the last is answered by the next message. */
  predicate NoCancelledTurn(ms: seq<Msg>) {
    forall j :: 0 <= j < |ms| - 1 && ms[j].role == User ==> ms[j + 1].role == Assistant
  }

  function CancelledCount(ms: seq<Msg>): nat {
    if |ms| == 0 then 0 else (if CancelledHead(ms) then 1 else 0) + CancelledCount(ms[1..])
  }

  /** Incomplete-turn pass: assistant messages are kept; a user message is
      kept iff the message right after it (in the input) is an assistant
      message or it is the last message. */
  function DropCancelled(ms: seq<Msg>): (r: seq<Msg>)
    ensures IsSubsequence(r, ms)
    ensures |r| == |ms| - CancelledCount(ms)
    ensures CountRole(r, Assistant) == CountRole(ms, Assistant)
    ensures |ms| > 0 && ms[0].role == Assistant ==> |r| > 0 && r[0] == ms[0]
  {
    if |ms| == 0 then []
    else
      var rest := DropCancelled(ms[1..]);
      assert ms == [ms[0]] + ms[1..];
      SubsequenceOfCons(rest, ms[0], ms[1..]);
      if CancelledHead(ms) then rest
      else
        assert ([ms[0]] + rest)[1..] == rest;
        [ms[0]] + rest
  }

  lemma {:induction false} DropCancelledLeavesNoCancelledTurn(ms: seq<Msg>)
    ensures NoCancelledTurn(DropCancelled(ms))
  {
    if |ms| > 0 {
      DropCancelledLeavesNoCancelledTurn(ms[1..]);
      var rest := DropCancelled(ms[1..]);
      if !CancelledHead(ms) && ms[0].role == User && |ms| >= 2 {
        assert rest[0] == ms[1];
      }
      var r := DropCancelled(ms);
      forall j | 0 <= j < |r| - 1 && r[j].role == User
        ensures r[j + 1].role == Assistant
      {
        if !CancelledHead(ms) && j > 0 {
          assert r[j] == rest[j - 1] && r[j + 1] == rest[j];
        }
      }
    }
  }

  /** The pass changes a sequence iff it has a cancelled turn, so running
      it again changes nothing. */
  lemma {:induction false} DropCancelledFixpoint(ms: seq<Msg>)
    ensures DropCancelled(ms) == ms <==> NoCancelledTurn(ms)
    ensures DropCancelled(DropCancelled(ms)) == DropCancelled(ms)
  {
    DropCancelledLeavesNoCancelledTurn(ms);
    if NoCancelledTurn(ms) {
      NoCancelledTurnKeepsAll(ms);
    }
    NoCancelledTurnKeepsAll(DropCancelled(ms));
  }

  lemma {:induction false} NoCancelledTurnKeepsAll(ms: seq<Msg>)
    requires NoCancelledTurn(ms)
    ensures DropCancelled(ms) == ms
  {
    if |ms| > 0 {
      assert NoCancelledTurn(ms[1..]) by {
        forall j | 0 <= j < |ms[1..]| - 1 && ms[1..][j].role == User
          ensures ms[1..][j + 1].role == Assistant
        {
          assert ms[j + 1] == ms[1..][j];
        }
      }
      NoCancelledTurnKeepsAll(ms[1..]);
      assert !CancelledHead(ms);
      assert ms == [ms[0]] + ms[1..];
    }
  }

  /** Whether the message at position `i` survives the incomplete-turn
      pass, decided as the source's indexed loop decides it: assistant
      messages stay, and a user message stays iff it is the last message or
      the message after it is an assistant message. */
  predicate KeptAt(ms: seq<Msg>, i: nat)
    requires i < |ms|
  {
    ms[i].role == Assistant || i == |ms| - 1 || ms[i + 1].role == Assistant
  }

  /** The messages from position `i` on that `KeptAt` keeps, in order: the
      indexed loop of the source, written as a recursion over the index. */
  function KeptFrom(ms: seq<Msg>, i: nat): (r: seq<Msg>)
    requires i <= |ms|
    ensures |r| <= |ms| - i
    decreases |ms| - i
  {
    if i == |ms| then [] else (if KeptAt(ms, i) then [ms[i]] else []) + KeptFrom(ms, i + 1)
  }

  /** The incomplete-turn pass keeps exactly the positions `KeptAt` keeps. */
  lemma DropCancelledIsIndexedFilter(ms: seq<Msg>)
    ensures DropCancelled(ms) == KeptFrom(ms, 0)
  {
    DropCancelledFrom(ms, 0);
    assert ms[0..] == ms;
  }

  lemma {:induction false} DropCancelledFrom(ms: seq<Msg>, i: nat)
    requires i <= |ms|
    ensures DropCancelled(ms[i..]) == KeptFrom(ms, i)
    decreases |ms| - i
  {
    if i < |ms| {
      DropCancelledFrom(ms, i + 1);
      var tail := ms[i..];
      assert tail[0] == ms[i] && tail[1..] == ms[i + 1..];
      assert CancelledHead(tail) <==> !KeptAt(ms, i);
    }
  }

  /** Of two user messages in a row before an answer, only the second (the
      one the answer follows) survives. */
  lemma RetriedQuestionKeepsLastAttempt(u1: Msg, u2: Msg, a: Msg)
    requires u1.role == User && u2.role == User && a.role == Assistant
    ensures DropCancelled([u1, u2, a]) == [u2, a]
  {
    DropCancelledIsIndexedFilter([u1, u2, a]);
    assert KeptFrom([u1, u2, a], 3) == [];
    assert KeptFrom([u1, u2, a], 2) == [a];
    assert KeptFrom([u1, u2, a], 1) == [u2, a];
  }

  /** Index of the last user message, scanning from the end. */
  function LastUserIndex(ms: seq<Msg>): (r: Option<nat>)
    ensures r.Some? ==> r.value < |ms| && ms[r.value].role == User
    ensures r.Some? ==> forall j :: r.value < j < |ms| ==> ms[j].role == Assistant
    ensures r.None? ==> forall j :: 0 <= j < |ms| ==> ms[j].role == Assistant
  {
    if |ms| == 0 then None
    else if ms[|ms| - 1].role == User then Some(|ms| - 1)
    else
      var front := ms[..|ms| - 1];
      assert forall j :: 0 <= j < |front| ==> front[j] == ms[j];
      assert ms[|ms| - 1].role == Assistant;
      assert ms == front + [ms[|ms| - 1]];
      LastUserIndex(front)
  }

  /** Last-turn pass: everything strictly before the last user message; the
      input unchanged when it has no user message. */
  function DropLastTurn(ms: seq<Msg>): (r: seq<Msg>)
    ensures r <= ms
    ensures (exists j :: 0 <= j < |ms| && ms[j].role == User) ==>
      && |r| < |ms|
      && ms[|r|].role == User
      && forall j :: |r| < j < |ms| ==> ms[j].role == Assistant
    ensures (forall j :: 0 <= j < |ms| ==> ms[j].role == Assistant) ==> r == ms
  {
    match LastUserIndex(ms)
    case None => ms
    case Some(i) => ms[..i]
  }

  /** The cut is made at the last user message even when an assistant reply
      follows it: a final complete exchange is dropped as a whole. */
  lemma DropLastTurnDropsAnsweredExchange(ms: seq<Msg>)
    requires |ms| >= 2 && ms[|ms| - 2].role == User && ms[|ms| - 1].role == Assistant
    ensures DropLastTurn(ms) == ms[..|ms| - 2]
  {
    assert LastUserIndex(ms) == LastUserIndex(ms[..|ms| - 1]);
    assert ms[..|ms| - 1][|ms| - 2] == ms[|ms| - 2];
  }
}
