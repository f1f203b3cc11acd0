/**
 The conversation window fed back to the examiner: the whole session up to a cap, then the oldest
 turns dropped a block at a time so that the prompt stays append-only between cuts.
 */
module ConversationHistory {
  import opened Text

  const HISTORY_MAX_TURNS: nat := 16
  const HISTORY_TRIM_BLOCK: nat := 8

  datatype Turn = Turn(transcript: string, replyText: string)

  datatype Msg = Msg(role: string, content: string)

  /** A transcript that is empty once stripped: an opener turn, with nothing said by the learner. */
  predicate Blank(transcript: string) {
    forall c :: c in transcript ==> IsSpace(c)
  }

  function Cut(n: nat): nat {
    if n <= HISTORY_MAX_TURNS then 0
    else ((n - HISTORY_MAX_TURNS - 1) / HISTORY_TRIM_BLOCK + 1) * HISTORY_TRIM_BLOCK
  }

  function Messages(turns: seq<Turn>): seq<Msg> {
    if turns == [] then []
    else
      var last := turns[|turns| - 1];
      Messages(turns[..|turns| - 1]) + Said(last)
  }

  /** A turn's messages; one whose transcript is blank has only the reply. */
  function Said(turn: Turn): seq<Msg> {
    (if Blank(turn.transcript) then [] else [Msg("user", turn.transcript)]) + [Msg("assistant", turn.replyText)]
  }

  lemma MessagesStep(front: seq<Turn>, last: Turn)
    ensures Messages(front + [last]) == Messages(front) + Said(last)
  {
    assert (front + [last])[..|front|] == front;
  }

  /** What the examiner is given after the turns of a session. */
  function Window(turns: seq<Turn>): seq<Msg> {
    CutIsWithin(|turns|);
    Messages(turns[Cut(|turns|)..])
  }

  method RecentHistory(turns: seq<Turn>) returns (msgs: seq<Msg>)
    ensures msgs == Window(turns)
  {
    var n: nat := |turns|;
    CutIsWithin(n);
    var cut: nat := 0;
    if n > HISTORY_MAX_TURNS {
      cut := ((n - HISTORY_MAX_TURNS - 1) / HISTORY_TRIM_BLOCK + 1) * HISTORY_TRIM_BLOCK;
    }
    var rows := turns[cut..];
    msgs := [];
    for i := 0 to |rows|
      invariant msgs == Messages(rows[..i])
    {
      assert rows[..i + 1][..i] == rows[..i];
      if !Blank(rows[i].transcript) {
        msgs := msgs + [Msg("user", rows[i].transcript)];
      }
      msgs := msgs + [Msg("assistant", rows[i].replyText)];
    }
    assert rows[..|rows|] == rows;
  }

  /** The whole of a conversation up to the cap, and from then on the latest 9 to 16 turns. */
  lemma CutIsWithin(n: nat)
    ensures Cut(n) <= n
    ensures n <= 16 ==> Cut(n) == 0
    ensures n > 16 ==> 9 <= n - Cut(n) <= 16
  {
  }

  predicate Breaks(n: nat) {
    n >= 17 && n % 8 == 1
  }

  /** The cut moves with the turns 17, 25, 33 and so on, and with no other. */
  lemma CutMovesIff(n: nat)
    ensures Cut(n + 1) != Cut(n) <==> Breaks(n + 1)
    ensures Cut(n) <= Cut(n + 1)
  {
  }

  lemma {:induction false} MessagesAppend(a: seq<Turn>, b: seq<Turn>)
    ensures Messages(a + b) == Messages(a) + Messages(b)
  {
    if b == [] {
      assert a + b == a;
    } else {
      var front, last := b[..|b| - 1], b[|b| - 1];
      MessagesAppend(a, front);
      SplitAtLast(a, b);
      hide Messages, Said;
      MessagesStep(a + front, last);
      MessagesStep(front, last);
      Associate(Messages(a), Messages(front), Said(last));
    }
  }

  lemma SplitAtLast(a: seq<Turn>, b: seq<Turn>)
    requires b != []
    ensures b == b[..|b| - 1] + [b[|b| - 1]]
    ensures a + b == a + b[..|b| - 1] + [b[|b| - 1]]
  {
  }

  lemma Associate(x: seq<Msg>, y: seq<Msg>, z: seq<Msg>)
    ensures x + y + z == x + (y + z)
  {
  }

  ghost predicate DistinctReplies(turns: seq<Turn>) {
    forall i, j :: 0 <= i < j < |turns| ==> turns[i].replyText != turns[j].replyText
  }

  /** The replies of the assistant, in order. */
  function Replies(msgs: seq<Msg>): seq<string> {
    if msgs == [] then []
    else (if msgs[0].role == "assistant" then [msgs[0].content] else []) + Replies(msgs[1..])
  }

  lemma {:induction false} RepliesAppend(a: seq<Msg>, b: seq<Msg>)
    ensures Replies(a + b) == Replies(a) + Replies(b)
  {
    if a == [] {
      assert a + b == b;
    } else {
      assert (a + b)[1..] == a[1..] + b;
      RepliesAppend(a[1..], b);
    }
  }

  function ReplyTexts(turns: seq<Turn>): (texts: seq<string>)
    ensures |texts| == |turns| && forall i :: 0 <= i < |turns| ==> texts[i] == turns[i].replyText
  {
    seq(|turns|, i requires 0 <= i < |turns| => turns[i].replyText)
  }

  lemma RepliesOfTurn(turn: Turn)
    ensures Replies(Said(turn)) == [turn.replyText]
  {
    var reply := Msg("assistant", turn.replyText);
    assert Replies([reply]) == [turn.replyText] + Replies([reply][1..]);
    if !Blank(turn.transcript) {
      assert Said(turn)[1..] == [reply];
      assert "user" != "assistant" by { assert "user"[0] != "assistant"[0]; }
    } else {
      assert Said(turn) == [reply];
    }
  }

  lemma {:induction false} RepliesOfTurns(turns: seq<Turn>)
    ensures Replies(Messages(turns)) == ReplyTexts(turns)
  {
    if turns != [] {
      var before, last := turns[..|turns| - 1], turns[|turns| - 1];
      hide Replies, Said;
      RepliesOfTurns(before);
      RepliesOfTurn(last);
      RepliesAppend(Messages(before), Said(last));
      assert ReplyTexts(turns) == ReplyTexts(before) + [last.replyText];
    }
  }

  lemma PrefixSharesFirstReply(a: seq<Turn>, b: seq<Turn>)
    requires a != [] && b != [] && Messages(a) <= Messages(b)
    ensures a[0].replyText == b[0].replyText
  {
    hide Messages;
    var rest := Messages(b)[|Messages(a)|..];
    assert Messages(b) == Messages(a) + rest;
    RepliesAppend(Messages(a), rest);
    RepliesOfTurns(a);
    RepliesOfTurns(b);
  }

  /** While the cut stays, one more turn only appends to the prompt. */
  lemma PromptIsAppendOnly(turns: seq<Turn>, next: Turn)
    requires !Breaks(|turns| + 1)
    ensures Window(turns) <= Window(turns + [next])
  {
    hide Messages, Cut;
    var n, more := |turns|, turns + [next];
    CutIsWithin(n);
    CutMovesIff(n);
    assert more[Cut(n + 1)..] == turns[Cut(n)..] + [next];
    MessagesAppend(turns[Cut(n)..], [next]);
  }

  /** When it moves, the old prompt really is no prefix of the new one, if replies tell turns apart. */
  lemma MovedCutBreaksPrompt(turns: seq<Turn>, next: Turn)
    requires Breaks(|turns| + 1) && DistinctReplies(turns + [next])
    ensures !(Window(turns) <= Window(turns + [next]))
  {
    var n, more := |turns|, turns + [next];
    CutIsWithin(n);
    CutIsWithin(n + 1);
    CutMovesIff(n);
    hide Messages, Cut;
    var i, j := Cut(n), Cut(n + 1);
    assert i < j <= n;
    var before, after := turns[i..], more[j..];
    assert before[0] == more[i] && after[0] == more[j];
    if Window(turns) <= Window(more) {
      PrefixSharesFirstReply(before, after);
    }
  }

  /** So of any eight consecutive turns at most one breaks the prompt prefix. */
  lemma OneBreakInEight(n: nat, i: nat, j: nat)
    requires i < j < 8 && Breaks(n + i)
    ensures !Breaks(n + j)
  {
  }

  // ----- What the examiner reads -----

  /** The turns a prompt tells: each reply ends one, with what the learner said before it. */
  function ReadBack(msgs: seq<Msg>, said: string): seq<Turn> {
    if msgs == [] then []
    else if msgs[0].role == "user" then ReadBack(msgs[1..], msgs[0].content)
    else [Turn(said, msgs[0].content)] + ReadBack(msgs[1..], "")
  }

  /** Turns as they are told: a blank utterance is none. */
  function Heard(turns: seq<Turn>): seq<Turn> {
    if turns == [] then []
    else [Turn(if Blank(turns[0].transcript) then "" else turns[0].transcript, turns[0].replyText)] + Heard(turns[1..])
  }

  lemma SaidReadsBack(turn: Turn, rest: seq<Msg>)
    ensures ReadBack(Said(turn) + rest, "")
         == [Turn(if Blank(turn.transcript) then "" else turn.transcript, turn.replyText)] + ReadBack(rest, "")
  {
    var msgs, reply := Said(turn) + rest, Msg("assistant", turn.replyText);
    assert reply.role != "user" by { assert "assistant"[0] != "user"[0]; }
    if Blank(turn.transcript) {
      assert msgs == [reply] + rest && msgs[1..] == rest;
    } else {
      var user := Msg("user", turn.transcript);
      assert msgs == [user] + ([reply] + rest) && msgs[1..] == [reply] + rest && ([reply] + rest)[1..] == rest;
      assert ReadBack([reply] + rest, turn.transcript) == [Turn(turn.transcript, turn.replyText)] + ReadBack(rest, "");
    }
  }

  lemma {:induction false} MessagesReadBack(turns: seq<Turn>)
    ensures ReadBack(Messages(turns), "") == Heard(turns)
  {
    if turns != [] {
      var first, rest := turns[0], turns[1..];
      assert turns == [first] + rest && [] + [first] == [first];
      hide ReadBack, Said, Messages;
      MessagesAppend([first], rest);
      OneTurn(first);
      SaidReadsBack(first, Messages(rest));
      MessagesReadBack(rest);
    } else {
      assert Messages(turns) == [];
    }
  }

  lemma OneTurn(turn: Turn)
    ensures Messages([turn]) == Said(turn)
  {
    MessagesStep([], turn);
    assert [] + [turn] == [turn] && Messages([]) == [];
    assert [] + Said(turn) == Said(turn);
  }

  /** The prompt tells the latest turns in order, every reply and every utterance that is not blank. */
  lemma WindowTellsTheLatestTurns(turns: seq<Turn>) returns (k: nat)
    ensures k <= |turns| && ReadBack(Window(turns), "") == Heard(turns[|turns| - k..])
    ensures if |turns| <= 16 then k == |turns| else 9 <= k <= 16
  {
    CutIsWithin(|turns|);
    k := |turns| - Cut(|turns|);
    MessagesReadBack(turns[Cut(|turns|)..]);
  }
}
