/** The history of a conversation as the list of alternating turns that the model API accepts. */
module Conversation {
  import opened Text
  import opened Sequences

  datatype Role = User | Assistant

  datatype Turn = Turn(role: Role, content: string)

  datatype Message = Message(fromClient: bool, content: string)

  const GAP: string := "\n\n"

  // ---------- specification ----------

  function TurnOf(m: Message): Turn { Turn(if m.fromClient then User else Assistant, m.content) }

  /** The turns of the messages that have something to say. */
  function Spoken(history: seq<Message>): seq<Turn> {
    if history == [] then []
    else
      var n := |history| - 1;
      Spoken(history[..n]) + if IsBlank(history[n].content) then [] else [TurnOf(history[n])]
  }

  /** Adds a turn, merging it into the last one if that is of the same role. */
  function Add(turns: seq<Turn>, t: Turn): seq<Turn> {
    var n := |turns| - 1;
    if turns != [] && turns[n].role == t.role then turns[n := Turn(t.role, turns[n].content + GAP + t.content)]
    else turns + [t]
  }

  function Collapse(turns: seq<Turn>): seq<Turn> {
    if turns == [] then [] else Add(Collapse(turns[..|turns| - 1]), turns[|turns| - 1])
  }

  predicate Alternating(turns: seq<Turn>) {
    forall i :: 0 < i < |turns| ==> turns[i - 1].role != turns[i].role
  }

  /** Contents one after the other with a blank line between them. */
  function Wording(turns: seq<Turn>): string {
    if turns == [] then ""
    else if |turns| == 1 then turns[0].content
    else Wording(turns[..|turns| - 1]) + GAP + turns[|turns| - 1].content
  }

  // ---------- the two helpers ----------

  method CollapseSameRole(messages: seq<Turn>) returns (result: seq<Turn>)
    ensures result == Collapse(messages)
  {
    if messages == [] {
      return messages;
    }
    result := [messages[0]];
    CollapseSnoc(messages, 0);
    var i := 1;
    while i < |messages|
      invariant 1 <= i <= |messages| && result != []
      invariant result == Collapse(messages[..i])
    {
      var msg, last := messages[i], |result| - 1;
      CollapseSnoc(messages, i);
      if msg.role == result[last].role {
        result := result[last := Turn(msg.role, result[last].content + GAP + msg.content)];
      } else {
        result := result + [msg];
      }
      i := i + 1;
    }
    PrefixAll(messages);
  }

  lemma CollapseSnoc(turns: seq<Turn>, i: nat)
    requires i < |turns|
    ensures Collapse(turns[..i + 1]) == Add(Collapse(turns[..i]), turns[i])
  {
    assert turns[..i + 1][..i] == turns[..i];
  }

  method BuildMessageList(history: seq<Message>, userMessage: string) returns (messages: seq<Turn>)
    ensures messages == Add(Collapse(Spoken(history)), Turn(User, userMessage))
  {
    messages := [];
    var i := 0;
    while i < |history|
      invariant 0 <= i <= |history|
      invariant messages == Spoken(history[..i])
    {
      assert history[..i + 1][..i] == history[..i];
      if !IsBlank(history[i].content) {
        messages := messages + [TurnOf(history[i])];
      }
      i := i + 1;
    }
    PrefixAll(history);
    messages := CollapseSameRole(messages);
    var last := |messages| - 1;
    if messages != [] && messages[last].role == User {
      messages := messages[last := Turn(User, messages[last].content + GAP + userMessage)];
    } else {
      messages := messages + [Turn(User, userMessage)];
    }
  }

  // ---------- what the list is for ----------

  /** Merging a content into the last turn reads like a turn more. */
  lemma MergedReads(turns: seq<Turn>, t: Turn)
    requires turns != []
    ensures var n := |turns| - 1;
            Wording(turns[n := Turn(t.role, turns[n].content + GAP + t.content)]) == Wording(turns + [t])
  {
    var n := |turns| - 1;
    var merged := turns[n := Turn(t.role, turns[n].content + GAP + t.content)];
    assert (turns + [t])[..|turns|] == turns;
    assert merged[..n] == turns[..n];
    if n > 0 {
      var front, last := Wording(turns[..n]), turns[n].content;
      ConcatAssociative(front + GAP, last, GAP);
      ConcatAssociative(front + GAP, last + GAP, t.content);
      assert Wording(merged) == front + GAP + (last + GAP + t.content);
      assert Wording(turns + [t]) == front + GAP + last + GAP + t.content;
    }
  }

  lemma AddKeeps(turns: seq<Turn>, t: Turn)
    requires Alternating(turns)
    ensures Alternating(Add(turns, t)) && Add(turns, t) != []
    ensures Add(turns, t)[|Add(turns, t)| - 1].role == t.role
    ensures Wording(Add(turns, t)) == Wording(turns + [t])
  {
    if turns != [] {
      MergedReads(turns, t);
    }
  }

  lemma {:induction false} CollapseAlternates(turns: seq<Turn>)
    ensures Alternating(Collapse(turns)) && (Collapse(turns) == [] <==> turns == [])
    ensures Wording(Collapse(turns)) == Wording(turns)
  {
    if turns != [] {
      var n := |turns| - 1;
      CollapseAlternates(turns[..n]);
      AddKeeps(Collapse(turns[..n]), turns[n]);
      WordingCongruent(Collapse(turns[..n]), turns[..n], turns[n]);
      assert turns[..n] + [turns[n]] == turns;
    }
  }

  /** The text after one more turn depends only on the text before it, and on whether there was any turn. */
  lemma WordingCongruent(a: seq<Turn>, b: seq<Turn>, t: Turn)
    requires Wording(a) == Wording(b) && (a == [] <==> b == [])
    ensures Wording(a + [t]) == Wording(b + [t])
  {
    assert (a + [t])[..|a|] == a && (b + [t])[..|b|] == b;
  }

  /** Turns that already alternate stay as they are. */
  lemma {:induction false} AlternatingUnchanged(turns: seq<Turn>)
    requires Alternating(turns)
    ensures Collapse(turns) == turns
  {
    if turns != [] {
      AlternatingUnchanged(turns[..|turns| - 1]);
    }
  }

  lemma CollapseIdempotent(turns: seq<Turn>)
    ensures Collapse(Collapse(turns)) == Collapse(turns)
  {
    CollapseAlternates(turns);
    AlternatingUnchanged(Collapse(turns));
  }

  /**
    The list alternates, ends with the client's turn, and says exactly what the
    non-blank messages and the new one say, in order.
   */
  lemma MessageListIsFaithful(history: seq<Message>, userMessage: string)
    ensures var list := Add(Collapse(Spoken(history)), Turn(User, userMessage));
            && Alternating(list)
            && list != [] && list[|list| - 1].role == User
            && Wording(list) == Wording(Spoken(history) + [Turn(User, userMessage)])
  {
    var spoken, new_ := Spoken(history), Turn(User, userMessage);
    CollapseAlternates(spoken);
    AddKeeps(Collapse(spoken), new_);
    WordingCongruent(Collapse(spoken), spoken, new_);
  }

  // ---------- who said what ----------

  function OfRole(turns: seq<Turn>, role: Role): seq<Turn> {
    if turns == [] then []
    else
      var n := |turns| - 1;
      OfRole(turns[..n], role) + if turns[n].role == role then [turns[n]] else []
  }

  lemma OfRoleSnoc(turns: seq<Turn>, t: Turn, role: Role)
    ensures OfRole(turns + [t], role) == OfRole(turns, role) + if t.role == role then [t] else []
  {
    assert (turns + [t])[..|turns|] == turns;
  }

  lemma AddKeepsOthers(turns: seq<Turn>, t: Turn, role: Role)
    requires t.role != role
    ensures OfRole(Add(turns, t), role) == OfRole(turns, role)
  {
    var n := |turns| - 1;
    if turns != [] && turns[n].role == t.role {
      var merged := Turn(t.role, turns[n].content + GAP + t.content);
      assert Add(turns, t) == turns[..n] + [merged];
      OfRoleSnoc(turns[..n], merged, role);
    } else {
      OfRoleSnoc(turns, t, role);
    }
  }

  lemma AddKeepsSpeaker(turns: seq<Turn>, t: Turn)
    ensures Wording(OfRole(Add(turns, t), t.role)) == Wording(OfRole(turns, t.role) + [t])
    ensures OfRole(Add(turns, t), t.role) != []
  {
    var n := |turns| - 1;
    if turns != [] && turns[n].role == t.role {
      var merged, front := Turn(t.role, turns[n].content + GAP + t.content), OfRole(turns[..n], t.role);
      assert Add(turns, t) == turns[..n] + [merged];
      OfRoleSnoc(turns[..n], merged, t.role);
      MergedReads(front + [turns[n]], t);
      assert (front + [turns[n]])[|front| := merged] == front + [merged];
    } else {
      OfRoleSnoc(turns, t, t.role);
    }
  }

  /** Collapsing attributes no word to the other speaker: each role's contents read as before. */
  lemma {:induction false} CollapseKeepsSpeakers(turns: seq<Turn>, role: Role)
    ensures Wording(OfRole(Collapse(turns), role)) == Wording(OfRole(turns, role))
    ensures OfRole(Collapse(turns), role) == [] <==> OfRole(turns, role) == []
  {
    if turns != [] {
      var n := |turns| - 1;
      var front, t := Collapse(turns[..n]), turns[n];
      CollapseKeepsSpeakers(turns[..n], role);
      if t.role == role {
        AddKeepsSpeaker(front, t);
        WordingCongruent(OfRole(front, role), OfRole(turns[..n], role), t);
      } else {
        AddKeepsOthers(front, t, role);
        assert OfRole(turns, role) == OfRole(turns[..n], role);
      }
    }
  }

  // ---------- from the messages ----------

  /** What one side said in the stored messages, leaving out the blank ones. */
  function Said(history: seq<Message>, fromClient: bool): seq<string> {
    if history == [] then []
    else
      var m := history[0];
      (if m.fromClient == fromClient && Strip(m.content) != "" then [m.content] else [])
      + Said(history[1..], fromClient)
  }

  /** Texts with a blank line between them. */
  function Paragraphs(texts: seq<string>): string {
    if texts == [] then ""
    else if |texts| == 1 then texts[0]
    else Paragraphs(texts[..|texts| - 1]) + "\n\n" + texts[|texts| - 1]
  }

  function Contents(turns: seq<Turn>): seq<string> {
    if turns == [] then [] else Contents(turns[..|turns| - 1]) + [turns[|turns| - 1].content]
  }

  lemma {:induction false} WordingIsParagraphs(turns: seq<Turn>)
    ensures |Contents(turns)| == |turns| && Wording(turns) == Paragraphs(Contents(turns))
  {
    if turns != [] {
      var n := |turns| - 1;
      WordingIsParagraphs(turns[..n]);
      assert Contents(turns)[..n] == Contents(turns[..n]);
    }
  }

  lemma {:induction false} SaidSnoc(history: seq<Message>, m: Message, fromClient: bool)
    ensures Said(history + [m], fromClient)
         == Said(history, fromClient) + if m.fromClient == fromClient && Strip(m.content) != "" then [m.content] else []
  {
    if history == [] {
      assert history + [m] == [m] && [m][1..] == [];
    } else {
      assert (history + [m])[1..] == history[1..] + [m];
      SaidSnoc(history[1..], m, fromClient);
    }
  }

  lemma {:induction false} SpokenIsSaid(history: seq<Message>, role: Role)
    ensures Contents(OfRole(Spoken(history), role)) == Said(history, role == User)
  {
    if history != [] {
      var n := |history| - 1;
      var m := history[n];
      var front := OfRole(Spoken(history[..n]), role);
      SpokenIsSaid(history[..n], role);
      assert history == history[..n] + [m];
      SaidSnoc(history[..n], m, role == User);
      SpokenByRole(history, role);
      ContentsSnoc(front, TurnOf(m));
      var says := Strip(m.content) != "" && m.fromClient == (role == User);
      assert OfRole(Spoken(history), role) == if says then front + [TurnOf(m)] else front;
      assert Said(history, role == User) == if says then Contents(front) + [m.content] else Contents(front);
    }
  }

  lemma SpokenByRole(history: seq<Message>, role: Role)
    requires history != []
    ensures var n := |history| - 1;
            OfRole(Spoken(history), role) == OfRole(Spoken(history[..n]), role)
              + if Strip(history[n].content) != "" && history[n].fromClient == (role == User)
                then [TurnOf(history[n])] else []
  {
    var n := |history| - 1;
    var front := Spoken(history[..n]);
    BlankIsEmptied(history[n].content);
    OfRoleSnoc(front, TurnOf(history[n]), role);
    if IsBlank(history[n].content) {
      assert front + [] == front;
    } else {
      assert Spoken(history) == front + [TurnOf(history[n])];
    }
  }

  lemma ContentsSnoc(turns: seq<Turn>, t: Turn)
    ensures Contents(turns + [t]) == Contents(turns) + [t.content]
  {
    assert (turns + [t])[..|turns|] == turns;
  }

  /**
    In the list that is handed over, the user turns read like what the client said
    with the new message, and the assistant turns like what the business said.
   */
  lemma EveryoneSpeaksForThemselves(history: seq<Message>, userMessage: string)
    ensures var list := Add(Collapse(Spoken(history)), Turn(User, userMessage));
            && Wording(OfRole(list, User)) == Paragraphs(Said(history, true) + [userMessage])
            && Wording(OfRole(list, Assistant)) == Paragraphs(Said(history, false))
  {
    var front, t := Collapse(Spoken(history)), Turn(User, userMessage);
    CollapseKeepsSpeakers(Spoken(history), User);
    CollapseKeepsSpeakers(Spoken(history), Assistant);
    AddKeepsSpeaker(front, t);
    AddKeepsOthers(front, t, Assistant);
    WordingCongruent(OfRole(front, User), OfRole(Spoken(history), User), t);
    SpokenIsSaid(history, User);
    SpokenIsSaid(history, Assistant);
    ContentsSnoc(OfRole(Spoken(history), User), t);
    WordingIsParagraphs(OfRole(Spoken(history), User) + [t]);
    WordingIsParagraphs(OfRole(Spoken(history), Assistant));
  }
}
