/**
 The prompt `ai` sends to the text generator: the stored history rendered
 as numbered lines, a newline, the fixed persona instructions, the user text.
 */
module Prompt {
  import opened Wrappers
  import opened Strings
  import History

  /**
   The persona instructions the bot places between the history and the user
   text. The prompt functions below take the persona as a parameter, so that
   what they promise holds whatever its wording; the bot passes this text.
   */
  const Persona: string := "You are named as Ayush Dhiman. You are a 4th year indian college going student who is a nerd, loves food and prefers personal time & space over everything, except coding, movies and music. he is kind, and usually speaks softly. Try to answer like ayush, in a very casual human like way, who may sometimes be funny(like as in dad jokes) and reply to the given prompt in a very natural language and human like friendly way, just like a conversation between two best friends. Also ayush does not like to speak extra, so his replies are always concise, meaning-full, supportive and single ended answers. Don't mention useless stuff, until asked, he just replies to what is questioned and especially AVOIDS small talks or explaining/saying useless stuff that would go un-noticed: "

  /** Python truthiness of a history entry: neither NULL nor the empty string. */
  predicate Truthy(slot: History.Slot) {
    slot.Some? && slot.value != ""
  }

  /** One history line: `f"Conversation {k}: {conv}"`. */
  function Line(k: nat, conv: string): string {
    "Conversation " + NatToString(k) + ": " + conv
  }

  /**
   The list comprehension over `enumerate(history)`: one line per truthy
   entry, numbered by the entry's 1-based position, since the numbering is
   taken before the filter drops anything.
   */
  function Entries(h: seq<History.Slot>): (r: seq<string>)
    ensures |r| <= |h|
  {
    if |h| == 0 then []
    else
      var last := h[|h| - 1];
      Entries(h[..|h| - 1]) + (if Truthy(last) then [Line(|h|, last.value)] else [])
  }

  /** The 0-based positions of the truthy entries, in the order `enumerate` visits them. */
  function Kept(h: seq<History.Slot>): seq<nat>
  {
    if |h| == 0 then []
    else Kept(h[..|h| - 1]) + (if Truthy(h[|h| - 1]) then [|h| - 1] else [])
  }

  /**
   The kept positions are exactly the truthy entries' positions, each once,
   in ascending order.
   */
  lemma {:induction false} KeptSpec(h: seq<History.Slot>)
    ensures forall j :: 0 <= j < |Kept(h)| ==> Kept(h)[j] < |h| && Truthy(h[Kept(h)[j]])
    ensures forall i :: 0 <= i < |h| && Truthy(h[i]) ==> i in Kept(h)
    ensures forall j, j' :: 0 <= j < j' < |Kept(h)| ==> Kept(h)[j] < Kept(h)[j']
  {
    if |h| > 0 {
      var h' := h[..|h| - 1];
      KeptSpec(h');
      var ks', ks := Kept(h'), Kept(h);
      assert ks == ks' + (if Truthy(h[|h| - 1]) then [|h| - 1] else []);
      forall j | 0 <= j < |ks'| ensures ks[j] == ks'[j] && h[ks[j]] == h'[ks'[j]] {
      }
      forall i | 0 <= i < |h| - 1 && Truthy(h[i]) ensures i in ks {
        assert h'[i] == h[i];
        assert i in ks';
        var j :| 0 <= j < |ks'| && ks'[j] == i;
        assert ks[j] == i;
      }
    }
  }

  /**
   The history lines are exactly the kept entries in slot order, each
   numbered by its slot position (not by its rank among the kept ones).
   */
  lemma {:induction false} EntriesByPosition(h: seq<History.Slot>)
    ensures |Entries(h)| == |Kept(h)|
    ensures forall j :: 0 <= j < |Kept(h)| ==>
              && Kept(h)[j] < |h| && Truthy(h[Kept(h)[j]])
              && Entries(h)[j] == Line(Kept(h)[j] + 1, h[Kept(h)[j]].value)
  {
    if |h| > 0 {
      var h' := h[..|h| - 1];
      assert h == h' + [h[|h| - 1]];
      EntriesByPosition(h');
      EntriesSnoc(h', h[|h| - 1]);
    }
  }

  /** Adding a slot extends the kept positions and the lines in step. */
  lemma EntriesSnoc(h: seq<History.Slot>, last: History.Slot)
    requires |Entries(h)| == |Kept(h)|
    requires forall j :: 0 <= j < |Kept(h)| ==>
               && Kept(h)[j] < |h| && Truthy(h[Kept(h)[j]])
               && Entries(h)[j] == Line(Kept(h)[j] + 1, h[Kept(h)[j]].value)
    ensures var h2 := h + [last];
            && |Entries(h2)| == |Kept(h2)|
            && forall j :: 0 <= j < |Kept(h2)| ==>
                 && Kept(h2)[j] < |h2| && Truthy(h2[Kept(h2)[j]])
                 && Entries(h2)[j] == Line(Kept(h2)[j] + 1, h2[Kept(h2)[j]].value)
  {
    var h2 := h + [last];
    assert h2[..|h2| - 1] == h;
    var ks', es' := Kept(h), Entries(h);
    var ks, es := Kept(h2), Entries(h2);
    assert ks == ks' + (if Truthy(last) then [|h|] else []);
    assert es == es' + (if Truthy(last) then [Line(|h2|, last.value)] else []);
    forall j | 0 <= j < |ks|
      ensures ks[j] < |h2| && Truthy(h2[ks[j]]) && es[j] == Line(ks[j] + 1, h2[ks[j]].value)
    {
      if j < |ks'| {
        assert ks[j] == ks'[j] && es[j] == es'[j];
        assert h[ks'[j]] == h2[ks'[j]];
      }
    }
  }

  /** `"\n".join(...)` of the history lines. */
  function HistoryPrompt(h: seq<History.Slot>): string {
    Join(Entries(h), "\n")
  }

  /**
   The whole prompt: history, newline, persona, user text. It always ends
   with the user text, and the user text is recovered by dropping a prefix
   whose length depends on the history and the persona alone.
   */
  function FullPrompt(persona: string, text: string, h: seq<History.Slot>): (r: string)
    ensures |r| == |HistoryPrompt(h)| + 1 + |persona| + |text|
    ensures r[..|HistoryPrompt(h)|] == HistoryPrompt(h)
    ensures r[|HistoryPrompt(h)|] == '\n'
    ensures r[|HistoryPrompt(h)| + 1..|r| - |text|] == persona
    ensures r[|r| - |text|..] == text
  {
    HistoryPrompt(h) + "\n" + persona + text
  }

  /**
   Every truthy entry at 0-based position `i` appears in the history prompt
   as the line numbered `i + 1`; returns where it starts.
   */
  lemma PromptMentionsSlot(h: seq<History.Slot>, i: nat) returns (k: nat)
    requires i < |h| && Truthy(h[i])
    ensures var line := Line(i + 1, h[i].value);
            k + |line| <= |HistoryPrompt(h)| && HistoryPrompt(h)[k..k + |line|] == line
  {
    var j := SlotEntry(h, i);
    k := JoinHasElement(Entries(h), "\n", j);
  }

  /** The history line of the truthy entry at position `i`. */
  lemma SlotEntry(h: seq<History.Slot>, i: nat) returns (j: nat)
    requires i < |h| && Truthy(h[i])
    ensures j < |Entries(h)| && Entries(h)[j] == Line(i + 1, h[i].value)
  {
    KeptSpec(h);
    EntriesByPosition(h);
    assert i in Kept(h);
    j :| j < |Kept(h)| && Kept(h)[j] == i;
  }

  /** With no truthy entry (a new user, or an all-NULL row) the prompt starts with a bare newline. */
  lemma EmptyHistoryPrompt(persona: string, text: string, h: seq<History.Slot>)
    requires forall i :: 0 <= i < |h| ==> !Truthy(h[i])
    ensures FullPrompt(persona, text, h) == "\n" + persona + text
  {
    NoEntries(h);
    assert HistoryPrompt(h) == "";
  }

  /** The prompt the bot sends for a user without a row: a newline, its persona text, the user text. */
  lemma NewUserPrompt(text: string)
    ensures FullPrompt(Persona, text, []) == "\n" + Persona + text
  {
    EmptyHistoryPrompt(Persona, text, []);
  }

  /** Without a truthy entry there is no history line. */
  lemma {:induction false} NoEntries(h: seq<History.Slot>)
    requires forall i :: 0 <= i < |h| ==> !Truthy(h[i])
    ensures Entries(h) == []
  {
    if |h| > 0 {
      NoEntries(h[..|h| - 1]);
    }
  }

  /**
   The row a user has after two updates holds one exchange, in the fifth
   column, and it is presented as "Conversation 5", not "Conversation 1".
   */
  lemma SlotNumberNotRank(e: string)
    requires e != ""
    ensures HistoryPrompt([None, None, None, None, Some(e)]) == "Conversation 5: " + e
  {
    var h: seq<History.Slot> := [None, None, None, None, Some(e)];
    NoEntries(h[..4]);
    assert NatToString(5) == "5";
  }
}
