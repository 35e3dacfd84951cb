/** Ask validation: an ask is a single line of at most 100 bytes. */
module CheckAsk {
  import opened Wrappers
  import opened Text
  import opened WhatToDo
  import GenerateContext

  /** The longest ask accepted, in bytes of its UTF-8 encoding. */
  const MaxAskLength: nat := 100

  const NewLineNotAllowed: string := "Invalid ask: new line character is not allowed"

  function MaxLengthReached(): string
  {
    "Invalid ask: max length of " + NatToString(MaxAskLength) + " characters reached"
  }

  /** `CheckAsk::next`: the newline test comes first, so an ask with a
      newline fails with that message whatever its length. Validation never
      uses the port. */
  function Next(st: CheckAskState): (r: Result<GenerateContextState, Error>)
    ensures r.Ok? <==> '\n' !in st.ask && Utf8Length(st.ask) <= MaxAskLength
    ensures '\n' in st.ask ==> r == Err(Msg(NewLineNotAllowed))
    ensures '\n' !in st.ask && Utf8Length(st.ask) > MaxAskLength ==> r == Err(Msg(MaxLengthReached()))
    ensures r.Ok? ==> r.value.ask == st.ask && r.value.context == map[]
  {
    NoNewLine(st.ask);
    if Contains(st.ask, "\n") then
      Err(Msg(NewLineNotAllowed))
    else if Utf8Length(st.ask) > MaxAskLength then
      Err(Msg(MaxLengthReached()))
    else
      Ok(GenerateContext.New(st.ask))
  }

  /** `contains("\n")` and membership of the newline character agree. */
  lemma NoNewLine(s: string)
    ensures Contains(s, "\n") <==> '\n' in s
  {
    if '\n' in s {
      var i :| 0 <= i < |s| && s[i] == '\n';
      CharContained(s, i);
    } else {
      NotContainsCharConverse(s);
    }
  }

  lemma NotContainsCharConverse(s: string)
    requires '\n' !in s
    ensures !Contains(s, "\n")
  {
    forall j: nat ensures !OccursAt(s, "\n", j) {
      if j + 1 <= |s| {
        assert s[j..j + 1] == [s[j]];
      }
    }
    NoOccurrence(s, "\n");
  }

  /** The length limit is inclusive, and an ASCII ask is measured in
      characters: exactly 100 is accepted, 101 is not. */
  lemma LengthBoundary(s: string)
    requires '\n' !in s
    requires forall i | 0 <= i < |s| :: s[i] as int < 0x80
    ensures Next(CheckAskState(s)).Ok? <==> |s| <= 100
  {
  }

  /** The limit message names the limit. */
  lemma MaxLengthMessage()
    ensures MaxLengthReached() == "Invalid ask: max length of 100 characters reached"
  {
  }
}
