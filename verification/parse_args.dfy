/** The argument decision: the parsed flags are classified into exactly one
    of reset, print version, an internal sub-query, or the normal flow. It
    never touches the port. */
module ParseArgs {
  import opened Wrappers
  import opened Text
  import opened Shells
  import opened WhatToDo

  /** The flags after command-line parsing; `ask` holds the positional words. */
  datatype Args = Args(
    version: bool,
    reset: bool,
    getStdout: bool,
    getPrompt: bool,
    shellName: Option<string>,
    setupVersion: Option<string>,
    ask: seq<string>)

  /** No flags and no words: what `ParseArgs::default()` gives. */
  const NoArgs: Args := Args(false, false, false, false, None, None, [])

  /** The reported shell: present only when both its name and its setup
      version were given; a given pair whose name is not a known shell is an
      error. */
  function ReportedShell(a: Args): (r: Result<Option<Shell>, Error>)
    ensures r.Err? <==> a.shellName.Some? && a.setupVersion.Some? && ParseShellName(a.shellName.value).Err?
    ensures r.Err? ==> r.error == Msg(VariantNotFound)
    ensures r.Ok? ==> (r.value.Some? <==> a.shellName.Some? && a.setupVersion.Some?)
    ensures r.Ok? && r.value.Some? ==>
      && r.value.value.setupVersion == a.setupVersion.value
      && Name(r.value.value.name) == a.shellName.value
  {
    match (a.shellName, a.setupVersion)
    case (Some(name), Some(version)) =>
      (match ParseShellName(name)
       case Ok(n) => Ok(Some(Shell(version, n)))
       case Err(e) => Err(e))
    case _ => Ok(None)
  }

  /** How the version flag shows a reported shell: `<name>@<setup version>`. */
  function DisplayShell(s: Shell): string
  {
    Name(s.name) + "@" + s.setupVersion
  }

  /** The positional words joined by single spaces. */
  function JoinedAsk(a: Args): (ask: string)
    ensures |a.ask| == 0 ==> ask == ""
    ensures |a.ask| > 0 ==> StartsWith(ask, a.ask[0])
  {
    Join(a.ask, " ")
  }

  /** `ParseArgs::next`. The shell is built first, so a bad shell name fails
      whatever the other flags say; then reset beats version, version beats
      the internal queries, get-stdout beats get-prompt, and the normal flow
      is what is left. */
  function Next(a: Args, cliVersion: string): (r: Result<AfterParseArgs, Error>)
    ensures r.Err? <==> ReportedShell(a).Err?
    ensures r.Err? ==> r.error == Msg(VariantNotFound)
    ensures r.Ok? && a.reset ==> r.value == DoReset
    ensures r.Ok? && !a.reset && a.version ==>
      && r.value.DoPrintVersion?
      && r.value.cliVersion == cliVersion
      && (r.value.setupVersion.Some? <==> a.shellName.Some? && a.setupVersion.Some?)
      && (r.value.setupVersion.Some? ==>
            r.value.setupVersion.value == a.shellName.value + "@" + a.setupVersion.value)
    ensures r.Ok? && !a.reset && !a.version && a.getStdout ==>
      r.value == DoInternal(Join(a.ask, " "), GetStdout)
    ensures r.Ok? && !a.reset && !a.version && !a.getStdout && a.getPrompt ==>
      r.value == DoInternal(Join(a.ask, " "), GetPrompt)
    ensures r.Ok? && !a.reset && !a.version && !a.getStdout && !a.getPrompt ==>
      && r.value.DoCheckSetup?
      && r.value.checkSetup.ask == Join(a.ask, " ")
      && (r.value.checkSetup.shell.Some? <==> a.shellName.Some? && a.setupVersion.Some?)
      && (r.value.checkSetup.shell.Some? ==>
            && Name(r.value.checkSetup.shell.value.name) == a.shellName.value
            && r.value.checkSetup.shell.value.setupVersion == a.setupVersion.value)
  {
    match ReportedShell(a)
    case Err(e) => Err(e)
    case Ok(shell) =>
      if a.reset then Ok(DoReset)
      else if a.version then
        Ok(DoPrintVersion(cliVersion, match shell case Some(s) => Some(DisplayShell(s)) case None => None))
      else
        var ask := JoinedAsk(a);
        if a.getStdout then Ok(DoInternal(ask, GetStdout))
        else if a.getPrompt then Ok(DoInternal(ask, GetPrompt))
        else Ok(DoCheckSetup(CheckSetupState(shell, ask)))
  }

  /** The joined ask splits back into the words when no word holds a
      space: joining loses nothing. */
  lemma {:induction false} AskWordsRecovered(words: seq<string>)
    requires |words| > 0
    requires forall k | 0 <= k < |words| :: !Contains(words[k], " ")
    ensures Split(Join(words, " "), " ") == words
  {
    if |words| == 1 {
      assert Join(words, " ") == words[0];
    } else {
      var rest := words[1..];
      AskWordsRecovered(rest);
      assert !Contains(words[0], " ");
      JoinCons(words[0], rest, " ");
      assert [words[0]] + rest == words;
      assert Join(words, " ") == words[0] + " " + Join(rest, " ");
      SplitAfterWord(words[0], Join(rest, " "));
    }
  }

  /** Splitting `w + " " + t` at spaces, when `w` has no space, gives `w`
      first and then the pieces of `t`. */
  lemma SplitAfterWord(w: string, t: string)
    requires !Contains(w, " ")
    ensures Split(w + " " + t, " ") == [w] + Split(t, " ")
  {
    var s := w + " " + t;
    assert OccursAt(s, " ", |w|) by {
      assert s[|w|..|w| + 1] == " ";
    }
    forall j | 0 <= j < |w| ensures !OccursAt(s, " ", j) {
      assert s[j..j + 1] == w[j..j + 1];
      Absent(w, " ", j);
    }
    FirstOccurrence(s, " ", |w|);
    SplitStep(s, " ", |w|);
    assert s[..|w|] == w;
    assert s[|w| + 1..] == t;
  }
}
