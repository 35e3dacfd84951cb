/** The closed set of shells the CLI knows, their names, the `Shell` the
    invoking process reports, and the setup-script version marker extracted
    from each shell's embedded setup-script asset. */
module Shells {
  import opened Wrappers
  import opened Text

  /** Iteration order is declaration order: fish, bash, zsh, power_shell. */
  datatype ShellName = Fish | Bash | Zsh | PowerShell

  /** Every shell, in the order `ShellName::iter()` yields them. */
  const AllShells: seq<ShellName> := [Fish, Bash, Zsh, PowerShell]

  /** The snake_case name a shell displays as. */
  function Name(n: ShellName): string
  {
    match n
    case Fish => "fish"
    case Bash => "bash"
    case Zsh => "zsh"
    case PowerShell => "power_shell"
  }

  /** What `ShellName::from_str` reports for a name it does not know. */
  const VariantNotFound: string := "Matching variant not found"

  /** `ShellName::from_str`: exact, case-sensitive match on the snake_case
      names. */
  function ParseShellName(s: string): (r: Result<ShellName, Error>)
    ensures r.Ok? ==> Name(r.value) == s
    ensures r.Err? ==> r.error == Msg(VariantNotFound)
  {
    if s == "fish" then Ok(Fish)
    else if s == "bash" then Ok(Bash)
    else if s == "zsh" then Ok(Zsh)
    else if s == "power_shell" then Ok(PowerShell)
    else Err(Msg(VariantNotFound))
  }

  /** Parsing a displayed name gives the shell back; parsing accepts exactly
      the displayed names. */
  lemma ShellNameRoundTrip(n: ShellName, s: string)
    ensures ParseShellName(Name(n)) == Ok(n)
    ensures ParseShellName(s).Ok? <==> exists m: ShellName :: Name(m) == s
  {
    if ParseShellName(s).Ok? {
      assert Name(ParseShellName(s).value) == s;
    }
  }

  /** `AllShells` lists every shell exactly once. */
  lemma AllShellsEnumerates()
    ensures |AllShells| == 4
    ensures forall n: ShellName :: n in AllShells
    ensures forall i, j | 0 <= i < j < |AllShells| :: AllShells[i] != AllShells[j]
    ensures [Name(AllShells[0]), Name(AllShells[1]), Name(AllShells[2]), Name(AllShells[3])]
         == ["fish", "bash", "zsh", "power_shell"]
  {
    forall n: ShellName ensures n in AllShells {
      match n
      case Fish => assert AllShells[0] == n;
      case Bash => assert AllShells[1] == n;
      case Zsh => assert AllShells[2] == n;
      case PowerShell => assert AllShells[3] == n;
    }
  }

  /** The shell the process runs inside and the version of the setup script
      that shell reports as installed. */
  datatype Shell = Shell(setupVersion: string, name: ShellName)

  /** The embedded setup-script assets (their text is an input of the model). */
  datatype Assets = Assets(fish: string, zsh: string)

  /** What a failed `Option::unwrap` panics with. */
  const UnwrapNone: string := "called `Option::unwrap()` on a `None` value"

  /** `ShellName::setup_script_content`: only fish and zsh have an asset. */
  function SetupScriptContent(n: ShellName, assets: Assets): (r: Result<string, Error>)
    ensures r.Ok? <==> n in {Fish, Zsh}
    ensures n == Fish ==> r == Ok(assets.fish)
    ensures n == Zsh ==> r == Ok(assets.zsh)
    ensures r.Err? ==> r.error.Panic?
  {
    match n
    case Fish => Ok(assets.fish)
    case Zsh => Ok(assets.zsh)
    case _ => Err(Panic("not yet implemented: implement setup_script_content for " + Name(n)))
  }

  const FishVersionMarker: string := "set hey_setup_version"
  const ZshVersionMarker: string := "local hey_setup_version="

  /** The panic message when an asset has no version-marker line. */
  function MissingVersionMessage(n: ShellName): string
  {
    "Could not find setup version for " + Name(n)
  }

  /** The fish rule: the last whitespace-separated field of the first line
      that contains `set hey_setup_version`. */
  function FishSetupVersion(asset: string): (r: Result<string, Error>)
    ensures r.Err? <==> forall k | 0 <= k < |Lines(asset)| :: !Contains(Lines(asset)[k], FishVersionMarker)
    ensures r.Err? ==> r.error == Panic(MissingVersionMessage(Fish))
    ensures r.Ok? ==> exists k | 0 <= k < |Lines(asset)| ::
      && Contains(Lines(asset)[k], FishVersionMarker)
      && (forall j | 0 <= j < k :: !Contains(Lines(asset)[j], FishVersionMarker))
      && LastField(Lines(asset)[k]) == Some(r.value)
  {
    match FirstContaining(Lines(asset), FishVersionMarker)
    case None => Err(Panic(MissingVersionMessage(Fish)))
    case Some(line) =>
      FieldInMarkerLine(line);
      Ok(LastField(line).value)
  }

  /** A line holding the fish marker has a non-whitespace field. */
  lemma FieldInMarkerLine(line: string)
    requires Contains(line, FishVersionMarker)
    ensures LastField(line).Some?
  {
    var i := FindFirst(line, FishVersionMarker).value;
    FindFirstSpec(line, FishVersionMarker);
    OccursChar(line, FishVersionMarker, i, 0);
    assert !IsWhitespace(line[i]);
  }

  /** The zsh rule: the second `"`-separated piece of the first line that
      contains `local hey_setup_version=` (the text between its first two
      quotes, or up to the end of the line when it has only one quote). */
  function ZshSetupVersion(asset: string): (r: Result<string, Error>)
    ensures (forall k | 0 <= k < |Lines(asset)| :: !Contains(Lines(asset)[k], ZshVersionMarker))
        ==> r == Err(Panic(MissingVersionMessage(Zsh)))
    ensures r.Ok? ==> exists k | 0 <= k < |Lines(asset)| ::
      && Contains(Lines(asset)[k], ZshVersionMarker)
      && (forall j | 0 <= j < k :: !Contains(Lines(asset)[j], ZshVersionMarker))
      && |Split(Lines(asset)[k], "\"")| >= 2
      && Split(Lines(asset)[k], "\"")[1] == r.value
    ensures r.Ok? ==> '"' !in r.value
    ensures r.Ok? <==> exists k :: FirstHolding(Lines(asset), ZshVersionMarker, k) && |Split(Lines(asset)[k], "\"")| >= 2
    ensures (exists k :: FirstHolding(Lines(asset), ZshVersionMarker, k) && |Split(Lines(asset)[k], "\"")| < 2)
        ==> r == Err(Panic(UnwrapNone))
  {
    ZshFirstMarkerLine(asset);
    match FirstContaining(Lines(asset), ZshVersionMarker)
    case None => Err(Panic(MissingVersionMessage(Zsh)))
    case Some(line) =>
      var parts := Split(line, "\"");
      if |parts| >= 2 then
        SplitPiecesMatchFree(line, "\"");
        NotContainsChar(parts[1], '"');
        Ok(parts[1])
      else Err(Panic(UnwrapNone))
  }

  /** Whenever some line is the first to hold the zsh marker, it is the line
      the search finds. */
  lemma ZshFirstMarkerLine(asset: string)
    ensures forall k | FirstHolding(Lines(asset), ZshVersionMarker, k) ::
      FirstContaining(Lines(asset), ZshVersionMarker) == Some(Lines(asset)[k])
  {
    forall k | FirstHolding(Lines(asset), ZshVersionMarker, k)
      ensures FirstContaining(Lines(asset), ZshVersionMarker) == Some(Lines(asset)[k])
    {
      FirstHoldingFound(Lines(asset), ZshVersionMarker, k);
    }
  }

  /** `Shell::expected_setup_version`: the version marker of the asset of the
      given shell; a missing marker or a shell without an asset panics. */
  function ExpectedSetupVersion(n: ShellName, assets: Assets): (r: Result<string, Error>)
    ensures n == Fish ==> r == FishSetupVersion(assets.fish)
    ensures n == Zsh ==> r == ZshSetupVersion(assets.zsh)
    ensures n in {Bash, PowerShell} ==> r.Err? && r.error.Panic?
  {
    match n
    case Fish => FishSetupVersion(assets.fish)
    case Zsh => ZshSetupVersion(assets.zsh)
    case _ => Err(Panic("not yet implemented: implement expected_setup_version for " + Name(n)))
  }
}
