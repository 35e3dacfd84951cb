/** The port: the one gateway through which the workflow touches the outside
    world. Its state is the ordered log, the final-prompt slot and the file
    system; the production and the test (recording) implementation differ
    only in the file operations and in how the server is asked. */
module Ports {
  import opened Wrappers
  import opened Text
  import opened Shells

  type Path = string

  /** The files the process can see, by path, and the paths it may read but
      not open for writing. */
  datatype FileSystem = FileSystem(files: map<Path, string>, readOnly: set<Path>)

  /** Production performs file effects; Recording (the port the tests use)
      turns every port file operation into a successful no-op and answers the
      server call itself. */
  datatype Mode = Production | Recording

  datatype Port = Port(mode: Mode, logs: seq<string>, finalPrompt: Option<string>, fs: FileSystem)

  /** `Port::new_mutex`: no logs, no final prompt. */
  function NewPort(mode: Mode, fs: FileSystem): (p: Port)
    ensures p.logs == [] && p.finalPrompt.None?
  {
    Port(mode, [], None, fs)
  }

  /** A stage's outcome: the port after its effects, and its result. File
      effects made before a failure persist, so the port is kept either way. */
  datatype Step<T> = Step(port: Port, result: Result<T, Error>)

  /** `path` exists in `fs'` exactly when it exists in `fs`, with the same
      content. */
  ghost predicate Unchanged(fs: FileSystem, fs': FileSystem, path: Path)
  {
    && (path in fs.files <==> path in fs'.files)
    && (path in fs.files ==> fs'.files[path] == fs.files[path])
  }

  /** `fs'` differs from `fs` at most at the given paths. */
  ghost predicate FramedBy(fs: FileSystem, fs': FileSystem, paths: set<Path>)
  {
    && fs'.readOnly == fs.readOnly
    && forall q | q !in paths :: Unchanged(fs, fs', q)
  }

  /** Frames compose: two steps change at most the union of their paths. */
  lemma FramedTrans(fs: FileSystem, fs': FileSystem, fs'': FileSystem, a: set<Path>, b: set<Path>)
    requires FramedBy(fs, fs', a) && FramedBy(fs', fs'', b)
    ensures FramedBy(fs, fs'', a + b)
  {
    forall q | q !in a + b ensures Unchanged(fs, fs'', q) {
      assert Unchanged(fs, fs', q) && Unchanged(fs', fs'', q);
    }
  }

  /** Writing a file's own content back changes nothing. */
  lemma UpdateSame(files: map<Path, string>, path: Path, content: string)
    requires path in files && files[path] == content
    ensures files[path := content] == files
  {
  }

  /** A second write to a file supersedes the first. */
  lemma UpdateTwice(files: map<Path, string>, path: Path, first: string, second: string)
    ensures files[path := first][path := second] == files[path := second]
  {
  }

  /** Two file systems framed by `paths` that also agree on `paths` are the
      same. */
  lemma FramedEqual(fs: FileSystem, fs': FileSystem, paths: set<Path>)
    requires FramedBy(fs, fs', paths)
    requires forall q | q in paths :: Unchanged(fs, fs', q)
    ensures fs' == fs
  {
    forall q ensures q in fs'.files <==> q in fs.files {
      assert Unchanged(fs, fs', q);
    }
    forall q | q in fs.files ensures fs'.files[q] == fs.files[q] {
      assert Unchanged(fs, fs', q);
    }
    assert fs'.files == fs.files;
  }

  // ---------------------------------------------------------------------
  // Log and final prompt
  // ---------------------------------------------------------------------

  /** `log`: appends one message at the end of the log. */
  function Log(p: Port, message: string): (r: Port)
    ensures |r.logs| == |p.logs| + 1
    ensures r.logs[..|p.logs|] == p.logs && r.logs[|p.logs|] == message
    ensures r.finalPrompt == p.finalPrompt && r.fs == p.fs && r.mode == p.mode
  {
    p.(logs := p.logs + [message])
  }

  /** `set_final_prompt`: fills the slot, replacing any earlier value. */
  function SetFinalPrompt(p: Port, prompt: string): (r: Port)
    ensures r.finalPrompt == Some(prompt)
    ensures r.logs == p.logs && r.fs == p.fs && r.mode == p.mode
  {
    p.(finalPrompt := Some(prompt))
  }

  /** The literal the shell integration splits the output at. */
  const PromptSentinel: string := "hey-cli-prompt-start"

  /** `to_stdout_format`: the logs joined by newlines, then, when there is a
      final prompt, a newline, the sentinel line and the prompt. */
  function ToStdout(p: Port): (out: string)
    ensures StartsWith(out, Join(p.logs, "\n"))
    ensures p.finalPrompt.None? ==> out == Join(p.logs, "\n")
    ensures p.finalPrompt.Some? ==> EndsWith(out, "\n" + PromptSentinel + "\n" + p.finalPrompt.value)
    ensures p.finalPrompt.Some? ==> out == Join(p.logs, "\n") + "\n" + PromptSentinel + "\n" + p.finalPrompt.value
  {
    var logs := Join(p.logs, "\n");
    match p.finalPrompt
    case Some(prompt) => logs + ("\n" + PromptSentinel + "\n" + prompt)
    case None => logs
  }

  // ---------------------------------------------------------------------
  // File operations
  // ---------------------------------------------------------------------

  /** `overwrite_file`: the file's whole content becomes `content`, created if
      missing; a path that cannot be opened for writing fails. */
  function OverwriteFile(p: Port, path: Path, content: string): (r: Step<()>)
    ensures r.port.logs == p.logs && r.port.finalPrompt == p.finalPrompt && r.port.mode == p.mode
    ensures p.mode.Recording? ==> r == Step(p, Ok(()))
    ensures p.mode.Production? ==>
      (r.result.Ok? <==> path !in p.fs.readOnly)
    ensures p.mode.Production? && r.result.Ok? ==>
      && path in r.port.fs.files && r.port.fs.files[path] == content
      && FramedBy(p.fs, r.port.fs, {path})
    ensures r.result.Err? ==> r.port == p && r.result.error == Io(path, PermissionDenied)
  {
    match p.mode
    case Recording => Step(p, Ok(()))
    case Production =>
      if path in p.fs.readOnly then Step(p, Err(Io(path, PermissionDenied)))
      else Step(p.(fs := p.fs.(files := p.fs.files[path := content])), Ok(()))
  }

  /** The content of `path`, with a missing file read as empty. */
  function ContentOrEmpty(fs: FileSystem, path: Path): string
  {
    if path in fs.files then fs.files[path] else ""
  }

  /** `remove_matches_from_file_content`: a missing file is created empty,
      then every non-overlapping left-to-right occurrence of `pattern` is cut
      out of the content (see `Text.RemoveAllDeletesMatches`). */
  function RemoveMatchesFromFile(p: Port, path: Path, pattern: string): (r: Step<()>)
    ensures r.port.logs == p.logs && r.port.finalPrompt == p.finalPrompt && r.port.mode == p.mode
    ensures p.mode.Recording? ==> r == Step(p, Ok(()))
    ensures p.mode.Production? ==>
      (r.result.Ok? <==> path !in p.fs.readOnly)
    ensures p.mode.Production? && r.result.Ok? ==>
      && path in r.port.fs.files
      && r.port.fs.files[path] == RemoveAll(ContentOrEmpty(p.fs, path), pattern)
      && (path !in p.fs.files ==> r.port.fs.files[path] == "")
      && (!Contains(ContentOrEmpty(p.fs, path), pattern) ==> r.port.fs.files[path] == ContentOrEmpty(p.fs, path))
      && FramedBy(p.fs, r.port.fs, {path})
    ensures r.result.Err? ==> r.port == p && r.result.error == Io(path, PermissionDenied)
  {
    match p.mode
    case Recording => Step(p, Ok(()))
    case Production =>
      if path in p.fs.readOnly then Step(p, Err(Io(path, PermissionDenied)))
      else
        var content := RemoveAll(ContentOrEmpty(p.fs, path), pattern);
        Step(p.(fs := p.fs.(files := p.fs.files[path := content])), Ok(()))
  }

  /** `append_to_file`: a missing file is an error; otherwise `content` is
      added at the end, after a newline unless the file already ends with
      one, so that `content` starts on a line of its own. */
  function AppendToFile(p: Port, path: Path, content: string): (r: Step<()>)
    ensures r.port.logs == p.logs && r.port.finalPrompt == p.finalPrompt && r.port.mode == p.mode
    ensures p.mode.Recording? ==> r == Step(p, Ok(()))
    ensures p.mode.Production? && path !in p.fs.files ==> r == Step(p, Err(Io(path, NotFound)))
    ensures p.mode.Production? && path in p.fs.files ==>
      (r.result.Ok? <==> path !in p.fs.readOnly)
    ensures p.mode.Production? && r.result.Ok? ==>
      path in p.fs.files && path in r.port.fs.files
    ensures p.mode.Production? && r.result.Ok? && path in p.fs.files && path in r.port.fs.files ==>
      var before := p.fs.files[path];
      var after := r.port.fs.files[path];
      && StartsWith(after, before)
      && EndsWith(after, content)
      && |before| + |content| <= |after| <= |before| + 1 + |content|
      && EndsWith(after[..|after| - |content|], "\n")
      && (EndsWith(before, "\n") ==> after == before + content)
      && (!EndsWith(before, "\n") ==> after == before + "\n" + content)
      && FramedBy(p.fs, r.port.fs, {path})
    ensures r.result.Err? ==> r.port == p
  {
    match p.mode
    case Recording => Step(p, Ok(()))
    case Production =>
      if path !in p.fs.files then Step(p, Err(Io(path, NotFound)))
      else if path in p.fs.readOnly then Step(p, Err(Io(path, PermissionDenied)))
      else
        var before := p.fs.files[path];
        var after := before + (if EndsWith(before, "\n") then "" else "\n") + content;
        assert after[..|after| - |content|] == before + (if EndsWith(before, "\n") then "" else "\n");
        Step(p.(fs := p.fs.(files := p.fs.files[path := after])), Ok(()))
  }

  /** `std::fs::remove_file`, which the reset calls directly rather than
      through the port: it acts on the file system whatever the port's mode. */
  function DeleteFile(fs: FileSystem, path: Path): (r: Result<FileSystem, IoErrorKind>)
    ensures r.Ok? <==> path in fs.files && path !in fs.readOnly
    ensures r.Ok? ==> path !in r.value.files && FramedBy(fs, r.value, {path})
    ensures r.Err? && path !in fs.files ==> r.error == NotFound
    ensures r.Err? && path in fs.files ==> r.error == PermissionDenied
  {
    if path !in fs.files then Err(NotFound)
    else if path in fs.readOnly then Err(PermissionDenied)
    else Ok(fs.(files := fs.files - {path}))
  }

  /** `Path::join` of a relative path onto a directory: one `/` between
      them unless the directory is empty or already ends with one. */
  function JoinPath(dir: Path, relative: Path): Path
  {
    if |dir| == 0 || EndsWith(dir, "/") then dir + relative else dir + "/" + relative
  }

  /** A joined path is the directory, at most one `/`, then the relative
      path; a non-empty directory is always separated from it by a `/`. */
  lemma JoinPathShape(dir: Path, relative: Path)
    ensures var r := JoinPath(dir, relative);
      && StartsWith(r, dir) && EndsWith(r, relative)
      && |dir| <= |r| - |relative| <= |dir| + 1
      && (|dir| > 0 ==> |r| > |relative| && r[|r| - |relative| - 1] == '/')
  {
  }

  /** Joining different relative paths onto one directory gives different
      paths. */
  lemma JoinPathInjective(dir: Path, a: Path, b: Path)
    requires a != b
    ensures JoinPath(dir, a) != JoinPath(dir, b)
  {
    var d := if |dir| == 0 || EndsWith(dir, "/") then dir else dir + "/";
    assert JoinPath(dir, a) == d + a && JoinPath(dir, b) == d + b;
    assert (d + a)[|d|..] == a && (d + b)[|d|..] == b;
  }

  // ---------------------------------------------------------------------
  // The server
  // ---------------------------------------------------------------------

  /** The context sent with an ask: category -> (key -> value). */
  type Context = map<string, map<string, string>>

  datatype Request = Request(ask: string, context: Context)
  datatype CliPrompt = CliPrompt(value: string)
  datatype Response = Response(prompt: CliPrompt)

  /** The remote service, as an oracle: a response or a transport or decoding
      failure for each request. */
  type Server = Request -> Result<Response, Error>

  /** What the recording port answers: `echo "<ask>"`. */
  function EchoPrompt(ask: string): string
  {
    "echo \"" + ask + "\""
  }

  /** `ask_server_for_prompt`: the recording port echoes the ask; the
      production port returns what the server returns. */
  function AskServerForPrompt(p: Port, request: Request, server: Server): (r: Result<Response, Error>)
    ensures p.mode.Recording? ==> r == Ok(Response(CliPrompt(EchoPrompt(request.ask))))
    ensures p.mode.Production? ==> r == server(request)
  {
    match p.mode
    case Recording => Ok(Response(CliPrompt(EchoPrompt(request.ask))))
    case Production => server(request)
  }

  // ---------------------------------------------------------------------
  // The rest of the outside world
  // ---------------------------------------------------------------------

  /** What the process learns from outside the port: the crate version, the
      embedded assets, the home directory (`dirs::home_dir`) and what shell
      detection reports (`ShellName::detect`). */
  datatype Env = Env(cliVersion: string, assets: Assets, home: Option<Path>, detected: Result<ShellName, Error>)

  /** The error both the setup and the reset raise without a home directory. */
  const NoHomeDirectory: string := "Could not find home directory"
}
