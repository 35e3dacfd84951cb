/** Option and Result, the two failure-carrying shapes the CLI uses, and the
    CLI's error values. */
module Wrappers {

  datatype Option<+T> = None | Some(value: T)

  datatype Result<+T, +E> = Ok(value: T) | Err(error: E)

  /** The kind of an operating-system I/O failure the model distinguishes. */
  datatype IoErrorKind = NotFound | PermissionDenied

  /** Every way a stage of the CLI can fail.
      - Msg: an `anyhow!` error carrying its exact message;
      - Io: an I/O error raised by a file operation on `path`;
      - Panic: a `panic!`, `todo!` or failed `unwrap`, which aborts the process. */
  datatype Error =
    | Msg(text: string)
    | Io(path: string, kind: IoErrorKind)
    | Panic(text: string)

  /** The way the operating system renders an I/O error (Linux wording).
      The texts differ from their first character on, so a rendered error
      tells the kinds apart. */
  function IoErrorText(kind: IoErrorKind): (text: string)
    ensures |text| > 0 && (text[0] == 'N' <==> kind == NotFound)
  {
    match kind
    case NotFound => "No such file or directory (os error 2)"
    case PermissionDenied => "Permission denied (os error 13)"
  }
}
