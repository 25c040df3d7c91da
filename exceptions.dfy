/** The exceptions that can leave `Parser.extract`. */
module Exceptions {
  import opened Wrappers

  datatype Error =
      /** `UnknownMethod(engine)`: the engine selector is not one the parser knows. */
    | UnknownMethod(engine: Option<string>)
      /** `ShellError`: the `sox` conversion of `source` into `target` exited with a non-zero status. */
    | ShellError(source: string, target: string, exitCode: int)
      /** Any other exception a recognition backend raises; the parser does not catch it. */
    | Uncaught
}
