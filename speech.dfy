/**
 * The recognition step of `Parser.extract`: choosing a backend from the engine
 * selector and turning what the backend did into a transcript or an error.
 */
module Speech {
  import opened Wrappers
  import opened Exceptions

  /** The `engine` argument: Python `None` or a string. */
  type Engine = Option<string>

  datatype Backend = Google | Sphinx

  /** What a call to `recognize_google` or `recognize_sphinx` did. */
  datatype Recognition =
    | Text(text: string)   // returned a transcript
    | LookupErr            // raised LookupError or a subclass (KeyError, IndexError, ...)
    | UnknownValue         // raised speech_recognition.UnknownValueError
    | RequestErr           // raised speech_recognition.RequestError
    | Other                // raised anything else

  /**
   * The engine test of lines 38-43: `None`, `''` and `'google'` select Google,
   * `'sphinx'` selects Sphinx, and anything else is `UnknownMethod(engine)`.
   */
  function Dispatch(engine: Engine): (r: Result<Backend, Error>)
    ensures r == Ok(Google) <==> engine in {None, Some(""), Some("google")}
    ensures r == Ok(Sphinx) <==> engine == Some("sphinx")
    ensures r.Err? <==> engine !in {None, Some(""), Some("google"), Some("sphinx")}
    ensures r.Err? ==> r.error == UnknownMethod(engine)
  {
    if engine == Some("google") || engine == None || engine == Some("") then Ok(Google)
    else if engine == Some("sphinx") then Ok(Sphinx)
    else Err(UnknownMethod(engine))
  }

  /**
   * The `except` clauses of lines 44-49: the three recognition failures become
   * the empty transcript, any other exception passes through.
   */
  function Caught(heard: Recognition): Result<string, Error>
  {
    match heard
    case Text(s) => Ok(s)
    case LookupErr => Ok("")
    case UnknownValue => Ok("")
    case RequestErr => Ok("")
    case Other => Err(Uncaught)
  }
}
