/**
 * `textract.parsers.audio.Parser` as imperative code: `extract` and
 * `convert_to_wav` run against a `Host` that stands for everything outside
 * the parser -- the filesystem, the `sox` process, the recognition backends.
 * Each method is proved to do what `AudioSpec.Run` and `AudioSpec.Convert`
 * describe, and to leave the set of files as it found it.
 */
module Audio {
  import opened Wrappers
  import opened Exceptions
  import opened PathSplit
  import opened Speech
  import opened AudioSpec

  /**
   * The outside world: the files that exist, a record of every effect the
   * parser has on it, and the answers it gives (`oracle`).
   */
  class Host {
    const oracle: Oracle
    var files: set<string>
    ghost var log: seq<Event>

    constructor (oracle: Oracle, files: set<string>)
      ensures this.oracle == oracle && this.files == files && log == []
    {
      this.oracle := oracle;
      this.files := files;
      log := [];
    }

    /**
     * `ShellParser.temp_filename()`: the generator's base name, whose last
     * component is not all dots, so that `convert_to_wav` appending `.wav`
     * (line 67) always yields a name with the extension `.wav`.
     */
    method TempFilename() returns (name: string)
      requires oracle.Valid()
      ensures name == oracle.tempBase
      ensures StemHasNonDot(name) && IsWav(name + ".wav")
    {
      name := oracle.tempBase;
      WavSuffix(name);
    }

    /** `ShellParser.run`: the `sox` conversion of `source` into `target`. */
    method RunSox(source: string, target: string) returns (r: Result<(), Error>)
      modifies this
      ensures r.Ok? <==> oracle.soxStatus == 0
      ensures r.Err? ==> r.error == ShellError(source, target, oracle.soxStatus)
      ensures files == if r.Ok? then old(files) + {target} else old(files)
      ensures log == old(log) + [Shell(source, target)] + (if r.Ok? then [Create(target)] else [])
    {
      log := log + [Shell(source, target)];
      if oracle.soxStatus == 0 {
        files := files + {target};
        log := log + [Create(target)];
        r := Ok(());
      } else {
        r := Err(ShellError(source, target, oracle.soxStatus));
      }
    }

    /** `os.remove(path)`. */
    method Remove(path: string)
      modifies this
      ensures files == old(files) - {path}
      ensures log == old(log) + [Event.Remove(path)]
    {
      files := files - {path};
      log := log + [Event.Remove(path)];
    }

    /** `sr.WavFile(path)` and `Recognizer.record`: read the audio of `path`. */
    method Record(path: string)
      modifies this
      ensures files == old(files)
      ensures log == old(log) + [Load(path)]
    {
      log := log + [Load(path)];
    }

    /** `recognize_google` or `recognize_sphinx` on the recorded audio. */
    method Recognize(backend: Backend) returns (heard: Recognition)
      modifies this
      ensures heard == oracle.Heard(backend)
      ensures files == old(files)
      ensures log == old(log) + [Recognise(backend)]
    {
      log := log + [Recognise(backend)];
      heard := oracle.Heard(backend);
    }
  }

  class Parser {
    const host: Host

    constructor (host: Host)
      ensures this.host == host
    {
      this.host := host;
    }

    /**
     * `extract(filename, engine)`: the transcript or the exception of
     * `AudioSpec.Run`, with its effects appended to the host's log. The set of
     * files is the same afterwards; for a converted input this needs the
     * temp name to be fresh.
     */
    method Extract(filename: string, engine: Engine) returns (speech: Result<string, Error>)
      requires host.oracle.Valid()
      requires !IsWav(filename) ==> TempName(host.oracle) !in host.files
      modifies host
      decreases if IsWav(filename) then 0 else 1
      ensures speech == Run(filename, engine, host.oracle).result
      ensures host.log == old(host.log) + Run(filename, engine, host.oracle).log
      ensures host.files == old(host.files)
    {
      host.log := host.log + [Call(filename)];
      var (_, ext) := SplitExt(filename);
      if ext != ".wav" {
        var converted := ConvertToWav(filename);
        if converted.Err? {
          FailedRun(filename, engine, host.oracle);
          return Err(converted.error);
        }
        var temp := converted.value;
        ConvertedRun(filename, engine, host.oracle);
        WavRun(temp, engine, host.oracle);
        ghost var entered := host.log;
        assert entered == old(host.log) + [Call(filename), Shell(filename, temp), Create(temp)];
        // try:
        speech := Extract(temp, engine);
        // finally:
        host.Remove(temp);
        ConvertedLogAfter(old(host.log), filename, temp, WavLog(temp, engine));
        return speech;
      } else {
        WavRun(filename, engine, host.oracle);
        speech := ExtractWav(filename, engine);
      }
    }

    /**
     * The `.wav` branch of `extract`: read the audio, call the backend the
     * engine selects, turn the three recognition failures into an empty
     * transcript and append a newline.
     */
    method ExtractWav(filename: string, engine: Engine) returns (speech: Result<string, Error>)
      modifies host
      ensures speech == Transcribe(engine, host.oracle)
      ensures host.log == old(host.log) + [Load(filename)] + Recognitions(engine)
      ensures host.files == old(host.files)
    {
      host.Record(filename);
      var backend := Dispatch(engine);
      if backend.Err? {
        return Err(backend.error);
      }
      var heard := host.Recognize(backend.value);
      var text := "";
      match heard {
        case Text(s) => text := s;
        case LookupErr => text := "";
        case UnknownValue => text := "";
        case RequestErr => text := "";
        case Other => return Err(Uncaught);
      }
      text := text + "\n";
      speech := Ok(text);
    }

    /** `convert_to_wav(filename)`: `AudioSpec.Convert`, creating the temp file when `sox` succeeds. */
    method ConvertToWav(filename: string) returns (r: Result<string, Error>)
      requires host.oracle.Valid()
      modifies host
      ensures r == Convert(filename, host.oracle)
      ensures r.Ok? ==> IsWav(r.value)
      ensures host.files == if r.Ok? then old(host.files) + {r.value} else old(host.files)
      ensures host.log == old(host.log) + [Shell(filename, TempName(host.oracle))]
                          + (if r.Ok? then [Create(r.value)] else [])
    {
      var base := host.TempFilename();
      var temp := base + ".wav";
      var ran := host.RunSox(filename, temp);
      if ran.Err? {
        return Err(ran.error);
      }
      return Ok(temp);
    }
  }
}
