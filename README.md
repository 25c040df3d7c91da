# textract audio parser, modelled in Dafny

This project models the audio parser of textract, `textract/parsers/audio.py`.
The parser takes an audio file and an optional engine name, and returns the
recognised speech as text. If the file name does not have the extension
`.wav` exactly, `Parser.extract` first converts the file with `sox` into a
fresh temporary `.wav` file. It then calls itself once on that file and removes
the file in a `finally` clause. On a `.wav` file it reads the audio and picks a
recognition backend (Google or Sphinx) from the engine name. Three kinds of
recognition failure become an empty transcript, and a newline is appended to
whatever text is returned.

Modules (one file each):

- `Wrappers` (`wrappers.dfy`): `Option` (Python `None`) and `Result` (a return value or a raised exception).
- `Exceptions` (`exceptions.dfy`): `UnknownMethod(engine)`, `ShellError(source, target, exitCode)`, and `Uncaught` for any other backend exception.
- `PathSplit` (`path_split.dfy`): POSIX `os.path.splitext` and the `.wav` test of line 25.
- `Speech` (`speech.dfy`): engine dispatch (lines 38-43) and the `except` clauses (lines 44-49).
- `AudioSpec` (`audio_spec.dfy`): `Run`, a pure function. It gives the result of `extract` (a transcript or an exception) and the ordered log of its effects on the outside world: entering `extract`, running `sox`, creating or removing a file, loading audio, calling a backend. The lemmas about `Run` state the properties of `extract`.
- `Audio` (`audio.dfy`): the parser as imperative code. `Host` is a class that stands for the outside world: a mutable set of files, a ghost log of effects, and fixed answers. `Parser.Extract`, `Parser.ExtractWav` and `Parser.ConvertToWav` are methods over it. `Parser.Extract` is proved to return `Run`'s result, to append exactly `Run`'s log, and to leave the set of files unchanged. `Parser.ExtractWav` is proved to return `Transcribe`'s result and to change no file. `Parser.ConvertToWav` is proved to return `Convert`'s result, to append the `sox` run (and the creation of the file on success), and to add exactly the temp file on success and nothing on failure.

The outside world is a value `Oracle(tempBase, soxStatus, google, sphinx)`:

- `tempBase` is the name `temp_filename()` returns.
- `soxStatus` is the exit status of the `sox` run.
- `google` and `sphinx` are what each backend does with the audio: returns `Text(s)`, or raises `LookupError` (or a subclass of it such as `KeyError` or `IndexError`), `UnknownValueError`, `RequestError` or another exception.

`Oracle.Valid()` requires the last path component of `tempBase` to contain a
character other than a dot. `PathSplit.WavSuffix` proves that this is exactly
the condition under which `'<tempBase>.wav'` splits to the extension `.wav`.

Three consequences of the code's order of operations, which the model keeps:

- A non-`.wav` input is converted first (line 26), and the engine is checked only inside the recursive call (lines 38-43). So a failing `sox` gives `ShellError` whatever the engine (`ConversionFailurePropagates`). With a successful conversion, the `UnknownMethod` error comes after the temp file exists, and the file is still removed (`UnknownEngineRaises`). On a `.wav` input the audio is read before the engine is checked.
- `**kwargs` only reaches the recursive `extract` call (line 28) and never a backend.
- Every returned transcript has passed the newline append of line 52, so it is never the empty string (`TranscriptEndsInNewline`).

## Model

| member | source | states |
|---|---|---|
| PathSplit.RFindIsLast | textract/parsers/audio.py:24 | the `rfind` that `splitext` uses returns the index of the last occurrence of the character, or -1 when none occurs |
| PathSplit.SplitExtParts | textract/parsers/audio.py:24 | `splitext` gives `(root, ext)` with `root + ext` equal to the input; `ext` is empty or a dot followed by no further dot or slash; and `ext` is non-empty exactly when some non-dot character lies between the last `/` and the last `.` (the split is at the last dot of the last component, leading dots ignored) |
| PathSplit.IsWavExactly | textract/parsers/audio.py:24-25 | a name takes the `.wav` branch exactly when it ends in `.wav` and the rest of its last component is not all dots (both directions) |
| PathSplit.WavSuffix | textract/parsers/audio.py:67 | `'<base>.wav'` has extension `.wav` exactly when the last component of `base` has a non-dot character (both directions) |
| PathSplit.UpperCaseIsNotWav | textract/parsers/audio.py:25 | the test is case-sensitive: a name ending in `.WAV` never counts as `.wav` |
| Speech.Dispatch | textract/parsers/audio.py:38-43 | `None`, `''` and `'google'` select Google and nothing else does; `'sphinx'` selects Sphinx; every other value is `UnknownMethod(engine)` |
| AudioSpec.Convert | textract/parsers/audio.py:56-69 | `convert_to_wav` returns `'<temp_filename()>.wav'` exactly when `sox` exits 0, and that name always has the `.wav` extension; otherwise it raises `ShellError` with the source, the target and the exit status |
| AudioSpec.ConvertedRun | textract/parsers/audio.py:25-30 | a successful conversion creates the temp file, recurses on it (taking the `.wav` branch), removes it, and returns the recursive call's result |
| AudioSpec.WavInputNotConverted | textract/parsers/audio.py:24-35 | a `.wav` input starts with loading the audio; no `sox` run, no file created and none removed; the backend calls are exactly those the dispatch selects |
| AudioSpec.TempRemovedExactlyOnce | textract/parsers/audio.py:26-30 | a converted input runs `sox` once, creates exactly one file (the temp file), removes exactly that file exactly once, and the removal is the last effect, for any engine and any backend outcome |
| AudioSpec.ConversionFailurePropagates | textract/parsers/audio.py:26-30 | when `sox` fails the result is `ShellError`, for any engine; nothing is created, removed or recognised |
| AudioSpec.DepthAtMostOne | textract/parsers/audio.py:25-28 | `extract` is entered once on a `.wav` input or a failed conversion, and twice otherwise (on the input, then on the temp file); every entry after the first is on a `.wav` name |
| AudioSpec.ResultOfExtract | textract/parsers/audio.py:20-54 | the result is the `ShellError` of a failed conversion, and otherwise the transcription of the (possibly converted) file; the recursive result is passed through unchanged |
| AudioSpec.BackendCalledAtMostOnce | textract/parsers/audio.py:37-43 | at most one backend is called: the dispatched one, unless the engine is unknown or the conversion failed |
| AudioSpec.UnknownEngineRaises | textract/parsers/audio.py:38-43 | an unknown engine raises `UnknownMethod(engine)` and calls no backend; the `except` clauses do not catch it; a converted temp file is still removed |
| AudioSpec.RecognitionFailureGivesNewline | textract/parsers/audio.py:44-52 | `LookupError`, `UnknownValueError` and `RequestError` from the backend give exactly `"\n"` |
| AudioSpec.TextGetsOneNewline | textract/parsers/audio.py:39-54 | backend text `s` gives `s + "\n"`, also for a converted input, with no second newline |
| AudioSpec.OtherBackendErrorPropagates | textract/parsers/audio.py:37-49 | any other backend exception is not caught and escapes `extract` |
| AudioSpec.TranscriptEndsInNewline | textract/parsers/audio.py:51-54 | every transcript `extract` returns is non-empty and ends in a newline |
| AudioSpec.NoTempLeftBehind | textract/parsers/audio.py:26-30 | replaying the effects of `extract` on a filesystem where the temp name is fresh gives back the same set of files |
| Audio.Host.TempFilename | textract/parsers/audio.py:67 | `temp_filename()` returns the generator's base name, whose last component is not all dots, so the name `convert_to_wav` builds from it by appending `.wav` always has the extension `.wav` |
| Audio.Host.RunSox | textract/parsers/audio.py:68 | `run` creates the target file and succeeds when `sox` exits 0, and raises `ShellError` with no file created otherwise |
| Audio.Host.Remove | textract/parsers/audio.py:30 | `os.remove` takes the path out of the set of files and logs the removal |
| Audio.Host.Record | textract/parsers/audio.py:34-35 | reading the audio changes no file |
| Audio.Host.Recognize | textract/parsers/audio.py:39-41 | a backend call returns what that backend does with the audio, and changes no file |
| Audio.Parser.Extract | textract/parsers/audio.py:20-54 | `extract` returns exactly `Run`'s result, appends exactly `Run`'s effects to the log, and leaves the set of files as it found it |
| Audio.Parser.ExtractWav | textract/parsers/audio.py:32-52 | the `.wav` branch reads the audio, then calls the backend the engine selects (or none), and returns that backend's text plus a newline; the three caught failures give `"\n"`, and an unknown engine or any other backend exception escapes; no file changes |
| Audio.Parser.ConvertToWav | textract/parsers/audio.py:56-69 | `convert_to_wav` returns `Convert`'s result, a `.wav` name on success; it adds that file on success and leaves the files unchanged on failure |

## Left out

- The `sox` process and its command string (lines 64-68): the formatting and quoting of the command and the execution of the process are not modelled. The conversion is only "exit status 0 creates the target file, any other status raises `ShellError`".
- A failed `sox` run is modelled as leaving no file behind; a partial output file is not modelled.
- `ShellParser.temp_filename` and `ShellParser.run` are not part of this model. The name the generator returns is an input, and its freshness is a precondition of `Parser.Extract` for non-`.wav` inputs.
- WAV decoding (`sr.WavFile`, `Recognizer.record`, lines 34-35) and the recognisers (`recognize_google`, `recognize_sphinx`, lines 39-41) are opaque library and network calls. Each backend's behaviour is one fixed outcome in the oracle. Exceptions raised while reading the audio file are not modelled.
- If `os.remove` fails, Python's `finally` replaces the original outcome with the removal error. This is not modelled: removal always succeeds.
- `**kwargs` is only forwarded to the recursive `extract` and reaches no backend, so it is left out.
- `os.path.splitext` is modelled for POSIX paths only. Windows separators and drive letters, and byte-string file names, are not modelled.
- Concurrency between parser instances is not modelled: the source has no locking and shares only the temp-file namespace.
