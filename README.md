# MeloTTS OpenAI-compatible speech API — a Dafny model

This project models the core of `melotts_api.py`, a small FastAPI service. The service puts the
MeloTTS text-to-speech engines behind an OpenAI-style `/v1/audio/speech` endpoint. The model covers:

- the fixed voice table `VOICE_TO_LANG`, which maps ten OpenAI-style voice names to six MeloTTS
  language codes (`config.dfy`);
- start-up configuration:
  - `MELOTTS_DEVICE` normalisation (`auto`, `gpu`, anything else);
  - `MELOTTS_MODELS` parsing (case-folded, comma-split, stripped, then intersected with the valid
    languages).
  These are modelled with Python's `lower`, `upper`, `split` and `strip` written out in `pystr.dfy`.
- the model-loading loop, which tolerates failures, and the list of served voices `ACTIVE_VOICES`
  (`registry.dfy`);
- the `/v1/models` listing (`registry.dfy`);
- `create_speech` (`speech.dfy`, `handler.dfy`):
  - request validation and its three 400 errors;
  - speaker-key resolution with its fallback to the first speaker;
  - the call into the engine;
  - the temporary-file lifecycle. The file is removed by a background task after a successful
    response, or at once in the 500 path.
- The temporary directory is a class whose live set the handler changes in place (`tempfiles.dfy`).

Python's dictionaries keep insertion order, and that order decides both the order of
`ACTIVE_VOICES` and the speaker used by the fallback. So a dict is modelled as an association list
(`dict.dfy`).

The TTS library and CUDA detection are parameters:

- a `Loader` gives the outcome of building and `eval()`-ing an engine for a language;
- a `Synthesizer` gives the outcome of `tts_to_file`;
- `cudaAvailable` is a boolean.

## Model

| member | source | states |
|---|---|---|
| `Config.VoiceTableWellFormed` | melotts_api.py:17-28 | the ten voice names of the table are pairwise distinct, so every lookup by voice has one answer |
| `Config.ValidLangsAreTableValues` | melotts_api.py:43 | the valid languages are exactly the set of values of the voice table: EN, ES, FR, ZH, JP, KR |
| `Config.Device` | melotts_api.py:31-35 | the chosen device is always in lower case |
| `Config.DeviceChoice` | melotts_api.py:31-35 | "auto" in any case, or an unset variable, gives "cuda" when CUDA is available and "cpu" otherwise; "gpu" in any case gives "cuda"; any other setting is kept lower-cased |
| `Config.DeviceIdempotent` | melotts_api.py:31-35 | feeding the chosen device back as the setting chooses the same device |
| `Config.LangsToLoad` | melotts_api.py:37-44 | the languages to load are always a subset of the valid languages, whatever the variable holds |
| `Config.LangsToLoadAll` | melotts_api.py:37-39 | an unset variable, or "all" in any letter case, loads every valid language |
| `Config.LangsToLoadPieces` | melotts_api.py:40-44 | otherwise a language is loaded iff it is valid and equals a stripped, upper-cased comma-separated piece of the setting |
| `Config.LangsToLoadSingle` | melotts_api.py:40-44 | a setting without a comma (and not "all") loads just its stripped upper-cased form, when that is a valid language |
| `Config.LangsToLoadPaddedAll` | melotts_api.py:37-44 | "all" surrounded by whitespace is not the "all" keyword: it loads no language at all |
| `PyStr.Lower` | melotts_api.py:31 | lower-casing keeps the length and maps every character through the ASCII lower-case mapping |
| `PyStr.Upper` | melotts_api.py:37 | upper-casing keeps the length and maps every character through the ASCII upper-case mapping |
| `PyStr.UpperIsAll` | melotts_api.py:37-38 | the upper-cased setting equals "ALL" iff each of its characters is the same letter as in "all", in either case |
| `PyStr.Strip` | melotts_api.py:41 | the stripped string is a slice of the input with only whitespace cut from both ends, and it neither begins nor ends with whitespace |
| `PyStr.StripPadded` | melotts_api.py:41 | stripping whitespace padding off a core that starts and ends with non-space gives back that core |
| `PyStr.Split` | melotts_api.py:41 | splitting on a separator gives one more piece than there are separators, and no piece contains the separator |
| `PyStr.JoinSplit` | melotts_api.py:41 | joining the pieces of a split with the separator gives back the original string |
| `PyStr.SplitJoin` | melotts_api.py:41 | splitting a join of separator-free pieces gives back the pieces |
| `Dict.Get` | melotts_api.py:82-88 | a dictionary lookup finds a value iff the key is present; on a dict with distinct keys it finds the value stored under that key |
| `Registry.Loaded` | melotts_api.py:47-56 | the registry holds exactly the candidate languages whose engine could be constructed, even when `eval()` then failed |
| `Registry.LoadModels` | melotts_api.py:47-56 | the loop over the candidates, in any order, builds the registry `Loaded` describes, and each entry is the engine the library built for that language on that device |
| `Registry.LoadedIsolated` | melotts_api.py:48-56 | whether a language is in the registry depends only on its own load attempt; this holds by the type of `Loader`, while the `except` at line 55 that keeps the loop going after a failure is what `Registry.LoadModels` proves |
| `Registry.LoadedPositions` | melotts_api.py:58 | lists, in increasing order, exactly the table positions whose language is loaded |
| `Registry.ActiveVoices` | melotts_api.py:58 | a voice is served iff it is a table entry whose language is loaded; it is a table key; there are no duplicates |
| `Registry.ActiveVoicesOrdered` | melotts_api.py:58 | the served voices keep the order of the voice table |
| `Registry.Startup` | melotts_api.py:30-58 | start-up chooses the device, loads exactly the languages to load that could be built, and publishes the served voices for them; every loaded language is valid |
| `Registry.ListModels` | melotts_api.py:66-75 | the listing has one entry per served voice, in order, with object "model" and owner "melo-tts" |
| `Speech.DefaultRequest` | melotts_api.py:60-64 | a request that gives only its text gets voice "EN-US", model "melo-tts-multilingual" and speed 1.0 |
| `Speech.ApiError.Detail` | melotts_api.py:80-138 | each error's message opens with its own words and names what it is about: the unknown voice, the language that is not loaded, or the exception's message after "Synthesis failed: "; an unknown voice's message ends with the list of available voices |
| `Speech.UnknownVoiceListsAvailable` | melotts_api.py:82-86 | the message for an unknown voice names every available voice, quoted |
| `PyStr.ListReprListsAll` | melotts_api.py:85 | `str()` of a list of strings contains every element, quoted |
| `Speech.Validate` | melotts_api.py:79-94 | empty input is refused first, then an unknown voice (listing the served voices), then a voice whose language is not loaded; all three are status 400; a request passes iff none applies, and is routed to a loaded language |
| `Speech.ValidateAcceptsServedVoices` | melotts_api.py:82-94 | for non-empty input, a request passes validation iff its voice is one of the served voices |
| `Speech.RoutedLanguageIsValid` | melotts_api.py:88 | a request that passes validation is routed to a valid language |
| `Speech.ResolveSpeaker` | melotts_api.py:104-113 | English voices look up their own name and other languages their language code. A found key gives its speaker. A missing key falls back to the first speaker in insertion order. An empty speaker map raises "list index out of range". |
| `Speech.ResolveExactMatch` | melotts_api.py:108-109 | when the key is present at some position of a well-formed speaker map, the speaker stored there is used and no warning is given |
| `Speech.Attempt` | melotts_api.py:100-139 | once a file exists, the engine is called iff the routed engine has a speaker, with the request's text and speed and the file's path. With no speaker the reply is 500 "list index out of range". Otherwise the reply is the audio file (removed after the response) iff the engine wrote it, and 500 with the engine's exception message (file removed at once) iff it raised |
| `Speech.Plan` | melotts_api.py:78-139 | a refused request creates no file and calls no engine. An accepted one calls the routed engine with the request's text and speed and the temporary path. It answers with the file as "audio/wav" named "speech.wav", to be removed after the response, iff that engine wrote it; if the engine raised, or there was no speaker to call it with, it answers 500 with the exception's message and the file is removed at once. |
| `Speech.PlanCallsEngine` | melotts_api.py:100-121 | the engine is called iff validation passes and the routed engine has at least one speaker |
| `Speech.PlanUsesResolvedSpeaker` | melotts_api.py:104-121 | when the engine is called, it is called with the resolved speaker, and the warning is given iff that speaker came from the fallback |
| `Speech.PlanIgnoresModel` | melotts_api.py:60-64 | the `model` field of the request has no effect on the exchange |
| `Speech.PlanRouted` | melotts_api.py:88-101 | a non-empty request whose voice routes to a loaded language proceeds to the `try` block with that language's engine |
| `TempFiles.TempDir.MakeTemp` | melotts_api.py:97-98 | creates a fresh path never used before and adds it to the live files |
| `TempFiles.TempDir.Exists` | melotts_api.py:133 | reports whether the path is live, changing nothing |
| `TempFiles.TempDir.Remove` | melotts_api.py:133-134 | removes the path from the live files; succeeds iff it was live |
| `Handler.CreateSpeech` | melotts_api.py:78-139 | a refused request changes no state. An accepted one creates exactly one fresh file and answers as `Plan` says. On success it schedules that file for removal and the file stays live. On failure it removes the file before answering. |
| `Handler.TrySynthesis` | melotts_api.py:100-139 | the `try` block and its handler produce the reply and warning that `Attempt` describes; on success the file is handed to a background task and stays; on failure it is removed before the reply |
| `Handler.RunBackground` | melotts_api.py:123-124 | background removals run in order and stop at the first failure; each completed task removed its file; distinct live files are all removed |
| `Handler.ServeRequest` | melotts_api.py:78-139 | one full request with its background tasks leaves no temporary file behind: every file it created has been removed, whether synthesis succeeded or failed |
| `Scenarios.EnglishVoiceExactSpeaker` | melotts_api.py:104-121 | an EN-BR request on an English engine that has an EN-BR speaker uses that speaker, gives no warning, and answers with the audio file |
| `Scenarios.EmptyInputRefused` | melotts_api.py:79-80 | empty input is answered 400 "Input text is required." whatever the voice |
| `Scenarios.UnknownVoiceRefused` | melotts_api.py:82-86 | voice "DE" is answered 400 "Voice 'DE' not recognized. Available: " followed by the list of served voices, and no file is made |
| `Scenarios.UnloadedLanguageRefused` | melotts_api.py:90-94 | voice "FR" on an instance without the French engine is answered 400 "Model for language 'FR' is not loaded in this instance.", and no file is made |
| `Scenarios.MissingSpeakerFallsBack` | melotts_api.py:108-113 | a Chinese engine without a "ZH" speaker falls back to its first speaker and warns |
| `Scenarios.EmptySpeakerMapFails` | melotts_api.py:109-139 | an engine with no speakers makes the request fail with status 500, and the file is removed at once |
| `Scenarios.EngineExceptionFails` | melotts_api.py:116-139 | when the engine raises on the default request, the reply is 500 "Synthesis failed: " with the exception's message, the engine was called with the EN-US speaker, and the file is removed at once |
| `Scenarios.DefaultRequestSpeaksEnglish` | melotts_api.py:60-64 | a request that gives only its text asks for voice EN-US and is routed to the English engine |

## Left out

- HTTP transport is not modelled: FastAPI routing, uvicorn, JSON encoding and streaming the file
  body. The `/v1/models` envelope `{"object": "list"}` is implied rather than built.
- Console output (`print`, `traceback.print_exc`) is not modelled, except that the fallback
  warning is kept as a boolean flag.
- `torch.cuda.is_available()` is a boolean parameter.
- Building an engine and calling `eval()` are a `Loader` function, and `tts_to_file` is a
  `Synthesizer` function. The audio written into the file is not modelled.
- `PyStr.Lower`: only ASCII letters are case-mapped; Python's full Unicode case mapping is not modelled.
- `PyStr.Upper`: only ASCII letters are case-mapped; Python's full Unicode case mapping is not modelled.
- `Speech.ApiError.Detail` renders the list of voices as Python's `repr` would for strings
  without quotes or backslashes, which holds for every voice in the table. Escaping is not
  modelled.
- The request's `speed` is a real number passed through unchanged; floating point is not modelled.
- `TempFiles.TempDir.MakeTemp` draws names from a counter, so a name is never reused. `mkstemp`
  only guarantees a name that does not exist at the time it is created. The `.wav` suffix and
  the directory are not modelled.
- Concurrency is not modelled. Requests are served one at a time, and background tasks run right
  after their response.
- Only two failures inside the `try` block are modelled: an empty speaker map and an exception from
  `tts_to_file`. Other exceptions raised there would take the same `except` path (lines 132-139)
  in the source but are not modelled. Examples are a missing `hps.data.spk2id` attribute
  (line 102), an error from `add_task`, and an error from `FileResponse` (line 126).
- Failures before the `try` block, in `mkstemp` and `os.close` (lines 97-98), are not modelled.
  The model always obtains a file.
- Files removed by someone else are not modelled. The model's `Exists` and `Remove` see only
  files this service created.
- The loop's iteration order over the language set is not fixed. `LoadModels` picks any remaining
  language, and its result is proved to be the same for every order.

Three behaviours of the code that a reader may not expect:

- The code puts an engine into the registry (line 51) before calling `eval()` (line 53). An
  engine whose `eval()` raised therefore stays loaded and is served. `Registry.Loaded` keeps it.
- `MELOTTS_MODELS` is compared with `"ALL"` before stripping. So `" all "` is not the keyword
  and loads nothing (`Config.LangsToLoadPaddedAll`).
- No check is made on `speed`, so any value reaches the engine.
