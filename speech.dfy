/**
 * The decisions of the speech endpoint: request validation, speaker resolution and,
 * given what the engine does, the reply, the engine call and how the temporary file
 * is disposed of.
 */
module Speech {
  import opened Wrappers
  import Dict
  import PyStr
  import Config
  import opened Registry
  import opened TempFiles

  /**
   * A speech request. `model` is informational; `speed` is passed to the engine
   * as it came, without validation.
   */
  datatype SpeechRequest = SpeechRequest(input: string, voice: string, model: string, speed: real)

  /** A request that sets only its input gets the defaults of the request schema. */
  function DefaultRequest(input: string): (r: SpeechRequest)
    ensures r.input == input && r.voice == "EN-US" && r.model == "melo-tts-multilingual" && r.speed == 1.0
  {
    SpeechRequest(input, "EN-US", "melo-tts-multilingual", 1.0)
  }

  /** The errors the endpoint raises, each an HTTPException with a status code and a detail message. */
  datatype ApiError =
    | InputRequired
    | UnknownVoice(voice: string, available: seq<string>)
    | NotLoaded(lang: string)
    | SynthesisFailed(message: string)
  {
    function Status(): int {
      if SynthesisFailed? then 500 else 400
    }

    /**
     * The detail message. Each kind of error has its own opening words, and the message
     * names the voice, the language or the exception message it is about; an unknown
     * voice's message ends with the list of the voices that are available.
     */
    function Detail(): (r: string)
      ensures InputRequired? ==> r == "Input text is required."
      ensures UnknownVoice? ==> PyStr.OccursAt("Voice '", r, 0) && PyStr.OccursAt(voice, r, 7)
      ensures UnknownVoice? ==> PyStr.OccursAt(PyStr.ListRepr(available), r, |r| - |PyStr.ListRepr(available)|)
      ensures NotLoaded? ==> PyStr.OccursAt("Model for language '", r, 0) && PyStr.OccursAt(lang, r, 20)
      ensures SynthesisFailed? ==> PyStr.OccursAt("Synthesis failed: ", r, 0) && r[18..] == message
    {
      match this
      case InputRequired => "Input text is required."
      case UnknownVoice(voice, available) => "Voice '" + voice + "' not recognized. Available: " + PyStr.ListRepr(available)
      case NotLoaded(lang) => "Model for language '" + lang + "' is not loaded in this instance."
      case SynthesisFailed(message) => "Synthesis failed: " + message
    }
  }

  /** The message for an unknown voice names, quoted, every voice that is available. */
  lemma UnknownVoiceListsAvailable(voice: string, available: seq<string>, i: nat)
    requires i < |available|
    ensures exists k :: PyStr.OccursAt(PyStr.Quote(available[i]), UnknownVoice(voice, available).Detail(), k)
  {
    var d := UnknownVoice(voice, available).Detail();
    var list := PyStr.ListRepr(available);
    PyStr.ListReprListsAll(available, i);
    var k :| PyStr.OccursAt(PyStr.Quote(available[i]), list, k);
    assert d[|d| - |list|..] == list;
    assert d[|d| - |list| + k..|d| - |list| + k + |PyStr.Quote(available[i])|] == list[k..k + |PyStr.Quote(available[i])|];
    assert PyStr.OccursAt(PyStr.Quote(available[i]), d, |d| - |list| + k);
  }

  /**
   * The three checks, first failure wins: an empty input, a voice outside the table,
   * a voice whose language has no engine. On success, the language to route to.
   */
  function Validate(req: SpeechRequest, inst: Instance): (r: Result<string, ApiError>)
    ensures req.input == [] ==> r == Err(InputRequired)
    ensures (req.input != [] && Dict.Get(inst.voices, req.voice).None?)
      ==> r == Err(UnknownVoice(req.voice, inst.activeVoices))
    ensures (req.input != [] && Dict.Get(inst.voices, req.voice).Some? && Dict.Get(inst.voices, req.voice).value !in inst.models)
      ==> r == Err(NotLoaded(Dict.Get(inst.voices, req.voice).value))
    ensures r.Err? ==> r.error.Status() == 400
    ensures r.Ok? <==> req.input != [] && Dict.Get(inst.voices, req.voice).Some? && Dict.Get(inst.voices, req.voice).value in inst.models
    ensures r.Ok? ==> r.value == Dict.Get(inst.voices, req.voice).value && r.value in inst.models
  {
    if req.input == [] then Err(InputRequired)
    else match Dict.Get(inst.voices, req.voice)
      case None => Err(UnknownVoice(req.voice, inst.activeVoices))
      case Some(lang) =>
        if lang !in inst.models then Err(NotLoaded(lang))
        else Ok(lang)
  }

  /**
   * A non-empty request passes validation exactly when its voice is one of the voices
   * the instance lists as available.
   */
  lemma ValidateAcceptsServedVoices(req: SpeechRequest, inst: Instance)
    requires inst.Consistent()
    requires req.input != []
    ensures Validate(req, inst).Ok? <==> req.voice in inst.activeVoices
  {
    var table := inst.voices;
    Config.VoiceTableWellFormed();
    if req.voice in inst.activeVoices {
      var i :| 0 <= i < |table| && table[i].0 == req.voice && table[i].1 in inst.models.Keys;
      assert Dict.Get(table, req.voice) == Some(table[i].1);
    }
    if Validate(req, inst).Ok? {
      var i :| 0 <= i < |table| && table[i] == (req.voice, Dict.Get(table, req.voice).value);
    }
  }

  /** A request that passes validation is routed to a language of the voice table. */
  lemma RoutedLanguageIsValid(req: SpeechRequest, inst: Instance)
    requires inst.Consistent()
    requires Validate(req, inst).Ok?
    ensures Validate(req, inst).value in Config.ValidLangs
  {
    Config.ValidLangsAreTableValues();
  }

  /** English engines have one speaker per accent, named by the voice; the others one, named by the language. */
  function SpeakerKey(voice: string, lang: string): string {
    if lang == "EN" then voice else lang
  }

  /** The speaker chosen, and whether it came from the fallback (and a warning was printed). */
  datatype Resolution = Resolution(key: string, speaker: SpeakerId, fellBack: bool)

  /** The message of the IndexError that `list(...)[0]` raises on an empty speaker map. */
  const EmptyListIndex := "list index out of range"

  /**
   * The speaker for a request: the key's own speaker when the map has the key;
   * otherwise the first speaker in the map's order, with a warning; an empty map
   * without the key fails as the IndexError does.
   */
  function ResolveSpeaker(speakers: Dict.Dict<string, SpeakerId>, voice: string, lang: string): (r: Result<Resolution, string>)
    ensures r.Err? <==> speakers == []
    ensures r.Err? ==> r.error == EmptyListIndex
    ensures r.Ok? ==> r.value.key == SpeakerKey(voice, lang)
    ensures r.Ok? ==> (!r.value.fellBack <==> SpeakerKey(voice, lang) in Dict.Keys(speakers))
    ensures r.Ok? && !r.value.fellBack ==> Dict.Get(speakers, SpeakerKey(voice, lang)) == Some(r.value.speaker)
    ensures r.Ok? && r.value.fellBack ==> r.value.speaker == speakers[0].1
    ensures r.Ok? ==> r.value.speaker in Dict.Values(speakers)
  {
    var key := SpeakerKey(voice, lang);
    match Dict.Get(speakers, key)
    case Some(id) => Ok(Resolution(key, id, false))
    case None =>
      var values := Dict.Values(speakers);
      if values == [] then Err(EmptyListIndex)
      else Ok(Resolution(key, values[0], true))
  }

  /** In a well-formed map, a present key resolves to the speaker stored under it. */
  lemma ResolveExactMatch(speakers: Dict.Dict<string, SpeakerId>, voice: string, lang: string, i: nat)
    requires Dict.WellFormed(speakers)
    requires i < |speakers| && speakers[i].0 == SpeakerKey(voice, lang)
    ensures ResolveSpeaker(speakers, voice, lang) == Ok(Resolution(SpeakerKey(voice, lang), speakers[i].1, false))
  {
    assert SpeakerKey(voice, lang) in Dict.Keys(speakers) by {
      assert Dict.Keys(speakers)[i] == speakers[i].0;
    }
  }

  /** What `tts_to_file` is asked to do: text, speaker, output path and speed. */
  datatype TtsCall = TtsCall(text: string, speaker: SpeakerId, path: TempPath, speed: real)

  /** What the engine call does: writes the file, or raises with a message. */
  datatype TtsOutcome = Written | Raised(message: string)

  /** The engine's synthesis capability, per engine and call. */
  type Synthesizer = (Engine, TtsCall) -> TtsOutcome

  /** The reply sent to the client. */
  datatype Reply =
    | Audio(path: TempPath, mediaType: string, filename: string)
    | Failure(error: ApiError)

  /** What happens to the temporary file: none was made, removal after the reply, removal at once. */
  datatype Disposal = NoFile | AfterResponse | Immediately

  /** Everything one request decides. */
  datatype Exchange = Exchange(reply: Reply, call: Option<TtsCall>, warned: bool, disposal: Disposal)

  /**
   * The `try` block once a file exists: resolve the speaker, call the engine, and answer
   * with the file (removed after the reply) or with a 500 error (file removed at once).
   */
  function Attempt(req: SpeechRequest, engine: Engine, lang: string, tts: Synthesizer, path: TempPath): (x: Exchange)
    ensures x.disposal != NoFile
    ensures x.reply.Audio? <==> x.disposal == AfterResponse
    ensures x.reply.Audio? ==> x.reply == Audio(path, "audio/wav", "speech.wav")
    ensures x.disposal == Immediately ==> x.reply.Failure? && x.reply.error.SynthesisFailed?
    ensures x.call.Some? <==> engine.speakers != []
    ensures x.call.Some? ==> x.call.value.text == req.input && x.call.value.speed == req.speed && x.call.value.path == path
    ensures x.call.None? ==> x.reply == Failure(SynthesisFailed(EmptyListIndex))
    ensures x.call.Some? ==> (x.reply.Audio? <==> tts(engine, x.call.value) == Written)
    ensures x.call.Some? && tts(engine, x.call.value).Raised?
      ==> x.reply == Failure(SynthesisFailed(tts(engine, x.call.value).message))
  {
    match ResolveSpeaker(engine.speakers, req.voice, lang)
    case Err(message) => Exchange(Failure(SynthesisFailed(message)), None, false, Immediately)
    case Ok(res) =>
      var call := TtsCall(req.input, res.speaker, path, req.speed);
      match tts(engine, call)
      case Written => Exchange(Audio(path, "audio/wav", "speech.wav"), Some(call), res.fellBack, AfterResponse)
      case Raised(message) => Exchange(Failure(SynthesisFailed(message)), Some(call), res.fellBack, Immediately)
  }

  /**
   * The endpoint's decision for a request, given the path of the temporary file it
   * creates once validation has passed and what the engine does with the call.
   */
  function Plan(req: SpeechRequest, inst: Instance, tts: Synthesizer, path: TempPath): (x: Exchange)
    ensures x.disposal == NoFile <==> Validate(req, inst).Err?
    ensures x.disposal == NoFile ==> x.reply == Failure(Validate(req, inst).error) && x.call.None? && !x.warned
    ensures x.reply.Audio? <==> x.disposal == AfterResponse
    ensures x.reply.Audio? ==> x.reply == Audio(path, "audio/wav", "speech.wav")
    ensures x.disposal == Immediately ==> x.reply.Failure? && x.reply.error.SynthesisFailed?
    ensures x.call.Some? ==> x.call.value.text == req.input && x.call.value.speed == req.speed && x.call.value.path == path
    ensures x.disposal != NoFile && x.call.None? ==> x.reply == Failure(SynthesisFailed(EmptyListIndex))
    ensures x.call.Some? ==> Validate(req, inst).Ok?
    ensures x.call.Some?
      ==> (x.reply.Audio? <==> tts(inst.models[Validate(req, inst).value], x.call.value) == Written)
    ensures x.call.Some? && tts(inst.models[Validate(req, inst).value], x.call.value).Raised?
      ==> x.reply == Failure(SynthesisFailed(tts(inst.models[Validate(req, inst).value], x.call.value).message))
  {
    match Validate(req, inst)
    case Err(e) => Exchange(Failure(e), None, false, NoFile)
    case Ok(lang) => Attempt(req, inst.models[lang], lang, tts, path)
  }

  /** A non-empty request for a voice routed to a loaded language goes on to the `try` block. */
  lemma PlanRouted(req: SpeechRequest, inst: Instance, tts: Synthesizer, path: TempPath, lang: string)
    requires req.input != [] && Dict.Get(inst.voices, req.voice) == Some(lang) && lang in inst.models
    ensures Plan(req, inst, tts, path) == Attempt(req, inst.models[lang], lang, tts, path)
  {
  }

  /** The engine is called exactly when validation passes and the routed engine has a speaker. */
  lemma PlanCallsEngine(req: SpeechRequest, inst: Instance, tts: Synthesizer, path: TempPath)
    ensures Plan(req, inst, tts, path).call.Some?
        <==> Validate(req, inst).Ok? && inst.models[Validate(req, inst).value].speakers != []
  {
    var v := Validate(req, inst);
    if v.Ok? {
      PlanCallsEngineFor(req, inst, tts, path, v.value);
    }
  }

  lemma PlanCallsEngineFor(req: SpeechRequest, inst: Instance, tts: Synthesizer, path: TempPath, lang: string)
    requires Validate(req, inst) == Ok(lang)
    ensures Plan(req, inst, tts, path).call.Some? <==> inst.models[lang].speakers != []
  {
  }

  /** The engine is given the resolved speaker, and the warning is printed exactly when the fallback was used. */
  lemma PlanUsesResolvedSpeaker(req: SpeechRequest, inst: Instance, tts: Synthesizer, path: TempPath)
    requires Validate(req, inst).Ok?
    requires ResolveSpeaker(inst.models[Validate(req, inst).value].speakers, req.voice, Validate(req, inst).value).Ok?
    ensures var lang := Validate(req, inst).value;
            var res := ResolveSpeaker(inst.models[lang].speakers, req.voice, lang).value;
            Plan(req, inst, tts, path).call == Some(TtsCall(req.input, res.speaker, path, req.speed))
            && Plan(req, inst, tts, path).warned == res.fellBack
  {
  }

  /** The `model` field never changes what the endpoint does. */
  lemma PlanIgnoresModel(req: SpeechRequest, inst: Instance, tts: Synthesizer, path: TempPath, model: string)
    ensures Plan(req.(model := model), inst, tts, path) == Plan(req, inst, tts, path)
  {
  }
}
