/**
 * End-to-end cases of the speech endpoint, stated against Plan (which CreateSpeech and
 * ServeRequest follow) for an instance whose table is VOICE_TO_LANG.
 */
module Scenarios {
  import opened Wrappers
  import Dict
  import PyStr
  import Config
  import opened Registry
  import opened Speech
  import opened TempFiles

  /** The language a voice of the table routes to. */
  lemma RoutesTo(inst: Instance, i: nat)
    requires inst.voices == Config.VoiceTable && i < |Config.VoiceTable|
    ensures Dict.Get(inst.voices, Config.VoiceTable[i].0) == Some(Config.VoiceTable[i].1)
  {
    Config.VoiceTableWellFormed();
  }

  /** An English voice whose own key is in the engine's map gets that speaker, with no warning. */
  lemma EnglishVoiceExactSpeaker(inst: Instance, tts: Synthesizer, path: TempPath, text: string, speed: real, i: nat)
    requires inst.voices == Config.VoiceTable && text != []
    requires "EN" in inst.models && Dict.WellFormed(inst.models["EN"].speakers)
    requires i < |inst.models["EN"].speakers| && inst.models["EN"].speakers[i].0 == "EN-BR"
    requires tts(inst.models["EN"], TtsCall(text, inst.models["EN"].speakers[i].1, path, speed)) == Written
    ensures var x := Plan(SpeechRequest(text, "EN-BR", "tts-1", speed), inst, tts, path);
            x.reply == Audio(path, "audio/wav", "speech.wav")
            && x.call == Some(TtsCall(text, inst.models["EN"].speakers[i].1, path, speed))
            && !x.warned && x.disposal == AfterResponse
  {
    RoutesTo(inst, 2);
    PlanRouted(SpeechRequest(text, "EN-BR", "tts-1", speed), inst, tts, path, "EN");
    ResolveExactMatch(inst.models["EN"].speakers, "EN-BR", "EN", i);
  }

  /** An empty input is refused first, and no file is made. */
  lemma EmptyInputRefused(inst: Instance, tts: Synthesizer, path: TempPath, voice: string, model: string, speed: real)
    ensures var x := Plan(SpeechRequest("", voice, model, speed), inst, tts, path);
            x.reply == Failure(InputRequired) && x.reply.error.Status() == 400
            && x.disposal == NoFile && x.call.None?
  {
  }

  /** A name whose tag no entry of a dict has is not a key of it. */
  lemma AbsentByTag(table: Dict.Dict<string, string>, v: string)
    requires forall i :: 0 <= i < |table| ==> Config.Tag(table[i].0) != Config.Tag(v)
    ensures Dict.Get(table, v).None?
  {
  }

  /** "DE" is not a voice of the table: no voice has its length and first letter. */
  lemma NoVoiceDE()
    ensures Dict.Get(Config.VoiceTable, "DE").None?
  {
    Config.TagsOfVoices();
    assert Config.Tag("DE") == (2, 'D');
    assert forall i :: 0 <= i < |Config.VoiceTags| ==> Config.VoiceTags[i] != (2, 'D');
    AbsentByTag(Config.VoiceTable, "DE");
  }

  /** A voice outside the table is refused with the list of active voices, and no file is made. */
  lemma UnknownVoiceRefused(inst: Instance, tts: Synthesizer, path: TempPath, text: string, speed: real)
    requires inst.voices == Config.VoiceTable && text != []
    ensures var x := Plan(SpeechRequest(text, "DE", "tts-1", speed), inst, tts, path);
            x.reply == Failure(UnknownVoice("DE", inst.activeVoices)) && x.disposal == NoFile
            && x.reply.error.Status() == 400
            && x.reply.error.Detail() == "Voice '" + "DE" + "' not recognized. Available: " + PyStr.ListRepr(inst.activeVoices)
  {
    NoVoiceDE();
    var x := Plan(SpeechRequest(text, "DE", "tts-1", speed), inst, tts, path);
    assert x.reply == Failure(UnknownVoice("DE", inst.activeVoices));
    RefusalMessage(x.reply.error);
  }

  /** The status and message of a refusal, spelled out. */
  lemma RefusalMessage(e: ApiError)
    ensures e.InputRequired? ==> e.Status() == 400 && e.Detail() == "Input text is required."
    ensures e.UnknownVoice? ==> e.Status() == 400
    ensures e.UnknownVoice? ==> e.Detail() == "Voice '" + e.voice + "' not recognized. Available: " + PyStr.ListRepr(e.available)
    ensures e.NotLoaded? ==> e.Status() == 400
    ensures e.NotLoaded? ==> e.Detail() == "Model for language '" + e.lang + "' is not loaded in this instance."
    ensures e.SynthesisFailed? ==> e.Status() == 500 && e.Detail() == "Synthesis failed: " + e.message
  {
  }

  /** A known voice whose language did not load is refused, and no file is made. */
  lemma UnloadedLanguageRefused(inst: Instance, tts: Synthesizer, path: TempPath, text: string, speed: real)
    requires inst.voices == Config.VoiceTable && text != [] && "FR" !in inst.models
    ensures var x := Plan(SpeechRequest(text, "FR", "tts-1", speed), inst, tts, path);
            x.reply == Failure(NotLoaded("FR")) && x.disposal == NoFile
            && x.reply.error.Status() == 400
            && x.reply.error.Detail() == "Model for language '" + "FR" + "' is not loaded in this instance."
  {
    RoutesTo(inst, 6);
    var x := Plan(SpeechRequest(text, "FR", "tts-1", speed), inst, tts, path);
    assert x.reply == Failure(NotLoaded("FR"));
    RefusalMessage(x.reply.error);
  }

  /** A language whose map lacks the key falls back to the first speaker, warns, and still answers. */
  lemma MissingSpeakerFallsBack(inst: Instance, tts: Synthesizer, path: TempPath, text: string, speed: real)
    requires inst.voices == Config.VoiceTable && text != []
    requires "ZH" in inst.models && inst.models["ZH"].speakers != []
    requires !Dict.HasKey(inst.models["ZH"].speakers, "ZH")
    requires tts(inst.models["ZH"], TtsCall(text, inst.models["ZH"].speakers[0].1, path, speed)) == Written
    ensures var x := Plan(SpeechRequest(text, "ZH", "tts-1", speed), inst, tts, path);
            x.reply == Audio(path, "audio/wav", "speech.wav")
            && x.call == Some(TtsCall(text, inst.models["ZH"].speakers[0].1, path, speed))
            && x.warned && x.disposal == AfterResponse
  {
    RoutesTo(inst, 7);
    PlanRouted(SpeechRequest(text, "ZH", "tts-1", speed), inst, tts, path, "ZH");
  }

  /** An engine without speakers fails the request with 500 after its file was made, and the engine is not called. */
  lemma EmptySpeakerMapFails(inst: Instance, tts: Synthesizer, path: TempPath, req: SpeechRequest)
    requires Validate(req, inst).Ok? && inst.models[Validate(req, inst).value].speakers == []
    ensures var x := Plan(req, inst, tts, path);
            x.reply == Failure(SynthesisFailed(EmptyListIndex)) && x.reply.error.Status() == 500
            && x.disposal == Immediately && x.call.None?
  {
  }

  /** A request that gives only its text asks for voice EN-US and is routed to the English engine. */
  lemma DefaultRequestSpeaksEnglish(inst: Instance, text: string)
    requires inst.voices == Config.VoiceTable && text != [] && "EN" in inst.models
    ensures Validate(DefaultRequest(text), inst) == Ok("EN")
  {
    RoutesTo(inst, 1);
  }

  /**
   * An engine that raises while writing the file fails the request with 500 and the
   * exception's message, after it was called; the file is removed at once.
   */
  lemma EngineExceptionFails(inst: Instance, tts: Synthesizer, path: TempPath, text: string, i: nat, message: string)
    requires inst.voices == Config.VoiceTable && text != []
    requires "EN" in inst.models && Dict.WellFormed(inst.models["EN"].speakers)
    requires i < |inst.models["EN"].speakers| && inst.models["EN"].speakers[i].0 == "EN-US"
    requires tts(inst.models["EN"], TtsCall(text, inst.models["EN"].speakers[i].1, path, 1.0)) == Raised(message)
    ensures var x := Plan(DefaultRequest(text), inst, tts, path);
            x.reply == Failure(SynthesisFailed(message)) && x.reply.error.Status() == 500
            && x.reply.error.Detail() == "Synthesis failed: " + message
            && x.call == Some(TtsCall(text, inst.models["EN"].speakers[i].1, path, 1.0))
            && x.disposal == Immediately
  {
    RoutesTo(inst, 1);
    PlanRouted(DefaultRequest(text), inst, tts, path, "EN");
    ResolveExactMatch(inst.models["EN"].speakers, "EN-US", "EN", i);
    RefusalMessage(SynthesisFailed(message));
  }
}
