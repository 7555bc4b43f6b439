/**
 * The speech endpoint as it runs: validation, then one temporary file, the engine
 * call, and the file's removal either after the reply is sent (a background task)
 * or at once when anything in the synthesis step fails.
 */
module Handler {
  import opened Wrappers
  import opened Registry
  import opened Speech
  import opened TempFiles

  /**
   * The request handler. Its reply, warning and background tasks are those of Plan for the
   * file it creates; a request refused by validation creates no file, and a failed synthesis
   * leaves no file behind.
   */
  method CreateSpeech(dir: TempDir, inst: Instance, req: SpeechRequest, tts: Synthesizer)
    returns (reply: Reply, tasks: seq<TempPath>, warned: bool)
    requires dir.Valid()
    modifies dir
    ensures dir.Valid()
    ensures Validate(req, inst).Err? ==>
      reply == Failure(Validate(req, inst).error) && tasks == [] && !warned
      && dir.live == old(dir.live) && dir.created == old(dir.created) && dir.removed == old(dir.removed)
    ensures Validate(req, inst).Ok? ==>
      |dir.created| == |old(dir.created)| + 1 && dir.created[..|old(dir.created)|] == old(dir.created)
    ensures Validate(req, inst).Ok? ==>
      var p := dir.created[|old(dir.created)|];
      var x := Plan(req, inst, tts, p);
      p !in old(dir.live) && reply == x.reply && warned == x.warned
      && (x.disposal == AfterResponse ==>
            tasks == [p] && dir.live == old(dir.live) + {p} && dir.removed == old(dir.removed))
      && (x.disposal == Immediately ==>
            tasks == [] && dir.live == old(dir.live) && dir.removed == old(dir.removed) + [p])
  {
    var v := Validate(req, inst);
    if v.Err? {
      return Failure(v.error), [], false;
    }
    var lang := v.value;
    var p := dir.MakeTemp();
    assert dir.created[..|old(dir.created)|] == old(dir.created);
    reply, tasks, warned := TrySynthesis(dir, req, inst.models[lang], lang, tts, p);
  }

  /**
   * The `try` block and its `except` handler for the file at `p`: the reply, warning and
   * tasks are Attempt's; when it fails, the file is removed before the reply.
   */
  method TrySynthesis(dir: TempDir, req: SpeechRequest, engine: Engine, lang: string, tts: Synthesizer, p: TempPath)
    returns (reply: Reply, tasks: seq<TempPath>, warned: bool)
    requires dir.Valid() && p in dir.live
    modifies dir
    ensures dir.Valid()
    ensures dir.created == old(dir.created)
    ensures var x := Attempt(req, engine, lang, tts, p);
      reply == x.reply && warned == x.warned
      && (x.disposal == AfterResponse ==>
            tasks == [p] && dir.live == old(dir.live) && dir.removed == old(dir.removed))
      && (x.disposal == Immediately ==>
            tasks == [] && dir.live == old(dir.live) - {p} && dir.removed == old(dir.removed) + [p])
  {
    var failure: Option<string> := None;
    warned := false;
    match ResolveSpeaker(engine.speakers, req.voice, lang) {
      case Err(message) =>
        failure := Some(message);
      case Ok(res) =>
        warned := res.fellBack;
        var outcome := tts(engine, TtsCall(req.input, res.speaker, p, req.speed));
        if outcome.Raised? {
          failure := Some(outcome.message);
        }
    }

    if failure.None? {
      reply, tasks := Audio(p, "audio/wav", "speech.wav"), [p];
    } else {
      // The `except` block: remove the file if it is still there, then fail with 500.
      var present := dir.Exists(p);
      if present {
        var _ := dir.Remove(p);
      }
      reply, tasks := Failure(SynthesisFailed(failure.value)), [];
    }
  }

  /**
   * The background tasks, run after the reply has been sent: `os.remove` on each path in
   * order; a removal that raises ends the run, as the remaining tasks are not started.
   */
  method RunBackground(dir: TempDir, tasks: seq<TempPath>) returns (completed: nat)
    requires dir.Valid()
    modifies dir
    ensures dir.Valid()
    ensures completed <= |tasks|
    ensures dir.created == old(dir.created)
    ensures dir.live == old(dir.live) - Paths(tasks[..completed])
    ensures dir.removed == old(dir.removed) + tasks[..completed]
    ensures Distinct(tasks) && (forall i :: 0 <= i < |tasks| ==> tasks[i] in old(dir.live)) ==> completed == |tasks|
  {
    completed := 0;
    while completed < |tasks|
      invariant dir.Valid()
      invariant completed <= |tasks|
      invariant dir.created == old(dir.created)
      invariant dir.live == old(dir.live) - Paths(tasks[..completed])
      invariant dir.removed == old(dir.removed) + tasks[..completed]
    {
      var found := dir.Remove(tasks[completed]);
      if !found {
        assert tasks[completed] !in old(dir.live) || tasks[completed] in tasks[..completed];
        return;
      }
      assert tasks[..completed + 1] == tasks[..completed] + [tasks[completed]];
      assert Paths(tasks[..completed + 1]) == Paths(tasks[..completed]) + {tasks[completed]};
      completed := completed + 1;
    }
  }

  /**
   * One request from arrival until its background tasks have run: whatever the outcome,
   * the request leaves the set of files as it found it, and every file it created was
   * removed exactly once.
   */
  method ServeRequest(dir: TempDir, inst: Instance, req: SpeechRequest, tts: Synthesizer) returns (reply: Reply)
    requires dir.Valid()
    modifies dir
    ensures dir.Valid()
    ensures dir.live == old(dir.live)
    ensures |dir.created| == |old(dir.created)| + (if Validate(req, inst).Ok? then 1 else 0)
    ensures dir.created[..|old(dir.created)|] == old(dir.created)
    ensures dir.removed == old(dir.removed) + dir.created[|old(dir.created)|..]
    ensures Validate(req, inst).Err? ==> reply == Failure(Validate(req, inst).error)
    ensures Validate(req, inst).Ok? ==> reply == Plan(req, inst, tts, dir.created[|old(dir.created)|]).reply
  {
    ghost var created0, live0, removed0 := dir.created, dir.live, dir.removed;
    var tasks, warned;
    reply, tasks, warned := CreateSpeech(dir, inst, req, tts);
    ghost var live1, removed1 := dir.live, dir.removed;
    var completed := RunBackground(dir, tasks);
    if Validate(req, inst).Ok? {
      ghost var p := dir.created[|created0|];
      assert dir.created[|created0|..] == [p];
      if tasks == [p] {
        assert completed == 1 && tasks[..1] == [p];
        assert Paths([p]) == {p};
        assert dir.live == live1 - {p} == live0;
      } else {
        assert tasks == [] && completed == 0;
        assert Paths(tasks[..0]) == {};
      }
    } else {
      assert dir.created[|created0|..] == [];
      assert Paths(tasks[..0]) == {};
    }
  }
}
