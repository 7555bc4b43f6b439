/**
 * The engine registry (`models`), built once at startup by trying to load one engine
 * per requested language, and the voices it makes available (`ACTIVE_VOICES`).
 */
module Registry {
  import opened Wrappers
  import Dict
  import Config

  type SpeakerId = int

  /** A loaded engine: its language and its speaker map (`hps.data.spk2id`). */
  datatype Engine = Engine(language: string, speakers: Dict.Dict<string, SpeakerId>)

  /**
   * What happened when one language was loaded: the engine could not be built,
   * it was built but preparing it for inference (`eval()`) raised, or both succeeded.
   */
  datatype LoadAttempt =
    | BuildFailed(reason: string)
    | EvalFailed(engine: Engine, reason: string)
    | Ready(engine: Engine)
  {
    /** The engine was built, so the loop had already stored it before `eval()` ran. */
    predicate Built() { !BuildFailed? }
  }

  /** The loader: what loading a language on a device yields. */
  type Loader = (string, string) -> LoadAttempt

  /** The registry the load loop must produce: every candidate whose engine was built. */
  function Loaded(candidates: set<string>, device: string, load: Loader): (r: map<string, Engine>)
    ensures r.Keys <= candidates
    ensures forall lang :: lang in candidates ==> (lang in r <==> load(lang, device).Built())
  {
    map lang | lang in candidates && load(lang, device).Built() :: load(lang, device).engine
  }

  /**
   * The startup loop: try every candidate language in turn; a failure is reported
   * and the loop moves on to the next language.
   */
  method LoadModels(candidates: set<string>, device: string, load: Loader) returns (models: map<string, Engine>)
    ensures models == Loaded(candidates, device, load)
    ensures forall lang :: lang in models ==> models[lang] == load(lang, device).engine
  {
    models := map[];
    var remaining := candidates;
    while remaining != {}
      invariant remaining <= candidates
      invariant models == Loaded(candidates - remaining, device, load)
      decreases remaining
    {
      var lang :| lang in remaining;
      var attempt := load(lang, device);
      match attempt {
        case BuildFailed(_) =>
        case EvalFailed(engine, _) =>
          models := models[lang := engine];
        case Ready(engine) =>
          models := models[lang := engine];
      }
      remaining := remaining - {lang};
    }
  }

  /**
   * Whether a language is loaded is decided by that language's own attempt alone. Here that
   * holds by the type of a `Loader`, which gives each language's outcome on its own. The
   * source's isolation proper is the `except` at line 55, which lets the loop go on to the
   * next language after a failure; `LoadModels` proves that the loop does so.
   */
  lemma LoadedIsolated(candidates: set<string>, device: string, load: Loader, load': Loader, lang: string)
    requires lang in candidates
    requires load(lang, device) == load'(lang, device)
    ensures (lang in Loaded(candidates, device, load)) == (lang in Loaded(candidates, device, load'))
    ensures lang in Loaded(candidates, device, load) ==> Loaded(candidates, device, load)[lang] == Loaded(candidates, device, load')[lang]
  {
  }

  /** The table has an entry for voice `v` whose language is loaded. */
  predicate Serves(table: Dict.Dict<string, string>, v: string, loaded: set<string>) {
    exists i :: 0 <= i < |table| && table[i].0 == v && table[i].1 in loaded
  }

  /** The positions of the table, from `from` on, whose language is loaded, in increasing order. */
  function LoadedPositions(table: Dict.Dict<string, string>, loaded: set<string>, from: nat): (ps: seq<nat>)
    requires from <= |table|
    ensures |ps| <= |table| - from
    ensures forall k :: 0 <= k < |ps| ==> from <= ps[k] < |table| && table[ps[k]].1 in loaded
    ensures forall k, l :: 0 <= k < l < |ps| ==> ps[k] < ps[l]
    ensures forall i :: from <= i < |table| && table[i].1 in loaded ==> i in ps
    decreases |table| - from
  {
    if from == |table| then []
    else
      var rest := LoadedPositions(table, loaded, from + 1);
      if table[from].1 in loaded then [from] + rest else rest
  }

  /** The voices at the given positions of the table. */
  function VoicesAt(table: Dict.Dict<string, string>, ps: seq<nat>): (r: seq<string>)
    requires forall k :: 0 <= k < |ps| ==> ps[k] < |table|
    ensures |r| == |ps|
    ensures forall k :: 0 <= k < |ps| ==> r[k] == table[ps[k]].0
  {
    seq(|ps|, k requires 0 <= k < |ps| => table[ps[k]].0)
  }

  /** The voices at the loaded positions are exactly the voices the table serves. */
  lemma LoadedVoicesServed(table: Dict.Dict<string, string>, loaded: set<string>)
    ensures forall v ::
              v in VoicesAt(table, LoadedPositions(table, loaded, 0)) <==> Serves(table, v, loaded)
  {
    var ps := LoadedPositions(table, loaded, 0);
    var r := VoicesAt(table, ps);
    forall v | Serves(table, v, loaded) ensures v in r {
      var i :| 0 <= i < |table| && table[i].0 == v && table[i].1 in loaded;
      var k :| 0 <= k < |ps| && ps[k] == i;
      assert r[k] == v;
    }
  }

  /** The voices at the loaded positions are keys of the table, distinct when the keys are. */
  lemma LoadedVoicesKeys(table: Dict.Dict<string, string>, loaded: set<string>)
    ensures forall v :: v in VoicesAt(table, LoadedPositions(table, loaded, 0)) ==> v in Dict.Keys(table)
    ensures Dict.Distinct(Dict.Keys(table)) ==> Dict.Distinct(VoicesAt(table, LoadedPositions(table, loaded, 0)))
  {
    var ps := LoadedPositions(table, loaded, 0);
    var r := VoicesAt(table, ps);
    var keys := Dict.Keys(table);
    forall v | v in r ensures v in keys {
      var k :| 0 <= k < |r| && r[k] == v;
      assert keys[ps[k]] == v;
    }
    if Dict.Distinct(keys) {
      forall k, l | 0 <= k < l < |r| ensures r[k] != r[l] {
        assert keys[ps[k]] != keys[ps[l]];
      }
    }
  }

  /**
   * ACTIVE_VOICES: the voices of the table, in table order, whose language has an engine.
   */
  function ActiveVoices(table: Dict.Dict<string, string>, loaded: set<string>): (r: seq<string>)
    ensures |r| <= |table|
    ensures forall v :: v in r <==> Serves(table, v, loaded)
    ensures forall v :: v in r ==> v in Dict.Keys(table)
    ensures Dict.Distinct(Dict.Keys(table)) ==> Dict.Distinct(r)
  {
    LoadedVoicesServed(table, loaded);
    LoadedVoicesKeys(table, loaded);
    VoicesAt(table, LoadedPositions(table, loaded, 0))
  }

  /** Where voice `v` sits in the table (its first entry). */
  function TableIndex(table: Dict.Dict<string, string>, v: string): (i: nat)
    requires v in Dict.Keys(table)
    ensures i < |table| && table[i].0 == v
    ensures forall j :: 0 <= j < i ==> table[j].0 != v
  {
    if table[0].0 == v then 0
    else
      assert Dict.Keys(table) == [table[0].0] + Dict.Keys(table[1..]);
      1 + TableIndex(table[1..], v)
  }

  /** ACTIVE_VOICES keeps the table's order: earlier voices come first. */
  lemma ActiveVoicesOrdered(table: Dict.Dict<string, string>, loaded: set<string>, a: nat, b: nat)
    requires Dict.WellFormed(table)
    requires a < b < |ActiveVoices(table, loaded)|
    ensures TableIndex(table, ActiveVoices(table, loaded)[a]) < TableIndex(table, ActiveVoices(table, loaded)[b])
  {
    var r := ActiveVoices(table, loaded);
    var ps := LoadedPositions(table, loaded, 0);
    var keys := Dict.Keys(table);
    var ia, ib := TableIndex(table, r[a]), TableIndex(table, r[b]);
    assert r == VoicesAt(table, ps);
    assert r[a] == table[ps[a]].0 && r[b] == table[ps[b]].0;
    assert ia == ps[a] by {
      assert keys[ia] == keys[ps[a]];
    }
    assert ib == ps[b] by {
      assert keys[ib] == keys[ps[b]];
    }
  }

  /**
   * The module-level state after startup, fixed from then on: the device, the voice
   * table VOICE_TO_LANG, the registry `models` and ACTIVE_VOICES.
   */
  datatype Instance = Instance(device: string, voices: Dict.Dict<string, string>, models: map<string, Engine>, activeVoices: seq<string>)
  {
    /** The table is VOICE_TO_LANG and ACTIVE_VOICES was computed from this registry. */
    predicate Consistent() {
      voices == Config.VoiceTable && activeVoices == ActiveVoices(voices, models.Keys)
    }
  }

  /**
   * Module start-up: choose the device, choose the languages, load them, then compute
   * ACTIVE_VOICES once.
   */
  method Startup(deviceEnv: Option<string>, modelsEnv: Option<string>, cudaAvailable: bool, load: Loader)
    returns (inst: Instance)
    ensures inst.Consistent()
    ensures inst.device == Config.Device(deviceEnv, cudaAvailable)
    ensures inst.models == Loaded(Config.LangsToLoad(modelsEnv), inst.device, load)
    ensures inst.models.Keys <= Config.ValidLangs
  {
    var device := Config.Device(deviceEnv, cudaAvailable);
    var candidates := Config.LangsToLoad(modelsEnv);
    var models := LoadModels(candidates, device, load);
    inst := Instance(device, Config.VoiceTable, models, ActiveVoices(Config.VoiceTable, models.Keys));
  }

  /** One entry of the voice listing. */
  datatype ModelEntry = ModelEntry(id: string, kind: string, ownedBy: string)

  /** The `data` of the voice listing: one entry per active voice, in order. */
  function ListModels(inst: Instance): (r: seq<ModelEntry>)
    ensures |r| == |inst.activeVoices|
    ensures forall i :: 0 <= i < |r| ==> r[i].id == inst.activeVoices[i] && r[i].kind == "model" && r[i].ownedBy == "melo-tts"
  {
    var voices := inst.activeVoices;
    seq(|voices|, i requires 0 <= i < |voices| => ModelEntry(voices[i], "model", "melo-tts"))
  }
}
