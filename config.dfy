/**
 * Startup configuration: the fixed voice table, the device setting and the
 * set of languages to load, as read from the MELOTTS_DEVICE and MELOTTS_MODELS
 * environment variables (None when the variable is unset).
 */
module Config {
  import opened Wrappers
  import opened PyStr
  import Dict

  /** VOICE_TO_LANG, in definition order: voice name to language code. */
  const VoiceTable: Dict.Dict<string, string> := [
    ("EN-Default", "EN"),
    ("EN-US", "EN"),
    ("EN-BR", "EN"),
    ("EN_INDIA", "EN"),
    ("EN-AU", "EN"),
    ("ES", "ES"),
    ("FR", "FR"),
    ("ZH", "ZH"),
    ("JP", "JP"),
    ("KR", "KR")
  ]

  /** `set(VOICE_TO_LANG.values())`, the languages a voice can route to. */
  const ValidLangs: set<string> := {"EN", "ES", "FR", "ZH", "JP", "KR"}

  /** The languages of the table, entry by entry: each is valid, and each valid one occurs. */
  lemma TableLanguages()
    ensures forall i :: 0 <= i < |VoiceTable| ==> VoiceTable[i].1 in ValidLangs
    ensures VoiceTable[0].1 == "EN" && VoiceTable[5].1 == "ES" && VoiceTable[6].1 == "FR"
    ensures VoiceTable[7].1 == "ZH" && VoiceTable[8].1 == "JP" && VoiceTable[9].1 == "KR"
  {
  }

  /** ValidLangs is exactly the set of values of the voice table. */
  lemma ValidLangsAreTableValues()
    ensures ValidLangs == set i | 0 <= i < |VoiceTable| :: VoiceTable[i].1
  {
    TableLanguages();
    var langs := set i | 0 <= i < |VoiceTable| :: VoiceTable[i].1;
    assert VoiceTable[0].1 in langs && VoiceTable[5].1 in langs && VoiceTable[6].1 in langs;
    assert VoiceTable[7].1 in langs && VoiceTable[8].1 in langs && VoiceTable[9].1 in langs;
  }

  /** Tells the voice names of the table apart cheaply: their lengths and fourth (or first) letters. */
  function Tag(s: string): (int, char) {
    (|s|, if |s| >= 4 then s[3] else if |s| >= 1 then s[0] else ' ')
  }

  /** The tags of the table's voices, in table order. */
  const VoiceTags: seq<(int, char)> :=
    [(10, 'D'), (5, 'U'), (5, 'B'), (8, 'I'), (5, 'A'), (2, 'E'), (2, 'F'), (2, 'Z'), (2, 'J'), (2, 'K')]

  lemma TagsDistinct()
    ensures Dict.Distinct(VoiceTags)
  {
  }

  lemma TagsOfVoices()
    ensures |VoiceTable| == |VoiceTags|
    ensures forall i :: 0 <= i < |VoiceTags| ==> Tag(VoiceTable[i].0) == VoiceTags[i]
  {
  }

  /** A dict whose keys have pairwise distinct tags has pairwise distinct keys. */
  lemma WellFormedByTag(table: Dict.Dict<string, string>, tags: seq<(int, char)>)
    requires |table| == |tags| && Dict.Distinct(tags)
    requires forall i :: 0 <= i < |tags| ==> Tag(table[i].0) == tags[i]
    ensures Dict.WellFormed(table)
  {
    var keys := Dict.Keys(table);
    forall i, j | 0 <= i < j < |keys| ensures keys[i] != keys[j] {
      assert tags[i] != tags[j];
    }
  }

  /** No voice name occurs twice in VOICE_TO_LANG. */
  lemma VoiceTableWellFormed()
    ensures Dict.WellFormed(VoiceTable)
  {
    TagsOfVoices();
    TagsDistinct();
    WellFormedByTag(VoiceTable, VoiceTags);
  }

  /** The MELOTTS_DEVICE value, "auto" when unset, lower-cased. */
  function DeviceSetting(env: Option<string>): string {
    Lower(if env.None? then "auto" else env.value)
  }

  /**
   * The device engines are placed on: "auto" picks "cuda" when CUDA is available
   * and "cpu" otherwise, "gpu" means "cuda", anything else is kept lower-cased.
   */
  function Device(env: Option<string>, cudaAvailable: bool): (r: string)
    ensures Lower(r) == r
  {
    var d := DeviceSetting(env);
    LowerIdempotent(if env.None? then "auto" else env.value);
    if d == "auto" then (if cudaAvailable then "cuda" else "cpu")
    else if d == "gpu" then "cuda"
    else d
  }

  /** The three outcomes of the device setting; an unset variable behaves as "auto". */
  lemma DeviceChoice(env: Option<string>, cudaAvailable: bool)
    ensures env.None? ==> Device(env, cudaAvailable) == (if cudaAvailable then "cuda" else "cpu")
    ensures env.Some? && Lower(env.value) == "auto" ==> Device(env, cudaAvailable) == (if cudaAvailable then "cuda" else "cpu")
    ensures env.Some? && Lower(env.value) == "gpu" ==> Device(env, cudaAvailable) == "cuda"
    ensures env.Some? && Lower(env.value) != "auto" && Lower(env.value) != "gpu" ==> Device(env, cudaAvailable) == Lower(env.value)
  {
    assert Lower("auto") == "auto";
  }

  /** Feeding the chosen device back in as the setting chooses it again. */
  lemma DeviceIdempotent(env: Option<string>, cudaAvailable: bool)
    ensures Device(Some(Device(env, cudaAvailable)), cudaAvailable) == Device(env, cudaAvailable)
  {
    var d := Device(env, cudaAvailable);
    assert Lower("cuda") == "cuda" && Lower("cpu") == "cpu";
    assert d != "auto" && d != "gpu" by {
      DeviceChoice(env, cudaAvailable);
    }
  }

  /** The MELOTTS_MODELS value, "all" when unset, upper-cased. */
  function ModelsSetting(env: Option<string>): string {
    Upper(if env.None? then "all" else env.value)
  }

  /** The requested tokens: the upper-cased setting split on commas, each piece stripped. */
  function RequestedLangs(setting: string): set<string> {
    set piece | piece in Split(setting, ',') :: Strip(piece)
  }

  /**
   * `models_to_load`: every language of the table for "all" in any case, otherwise
   * the comma-separated tokens that name a language of the table.
   */
  function LangsToLoad(env: Option<string>): (r: set<string>)
    ensures r <= ValidLangs
  {
    var setting := ModelsSetting(env);
    var requested := if setting == "ALL" then ValidLangs else RequestedLangs(setting);
    requested * ValidLangs
  }

  /** "all" is recognised in any letter case, and is the default when the variable is unset. */
  lemma LangsToLoadAll(env: Option<string>)
    requires env.None? || EqualIgnoringCase(env.value, "all")
    ensures LangsToLoad(env) == ValidLangs
  {
    var setting := ModelsSetting(env);
    assert setting == "ALL" by {
      if env.Some? {
        assert UpperChar(env.value[0]) == 'A' && UpperChar(env.value[1]) == 'L' && UpperChar(env.value[2]) == 'L';
        assert setting == [setting[0], setting[1], setting[2]];
      } else {
        assert setting == [UpperChar('a'), UpperChar('l'), UpperChar('l')];
      }
    }
  }

  /**
   * Any other value selects exactly the languages of the table that some comma-separated
   * piece names once stripped and upper-cased; every other piece is dropped without error.
   */
  lemma LangsToLoadPieces(v: string, lang: string)
    requires !EqualIgnoringCase(v, "all")
    ensures lang in LangsToLoad(Some(v))
        <==> lang in ValidLangs && exists piece :: piece in Split(Upper(v), ',') && Strip(piece) == lang
  {
    UpperIsAll(v);
  }

  /** A value without commas names at most one language: itself, stripped and upper-cased. */
  lemma LangsToLoadSingle(v: string)
    requires ',' !in v && !EqualIgnoringCase(v, "all")
    ensures LangsToLoad(Some(v)) == {Strip(Upper(v))} * ValidLangs
  {
    var setting := ModelsSetting(Some(v));
    UpperIsAll(v);
    assert ',' !in setting;
    SplitNoSep(setting, ',');
    assert RequestedLangs(setting) == {Strip(setting)};
  }

  lemma NotALanguage(v: string, token: string)
    requires token !in ValidLangs
    requires LangsToLoad(Some(v)) == {token} * ValidLangs
    ensures LangsToLoad(Some(v)) == {}
  {
  }

  lemma UpperPaddedAll(pre: string, post: string)
    requires AllSpace(pre) && AllSpace(post)
    ensures Upper(pre + "all" + post) == pre + "ALL" + post
  {
    UpperConcat(pre + "all", post);
    UpperConcat(pre, "all");
    UpperSpace(pre);
    UpperSpace(post);
    assert Upper("all") == "ALL";
  }

  /** A whitespace-padded "all" has no comma. */
  lemma PaddedAllNoComma(pre: string, post: string)
    requires AllSpace(pre) && AllSpace(post)
    ensures ',' !in pre + "all" + post
  {
    var v := pre + "all" + post;
    assert forall k :: 0 <= k < |v| ==> IsSpace(v[k]) || v[k] in "all";
  }

  /** A whitespace-padded "all", upper-cased and stripped, is "ALL". */
  lemma PaddedAllStrips(pre: string, post: string)
    requires AllSpace(pre) && AllSpace(post)
    ensures Strip(Upper(pre + "all" + post)) == "ALL"
  {
    UpperPaddedAll(pre, post);
    StripPadded(pre, "ALL", post);
  }

  /** "all" is only special as the whole value: padded with whitespace it names no language at all. */
  lemma LangsToLoadPaddedAll(pre: string, post: string)
    requires AllSpace(pre) && AllSpace(post) && pre + post != []
    ensures LangsToLoad(Some(pre + "all" + post)) == {}
  {
    var v := pre + "all" + post;
    assert LangsToLoad(Some(v)) == {"ALL"} * ValidLangs by {
      PaddedAllStrips(pre, post);
      PaddedAllNoComma(pre, post);
      LangsToLoadSingle(v);
    }
    NotALanguage(v, "ALL");
  }
}
