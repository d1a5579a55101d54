/**
 * What makes a stored value a usable save record (`validate` and
 * `validateGameState` of the storage manager), and how a damaged record
 * is patched up with defaults (`attemptDataRecovery`).
 */
module SaveData {
  import opened Wrappers
  import opened JsonValue
  import JsText

  const Version := "1.0.0"

  /** The members a save record must have */
  const RequiredFields: seq<string> :=
    ["version", "playerName", "profession", "gameState", "currentDay", "currentNode", "lastSaveTime", "createdTime"]

  /** The members a saved game state must have */
  const GameStateFields: seq<string> := ["time", "profession", "hunger", "energy", "sanity"]

  /** The members of a saved game state that, where present, must be numbers */
  const NumericFields: seq<string> := ["time", "hunger", "energy", "sanity", "intelligence", "strength", "speed", "luck"]

  /** A stat that, if it is a number, lies in [0, 100] */
  predicate PercentOrOther(o: Option<Json>) {
    o.Some? && o.value.JNum? ==> 0 <= o.value.n <= 100
  }

  /** Every one of the members `fs` is present (`field in v` for each) */
  predicate HasFields(v: Json, fs: seq<string>) {
    forall i :: 0 <= i < |fs| ==> Get(v, fs[i]).Some?
  }

  /** `validateGameState` */
  predicate IsValidGameState(gs: Json) {
    && Truthy(gs) && IsObjectType(gs)
    && HasFields(gs, GameStateFields)
    && (forall i :: 0 <= i < |NumericFields| ==> Get(gs, NumericFields[i]).Some? ==> Get(gs, NumericFields[i]).value.JNum?)
    && TruthyField(Get(gs, "profession"))
    && PercentOrOther(Get(gs, "hunger"))
    && PercentOrOther(Get(gs, "energy"))
    && PercentOrOther(Get(gs, "sanity"))
  }

  /** Text made of white space only (what `trim()` turns into the empty string) */
  predicate Blank(s: string) {
    forall i :: 0 <= i < |s| ==> JsText.IsJsSpace(s[i])
  }

  /** A truthy string that is not all white space */
  predicate IsPlayerName(o: Option<Json>) {
    o.Some? && o.value.JStr? && !Blank(o.value.s)
  }

  /** The professions `validate` accepts (the game's ten) */
  const ValidProfessions: seq<string> := ["学生", "老人", "残疾人", "律师", "医生", "教师", "工人", "警察", "艺术家", "商人"]

  predicate IsProfession(o: Option<Json>) {
    o.Some? && o.value.JStr? && o.value.s in ValidProfessions
  }

  /** A number that is at least 1 */
  predicate IsDay(o: Option<Json>) {
    o.Some? && o.value.JNum? && o.value.n >= 1
  }

  /** `validate`: a record the game can load */
  predicate IsValidSave(d: Json) {
    && Truthy(d) && IsObjectType(d)
    && HasFields(d, RequiredFields)
    && Get(d, "version") == Some(JStr(Version))
    && IsPlayerName(Get(d, "playerName"))
    && IsProfession(Get(d, "profession"))
    && IsDay(Get(d, "currentDay"))
    && Get(d, "gameState").Some? && IsValidGameState(Get(d, "gameState").value)
  }

  /** The loop over a list of member names that fails at the first one missing */
  method CheckFields(v: Json, fs: seq<string>) returns (ok: bool)
    ensures ok <==> HasFields(v, fs)
  {
    for i := 0 to |fs|
      invariant forall j :: 0 <= j < i ==> Get(v, fs[j]).Some?
    {
      if Get(v, fs[i]).None? {
        return false;
      }
    }
    return true;
  }

  /** `validateGameState`, check by check as the storage manager makes them */
  method ValidateGameState(gs: Json) returns (ok: bool)
    ensures ok <==> IsValidGameState(gs)
  {
    if !Truthy(gs) || !IsObjectType(gs) {
      return false;
    }
    var complete := CheckFields(gs, GameStateFields);
    if !complete {
      return false;
    }
    for i := 0 to |NumericFields|
      invariant forall j :: 0 <= j < i ==> Get(gs, NumericFields[j]).Some? ==> Get(gs, NumericFields[j]).value.JNum?
    {
      var f := Get(gs, NumericFields[i]);
      if f.Some? && !f.value.JNum? {
        return false;
      }
    }
    if !TruthyField(Get(gs, "profession")) {
      return false;
    }
    ok := PercentOrOther(Get(gs, "hunger")) && PercentOrOther(Get(gs, "energy")) && PercentOrOther(Get(gs, "sanity"));
  }

  /** `validate`, check by check as the storage manager makes them */
  method Validate(data: Json) returns (ok: bool)
    ensures ok <==> IsValidSave(data)
  {
    if !Truthy(data) || !IsObjectType(data) {
      return false;
    }
    var complete := CheckFields(data, RequiredFields);
    if !complete {
      return false;
    }
    if Get(data, "version") != Some(JStr(Version)) {
      return false;
    }
    var name := Get(data, "playerName");
    if !TruthyField(name) || !name.value.JStr? {
      return false;
    }
    JsText.TrimEmptyIffBlank(name.value.s);
    if JsText.Trim(name.value.s) == [] {
      return false;
    }
    if !IsProfession(Get(data, "profession")) {
      return false;
    }
    if !IsDay(Get(data, "currentDay")) {
      return false;
    }
    assert RequiredFields[3] == "gameState";
    ok := ValidateGameState(Get(data, "gameState").value);
  }

  /** The required members of a record, one by one */
  lemma HasRequiredFields(d: Json)
    requires Get(d, "version").Some? && Get(d, "playerName").Some? && Get(d, "profession").Some?
    requires Get(d, "gameState").Some? && Get(d, "currentDay").Some? && Get(d, "currentNode").Some?
    requires Get(d, "lastSaveTime").Some? && Get(d, "createdTime").Some?
    ensures HasFields(d, RequiredFields)
  {
  }

  /** The required and numeric members of a game state, one by one */
  lemma HasGameStateFields(gs: Json)
    requires Get(gs, "time").Some? && Get(gs, "profession").Some?
    requires Get(gs, "hunger").Some? && Get(gs, "energy").Some? && Get(gs, "sanity").Some?
    requires Get(gs, "time").value.JNum? && Get(gs, "hunger").value.JNum?
    requires Get(gs, "energy").value.JNum? && Get(gs, "sanity").value.JNum?
    requires Get(gs, "intelligence").Some? ==> Get(gs, "intelligence").value.JNum?
    requires Get(gs, "strength").Some? ==> Get(gs, "strength").value.JNum?
    requires Get(gs, "speed").Some? ==> Get(gs, "speed").value.JNum?
    requires Get(gs, "luck").Some? ==> Get(gs, "luck").value.JNum?
    ensures HasFields(gs, GameStateFields)
    ensures forall i :: 0 <= i < |NumericFields| ==> Get(gs, NumericFields[i]).Some? ==> Get(gs, NumericFields[i]).value.JNum?
  {
  }

  // ------------------------------------------------------------ recovery

  /** `getDefaultGameState` */
  const DefaultGameState := JObj(
    ["time", "profession", "hunger", "energy", "sanity", "intelligence", "strength", "speed", "luck"],
    map["time" := JNum(0), "profession" := JStr("学生"), "hunger" := JNum(50), "energy" := JNum(100),
        "sanity" := JNum(100), "intelligence" := JNum(50), "strength" := JNum(50), "speed" := JNum(50),
        "luck" := JNum(50)])

  /** The member names of a save record, in the order `attemptDataRecovery` writes them */
  const RecordKeys: seq<string> :=
    ["version", "playerName", "profession", "gameState", "rulePapers", "clearRules", "currentDay",
     "currentNode", "gameConfigPath", "lastSaveTime", "createdTime", "saveCount"]

  /** The value `attemptDataRecovery` puts in member `k` when the record has none, or a falsy one */
  function DefaultFor(k: string, now: int): Json {
    if k == "version" then JStr(Version)
    else if k == "playerName" then JStr("Unknown")
    else if k == "profession" then JStr("学生")
    else if k == "gameState" then DefaultGameState
    else if k == "rulePapers" || k == "clearRules" then JArr([])
    else if k == "currentDay" then JNum(1)
    else if k == "currentNode" then JStr("start")
    else if k == "gameConfigPath" then JStr("")
    else if k == "lastSaveTime" || k == "createdTime" then JNum(now)
    else JNum(0)
  }

  /** The same names, as a set */
  const RecordKeySet: set<string> :=
    {"version", "playerName", "profession", "gameState", "rulePapers", "clearRules", "currentDay",
     "currentNode", "gameConfigPath", "lastSaveTime", "createdTime", "saveCount"}

  /** The record `attemptDataRecovery` builds: every falsy or missing member replaced by its default */
  function Recovered(data: Json, now: int): (r: Json)
    ensures r.JObj? && r.keys == RecordKeys
  {
    JObj(RecordKeys, map k | k in RecordKeySet :: Or(Get(data, k), DefaultFor(k, now)))
  }

  /**
   * `attemptDataRecovery(data)` at time `now`: the patched record when
   * it validates, otherwise None.  Reading a member of `null` throws,
   * and the failure is caught, so `null` recovers to None.
   */
  function Recover(data: Json, now: int): (r: Option<Json>)
    ensures r.Some? ==> IsValidSave(r.value)
    ensures data.JNull? ==> r.None?
  {
    if data.JNull? then None
    else
      var rec := Recovered(data, now);
      if IsValidSave(rec) then Some(rec) else None
  }

  /** The record recovered from a value that has none of a save record's members */
  function DefaultRecord(now: int): (r: Json)
    ensures r.JObj? && r.keys == RecordKeys
  {
    JObj(RecordKeys, map k | k in RecordKeySet :: DefaultFor(k, now))
  }

  /** The default game state passes `validateGameState`. */
  lemma DefaultGameStateValid()
    ensures IsValidGameState(DefaultGameState)
  {
    HasGameStateFields(DefaultGameState);
  }

  /** The record recovered from nothing passes `validate`. */
  lemma DefaultRecordValid(now: int)
    ensures IsValidSave(DefaultRecord(now))
  {
    var r := DefaultRecord(now);
    HasRequiredFields(r);
    DefaultGameStateValid();
    assert !JsText.IsJsSpace("Unknown"[0]);
  }

  /**
   * A value with no member of a save record, other than `null` (a number,
   * a string, an array, an empty object, ...), recovers to the default
   * record stamped with `now`.
   */
  lemma RecoverEmpty(data: Json, now: int)
    requires !data.JNull?
    requires forall k :: Get(data, k).None?
    ensures Recover(data, now) == Some(DefaultRecord(now))
  {
    assert Recovered(data, now) == DefaultRecord(now);
    DefaultRecordValid(now);
  }

  /**
   * Recovery leaves a valid record's identity alone: it succeeds and
   * keeps the version, player, profession, game state and day.
   */
  lemma RecoverValid(data: Json, now: int)
    requires IsValidSave(data)
    ensures Recover(data, now).Some?
    ensures var r := Recover(data, now).value;
      && Get(r, "version") == Get(data, "version")
      && Get(r, "playerName") == Get(data, "playerName")
      && Get(r, "profession") == Get(data, "profession")
      && Get(r, "gameState") == Get(data, "gameState")
      && Get(r, "currentDay") == Get(data, "currentDay")
  {
    var r := Recovered(data, now);
    assert TruthyField(Get(data, "version"));
    assert TruthyField(Get(data, "playerName"));
    assert TruthyField(Get(data, "profession"));
    assert TruthyField(Get(data, "gameState"));
    assert TruthyField(Get(data, "currentDay"));
    HasRequiredFields(r);
  }

  /** A name of white space only is truthy, so recovery keeps it, and the record stays invalid. */
  lemma RecoverBlankName(data: Json, now: int)
    requires Get(data, "playerName") == Some(JStr(" "))
    ensures Recover(data, now).None?
  {
    assert Get(Recovered(data, now), "playerName") == Some(JStr(" "));
    assert Blank(" ");
  }

  /** A record without rule papers, clear rules, configuration path or count, as in the storage tests, is valid. */
  lemma SparseRecordValid(now: int)
    ensures IsValidSave(JObj(
      ["version", "playerName", "profession", "gameState", "currentDay", "currentNode", "lastSaveTime", "createdTime"],
      map["version" := JStr("1.0.0"), "playerName" := JStr("TestPlayer"), "profession" := JStr("学生"),
          "gameState" := DefaultGameState, "currentDay" := JNum(1), "currentNode" := JStr("start"),
          "lastSaveTime" := JNum(now), "createdTime" := JNum(now)]))
  {
    DefaultGameStateValid();
    assert !JsText.IsJsSpace("TestPlayer"[0]);
  }
}
