/**
 * The untyped view of the configuration file: a JSON object decoded into a
 * key/value map, updated in place so that keys the program does not know
 * about survive a save, and stamped with "_"-prefixed markers that document
 * the defaults to whoever edits the file by hand.
 *
 * Object keys are classified once: the question list, one of the nine
 * setting keys, one of the nine marker keys, or any other name. `KeyName`
 * spells each class out as the JSON key and is injective, so a map over
 * `Key` is the same object as Go's `map[string]any`.
 *
 * Source: internal/app/app.go (`applyConfigToMap`, `setOptionalBool`,
 * `setOptionalInt`, `applyDefaultMarkers`, `defaultConfigMarkers`,
 * `configValuesEqual`).
 */
module ConfigMap {
  import opened Base
  import opened AppConfig

  /**
   * A decoded JSON value, reduced to the shapes the configuration uses.
   * Integral numbers are exact integers; anything else is `JOther`.
   */
  datatype JsonValue = JBool(b: bool) | JNumber(n: int) | JStrings(items: seq<string>) | JOther

  /** One of the nine optional settings. */
  datatype Setting = FlagSetting(flag: Flag) | TimingSetting(timing: Timing)

  /** A key of the configuration object. */
  datatype Key = Questions | Field(setting: Setting) | Marker(marked: Setting) | Other(name: string)

  type RawConfig = map<Key, JsonValue>

  /** The nine settings, in the order `applyConfigToMap` writes them. */
  const Settings: seq<Setting> := [
    FlagSetting(ShowHints), FlagSetting(AutoInsertEntries), FlagSetting(DefaultListMode),
    FlagSetting(AutoOpenIndexJump), FlagSetting(ConfirmDelete), FlagSetting(ContinueInsertAfterSave),
    FlagSetting(ConfirmEscapeWithText), TimingSetting(StatusMessageDurationMs), TimingSetting(EscapeConfirmTimeoutMs)
  ]

  /** The JSON name of each setting. */
  function SettingName(s: Setting): string {
    match s
    case FlagSetting(ShowHints) => "showHints"
    case FlagSetting(AutoInsertEntries) => "autoInsertEntries"
    case FlagSetting(DefaultListMode) => "defaultListMode"
    case FlagSetting(AutoOpenIndexJump) => "autoOpenIndexJump"
    case FlagSetting(ConfirmDelete) => "confirmDelete"
    case FlagSetting(ContinueInsertAfterSave) => "continueInsertAfterSave"
    case FlagSetting(ConfirmEscapeWithText) => "confirmEscapeWithText"
    case TimingSetting(StatusMessageDurationMs) => "statusMessageDurationMs"
    case TimingSetting(EscapeConfirmTimeoutMs) => "escapeConfirmTimeoutMs"
  }

  /** The JSON spelling of a key; a marker is its setting's name behind an underscore. */
  function KeyName(k: Key): string {
    match k
    case Questions => "questions"
    case Field(s) => SettingName(s)
    case Marker(s) => "_" + SettingName(s)
    case Other(name) => name
  }

  /** The position of a setting in `Settings`. */
  function SettingIndex(s: Setting): (i: nat)
    ensures i < |Settings| && Settings[i] == s
  {
    match s
    case FlagSetting(ShowHints) => 0
    case FlagSetting(AutoInsertEntries) => 1
    case FlagSetting(DefaultListMode) => 2
    case FlagSetting(AutoOpenIndexJump) => 3
    case FlagSetting(ConfirmDelete) => 4
    case FlagSetting(ContinueInsertAfterSave) => 5
    case FlagSetting(ConfirmEscapeWithText) => 6
    case TimingSetting(StatusMessageDurationMs) => 7
    case TimingSetting(EscapeConfirmTimeoutMs) => 8
  }

  /** An `Other` key is one whose name none of the known keys has. */
  ghost predicate WellClassified(k: Key) {
    k.Other? ==> k.name != "questions" && forall s :: k.name != SettingName(s) && k.name != "_" + SettingName(s)
  }

  lemma SettingNameInjective(s: Setting, u: Setting)
    ensures SettingName(s) == SettingName(u) ==> s == u
  {
  }

  /** A marker name starts with an underscore and a setting name does not; neither is "questions". */
  lemma KeyNameHead(k: Key)
    ensures k.Marker? ==> |KeyName(k)| > 0 && KeyName(k)[0] == '_' && KeyName(k)[1..] == SettingName(k.marked)
    ensures k.Field? ==> |KeyName(k)| > 0 && KeyName(k)[0] != '_' && KeyName(k) != "questions"
  {
  }

  /** Different well-classified keys have different JSON names. */
  lemma KeyNameInjective(k: Key, j: Key)
    requires WellClassified(k) && WellClassified(j)
    ensures KeyName(k) == KeyName(j) ==> k == j
  {
    KeyNameHead(k);
    KeyNameHead(j);
    if k.Marker? && j.Marker? {
      SettingNameInjective(k.marked, j.marked);
    }
    if k.Field? && j.Field? {
      SettingNameInjective(k.setting, j.setting);
    }
  }

  /** `setOptionalBool`: a nil pointer deletes the key, otherwise the key gets the value. */
  function SetOptionalBool(raw: RawConfig, key: Key, value: Option<bool>): (r: RawConfig)
    ensures value.None? ==> key !in r
    ensures value.Some? ==> key in r && r[key] == JBool(value.value)
    ensures forall k :: k != key ==> (k in r <==> k in raw) && (k in r ==> r[k] == raw[k])
  {
    match value
    case None => raw - {key}
    case Some(v) => raw[key := JBool(v)]
  }

  /** `setOptionalInt`: a nil pointer deletes the key, otherwise the key gets the value. */
  function SetOptionalInt(raw: RawConfig, key: Key, value: Option<int>): (r: RawConfig)
    ensures value.None? ==> key !in r
    ensures value.Some? ==> key in r && r[key] == JNumber(value.value)
    ensures forall k :: k != key ==> (k in r <==> k in raw) && (k in r ==> r[k] == raw[k])
  {
    match value
    case None => raw - {key}
    case Some(v) => raw[key := JNumber(v)]
  }

  /** The JSON value a configuration stores for a setting, if it sets it. */
  function SettingValue(cfg: Config, s: Setting): Option<JsonValue> {
    match s
    case FlagSetting(f) => if f in cfg.flags then Some(JBool(cfg.flags[f])) else None
    case TimingSetting(t) => if t in cfg.timings then Some(JNumber(cfg.timings[t])) else None
  }

  /** One `setOptionalBool` / `setOptionalInt` line of `applyConfigToMap`. */
  function ApplySetting(raw: RawConfig, cfg: Config, s: Setting): (r: RawConfig)
    ensures Field(s) in r <==> SettingValue(cfg, s).Some?
    ensures Field(s) in r ==> r[Field(s)] == SettingValue(cfg, s).value
    ensures forall k :: k != Field(s) ==> (k in r <==> k in raw) && (k in r ==> r[k] == raw[k])
  {
    match s
    case FlagSetting(f) => SetOptionalBool(raw, Field(s), if f in cfg.flags then Some(cfg.flags[f]) else None)
    case TimingSetting(t) => SetOptionalInt(raw, Field(s), if t in cfg.timings then Some(cfg.timings[t]) else None)
  }

  /** The setting lines of `applyConfigToMap`, applied in order. */
  function ApplySettings(raw: RawConfig, cfg: Config, ss: seq<Setting>): RawConfig
    decreases |ss|
  {
    if |ss| == 0 then raw else ApplySettings(ApplySetting(raw, cfg, ss[0]), cfg, ss[1..])
  }

  /** Applying the lines of a setting list stores those settings and touches no other key. */
  lemma {:induction false} ApplySettingsFacts(raw: RawConfig, cfg: Config, ss: seq<Setting>)
    ensures var r := ApplySettings(raw, cfg, ss);
      && (forall s :: s in ss ==> (Field(s) in r <==> SettingValue(cfg, s).Some?))
      && (forall s :: s in ss && Field(s) in r ==> r[Field(s)] == SettingValue(cfg, s).value)
      && (forall k: Key :: !(k.Field? && k.setting in ss) ==> (k in r <==> k in raw) && (k in r ==> r[k] == raw[k]))
    decreases |ss|
  {
    if |ss| > 0 {
      var raw' := ApplySetting(raw, cfg, ss[0]);
      var rest := ss[1..];
      ApplySettingsFacts(raw', cfg, rest);
      assert ss == [ss[0]] + rest;
    }
  }

  lemma AllSettingsListed(s: Setting)
    ensures s in Settings
  {
    var _ := SettingIndex(s);
  }

  /** All nine setting lines together store exactly the configuration's settings. */
  lemma SettingsStored(raw: RawConfig, cfg: Config)
    ensures var r := ApplySettings(raw, cfg, Settings);
      forall s :: (Field(s) in r <==> SettingValue(cfg, s).Some?) && (Field(s) in r ==> r[Field(s)] == SettingValue(cfg, s).value)
  {
    ApplySettingsFacts(raw, cfg, Settings);
    forall s ensures s in Settings { AllSettingsListed(s); }
  }

  /** All nine setting lines together leave every key but the settings' own alone. */
  lemma SettingsKeepOthers(raw: RawConfig, cfg: Config)
    ensures var r := ApplySettings(raw, cfg, Settings);
      forall k: Key :: !k.Field? ==> (k in r <==> k in raw) && (k in r ==> r[k] == raw[k])
  {
    ApplySettingsFacts(raw, cfg, Settings);
  }

  /**
   * `applyConfigToMap`: writes the question list and the nine optional
   * settings of `cfg` into the decoded file, deleting the settings `cfg`
   * leaves unset; every other key, markers included, keeps its value.
   */
  function ApplyConfigToMap(raw: RawConfig, cfg: Config): (r: RawConfig)
    ensures Questions in r && r[Questions] == JStrings(cfg.questions)
    ensures forall s :: Field(s) in r <==> SettingValue(cfg, s).Some?
    ensures forall s :: Field(s) in r ==> r[Field(s)] == SettingValue(cfg, s).value
    ensures forall k: Key :: !k.Questions? && !k.Field? ==> (k in r <==> k in raw) && (k in r ==> r[k] == raw[k])
  {
    var r0 := raw[Questions := JStrings(cfg.questions)];
    SettingsStored(r0, cfg);
    SettingsKeepOthers(r0, cfg);
    ApplySettings(r0, cfg, Settings)
  }

  /**
   * Reading the known keys back out of a decoded file, as decoding into the
   * typed struct does for values of the right shape.
   */
  function ConfigFromMap(raw: RawConfig): (cfg: Config)
    ensures forall f :: f in cfg.flags <==> Field(FlagSetting(f)) in raw && raw[Field(FlagSetting(f))].JBool?
    ensures forall f :: f in cfg.flags ==> cfg.flags[f] == raw[Field(FlagSetting(f))].b
    ensures forall t :: t in cfg.timings <==> Field(TimingSetting(t)) in raw && raw[Field(TimingSetting(t))].JNumber?
    ensures forall t :: t in cfg.timings ==> cfg.timings[t] == raw[Field(TimingSetting(t))].n
  {
    var questions := if Questions in raw && raw[Questions].JStrings? then raw[Questions].items else [];
    var flags := map f: Flag | f in AllFlags && Field(FlagSetting(f)) in raw && raw[Field(FlagSetting(f))].JBool?
      :: raw[Field(FlagSetting(f))].b;
    var timings := map t: Timing | t in AllTimings && Field(TimingSetting(t)) in raw && raw[Field(TimingSetting(t))].JNumber?
      :: raw[Field(TimingSetting(t))].n;
    assert forall f :: f in AllFlags by { forall f ensures f in AllFlags { AllFlagsComplete(f); } }
    assert forall t :: t in AllTimings by { forall t ensures t in AllTimings { AllTimingsComplete(t); } }
    Config(questions, flags, timings)
  }

  /** Two maps that agree on every key are equal. */
  lemma MapsAgree<K, V>(a: map<K, V>, b: map<K, V>)
    requires forall k :: (k in a <==> k in b) && (k in a ==> a[k] == b[k])
    ensures a == b
  {
  }

  lemma RoundTripFlag(raw: RawConfig, cfg: Config, f: Flag)
    ensures var back := ConfigFromMap(ApplyConfigToMap(raw, cfg)).flags;
      (f in back <==> f in cfg.flags) && (f in cfg.flags ==> back[f] == cfg.flags[f])
  {
    assert SettingValue(cfg, FlagSetting(f)).Some? <==> f in cfg.flags;
  }

  lemma RoundTripTiming(raw: RawConfig, cfg: Config, t: Timing)
    ensures var back := ConfigFromMap(ApplyConfigToMap(raw, cfg)).timings;
      (t in back <==> t in cfg.timings) && (t in cfg.timings ==> back[t] == cfg.timings[t])
  {
    assert SettingValue(cfg, TimingSetting(t)).Some? <==> t in cfg.timings;
  }

  lemma RoundTripFlags(raw: RawConfig, cfg: Config)
    ensures ConfigFromMap(ApplyConfigToMap(raw, cfg)).flags == cfg.flags
  {
    var back := ConfigFromMap(ApplyConfigToMap(raw, cfg)).flags;
    forall f ensures (f in back <==> f in cfg.flags) && (f in back ==> back[f] == cfg.flags[f]) {
      RoundTripFlag(raw, cfg, f);
    }
    MapsAgree(back, cfg.flags);
  }

  lemma RoundTripTimings(raw: RawConfig, cfg: Config)
    ensures ConfigFromMap(ApplyConfigToMap(raw, cfg)).timings == cfg.timings
  {
    var back := ConfigFromMap(ApplyConfigToMap(raw, cfg)).timings;
    forall t ensures (t in back <==> t in cfg.timings) && (t in back ==> back[t] == cfg.timings[t]) {
      RoundTripTiming(raw, cfg, t);
    }
    MapsAgree(back, cfg.timings);
  }

  /** Writing a configuration into any decoded file and reading it back gives the configuration. */
  lemma ApplyConfigRoundTrip(raw: RawConfig, cfg: Config)
    ensures ConfigFromMap(ApplyConfigToMap(raw, cfg)) == cfg
  {
    RoundTripFlags(raw, cfg);
    RoundTripTimings(raw, cfg);
  }

  // ---------------------------------------------------------------------------
  // Default markers
  // ---------------------------------------------------------------------------

  /** `defaultConfigMarkers`: each marker holds its setting's built-in default, numbers as JSON numbers. */
  function MarkerDefault(s: Setting): JsonValue {
    match s
    case FlagSetting(f) => JBool(FlagDefault(f))
    case TimingSetting(_) => JNumber(DefaultTimingMs)
  }

  /** Every marker is present with its default value (`configValuesEqual` on these shapes is equality). */
  ghost predicate MarkersCurrent(raw: RawConfig) {
    forall s :: Marker(s) in raw && raw[Marker(s)] == MarkerDefault(s)
  }

  /** The loop of `applyDefaultMarkers` over the listed settings' markers. */
  method SetMissingMarkers(raw: RawConfig, ss: seq<Setting>) returns (r: RawConfig, changed: bool)
    requires forall i, j :: 0 <= i < j < |ss| ==> ss[i] != ss[j]
    ensures forall s :: s in ss ==> Marker(s) in r && r[Marker(s)] == MarkerDefault(s)
    ensures changed <==> exists s :: s in ss && !(Marker(s) in raw && raw[Marker(s)] == MarkerDefault(s))
    ensures !changed ==> r == raw
    ensures forall k: Key :: !(k.Marker? && k.marked in ss) ==> (k in r <==> k in raw) && (k in r ==> r[k] == raw[k])
  {
    r := raw;
    changed := false;
    var i := 0;
    while i < |ss|
      invariant 0 <= i <= |ss|
      invariant forall j :: 0 <= j < i ==> Marker(ss[j]) in r && r[Marker(ss[j])] == MarkerDefault(ss[j])
      invariant forall j :: i <= j < |ss| ==> (Marker(ss[j]) in r <==> Marker(ss[j]) in raw)
      invariant forall j :: i <= j < |ss| && Marker(ss[j]) in r ==> r[Marker(ss[j])] == raw[Marker(ss[j])]
      invariant forall k: Key :: !(k.Marker? && k.marked in ss) ==> (k in r <==> k in raw) && (k in r ==> r[k] == raw[k])
      invariant changed <==> exists j :: 0 <= j < i && !(Marker(ss[j]) in raw && raw[Marker(ss[j])] == MarkerDefault(ss[j]))
      invariant !changed ==> r == raw
    {
      var key := Marker(ss[i]);
      if !(key in r && r[key] == MarkerDefault(ss[i])) {
        r := r[key := MarkerDefault(ss[i])];
        changed := true;
      }
      i := i + 1;
    }
  }

  /**
   * `applyDefaultMarkers`: sets each marker key that is missing or holds a
   * different value, and reports whether it set any. Afterwards all markers
   * are current, so a second call reports nothing; other keys are untouched.
   */
  method ApplyDefaultMarkers(raw: RawConfig) returns (r: RawConfig, changed: bool)
    ensures MarkersCurrent(r)
    ensures changed <==> !MarkersCurrent(raw)
    ensures !changed ==> r == raw
    ensures forall k: Key :: !k.Marker? ==> (k in r <==> k in raw) && (k in r ==> r[k] == raw[k])
  {
    r, changed := SetMissingMarkers(raw, Settings);
    forall s ensures s in Settings { var _ := SettingIndex(s); }
  }
}
