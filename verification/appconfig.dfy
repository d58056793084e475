/**
 * The persisted configuration and the defaults read through it.
 *
 * Each optional setting of the JSON file is a pointer in the Go struct: absent
 * (nil) means "use the built-in default". Here the seven boolean settings and
 * the two millisecond settings are named by the enumerations `Flag` and
 * `Timing`, and a configuration stores only the settings that are present.
 *
 * Source: internal/app/app.go (`DefaultQuestions`, the `default*` constants,
 * `Config`, `ensureDefaults` and the getters).
 */
module AppConfig {

  /** The questions used when the configuration lists none. */
  const DefaultQuestions: seq<string> := [
    "What did you do yesterday?",
    "What will/did you do today?",
    "Are you blocked with anything?"
  ]

  /** The optional boolean settings. */
  datatype Flag =
    | ShowHints
    | AutoInsertEntries
    | DefaultListMode
    | AutoOpenIndexJump
    | ConfirmDelete
    | ContinueInsertAfterSave
    | ConfirmEscapeWithText

  /** The optional millisecond settings. */
  datatype Timing = StatusMessageDurationMs | EscapeConfirmTimeoutMs

  const AllFlags: set<Flag> := {
    ShowHints, AutoInsertEntries, DefaultListMode, AutoOpenIndexJump,
    ConfirmDelete, ContinueInsertAfterSave, ConfirmEscapeWithText
  }

  const AllTimings: set<Timing> := {StatusMessageDurationMs, EscapeConfirmTimeoutMs}

  lemma AllFlagsComplete(f: Flag)
    ensures f in AllFlags
  {
  }

  lemma AllTimingsComplete(t: Timing)
    ensures t in AllTimings
  {
  }

  /** The built-in value of each boolean setting: only list mode is off by default. */
  function FlagDefault(f: Flag): bool {
    match f
    case ShowHints => true
    case AutoInsertEntries => true
    case DefaultListMode => false
    case AutoOpenIndexJump => true
    case ConfirmDelete => true
    case ContinueInsertAfterSave => true
    case ConfirmEscapeWithText => true
  }

  /** Both millisecond settings default to one second. */
  const DefaultTimingMs: int := 1000

  /**
   * The configuration record. `flags` and `timings` hold exactly the settings
   * whose pointer is non-nil. Go stores the milliseconds in a 64-bit `int`;
   * the model keeps them as unbounded integers, and any sign may be stored.
   */
  datatype Config = Config(questions: seq<string>, flags: map<Flag, bool>, timings: map<Timing, int>)

  /** The boolean getters (`HintsEnabled`, `AutoInsertEnabled`, ...): the stored value, else the default. */
  function Enabled(cfg: Config, f: Flag): (b: bool)
    ensures f in cfg.flags ==> b == cfg.flags[f]
    ensures f !in cfg.flags ==> b == FlagDefault(f)
  {
    if f in cfg.flags then cfg.flags[f] else FlagDefault(f)
  }

  /**
   * `StatusMessageDuration` / `EscapeConfirmTimeout`, in milliseconds: the
   * stored value when it is positive, else one second. The result is always positive.
   */
  function DurationMs(cfg: Config, t: Timing): (ms: int)
    ensures ms > 0
    ensures t in cfg.timings && cfg.timings[t] > 0 ==> ms == cfg.timings[t]
    ensures !(t in cfg.timings && cfg.timings[t] > 0) ==> ms == DefaultTimingMs
  {
    if t in cfg.timings && cfg.timings[t] > 0 then cfg.timings[t] else DefaultTimingMs
  }

  /** What `ensureDefaults` establishes: some questions, and only positive timings stored. */
  predicate Normalized(cfg: Config) {
    && |cfg.questions| > 0
    && forall t :: t in cfg.timings ==> cfg.timings[t] > 0
  }

  /**
   * `ensureDefaults`: an empty question list becomes the default questions and
   * a non-positive timing is dropped; the boolean settings are untouched.
   */
  function EnsureDefaults(cfg: Config): (r: Config)
    ensures Normalized(r)
    ensures |cfg.questions| > 0 ==> r.questions == cfg.questions
    ensures |cfg.questions| == 0 ==> r.questions == DefaultQuestions
    ensures r.flags == cfg.flags
    ensures forall t :: t in r.timings <==> t in cfg.timings && cfg.timings[t] > 0
    ensures forall t :: t in r.timings ==> r.timings[t] == cfg.timings[t]
  {
    var questions := if |cfg.questions| == 0 then DefaultQuestions else cfg.questions;
    var timings := map t | t in cfg.timings && cfg.timings[t] > 0 :: cfg.timings[t];
    Config(questions, cfg.flags, timings)
  }

  /** `ensureDefaults` leaves a normalized configuration as it is, so applying it twice is applying it once. */
  lemma EnsureDefaultsFixesNormalized(cfg: Config)
    ensures Normalized(cfg) ==> EnsureDefaults(cfg) == cfg
    ensures EnsureDefaults(EnsureDefaults(cfg)) == EnsureDefaults(cfg)
  {
    if Normalized(cfg) {
      assert EnsureDefaults(cfg).timings == cfg.timings;
    }
    var once := EnsureDefaults(cfg);
    assert EnsureDefaults(once).timings == once.timings;
  }

  /** Defaulting changes no setting a getter reports. */
  lemma EnsureDefaultsPreservesGetters(cfg: Config, f: Flag, t: Timing)
    ensures Enabled(EnsureDefaults(cfg), f) == Enabled(cfg, f)
    ensures DurationMs(EnsureDefaults(cfg), t) == DurationMs(cfg, t)
  {
  }
}
