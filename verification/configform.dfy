/**
 * The interactive configuration form: the questions, then an "add question"
 * row, then the seven boolean options and the two millisecond options. Every
 * option shows either a custom value or its default; edits stay in the form
 * until written, and quitting with unsaved changes takes a second q.
 *
 * Writing and reading the configuration file and the external editor are
 * answered by a `FormEnv`; the form itself is a record and every message a
 * pure transition.
 *
 * Source: internal/tuiapp/config.go.
 */
module ConfigForm {
  import opened Base
  import opened Text
  import opened AppConfig
  import opened Terminal
  import Rows
  import Journal

  // ---------------------------------------------------------------------------
  // The edited values
  // ---------------------------------------------------------------------------

  /** A boolean option: its value, and whether it is a custom choice (else it is the default). */
  datatype Toggle = Toggle(value: bool, custom: bool)

  /** A millisecond option: its value, and whether it was set explicitly. */
  datatype Duration = Duration(ms: int, explicit: bool)

  /** `configValues`: the questions and one entry per option. */
  datatype Values = Values(questions: seq<string>, toggles: map<Flag, Toggle>, durations: map<Timing, Duration>)

  /** Every option has an entry. */
  predicate Complete(v: Values) {
    (forall fl: Flag :: fl in v.toggles) && (forall t: Timing :: t in v.durations)
  }

  /**
   * The shape every value the form produces has: a non-custom option shows
   * its default, and a millisecond option is positive when set and the
   * one-second default when not.
   */
  predicate Canonical(v: Values) {
    && Complete(v)
    && (forall f :: f in v.toggles && !v.toggles[f].custom ==> v.toggles[f].value == FlagDefault(f))
    && (forall t :: t in v.durations && v.durations[t].explicit ==> v.durations[t].ms > 0)
    && (forall t :: t in v.durations && !v.durations[t].explicit ==> v.durations[t].ms == DefaultTimingMs)
  }

  /** The value `newConfigValues` falls back to when the resolved duration is not positive. */
  function FallbackMs(t: Timing): int {
    match t
    case StatusMessageDurationMs => 2000
    case EscapeConfirmTimeoutMs => 1000
  }

  /** `newConfigValues`: each option as the configuration resolves it, marked custom when stored. */
  function FromConfig(cfg: Config): (v: Values)
    ensures Canonical(v)
    ensures v.questions == cfg.questions
    ensures forall f :: f in AllFlags ==> v.toggles[f].value == Enabled(cfg, f) && (v.toggles[f].custom <==> f in cfg.flags)
    ensures forall t :: t in AllTimings ==>
      && v.durations[t].ms == DurationMs(cfg, t)
      && (v.durations[t].explicit <==> t in cfg.timings && cfg.timings[t] > 0)
  {
    var toggles := map f | f in AllFlags :: Toggle(Enabled(cfg, f), f in cfg.flags);
    var durations := map t | t in AllTimings ::
      var resolved := if DurationMs(cfg, t) <= 0 then FallbackMs(t) else DurationMs(cfg, t);
      if t in cfg.timings && cfg.timings[t] > 0 then Duration(cfg.timings[t], true) else Duration(resolved, false);
    assert forall f: Flag :: f in AllFlags by { forall f: Flag ensures f in AllFlags { AllFlagsComplete(f); } }
    assert forall t: Timing :: t in AllTimings by { forall t: Timing ensures t in AllTimings { AllTimingsComplete(t); } }
    Values(cfg.questions, toggles, durations)
  }

  /** `toConfig`: only custom options and explicitly set durations are stored. */
  function ToConfig(v: Values): (cfg: Config)
    ensures cfg.questions == v.questions
    ensures forall f :: f in cfg.flags <==> f in v.toggles && v.toggles[f].custom
    ensures forall f :: f in cfg.flags ==> cfg.flags[f] == v.toggles[f].value
    ensures forall t :: t in cfg.timings <==> t in v.durations && v.durations[t].explicit
    ensures forall t :: t in cfg.timings ==> cfg.timings[t] == v.durations[t].ms
  {
    Config(v.questions,
      map f | f in v.toggles && v.toggles[f].custom :: v.toggles[f].value,
      map t | t in v.durations && v.durations[t].explicit :: v.durations[t].ms)
  }

  /**
   * Loading a configuration into the form and converting it back gives the
   * configuration with non-positive durations dropped, as defaulting does.
   */
  lemma ToConfigFromConfig(cfg: Config)
    ensures ToConfig(FromConfig(cfg)) == Config(cfg.questions, cfg.flags, EnsureDefaults(cfg).timings)
  {
    FlagsRoundTrip(cfg);
    TimingsRoundTrip(cfg);
  }

  lemma FlagsRoundTrip(cfg: Config)
    ensures ToConfig(FromConfig(cfg)).flags == cfg.flags
  {
    var m := ToConfig(FromConfig(cfg)).flags;
    forall f ensures f in m <==> f in cfg.flags {
      AllFlagsComplete(f);
    }
    forall f | f in m ensures m[f] == cfg.flags[f] {
      AllFlagsComplete(f);
    }
  }

  lemma TimingsRoundTrip(cfg: Config)
    ensures ToConfig(FromConfig(cfg)).timings == EnsureDefaults(cfg).timings
  {
    var m := ToConfig(FromConfig(cfg)).timings;
    var d := EnsureDefaults(cfg).timings;
    forall t ensures t in m <==> t in d {
      AllTimingsComplete(t);
    }
    forall t | t in m ensures m[t] == d[t] {
      AllTimingsComplete(t);
    }
  }

  /** Converting canonical values to a configuration and loading that back gives the same values. */
  lemma FromConfigToConfig(v: Values)
    requires Canonical(v)
    ensures FromConfig(ToConfig(v)) == v
  {
    var w := FromConfig(ToConfig(v));
    assert w.toggles == v.toggles;
    assert w.durations == v.durations;
  }

  /**
   * What the form writes is what it reads back: the configuration file
   * defaults the saved configuration, and as long as some question is left
   * that gives the form's values again.
   */
  lemma SavedValuesReadBack(v: Values)
    requires Canonical(v) && |v.questions| > 0
    ensures FromConfig(EnsureDefaults(ToConfig(v))) == v
  {
    var cfg := ToConfig(v);
    assert EnsureDefaults(cfg) == cfg by {
      EnsureDefaultsFixesNormalized(cfg);
    }
    FromConfigToConfig(v);
  }

  // ---------------------------------------------------------------------------
  // Rows
  // ---------------------------------------------------------------------------

  /** A row of the form. */
  datatype FormRow = QuestionItem(index: nat) | AddQuestion(index: nat) | BoolItem(flag: Flag) | IntItem(timing: Timing)

  /** The option rows, in display order. */
  const OptionRows: seq<FormRow> := [
    BoolItem(ShowHints), BoolItem(AutoInsertEntries), BoolItem(ContinueInsertAfterSave),
    BoolItem(DefaultListMode), BoolItem(AutoOpenIndexJump), BoolItem(ConfirmDelete),
    BoolItem(ConfirmEscapeWithText),
    IntItem(StatusMessageDurationMs), IntItem(EscapeConfirmTimeoutMs)
  ]

  /** `rebuildRows`: one row per question, the add row, then every option exactly once. */
  function FormRows(n: nat): (rows: seq<FormRow>)
    ensures |rows| == n + 10
    ensures forall i :: 0 <= i < n ==> rows[i] == QuestionItem(i)
    ensures rows[n] == AddQuestion(n)
    ensures forall i :: n < i < |rows| ==> rows[i].BoolItem? || rows[i].IntItem?
    ensures forall f: Flag :: BoolItem(f) in rows
    ensures forall t: Timing :: IntItem(t) in rows
  {
    var head := seq(n, i requires 0 <= i < n => QuestionItem(i)) + [AddQuestion(n)];
    OptionsFollow(head);
    head + OptionRows
  }

  /** Whatever precedes them, the option rows are options only and name every option. */
  lemma OptionsFollow(head: seq<FormRow>)
    ensures forall i :: |head| <= i < |head + OptionRows| ==> (head + OptionRows)[i].BoolItem? || (head + OptionRows)[i].IntItem?
    ensures forall f: Flag :: BoolItem(f) in head + OptionRows
    ensures forall t: Timing :: IntItem(t) in head + OptionRows
  {
    var rows := head + OptionRows;
    forall i | |head| <= i < |rows| ensures rows[i].BoolItem? || rows[i].IntItem? {
      assert rows[i] == OptionRows[i - |head|];
    }
    OptionRowsComplete();
    forall r | r in OptionRows ensures r in rows {
      var j :| 0 <= j < |OptionRows| && OptionRows[j] == r;
      assert rows[|head| + j] == r;
    }
  }

  /** The option rows name every option. */
  lemma OptionRowsComplete()
    ensures forall f: Flag :: BoolItem(f) in OptionRows
    ensures forall t: Timing :: IntItem(t) in OptionRows
  {
    forall f: Flag ensures BoolItem(f) in OptionRows {
      match f
      case ShowHints => assert OptionRows[0] == BoolItem(f);
      case AutoInsertEntries => assert OptionRows[1] == BoolItem(f);
      case ContinueInsertAfterSave => assert OptionRows[2] == BoolItem(f);
      case DefaultListMode => assert OptionRows[3] == BoolItem(f);
      case AutoOpenIndexJump => assert OptionRows[4] == BoolItem(f);
      case ConfirmDelete => assert OptionRows[5] == BoolItem(f);
      case ConfirmEscapeWithText => assert OptionRows[6] == BoolItem(f);
    }
    forall t: Timing ensures IntItem(t) in OptionRows {
      match t
      case StatusMessageDurationMs => assert OptionRows[7] == IntItem(t);
      case EscapeConfirmTimeoutMs => assert OptionRows[8] == IntItem(t);
    }
  }

  // ---------------------------------------------------------------------------
  // The form
  // ---------------------------------------------------------------------------

  /** What the text input is editing. */
  datatype Editing = Idle | EditQuestion(index: int, original: string) | EditDuration(timing: Timing)

  /** The status messages of the form. */
  datatype FormStatus =
    | UnsavedChanges | QuestionDeleted | OptionReset | EnterPositiveMs
    | ConfigSaved | ChangesDiscarded | FinishEditingFirst | SaveOrDiscardFirst
    | OpenedConfigFile | ConfigReloaded

  /** The form shows each status for two seconds. */
  const FormStatusMs: int := 2000

  /**
   * `configModel` without its rendering state: the edited and the last saved
   * values, the rows and cursor, the text input, the status line, whether a
   * second q will quit, and whether the last operation failed.
   */
  datatype Form = Form(
    values: Values,
    original: Values,
    rows: seq<FormRow>,
    selected: int,
    editing: Editing,
    input: string,
    line: StatusLine<FormStatus>,
    confirmExit: bool,
    failed: bool)

  /** What the outside world answers: whether writing succeeds, whether the file path resolves, what loading gives. */
  datatype FormEnv = FormEnv(saveOk: bool, pathOk: bool, load: Option<Config>)

  datatype FormMsg = KeyMsg(key: KeyPress) | InputChanged(value: string) | StatusTimeout(number: int) | ConfigFileClosed(ok: bool)

  datatype FormIntent = Quit | OpenConfigFile | ArmTimer(number: int, ms: int)

  /** The rows match the questions, the cursor is on a row, and the values have their canonical shape. */
  predicate FormOk(f: Form) {
    && f.rows == FormRows(|f.values.questions|)
    && 0 <= f.selected < |f.rows|
    && Canonical(f.values)
    && Canonical(f.original)
  }

  /** `isDirty`: the values differ from the last saved ones. */
  predicate IsDirty(f: Form) {
    f.values != f.original
  }

  /** Replacing one option by a canonical value keeps the values canonical. */
  lemma CanonicalSetToggle(v: Values, fl: Flag, t: Toggle)
    requires Canonical(v) && (t.custom || t.value == FlagDefault(fl))
    ensures Canonical(v.(toggles := v.toggles[fl := t]))
  {
  }

  lemma CanonicalSetDuration(v: Values, tm: Timing, d: Duration)
    requires Canonical(v) && (d.explicit ==> d.ms > 0) && (!d.explicit ==> d.ms == DefaultTimingMs)
    ensures Canonical(v.(durations := v.durations[tm := d]))
  {
  }

  /** `setStatus`: only the status line changes. */
  function SetStatus(f: Form, t: FormStatus): (r: Form)
    ensures r.line.text == Some(t) && r.line.number > f.line.number
    ensures StatusAdvance(f.line, r.line)
    ensures r.(line := f.line) == f
  {
    f.(line := Bump(f.line, t, FormStatusMs))
  }

  /** `rebuildRows`: fresh rows for the questions, cursor pulled back onto them. */
  function Rebuild(f: Form): (r: Form)
    ensures r.rows == FormRows(|f.values.questions|)
    ensures 0 <= r.selected < |r.rows|
    ensures 0 <= f.selected < |r.rows| ==> r.selected == f.selected
    ensures r.(rows := f.rows, selected := f.selected) == f
  {
    var rows := FormRows(|f.values.questions|);
    var sel := if f.selected >= |rows| then |rows| - 1 else f.selected;
    f.(rows := rows, selected := if sel < 0 then 0 else sel)
  }

  /** `markDirty`: any edit re-arms the unsaved-changes guard on quitting. */
  function MarkDirty(f: Form): (r: Form)
    ensures !r.confirmExit
    ensures r.(confirmExit := f.confirmExit) == f
  {
    f.(confirmExit := false)
  }

  /** `finishEditing`. */
  function Finish(f: Form): (r: Form)
    ensures r.editing == Idle
    ensures r.(editing := f.editing) == f
  {
    f.(editing := Idle)
  }

  /** `currentRow`: the row under the cursor, if the cursor is on one. */
  function CurrentRow(f: Form): Option<FormRow> {
    Rows.RowAt(f.rows, f.selected)
  }

  // ---------------------------------------------------------------------------
  // Editing questions
  // ---------------------------------------------------------------------------

  /** `startQuestionEdit`: the input starts with the question's current text. */
  function StartQuestionEdit(f: Form, idx: int): (r: Form)
    ensures !(0 <= idx < |f.values.questions|) ==> r == f
    ensures 0 <= idx < |f.values.questions| ==>
      r == f.(editing := EditQuestion(idx, f.values.questions[idx]), input := f.values.questions[idx])
  {
    if idx < 0 || idx >= |f.values.questions| then f
    else f.(editing := EditQuestion(idx, f.values.questions[idx]), input := f.values.questions[idx])
  }

  /**
   * `commitQuestionEdit`: a blank input removes the question, anything else
   * replaces it with the trimmed text; a vanished question only ends editing.
   */
  function CommitQuestionEdit(f: Form, idx: int): (r: Form)
    ensures r.editing == Idle
    ensures !(0 <= idx < |f.values.questions|) ==> r == Finish(f)
    ensures 0 <= idx < |f.values.questions| && IsBlank(f.input) ==>
      r.values.questions == Journal.RemoveAt(f.values.questions, idx)
    ensures 0 <= idx < |f.values.questions| && !IsBlank(f.input) ==>
      r.values.questions == f.values.questions[idx := TrimSpace(f.input)]
    ensures r.values.toggles == f.values.toggles && r.values.durations == f.values.durations
    ensures 0 <= idx < |f.values.questions| ==> !r.confirmExit
    ensures FormOk(f) ==> FormOk(r)
    ensures r.line == f.line && r.original == f.original
  {
    var qs := f.values.questions;
    if idx < 0 || idx >= |qs| then Finish(f)
    else
      var text := TrimSpace(f.input);
      var g :=
        if text == "" then
          var rest := Journal.RemoveAt(qs, idx);
          f.(values := f.values.(questions := rest), selected := if f.selected >= |rest| then |rest| else f.selected)
        else f.(values := f.values.(questions := qs[idx := text]));
      MarkDirty(Rebuild(Finish(g)))
  }

  /**
   * `cancelEdit`: a question that was blank when editing began and is still
   * blank (a freshly added one) is removed again; otherwise nothing changes
   * but the end of editing.
   */
  function CancelEdit(f: Form): (r: Form)
    ensures r.editing == Idle
    ensures (f.editing.EditQuestion? && 0 <= f.editing.index < |f.values.questions|
             && IsBlank(f.editing.original) && IsBlank(f.values.questions[f.editing.index])) ==>
      r.values.questions == Journal.RemoveAt(f.values.questions, f.editing.index)
    ensures !(f.editing.EditQuestion? && 0 <= f.editing.index < |f.values.questions|
             && IsBlank(f.editing.original) && IsBlank(f.values.questions[f.editing.index])) ==>
      r == Finish(f)
    ensures r.values.toggles == f.values.toggles && r.values.durations == f.values.durations
    ensures FormOk(f) ==> FormOk(r)
    ensures r.line == f.line && r.confirmExit == f.confirmExit
  {
    match f.editing
    case EditQuestion(idx, original) =>
      if 0 <= idx < |f.values.questions| && TrimSpace(original) == "" && TrimSpace(f.values.questions[idx]) == "" then
        Finish(Rebuild(f.(values := f.values.(questions := Journal.RemoveAt(f.values.questions, idx)))))
      else Finish(f)
    case _ => Finish(f)
  }

  /** `deleteQuestion`. */
  function DeleteQuestion(f: Form, idx: int): (r: Form)
    ensures !(0 <= idx < |f.values.questions|) ==> r == f
    ensures 0 <= idx < |f.values.questions| ==>
      r.values == f.values.(questions := Journal.RemoveAt(f.values.questions, idx))
      && !r.confirmExit && r.line.text == Some(QuestionDeleted)
    ensures FormOk(f) ==> FormOk(r)
    ensures StatusAdvance(f.line, r.line) && r.editing == f.editing && r.original == f.original
  {
    if idx < 0 || idx >= |f.values.questions| then f
    else
      var g := Rebuild(f.(values := f.values.(questions := Journal.RemoveAt(f.values.questions, idx))));
      SetStatus(MarkDirty(g), QuestionDeleted)
  }

  // ---------------------------------------------------------------------------
  // Editing options
  // ---------------------------------------------------------------------------

  /** `toggleBool`: flips the option and makes it a custom choice. */
  function ToggleBool(f: Form, fl: Flag): (r: Form)
    requires fl in f.values.toggles
    ensures r.values.toggles == f.values.toggles[fl := Toggle(!f.values.toggles[fl].value, true)]
    ensures r.values.questions == f.values.questions && r.values.durations == f.values.durations
    ensures FormOk(f) ==> FormOk(r)
    ensures !r.confirmExit && r.line == f.line && r.original == f.original
  {
    var t := Toggle(!f.values.toggles[fl].value, true);
    if Canonical(f.values) then CanonicalSetToggle(f.values, fl, t); MarkDirty(f.(values := f.values.(toggles := f.values.toggles[fl := t])))
    else MarkDirty(f.(values := f.values.(toggles := f.values.toggles[fl := t])))
  }

  /** `resetBoolField`: back to the default, no longer custom. */
  function ResetBool(f: Form, fl: Flag): (r: Form)
    ensures r.values.toggles == f.values.toggles[fl := Toggle(FlagDefault(fl), false)]
    ensures r.values.questions == f.values.questions && r.values.durations == f.values.durations
    ensures FormOk(f) ==> FormOk(r)
    ensures !r.confirmExit && r.line.text == Some(OptionReset) && StatusAdvance(f.line, r.line)
  {
    var t := Toggle(FlagDefault(fl), false);
    var g := f.(values := f.values.(toggles := f.values.toggles[fl := t]), confirmExit := false);
    if Canonical(f.values) then CanonicalSetToggle(f.values, fl, t); SetStatus(g, OptionReset)
    else SetStatus(g, OptionReset)
  }

  /** `resetIntField`: back to the one-second default, no longer set. */
  function ResetInt(f: Form, t: Timing): (r: Form)
    ensures r.values.durations == f.values.durations[t := Duration(DefaultTimingMs, false)]
    ensures r.values.questions == f.values.questions && r.values.toggles == f.values.toggles
    ensures FormOk(f) ==> FormOk(r)
    ensures !r.confirmExit && r.line.text == Some(OptionReset) && StatusAdvance(f.line, r.line)
  {
    var d := Duration(DefaultTimingMs, false);
    var g := f.(values := f.values.(durations := f.values.durations[t := d]), confirmExit := false);
    if Canonical(f.values) then CanonicalSetDuration(f.values, t, d); SetStatus(g, OptionReset)
    else SetStatus(g, OptionReset)
  }

  /** `startIntEdit`: the input shows the value only if it was set explicitly. */
  function StartIntEdit(f: Form, t: Timing): (r: Form)
    requires t in f.values.durations
    ensures r.editing == EditDuration(t)
    ensures f.values.durations[t].explicit ==> r.input == Itoa(f.values.durations[t].ms)
    ensures !f.values.durations[t].explicit ==> r.input == ""
    ensures r.(editing := f.editing, input := f.input) == f
  {
    var d := f.values.durations[t];
    f.(editing := EditDuration(t), input := if d.explicit then Itoa(d.ms) else "")
  }

  /** `resolvedStatusDuration`: a non-positive value falls back to two seconds. */
  function ResolvedMs(d: Duration): (ms: int)
    ensures ms > 0
    ensures d.ms > 0 ==> ms == d.ms
  {
    if d.explicit && d.ms > 0 then d.ms
    else if d.ms > 0 then d.ms
    else 2000
  }

  /** The duration a committed input stands for: blank is the default, else a positive 64-bit number. */
  function ParseDuration(input: string): (d: Option<Duration>)
    ensures IsBlank(input) ==> d == Some(Duration(DefaultTimingMs, false))
    ensures !IsBlank(input) ==>
      (d.Some? <==> Atoi(TrimSpace(input)).Some? && Atoi(TrimSpace(input)).value > 0)
    ensures !IsBlank(input) && d.Some? ==> d.value == Duration(Atoi(TrimSpace(input)).value, true)
  {
    var raw := TrimSpace(input);
    if raw == "" then Some(Duration(DefaultTimingMs, false))
    else
      match Atoi(raw)
      case None => None
      case Some(val) => if val <= 0 then None else Some(Duration(val, true))
  }

  /**
   * `commitIntEdit`: a blank input resets the option, a positive number sets
   * it; anything else only asks for a positive number and keeps editing.
   */
  function CommitIntEdit(f: Form, t: Timing): (r: Form)
    ensures ParseDuration(f.input).None? ==> r == SetStatus(f, EnterPositiveMs)
    ensures ParseDuration(f.input).Some? ==>
      && r.values.durations == f.values.durations[t := ParseDuration(f.input).value]
      && r.editing == Idle && !r.confirmExit && r.line == f.line
    ensures r.values.questions == f.values.questions && r.values.toggles == f.values.toggles
    ensures FormOk(f) ==> FormOk(r)
    ensures StatusAdvance(f.line, r.line)
  {
    match ParseDuration(f.input)
    case None => SetStatus(f, EnterPositiveMs)
    case Some(d) =>
      var d' := if t == StatusMessageDurationMs then d.(ms := ResolvedMs(d)) else d;
      var g := f.(values := f.values.(durations := f.values.durations[t := d']), editing := Idle, confirmExit := false);
      if Canonical(f.values) then CanonicalSetDuration(f.values, t, d'); g
      else g
  }

  /** `commitEdit`. */
  function CommitEdit(f: Form): (r: Form)
    ensures FormOk(f) ==> FormOk(r)
    ensures StatusAdvance(f.line, r.line)
  {
    match f.editing
    case EditQuestion(idx, _) => CommitQuestionEdit(f, idx)
    case EditDuration(t) => CommitIntEdit(f, t)
    case Idle => f
  }

  /** The add row: append an empty question, put the cursor on it and edit it. */
  function AddQuestionAndEdit(f: Form, i: int): (r: Form)
    ensures r.values == f.values.(questions := f.values.questions + [""])
    ensures i == |f.values.questions| ==> r.editing == EditQuestion(i, "") && r.input == "" && r.selected == i
    ensures FormOk(f) ==> FormOk(r)
    ensures r.line == f.line && r.original == f.original && r.confirmExit == f.confirmExit
  {
    var g := Rebuild(f.(values := f.values.(questions := f.values.questions + [""])));
    var h := if 0 <= i < |g.rows| then g.(selected := i) else g;
    StartQuestionEdit(h, i)
  }

  /**
   * `activateSelection`: edit a question, add an empty question and edit it,
   * flip a boolean option, or edit a millisecond option.
   */
  function ActivateSelection(f: Form): (r: Form)
    requires Complete(f.values)
    ensures FormOk(f) ==> FormOk(r)
    ensures StatusAdvance(f.line, r.line)
    ensures CurrentRow(f).Some? && CurrentRow(f).value.AddQuestion? ==> r == AddQuestionAndEdit(f, CurrentRow(f).value.index)
    ensures CurrentRow(f).Some? && CurrentRow(f).value.QuestionItem? ==> r == StartQuestionEdit(f, CurrentRow(f).value.index)
    ensures CurrentRow(f).Some? && CurrentRow(f).value.BoolItem? ==> r == ToggleBool(f, CurrentRow(f).value.flag)
    ensures CurrentRow(f).Some? && CurrentRow(f).value.IntItem? ==> r == StartIntEdit(f, CurrentRow(f).value.timing)
  {
    match CurrentRow(f)
    case None => f
    case Some(QuestionItem(i)) => StartQuestionEdit(f, i)
    case Some(AddQuestion(i)) => AddQuestionAndEdit(f, i)
    case Some(BoolItem(fl)) => ToggleBool(f, fl)
    case Some(IntItem(t)) => StartIntEdit(f, t)
  }

  /** `deleteOrDefaultSelection`: delete a question, or reset an option. */
  function DeleteOrDefault(f: Form): (r: Form)
    ensures FormOk(f) ==> FormOk(r)
    ensures StatusAdvance(f.line, r.line)
  {
    match CurrentRow(f)
    case Some(QuestionItem(i)) => DeleteQuestion(f, i)
    case Some(BoolItem(fl)) => ResetBool(f, fl)
    case Some(IntItem(t)) => ResetInt(f, t)
    case _ => f
  }

  // ---------------------------------------------------------------------------
  // Saving, reloading, quitting
  // ---------------------------------------------------------------------------

  /** `saveChanges`: on success the values become the saved ones, so the form is clean. */
  function SaveChanges(f: Form, env: FormEnv): (r: Form)
    ensures !env.saveOk ==> r == f.(failed := true)
    ensures env.saveOk ==> !IsDirty(r) && r.values == f.values && !r.confirmExit && r.line.text == Some(ConfigSaved)
    ensures FormOk(f) ==> FormOk(r)
    ensures StatusAdvance(f.line, r.line)
  {
    if !env.saveOk then f.(failed := true)
    else SetStatus(f.(failed := false, original := f.values, confirmExit := false), ConfigSaved)
  }

  /** `loadConfigFromDisk`: the loaded configuration replaces both the values and the saved values. */
  function LoadFromDisk(f: Form, cfg: Config): (r: Form)
    ensures r.values == FromConfig(cfg) && r.original == r.values && !r.confirmExit
    ensures FormOk(f) ==> FormOk(r)
    ensures r.line == f.line
  {
    var values := FromConfig(cfg);
    Rebuild(f.(values := values, original := values, confirmExit := false))
  }

  /** `reloadFromDisk`: discard the edits. */
  function ReloadFromDisk(f: Form, env: FormEnv): (r: Form)
    ensures env.load.None? ==> r == f.(failed := true)
    ensures env.load.Some? ==> !IsDirty(r) && r.values == FromConfig(env.load.value) && r.line.text == Some(ChangesDiscarded)
    ensures FormOk(f) ==> FormOk(r)
    ensures StatusAdvance(f.line, r.line)
  {
    match env.load
    case None => f.(failed := true)
    case Some(cfg) => SetStatus(LoadFromDisk(f.(failed := false), cfg), ChangesDiscarded)
  }

  /** `openConfigJSON`: only a clean form that is not editing opens the file. */
  function OpenConfigJSON(f: Form, env: FormEnv): (res: (Form, Option<FormIntent>))
    ensures res.1.Some? <==> f.editing == Idle && !IsDirty(f) && env.pathOk
    ensures res.1.Some? ==> res.1.value == OpenConfigFile
    ensures FormOk(f) ==> FormOk(res.0)
    ensures StatusAdvance(f.line, res.0.line)
    ensures res.0.values == f.values
  {
    if f.editing != Idle then (SetStatus(f, FinishEditingFirst), None)
    else if IsDirty(f) then (SetStatus(f, SaveOrDiscardFirst), None)
    else if !env.pathOk then (f.(failed := true), None)
    else (SetStatus(f, OpenedConfigFile), Some(OpenConfigFile))
  }

  /** `handleConfigFileResult`: reload the file after the editor closes. */
  function ConfigFileResult(f: Form, ok: bool, env: FormEnv): (r: Form)
    ensures !ok ==> r == f.(failed := true)
    ensures ok && env.load.None? ==> r == f.(failed := true)
    ensures ok && env.load.Some? ==> !IsDirty(r) && r.values == FromConfig(env.load.value) && !r.failed
    ensures FormOk(f) ==> FormOk(r)
    ensures StatusAdvance(f.line, r.line)
  {
    if !ok then f.(failed := true)
    else
      match env.load
      case None => f.(failed := true)
      case Some(cfg) => SetStatus(LoadFromDisk(f.(failed := false), cfg), ConfigReloaded)
  }

  /** `handleQuit`: a clean form quits at once; unsaved changes need a second q. */
  function HandleQuit(f: Form): (res: (Form, Option<FormIntent>))
    ensures !IsDirty(f) || f.confirmExit ==> res == (f, Some(Quit))
    ensures IsDirty(f) && !f.confirmExit ==> res == (SetStatus(f.(confirmExit := true), UnsavedChanges), None)
  {
    if !IsDirty(f) || f.confirmExit then (f, Some(Quit))
    else (SetStatus(f.(confirmExit := true), UnsavedChanges), None)
  }

  /** `moveSelection` on the form. */
  function Move(f: Form, delta: int): (r: Form)
    ensures r == f.(selected := Rows.MoveSelection(f.selected, delta, |f.rows|))
    ensures FormOk(f) ==> FormOk(r)
  {
    f.(selected := Rows.MoveSelection(f.selected, delta, |f.rows|))
  }

  /**
   * `handleKey`. While editing, enter commits, esc and ctrl+c cancel, and the
   * input takes every other key; otherwise ctrl+c quits and q asks first when
   * there are unsaved changes.
   */
  function HandleKey(f: Form, k: KeyPress, env: FormEnv): (res: (Form, Option<FormIntent>))
    requires Complete(f.values)
    ensures f.editing != Idle && k == Enter ==> res == (CommitEdit(f), None)
    ensures f.editing != Idle && (k == Esc || k == CtrlC) ==> res == (CancelEdit(f), None)
    ensures f.editing != Idle && k !in {Enter, Esc, CtrlC} ==> res == (f, None)
    ensures f.editing == Idle && k == CtrlC ==> res == (f, Some(Quit))
    ensures f.editing == Idle && k == Rune('q') ==> res == HandleQuit(f)
    ensures f.editing == Idle && (k == Enter || k == Rune(' ')) ==> res == (ActivateSelection(f), None)
    ensures f.editing == Idle && k == Rune('d') ==> res == (DeleteOrDefault(f), None)
    ensures f.editing == Idle && k == Rune('w') ==> res == (SaveChanges(f, env), None)
    ensures f.editing == Idle && k == Rune('r') ==> res == (ReloadFromDisk(f, env), None)
    ensures f.editing == Idle && k == Rune('e') ==> res == OpenConfigJSON(f, env)
    ensures FormOk(f) ==> FormOk(res.0)
    ensures StatusAdvance(f.line, res.0.line)
    ensures res.1.Some? ==> !res.1.value.ArmTimer?
  {
    if f.editing != Idle then
      if k == Enter then (CommitEdit(f), None)
      else if k == Esc || k == CtrlC then (CancelEdit(f), None)
      else (f, None)
    else
      match k
      case CtrlC => (f, Some(Quit))
      case Rune('q') => HandleQuit(f)
      case Up => (Move(f, -1), None)
      case Rune('k') => (Move(f, -1), None)
      case Down => (Move(f, 1), None)
      case Rune('j') => (Move(f, 1), None)
      case Enter => (ActivateSelection(f), None)
      case Rune(' ') => (ActivateSelection(f), None)
      case Rune('d') => (DeleteOrDefault(f), None)
      case Rune('w') => (SaveChanges(f, env), None)
      case Rune('r') => (ReloadFromDisk(f, env), None)
      case Rune('e') => OpenConfigJSON(f, env)
      case _ => (f, None)
  }

  /** One message: keys go to `handleKey`, everything else to the input or the status line. */
  function FormHandle(f: Form, msg: FormMsg, env: FormEnv): (res: (Form, Option<FormIntent>))
    requires Complete(f.values)
    ensures msg.KeyMsg? ==> res == HandleKey(f, msg.key, env)
    ensures msg.InputChanged? ==> res.1.None? && res.0.(input := f.input) == f
    ensures msg.InputChanged? && f.editing != Idle ==> res.0.input == msg.value
    ensures msg.StatusTimeout? ==> res == (f.(line := Expire(f.line, msg.number)), None)
    ensures msg.ConfigFileClosed? ==> res == (ConfigFileResult(f, msg.ok, env), None)
    ensures FormOk(f) ==> FormOk(res.0)
    ensures res.0.line.number >= f.line.number
    ensures f.line.timer.None? ==> StatusAdvance(f.line, res.0.line)
    ensures res.1.Some? ==> !res.1.value.ArmTimer?
  {
    match msg
    case KeyMsg(k) => HandleKey(f, k, env)
    case InputChanged(v) => (if f.editing != Idle then f.(input := v) else f, None)
    case StatusTimeout(n) => (f.(line := Expire(f.line, n)), None)
    case ConfigFileClosed(ok) => (ConfigFileResult(f, ok, env), None)
  }

  /** The handler's command, then the status timer if one was armed. */
  function FormCommands(cmd: Option<FormIntent>, line: StatusLine<FormStatus>): (cmds: seq<FormIntent>)
    ensures cmd.Some? ==> cmd.value in cmds
    ensures line.timer.Some? ==> ArmTimer(line.timer.value, FormStatusMs) in cmds
    ensures forall i :: i in cmds ==> (cmd.Some? && i == cmd.value) || (line.timer.Some? && i == ArmTimer(line.timer.value, FormStatusMs))
  {
    (if cmd.Some? then [cmd.value] else []) + (if line.timer.Some? then [ArmTimer(line.timer.value, FormStatusMs)] else [])
  }

  /** `Update`: one message in, the next form and the commands out; the armed timer leaves with the commands. */
  function Update(f: Form, msg: FormMsg, env: FormEnv): (res: (Form, seq<FormIntent>))
    requires Complete(f.values)
    ensures res.0 == FormHandle(f, msg, env).0.(line := Disarm(FormHandle(f, msg, env).0.line))
    ensures res.1 == FormCommands(FormHandle(f, msg, env).1, FormHandle(f, msg, env).0.line)
  {
    var (g, cmd) := FormHandle(f, msg, env);
    (g.(line := Disarm(g.line)), FormCommands(cmd, g.line))
  }

  /** `newConfigModel`: the form for a loaded configuration, clean and not editing. */
  function NewForm(cfg: Config): (f: Form)
    ensures FormOk(f) && !IsDirty(f) && f.editing == Idle && f.selected == 0
    ensures f.values == FromConfig(cfg)
  {
    var values := FromConfig(cfg);
    Rebuild(Form(values, values, [], 0, Idle, "", StatusLine(None, 0, None), false, false))
  }
}
