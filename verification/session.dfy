/**
 * The terminal session for one day: a list of questions (optionally with
 * their entries), a detail view for adding entries inline, deletion with an
 * optional y/n confirmation, editing in an external editor, day navigation
 * and a status line that clears itself after a timeout.
 *
 * The session is a record and every message is a pure transition. What the
 * Go code does through the outside world arrives in an `Env`: the current
 * timestamp and day, whether saving the day file or the configuration
 * succeeds, whether the day file's path resolves, and the log a load
 * returns. Commands the runtime would run later (quit, launching the editor,
 * the status timer) are returned as `Intent`s.
 *
 * Source: internal/tuiapp/model.go.
 */
module Session {
  import opened Base
  import opened Text
  import opened AppConfig
  import opened Journal
  import opened Ordering
  import opened Rows
  import opened Editor
  import opened Terminal
  import Interval

  type Day = Interval.Day

  datatype View = ListView | DetailView

  /** `deleteConfirmState`: the entry waiting for y/n. */
  datatype PendingDelete = PendingDelete(question: string, entryIndex: int)

  /** The status messages the session shows; none is empty. */
  datatype StatusText =
    | HintsShown | HintsEnabled | HintsHidden
    | EnableListMode | SelectAnEntry | EntryNotFound
    | DeleteCanceled | ConfirmWithYN | DeleteFailed | EntryDeleted
    | OpenedDayFile | DayFileReloaded
    | InsertCanceled | AddingEntries | EntryDiscarded | EntrySaved
    | NoChangesSaved | EntriesUpdated | EntryUpdated
    | Viewing(day: Day)

  /** The question list, its rows and the cursor, all derived from the log by `refreshQuestions`. */
  datatype Listing = Listing(questions: seq<string>, rows: seq<Row>, selected: int, disableJK: bool)

  /** Which view is shown and the state of the inline entry line. */
  datatype Screen = Screen(view: View, detailQuestion: string, editing: bool, input: string)

  /** The settings the session reads once from the configuration. */
  datatype Prefs = Prefs(autoInsert: bool, autoOpenIndex: bool, confirmDelete: bool, statusTimeoutMs: int)

  /**
   * The `model` struct without its rendering state. `pending` is the delete
   * waiting for confirmation (the prompt is shown exactly while one is
   * pending) and `failed` stands for a non-nil `err`.
   */
  datatype State = State(
    cfgQuestions: seq<string>,
    config: Config,
    prefs: Prefs,
    day: Day,
    log: Log,
    listMode: bool,
    showHints: bool,
    listing: Listing,
    screen: Screen,
    pending: Option<PendingDelete>,
    line: StatusLine<StatusText>,
    failed: bool)

  /** What the outside world answers during one message. */
  datatype Env = Env(now: string, today: Day, saveOk: bool, configSaveOk: bool, dayPathOk: bool, load: Option<Log>)

  /** The messages `Update` handles (window resizes only affect rendering). */
  datatype Msg =
    | KeyMsg(key: KeyPress)
    | InputChanged(value: string)
    | EditorDone(result: EditorResult)
    | StatusTimeout(number: int)
    | ExternalOpenDone(ok: bool)

  /** Commands handed back to the runtime. */
  datatype Intent =
    | Quit
    | LaunchEditor(question: string, lines: seq<string>, entryIndex: int)
    | OpenDayFile(day: Day)
    | ArmTimer(number: int, ms: int)

  /** A command that is not the status timer (only `Update` arms that). */
  predicate NotTimer(cmd: Option<Intent>) {
    cmd.Some? ==> !cmd.value.ArmTimer?
  }

  // ---------------------------------------------------------------------------
  // Status line
  // ---------------------------------------------------------------------------

  /** `setStatus` on the session: only the status line changes. */
  function SetStatus(s: State, t: StatusText): (r: State)
    ensures Consistent(s) ==> Consistent(r)
    ensures StatusAdvance(s.line, r.line)
    ensures r.line.text == Some(t) && r.line.number > s.line.number
    ensures r.(line := s.line) == s
  {
    s.(line := Bump(s.line, t, s.prefs.statusTimeoutMs))
  }

  // ---------------------------------------------------------------------------
  // Questions, rows and the cursor
  // ---------------------------------------------------------------------------

  /** The listing derived from a log: merged questions, their rows, and the cursor clamped onto them. */
  predicate ListingFits(l: Listing, cfgQuestions: seq<string>, log: Log, listMode: bool) {
    && l.questions == MergeQuestions(cfgQuestions, log)
    && l.rows == BuildRows(l.questions, log, listMode)
    && l.disableJK == (|l.questions| >= JkDisableThreshold)
    && (|l.rows| == 0 ==> l.selected == 0)
    && (|l.rows| > 0 ==> 0 <= l.selected < |l.rows|)
  }

  /** The session's listing agrees with its log. */
  predicate Consistent(s: State) {
    ListingFits(s.listing, s.cfgQuestions, s.log, s.listMode)
  }

  /**
   * `refreshQuestions` on the listing: re-derives the question list, the j/k
   * switch and the rows, and pulls the cursor back onto the last row if it
   * fell off the end.
   */
  function Relist(selected: int, cfgQuestions: seq<string>, log: Log, listMode: bool): (l: Listing)
    ensures selected >= 0 ==> ListingFits(l, cfgQuestions, log, listMode)
    ensures |l.rows| > 0 && selected < |l.rows| ==> l.selected == selected
  {
    var questions := MergeQuestions(cfgQuestions, log);
    var rows := BuildRows(questions, log, listMode);
    Listing(questions, rows, ClampSelection(selected, |rows|), |questions| >= JkDisableThreshold)
  }

  /** `refreshQuestions`: drops a pending delete and rebuilds the listing; nothing else changes. */
  function RefreshQuestions(s: State): (r: State)
    ensures StatusAdvance(s.line, r.line)
    ensures s.listing.selected >= 0 ==> Consistent(r)
    ensures r.pending.None?
    ensures r.(listing := s.listing, pending := s.pending) == s
  {
    s.(pending := None, listing := Relist(s.listing.selected, s.cfgQuestions, s.log, s.listMode))
  }

  /** `currentRow`: the row under the cursor, if the cursor is on one. */
  function CurrentRow(l: Listing): Option<Row> {
    RowAt(l.rows, l.selected)
  }

  /** `moveSelection` on the session. */
  function Move(s: State, delta: int): (r: State)
    ensures Consistent(s) ==> Consistent(r)
    ensures StatusAdvance(s.line, r.line)
    ensures r.listing == s.listing.(selected := MoveSelection(s.listing.selected, delta, |s.listing.rows|))
    ensures r.(listing := s.listing) == s
  {
    s.(listing := s.listing.(selected := MoveSelection(s.listing.selected, delta, |s.listing.rows|)))
  }

  /**
   * `jumpToIndex`: a character labelling an existing question moves the
   * cursor to that question's row; anything else changes nothing and
   * reports false.
   */
  function JumpToIndex(s: State, c: char): (res: (State, bool))
    ensures Consistent(s) ==> Consistent(res.0)
    ensures StatusAdvance(s.line, res.0.line)
    ensures res.1 <==> RuneToIndex(c).Some? && RuneToIndex(c).value < |s.listing.questions|
    ensures !res.1 ==> res.0 == s
    ensures res.1 ==> res.0 == s.(listing := s.listing.(selected :=
      RowIndexForQuestion(s.listing.questions, s.log, s.listMode, RuneToIndex(c).value)))
    ensures Consistent(s) && res.1 ==>
      CurrentRow(res.0.listing) == Some(QuestionRow(s.listing.questions[RuneToIndex(c).value]))
  {
    match RuneToIndex(c)
    case None => (s, false)
    case Some(idx) =>
      if idx >= |s.listing.questions| then (s, false)
      else
        RowIndexLandsOnQuestion(s.listing.questions, s.log, s.listMode, idx);
        var rowIdx := RowIndexForQuestion(s.listing.questions, s.log, s.listMode, idx);
        (s.(listing := s.listing.(selected := rowIdx)), true)
  }

  /**
   * `selectQuestionByName`: the cursor goes to the question's row (its last
   * listing); an unlisted question leaves the session as it is.
   */
  function SelectQuestionByName(s: State, q: string): (r: State)
    ensures Consistent(s) ==> Consistent(r)
    ensures StatusAdvance(s.line, r.line)
    ensures q !in s.listing.questions ==> r == s
    ensures q in s.listing.questions ==>
      r.listing.selected == RowIndexForQuestion(s.listing.questions, s.log, s.listMode, QuestionIndex(s.listing.questions, q).value)
    ensures r.(listing := s.listing) == s
    ensures r.listing == s.listing.(selected := r.listing.selected)
    ensures Consistent(s) && q in s.listing.questions ==> CurrentRow(r.listing) == Some(QuestionRow(q))
  {
    match QuestionIndex(s.listing.questions, q)
    case None => s
    case Some(idx) =>
      RowIndexLandsOnQuestion(s.listing.questions, s.log, s.listMode, idx);
      var rowIdx := RowIndexForQuestion(s.listing.questions, s.log, s.listMode, idx);
      s.(listing := s.listing.(selected := rowIdx))
  }

  /** The question the cursor is on ("" when it is on no row). */
  function SelectedQuestion(s: State): string {
    match CurrentRow(s.listing) case Some(row) => row.question case None => ""
  }

  /**
   * `toggleListMode`: flips list mode, rebuilds the rows and puts the cursor
   * back on the question it was on (when that question has a non-empty name).
   */
  function ToggleListMode(s: State): (r: State)
    ensures Consistent(s) ==> Consistent(r)
    ensures StatusAdvance(s.line, r.line)
    ensures r.listMode == !s.listMode
    ensures r.log == s.log && r.line == s.line && r.screen == s.screen
  {
    var current := SelectedQuestion(s);
    var t := RefreshQuestions(s.(listMode := !s.listMode));
    if current != "" then SelectQuestionByName(t, current) else t
  }

  // ---------------------------------------------------------------------------
  // Deleting entries
  // ---------------------------------------------------------------------------

  /** `performDeleteEntry` after the removal, once the save succeeded: rebuild and go to the question. */
  function AfterDelete(s: State, q: string): (r: State)
    ensures s.listing.selected >= 0 ==> Consistent(r)
    ensures StatusAdvance(s.line, r.line)
    ensures r.log == s.log && r.day == s.day && r.screen == s.screen && r.failed == s.failed
    ensures r.line.number == s.line.number + 1 && r.line.text == Some(EntryDeleted)
    ensures r.pending.None?
  {
    SelectQuestionByName(RefreshQuestions(SetStatus(s, EntryDeleted)), q)
  }

  /**
   * `performDeleteEntry`: removes the entry from the log (the removal stays
   * even when saving fails); after a successful save the rows are rebuilt
   * and the cursor goes to the question.
   */
  function PerformDelete(s: State, q: string, idx: int, env: Env): (r: State)
    ensures Consistent(s) && env.saveOk ==> Consistent(r)
    ensures StatusAdvance(s.line, r.line)
    ensures !(0 <= idx < |EntriesOf(s.log, q)|) ==> r == SetStatus(s, EntryNotFound)
    ensures 0 <= idx < |EntriesOf(s.log, q)| ==> r.log == DeleteEntry(s.log, q, idx) && r.failed == !env.saveOk
    ensures r.line.number > s.line.number
    ensures r.day == s.day && r.screen == s.screen
    ensures s.pending.None? ==> r.pending.None?
  {
    var entries := EntriesOf(s.log, q);
    if idx < 0 || idx >= |entries| then SetStatus(s, EntryNotFound)
    else
      var s1 := s.(log := DeleteEntry(s.log, q, idx));
      if !env.saveOk then SetStatus(s1.(failed := true), DeleteFailed)
      else AfterDelete(s1.(failed := false), q)
  }

  /** `initiateEntryDelete`: asks for confirmation when configured, otherwise deletes at once. */
  function InitiateDelete(s: State, q: string, idx: int, env: Env): (r: State)
    ensures Consistent(s) && env.saveOk ==> Consistent(r)
    ensures StatusAdvance(s.line, r.line)
    ensures !(0 <= idx < |EntriesOf(s.log, q)|) ==> r == SetStatus(s, EntryNotFound)
    ensures 0 <= idx < |EntriesOf(s.log, q)| && s.prefs.confirmDelete ==>
      r == s.(pending := Some(PendingDelete(q, idx)))
    ensures 0 <= idx < |EntriesOf(s.log, q)| && !s.prefs.confirmDelete ==> r == PerformDelete(s, q, idx, env)
  {
    var entries := EntriesOf(s.log, q);
    if idx < 0 || idx >= |entries| then SetStatus(s, EntryNotFound)
    else if s.prefs.confirmDelete then s.(pending := Some(PendingDelete(q, idx)))
    else PerformDelete(s, q, idx, env)
  }

  /** `handleDeleteEntryRequest`: only entry rows in list mode can be deleted. */
  function DeleteRequest(s: State, env: Env): (r: State)
    ensures Consistent(s) && env.saveOk ==> Consistent(r)
    ensures StatusAdvance(s.line, r.line)
    ensures !s.listMode ==> r == SetStatus(s, EnableListMode)
    ensures s.listMode && !(CurrentRow(s.listing).Some? && CurrentRow(s.listing).value.EntryRow?) ==>
      r == SetStatus(s, SelectAnEntry)
    ensures s.listMode && CurrentRow(s.listing).Some? && CurrentRow(s.listing).value.EntryRow? ==>
      r == InitiateDelete(s, CurrentRow(s.listing).value.question, CurrentRow(s.listing).value.entryIndex, env)
  {
    if !s.listMode then SetStatus(s, EnableListMode)
    else
      match CurrentRow(s.listing)
      case Some(EntryRow(q, idx)) => InitiateDelete(s, q, idx, env)
      case _ => SetStatus(s, SelectAnEntry)
  }

  /** The key classes of the delete confirmation. */
  predicate IsYes(k: KeyPress) { k == Rune('y') || k == Rune('Y') }
  predicate IsNo(k: KeyPress) { k == Rune('n') || k == Rune('N') || k == Esc }

  /**
   * `handleDeleteConfirmationKey` with a delete pending: y/Y deletes, n/N/esc
   * cancels, and any other key keeps the delete pending and only repeats the question.
   */
  function ConfirmationKey(s: State, p: PendingDelete, k: KeyPress, env: Env): (r: State)
    ensures Consistent(s) && env.saveOk ==> Consistent(r)
    ensures StatusAdvance(s.line, r.line)
    ensures IsYes(k) ==> r == PerformDelete(s.(pending := None), p.question, p.entryIndex, env)
    ensures IsNo(k) ==> r == SetStatus(s.(pending := None), DeleteCanceled)
    ensures !IsYes(k) && !IsNo(k) ==> r == SetStatus(s, ConfirmWithYN)
  {
    if IsYes(k) then PerformDelete(s.(pending := None), p.question, p.entryIndex, env)
    else if IsNo(k) then SetStatus(s.(pending := None), DeleteCanceled)
    else SetStatus(s, ConfirmWithYN)
  }

  // ---------------------------------------------------------------------------
  // The detail view and inline entries
  // ---------------------------------------------------------------------------

  /** `startEditing`: an empty input takes the keys. */
  function StartEditing(s: State): (r: State)
    ensures Consistent(s) ==> Consistent(r)
    ensures StatusAdvance(s.line, r.line)
    ensures r.screen == s.screen.(editing := true, input := "")
    ensures r.log == s.log && r.line.text == Some(AddingEntries)
  {
    SetStatus(s.(screen := s.screen.(editing := true, input := "")), AddingEntries)
  }

  /** `openDetail`: shows one question, dropping any pending delete. */
  function OpenDetail(s: State, q: string, startEditing: bool): (r: State)
    ensures Consistent(s) ==> Consistent(r)
    ensures StatusAdvance(s.line, r.line)
    ensures r.screen == Screen(DetailView, q, startEditing, "")
    ensures r.pending.None? && r.log == s.log
  {
    var t := s.(pending := None, screen := Screen(DetailView, q, false, ""));
    if startEditing then StartEditing(t) else t
  }

  /** `saveInlineEntry` after the append, once the save succeeded. */
  function AfterInlineSave(s: State): (r: State)
    ensures s.listing.selected >= 0 ==> Consistent(r)
    ensures StatusAdvance(s.line, r.line)
    ensures r.log == s.log && r.screen == s.screen.(input := "") && !r.failed
    ensures r.line.text == Some(EntrySaved)
  {
    RefreshQuestions(SetStatus(s.(failed := false, screen := s.screen.(input := "")), EntrySaved))
  }

  /**
   * `saveInlineEntry`: a blank input only reports that it was discarded.
   * Otherwise one entry with the trimmed text and the current timestamp is
   * appended to the question; the append stays even when saving fails, and
   * then the text also stays in the input. The view keeps editing either way.
   */
  function SaveInlineEntry(s: State, env: Env): (r: State)
    ensures Consistent(s) && env.saveOk ==> Consistent(r)
    ensures StatusAdvance(s.line, r.line)
    ensures IsBlank(s.screen.input) ==> r == SetStatus(s, EntryDiscarded)
    ensures !IsBlank(s.screen.input) ==>
      r.log == AppendEntry(s.log, s.screen.detailQuestion, Answer(env.now, TrimSpace(s.screen.input)))
    ensures !IsBlank(s.screen.input) && env.saveOk ==>
      !r.failed && r.screen == s.screen.(input := "") && r.line.text == Some(EntrySaved)
    ensures !IsBlank(s.screen.input) && !env.saveOk ==> r.failed && r.(log := s.log, failed := s.failed) == s
  {
    var text := TrimSpace(s.screen.input);
    if text == "" then SetStatus(s, EntryDiscarded)
    else
      var s1 := s.(log := AppendEntry(s.log, s.screen.detailQuestion, Answer(env.now, text)));
      if !env.saveOk then s1.(failed := true) else AfterInlineSave(s1)
  }

  /** `openQuestionEditor`: edit all of a question's responses, in order. */
  function OpenQuestionEditor(s: State, q: string): (i: Intent)
    ensures i.LaunchEditor? && i.question == q && i.entryIndex == -1
    ensures |i.lines| == |EntriesOf(s.log, q)|
    ensures forall k :: 0 <= k < |i.lines| ==> i.lines[k] == EntriesOf(s.log, q)[k].response
  {
    LaunchEditor(q, Responses(EntriesOf(s.log, q)), -1)
  }

  /** `openEntryEditor`: edit one response; nothing for an entry that does not exist. */
  function OpenEntryEditor(s: State, q: string, idx: int): (i: Option<Intent>)
    ensures i.Some? <==> 0 <= idx < |EntriesOf(s.log, q)|
    ensures i.Some? ==> i.value == LaunchEditor(q, [EntriesOf(s.log, q)[idx].response], idx)
  {
    var answers := EntriesOf(s.log, q);
    if idx < 0 || idx >= |answers| then None else Some(LaunchEditor(q, [answers[idx].response], idx))
  }

  /** `activateSelection`: an entry row opens the editor on it; a question row opens its detail view. */
  function ActivateSelection(s: State): (res: (State, Option<Intent>))
    ensures Consistent(s) ==> Consistent(res.0)
    ensures NotTimer(res.1)
    ensures StatusAdvance(s.line, res.0.line)
    ensures CurrentRow(s.listing).None? ==> res == (s, None)
    ensures CurrentRow(s.listing).Some? && CurrentRow(s.listing).value.EntryRow? ==>
      res == (s, OpenEntryEditor(s, CurrentRow(s.listing).value.question, CurrentRow(s.listing).value.entryIndex))
    ensures CurrentRow(s.listing).Some? && CurrentRow(s.listing).value.QuestionRow? ==>
      res == (OpenDetail(s, CurrentRow(s.listing).value.question, s.prefs.autoInsert), None)
  {
    match CurrentRow(s.listing)
    case None => (s, None)
    case Some(EntryRow(q, idx)) => (s, OpenEntryEditor(s, q, idx))
    case Some(QuestionRow(q)) => (OpenDetail(s, q, s.prefs.autoInsert), None)
  }

  // ---------------------------------------------------------------------------
  // Days
  // ---------------------------------------------------------------------------

  /**
   * `reloadDay`: on a failed load only the error is recorded; otherwise the
   * loaded log replaces the old one and the list view starts over at the top.
   */
  function ReloadDay(s: State, env: Env): (r: State)
    ensures Consistent(s) ==> Consistent(r)
    ensures StatusAdvance(s.line, r.line)
    ensures env.load.None? ==> r == s.(failed := true)
    ensures env.load.Some? ==> r.log == env.load.value && Consistent(r) && !r.failed
    ensures env.load.Some? ==> r.screen == s.screen.(view := ListView, editing := false, input := "")
    ensures env.load.Some? ==> r.line.text == Some(Viewing(s.day))
    ensures r.day == s.day
  {
    match env.load
    case None => s.(failed := true)
    case Some(log) =>
      var t := s.(failed := false, log := log, screen := s.screen.(view := ListView, editing := false, input := ""),
                  listing := s.listing.(selected := 0));
      SetStatus(RefreshQuestions(t), Viewing(s.day))
  }

  /** `changeDay`: the day moves first, so a failed load leaves the old log under the new day. */
  function ChangeDay(s: State, delta: int, env: Env): (r: State)
    ensures Consistent(s) ==> Consistent(r)
    ensures StatusAdvance(s.line, r.line)
    ensures r.day == s.day + delta
    ensures env.load.None? ==> r == s.(day := s.day + delta, failed := true)
    ensures env.load.Some? ==> r.log == env.load.value
  {
    ReloadDay(s.(day := s.day + delta), env)
  }

  /** `goToToday`: reloads only when another day is shown. */
  function GoToToday(s: State, env: Env): (r: State)
    ensures Consistent(s) ==> Consistent(r)
    ensures StatusAdvance(s.line, r.line)
    ensures s.day == env.today ==> r == s
    ensures s.day != env.today ==> r == ReloadDay(s.(day := env.today), env)
  {
    if env.today != s.day then ReloadDay(s.(day := env.today), env) else s
  }

  /** `refreshCurrentDayFromDisk`: reload the shown day in place. */
  function RefreshFromDisk(s: State, env: Env): (r: State)
    ensures Consistent(s) ==> Consistent(r)
    ensures StatusAdvance(s.line, r.line)
    ensures env.load.None? ==> r == s.(failed := true)
    ensures env.load.Some? ==> r.log == env.load.value && !r.failed && r.screen == s.screen && r.line == s.line
  {
    match env.load
    case None => s.(failed := true)
    case Some(log) => RefreshQuestions(s.(failed := false, log := log))
  }

  /** `openDayJSON`: saves the day, then asks for the day file to be opened in the editor. */
  function OpenDayJSON(s: State, env: Env): (res: (State, Option<Intent>))
    ensures Consistent(s) ==> Consistent(res.0)
    ensures NotTimer(res.1)
    ensures StatusAdvance(s.line, res.0.line)
    ensures !env.saveOk || !env.dayPathOk ==> res == (s.(failed := true), None)
    ensures env.saveOk && env.dayPathOk ==> res == (SetStatus(s, OpenedDayFile), Some(OpenDayFile(s.day)))
  {
    if !env.saveOk || !env.dayPathOk then (s.(failed := true), None)
    else (SetStatus(s, OpenedDayFile), Some(OpenDayFile(s.day)))
  }

  /** `toggleHints`: flips the hints, records the choice in the configuration and saves it. */
  function ToggleHints(s: State, env: Env): (r: State)
    ensures Consistent(s) ==> Consistent(r)
    ensures StatusAdvance(s.line, r.line)
    ensures r.showHints == !s.showHints
    ensures Enabled(r.config, ShowHints) == !s.showHints
    ensures forall f :: f != ShowHints ==> Enabled(r.config, f) == Enabled(s.config, f)
    ensures r.config.questions == s.config.questions && r.config.timings == s.config.timings
    ensures r.failed == !env.configSaveOk && r.log == s.log
  {
    var shown := !s.showHints;
    var t := s.(showHints := shown, config := s.config.(flags := s.config.flags[ShowHints := shown]));
    if !env.configSaveOk then t.(failed := true)
    else SetStatus(t.(failed := false), if shown then HintsEnabled else HintsHidden)
  }

  // ---------------------------------------------------------------------------
  // Editor results
  // ---------------------------------------------------------------------------

  /** A successful save after an editor edit: rebuild and report. */
  function AfterEdit(s: State, t: StatusText): (r: State)
    ensures s.listing.selected >= 0 ==> Consistent(r)
    ensures StatusAdvance(s.line, r.line)
    ensures r.log == s.log && !r.failed && r.line.text == Some(t)
  {
    RefreshQuestions(SetStatus(s.(failed := false), t))
  }

  /** `applyQuestionEdit`: the question's entries are rebuilt from the edited lines, keeping timestamps. */
  function ApplyQuestionEdit(s: State, q: string, responses: seq<string>, env: Env): (r: State)
    ensures Consistent(s) && env.saveOk ==> Consistent(r)
    ensures StatusAdvance(s.line, r.line)
    ensures r.log == StoreEntries(s.log, q, RebuildAnswers(EntriesOf(s.log, q), responses, env.now))
    ensures r.failed == !env.saveOk
  {
    var s1 := s.(log := StoreEntries(s.log, q, RebuildAnswers(EntriesOf(s.log, q), responses, env.now)));
    if !env.saveOk then s1.(failed := true) else AfterEdit(s1, EntriesUpdated)
  }

  /** The log change of `applySingleEntryEdit`: no response removes the entry, otherwise the first replaces its text. */
  function EditedLog(log: Log, q: string, idx: int, responses: seq<string>): (r: Log)
    ensures |responses| == 0 ==> r == DeleteEntry(log, q, idx)
    ensures |responses| > 0 ==> r == ReplaceResponse(log, q, idx, responses[0])
  {
    if |responses| == 0 then DeleteEntry(log, q, idx) else ReplaceResponse(log, q, idx, responses[0])
  }

  /**
   * `applySingleEntryEdit`: the entry takes the first response, or is removed
   * when there is none; an entry that no longer exists is left alone.
   */
  function ApplySingleEntryEdit(s: State, q: string, idx: int, responses: seq<string>, env: Env): (r: State)
    ensures Consistent(s) && env.saveOk ==> Consistent(r)
    ensures StatusAdvance(s.line, r.line)
    ensures !(0 <= idx < |EntriesOf(s.log, q)|) ==> r == s
    ensures 0 <= idx < |EntriesOf(s.log, q)| ==> r.log == EditedLog(s.log, q, idx, responses)
    ensures 0 <= idx < |EntriesOf(s.log, q)| ==> r.failed == !env.saveOk
  {
    if idx < 0 || idx >= |EntriesOf(s.log, q)| then s
    else
      var log := EditedLog(s.log, q, idx, responses);
      if !env.saveOk then s.(log := log, failed := true) else AfterEdit(s.(log := log), EntryUpdated)
  }

  /** `handleEditorResult`: an editor failure is reported, an untouched buffer changes nothing. */
  function HandleEditorResult(s: State, res: EditorResult, env: Env): (r: State)
    ensures Consistent(s) && env.saveOk ==> Consistent(r)
    ensures StatusAdvance(s.line, r.line)
    ensures res.failed ==> r == s.(failed := true)
    ensures !res.failed && !res.changed ==> r == SetStatus(s, NoChangesSaved)
    ensures !res.failed && res.changed && res.entryIndex >= 0 ==>
      r == ApplySingleEntryEdit(s, res.question, res.entryIndex, res.responses, env)
    ensures !res.failed && res.changed && res.entryIndex < 0 ==>
      r == ApplyQuestionEdit(s, res.question, res.responses, env)
  {
    if res.failed then s.(failed := true)
    else if !res.changed then SetStatus(s, NoChangesSaved)
    else if res.entryIndex >= 0 then ApplySingleEntryEdit(s, res.question, res.entryIndex, res.responses, env)
    else ApplyQuestionEdit(s, res.question, res.responses, env)
  }

  /** `handleExternalOpenResult` for the day file: reload it after the editor closes. */
  function ExternalOpenResult(s: State, ok: bool, env: Env): (r: State)
    ensures Consistent(s) ==> Consistent(r)
    ensures StatusAdvance(s.line, r.line)
    ensures !ok ==> r == s.(failed := true)
    ensures ok ==> r == SetStatus(RefreshFromDisk(s.(failed := false), env), DayFileReloaded)
  {
    if !ok then s.(failed := true)
    else SetStatus(RefreshFromDisk(s.(failed := false), env), DayFileReloaded)
  }

  // ---------------------------------------------------------------------------
  // Keys
  // ---------------------------------------------------------------------------

  /** `len(key) == 1` in Go: a single character that is one byte in UTF-8. */
  predicate IsOneByteRune(k: KeyPress) {
    k.Rune? && k.c as int < 0x80
  }

  /** An ASCII letter, lower-cased; `unicode.IsLetter` and `unicode.ToLower` agree with this on ASCII. */
  function LowerAscii(c: char): (r: char)
    requires c as int < 0x80
    ensures r as int < 0x80
    ensures 'A' <= c <= 'Z' ==> 'a' <= r <= 'z' && r as int == c as int + 32
    ensures !('A' <= c <= 'Z') ==> r == c
  {
    if 'A' <= c <= 'Z' then (c as int - 'A' as int + 'a' as int) as char else c
  }

  /** The default branch of `handleListKey`: index jumps, optionally opening the question. */
  function IndexKey(s: State, k: KeyPress): (res: (State, Option<Intent>))
    ensures Consistent(s) ==> Consistent(res.0)
    ensures NotTimer(res.1)
    ensures StatusAdvance(s.line, res.0.line)
    ensures !IsOneByteRune(k) ==> res == (s, None)
    ensures IsOneByteRune(k) && LowerAscii(k.c) in {'j', 'k'} && !s.listing.disableJK ==> res == (s, None)
    ensures IsOneByteRune(k) && !(LowerAscii(k.c) in {'j', 'k'} && !s.listing.disableJK) ==>
      var (t, ok) := JumpToIndex(s, LowerAscii(k.c));
      res == if ok && s.prefs.autoOpenIndex then ActivateSelection(t) else (t, None)
  {
    if !IsOneByteRune(k) then (s, None)
    else
      var r := LowerAscii(k.c);
      if (r == 'j' || r == 'k') && !s.listing.disableJK then (s, None)
      else
        var (t, ok) := JumpToIndex(s, r);
        if ok && s.prefs.autoOpenIndex then ActivateSelection(t) else (t, None)
  }

  /** `handleListKey`. */
  function ListKey(s: State, k: KeyPress, env: Env): (res: (State, Option<Intent>))
    ensures Consistent(s) && env.saveOk ==> Consistent(res.0)
    ensures NotTimer(res.1)
    ensures StatusAdvance(s.line, res.0.line)
    ensures k == Up ==> res == (Move(s, -1), None)
    ensures k == Down ==> res == (Move(s, 1), None)
    ensures k == Rune('j') && !s.listing.disableJK ==> res == (Move(s, 1), None)
    ensures k == Rune('k') && !s.listing.disableJK ==> res == (Move(s, -1), None)
    ensures k == Rune('d') ==> res == (DeleteRequest(s, env), None)
    ensures k == Rune('l') ==> res == (ToggleListMode(s), None)
  {
    match k
    case Up => (Move(s, -1), None)
    case Down => (Move(s, 1), None)
    case Enter => ActivateSelection(s)
    case Rune('j') => (if s.listing.disableJK then JumpToIndex(s, 'j').0 else Move(s, 1), None)
    case Rune('k') => (if s.listing.disableJK then JumpToIndex(s, 'k').0 else Move(s, -1), None)
    case Rune('i') =>
      (match CurrentRow(s.listing) case Some(row) => OpenDetail(s, row.question, true) case None => s, None)
    case Rune('e') =>
      (match CurrentRow(s.listing)
       case Some(EntryRow(q, idx)) => (s, OpenEntryEditor(s, q, idx))
       case Some(QuestionRow(q)) => (s, Some(OpenQuestionEditor(s, q)))
       case None => (s, None))
    case Rune('d') => (DeleteRequest(s, env), None)
    case Rune('l') => (ToggleListMode(s), None)
    case Rune('o') => OpenDayJSON(s, env)
    case _ => IndexKey(s, k)
  }

  /** Leaving the detail view for the list. */
  function BackToList(s: State): (r: State)
    ensures Consistent(s) ==> Consistent(r)
    ensures StatusAdvance(s.line, r.line)
    ensures r.screen.view == ListView && r.screen.detailQuestion == ""
    ensures r.(screen := s.screen) == s
  {
    s.(screen := s.screen.(view := ListView, detailQuestion := ""))
  }

  /** `handleDetailKey`. While editing, only enter (save) and esc (cancel) act. */
  function DetailKey(s: State, k: KeyPress, env: Env): (res: (State, Option<Intent>))
    ensures Consistent(s) && env.saveOk ==> Consistent(res.0)
    ensures NotTimer(res.1)
    ensures StatusAdvance(s.line, res.0.line)
    ensures s.screen.editing && k == Enter ==> res == (SaveInlineEntry(s, env), None)
    ensures s.screen.editing && k == Esc ==> res == (SetStatus(s.(screen := s.screen.(editing := false, input := "")), InsertCanceled), None)
    ensures s.screen.editing && k != Enter && k != Esc ==> res == (s, None)
    ensures !s.screen.editing && (k == Esc || k == Rune('-')) ==> res == (BackToList(s), None)
    ensures !s.screen.editing && (k == Enter || k == Rune('i')) ==> res == (StartEditing(s), None)
  {
    match k
    case Esc =>
      if s.screen.editing then (SetStatus(s.(screen := s.screen.(editing := false, input := "")), InsertCanceled), None)
      else (BackToList(s), None)
    case Rune('-') => (if !s.screen.editing then BackToList(s) else s, None)
    case Enter => (if s.screen.editing then SaveInlineEntry(s, env) else StartEditing(s), None)
    case Rune('i') => (if !s.screen.editing then StartEditing(s) else s, None)
    case Rune('e') =>
      if !s.screen.editing then (s, Some(OpenQuestionEditor(s, s.screen.detailQuestion))) else (s, None)
    case _ => (s, None)
  }

  /** The per-view handlers `handleKey` falls through to. */
  function ViewKey(s: State, k: KeyPress, env: Env): (res: (State, Option<Intent>))
    ensures Consistent(s) && env.saveOk ==> Consistent(res.0)
    ensures NotTimer(res.1)
    ensures StatusAdvance(s.line, res.0.line)
    ensures s.screen.view == ListView ==> res == ListKey(s, k, env)
    ensures s.screen.view == DetailView ==> res == DetailKey(s, k, env)
  {
    match s.screen.view
    case ListView => ListKey(s, k, env)
    case DetailView => DetailKey(s, k, env)
  }

  /** An entry is being typed in the detail view. */
  predicate Typing(s: State) {
    s.screen.view == DetailView && s.screen.editing
  }

  /** The keys `handleKey` handles itself once quitting and a pending delete are ruled out. */
  function GlobalKey(s: State, k: KeyPress, env: Env): (res: (State, Option<Intent>))
    ensures Consistent(s) && env.saveOk ==> Consistent(res.0)
    ensures NotTimer(res.1)
    ensures StatusAdvance(s.line, res.0.line)
    ensures k == LeftArrow ==> res == (ChangeDay(s, -1, env), None)
    ensures k == RightArrow ==> res == (ChangeDay(s, 1, env), None)
    ensures k == Rune(' ') ==> res == (GoToToday(s, env), None)
    ensures k in {Rune('h'), Rune('?')} ==> res == (ToggleHints(s, env), None)
    ensures k == Esc && s.screen.view == ListView && !s.showHints ==> res == (SetStatus(s.(showHints := true), HintsShown), None)
    ensures k !in {LeftArrow, RightArrow, Rune(' '), Rune('h'), Rune('?'), Esc} ==> res == ViewKey(s, k, env)
  {
    match k
    case Rune('h') => (ToggleHints(s, env), None)
    case Rune('?') => (ToggleHints(s, env), None)
    case Esc =>
      if s.screen.view == ListView && !s.showHints then (SetStatus(s.(showHints := true), HintsShown), None)
      else ViewKey(s, k, env)
    case LeftArrow => (ChangeDay(s, -1, env), None)
    case RightArrow => (ChangeDay(s, 1, env), None)
    case Rune(' ') => (GoToToday(s, env), None)
    case _ => ViewKey(s, k, env)
  }

  /**
   * `handleKey`. While an entry is being typed only ctrl+c is global and every
   * other key goes to the detail view. Otherwise q and ctrl+c quit (even with
   * a delete pending), and a pending delete in the list consumes the next key.
   */
  function HandleKey(s: State, k: KeyPress, env: Env): (res: (State, Option<Intent>))
    ensures Consistent(s) && env.saveOk ==> Consistent(res.0)
    ensures NotTimer(res.1)
    ensures StatusAdvance(s.line, res.0.line)
    ensures k == CtrlC ==> res == (s, Some(Quit))
    ensures Typing(s) && k != CtrlC ==> res == DetailKey(s, k, env)
    ensures !Typing(s) && k == Rune('q') ==> res == (s, Some(Quit))
    ensures !Typing(s) && k !in {CtrlC, Rune('q')} && s.screen.view == ListView && s.pending.Some? ==>
      res == (ConfirmationKey(s, s.pending.value, k, env), None)
    ensures !Typing(s) && k !in {CtrlC, Rune('q')} && !(s.screen.view == ListView && s.pending.Some?) ==>
      res == GlobalKey(s, k, env)
  {
    if Typing(s) then
      if k == CtrlC then (s, Some(Quit)) else ViewKey(s, k, env)
    else if k == CtrlC || k == Rune('q') then (s, Some(Quit))
    else if s.screen.view == ListView && s.pending.Some? then (ConfirmationKey(s, s.pending.value, k, env), None)
    else GlobalKey(s, k, env)
  }

  /** The state after a message, before the armed timer is handed over. */
  function Handle(s: State, msg: Msg, env: Env): (res: (State, Option<Intent>))
    ensures Consistent(s) && env.saveOk ==> Consistent(res.0)
    ensures NotTimer(res.1)
    ensures StatusAdvance(s.line, res.0.line)
    ensures msg.KeyMsg? ==> res == HandleKey(s, msg.key, env)
    ensures msg.InputChanged? && Typing(s) ==> res == (s.(screen := s.screen.(input := msg.value)), None)
    ensures msg.InputChanged? && !Typing(s) ==> res == (s, None)
    ensures msg.StatusTimeout? ==> res == (s.(line := Expire(s.line, msg.number)), None)
    ensures msg.EditorDone? ==> res == (HandleEditorResult(s, msg.result, env), None)
    ensures msg.ExternalOpenDone? ==> res == (ExternalOpenResult(s, msg.ok, env), None)
  {
    match msg
    case KeyMsg(k) => HandleKey(s, k, env)
    case InputChanged(v) => (if Typing(s) then s.(screen := s.screen.(input := v)) else s, None)
    case EditorDone(result) => (HandleEditorResult(s, result, env), None)
    case StatusTimeout(n) => (s.(line := Expire(s.line, n)), None)
    case ExternalOpenDone(ok) => (ExternalOpenResult(s, ok, env), None)
  }

  /** The intents of one `Update`: the handler's command, then the status timer if one was armed. */
  function Commands(cmd: Option<Intent>, line: StatusLine<StatusText>, ms: int): (cmds: seq<Intent>)
    ensures cmd.Some? ==> cmd.value in cmds
    ensures line.timer.Some? ==> ArmTimer(line.timer.value, ms) in cmds
    ensures forall i :: i in cmds ==> (cmd.Some? && i == cmd.value) || (line.timer.Some? && i == ArmTimer(line.timer.value, ms))
  {
    (if cmd.Some? then [cmd.value] else []) + (if line.timer.Some? then [ArmTimer(line.timer.value, ms)] else [])
  }

  /** `Update`: one message in, the next state and the commands out; the armed timer leaves with the commands. */
  function Update(s: State, msg: Msg, env: Env): (res: (State, seq<Intent>))
    ensures res.0 == Handle(s, msg, env).0.(line := Disarm(Handle(s, msg, env).0.line))
    ensures res.1 == Commands(Handle(s, msg, env).1, Handle(s, msg, env).0.line, s.prefs.statusTimeoutMs)
  {
    var (t, cmd) := Handle(s, msg, env);
    (t.(line := Disarm(t.line)), Commands(cmd, t.line, s.prefs.statusTimeoutMs))
  }

  /**
   * `newModel`: the session for `today` with the configuration's settings,
   * or nothing when the day cannot be loaded.
   */
  function NewSession(cfg: Config, today: Day, load: Option<Log>): (r: Option<State>)
    ensures r.None? <==> load.None?
    ensures r.Some? ==> Consistent(r.value) && r.value.log == load.value && r.value.day == today
    ensures r.Some? ==> r.value.screen.view == ListView && r.value.line == StatusLine(None, 0, None)
    ensures r.Some? ==> r.value.listMode == Enabled(cfg, DefaultListMode) && r.value.showHints == Enabled(cfg, ShowHints)
    ensures r.Some? ==> r.value.prefs.statusTimeoutMs == DurationMs(cfg, StatusMessageDurationMs)
  {
    match load
    case None => None
    case Some(log) =>
      var prefs := Prefs(Enabled(cfg, AutoInsertEntries), Enabled(cfg, AutoOpenIndexJump), Enabled(cfg, ConfirmDelete),
                         DurationMs(cfg, StatusMessageDurationMs));
      var s := State(cfg.questions, cfg, prefs, today, log, Enabled(cfg, DefaultListMode), Enabled(cfg, ShowHints),
                     Listing([], [], 0, false), Screen(ListView, "", false, ""), None, StatusLine(None, 0, None), false);
      Some(RefreshQuestions(s))
  }
}
