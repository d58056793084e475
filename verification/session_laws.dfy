/**
 * Properties of the session that span several handlers: the list agrees with
 * the log after every message as long as saving succeeds (and what a failed
 * save leaves behind), the cursor lands on the question a jump or a list-mode
 * switch names, the delete confirmation, quitting, inline entries and the
 * status timer.
 */
module SessionLaws {
  import opened Base
  import opened Text
  import opened Journal
  import opened Ordering
  import opened Rows
  import opened Editor
  import opened Session
  import opened Terminal

  // ---------------------------------------------------------------------------
  // The cursor
  // ---------------------------------------------------------------------------

  /** Switching list mode keeps the cursor on the question it was on. */
  lemma ToggleListModeKeepsQuestion(s: State)
    requires Consistent(s)
    ensures Consistent(ToggleListMode(s))
    ensures ToggleListMode(s).listMode == !s.listMode
    ensures SelectedQuestion(s) != "" ==> SelectedQuestion(ToggleListMode(s)) == SelectedQuestion(s)
  {
    var q := SelectedQuestion(s);
    var t := RefreshQuestions(s.(listMode := !s.listMode));
    assert Consistent(t);
    if q != "" {
      assert s.listing.rows[s.listing.selected].question == q;
      BuildRowsFit(s.listing.questions, s.log, s.listMode);
      assert q in t.listing.questions;
    }
  }

  // ---------------------------------------------------------------------------
  // The listing agrees with the log while saving succeeds
  // ---------------------------------------------------------------------------

  /**
   * While every save succeeds, the question list, the rows, the j/k switch
   * and the cursor agree with the log after any message.
   */
  lemma ConsistentWhileSavesSucceed(s: State, msg: Msg, env: Env)
    requires Consistent(s) && env.saveOk
    ensures Consistent(Update(s, msg, env).0)
  {
  }

  /** In list mode, giving a listed question more entries (and no question fewer) adds rows. */
  lemma {:induction false} MoreEntriesMoreRows(qs: seq<string>, log: Log, log2: Log, q: string)
    requires forall k :: |EntriesOf(log2, k)| >= |EntriesOf(log, k)|
    requires |EntriesOf(log2, q)| > |EntriesOf(log, q)|
    ensures |BuildRows(qs, log2, true)| >= |BuildRows(qs, log, true)|
    ensures q in qs ==> |BuildRows(qs, log2, true)| > |BuildRows(qs, log, true)|
    decreases |qs|
  {
    if |qs| > 0 {
      MoreEntriesMoreRows(qs[1..], log, log2, q);
      assert |BuildRows(qs, log, true)| == 1 + |EntriesOf(log, qs[0])| + |BuildRows(qs[1..], log, true)|;
      assert |BuildRows(qs, log2, true)| == 1 + |EntriesOf(log2, qs[0])| + |BuildRows(qs[1..], log2, true)|;
      if q in qs && q != qs[0] {
        assert q in qs[1..];
      }
    }
  }

  /**
   * Saving is what keeps the list in step: when saving an inline entry fails
   * in list mode, the entry stays in the log but the rows do not show it.
   */
  lemma FailedInlineSaveLeavesRowsBehind(s: State, env: Env)
    requires Consistent(s) && s.listMode && Typing(s)
    requires !IsBlank(s.screen.input) && !env.saveOk
    requires s.screen.detailQuestion in s.listing.questions
    ensures !Consistent(Update(s, KeyMsg(Enter), env).0)
  {
    var q := s.screen.detailQuestion;
    var r := FailedSaveStep(s, env);
    RowsBehind(s.listing, s.cfgQuestions, s.log, q, Answer(env.now, TrimSpace(s.screen.input)));
  }

  /** Enter on the entry line with a failing save: the entry is appended and the listing kept. */
  lemma FailedSaveStep(s: State, env: Env) returns (r: State)
    requires Typing(s) && !IsBlank(s.screen.input) && !env.saveOk
    ensures r == Update(s, KeyMsg(Enter), env).0
    ensures r.log == AppendEntry(s.log, s.screen.detailQuestion, Answer(env.now, TrimSpace(s.screen.input)))
    ensures r.listing == s.listing && r.listMode == s.listMode && r.cfgQuestions == s.cfgQuestions
  {
    assert HandleKey(s, Enter, env) == DetailKey(s, Enter, env);
    r := Update(s, KeyMsg(Enter), env).0;
  }

  /** A listing that fits a log no longer fits once a listed question gains an entry in list mode. */
  lemma RowsBehind(l: Listing, cfgQuestions: seq<string>, log: Log, q: string, a: Answer)
    requires ListingFits(l, cfgQuestions, log, true) && q in l.questions
    ensures !ListingFits(l, cfgQuestions, AppendEntry(log, q, a), true)
  {
    var log2 := AppendEntry(log, q, a);
    MoreEntriesMoreRows(l.questions, log, log2, q);
  }

  // ---------------------------------------------------------------------------
  // Keys with a delete pending, and quitting
  // ---------------------------------------------------------------------------

  /** q quits from anywhere but the entry line, even with a delete pending, and changes nothing. */
  lemma QuitLeavesStateAlone(s: State, env: Env)
    requires !Typing(s) && s.line.timer.None?
    ensures Update(s, KeyMsg(Rune('q')), env) == (s, [Quit])
    ensures Update(s, KeyMsg(CtrlC), env) == (s, [Quit])
  {
    assert s.line.(timer := None) == s.line;
    assert Commands(Some(Quit), s.line, s.prefs.statusTimeoutMs) == [Quit];
  }

  /** y or Y with a delete pending removes exactly that entry (the removal stands even if saving fails). */
  lemma ConfirmYesDeletes(s: State, k: KeyPress, env: Env)
    requires s.screen.view == ListView && s.pending.Some? && IsYes(k)
    ensures var r := Update(s, KeyMsg(k), env).0;
      && r.log == DeleteEntry(s.log, s.pending.value.question, s.pending.value.entryIndex)
      && r.pending.None?
  {
    var p := s.pending.value;
    assert !Typing(s);
    assert HandleKey(s, k, env) == (ConfirmationKey(s, p, k, env), None);
    assert ConfirmationKey(s, p, k, env) == PerformDelete(s.(pending := None), p.question, p.entryIndex, env);
  }

  /** n, N or esc with a delete pending cancels it and leaves the log alone. */
  lemma ConfirmNoCancels(s: State, k: KeyPress, env: Env)
    requires s.screen.view == ListView && s.pending.Some? && IsNo(k)
    ensures var r := Update(s, KeyMsg(k), env).0;
      r.log == s.log && r.pending.None? && r.line.text == Some(DeleteCanceled)
  {
    assert !Typing(s);
    assert HandleKey(s, k, env) == (ConfirmationKey(s, s.pending.value, k, env), None);
  }

  /** Any other key with a delete pending (except quitting) keeps it pending and changes no data. */
  lemma ConfirmOtherKeyWaits(s: State, k: KeyPress, env: Env)
    requires s.screen.view == ListView && s.pending.Some?
    requires !IsYes(k) && !IsNo(k) && k != CtrlC && k != Rune('q')
    ensures var (r, cmds) := Update(s, KeyMsg(k), env);
      r.log == s.log && r.pending == s.pending && r.day == s.day && r.line.text == Some(ConfirmWithYN)
      && forall i :: i in cmds ==> i.ArmTimer?
  {
    assert !Typing(s);
    assert HandleKey(s, k, env) == (ConfirmationKey(s, s.pending.value, k, env), None);
  }

  // ---------------------------------------------------------------------------
  // Inline entries
  // ---------------------------------------------------------------------------

  /**
   * Enter on the entry line appends exactly one entry (the trimmed text,
   * stamped with the current time) to the question shown, whether or not the
   * save succeeds, and keeps the entry line open; a blank line appends nothing.
   */
  lemma EnterAppendsOneEntry(s: State, env: Env)
    requires Typing(s)
    ensures var r := Update(s, KeyMsg(Enter), env).0;
      && (IsBlank(s.screen.input) ==> r.log == s.log)
      && (!IsBlank(s.screen.input) ==>
            && EntriesOf(r.log, s.screen.detailQuestion) == EntriesOf(s.log, s.screen.detailQuestion) + [Answer(env.now, TrimSpace(s.screen.input))]
            && forall q :: q != s.screen.detailQuestion ==> EntriesOf(r.log, q) == EntriesOf(s.log, q))
      && Typing(r)
  {
  }

  // ---------------------------------------------------------------------------
  // The status timer
  // ---------------------------------------------------------------------------

  /**
   * Between messages no timer is armed. Then every timer `Update` hands out
   * carries the number of the status it shows, which is newer than any
   * status before the message; the number never goes back.
   */
  lemma TimerCarriesLatestStatus(s: State, msg: Msg, env: Env)
    requires s.line.timer.None?
    ensures var (r, cmds) := Update(s, msg, env);
      && r.line.number >= s.line.number
      && r.line.timer.None?
      && forall i :: i in cmds && i.ArmTimer? ==> i.number == r.line.number > s.line.number
  {
    var (t, cmd) := Handle(s, msg, env);
    assert StatusAdvance(s.line, t.line) && NotTimer(cmd);
    assert Update(s, msg, env).1 == Commands(cmd, t.line, s.prefs.statusTimeoutMs);
  }

  /** A timeout clears the status only if no newer status has been set since its timer was armed. */
  lemma StaleTimeoutKeepsStatus(s: State, n: int, env: Env)
    ensures n != s.line.number ==> Update(s, StatusTimeout(n), env).0.line.text == s.line.text
    ensures n == s.line.number ==> Update(s, StatusTimeout(n), env).0.line.text.None?
    ensures Update(s, StatusTimeout(n), env).0.(line := s.line) == s
  {
  }
}
