/**
 * Properties of the configuration form across several keys: an added
 * question that is never filled in disappears again, opening and committing a
 * millisecond option without typing changes nothing, quitting with unsaved
 * changes takes two presses, and what the form saves is what it reads back.
 */
module FormLaws {
  import opened Base
  import opened Text
  import opened AppConfig
  import opened Terminal
  import opened ConfigForm
  import Journal

  /** The form is idle and its cursor is on row `row`. */
  predicate IdleOn(f: Form, row: FormRow) {
    FormOk(f) && f.editing == Idle && f.rows[f.selected] == row
  }

  /** Enter on the add row, then esc: the empty question is gone again. */
  lemma AddThenCancelRestores(f: Form, env: FormEnv)
    requires IdleOn(f, AddQuestion(|f.values.questions|))
    ensures var g := Update(f, KeyMsg(Enter), env).0;
      && g.values.questions == f.values.questions + [""]
      && g.editing == EditQuestion(|f.values.questions|, "")
      && var h := Update(g, KeyMsg(Esc), env).0;
      h.values == f.values && h.editing == Idle && FormOk(h)
  {
    var n := |f.values.questions|;
    var g := AddStep(f, env);
    assert HandleKey(g, Esc, env) == (CancelEdit(g), None);
    assert Journal.RemoveAt(g.values.questions, n) == f.values.questions;
  }

  /** Enter on the add row appends an empty question and edits it. */
  lemma AddStep(f: Form, env: FormEnv) returns (g: Form)
    requires IdleOn(f, AddQuestion(|f.values.questions|))
    ensures g == Update(f, KeyMsg(Enter), env).0
    ensures FormOk(g) && g.values == f.values.(questions := f.values.questions + [""])
    ensures g.editing == EditQuestion(|f.values.questions|, "") && g.input == ""
  {
    var n := |f.values.questions|;
    assert CurrentRow(f) == Some(AddQuestion(n));
    var h := FormHandle(f, KeyMsg(Enter), env).0;
    assert h == ActivateSelection(f);
    assert h == AddQuestionAndEdit(f, n);
    g := Update(f, KeyMsg(Enter), env).0;
  }

  /** Enter on the add row, then enter again without typing: the empty question is not kept. */
  lemma AddThenBlankCommitRestores(f: Form, env: FormEnv)
    requires IdleOn(f, AddQuestion(|f.values.questions|))
    ensures var g := Update(f, KeyMsg(Enter), env).0;
      var h := Update(g, KeyMsg(Enter), env).0;
      h.values == f.values && h.editing == Idle && FormOk(h)
  {
    var n := |f.values.questions|;
    var g := AddStep(f, env);
    assert HandleKey(g, Enter, env) == (CommitEdit(g), None);
    assert CommitEdit(g) == CommitQuestionEdit(g, n);
    assert IsBlank(g.input);
    assert Journal.RemoveAt(g.values.questions, n) == f.values.questions;
  }

  /**
   * Opening a millisecond option and committing it untouched leaves the
   * values as they were: a set value is shown as its decimal digits, which
   * read back as the same number, and an unset one as an empty input, which
   * resets it to the default it already has.
   */
  lemma IntEditWithoutTypingChangesNothing(f: Form, t: Timing, env: FormEnv)
    requires IdleOn(f, IntItem(t))
    requires f.values.durations[t].ms <= MaxInt64
    ensures var g := Update(f, KeyMsg(Enter), env).0;
      && g.editing == EditDuration(t)
      && var h := Update(g, KeyMsg(Enter), env).0;
      h.values == f.values && h.editing == Idle
  {
    var g := IntStep(f, t, env);
    CommitParsed(g, t, f.values.durations[t], env);
  }

  /** The text `startIntEdit` shows reads back as the option's value. */
  lemma ShownDurationParses(d: Duration)
    requires d.explicit ==> 0 < d.ms <= MaxInt64
    requires !d.explicit ==> d.ms == DefaultTimingMs
    ensures ParseDuration(if d.explicit then Itoa(d.ms) else "") == Some(d)
  {
    if d.explicit {
      var s := Itoa(d.ms);
      ItoaAtoi(d.ms);
      assert Trimmed(s) by {
        assert !IsSpace(s[0]) && !IsSpace(s[|s| - 1]);
      }
    }
  }

  /** Enter on a millisecond input that parses stores the parsed duration. */
  lemma CommitParsed(g: Form, t: Timing, d: Duration, env: FormEnv)
    requires FormOk(g) && g.editing == EditDuration(t) && ParseDuration(g.input) == Some(d)
    ensures var h := Update(g, KeyMsg(Enter), env).0;
      h.values == g.values.(durations := g.values.durations[t := d]) && h.editing == Idle
    ensures d == g.values.durations[t] ==> Update(g, KeyMsg(Enter), env).0.values == g.values
  {
    EnterCommits(g, env);
    if d == g.values.durations[t] {
      assert g.values.durations[t := d] == g.values.durations;
    }
  }

  /** Enter while editing commits the edit. */
  lemma EnterCommits(g: Form, env: FormEnv)
    requires Complete(g.values) && g.editing != Idle
    ensures Update(g, KeyMsg(Enter), env).0 == CommitEdit(g).(line := Disarm(CommitEdit(g).line))
  {
    assert HandleKey(g, Enter, env) == (CommitEdit(g), None);
  }

  /** Enter on a millisecond row opens it for editing with its explicit value, or empty. */
  lemma IntStep(f: Form, t: Timing, env: FormEnv) returns (g: Form)
    requires IdleOn(f, IntItem(t))
    ensures g == Update(f, KeyMsg(Enter), env).0
    ensures FormOk(g) && g.values == f.values && g.editing == EditDuration(t)
    ensures g.input == if f.values.durations[t].explicit then Itoa(f.values.durations[t].ms) else ""
    ensures f.values.durations[t].ms <= MaxInt64 ==> ParseDuration(g.input) == Some(f.values.durations[t])
  {
    assert CurrentRow(f) == Some(IntItem(t));
    var h := FormHandle(f, KeyMsg(Enter), env).0;
    assert h == ActivateSelection(f);
    assert h == StartIntEdit(f, t);
    g := Update(f, KeyMsg(Enter), env).0;
    var d := f.values.durations[t];
    if d.ms <= MaxInt64 {
      ShownDurationParses(d);
    }
  }

  /** An input that is not a positive number keeps the form editing and the values as they were. */
  lemma InvalidDurationKeepsEditing(f: Form, t: Timing, env: FormEnv)
    requires FormOk(f) && f.editing == EditDuration(t)
    requires !IsBlank(f.input) && !(Atoi(TrimSpace(f.input)).Some? && Atoi(TrimSpace(f.input)).value > 0)
    ensures var h := Update(f, KeyMsg(Enter), env).0;
      h.values == f.values && h.editing == f.editing && h.line.text == Some(EnterPositiveMs)
  {
    assert HandleKey(f, Enter, env) == (CommitEdit(f), None);
    assert CommitEdit(f) == CommitIntEdit(f, t);
  }

  // ---------------------------------------------------------------------------
  // Quitting
  // ---------------------------------------------------------------------------

  /** With nothing unsaved, q quits at once. */
  lemma CleanFormQuits(f: Form, env: FormEnv)
    requires FormOk(f) && f.editing == Idle && !IsDirty(f)
    ensures Quit in Update(f, KeyMsg(Rune('q')), env).1
  {
  }

  /** With unsaved changes, the first q only warns and the second quits. */
  lemma DirtyFormQuitsOnSecondPress(f: Form, env: FormEnv)
    requires FormOk(f) && f.editing == Idle && IsDirty(f) && !f.confirmExit
    ensures var (g, cmds) := Update(f, KeyMsg(Rune('q')), env);
      && Quit !in cmds
      && g.values == f.values && g.line.text == Some(UnsavedChanges)
      && Quit in Update(g, KeyMsg(Rune('q')), env).1
  {
    var (g, cmds) := Update(f, KeyMsg(Rune('q')), env);
    assert cmds == [ArmTimer(g.line.number, FormStatusMs)];
  }

  /** Flipping an option after the warning re-arms it: the next q warns again. */
  lemma EditReArmsQuitGuard(f: Form, fl: Flag, env: FormEnv)
    requires FormOk(f) && f.editing == Idle && f.confirmExit && f.rows[f.selected] == BoolItem(fl)
    ensures var g := Update(f, KeyMsg(Enter), env).0;
      !g.confirmExit && (IsDirty(g) ==> Quit !in Update(g, KeyMsg(Rune('q')), env).1)
  {
    var g := ToggleStep(f, fl, env);
    if IsDirty(g) {
      DirtyFormQuitsOnSecondPress(g, env);
    }
  }

  /** Enter on a boolean row flips it and leaves the form idle with the quit warning cleared. */
  lemma ToggleStep(f: Form, fl: Flag, env: FormEnv) returns (g: Form)
    requires FormOk(f) && f.editing == Idle && f.rows[f.selected] == BoolItem(fl)
    ensures g == Update(f, KeyMsg(Enter), env).0
    ensures FormOk(g) && g.editing == Idle && !g.confirmExit
    ensures g.values.toggles[fl].value == !f.values.toggles[fl].value
  {
    assert CurrentRow(f) == Some(BoolItem(fl));
    assert HandleKey(f, Enter, env) == (ToggleBool(f, fl), None);
    g := Update(f, KeyMsg(Enter), env).0;
  }

  // ---------------------------------------------------------------------------
  // Saving and reloading
  // ---------------------------------------------------------------------------

  /**
   * Writing and then reloading the file gives back the form's values, clean,
   * provided the file holds what was written (defaulted on reading) and some
   * question is left.
   */
  lemma SaveThenReloadKeepsValues(f: Form, env: FormEnv, env2: FormEnv)
    requires FormOk(f) && f.editing == Idle && env.saveOk
    requires |f.values.questions| > 0
    requires env2.load == Some(EnsureDefaults(ToConfig(f.values)))
    ensures var g := Update(f, KeyMsg(Rune('w')), env).0;
      && !IsDirty(g)
      && var h := Update(g, KeyMsg(Rune('r')), env2).0;
      h.values == f.values && !IsDirty(h)
  {
    assert HandleKey(f, Rune('w'), env) == (SaveChanges(f, env), None);
    var g := Update(f, KeyMsg(Rune('w')), env).0;
    assert HandleKey(g, Rune('r'), env2) == (ReloadFromDisk(g, env2), None);
    SavedValuesReadBack(f.values);
  }

  /** A failed write keeps the unsaved changes unsaved. */
  lemma FailedSaveStaysDirty(f: Form, env: FormEnv)
    requires FormOk(f) && f.editing == Idle && !env.saveOk
    ensures var g := Update(f, KeyMsg(Rune('w')), env).0;
      g.values == f.values && IsDirty(g) == IsDirty(f) && g.failed
  {
  }

  // ---------------------------------------------------------------------------
  // The status timer
  // ---------------------------------------------------------------------------

  /** Every timer the form hands out carries the number of the status it shows. */
  lemma FormTimerCarriesLatestStatus(f: Form, msg: FormMsg, env: FormEnv)
    requires FormOk(f) && f.line.timer.None?
    ensures var (r, cmds) := Update(f, msg, env);
      forall i :: i in cmds && i.ArmTimer? ==> i.number == r.line.number > f.line.number && i.ms == FormStatusMs
  {
  }
}
