/**
 * The list view's rows and the selection cursor.
 *
 * Each question of the session contributes one question row; in list mode
 * its entries follow it as entry rows. The cursor is an index into the rows.
 *
 * Source: internal/tuiapp/model.go (`indexRunes`, `jkDisableThreshold`,
 * `rebuildRows`, `rowIndexForQuestion`, `moveSelection`, `runeToIndex`, the
 * `questionIndex` map built by `refreshQuestions`).
 */
module Rows {
  import opened Base
  import opened Journal

  /** A row of the list: a question, or one entry of a question. */
  datatype Row = QuestionRow(question: string) | EntryRow(question: string, entryIndex: nat)

  /** The rows of one question: the question, then (in list mode) each of its entries. */
  function QuestionBlock(q: string, log: Log, listMode: bool): (b: seq<Row>)
    ensures |b| == 1 + (if listMode then |EntriesOf(log, q)| else 0)
    ensures b[0] == QuestionRow(q)
    ensures forall k :: 1 <= k < |b| ==> b[k] == EntryRow(q, k - 1)
  {
    [QuestionRow(q)] + (if listMode then seq(|EntriesOf(log, q)|, k requires 0 <= k < |EntriesOf(log, q)| => EntryRow(q, k)) else [])
  }

  /** Every row names a listed question, and every entry row an existing entry. */
  ghost predicate RowsFit(rows: seq<Row>, questions: seq<string>, log: Log, listMode: bool) {
    forall i :: 0 <= i < |rows| ==>
      && rows[i].question in questions
      && (rows[i].EntryRow? ==> listMode && rows[i].entryIndex < |EntriesOf(log, rows[i].question)|)
  }

  /** `rebuildRows`: the blocks of all questions, in question order. */
  function BuildRows(questions: seq<string>, log: Log, listMode: bool): (rows: seq<Row>)
    ensures |rows| >= |questions|
    ensures !listMode ==> |rows| == |questions| && forall i {:trigger rows[i]} :: 0 <= i < |rows| ==> rows[i] == QuestionRow(questions[i])
    decreases |questions|
  {
    if |questions| == 0 then []
    else
      var b := QuestionBlock(questions[0], log, listMode);
      var rest := BuildRows(questions[1..], log, listMode);
      assert forall i :: |b| <= i < |b + rest| ==> (b + rest)[i] == rest[i - |b|];
      b + rest
  }

  /** Every row `rebuildRows` makes names a listed question and, if an entry row, an existing entry. */
  lemma {:induction false} BuildRowsFit(questions: seq<string>, log: Log, listMode: bool)
    ensures RowsFit(BuildRows(questions, log, listMode), questions, log, listMode)
    decreases |questions|
  {
    if |questions| > 0 {
      var b := QuestionBlock(questions[0], log, listMode);
      var rest := BuildRows(questions[1..], log, listMode);
      BuildRowsFit(questions[1..], log, listMode);
      var rows: seq<Row> := b + rest;
      assert BuildRows(questions, log, listMode) == rows;
      forall i | 0 <= i < |rows|
        ensures rows[i].question in questions
        ensures rows[i].EntryRow? ==> listMode && rows[i].entryIndex < |EntriesOf(log, rows[i].question)|
      {
        if i >= |b| {
          assert rows[i] == rest[i - |b|];
          assert rest[i - |b|].question in questions[1..];
        } else {
          assert rows[i] == b[i];
        }
      }
    }
  }

  /** Rows before the block of `questions[idx]` in list mode. */
  function RowOffset(questions: seq<string>, log: Log, idx: nat): nat
    requires idx <= |questions|
    decreases idx
  {
    if idx == 0 then 0
    else 1 + |EntriesOf(log, questions[0])| + RowOffset(questions[1..], log, idx - 1)
  }

  /** `rowIndexForQuestion`: the row of the `idx`-th question, or -1 for an index out of range. */
  function RowIndexForQuestion(questions: seq<string>, log: Log, listMode: bool, idx: int): (r: int)
    ensures !(0 <= idx < |questions|) <==> r == -1
  {
    if idx < 0 || idx >= |questions| then -1
    else if !listMode then idx
    else RowOffset(questions, log, idx)
  }

  /** At row `r` of `rows` stands question `q`, followed by its `n` entry rows in order. */
  predicate BlockAt(rows: seq<Row>, r: int, q: string, n: nat) {
    && 0 <= r && r + n < |rows|
    && rows[r] == QuestionRow(q)
    && forall k :: 0 <= k < n ==> rows[r + 1 + k] == EntryRow(q, k)
  }

  /**
   * The row `rowIndexForQuestion` names is the question row of that
   * question, and in list mode its entries follow it in order.
   */
  lemma {:induction false} RowIndexLandsOnQuestion(questions: seq<string>, log: Log, listMode: bool, i: nat)
    requires i < |questions|
    ensures var rows := BuildRows(questions, log, listMode);
      var r := RowIndexForQuestion(questions, log, listMode, i);
      && 0 <= r < |rows|
      && rows[r] == QuestionRow(questions[i])
      && (listMode ==> BlockAt(rows, r, questions[i], |EntriesOf(log, questions[i])|))
    decreases i
  {
    if listMode {
      var q := questions[i];
      var n := |EntriesOf(log, q)|;
      var b := QuestionBlock(questions[0], log, listMode);
      var rest := BuildRows(questions[1..], log, listMode);
      assert BuildRows(questions, log, listMode) == b + rest;
      if i == 0 {
        BlockLands(b, rest, q, n);
      } else {
        RowIndexLandsOnQuestion(questions[1..], log, listMode, i - 1);
        assert questions[1..][i - 1] == q;
        var r := RowIndexForQuestion(questions[1..], log, listMode, i - 1);
        assert RowIndexForQuestion(questions, log, listMode, i) == |b| + r;
        ShiftedLands(b, rest, r, q, n);
      }
    }
  }

  /** A question's block at the front of the rows: the question row, then its entry rows. */
  lemma BlockLands(b: seq<Row>, rest: seq<Row>, q: string, n: nat)
    requires |b| == 1 + n && b[0] == QuestionRow(q)
    requires forall k :: 1 <= k < |b| ==> b[k] == EntryRow(q, k - 1)
    ensures BlockAt(b + rest, 0, q, n)
  {
    forall k | 0 <= k < n ensures (b + rest)[1 + k] == EntryRow(q, k) {
      assert (b + rest)[1 + k] == b[1 + k];
    }
  }

  /** A question's rows inside `rest` sit `|b|` further on in `b + rest`. */
  lemma ShiftedLands(b: seq<Row>, rest: seq<Row>, r: int, q: string, n: nat)
    requires BlockAt(rest, r, q, n)
    ensures BlockAt(b + rest, |b| + r, q, n)
  {
    forall k | 0 <= k < n ensures (b + rest)[|b| + r + 1 + k] == EntryRow(q, k) {
      assert (b + rest)[|b| + r + 1 + k] == rest[r + 1 + k];
    }
  }

  /**
   * `questionIndex[q]`: the map is filled in question order, so a question
   * listed twice maps to its last position.
   */
  function QuestionIndex(questions: seq<string>, q: string): (r: Option<nat>)
    ensures r.None? <==> q !in questions
    ensures r.Some? ==> r.value < |questions| && questions[r.value] == q
    ensures r.Some? ==> forall j :: r.value < j < |questions| ==> questions[j] != q
    decreases |questions|
  {
    if |questions| == 0 then None
    else if questions[|questions| - 1] == q then Some(|questions| - 1)
    else
      var r := QuestionIndex(questions[..|questions| - 1], q);
      assert questions == questions[..|questions| - 1] + [questions[|questions| - 1]];
      r
  }

  /** The label of question `i` for i < 36: the digits, then the lower-case letters. */
  function IndexRune(i: nat): (c: char)
    requires i < IndexRuneCount
    ensures i < 10 ==> '0' <= c <= '9'
    ensures i >= 10 ==> 'a' <= c <= 'z'
  {
    if i < 10 then ('0' as int + i) as char else ('a' as int + i - 10) as char
  }

  /** The number of labelled questions: `len(indexRunes)`. */
  const IndexRuneCount: nat := 36

  /** From this many questions on, j and k jump instead of moving the cursor. */
  const JkDisableThreshold: nat := 20

  /** `runeToIndex`: the first position of `c` in `indexRunes`. */
  function RuneToIndex(c: char): (r: Option<nat>)
    ensures r.Some? ==> r.value < IndexRuneCount && IndexRune(r.value) == c
    ensures r.None? <==> forall i :: 0 <= i < IndexRuneCount ==> IndexRune(i) != c
  {
    FindRune(c, 0)
  }

  function FindRune(c: char, from: nat): (r: Option<nat>)
    requires from <= IndexRuneCount
    ensures r.Some? ==> from <= r.value < IndexRuneCount && IndexRune(r.value) == c
    ensures r.None? <==> forall i :: from <= i < IndexRuneCount ==> IndexRune(i) != c
    decreases IndexRuneCount - from
  {
    if from == IndexRuneCount then None
    else if IndexRune(from) == c then Some(from)
    else FindRune(c, from + 1)
  }

  /** Different positions have different labels. */
  lemma IndexRuneInjective(i: nat, j: nat)
    requires i < IndexRuneCount && j < IndexRuneCount
    ensures IndexRune(i) == IndexRune(j) ==> i == j
  {
  }

  /** Digits select questions 0-9 and lower-case letters 10-35; nothing else selects. */
  lemma RuneToIndexValues(c: char)
    ensures '0' <= c <= '9' ==> RuneToIndex(c) == Some(c as int - '0' as int)
    ensures 'a' <= c <= 'z' ==> RuneToIndex(c) == Some(c as int - 'a' as int + 10)
    ensures !('0' <= c <= '9' || 'a' <= c <= 'z') ==> RuneToIndex(c).None?
  {
    var r := RuneToIndex(c);
    if '0' <= c <= '9' {
      var i := c as int - '0' as int;
      assert IndexRune(i) == c;
      IndexRuneInjective(i, r.value);
    } else if 'a' <= c <= 'z' {
      var i := c as int - 'a' as int + 10;
      assert IndexRune(i) == c;
      IndexRuneInjective(i, r.value);
    }
  }

  /**
   * `moveSelection`: the cursor moves by `delta` and stops at either end; with
   * no rows it is 0.
   */
  function MoveSelection(selected: int, delta: int, n: nat): (r: int)
    ensures n == 0 ==> r == 0
    ensures n > 0 ==> 0 <= r < n
    ensures n > 0 && 0 <= selected + delta < n ==> r == selected + delta
  {
    if n == 0 then 0
    else if selected + delta < 0 then 0
    else if selected + delta >= n then n - 1
    else selected + delta
  }

  /** The cursor never wraps around: moving down never lands above, moving up never below. */
  lemma MoveSelectionNoWrap(selected: int, delta: int, n: nat)
    requires 0 <= selected < n
    ensures delta >= 0 ==> MoveSelection(selected, delta, n) >= selected
    ensures delta <= 0 ==> MoveSelection(selected, delta, n) <= selected
    ensures selected + delta < 0 ==> MoveSelection(selected, delta, n) == 0
    ensures selected + delta >= n ==> MoveSelection(selected, delta, n) == n - 1
  {
  }

  /** `currentRow` (of the list and of the form): the row under the cursor, if the cursor is on one. */
  function RowAt<T>(rows: seq<T>, selected: int): (r: Option<T>)
    ensures r.Some? <==> 0 <= selected < |rows|
    ensures r.Some? ==> r.value == rows[selected]
  {
    if 0 <= selected < |rows| then Some(rows[selected]) else None
  }

  /** The cursor clamp at the end of `refreshQuestions` (and the form's `rebuildRows`). */
  function ClampSelection(selected: int, n: nat): (r: int)
    ensures n == 0 ==> r == 0
    ensures n > 0 && selected < n ==> r == selected
    ensures n > 0 && selected >= n ==> r == n - 1
  {
    if n == 0 then 0 else if selected >= n then n - 1 else selected
  }
}
