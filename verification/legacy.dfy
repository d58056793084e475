/**
 * The older command-line program: reading the configuration, the prompt loop
 * that records one answer per question, and its own copy of the question
 * ordering of the printed view.
 *
 * The configuration file, the day file and standard input are answered by
 * parameters: the outcome of reading the configuration, the day file as
 * loaded (or `None` when loading failed), one reply per prompt, the clock
 * reading at each prompt and whether saving succeeds.
 *
 * Source: main.go (`loadConfig`, `runPrompts`, `orderQuestions`).
 */
module Legacy {
  import opened Base
  import opened Text
  import opened AppConfig
  import opened Journal
  import opened Sorting
  import opened Ordering

  // ---------------------------------------------------------------------------
  // orderQuestions
  // ---------------------------------------------------------------------------

  /**
   * `orderQuestions` as the loop it is: walk `base` collecting the questions
   * the day file has, remember them as seen, then append the unseen keys
   * sorted. It lists exactly what `OrderQuestions` lists.
   */
  method CollectQuestions(answers: Log, base: seq<string>) returns (ordered: seq<string>)
    ensures ordered == OrderQuestions(answers, base)
  {
    ordered := [];
    var seen: set<string> := {};
    var i := 0;
    while i < |base|
      invariant 0 <= i <= |base|
      invariant ordered == KeysInBase(base[..i], answers)
      invariant forall q :: q in seen <==> q in base[..i] && q in answers
    {
      KeysInBaseSnoc(base[..i], base[i], answers);
      assert base[..i + 1] == base[..i] + [base[i]];
      if base[i] in answers {
        ordered := ordered + [base[i]];
        seen := seen + {base[i]};
      }
      i := i + 1;
    }
    assert base[..i] == base;
    var extras := SortedList(set q | q in answers && q !in seen);
    assert (set q | q in answers && q !in seen) == (set q | q in answers && q !in base);
    ordered := ordered + extras;
  }

  // ---------------------------------------------------------------------------
  // loadConfig
  // ---------------------------------------------------------------------------

  /** What reading the configuration file came to. */
  datatype ConfigRead =
    | NoConfigPath                      // the configuration directory cannot be found
    | ConfigMissing(saveOk: bool)       // no file yet: the defaults are written out
    | ConfigUnreadable                  // reading the file failed
    | ConfigMalformed                   // the file is not valid JSON
    | ConfigParsed(questions: seq<string>)

  /**
   * `loadConfig`: the questions to ask, and whether an error is reported
   * alongside them. Every failure falls back to the default questions.
   */
  function LoadConfig(read: ConfigRead): (r: (seq<string>, bool))
    ensures |r.0| > 0
    ensures r.1 ==> r.0 == DefaultQuestions
    ensures r.1 <==> !read.ConfigParsed? && !(read.ConfigMissing? && read.saveOk)
    ensures read.ConfigParsed? && |read.questions| > 0 ==> r.0 == read.questions
  {
    match read
    case NoConfigPath => (DefaultQuestions, true)
    case ConfigMissing(saveOk) => (DefaultQuestions, !saveOk)
    case ConfigUnreadable => (DefaultQuestions, true)
    case ConfigMalformed => (DefaultQuestions, true)
    case ConfigParsed(qs) => (if |qs| == 0 then DefaultQuestions else qs, false)
  }

  /** A parsed file gets the question defaulting of `ensureDefaults`, and nothing but the defaults otherwise. */
  lemma LoadConfigDefaults(read: ConfigRead)
    ensures read.ConfigParsed? ==> LoadConfig(read).0 == EnsureDefaults(Config(read.questions, map[], map[])).questions
    ensures !read.ConfigParsed? ==> LoadConfig(read).0 == DefaultQuestions
  {
  }

  // ---------------------------------------------------------------------------
  // runPrompts
  // ---------------------------------------------------------------------------

  /**
   * A line read for a prompt. Reaching the end of input counts as a line
   * (whatever was read before it, possibly nothing); any other read error
   * ends the loop.
   */
  datatype Reply = Line(text: string) | ReadError

  /** The reply to prompt `i`; past the end of the given replies, input has ended. */
  function ReplyAt(replies: seq<Reply>, i: nat): Reply {
    if i < |replies| then replies[i] else Line("")
  }

  /** The answer prompt `i` records, if any: its reply trimmed, unless blank. */
  function Recorded(replies: seq<Reply>, now: nat -> string, i: nat): Option<Answer> {
    match ReplyAt(replies, i)
    case ReadError => None
    case Line(text) => if TrimSpace(text) == [] then None else Some(Answer(now(i), TrimSpace(text)))
  }

  /**
   * The loop of `runPrompts` from prompt `i` on: `None` when a read fails,
   * else the day's answers with each non-blank reply appended to its
   * question, and how many were appended.
   */
  function Prompt(log: Log, questions: seq<string>, replies: seq<Reply>, now: nat -> string, i: nat): (r: Option<(Log, nat)>)
    requires i <= |questions|
    ensures i == |questions| ==> r == Some((log, 0))
    decreases |questions| - i
  {
    if i == |questions| then Some((log, 0))
    else if ReplyAt(replies, i) == ReadError then None
    else match Recorded(replies, now, i)
      case None => Prompt(log, questions, replies, now, i + 1)
      case Some(a) =>
        match Prompt(AppendEntry(log, questions[i], a), questions, replies, now, i + 1)
        case None => None
        case Some((l, n)) => Some((l, n + 1))
  }

  /** Every read for prompts `i` to `n - 1` succeeds. */
  predicate ReadsOk(replies: seq<Reply>, i: nat, n: nat) {
    forall j :: i <= j < n ==> ReplyAt(replies, j) != ReadError
  }

  /** The loop gives up exactly when some read fails. */
  lemma {:induction false} PromptFails(log: Log, questions: seq<string>, replies: seq<Reply>, now: nat -> string, i: nat)
    requires i <= |questions|
    ensures Prompt(log, questions, replies, now, i).None? <==> !ReadsOk(replies, i, |questions|)
    decreases |questions| - i
  {
    if i < |questions| {
      if ReplyAt(replies, i) == ReadError {
        assert !ReadsOk(replies, i, |questions|);
      } else {
        assert ReadsOk(replies, i, |questions|) <==> ReadsOk(replies, i + 1, |questions|);
        match Recorded(replies, now, i)
        case None =>
          PromptFails(log, questions, replies, now, i + 1);
        case Some(a) =>
          PromptFails(AppendEntry(log, questions[i], a), questions, replies, now, i + 1);
      }
    }
  }

  /** The answers prompts `i..` add to question `q`, in prompt order. */
  function AddedTo(questions: seq<string>, replies: seq<Reply>, now: nat -> string, i: nat, q: string): seq<Answer>
    requires i <= |questions|
    decreases |questions| - i
  {
    if i == |questions| then []
    else AddedHere(questions, replies, now, i, q) + AddedTo(questions, replies, now, i + 1, q)
  }

  /** The answer prompt `i` adds to question `q`: none, or its recorded reply if it asks `q`. */
  function AddedHere(questions: seq<string>, replies: seq<Reply>, now: nat -> string, i: nat, q: string): seq<Answer>
    requires i < |questions|
  {
    if questions[i] == q && Recorded(replies, now, i).Some? then [Recorded(replies, now, i).value] else []
  }

  /** The answers after prompt `i`: its reply appended to its question, if recorded. */
  function AfterPrompt(log: Log, questions: seq<string>, replies: seq<Reply>, now: nat -> string, i: nat): Log
    requires i < |questions|
  {
    match Recorded(replies, now, i)
    case None => log
    case Some(a) => AppendEntry(log, questions[i], a)
  }

  /** One turn of the loop, when the read succeeds. */
  lemma PromptStep(log: Log, questions: seq<string>, replies: seq<Reply>, now: nat -> string, i: nat)
    requires i < |questions| && ReplyAt(replies, i) != ReadError
    ensures var next := AfterPrompt(log, questions, replies, now, i);
      && (Prompt(log, questions, replies, now, i).Some? <==> Prompt(next, questions, replies, now, i + 1).Some?)
      && (Prompt(log, questions, replies, now, i).Some? ==>
            && Prompt(log, questions, replies, now, i).value.0 == Prompt(next, questions, replies, now, i + 1).value.0
            && Prompt(log, questions, replies, now, i).value.1 == Prompt(next, questions, replies, now, i + 1).value.1 + (if Recorded(replies, now, i).Some? then 1 else 0))
  {
  }

  /** Prompt `i` adds its answer to its own question and to no other. */
  lemma AfterPromptEntries(log: Log, questions: seq<string>, replies: seq<Reply>, now: nat -> string, i: nat, q: string)
    requires i < |questions|
    ensures EntriesOf(AfterPrompt(log, questions, replies, now, i), q) == EntriesOf(log, q) + AddedHere(questions, replies, now, i, q)
  {
    if Recorded(replies, now, i).None? {
      assert EntriesOf(log, q) + [] == EntriesOf(log, q);
    }
  }

  /**
   * Each question ends with its earlier entries followed by exactly the
   * non-blank replies to its prompts, trimmed and stamped with the time of
   * the prompt; a question not asked keeps its entries.
   */
  lemma {:induction false} PromptAppends(log: Log, questions: seq<string>, replies: seq<Reply>, now: nat -> string, i: nat, q: string)
    requires i <= |questions|
    requires Prompt(log, questions, replies, now, i).Some?
    ensures EntriesOf(Prompt(log, questions, replies, now, i).value.0, q) == EntriesOf(log, q) + AddedTo(questions, replies, now, i, q)
    decreases |questions| - i
  {
    if i == |questions| {
      assert EntriesOf(log, q) + [] == EntriesOf(log, q);
    } else {
      var next := AfterPrompt(log, questions, replies, now, i);
      PromptStep(log, questions, replies, now, i);
      PromptAppends(next, questions, replies, now, i + 1, q);
      AfterPromptEntries(log, questions, replies, now, i, q);
      AppendAssoc(EntriesOf(log, q), AddedHere(questions, replies, now, i, q), AddedTo(questions, replies, now, i + 1, q));
    }
  }

  /** Every answer's text is trimmed and non-empty. */
  predicate CleanAnswers(s: seq<Answer>) {
    forall k :: 0 <= k < |s| ==> CleanLine(s[k].response)
  }

  lemma CleanAnswersAppend(a: seq<Answer>, b: seq<Answer>)
    requires CleanAnswers(a) && CleanAnswers(b)
    ensures CleanAnswers(a + b)
  {
    forall k | 0 <= k < |a + b| ensures CleanLine((a + b)[k].response) {
      if k < |a| {
        assert (a + b)[k] == a[k];
      } else {
        assert (a + b)[k] == b[k - |a|];
      }
    }
  }

  /** A recorded reply is trimmed and non-empty. */
  lemma RecordedIsClean(replies: seq<Reply>, now: nat -> string, i: nat)
    ensures Recorded(replies, now, i).Some? ==> CleanLine(Recorded(replies, now, i).value.response)
  {
    if Recorded(replies, now, i).Some? {
      var text := ReplyAt(replies, i).text;
      assert Recorded(replies, now, i).value.response == TrimSpace(text);
    }
  }

  /** Every answer the loop records is trimmed and non-empty. */
  lemma {:induction false} AddedAreClean(questions: seq<string>, replies: seq<Reply>, now: nat -> string, i: nat, q: string)
    requires i <= |questions|
    ensures CleanAnswers(AddedTo(questions, replies, now, i, q))
    decreases |questions| - i
  {
    if i < |questions| {
      var here := AddedHere(questions, replies, now, i, q);
      var later := AddedTo(questions, replies, now, i + 1, q);
      AddedAreClean(questions, replies, now, i + 1, q);
      AddedHereClean(questions, replies, now, i, q);
      CleanAnswersAppend(here, later);
      assert AddedTo(questions, replies, now, i, q) == here + later;
    }
  }

  /** What one prompt adds is clean. */
  lemma AddedHereClean(questions: seq<string>, replies: seq<Reply>, now: nat -> string, i: nat, q: string)
    requires i < |questions|
    ensures CleanAnswers(AddedHere(questions, replies, now, i, q))
  {
    RecordedIsClean(replies, now, i);
  }

  /** Every prompt from `i` to `n - 1` got a blank reply. */
  predicate AllBlank(replies: seq<Reply>, now: nat -> string, i: nat, n: nat) {
    forall j :: i <= j < n ==> Recorded(replies, now, j).None?
  }

  /** The loop appends something exactly when some prompt got a non-blank reply, and otherwise changes nothing. */
  lemma {:induction false} PromptCount(log: Log, questions: seq<string>, replies: seq<Reply>, now: nat -> string, i: nat)
    requires i <= |questions|
    requires Prompt(log, questions, replies, now, i).Some?
    ensures var p := Prompt(log, questions, replies, now, i).value;
      && (p.1 == 0 <==> AllBlank(replies, now, i, |questions|))
      && (p.1 == 0 ==> p.0 == log)
    decreases |questions| - i
  {
    if i < |questions| {
      assert ReplyAt(replies, i) != ReadError;
      var next := AfterPrompt(log, questions, replies, now, i);
      PromptStep(log, questions, replies, now, i);
      PromptCount(next, questions, replies, now, i + 1);
      assert AllBlank(replies, now, i, |questions|) <==>
        Recorded(replies, now, i).None? && AllBlank(replies, now, i + 1, |questions|);
    }
  }

  /** How `runPrompts` ends. */
  datatype PromptOutcome =
    | NoQuestions            // nothing configured: no file is touched
    | DayLoadFailed          // the day file could not be loaded
    | ReadFailed             // reading a reply failed: nothing is saved
    | NothingRecorded        // every reply was blank: nothing is saved
    | Saved(log: Log)        // the answers were written
    | SaveFailed(log: Log)   // writing the answers failed

  /**
   * `runPrompts`: ask every question in order, append each non-blank reply
   * to the day's answers, and write the day file only if something was
   * added.
   */
  function RunPrompts(questions: seq<string>, loaded: Option<Log>, replies: seq<Reply>, now: nat -> string, saveOk: bool): (r: PromptOutcome)
    ensures |questions| == 0 <==> r == NoQuestions
    ensures |questions| > 0 && loaded.None? <==> r == DayLoadFailed
    ensures r == ReadFailed <==> |questions| > 0 && loaded.Some? && !ReadsOk(replies, 0, |questions|)
    ensures r == NothingRecorded <==>
      |questions| > 0 && loaded.Some? && ReadsOk(replies, 0, |questions|) && AllBlank(replies, now, 0, |questions|)
    ensures r.Saved? ==> saveOk
    ensures r.SaveFailed? ==> !saveOk
  {
    if |questions| == 0 then NoQuestions
    else if loaded.None? then DayLoadFailed
    else
      var p := Prompt(loaded.value, questions, replies, now, 0);
      PromptFails(loaded.value, questions, replies, now, 0);
      if p.None? then ReadFailed
      else
        PromptCount(loaded.value, questions, replies, now, 0);
        if p.value.1 == 0 then NothingRecorded
        else if saveOk then Saved(p.value.0)
        else SaveFailed(p.value.0)
  }

  /**
   * What is written is the loaded answers with every non-blank reply
   * appended, trimmed, to the question it answers, in prompt order.
   */
  lemma RunPromptsWrites(questions: seq<string>, loaded: Option<Log>, replies: seq<Reply>, now: nat -> string, saveOk: bool, q: string)
    ensures var r := RunPrompts(questions, loaded, replies, now, saveOk);
      r.Saved? || r.SaveFailed? ==>
        && EntriesOf(r.log, q) == EntriesOf(loaded.value, q) + AddedTo(questions, replies, now, 0, q)
        && CleanAnswers(AddedTo(questions, replies, now, 0, q))
  {
    var r := RunPrompts(questions, loaded, replies, now, saveOk);
    if r.Saved? || r.SaveFailed? {
      PromptAppends(loaded.value, questions, replies, now, 0, q);
      AddedAreClean(questions, replies, now, 0, q);
    }
  }

  /** `run` feeds `loadConfig`'s questions to `runPrompts`, which therefore always has something to ask. */
  lemma LoadedConfigAlwaysPrompts(read: ConfigRead, loaded: Option<Log>, replies: seq<Reply>, now: nat -> string, saveOk: bool)
    ensures RunPrompts(LoadConfig(read).0, loaded, replies, now, saveOk) != NoQuestions
  {
  }
}
