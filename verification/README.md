# wlog: a Dafny model of the journal's state machines

wlog is a terminal work journal. Each day it records timestamped answers to a
configured list of questions. This project models in Dafny the parts of wlog
that decide things, and proves properties of that model:

- **The day session** of the terminal UI (`internal/tuiapp/model.go`, module
  `Session`). This covers:
  - the question list and the rows derived from the day's answers (`Ordering`, `Rows`);
  - cursor movement and index jumps;
  - inline entry, and deletion with its y/n confirmation;
  - list mode, and day changes and reloads;
  - the status line and its timeout guard (`Terminal`);
  - merging an edited buffer back into the entries while keeping their
    timestamps (`Journal`).

  `SessionLaws` proves properties that span several messages.
- **The external editor round trip** (`internal/tuiapp/editor.go`, module
  `Editor`). This covers how the buffer is normalized and split into lines,
  how an editor run is classified, and how the editor name is resolved.
- **The configuration form** (`internal/tuiapp/config.go`, modules
  `ConfigForm` and `FormLaws`). This covers:
  - its fixed row layout;
  - toggling and resetting options;
  - validating question and millisecond edits;
  - dirty tracking with a two-press quit;
  - the conversion between the form's values and the configuration.
- **The configuration and the command-line helpers** (`internal/app/app.go`,
  modules `AppConfig`, `ConfigMap`, `Ordering`, `Interval`). This covers:
  - the option getters and `ensureDefaults`;
  - how options and default markers are written into the raw JSON map;
  - question ordering;
  - interval parsing.
- **The older single-file program** (`main.go`, module `Legacy`). This covers
  the prompt loop of `runPrompts`, the fallbacks of `loadConfig` and the loop
  of `orderQuestions`. Its `parseInterval` and `startOfWeek` (main.go:239-282)
  are the same code as app.go's `ParseInterval` and `StartOfWeek`, so
  `Interval` models both.

Everything is a pure function over immutable datatypes. A day's answers are a
`map<string, seq<Answer>>`; rows are a `seq<Row>`. Days are integers counted
from 1970-01-01. The outside world is passed in as parameters:
- the current timestamp and day;
- whether a save succeeds;
- what a load returns;
- what the editor leaves in its file.

Commands the Go code hands to the Bubble Tea runtime are returned as intent
values: quit, launch the editor, open a file, arm the status timer.

## Model

| member | source | states |
|---|---|---|
| AppConfig.Enabled | internal/app/app.go:740-795 | each boolean getter returns the stored value when the option is set and the option's default otherwise |
| AppConfig.AllFlagsComplete | internal/app/app.go:705-716 | the list of boolean options names every option of the configuration |
| AppConfig.AllTimingsComplete | internal/app/app.go:705-716 | the list of millisecond options names both millisecond options |
| AppConfig.DurationMs | internal/app/app.go:775-781 | the status duration (and likewise the escape timeout, 797-803) is the stored value when it is positive and one second otherwise, so it is always positive |
| AppConfig.EnsureDefaults | internal/app/app.go:728-738 | an empty question list becomes the default questions, and every non-positive duration is dropped; the boolean options are untouched and the result is normalized |
| AppConfig.EnsureDefaultsFixesNormalized | internal/app/app.go:728-738 | ensureDefaults leaves a normalized configuration unchanged, and applying it twice gives the same as once |
| AppConfig.EnsureDefaultsPreservesGetters | internal/app/app.go:728-803 | every getter returns the same value before and after ensureDefaults |
| ConfigMap.SettingIndex | internal/app/app.go:501-512 | every option has a position in the list of options that applyConfigToMap writes |
| ConfigMap.SettingNameInjective | internal/app/app.go:501-512 | different options are written under different JSON keys |
| ConfigMap.KeyNameInjective | internal/app/app.go:693-703 | option keys, marker keys and "questions" never collide |
| ConfigMap.SetOptionalBool | internal/app/app.go:514-520 | an unset boolean option deletes its key, a set one stores its value, and every other key is kept |
| ConfigMap.SetOptionalInt | internal/app/app.go:522-528 | an unset millisecond option deletes its key, a set one stores its value, and every other key is kept |
| ConfigMap.ApplySetting | internal/app/app.go:503-511 | one line of applyConfigToMap: the option's key is present exactly when the option is set, and holds its value |
| ConfigMap.ApplySettingsFacts | internal/app/app.go:503-511 | after a run of such lines, every listed option's key reflects the configuration and every other key is as it was |
| ConfigMap.AllSettingsListed | internal/app/app.go:503-511 | applyConfigToMap writes every one of the nine options |
| ConfigMap.SettingsStored | internal/app/app.go:501-512 | every option key of the result reflects the configuration |
| ConfigMap.SettingsKeepOthers | internal/app/app.go:501-512 | applyConfigToMap leaves every key that is not an option key as it was |
| ConfigMap.ApplyConfigToMap | internal/app/app.go:501-512 | the result stores the questions and exactly the set options; markers and unknown keys are kept |
| ConfigMap.ConfigFromMap | internal/app/app.go:411-452 | reading an option back takes it from its key when that key holds a value of the right kind |
| ConfigMap.RoundTripFlag | internal/app/app.go:501-520 | a boolean option written into the map reads back as the same option |
| ConfigMap.RoundTripTiming | internal/app/app.go:522-528 | a millisecond option written into the map reads back as the same option |
| ConfigMap.RoundTripFlags | internal/app/app.go:501-520 | all boolean options read back as written |
| ConfigMap.RoundTripTimings | internal/app/app.go:501-528 | all millisecond options read back as written |
| ConfigMap.ApplyConfigRoundTrip | internal/app/app.go:501-528 | reading back, by exact key name, the options of a map that applyConfigToMap wrote gives the options written, whatever the map held before |
| ConfigMap.SetMissingMarkers | internal/app/app.go:530-540 | every listed marker ends up at its default; the change flag is set exactly when some marker was missing or different; other keys are untouched |
| ConfigMap.ApplyDefaultMarkers | internal/app/app.go:530-540 | afterwards every marker holds its default; the result is true exactly when a marker had to be added or overwritten; a map that needs no change is returned as it was, so a second call returns false |
| Ordering.MergeQuestions | internal/tuiapp/model.go:879-899 | the result is the whole base list in order, then the answered questions missing from it, in ascending order |
| Ordering.MergeQuestionsUnique | internal/app/app.go:276-296 | any list with that shape equals mergeQuestionsForList's result, so the function is the only one with that contract |
| Ordering.MergeQuestionsMembers | internal/tuiapp/model.go:879-899 | a question is listed exactly when it is in the base list or has at least one answer |
| Ordering.MergeQuestionsDistinct | internal/tuiapp/model.go:879-899 | a base list without duplicates gives a result without duplicates |
| Ordering.KeysInBase | internal/app/app.go:341-350 | the first loop keeps exactly the base questions that have answers |
| Ordering.KeysInBaseSnoc | internal/app/app.go:341-350 | the kept questions stay in base order: a question appended to the base is appended to the result exactly when the day file has it |
| Ordering.OrderQuestions | internal/app/app.go:341-359 | the answered base questions come first in base order, then the other answered questions in ascending order |
| Ordering.OrderQuestionsMembers | internal/app/app.go:341-359 | a question is listed exactly when it has an entry in the answers map, even an empty one |
| Ordering.KeysInBaseDistinct | internal/app/app.go:341-350 | a base list without duplicates gives a first part without duplicates |
| Ordering.OrderQuestionsPermutation | internal/app/app.go:341-359 | with a base list without duplicates, the result lists every answered question exactly once |
| Sorting.SortedList | internal/app/app.go:356 | sorting a set of questions gives each of them once, in strictly ascending order |
| Sorting.StrictlySortedUnique | internal/app/app.go:356 | two strictly ascending lists with the same members are equal |
| Text.LessIsStrictTotalOrder | internal/tuiapp/model.go:896 | the string order that sort.Strings uses is a strict total order |
| Text.TrimSpace | internal/tuiapp/model.go:567 | the result has no whitespace at either end, is empty exactly for all-space input, and leaves a trimmed string as it is |
| Text.ToLower | internal/app/app.go:363 | lower-casing maps each character on its own and keeps the length |
| Text.ToLowerIdempotent | internal/app/app.go:363 | lower-casing twice gives the same as once |
| Text.Fields | internal/tuiapp/editor.go:72 | splitting on whitespace gives non-empty words without whitespace, and no words exactly for all-space input |
| Text.FieldsSkipsSpace | internal/tuiapp/editor.go:72 | leading whitespace yields no field |
| Text.FieldsTakesWord | internal/tuiapp/editor.go:72 | a run of non-whitespace characters that ends at whitespace or at the end of the string is taken whole as the next field |
| Text.FieldsJoinWords | internal/tuiapp/editor.go:72 | splitting words joined by single spaces gives the words back |
| Text.Atoi | internal/tuiapp/config.go:515 | a string of digits parses to its value when that fits in 64 bits; empty input and input containing whitespace fail |
| Text.Itoa | internal/tuiapp/config.go:456 | the decimal text of a number is non-empty and has no whitespace |
| Text.ItoaAtoi | internal/tuiapp/config.go:456-515 | a 64-bit number's decimal text parses back to the number |
| Text.SplitJoinLines | internal/tuiapp/editor.go:97 | splitting newline-free lines joined by newlines gives them back |
| Text.JoinSplitLines | internal/tuiapp/editor.go:97 | joining the pieces of a split with newlines gives back the text |
| Text.TrimTrailingNewlines | internal/tuiapp/editor.go:89 | only trailing newlines are removed, and the result does not end in one |
| Interval.Weekday | internal/app/app.go:397-402 | the weekday is 0 (Sunday) to 6, and day 0 is a Thursday |
| Interval.WeekdayPeriodic | internal/app/app.go:397-402 | weekdays repeat every seven days |
| Interval.StartOfWeek | internal/app/app.go:395-404 | the start of the week is a Monday, at most six days back, with no Monday after it up to the given day |
| Interval.WeekdayBack | internal/app/app.go:395-404 | stepping j days back moves the weekday j places back |
| Interval.StartOfWeekUnique | main.go:273-282 | any Monday at most six days back is the start of the week |
| Interval.MatchLastDays | internal/app/app.go:33 | a match of `^last\s+(\d+)\s+days?$` has that shape and captures the digits |
| Interval.MatchLastDaysComplete | internal/app/app.go:33 | every input of that shape matches and captures its digits |
| Interval.DaysBack | internal/app/app.go:383-390 | a valid count gives a non-empty interval ending today |
| Interval.DaysBackOfDigits | internal/app/app.go:383-390 | a count from 1 up to the 64-bit maximum gives the last N days ending today on an unbounded calendar; 0 or an overflowing count is an invalid day count |
| Interval.ParseInterval | internal/app/app.go:361-393 | every interval returned starts no later than it ends and ends no later than today, on an unbounded calendar |
| Interval.ParseIntervalTable | internal/app/app.go:363-380 | "" and "today" give today, "yesterday" the day before, "this week" the start of the week to today, "this year" the start of the year to today |
| Interval.LastWeekIsPreviousWeek | internal/app/app.go:372-375 | "last week" is the seven days from a Monday up to the day before this week's start |
| Interval.LastDaysInterval | main.go:261-268 | "last N days" gives the last N days ending today for 1 <= N on an unbounded calendar, and an invalid day count for N = 0 or a count too large to parse |
| Interval.NotFixedPhrase | internal/app/app.go:364-381 | no input of the "last N days" shape is one of the fixed phrases |
| Interval.UnsupportedOtherwise | internal/app/app.go:392 | any other input is an unsupported interval |
| Interval.LookupOtherPhrase | internal/app/app.go:383-392 | an input that is not a fixed phrase is a day count when the pattern matches and unsupported otherwise |
| Interval.ParseIntervalNormalized | main.go:241 | trimming and lower-casing the input first does not change the interval |
| Journal.StoreEntries | internal/tuiapp/model.go:640-655 | the question gets exactly the given entries, its key goes when they are empty, and other questions are untouched |
| Journal.Responses | internal/tuiapp/model.go:927-933 | the response texts are the entries' responses in order |
| Journal.RemoveAt | internal/tuiapp/config.go:363-371 | removing position i keeps everything before it and shifts everything after it down by one |
| Journal.DeleteEntry | internal/tuiapp/model.go:453-476 | an index in range removes exactly that entry, keeps the others in order and drops the key when the list becomes empty; an index out of range changes nothing |
| Journal.AppendEntry | internal/tuiapp/model.go:566-575 | the entry is added at the end of its question's list and no other question changes |
| Journal.ReplaceResponse | internal/tuiapp/model.go:657-679 | an index in range replaces that entry's text and keeps its timestamp; all other entries and questions are unchanged |
| Journal.CleanLinesClean | internal/tuiapp/model.go:941-947 | every kept line is trimmed and non-empty |
| Journal.CleanLinesOfClean | internal/tuiapp/model.go:941-947 | lines that are already trimmed and non-empty are all kept as they are |
| Journal.CleanLinesAppend | internal/tuiapp/model.go:941-947 | cleaning two lists one after the other gives the same as cleaning them joined |
| Journal.CleanLinesKeepsOrder | internal/tuiapp/editor.go:97-104 | the kept lines are the trimmed non-blank lines, taken at increasing positions, and every line left out is blank |
| Journal.PicksDetermineCleanLines | internal/tuiapp/editor.go:97-104 | conversely, any trimmed non-empty lines picked that way are exactly the cleaned lines |
| Journal.BuildPool | internal/tuiapp/model.go:936-940 | the pool holds for each text the timestamps of its entries, in entry order |
| Journal.RebuildAnswers | internal/tuiapp/model.go:935-957 | the result's texts are the cleaned lines, and every timestamp is now or an old timestamp of the same text |
| Journal.RebuildAnswersMatchesReference | internal/tuiapp/model.go:935-957 | line k takes the timestamp of the j-th old entry with its text, where j counts the earlier lines with that text; once those entries are used up it takes now |
| Journal.RebuildUnchangedIsIdentity | internal/tuiapp/model.go:927-957 | giving the entries' own trimmed responses back returns the entries unchanged |
| Editor.Normalize | internal/tuiapp/editor.go:87-91 | normalized text never ends in a newline |
| Editor.ReplaceCRLFIdentity | internal/tuiapp/editor.go:88 | text without a CRLF pair is left unchanged |
| Editor.TrimTrailingNewlinesIdempotent | internal/tuiapp/editor.go:89 | stripping trailing newlines twice gives the same as once |
| Editor.NormalizeIdempotent | internal/tuiapp/editor.go:87-91 | normalizing twice gives the same as once when the first replacement leaves no CRLF pair |
| Editor.NormalizeNotIdempotent | internal/tuiapp/editor.go:87-91 | "\r\r\nx" is a text that normalizes differently the second time |
| Editor.ParseEditorLines | internal/tuiapp/editor.go:93-106 | empty content gives no lines, and every line returned is trimmed, non-empty and free of newlines |
| Editor.ParseEditorLinesKeepsOrder | internal/tuiapp/editor.go:93-106 | the parsed entries are the content's non-blank lines, trimmed, in the order they appear, and only blank lines are left out |
| Editor.ParseEditorLinesExactly | internal/tuiapp/editor.go:93-106 | any trimmed non-empty lines picked in order from the content, skipping only blank lines, are exactly the parsed entries |
| Editor.CleanLinesNoNewline | internal/tuiapp/editor.go:97-104 | trimming lines does not introduce newlines |
| Editor.CleanBufferNormal | internal/tuiapp/editor.go:20-29 | the buffer written for clean entries normalizes back to the entries joined by newlines |
| Editor.BufferRoundTrip | internal/tuiapp/editor.go:20-29 | parsing the normalized buffer written for clean entries gives the entries back |
| Editor.EditorName | internal/tuiapp/editor.go:64-71 | the editor is VISUAL when set, else EDITOR when set, else vim |
| Editor.EditorArgv | internal/tuiapp/editor.go:72-76 | the command is the editor name's whitespace-separated words followed by the file path; only a name with no words is used whole |
| Editor.EditorArgvSplitsWords | internal/tuiapp/editor.go:72-76 | an editor setting of several space-separated words runs its first word with the others as arguments, then the file |
| Editor.EditEntries | internal/tuiapp/editor.go:20-62 | any failed step reports an error with no responses; otherwise the run is unchanged exactly when the normalized texts agree, an unchanged run gives back the original lines, a single-entry edit gives exactly the normalized text, and a question edit gives its parsed lines |
| Editor.UntouchedBufferUnchanged | internal/tuiapp/editor.go:51-55 | closing the editor without touching the buffer reports no change and the original lines |
| Editor.EmptiedBufferRemovesAll | internal/tuiapp/editor.go:59-60 | emptying a question's buffer reports a change with no responses |
| Editor.EmptyAfterNormalize | internal/tuiapp/editor.go:87-91 | a buffer of only newlines normalizes to nothing |
| Terminal.Bump | internal/tuiapp/model.go:681-692 | setting a status shows it under a strictly larger number, and arms a timer for that number when the timeout is positive |
| Terminal.Expire | internal/tuiapp/model.go:173-176 | a timeout clears the status only when it carries the current number; otherwise nothing changes |
| Rows.QuestionBlock | internal/tuiapp/model.go:819-830 | a question's block is its question row followed, in list mode only, by one row per entry in order |
| Rows.BuildRows | internal/tuiapp/model.go:819-830 | there is at least one row per question; outside list mode row i is the question row of question i |
| Rows.BuildRowsFit | internal/tuiapp/model.go:819-830 | every row names a listed question, and an entry row only occurs in list mode and names an existing entry |
| Rows.RowIndexForQuestion | internal/tuiapp/model.go:741-757 | the row index is -1 exactly for an index out of range |
| Rows.RowIndexLandsOnQuestion | internal/tuiapp/model.go:741-757 | the row for question i is question i's question row, and in list mode its entry rows follow it in order |
| Rows.QuestionIndex | internal/tuiapp/model.go:806-809 | the question index map holds exactly the listed questions and maps each to its last position |
| Rows.IndexRune | internal/tuiapp/model.go:17 | positions 0-9 are labelled with digits and 10-35 with lower-case letters |
| Rows.RuneToIndex | internal/tuiapp/model.go:901-908 | a rune maps to a position exactly when some position carries it as its label |
| Rows.IndexRuneInjective | internal/tuiapp/model.go:17 | no two positions share a label |
| Rows.RuneToIndexValues | internal/tuiapp/model.go:901-908 | '0'-'9' select 0-9, 'a'-'z' select 10-35, and every other rune selects nothing |
| Rows.MoveSelection | internal/tuiapp/model.go:694-707 | the cursor is 0 with no rows and otherwise stays within the rows, moving exactly by delta when that stays in range |
| Rows.MoveSelectionNoWrap | internal/tuiapp/model.go:694-707 | moving down never lands above the cursor and moving up never below; overshooting stops at the first or last row |
| Rows.ClampSelection | internal/tuiapp/model.go:812-816 | a cursor past the end is pulled back to the last row, and 0 with no rows |
| Session.SetStatus | internal/tuiapp/model.go:681-692 | only the status line changes; it shows the new text under a larger number |
| Session.Relist | internal/tuiapp/model.go:801-817 | the question list, the j/k switch (on from 20 questions) and the rows are re-derived from the log; a cursor still on a row stays put |
| Session.RefreshQuestions | internal/tuiapp/model.go:801-817 | refreshing makes the listing agree with the log and changes nothing but the listing and the pending delete |
| Rows.RowAt | internal/tuiapp/model.go:759-764 | there is a current row exactly when the cursor is on a row, and it is the row at the cursor (the form's currentRow, config.go:424-429, is the same) |
| Session.Move | internal/tuiapp/model.go:694-707 | only the cursor moves, clamped to the rows |
| Session.JumpToIndex | internal/tuiapp/model.go:709-733 | a jump succeeds exactly when the rune is a label of an existing question; it then selects that question's row, and otherwise nothing changes |
| Session.SelectQuestionByName | internal/tuiapp/model.go:735-739 | a listed question becomes the current row; an unlisted one changes nothing |
| Session.ToggleListMode | internal/tuiapp/model.go:766-780 | list mode flips, the listing stays consistent, and the log, status and screen are untouched |
| Session.AfterDelete | internal/tuiapp/model.go:470-475 | after a delete the listing is refreshed, the pending delete is cleared and "entry deleted" is shown |
| Session.PerformDelete | internal/tuiapp/model.go:453-476 | an index out of range only reports that the entry was not found; otherwise exactly that entry is removed, and a failed save still keeps the removal |
| Session.InitiateDelete | internal/tuiapp/model.go:416-429 | with confirmation on, the delete is only recorded as pending; with it off the entry is deleted at once |
| Session.DeleteRequest | internal/tuiapp/model.go:403-414 | deleting needs list mode and an entry row; otherwise a hint is shown |
| Session.ConfirmationKey | internal/tuiapp/model.go:431-451 | y/Y deletes once and clears the pending delete; n/N/esc clears it without touching the log; any other key keeps it pending |
| Session.StartEditing | internal/tuiapp/model.go:558-564 | the inline input opens empty and nothing else but the status changes |
| Session.OpenDetail | internal/tuiapp/model.go:543-556 | the detail view opens on the question, editing as asked, with no pending delete |
| Session.AfterInlineSave | internal/tuiapp/model.go:581-584 | after a saved entry the input is cleared, editing stays on and "entry saved" is shown |
| Session.SaveInlineEntry | internal/tuiapp/model.go:566-585 | blank input changes nothing but the status; otherwise one entry with the trimmed text and the current time is appended, and it stays even when the save fails |
| Session.OpenQuestionEditor | internal/tuiapp/model.go:587-590 | the editor is launched on the question's responses in order, as a whole-question edit |
| Session.OpenEntryEditor | internal/tuiapp/model.go:592-598 | the editor is launched on the one response exactly when the index is in range |
| Session.ActivateSelection | internal/tuiapp/model.go:531-541 | enter on an entry row opens that entry in the editor; on a question row it opens the detail view; with no row it does nothing |
| Session.ReloadDay | internal/tuiapp/model.go:845-863 | a successful load replaces the log, resets the view to the list and shows the day; a failed load only records the error |
| Session.ChangeDay | internal/tuiapp/model.go:832-835 | the day moves first, so a failed load leaves the new day with the old log |
| Session.GoToToday | internal/tuiapp/model.go:837-843 | nothing happens when already on today; otherwise today is loaded |
| Session.RefreshFromDisk | internal/tuiapp/model.go:865-877 | a successful reload replaces the log and keeps the screen and status |
| Session.OpenDayJSON | internal/tuiapp/model.go:478-493 | the day file is opened only when it can be saved and its path resolves |
| Session.ToggleHints | internal/tuiapp/model.go:782-799 | hints flip, the stored option flips with them, and no other option changes |
| Session.AfterEdit | internal/tuiapp/model.go:652-654 | after an editor edit the listing is refreshed and the given status is shown |
| Session.ApplyQuestionEdit | internal/tuiapp/model.go:640-655 | the question's entries become the timestamp-preserving merge of the edited lines |
| Session.EditedLog | internal/tuiapp/model.go:662-671 | an empty response list deletes the entry; otherwise the entry's text is replaced |
| Session.ApplySingleEntryEdit | internal/tuiapp/model.go:657-679 | an index out of range changes nothing; otherwise the entry is edited or deleted |
| Session.HandleEditorResult | internal/tuiapp/model.go:610-625 | an editor failure only records the error; an unchanged buffer only says so; a change is applied as an entry or a question edit |
| Session.ExternalOpenResult | internal/tuiapp/model.go:627-638 | after the day file was edited externally the day is reloaded from disk |
| Session.LowerAscii | internal/tuiapp/model.go:386-390 | upper-case ASCII letters are lower-cased and other ASCII characters are kept |
| Session.IndexKey | internal/tuiapp/model.go:385-397 | j and k are left to cursor movement below 20 questions; any other one-byte rune jumps, and opens the question when auto-open is on |
| Session.ListKey | internal/tuiapp/model.go:347-401 | up/down and j/k move the cursor, d deletes and l toggles list mode |
| Session.DetailKey | internal/tuiapp/model.go:495-529 | while typing, enter saves and esc cancels; otherwise esc and - go back and enter and i start typing |
| Session.GlobalKey | internal/tuiapp/model.go:315-334 | left and right change the day, space goes to today, h and ? toggle hints |
| Session.HandleKey | internal/tuiapp/model.go:293-345 | ctrl+c always quits and q quits unless typing, even with a delete pending; a pending delete takes every other key |
| Session.Handle | internal/tuiapp/model.go:151-187 | each message goes to its handler; a status timeout only touches the status line |
| Session.Commands | internal/tuiapp/model.go:151-187 | the commands returned are the handler's command and the status timer, nothing else |
| Session.Update | internal/tuiapp/model.go:151-187 | a message is handled and the status timer it asks for is handed out as a command |
| Session.NewSession | internal/tuiapp/model.go:105-145 | a session starts only when the day loads, on the list view with a consistent listing, in the configured list mode and hints |
| SessionLaws.ToggleListModeKeepsQuestion | internal/tuiapp/model.go:766-780 | toggling list mode keeps the cursor on the same question |
| SessionLaws.ConsistentWhileSavesSucceed | internal/tuiapp/model.go:151-187 | while saving succeeds, every message keeps the listing in agreement with the log |
| SessionLaws.MoreEntriesMoreRows | internal/tuiapp/model.go:819-830 | in list mode a question with more entries gives more rows |
| SessionLaws.FailedInlineSaveLeavesRowsBehind | internal/tuiapp/model.go:576-580 | a failed inline save keeps the appended entry but skips the refresh, so the rows no longer match the log |
| SessionLaws.RowsBehind | internal/tuiapp/model.go:801-830 | in list mode, rows derived from a log stop matching it once a listed question gains an entry, until the questions are refreshed |
| SessionLaws.QuitLeavesStateAlone | internal/tuiapp/model.go:296-307 | q (when not typing) and ctrl+c quit and change nothing |
| SessionLaws.ConfirmYesDeletes | internal/tuiapp/model.go:436-441 | y with a delete pending deletes that entry and clears the pending delete |
| SessionLaws.ConfirmNoCancels | internal/tuiapp/model.go:442-446 | n or esc with a delete pending keeps the log and clears the pending delete |
| SessionLaws.ConfirmOtherKeyWaits | internal/tuiapp/model.go:447-450 | any other key keeps the delete pending, the log and the day, and asks for y or n |
| SessionLaws.EnterAppendsOneEntry | internal/tuiapp/model.go:566-585 | enter while typing appends exactly one trimmed entry to the detail question, or nothing for blank input, touches no other question and keeps typing on |
| SessionLaws.TimerCarriesLatestStatus | internal/tuiapp/model.go:681-692 | every timer handed out carries the number of the status it will clear |
| SessionLaws.StaleTimeoutKeepsStatus | internal/tuiapp/model.go:173-176 | a stale timeout keeps the status, a current one clears it, and neither changes anything else |
| ConfigForm.FromConfig | internal/tuiapp/config.go:66-104 | every option shows the value the configuration resolves to, marked custom exactly when stored; a duration counts as set only when stored and positive |
| ConfigForm.ToConfig | internal/tuiapp/config.go:141-171 | the configuration stores exactly the custom and set options, with their values |
| ConfigForm.ToConfigFromConfig | internal/tuiapp/config.go:66-171 | converting a configuration to form values and back gives it back, except that non-positive durations are dropped |
| ConfigForm.FlagsRoundTrip | internal/tuiapp/config.go:66-171 | the boolean options survive the conversion there and back |
| ConfigForm.TimingsRoundTrip | internal/tuiapp/config.go:66-171 | the durations come back as ensureDefaults would leave them |
| ConfigForm.FromConfigToConfig | internal/tuiapp/config.go:66-171 | form values in canonical shape survive the conversion to a configuration and back |
| ConfigForm.SavedValuesReadBack | internal/tuiapp/config.go:593-630 | what the form saves, once defaulted on loading, reads back as the same values when a question is left |
| ConfigForm.FormRows | internal/tuiapp/config.go:663-685 | the rows are the questions, the add-question row, then the options: questions + 10 rows covering every option |
| ConfigForm.OptionRowsComplete | internal/tuiapp/config.go:663-685 | every option has a row |
| ConfigForm.SetStatus | internal/tuiapp/config.go:765-776 | only the status line changes; it shows the new text under a larger number |
| ConfigForm.Rebuild | internal/tuiapp/config.go:663-685 | the rows are rebuilt for the questions and the cursor is kept when in range and clamped otherwise |
| ConfigForm.MarkDirty | internal/tuiapp/config.go:582-587 | an edit disarms the quit warning and changes nothing else |
| ConfigForm.StartQuestionEdit | internal/tuiapp/config.go:431-443 | an existing question is opened for editing with its text; another index changes nothing |
| ConfigForm.CommitQuestionEdit | internal/tuiapp/config.go:479-496 | blank input removes the question, other input replaces it trimmed; either way editing ends and the options are untouched |
| ConfigForm.CancelEdit | internal/tuiapp/config.go:545-553 | cancelling removes a question that was added and left blank, and otherwise only stops editing |
| ConfigForm.DeleteQuestion | internal/tuiapp/config.go:363-371 | an existing question is removed and nothing else in the values changes |
| ConfigForm.ToggleBool | internal/tuiapp/config.go:555-580 | only the named option flips, and it becomes custom |
| ConfigForm.ResetBool | internal/tuiapp/config.go:373-406 | the option returns to its default, is no longer custom, and nothing else changes |
| ConfigForm.ResetInt | internal/tuiapp/config.go:408-422 | the duration returns to one second, unset, and nothing else changes |
| ConfigForm.StartIntEdit | internal/tuiapp/config.go:445-468 | a set duration is shown as its number, an unset one as empty input |
| ConfigForm.ResolvedMs | internal/tuiapp/config.go:173-181 | the resolved duration is always positive and is the stored one when that is positive |
| ConfigForm.ParseDuration | internal/tuiapp/config.go:500-526 | blank input means the default, unset; other input must be a positive integer, which is stored as set |
| ConfigForm.CommitIntEdit | internal/tuiapp/config.go:498-537 | an invalid number keeps editing and the values and asks for a positive number; a valid one is stored and editing ends |
| ConfigForm.CommitEdit | internal/tuiapp/config.go:470-477 | committing a question or millisecond edit keeps the form well-formed: the rows match the questions, the cursor is on a row and every option has its canonical shape; the status number never goes back |
| ConfigForm.AddQuestionAndEdit | internal/tuiapp/config.go:327-346 | the add row appends an empty question and opens it for editing |
| ConfigForm.ActivateSelection | internal/tuiapp/config.go:327-346 | enter adds, edits, toggles or opens the row under the cursor according to its kind |
| ConfigForm.DeleteOrDefault | internal/tuiapp/config.go:348-361 | d (delete a question, or reset an option to its default) keeps the form well-formed: the rows are rebuilt for the remaining questions and the cursor stays on a row |
| ConfigForm.SaveChanges | internal/tuiapp/config.go:593-603 | a successful save makes the form clean; a failed one only records the error |
| ConfigForm.LoadFromDisk | internal/tuiapp/config.go:614-630 | loading replaces both the values and the saved copy with the loaded configuration |
| ConfigForm.ReloadFromDisk | internal/tuiapp/config.go:605-612 | reloading discards the changes; a failed load only records the error |
| ConfigForm.OpenConfigJSON | internal/tuiapp/config.go:632-648 | the file is opened only when nothing is being edited, nothing is unsaved and the path resolves |
| ConfigForm.ConfigFileResult | internal/tuiapp/config.go:650-661 | after external editing the configuration is reloaded, or the error is recorded |
| ConfigForm.HandleQuit | internal/tuiapp/config.go:300-310 | q quits when clean or already warned; otherwise it only arms the warning |
| ConfigForm.Move | internal/tuiapp/config.go:312-325 | the cursor moves clamped to the rows, never wrapping |
| ConfigForm.HandleKey | internal/tuiapp/config.go:265-298 | while editing only enter, esc and ctrl+c act; otherwise ctrl+c quits and q, enter, space, d, w, r and e go to their handlers |
| ConfigForm.FormHandle | internal/tuiapp/config.go:227-263 | each message goes to its handler, and a timeout clears the status only when it carries the current number |
| ConfigForm.FormCommands | internal/tuiapp/config.go:227-263 | the commands returned are the handler's command and the status timer, nothing else |
| ConfigForm.Update | internal/tuiapp/config.go:227-263 | a message is handled and the status timer it asks for is handed out as a command |
| ConfigForm.NewForm | internal/tuiapp/config.go:207-221 | a new form is well-formed, clean, idle and on the first row, showing the configuration's values |
| FormLaws.AddThenCancelRestores | internal/tuiapp/config.go:545-553 | adding a question and pressing esc gives back the values as they were |
| FormLaws.AddThenBlankCommitRestores | internal/tuiapp/config.go:479-496 | adding a question and committing it empty gives back the values as they were |
| FormLaws.IntEditWithoutTypingChangesNothing | internal/tuiapp/config.go:445-537 | opening a millisecond option and committing it untouched changes nothing |
| FormLaws.ShownDurationParses | internal/tuiapp/config.go:445-537 | the text shown for a duration parses back to the same duration |
| FormLaws.InvalidDurationKeepsEditing | internal/tuiapp/config.go:515-519 | input that is not a positive number keeps editing and the values |
| FormLaws.CleanFormQuits | internal/tuiapp/config.go:300-310 | with nothing unsaved q quits at once |
| FormLaws.DirtyFormQuitsOnSecondPress | internal/tuiapp/config.go:300-310 | with unsaved changes the first q only warns and the second quits |
| FormLaws.EditReArmsQuitGuard | internal/tuiapp/config.go:582-587 | an edit after the warning re-arms it, so the next q warns again |
| FormLaws.SaveThenReloadKeepsValues | internal/tuiapp/config.go:593-612 | saving and then reloading keeps the values and leaves the form clean |
| FormLaws.FailedSaveStaysDirty | internal/tuiapp/config.go:593-603 | a failed save keeps the values and the unsaved state |
| FormLaws.FormTimerCarriesLatestStatus | internal/tuiapp/config.go:765-776 | every timer the form hands out carries the number of the status it shows |
| Legacy.CollectQuestions | main.go:219-237 | the legacy loop computes exactly the order OrderQuestions defines |
| Legacy.LoadConfig | main.go:289-315 | there is always at least one question; every failure gives the default questions; a parsed non-empty list is kept |
| Legacy.LoadConfigDefaults | main.go:289-315 | the legacy fallback agrees with ensureDefaults on the question list |
| Legacy.PromptFails | main.go:137-141 | the loop stops with an error exactly when some read fails |
| Legacy.PromptAppends | main.go:136-165 | each question's entries are the loaded ones followed by its non-blank replies, trimmed, in prompt order |
| Legacy.RecordedIsClean | main.go:142-145 | a recorded reply is trimmed and non-empty |
| Legacy.AddedAreClean | main.go:136-165 | every appended answer is trimmed and non-empty |
| Legacy.PromptCount | main.go:136-165 | something is appended exactly when some reply is not blank; otherwise the answers are unchanged |
| Legacy.RunPrompts | main.go:120-167 | no questions means nothing happens; a failed load or read is an error; only blank replies save nothing; otherwise the day is saved |
| Legacy.RunPromptsWrites | main.go:120-167 | what is saved is the loaded answers with the trimmed non-blank replies appended |
| Legacy.LoadedConfigAlwaysPrompts | main.go:289-315 | a configuration from loadConfig always has questions to prompt for |

## Left out

- Filesystem and JSON are not modelled: loading and saving the day file and the configuration, resolving their paths, and decoding JSON. A load is an `Option` value and a save a `bool`.
- The Bubble Tea runtime is not modelled: command batching, ticks, process execution and `WindowSizeMsg`. Commands are returned as intent values.
- The text-input widget's keystroke editing is abstracted as an `InputChanged` message carrying the new text.
- Rendering is not modelled: `View`, `renderList`, `renderDetail`, `renderListView` and `relativeDayLabel`. The last uses floating-point hours.
- Interval.DaysBack: days are unbounded integers and "last N days" is plain subtraction. Go's `AddDate` works within `time.Time`'s finite range, so for counts far beyond any real calendar (on the order of 10^14 days) Go's result is not the N days ending today and may not even start before it ends. Interval.DaysBackOfDigits, Interval.LastDaysInterval and Interval.ParseInterval state their ranges on the unbounded calendar.
- The clock and calendar are parameters: `time.Now`, `DayFloor`, `AddDate` and time zones. "this year" takes the start of the year as a parameter, and timestamps are opaque strings.
- Editor plumbing is not modelled: `exec.LookPath`, temp files and their cleanup, and stdin/stdout wiring. Each step's success is a field of `EditorRun`.
- `configValuesEqual`'s float64 comparison and `reflect.DeepEqual` are not modelled. Marker values are a small JSON datatype with structural equality.
- The entry points are not part of this model: `run`, `runLS`, `runView`, `printDayLog`, `cmd/cli/main.go`, `cmd/tui/main.go` and `internal/tuiapp/main.go`.
- app.go's `RunPrompts` (internal/app/app.go:120-167) is the same loop as main.go's `runPrompts`, so `Legacy` models both.
- The second config program's day-file kind (`openKindDay` in the form) is not modelled. The form only opens the configuration file.
- Status durations are `time.Duration` nanoseconds in Go. The model keeps milliseconds as unbounded integers, so the overflow of a huge millisecond count times 10^6 is not modelled.
- Text.ToLower: models only the characters whose lower case is ASCII (A-Z, KELVIN SIGN, CAPITAL I WITH DOT). Other characters are kept, which does not change which inputs match the ASCII phrases.
- Editor.NormalizeIdempotent: holds only when replacing CRLF leaves no CRLF pair. Editor.NormalizeNotIdempotent shows the input where it fails.
- ConfigMap.ConfigFromMap: reads back only the keys whose values have the right kind, and skips the others. It also matches key names exactly. Go's `json.Unmarshal` matches a struct field's key ignoring case, so a left-over key such as `"ShowHints"` is read as that option in Go. The model keeps such a key as an unknown key and ignores it, so ConfigMap.ApplyConfigRoundTrip does not hold in Go for a map holding a case variant of an option key that the configuration leaves unset.
- ConfigMap.ApplyConfigRoundTrip: holds for reading back by exact key name. Go's case-insensitive decode can instead pick up a left-over case variant of an option key, as described for ConfigMap.ConfigFromMap. It is the read-back half of the ApplyConfigToMap round trip. It does not model a failed decode: in Go, a value of the wrong kind makes `json.Unmarshal` fail, and `LoadConfig` (internal/app/app.go:434-438) then returns the default questions with the error. main.go's `loadConfig` has the same fallback, and Legacy.LoadConfig models it as the malformed-file case.
- ConfigForm.FromConfig: the fallbacks to 2000 and 1000 ms in `newConfigValues` are unreachable, because the getters never return a non-positive duration. They are kept in the definition but no contract mentions them.
- ConfigForm.HandleKey: requires every option to have an entry in the form's values. The Go struct has a field per option, so this holds by construction there.
- FormLaws.IntEditWithoutTypingChangesNothing: requires the stored millisecond value to fit in 64 bits. Go's `int` guarantees that, but the model's unbounded integer does not.
- Where the code departs from how the features are usually described, the model follows the code:
  - `saveInlineEntry` never consults the continue-after-save option and stays in editing mode.
  - `q` quits even while a delete confirmation is pending.
  - A failed save keeps the in-memory change.
  - `changeDay` moves the day before loading, so a failed load leaves the day and the log out of step.
