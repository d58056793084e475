/**
 * Editing a question's entries in an external editor.
 *
 * The entries are written to a temporary file, one per line; the editor is
 * run on it; the file is read back and compared with what was written. The
 * file system, the process and the environment are not modelled: their
 * outcomes arrive as an `EditorRun` record.
 *
 * Source: internal/tuiapp/editor.go.
 */
module Editor {
  import opened Base
  import opened Text
  import opened Journal

  // ---------------------------------------------------------------------------
  // Buffer text
  // ---------------------------------------------------------------------------

  /** No carriage return is directly followed by a newline. */
  predicate NoCRLF(s: string) {
    forall i :: 0 <= i < |s| - 1 ==> !(s[i] == '\r' && s[i + 1] == '\n')
  }

  /** `normalizeEditorContent`: CRLF line ends become LF, then every trailing LF goes. */
  function Normalize(v: string): (r: string)
    ensures |r| == 0 || r[|r| - 1] != '\n'
    ensures |r| <= |v|
  {
    TrimTrailingNewlines(ReplaceCRLF(v))
  }

  /** Text without a CRLF pair is left alone by the replacement. */
  lemma {:induction false} ReplaceCRLFIdentity(s: string)
    requires NoCRLF(s)
    ensures ReplaceCRLF(s) == s
    decreases |s|
  {
    if |s| > 0 {
      assert !(|s| >= 2 && s[0] == '\r' && s[1] == '\n');
      assert NoCRLF(s[1..]) by {
        forall i | 0 <= i < |s[1..]| - 1 ensures !(s[1..][i] == '\r' && s[1..][i + 1] == '\n') {
          assert s[1..][i] == s[i + 1] && s[1..][i + 1] == s[i + 2];
        }
      }
      ReplaceCRLFIdentity(s[1..]);
      assert s == [s[0]] + s[1..];
    }
  }

  /** A prefix of text without a CRLF pair has none either. */
  lemma NoCRLFPrefix(s: string, n: nat)
    requires NoCRLF(s) && n <= |s|
    ensures NoCRLF(s[..n])
  {
    forall i | 0 <= i < n - 1 ensures !(s[..n][i] == '\r' && s[..n][i + 1] == '\n') {
      assert s[..n][i] == s[i] && s[..n][i + 1] == s[i + 1];
    }
  }

  lemma {:induction false} TrimTrailingNewlinesIdempotent(s: string)
    ensures TrimTrailingNewlines(TrimTrailingNewlines(s)) == TrimTrailingNewlines(s)
  {
    var t := TrimTrailingNewlines(s);
    assert |t| == 0 || t[|t| - 1] != '\n';
  }

  /**
   * Normalizing again changes nothing once the replacement has left no CRLF
   * pair behind (always the case for text without "\r\r\n"-like runs).
   */
  lemma NormalizeIdempotent(v: string)
    requires NoCRLF(ReplaceCRLF(v))
    ensures Normalize(Normalize(v)) == Normalize(v)
  {
    var c := ReplaceCRLF(v);
    var t := TrimTrailingNewlines(c);
    NoCRLFPrefix(c, |t|);
    ReplaceCRLFIdentity(t);
    TrimTrailingNewlinesIdempotent(c);
  }

  /** Without that condition normalizing is not idempotent: "\r\r\nx" needs two passes. */
  lemma NormalizeNotIdempotent()
    ensures Normalize(Normalize("\r\r\nx")) != Normalize("\r\r\nx")
  {
    assert ReplaceCRLF("\nx") == "\nx";
    assert ReplaceCRLF("\r\nx") == "\nx";
    assert ReplaceCRLF("\r\r\nx") == "\r\nx";
    assert Normalize("\r\r\nx") == "\r\nx";
    assert Normalize("\r\nx") == "\nx";
  }

  /** `parseEditorLines`: the trimmed non-blank lines, in order; none for empty content. */
  function ParseEditorLines(content: string): (r: seq<string>)
    ensures content == "" ==> r == []
    ensures AllClean(r) && AllNoNewline(r)
  {
    if content == "" then [] else
    var pieces := SplitLines(content);
    SplitLinesSingle(content);
    CleanLinesNoNewline(pieces);
    CleanLinesClean(pieces);
    CleanLines(pieces)
  }

  /** Empty content splits into one empty line, so parsing is always cleaning the split lines. */
  lemma ParseIsCleanSplit(content: string)
    ensures ParseEditorLines(content) == CleanLines(SplitLines(content))
  {
    if content == "" {
      assert SplitLines(content) == [""];
      assert TrimSpace("") == [];
    }
  }

  /**
   * `parseEditorLines` keeps every non-blank line of the content, trimmed,
   * in the order the lines appear, and only those.
   */
  lemma ParseEditorLinesKeepsOrder(content: string)
    ensures exists idx :: PicksNonBlank(SplitLines(content), ParseEditorLines(content), idx)
  {
    ParseIsCleanSplit(content);
    CleanLinesKeepsOrder(SplitLines(content));
  }

  /** Any list of clean lines picked that way from the content is what `parseEditorLines` returns. */
  lemma ParseEditorLinesExactly(content: string, r: seq<string>, idx: seq<int>)
    requires PicksNonBlank(SplitLines(content), r, idx) && AllClean(r)
    ensures r == ParseEditorLines(content)
  {
    ParseIsCleanSplit(content);
    PicksDetermineCleanLines(SplitLines(content), r, idx);
  }

  /** Trimming removes characters from the ends only, so cleaned lines keep the pieces' newline-freedom. */
  lemma {:induction false} CleanLinesNoNewline(lines: seq<string>)
    requires AllNoNewline(lines)
    ensures AllNoNewline(CleanLines(lines))
    decreases |lines|
  {
    if |lines| > 0 {
      var t := TrimSpace(lines[0]);
      var tail := lines[1..];
      assert AllNoNewline(tail) by {
        forall i | 0 <= i < |tail| ensures NoNewline(tail[i]) { assert tail[i] == lines[i + 1]; }
      }
      CleanLinesNoNewline(tail);
      var rest := CleanLines(tail);
      TrimSpaceIsSlice(lines[0]);
      assert NoNewline(t);
      if t != [] {
        AllNoNewlineCons(t, rest);
      }
    }
  }

  /** The text of a file holding one entry per line, as `editEntriesCmd` writes it. */
  function BufferOf(lines: seq<string>): string {
    var original := JoinLines(lines);
    if original == "" then "" else original + "\n"
  }

  /** Entries as the list holds them: trimmed, non-blank, on one line each. */
  ghost predicate CleanEntries(lines: seq<string>) {
    AllClean(lines) && AllNoNewline(lines)
  }

  /** A clean entry ends in a character that is neither a space nor a carriage return. */
  lemma {:induction false} JoinedCleanShape(lines: seq<string>)
    requires CleanEntries(lines) && |lines| > 0
    ensures var j := JoinLines(lines); |j| > 0 && !IsSpace(j[|j| - 1]) && NoCRLF(j + "\n")
    decreases |lines|
  {
    var l := lines[0];
    assert !IsSpace(l[|l| - 1]);
    assert NoCRLF(l + "\n") by {
      forall i | 0 <= i < |l + "\n"| - 1 ensures !((l + "\n")[i] == '\r' && (l + "\n")[i + 1] == '\n') {
        if i + 1 < |l| { assert (l + "\n")[i + 1] == l[i + 1]; } else { assert (l + "\n")[i] == l[|l| - 1]; }
      }
    }
    if |lines| > 1 {
      var rest := lines[1..];
      assert CleanEntries(rest) by {
        forall i | 0 <= i < |rest| ensures CleanLine(rest[i]) && NoNewline(rest[i]) {
          assert rest[i] == lines[i + 1];
        }
      }
      JoinedCleanShape(rest);
      var jr := JoinLines(rest);
      assert JoinLines(lines) + "\n" == (l + "\n") + (jr + "\n");
      NoCRLFConcat(l + "\n", jr + "\n");
      assert JoinLines(lines)[|JoinLines(lines)| - 1] == jr[|jr| - 1];
    }
  }

  lemma NoCRLFConcat(a: string, b: string)
    requires NoCRLF(a) && NoCRLF(b)
    requires |a| > 0 && a[|a| - 1] != '\r'
    ensures NoCRLF(a + b)
  {
    forall i | 0 <= i < |a + b| - 1 ensures !((a + b)[i] == '\r' && (a + b)[i + 1] == '\n') {
      if i + 1 < |a| {
        assert (a + b)[i] == a[i] && (a + b)[i + 1] == a[i + 1];
      } else if i + 1 == |a| {
        assert (a + b)[i] == a[|a| - 1];
      } else {
        assert (a + b)[i] == b[i - |a|] && (a + b)[i + 1] == b[i - |a| + 1];
      }
    }
  }

  /** The file written for clean entries, and the joined entries themselves, normalize to the joined entries. */
  lemma CleanBufferNormal(lines: seq<string>)
    requires CleanEntries(lines)
    ensures Normalize(BufferOf(lines)) == JoinLines(lines)
    ensures Normalize(JoinLines(lines)) == JoinLines(lines)
  {
    if |lines| == 0 {
      assert BufferOf(lines) == "" && JoinLines(lines) == "";
      assert ReplaceCRLF("") == "";
    } else {
      var j := JoinLines(lines);
      JoinedCleanShape(lines);
      ReplaceCRLFIdentity(j + "\n");
      NoCRLFPrefix(j + "\n", |j|);
      assert (j + "\n")[..|j|] == j;
      ReplaceCRLFIdentity(j);
      assert TrimTrailingNewlines(j + "\n") == TrimTrailingNewlines(j) by {
        assert (j + "\n")[..|j + "\n"| - 1] == j;
      }
      assert TrimTrailingNewlines(j) == j;
    }
  }

  /**
   * Writing clean entries to the file and parsing the untouched file gives
   * the entries back.
   */
  lemma BufferRoundTrip(lines: seq<string>)
    requires CleanEntries(lines)
    ensures ParseEditorLines(Normalize(BufferOf(lines))) == lines
  {
    CleanBufferNormal(lines);
    if |lines| > 0 {
      JoinedCleanShape(lines);
      SplitJoinLines(lines);
      CleanLinesOfClean(lines);
    }
  }

  // ---------------------------------------------------------------------------
  // The editor command
  // ---------------------------------------------------------------------------

  /** The editor named by `$VISUAL`, else `$EDITOR`, else "vim"; never empty. */
  function EditorName(visual: string, editor: string): (name: string)
    ensures |name| > 0
    ensures visual != "" ==> name == visual
    ensures visual == "" && editor != "" ==> name == editor
    ensures visual == "" && editor == "" ==> name == "vim"
  {
    if visual != "" then visual else if editor != "" then editor else "vim"
  }

  /**
   * `buildEditorCommand` before the `LookPath` check: the editor's
   * whitespace-separated words (or the name itself when it has none),
   * then the file.
   */
  function EditorArgv(visual: string, editor: string, path: string): (argv: seq<string>)
    ensures |argv| >= 2 && argv[|argv| - 1] == path
    ensures |Fields(EditorName(visual, editor))| > 0 ==> argv[..|argv| - 1] == Fields(EditorName(visual, editor))
    ensures |Fields(EditorName(visual, editor))| == 0 ==> argv[..|argv| - 1] == [EditorName(visual, editor)]
    ensures forall i :: 0 <= i < |argv| - 1 ==> |argv[i]| > 0
  {
    var name := EditorName(visual, editor);
    var parts := Fields(name);
    var words := if |parts| == 0 then [name] else parts;
    assert (words + [path])[..|words|] == words;
    words + [path]
  }

  /** An editor setting of space-separated words runs the first word with the others as arguments, then the file. */
  lemma EditorArgvSplitsWords(visual: string, editor: string, path: string, ws: seq<string>)
    requires |ws| > 0 && AllWords(ws) && EditorName(visual, editor) == JoinWords(ws)
    ensures EditorArgv(visual, editor, path) == ws + [path]
  {
    FieldsJoinWords(ws);
    var argv := EditorArgv(visual, editor, path);
    assert argv == argv[..|argv| - 1] + [path];
  }

  // ---------------------------------------------------------------------------
  // Running the editor
  // ---------------------------------------------------------------------------

  /**
   * What the outside world did during one edit: whether the temporary file
   * could be created and written, whether the editor was found on the path
   * and exited cleanly, and what was read back.
   */
  datatype EditorRun = EditorRun(createOk: bool, writeOk: bool, lookupOk: bool, exitOk: bool, read: Option<string>)

  /** `editorResultMsg`: the edited question and entry, the new responses, and whether anything changed. */
  datatype EditorResult = EditorResult(question: string, entryIndex: int, responses: seq<string>, changed: bool, failed: bool)

  /** The run got as far as reading the file back. */
  predicate RunCompleted(run: EditorRun, lines: seq<string>) {
    && run.createOk
    && (JoinLines(lines) == "" || run.writeOk)
    && run.lookupOk
    && run.exitOk
    && run.read.Some?
  }

  /**
   * `editEntriesCmd` and the callback it hands to the process runner. A
   * failure at any stage reports an error and nothing else. Otherwise the
   * normalized file is compared with the normalized original: unchanged
   * gives back the original lines; a single-entry edit (`entryIndex >= 0`)
   * gives exactly the normalized text; a whole-question edit gives its
   * parsed lines.
   */
  function EditEntries(question: string, lines: seq<string>, entryIndex: int, run: EditorRun): (r: EditorResult)
    ensures r.question == question && r.entryIndex == entryIndex
    ensures r.failed <==> !RunCompleted(run, lines)
    ensures r.failed ==> r.responses == [] && !r.changed
    ensures !r.failed ==> (r.changed <==> Normalize(run.read.value) != Normalize(JoinLines(lines)))
    ensures !r.failed && !r.changed ==> r.responses == lines
    ensures r.changed && entryIndex >= 0 ==> r.responses == [Normalize(run.read.value)]
    ensures r.changed && entryIndex < 0 ==> r.responses == ParseEditorLines(Normalize(run.read.value))
  {
    var failed := EditorResult(question, entryIndex, [], false, true);
    if !RunCompleted(run, lines) then failed
    else
      var newContent := Normalize(run.read.value);
      var originalContent := Normalize(JoinLines(lines));
      if newContent == originalContent then EditorResult(question, entryIndex, lines, false, false)
      else if entryIndex >= 0 then EditorResult(question, entryIndex, [newContent], true, false)
      else EditorResult(question, entryIndex, ParseEditorLines(newContent), true, false)
  }

  /**
   * Closing the editor without touching clean entries reports no change and
   * hands the entries back as they were.
   */
  lemma UntouchedBufferUnchanged(question: string, lines: seq<string>, entryIndex: int, run: EditorRun)
    requires CleanEntries(lines)
    requires RunCompleted(run, lines) && run.read.value == BufferOf(lines)
    ensures var r := EditEntries(question, lines, entryIndex, run); !r.changed && !r.failed && r.responses == lines
  {
    CleanBufferNormal(lines);
  }

  /** An emptied buffer in a whole-question edit yields no responses at all. */
  lemma EmptiedBufferRemovesAll(question: string, lines: seq<string>, run: EditorRun)
    requires RunCompleted(run, lines) && AllNewlines(run.read.value)
    requires JoinLines(lines) != ""
    requires Normalize(JoinLines(lines)) != ""
    ensures var r := EditEntries(question, lines, -1, run); r.changed && r.responses == []
  {
    EmptyAfterNormalize(run.read.value);
  }

  predicate AllNewlines(s: string) {
    forall i :: 0 <= i < |s| ==> s[i] == '\n'
  }

  lemma {:induction false} EmptyAfterNormalize(s: string)
    requires AllNewlines(s)
    ensures Normalize(s) == ""
  {
    assert NoCRLF(s);
    ReplaceCRLFIdentity(s);
    var t := TrimTrailingNewlines(s);
  }
}
