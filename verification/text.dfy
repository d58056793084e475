/**
 * The string primitives of Go's standard library that the journal relies on:
 * `strings.TrimSpace`, `strings.Split`/`strings.Join` on "\n",
 * `strings.ReplaceAll(s, "\r\n", "\n")`, `strings.TrimRight(s, "\n")`,
 * `strings.Fields`, `strings.ToLower` (ASCII part), `strconv.Atoi`/`Itoa`,
 * and the byte-wise string order used by `sort.Strings`.
 *
 * A Go string is modelled as a sequence of Unicode scalar values. Ordering by
 * code point agrees with Go's byte-wise comparison of the UTF-8 encodings.
 */
module Text {
  import opened Base

  // ---------------------------------------------------------------------------
  // Whitespace and trimming
  // ---------------------------------------------------------------------------

  /** The characters Go's `unicode.IsSpace` accepts: the ASCII spaces, NEL, NBSP and the Unicode space separators. */
  const SpaceChars: set<char> := {
    '\t', '\n', '\U{000B}', '\U{000C}', '\r', ' ', '\U{0085}', '\U{00A0}', '\U{1680}',
    '\U{2000}', '\U{2001}', '\U{2002}', '\U{2003}', '\U{2004}', '\U{2005}', '\U{2006}',
    '\U{2007}', '\U{2008}', '\U{2009}', '\U{200A}',
    '\U{2028}', '\U{2029}', '\U{202F}', '\U{205F}', '\U{3000}'
  }

  predicate IsSpace(c: char) {
    c in SpaceChars
  }

  /** Every character of `s` is whitespace (this includes the empty string). */
  predicate AllSpace(s: string) {
    forall i :: 0 <= i < |s| ==> IsSpace(s[i])
  }

  /** `s` neither starts nor ends with whitespace: what `TrimSpace` leaves behind. */
  predicate Trimmed(s: string) {
    |s| == 0 || (!IsSpace(s[0]) && !IsSpace(s[|s| - 1]))
  }

  /** Drops leading whitespace. */
  function TrimLeft(s: string): (r: string)
    ensures |r| <= |s| && r == s[|s| - |r|..]
    ensures |r| == 0 || !IsSpace(r[0])
    ensures forall i :: 0 <= i < |s| - |r| ==> IsSpace(s[i])
    decreases |s|
  {
    if |s| > 0 && IsSpace(s[0]) then TrimLeft(s[1..]) else s
  }

  /** Drops trailing whitespace. */
  function TrimRight(s: string): (r: string)
    ensures |r| <= |s| && r == s[..|r|]
    ensures |r| == 0 || !IsSpace(r[|r| - 1])
    ensures forall i :: |r| <= i < |s| ==> IsSpace(s[i])
    decreases |s|
  {
    if |s| > 0 && IsSpace(s[|s| - 1]) then TrimRight(s[..|s| - 1]) else s
  }

  /** Go's `strings.TrimSpace`: the infix left after removing whitespace at both ends. */
  function TrimSpace(s: string): (r: string)
    ensures Trimmed(r)
    ensures |r| <= |s|
    ensures r == [] <==> AllSpace(s)
    ensures Trimmed(s) ==> r == s
  {
    var l := TrimLeft(s);
    var r := TrimRight(l);
    assert |r| > 0 ==> !IsSpace(r[0]) by {
      if |r| > 0 { assert r[0] == l[0]; }
    }
    r
  }

  /** `s` contains only whitespace, i.e. `strings.TrimSpace(s) == ""`. */
  predicate IsBlank(s: string) {
    TrimSpace(s) == []
  }

  /** Trimming only removes characters: whatever the result holds, the input held. */
  lemma TrimSpaceIsSlice(s: string)
    ensures forall c :: c in TrimSpace(s) ==> c in s
  {
    var l := TrimLeft(s);
    var r := TrimRight(l);
    forall c | c in r ensures c in s {
      var i :| 0 <= i < |r| && r[i] == c;
      assert l[i] == c;
      assert s[|s| - |l| + i] == c;
    }
  }

  // ---------------------------------------------------------------------------
  // Lines
  // ---------------------------------------------------------------------------

  /** `s` holds no '\n'. */
  predicate NoNewline(s: string) {
    forall i :: 0 <= i < |s| ==> s[i] != '\n'
  }

  /** Position of the first '\n' in `s`, or -1 when there is none. */
  function IndexOfNewline(s: string): (k: int)
    ensures -1 <= k < |s|
    ensures k >= 0 ==> s[k] == '\n'
    decreases |s|
  {
    if |s| == 0 then -1
    else if s[0] == '\n' then 0
    else
      var k := IndexOfNewline(s[1..]);
      if k < 0 then -1 else k + 1
  }

  /** `IndexOfNewline` finds the first newline: there is none before it, and none at all when it gives -1. */
  lemma {:induction false} IndexOfNewlineFirst(s: string)
    ensures var k := IndexOfNewline(s);
      (k >= 0 ==> NoNewline(s[..k])) && (k < 0 ==> NoNewline(s))
    decreases |s|
  {
    if |s| > 0 && s[0] != '\n' {
      IndexOfNewlineFirst(s[1..]);
      assert forall i :: 1 <= i < |s| ==> s[i] == s[1..][i - 1];
    }
  }

  /** Go's `strings.Split(s, "\n")`: at least one piece, none containing '\n'. */
  function SplitLines(s: string): (r: seq<string>)
    ensures |r| >= 1
    decreases |s|
  {
    var k := IndexOfNewline(s);
    if k < 0 then [s] else [s[..k]] + SplitLines(s[k + 1..])
  }

  /** Every string of `lines` is free of newlines. */
  ghost predicate AllNoNewline(lines: seq<string>) {
    forall i :: 0 <= i < |lines| ==> NoNewline(lines[i])
  }

  lemma AllNoNewlineCons(x: string, rest: seq<string>)
    requires NoNewline(x) && AllNoNewline(rest)
    ensures AllNoNewline([x] + rest)
  {
    forall i | 1 <= i < 1 + |rest| ensures NoNewline(([x] + rest)[i]) {
      assert ([x] + rest)[i] == rest[i - 1];
    }
  }

  /** No piece of `SplitLines` contains a newline. */
  lemma {:induction false} SplitLinesSingle(s: string)
    ensures AllNoNewline(SplitLines(s))
    decreases |s|
  {
    var k := IndexOfNewline(s);
    IndexOfNewlineFirst(s);
    if k >= 0 {
      var rest := SplitLines(s[k + 1..]);
      SplitLinesSingle(s[k + 1..]);
      AllNoNewlineCons(s[..k], rest);
    }
  }

  /** Go's `strings.Join(lines, "\n")`. */
  function JoinLines(lines: seq<string>): (r: string)
    decreases |lines|
  {
    if |lines| == 0 then []
    else if |lines| == 1 then lines[0]
    else lines[0] + "\n" + JoinLines(lines[1..])
  }

  /** Splitting undoes joining, for pieces without a newline. */
  lemma {:induction false} SplitJoinLines(lines: seq<string>)
    requires |lines| >= 1
    requires AllNoNewline(lines)
    ensures SplitLines(JoinLines(lines)) == lines
    decreases |lines|
  {
    if |lines| == 1 {
      assert IndexOfNewline(lines[0]) < 0;
    } else {
      var s := JoinLines(lines);
      var rest := JoinLines(lines[1..]);
      assert s == lines[0] + ("\n" + rest);
      NoNewlinePrefix(lines[0], "\n" + rest);
      assert IndexOfNewline(s) == |lines[0]|;
      assert s[..|lines[0]|] == lines[0];
      assert s[|lines[0]| + 1..] == rest;
      SplitJoinLines(lines[1..]);
    }
  }

  /** The first newline of `a + b` lies in `b` when `a` has none. */
  lemma {:induction false} NoNewlinePrefix(a: string, b: string)
    requires NoNewline(a) && |b| > 0 && b[0] == '\n'
    ensures IndexOfNewline(a + b) == |a|
    decreases |a|
  {
    if |a| > 0 {
      assert (a + b)[1..] == a[1..] + b;
      NoNewlinePrefix(a[1..], b);
    } else {
      assert a + b == b;
    }
  }

  /** A string is the part before a newline, the newline and the part after it. */
  lemma CutAtNewline(s: string, k: nat)
    requires k < |s| && s[k] == '\n'
    ensures s[..k] + "\n" + s[k + 1..] == s
  {
    assert s == s[..k] + s[k..];
    assert s[k..] == "\n" + s[k + 1..];
  }

  /** Joining splits back the original text. */
  lemma {:induction false} JoinSplitLines(s: string)
    ensures JoinLines(SplitLines(s)) == s
    decreases |s|
  {
    var k := IndexOfNewline(s);
    if k >= 0 {
      var rest := SplitLines(s[k + 1..]);
      JoinSplitLines(s[k + 1..]);
      var pieces := [s[..k]] + rest;
      assert SplitLines(s) == pieces;
      assert pieces[1..] == rest;
      assert JoinLines(pieces) == s[..k] + "\n" + JoinLines(rest);
      CutAtNewline(s, k);
    } else {
      assert SplitLines(s) == [s];
    }
  }

  /** Go's `strings.ReplaceAll(s, "\r\n", "\n")`: a left-to-right, non-overlapping scan. */
  function ReplaceCRLF(s: string): (r: string)
    ensures |r| <= |s|
    ensures '\r' !in s ==> r == s
    decreases |s|
  {
    if |s| >= 2 && s[0] == '\r' && s[1] == '\n' then "\n" + ReplaceCRLF(s[2..])
    else if |s| == 0 then []
    else [s[0]] + ReplaceCRLF(s[1..])
  }

  /** Go's `strings.TrimRight(s, "\n")`: removes every trailing newline. */
  function TrimTrailingNewlines(s: string): (r: string)
    ensures |r| <= |s| && r == s[..|r|]
    ensures |r| == 0 || r[|r| - 1] != '\n'
    ensures forall i :: |r| <= i < |s| ==> s[i] == '\n'
    decreases |s|
  {
    if |s| > 0 && s[|s| - 1] == '\n' then TrimTrailingNewlines(s[..|s| - 1]) else s
  }

  // ---------------------------------------------------------------------------
  // Fields
  // ---------------------------------------------------------------------------

  /** Length of the longest prefix of `s` free of whitespace. */
  function WordLength(s: string): (n: nat)
    ensures n <= |s|
    ensures forall i :: 0 <= i < n ==> !IsSpace(s[i])
    ensures n == |s| || IsSpace(s[n])
    decreases |s|
  {
    if |s| == 0 || IsSpace(s[0]) then 0 else 1 + WordLength(s[1..])
  }

  /** Go's `strings.Fields`: the maximal runs of non-whitespace characters, in order. */
  function Fields(s: string): (r: seq<string>)
    ensures AllWords(r)
    ensures |r| == 0 <==> AllSpace(s)
    decreases |s|
  {
    if |s| == 0 then []
    else if IsSpace(s[0]) then
      var r := Fields(s[1..]);
      assert AllSpace(s) <==> AllSpace(s[1..]) by {
        if AllSpace(s[1..]) {
          forall i | 0 <= i < |s| ensures IsSpace(s[i]) { if i > 0 { assert s[i] == s[1..][i - 1]; } }
        }
      }
      r
    else
      var n := WordLength(s);
      var w := s[..n];
      var fs := Fields(s[n..]);
      assert IsWord(w) by {
        forall i | 0 <= i < |w| ensures !IsSpace(w[i]) { assert w[i] == s[i]; }
      }
      assert AllWords([w] + fs) by {
        forall i | 0 <= i < |[w] + fs| ensures IsWord(([w] + fs)[i]) {
          if i > 0 { assert ([w] + fs)[i] == fs[i - 1]; }
        }
      }
      [w] + fs
  }

  /** Leading whitespace produces no field. */
  lemma {:induction false} FieldsSkipsSpace(sp: string, s: string)
    requires AllSpace(sp)
    ensures Fields(sp + s) == Fields(s)
    decreases |sp|
  {
    if |sp| > 0 {
      assert (sp + s)[1..] == sp[1..] + s;
      FieldsSkipsSpace(sp[1..], s);
    } else {
      assert sp + s == s;
    }
  }

  /** A word followed by whitespace, or by nothing, is taken whole as the next field. */
  lemma FieldsTakesWord(w: string, s: string)
    requires IsWord(w) && (|s| == 0 || IsSpace(s[0]))
    ensures Fields(w + s) == [w] + Fields(s)
  {
    WordLengthOfWord(w, s);
    assert (w + s)[..|w|] == w && (w + s)[|w|..] == s;
  }

  lemma {:induction false} WordLengthOfWord(w: string, s: string)
    requires NoSpace(w) && (|s| == 0 || IsSpace(s[0]))
    ensures WordLength(w + s) == |w|
    decreases |w|
  {
    if |w| > 0 {
      assert (w + s)[1..] == w[1..] + s;
      WordLengthOfWord(w[1..], s);
    } else {
      assert w + s == s;
    }
  }

  /** Words joined by single spaces, as a command line is usually written. */
  function JoinWords(ws: seq<string>): string
    decreases |ws|
  {
    if |ws| == 0 then "" else if |ws| == 1 then ws[0] else ws[0] + (" " + JoinWords(ws[1..]))
  }

  /** Splitting words joined by spaces gives the words back. */
  lemma {:induction false} FieldsJoinWords(ws: seq<string>)
    requires AllWords(ws)
    ensures Fields(JoinWords(ws)) == ws
    decreases |ws|
  {
    if |ws| == 1 {
      FieldsTakesWord(ws[0], "");
      assert ws[0] + "" == ws[0];
    } else if |ws| > 1 {
      var rest := JoinWords(ws[1..]);
      assert AllWords(ws[1..]) by {
        forall i | 0 <= i < |ws| - 1 ensures IsWord(ws[1..][i]) { assert ws[1..][i] == ws[i + 1]; }
      }
      FieldsJoinWords(ws[1..]);
      FieldsWordSpace(ws[0], rest);
      assert ws == [ws[0]] + ws[1..];
    }
  }

  lemma FieldsWordSpace(w: string, rest: string)
    requires IsWord(w)
    ensures Fields(w + (" " + rest)) == [w] + Fields(rest)
  {
    assert IsSpace((" " + rest)[0]);
    FieldsTakesWord(w, " " + rest);
    assert AllSpace(" ");
    FieldsSkipsSpace(" ", rest);
  }

  /** A field: non-empty and free of whitespace. */
  predicate IsWord(s: string) {
    |s| > 0 && NoSpace(s)
  }

  predicate AllWords(ws: seq<string>) {
    forall i :: 0 <= i < |ws| ==> IsWord(ws[i])
  }

  /** `s` contains no whitespace character. */
  predicate NoSpace(s: string) {
    forall i :: 0 <= i < |s| ==> !IsSpace(s[i])
  }

  // ---------------------------------------------------------------------------
  // Case
  // ---------------------------------------------------------------------------

  const KelvinSign: char := '\U{212A}'
  const CapitalIWithDot: char := '\U{0130}'

  predicate IsAsciiUpper(c: char) {
    'A' <= c <= 'Z'
  }

  /**
   * `unicode.ToLower` as far as the lower-cased text is compared with ASCII:
   * A-Z map to a-z, and the only other characters whose lower case is ASCII,
   * KELVIN SIGN (U+212A) and LATIN CAPITAL LETTER I WITH DOT ABOVE (U+0130),
   * map to 'k' and 'i'. Every other character is kept; its real lower case is
   * never ASCII, so it can match no ASCII text either way.
   */
  function LowerChar(c: char): (r: char)
    ensures !IsAsciiUpper(r) && r != KelvinSign && r != CapitalIWithDot
    ensures IsAsciiUpper(c) ==> 'a' <= r <= 'z' && r != c
    ensures r != c ==> IsAsciiUpper(c) || c == KelvinSign || c == CapitalIWithDot
    ensures c == KelvinSign ==> r == 'k'
    ensures c == CapitalIWithDot ==> r == 'i'
    ensures IsSpace(r) <==> IsSpace(c)
    ensures IsDigit(r) <==> IsDigit(c)
  {
    if IsAsciiUpper(c) then (c as int - 'A' as int + 'a' as int) as char
    else if c == KelvinSign then 'k'
    else if c == CapitalIWithDot then 'i'
    else c
  }

  /** `strings.ToLower`, one character at a time. */
  function ToLower(s: string): (r: string)
    ensures |r| == |s|
    ensures forall i :: 0 <= i < |s| ==> r[i] == LowerChar(s[i])
  {
    seq(|s|, i requires 0 <= i < |s| => LowerChar(s[i]))
  }

  /** Lower-casing keeps trimmed text trimmed. */
  lemma ToLowerTrimmed(s: string)
    requires Trimmed(s)
    ensures Trimmed(ToLower(s))
  {
    if |s| > 0 {
      assert ToLower(s)[0] == LowerChar(s[0]);
      assert ToLower(s)[|s| - 1] == LowerChar(s[|s| - 1]);
    }
  }

  /** Lower-casing twice is lower-casing once. */
  lemma ToLowerIdempotent(s: string)
    ensures ToLower(ToLower(s)) == ToLower(s)
  {
    var once := ToLower(s);
    forall i | 0 <= i < |s| ensures LowerChar(once[i]) == once[i] {
      assert !IsAsciiUpper(once[i]) && once[i] != KelvinSign && once[i] != CapitalIWithDot;
    }
  }

  // ---------------------------------------------------------------------------
  // Decimal integers
  // ---------------------------------------------------------------------------

  predicate IsDigit(c: char) {
    '0' <= c <= '9'
  }

  predicate AllDigits(s: string) {
    forall i :: 0 <= i < |s| ==> IsDigit(s[i])
  }

  /** The value of a string of decimal digits. */
  function DigitsValue(s: string): (n: nat)
    requires AllDigits(s)
    decreases |s|
  {
    if |s| == 0 then 0
    else DigitsValue(s[..|s| - 1]) * 10 + (s[|s| - 1] as int - '0' as int)
  }

  /** Go's `strconv.Atoi`: an optional sign, then one or more decimal digits, within int64 range. */
  function Atoi(s: string): (r: Option<int>)
    ensures r.Some? ==> MinInt64 <= r.value <= MaxInt64
    ensures |s| == 0 ==> r.None?
    ensures r.Some? && |s| > 0 && IsDigit(s[0]) ==> AllDigits(s) && r.value == DigitsValue(s)
    ensures |s| > 0 && AllDigits(s) ==> (r.Some? <==> DigitsValue(s) <= MaxInt64)
    ensures (exists i :: 0 <= i < |s| && IsSpace(s[i])) ==> r.None?
  {
    var neg := |s| > 0 && s[0] == '-';
    var body := if |s| > 0 && (s[0] == '+' || s[0] == '-') then s[1..] else s;
    if |body| == 0 || !AllDigits(body) then
      None
    else
      var d: int := DigitsValue(body);
      var v := if neg then -d else d;
      assert !(exists i :: 0 <= i < |s| && IsSpace(s[i])) by {
        forall i | 0 <= i < |s| ensures !IsSpace(s[i]) {
          if |body| < |s| && i > 0 { assert s[i] == body[i - 1]; }
        }
      }
      if MinInt64 <= v <= MaxInt64 then Some(v) else None
  }

  function DigitChar(d: nat): (c: char)
    requires d < 10
    ensures IsDigit(c) && c as int - '0' as int == d
  {
    ('0' as int + d) as char
  }

  /** The decimal digits of a non-negative number, without leading zeros. */
  function Digits(n: nat): (s: string)
    ensures |s| > 0 && AllDigits(s)
    ensures DigitsValue(s) == n
    decreases n
  {
    if n < 10 then [DigitChar(n)]
    else
      var p := Digits(n / 10);
      var s := p + [DigitChar(n % 10)];
      assert s[..|s| - 1] == p;
      s
  }

  /** Go's `strconv.Itoa`: a minus sign for negative numbers, then the digits. */
  function Itoa(n: int): (s: string)
    ensures |s| > 0 && NoSpace(s)
    ensures n >= 0 ==> s == Digits(n)
    ensures n < 0 ==> s == "-" + Digits(-n)
  {
    var d := Digits(if n < 0 then -n else n);
    assert NoSpace(d) by {
      forall i | 0 <= i < |d| ensures !IsSpace(d[i]) { assert IsDigit(d[i]); }
    }
    if n < 0 then "-" + d else d
  }

  /** `strconv.Atoi` reads back what `strconv.Itoa` wrote, for every 64-bit value. */
  lemma ItoaAtoi(n: int)
    requires MinInt64 <= n <= MaxInt64
    ensures Atoi(Itoa(n)) == Some(n)
  {
    if n < 0 {
      var s := Itoa(n);
      assert s[1..] == Digits(-n);
    }
  }

  // ---------------------------------------------------------------------------
  // Order
  // ---------------------------------------------------------------------------

  /** Lexicographic strict order on code points: Go's `<` on strings. */
  predicate Less(a: string, b: string)
    decreases |a|
  {
    if |b| == 0 then false
    else if |a| == 0 then true
    else if a[0] != b[0] then a[0] < b[0]
    else Less(a[1..], b[1..])
  }

  lemma {:induction false} LessIrreflexive(a: string)
    ensures !Less(a, a)
    decreases |a|
  {
    if |a| > 0 { LessIrreflexive(a[1..]); }
  }

  lemma {:induction false} LessAsymmetric(a: string, b: string)
    ensures Less(a, b) ==> !Less(b, a)
    decreases |a|
  {
    if |a| > 0 && |b| > 0 && a[0] == b[0] { LessAsymmetric(a[1..], b[1..]); }
  }

  lemma {:induction false} LessTransitive(a: string, b: string, c: string)
    requires Less(a, b) && Less(b, c)
    ensures Less(a, c)
    decreases |a|
  {
    if |a| > 0 && a[0] == b[0] && b[0] == c[0] {
      LessTransitive(a[1..], b[1..], c[1..]);
    }
  }

  lemma {:induction false} LessTotal(a: string, b: string)
    ensures a == b || Less(a, b) || Less(b, a)
    decreases |a|
  {
    if |a| > 0 && |b| > 0 && a[0] == b[0] {
      LessTotal(a[1..], b[1..]);
      if a[1..] == b[1..] {
        assert a == [a[0]] + a[1..] && b == [b[0]] + b[1..];
      }
    }
  }

  /** The facts above, for every pair and triple. */
  lemma LessIsStrictTotalOrder()
    ensures forall a :: !Less(a, a)
    ensures forall a, b :: Less(a, b) ==> !Less(b, a)
    ensures forall a, b, c :: Less(a, b) && Less(b, c) ==> Less(a, c)
    ensures forall a, b :: a == b || Less(a, b) || Less(b, a)
  {
    forall a ensures !Less(a, a) { LessIrreflexive(a); }
    forall a, b ensures Less(a, b) ==> !Less(b, a) { LessAsymmetric(a, b); }
    forall a, b, c | Less(a, b) && Less(b, c) ensures Less(a, c) { LessTransitive(a, b, c); }
    forall a, b ensures a == b || Less(a, b) || Less(b, a) { LessTotal(a, b); }
  }
}
