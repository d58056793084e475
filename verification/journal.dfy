/**
 * A day's journal record and the entry-level edits the terminal session
 * performs on it: appending an inline entry, deleting one entry, replacing one
 * entry's text, and rebuilding a question's entries from an edited buffer
 * while keeping the timestamps of lines that did not change.
 *
 * Source: internal/app/app.go (types `DayLog`, `Answer`) and
 * internal/tuiapp/model.go (`performDeleteEntry`, `saveInlineEntry`,
 * `applySingleEntryEdit`, `responsesForQuestion`, `rebuildAnswers`).
 */
module Journal {
  import opened Base
  import opened Text

  /** One answer: an opaque timestamp string and the response text. */
  datatype Answer = Answer(time: string, response: string)

  /** The answers of one day, keyed by question text. */
  type Log = map<string, seq<Answer>>

  /** Go's read of a possibly absent map key: a missing question has no entries. */
  function EntriesOf(log: Log, q: string): seq<Answer> {
    if q in log then log[q] else []
  }

  /** The record invariant: no question is stored with an empty entry list. */
  predicate NoEmptyKeys(log: Log) {
    forall q :: q in log ==> |log[q]| > 0
  }

  /** Stores `entries` under `q`, deleting the key when the list is empty. */
  function StoreEntries(log: Log, q: string, entries: seq<Answer>): (r: Log)
    ensures EntriesOf(r, q) == entries
    ensures q in r <==> |entries| > 0
    ensures forall k :: k != q ==> (k in r <==> k in log) && EntriesOf(r, k) == EntriesOf(log, k)
    ensures NoEmptyKeys(log) ==> NoEmptyKeys(r)
  {
    if |entries| == 0 then log - {q} else log[q := entries]
  }

  /** `responsesForQuestion`: the response texts of `entries`, in order. */
  function Responses(entries: seq<Answer>): (r: seq<string>)
    ensures |r| == |entries|
    ensures forall i :: 0 <= i < |entries| ==> r[i] == entries[i].response
  {
    seq(|entries|, i requires 0 <= i < |entries| => entries[i].response)
  }

  lemma ResponsesCons(a: Answer, rest: seq<Answer>)
    ensures Responses([a] + rest) == [a.response] + Responses(rest)
  {
    assert forall i :: 1 <= i < 1 + |rest| ==> ([a] + rest)[i] == rest[i - 1];
  }

  /** `s` without its element at `i`. */
  function RemoveAt<T>(s: seq<T>, i: nat): (r: seq<T>)
    requires i < |s|
    ensures |r| == |s| - 1
    ensures forall j :: 0 <= j < i ==> r[j] == s[j]
    ensures forall j :: i <= j < |r| ==> r[j] == s[j + 1]
  {
    s[..i] + s[i + 1..]
  }

  /**
   * The log change made by `performDeleteEntry`: an out-of-range index leaves
   * the log as it is; otherwise exactly that entry goes, and the question's key
   * goes with it when no entry is left.
   */
  function DeleteEntry(log: Log, q: string, idx: int): (r: Log)
    ensures !(0 <= idx < |EntriesOf(log, q)|) ==> r == log
    ensures 0 <= idx < |EntriesOf(log, q)| ==>
      && |EntriesOf(r, q)| == |EntriesOf(log, q)| - 1
      && (forall j :: 0 <= j < idx ==> EntriesOf(r, q)[j] == EntriesOf(log, q)[j])
      && (forall j :: idx <= j < |EntriesOf(r, q)| ==> EntriesOf(r, q)[j] == EntriesOf(log, q)[j + 1])
      && (q in r <==> |EntriesOf(log, q)| > 1)
    ensures forall k :: k != q ==> (k in r <==> k in log) && EntriesOf(r, k) == EntriesOf(log, k)
  {
    var entries := EntriesOf(log, q);
    if idx < 0 || idx >= |entries| then log
    else StoreEntries(log, q, RemoveAt(entries, idx))
  }

  /** The log change made by `saveInlineEntry` once the text is known to be non-blank. */
  function AppendEntry(log: Log, q: string, entry: Answer): (r: Log)
    ensures EntriesOf(r, q) == EntriesOf(log, q) + [entry]
    ensures r.Keys == log.Keys + {q}
    ensures forall k :: k != q ==> EntriesOf(r, k) == EntriesOf(log, k)
  {
    log[q := EntriesOf(log, q) + [entry]]
  }

  /**
   * The log change made by `applySingleEntryEdit` with a replacement text:
   * that entry gets the new text and keeps its timestamp; an out-of-range
   * index leaves the log as it is.
   */
  function ReplaceResponse(log: Log, q: string, idx: int, text: string): (r: Log)
    ensures !(0 <= idx < |EntriesOf(log, q)|) ==> r == log
    ensures 0 <= idx < |EntriesOf(log, q)| ==>
      && |EntriesOf(r, q)| == |EntriesOf(log, q)|
      && EntriesOf(r, q)[idx] == Answer(EntriesOf(log, q)[idx].time, text)
      && (forall j :: 0 <= j < |EntriesOf(r, q)| && j != idx ==> EntriesOf(r, q)[j] == EntriesOf(log, q)[j])
      && q in r
    ensures forall k :: k != q ==> (k in r <==> k in log) && EntriesOf(r, k) == EntriesOf(log, k)
  {
    var entries := EntriesOf(log, q);
    if idx < 0 || idx >= |entries| then log
    else StoreEntries(log, q, entries[idx := entries[idx].(response := text)])
  }

  // ---------------------------------------------------------------------------
  // Cleaning edited lines
  // ---------------------------------------------------------------------------

  /** A line as the log keeps it: trimmed and not empty. */
  predicate CleanLine(s: string) {
    Trimmed(s) && |s| > 0
  }

  /** Every line is clean. */
  ghost predicate AllClean(lines: seq<string>) {
    forall i :: 0 <= i < |lines| ==> CleanLine(lines[i])
  }

  /** The non-blank lines of `lines`, each trimmed, in their original order. */
  function CleanLines(lines: seq<string>): (r: seq<string>)
    ensures |r| <= |lines|
    decreases |lines|
  {
    if |lines| == 0 then []
    else
      var t := TrimSpace(lines[0]);
      var rest := CleanLines(lines[1..]);
      if t == [] then rest else [t] + rest
  }

  /** Every line `CleanLines` keeps is clean. */
  lemma {:induction false} CleanLinesClean(lines: seq<string>)
    ensures AllClean(CleanLines(lines))
    decreases |lines|
  {
    if |lines| > 0 {
      var t := TrimSpace(lines[0]);
      var rest := CleanLines(lines[1..]);
      CleanLinesClean(lines[1..]);
      if t != [] {
        AllCleanCons(t, rest);
      }
    }
  }

  lemma AllCleanCons(x: string, rest: seq<string>)
    requires CleanLine(x) && AllClean(rest)
    ensures AllClean([x] + rest)
  {
    forall i | 1 <= i < 1 + |rest| ensures CleanLine(([x] + rest)[i]) {
      assert ([x] + rest)[i] == rest[i - 1];
    }
  }

  /** Clean lines are left as they are. */
  lemma {:induction false} CleanLinesOfClean(lines: seq<string>)
    requires AllClean(lines)
    ensures CleanLines(lines) == lines
    decreases |lines|
  {
    if |lines| > 0 {
      var rest := lines[1..];
      assert AllClean(rest) by {
        forall i | 0 <= i < |rest| ensures CleanLine(rest[i]) { assert rest[i] == lines[i + 1]; }
      }
      CleanLinesOfClean(rest);
      assert CleanLine(lines[0]);
      assert CleanLines(lines) == [lines[0]] + rest;
      HeadTail(lines);
    }
  }

  lemma {:induction false} CleanLinesAppend(a: seq<string>, b: seq<string>)
    ensures CleanLines(a + b) == CleanLines(a) + CleanLines(b)
    decreases |a|
  {
    if |a| > 0 {
      TailOfAppend(a, b);
      CleanLinesAppend(a[1..], b);
    } else {
      assert a + b == b;
    }
  }

  /**
   * An independent description of cleaning: `idx` lists, in increasing
   * order, the positions of `lines` that `r` keeps, `r` holds their trimmed
   * text, and every line left out trims to nothing.
   */
  ghost predicate PicksNonBlank(lines: seq<string>, r: seq<string>, idx: seq<int>) {
    Picks(Trims(lines), r, idx)
  }

  /** Each line trimmed. */
  function Trims(lines: seq<string>): (r: seq<string>)
    ensures |r| == |lines|
    ensures forall i :: 0 <= i < |lines| ==> r[i] == TrimSpace(lines[i])
  {
    seq(|lines|, i requires 0 <= i < |lines| => TrimSpace(lines[i]))
  }

  /** `r` is `vals` at the increasing positions `idx`, and every value not picked is empty. */
  ghost predicate Picks(vals: seq<string>, r: seq<string>, idx: seq<int>) {
    Placed(vals, r, idx) && Increasing(idx) && Covers(vals, idx)
  }

  /** `r[k]` is the value at position `idx[k]`. */
  ghost predicate Placed(vals: seq<string>, r: seq<string>, idx: seq<int>) {
    |idx| == |r| && forall k :: 0 <= k < |idx| ==> 0 <= idx[k] < |vals| && r[k] == vals[idx[k]]
  }

  ghost predicate Increasing(idx: seq<int>) {
    forall k, m :: 0 <= k < m < |idx| ==> idx[k] < idx[m]
  }

  /** Every value whose position is not listed is empty. */
  ghost predicate Covers(vals: seq<string>, idx: seq<int>) {
    forall i :: 0 <= i < |vals| && i !in idx ==> vals[i] == []
  }

  /** The non-empty values, in order. */
  function NonEmpty(vals: seq<string>): (r: seq<string>)
    ensures |r| <= |vals|
  {
    if |vals| == 0 then [] else if vals[0] == [] then NonEmpty(vals[1..]) else [vals[0]] + NonEmpty(vals[1..])
  }

  /** Cleaning is trimming each line, then keeping the non-empty results. */
  lemma {:induction false} CleanLinesIsNonEmptyTrims(lines: seq<string>)
    ensures CleanLines(lines) == NonEmpty(Trims(lines))
    decreases |lines|
  {
    if |lines| > 0 {
      CleanLinesIsNonEmptyTrims(lines[1..]);
      assert Trims(lines)[1..] == Trims(lines[1..]);
    }
  }

  /** Every position moved by `d`. */
  function Shift(idx: seq<int>, d: int): (r: seq<int>)
    ensures |r| == |idx|
    ensures forall k :: 0 <= k < |idx| ==> r[k] == idx[k] + d
  {
    seq(|idx|, k requires 0 <= k < |idx| => idx[k] + d)
  }

  /** A picking of the tail extends to the whole sequence. */
  lemma PicksCons(v: string, vals: seq<string>, r: seq<string>, inner: seq<int>)
    requires Picks(vals, r, inner)
    ensures Picks([v] + vals, if v == [] then r else [v] + r, if v == [] then Shift(inner, 1) else [0] + Shift(inner, 1))
  {
    PlacedCons(v, vals, r, inner);
    CoversCons(v, vals, inner);
    IncreasingCons(v == [], inner);
  }

  lemma IncreasingCons(skip: bool, inner: seq<int>)
    requires Increasing(inner) && forall k :: 0 <= k < |inner| ==> 0 <= inner[k]
    ensures Increasing(if skip then Shift(inner, 1) else [0] + Shift(inner, 1))
  {
    var idx := if skip then Shift(inner, 1) else [0] + Shift(inner, 1);
    var off := if skip then 0 else 1;
    forall k, m | 0 <= k < m < |idx| ensures idx[k] < idx[m] {
      assert idx[m] == inner[m - off] + 1;
      if k >= off { assert idx[k] == inner[k - off] + 1; }
    }
  }

  lemma PlacedCons(v: string, vals: seq<string>, r: seq<string>, inner: seq<int>)
    requires Placed(vals, r, inner)
    ensures Placed([v] + vals, if v == [] then r else [v] + r, if v == [] then Shift(inner, 1) else [0] + Shift(inner, 1))
  {
    var all := [v] + vals;
    var r' := if v == [] then r else [v] + r;
    var idx := if v == [] then Shift(inner, 1) else [0] + Shift(inner, 1);
    var off := if v == [] then 0 else 1;
    forall k | off <= k < |idx| ensures 0 <= idx[k] < |all| && r'[k] == all[idx[k]] {
      assert idx[k] == inner[k - off] + 1 && r'[k] == r[k - off];
      assert all[idx[k]] == vals[inner[k - off]];
    }
  }

  lemma CoversCons(v: string, vals: seq<string>, inner: seq<int>)
    requires Covers(vals, inner)
    ensures Covers([v] + vals, if v == [] then Shift(inner, 1) else [0] + Shift(inner, 1))
  {
    var all := [v] + vals;
    var idx := if v == [] then Shift(inner, 1) else [0] + Shift(inner, 1);
    var off := if v == [] then 0 else 1;
    forall i | 0 < i < |all| && all[i] != [] ensures i in idx {
      assert all[i] == vals[i - 1];
      var k :| 0 <= k < |inner| && inner[k] == i - 1;
      assert idx[k + off] == i;
    }
  }

  /** The positions of the non-empty values, in order. */
  lemma {:induction false} NonEmptyPicks(vals: seq<string>) returns (idx: seq<int>)
    ensures Picks(vals, NonEmpty(vals), idx)
    decreases |vals|
  {
    if |vals| == 0 {
      idx := [];
    } else {
      var inner := NonEmptyPicks(vals[1..]);
      PicksCons(vals[0], vals[1..], NonEmpty(vals[1..]), inner);
      assert [vals[0]] + vals[1..] == vals;
      idx := if vals[0] == [] then Shift(inner, 1) else [0] + Shift(inner, 1);
    }
  }

  /** Dropping the first `d` picks and the values up to just past the last dropped one. */
  lemma PicksDrop(vals: seq<string>, r: seq<string>, idx: seq<int>, d: nat)
    requires Picks(vals, r, idx) && |vals| > 0 && d <= |idx| && d <= 1
    requires d == 1 ==> idx[0] == 0
    requires d == 0 ==> forall k :: 0 <= k < |idx| ==> idx[k] > 0
    ensures Picks(vals[1..], r[d..], Shift(idx[d..], -1))
  {
    forall k | 0 <= k < |idx[d..]| ensures idx[d..][k] > 0 {
      if d == 1 { assert idx[0] < idx[k + 1]; }
    }
    PlacedDrop(vals, r[d..], idx[d..]);
    CoversDrop(vals, idx, d);
    assert Increasing(idx[d..]) by {
      forall k, m | 0 <= k < m < |idx[d..]| ensures idx[d..][k] < idx[d..][m] { assert idx[k + d] < idx[m + d]; }
    }
    IncreasingShift(idx[d..], -1);
  }

  lemma PlacedDrop(vals: seq<string>, r: seq<string>, idx: seq<int>)
    requires Placed(vals, r, idx) && |vals| > 0 && forall k :: 0 <= k < |idx| ==> idx[k] > 0
    ensures Placed(vals[1..], r, Shift(idx, -1))
  {
    var sh := Shift(idx, -1);
    forall k | 0 <= k < |sh| ensures 0 <= sh[k] < |vals| - 1 && r[k] == vals[1..][sh[k]] {
      assert vals[1..][sh[k]] == vals[idx[k]];
    }
  }

  lemma CoversDrop(vals: seq<string>, idx: seq<int>, d: nat)
    requires Covers(vals, idx) && |vals| > 0 && d <= |idx| && d <= 1
    requires d == 1 ==> idx[0] == 0
    ensures Covers(vals[1..], Shift(idx[d..], -1))
  {
    var rest := vals[1..];
    var sh := Shift(idx[d..], -1);
    forall i | 0 <= i < |rest| && rest[i] != [] ensures i in sh {
      assert rest[i] == vals[i + 1];
      var k :| 0 <= k < |idx| && idx[k] == i + 1;
      assert sh[k - d] == i;
    }
  }

  lemma IncreasingShift(idx: seq<int>, d: int)
    requires Increasing(idx)
    ensures Increasing(Shift(idx, d))
  {
  }

  /** Non-empty values picked in order are exactly the non-empty values. */
  lemma {:induction false} PicksAreNonEmpty(vals: seq<string>, r: seq<string>, idx: seq<int>)
    requires Picks(vals, r, idx)
    requires forall k :: 0 <= k < |r| ==> r[k] != []
    ensures r == NonEmpty(vals)
    decreases |vals|
  {
    if |vals| == 0 {
      // nothing to pick
    } else {
      var d := PicksFirst(vals, r, idx);
      PicksDrop(vals, r, idx, d);
      PicksAreNonEmpty(vals[1..], r[d..], Shift(idx[d..], -1));
      assert r == r[..d] + r[d..];
    }
  }

  /** The first value is picked, as the first pick, exactly when it is not empty. */
  lemma PicksFirst(vals: seq<string>, r: seq<string>, idx: seq<int>) returns (d: nat)
    requires Picks(vals, r, idx) && |vals| > 0
    requires forall k :: 0 <= k < |r| ==> r[k] != []
    ensures d == (if vals[0] == [] then 0 else 1) && d <= |idx|
    ensures d == 1 ==> idx[0] == 0 && r[..1] == [vals[0]]
    ensures d == 0 ==> forall k :: 0 <= k < |idx| ==> idx[k] > 0
  {
    if vals[0] == [] {
      d := 0;
      forall k | 0 <= k < |idx| ensures idx[k] > 0 {
        assert r[k] == vals[idx[k]];
      }
    } else {
      d := 1;
      assert 0 in idx;
      var k0 :| 0 <= k0 < |idx| && idx[k0] == 0;
    }
  }

  /** `CleanLines` keeps the non-blank lines in their original order. */
  lemma CleanLinesKeepsOrder(lines: seq<string>)
    ensures exists idx :: PicksNonBlank(lines, CleanLines(lines), idx)
  {
    CleanLinesIsNonEmptyTrims(lines);
    var idx := NonEmptyPicks(Trims(lines));
    assert PicksNonBlank(lines, CleanLines(lines), idx);
  }

  /** Conversely, clean lines picked in order from `lines` are exactly `CleanLines(lines)`. */
  lemma PicksDetermineCleanLines(lines: seq<string>, r: seq<string>, idx: seq<int>)
    requires PicksNonBlank(lines, r, idx) && AllClean(r)
    ensures r == CleanLines(lines)
  {
    CleanLinesIsNonEmptyTrims(lines);
    forall k | 0 <= k < |r| ensures r[k] != [] { assert CleanLine(r[k]); }
    PicksAreNonEmpty(Trims(lines), r, idx);
  }

  // ---------------------------------------------------------------------------
  // rebuildAnswers
  // ---------------------------------------------------------------------------

  /** The timestamps of the entries in `entries` whose response is exactly `text`, in order. */
  function TimesOf(entries: seq<Answer>, text: string): (r: seq<string>)
    ensures |r| <= |entries|
    decreases |entries|
  {
    if |entries| == 0 then []
    else (if entries[0].response == text then [entries[0].time] else []) + TimesOf(entries[1..], text)
  }

  /** Number of occurrences of `x` in `s`. */
  function Count(s: seq<string>, x: string): (n: nat)
    ensures n <= |s|
    decreases |s|
  {
    if |s| == 0 then 0
    else Count(s[..|s| - 1], x) + (if s[|s| - 1] == x then 1 else 0)
  }

  /** Go's read of a possibly absent pool key. */
  function PoolGet(pool: map<string, seq<string>>, text: string): seq<string> {
    if text in pool then pool[text] else []
  }

  /** The pool `rebuildAnswers` builds: each response text mapped to its timestamps in entry order. */
  function BuildPool(entries: seq<Answer>): (pool: map<string, seq<string>>)
    ensures forall text :: PoolGet(pool, text) == TimesOf(entries, text)
    decreases |entries|
  {
    if |entries| == 0 then map[]
    else
      var p := BuildPool(entries[1..]);
      var a := entries[0];
      p[a.response := [a.time] + PoolGet(p, a.response)]
  }

  /** The loop of `rebuildAnswers` over the remaining responses, consuming pool timestamps. */
  function RebuildFrom(pool: map<string, seq<string>>, responses: seq<string>, now: string): (r: seq<Answer>)
    decreases |responses|
  {
    if |responses| == 0 then []
    else
      var text := TrimSpace(responses[0]);
      if text == [] then RebuildFrom(pool, responses[1..], now)
      else
        var times := PoolGet(pool, text);
        if |times| > 0 then
          [Answer(times[0], text)] + RebuildFrom(pool[text := times[1..]], responses[1..], now)
        else
          [Answer(now, text)] + RebuildFrom(pool, responses[1..], now)
  }

  /**
   * `rebuildAnswers`: the entries of a question after its editor buffer was
   * edited. Blank lines are dropped and the rest trimmed; each line reuses the
   * first not yet reused timestamp of an old entry with identical text, and
   * otherwise gets `now`.
   */
  function RebuildAnswers(existing: seq<Answer>, responses: seq<string>, now: string): (r: seq<Answer>)
    ensures Responses(r) == CleanLines(responses)
    ensures forall i :: 0 <= i < |r| ==> r[i].time == now || r[i].time in TimesOf(existing, r[i].response)
  {
    if |responses| == 0 then []
    else
      RebuildFromResponses(BuildPool(existing), responses, now);
      RebuildFromTimes(BuildPool(existing), existing, responses, now);
      assert TimesFromOld(RebuildFrom(BuildPool(existing), responses, now), existing, now);
      RebuildFrom(BuildPool(existing), responses, now)
  }

  /** `RebuildFrom` keeps exactly the cleaned lines, in order. */
  lemma {:induction false} RebuildFromResponses(pool: map<string, seq<string>>, responses: seq<string>, now: string)
    ensures Responses(RebuildFrom(pool, responses, now)) == CleanLines(responses)
    decreases |responses|
  {
    if |responses| > 0 {
      var text := TrimSpace(responses[0]);
      var times := PoolGet(pool, text);
      if text == [] {
        RebuildFromResponses(pool, responses[1..], now);
      } else {
        var time := if |times| > 0 then times[0] else now;
        var pool' := if |times| > 0 then pool[text := times[1..]] else pool;
        var rest := RebuildFrom(pool', responses[1..], now);
        RebuildFromResponses(pool', responses[1..], now);
        assert RebuildFrom(pool, responses, now) == [Answer(time, text)] + rest;
        ResponsesCons(Answer(time, text), rest);
      }
    }
  }

  /** Every timestamp in `r` is `now` or one of the old ones for the same text. */
  ghost predicate TimesFromOld(r: seq<Answer>, existing: seq<Answer>, now: string) {
    forall i :: 0 <= i < |r| ==> r[i].time == now || r[i].time in TimesOf(existing, r[i].response)
  }

  /** The old timestamps still in the pool for each text. */
  ghost predicate PoolFromOld(pool: map<string, seq<string>>, existing: seq<Answer>) {
    forall text :: forall t :: t in PoolGet(pool, text) ==> t in TimesOf(existing, text)
  }

  /** Every timestamp `RebuildFrom` hands out is `now` or one of the old ones for the same text. */
  lemma {:induction false} RebuildFromTimes(pool: map<string, seq<string>>, existing: seq<Answer>, responses: seq<string>, now: string)
    requires PoolFromOld(pool, existing)
    ensures TimesFromOld(RebuildFrom(pool, responses, now), existing, now)
    decreases |responses|
  {
    if |responses| > 0 {
      var text := TrimSpace(responses[0]);
      var times := PoolGet(pool, text);
      if text == [] {
        RebuildFromTimes(pool, existing, responses[1..], now);
      } else {
        var time := if |times| > 0 then times[0] else now;
        var pool' := if |times| > 0 then pool[text := times[1..]] else pool;
        assert PoolFromOld(pool', existing) by {
          forall k, t | t in PoolGet(pool', k) ensures t in TimesOf(existing, k) {
            if k == text && |times| > 0 { assert t in times; }
          }
        }
        RebuildFromTimes(pool', existing, responses[1..], now);
        var rest := RebuildFrom(pool', responses[1..], now);
        assert RebuildFrom(pool, responses, now) == [Answer(time, text)] + rest;
        assert time == now || time in TimesOf(existing, text);
        TimesFromOldCons(Answer(time, text), rest, existing, now);
      }
    }
  }

  lemma TimesFromOldCons(a: Answer, rest: seq<Answer>, existing: seq<Answer>, now: string)
    requires TimesFromOld(rest, existing, now)
    requires a.time == now || a.time in TimesOf(existing, a.response)
    ensures TimesFromOld([a] + rest, existing, now)
  {
    assert forall i :: 1 <= i < 1 + |rest| ==> ([a] + rest)[i] == rest[i - 1];
  }

  /**
   * Independent description of the timestamp `rebuildAnswers` gives to the
   * cleaned line at position `i`: if the same text occurred `k` times earlier
   * in the cleaned lines, the line takes the `k`-th old timestamp for that text,
   * or `now` when the old entries do not have that many.
   */
  function ReferenceTime(existing: seq<Answer>, lines: seq<string>, i: nat, now: string): string
    requires i < |lines|
  {
    var times := TimesOf(existing, lines[i]);
    var k := Count(lines[..i], lines[i]);
    if k < |times| then times[k] else now
  }

  /** The whole rebuilt list described position by position. */
  function ReferenceRebuild(existing: seq<Answer>, responses: seq<string>, now: string): (r: seq<Answer>)
    ensures |r| == |CleanLines(responses)|
  {
    var lines := CleanLines(responses);
    seq(|lines|, i requires 0 <= i < |lines| => Answer(ReferenceTime(existing, lines, i, now), lines[i]))
  }

  /** `s[k..]`, or empty when `k` runs past the end. */
  function DropUpTo(s: seq<string>, k: nat): seq<string> {
    if k <= |s| then s[k..] else []
  }

  /**
   * Loop invariant of the reconciliation: after the cleaned lines `done` have
   * been processed, the pool holds for each text the old timestamps not yet reused.
   */
  ghost predicate PoolAfter(pool: map<string, seq<string>>, existing: seq<Answer>, done: seq<string>) {
    forall text {:trigger PoolGet(pool, text)} :: PoolGet(pool, text) == DropUpTo(TimesOf(existing, text), Count(done, text))
  }

  lemma CountSnoc(done: seq<string>, text: string, t: string)
    ensures Count(done + [text], t) == Count(done, t) + (if t == text then 1 else 0)
  {
    assert (done + [text])[..|done|] == done;
  }

  /** Consuming the head of a text's remaining timestamps re-establishes `PoolAfter`. */
  lemma PoolAfterStep(pool: map<string, seq<string>>, existing: seq<Answer>, done: seq<string>, text: string)
    requires PoolAfter(pool, existing, done)
    ensures var times := PoolGet(pool, text);
      PoolAfter(if |times| > 0 then pool[text := times[1..]] else pool, existing, done + [text])
  {
    var times := PoolGet(pool, text);
    var pool' := if |times| > 0 then pool[text := times[1..]] else pool;
    forall t ensures PoolGet(pool', t) == DropUpTo(TimesOf(existing, t), Count(done + [text], t)) {
      assert PoolGet(pool, t) == DropUpTo(TimesOf(existing, t), Count(done, t));
      CountSnoc(done, text, t);
    }
  }

  /** `r` lists, from position `off` of `lines` on, the entries the reference description assigns. */
  ghost predicate AgreesFrom(r: seq<Answer>, existing: seq<Answer>, lines: seq<string>, off: nat, now: string) {
    && off + |r| <= |lines|
    && forall i :: 0 <= i < |r| ==> r[i] == Answer(ReferenceTime(existing, lines, off + i, now), lines[off + i])
  }

  lemma AgreesCons(h: Answer, r: seq<Answer>, existing: seq<Answer>, lines: seq<string>, off: nat, now: string)
    requires off < |lines| && h == Answer(ReferenceTime(existing, lines, off, now), lines[off])
    requires AgreesFrom(r, existing, lines, off + 1, now)
    ensures AgreesFrom([h] + r, existing, lines, off, now)
  {
    forall i | 0 <= i < |[h] + r|
      ensures ([h] + r)[i] == Answer(ReferenceTime(existing, lines, off + i, now), lines[off + i])
    {
      if i > 0 { assert ([h] + r)[i] == r[i - 1]; }
    }
  }

  /** The head of the rebuilt list gets the timestamp the reference description gives it. */
  lemma HeadMatchesReference(pool: map<string, seq<string>>, existing: seq<Answer>, done: seq<string>,
                             lines: seq<string>, now: string)
    requires PoolAfter(pool, existing, done)
    requires |done| < |lines| && lines[..|done|] == done
    ensures var times := PoolGet(pool, lines[|done|]);
      ReferenceTime(existing, lines, |done|, now) == (if |times| > 0 then times[0] else now)
  {
    assert PoolGet(pool, lines[|done|]) == DropUpTo(TimesOf(existing, lines[|done|]), Count(done, lines[|done|]));
  }

  lemma LinesShape(done: seq<string>, text: string, tail: seq<string>)
    ensures (done + ([text] + tail))[..|done|] == done
    ensures (done + ([text] + tail))[|done|] == text
    ensures done + ([text] + tail) == (done + [text]) + tail
  {
  }

  /** One step of the reconciliation: the head entry followed by a tail that already agrees. */
  lemma ConsStep(pool: map<string, seq<string>>, existing: seq<Answer>, done: seq<string>,
                 text: string, tail: seq<string>, r: seq<Answer>, now: string)
    requires PoolAfter(pool, existing, done)
    requires AgreesFrom(r, existing, (done + [text]) + tail, |done| + 1, now)
    ensures var times := PoolGet(pool, text);
      AgreesFrom([Answer(if |times| > 0 then times[0] else now, text)] + r, existing, done + ([text] + tail), |done|, now)
  {
    LinesShape(done, text, tail);
    var lines := done + ([text] + tail);
    HeadMatchesReference(pool, existing, done, lines, now);
    var times := PoolGet(pool, text);
    AgreesCons(Answer(if |times| > 0 then times[0] else now, text), r, existing, lines, |done|, now);
  }

  lemma {:induction false} RebuildFromMatchesReference(pool: map<string, seq<string>>, existing: seq<Answer>,
                                                       done: seq<string>, responses: seq<string>, now: string)
    requires PoolAfter(pool, existing, done)
    ensures |RebuildFrom(pool, responses, now)| == |CleanLines(responses)|
    ensures AgreesFrom(RebuildFrom(pool, responses, now), existing, done + CleanLines(responses), |done|, now)
    decreases |responses|, 1
  {
    if |responses| > 0 {
      if TrimSpace(responses[0]) == [] {
        SkipBlankMatchesReference(pool, existing, done, responses, now);
      } else {
        TakeLineMatchesReference(pool, existing, done, responses, now);
      }
    }
  }

  lemma {:induction false} SkipBlankMatchesReference(pool: map<string, seq<string>>, existing: seq<Answer>,
                                                     done: seq<string>, responses: seq<string>, now: string)
    requires PoolAfter(pool, existing, done)
    requires |responses| > 0 && TrimSpace(responses[0]) == []
    ensures |RebuildFrom(pool, responses, now)| == |CleanLines(responses)|
    ensures AgreesFrom(RebuildFrom(pool, responses, now), existing, done + CleanLines(responses), |done|, now)
    decreases |responses|, 0
  {
    var rest := responses[1..];
    assert responses == [responses[0]] + rest;
    CleanLinesAppend([responses[0]], rest);
    assert CleanLines(responses) == CleanLines(rest);
    RebuildFromMatchesReference(pool, existing, done, rest, now);
  }

  lemma {:induction false} TakeLineMatchesReference(pool: map<string, seq<string>>, existing: seq<Answer>,
                                                    done: seq<string>, responses: seq<string>, now: string)
    requires PoolAfter(pool, existing, done)
    requires |responses| > 0 && TrimSpace(responses[0]) != []
    ensures |RebuildFrom(pool, responses, now)| == |CleanLines(responses)|
    ensures AgreesFrom(RebuildFrom(pool, responses, now), existing, done + CleanLines(responses), |done|, now)
    decreases |responses|, 0
  {
    var text := TrimSpace(responses[0]);
    var rest := responses[1..];
    var times := PoolGet(pool, text);
    var pool' := if |times| > 0 then pool[text := times[1..]] else pool;
    TakeLineUnfold(pool, responses, now);
    PoolAfterStep(pool, existing, done, text);
    RebuildFromMatchesReference(pool', existing, done + [text], rest, now);
    ConsStep(pool, existing, done, text, CleanLines(rest), RebuildFrom(pool', rest, now), now);
  }

  /** One step of `RebuildFrom` and of `CleanLines` on a line that is not blank. */
  lemma TakeLineUnfold(pool: map<string, seq<string>>, responses: seq<string>, now: string)
    requires |responses| > 0 && TrimSpace(responses[0]) != []
    ensures var text := TrimSpace(responses[0]);
      var times := PoolGet(pool, text);
      && CleanLines(responses) == [text] + CleanLines(responses[1..])
      && RebuildFrom(pool, responses, now)
         == [Answer(if |times| > 0 then times[0] else now, text)]
            + RebuildFrom(if |times| > 0 then pool[text := times[1..]] else pool, responses[1..], now)
  {
  }

  /** `rebuildAnswers` agrees with the position-by-position reference description. */
  lemma RebuildAnswersMatchesReference(existing: seq<Answer>, responses: seq<string>, now: string)
    ensures RebuildAnswers(existing, responses, now) == ReferenceRebuild(existing, responses, now)
  {
    if |responses| > 0 {
      var pool := BuildPool(existing);
      assert PoolAfter(pool, existing, []) by {
        forall t ensures PoolGet(pool, t) == DropUpTo(TimesOf(existing, t), Count([], t)) { }
      }
      RebuildFromMatchesReference(pool, existing, [], responses, now);
      assert [] + CleanLines(responses) == CleanLines(responses);
    }
  }

  /** The old timestamps for `text` reappear in order when the buffer is unchanged. */
  lemma {:induction false} TimesOfStep(entries: seq<Answer>, text: string)
    requires |entries| > 0
    ensures TimesOf(entries, text) == (if entries[0].response == text then [entries[0].time] else []) + TimesOf(entries[1..], text)
  {
  }

  /**
   * Re-submitting the unchanged buffer reproduces the entries exactly, times
   * and order included, when every stored response is already trimmed and
   * non-empty (as entries created by the journal always are).
   */
  lemma {:induction false} RebuildUnchangedIsIdentity(existing: seq<Answer>, now: string)
    requires forall i :: 0 <= i < |existing| ==> Trimmed(existing[i].response) && |existing[i].response| > 0
    ensures RebuildAnswers(existing, Responses(existing), now) == existing
  {
    if |existing| > 0 {
      var pool := BuildPool(existing);
      RebuildFromIdentity(pool, existing, now);
    }
  }

  lemma {:induction false} RebuildFromIdentity(pool: map<string, seq<string>>, rest: seq<Answer>, now: string)
    requires forall i :: 0 <= i < |rest| ==> Trimmed(rest[i].response) && |rest[i].response| > 0
    requires forall text {:trigger PoolGet(pool, text)} :: PoolGet(pool, text) == TimesOf(rest, text)
    ensures RebuildFrom(pool, Responses(rest), now) == rest
    decreases |rest|
  {
    if |rest| > 0 {
      var a := rest[0];
      var lines := Responses(rest);
      assert TrimSpace(lines[0]) == a.response;
      assert PoolGet(pool, a.response) == TimesOf(rest, a.response);
      TimesOfStep(rest, a.response);
      var pool' := pool[a.response := PoolGet(pool, a.response)[1..]];
      forall text ensures PoolGet(pool', text) == TimesOf(rest[1..], text) {
        assert PoolGet(pool, text) == TimesOf(rest, text);
        TimesOfStep(rest, text);
      }
      RebuildFromIdentity(pool', rest[1..], now);
      assert lines[1..] == Responses(rest[1..]);
      assert rest == [a] + rest[1..];
    }
  }
}
