/**
 * The order in which a day's questions are listed.
 *
 * Two listings exist. The session's question list (`mergeQuestions` in the
 * terminal UI, `mergeQuestionsForList` in the library) starts with every
 * configured question and adds, sorted, the questions of the day file that
 * still hold answers. The printed views (`OrderQuestions`, and its older copy
 * `orderQuestions`) list only questions present in the day file: configured
 * ones first, in configured order, then the rest sorted.
 *
 * Source: internal/tuiapp/model.go, internal/app/app.go, main.go.
 */
module Ordering {
  import opened Base
  import opened Text
  import opened Sorting
  import opened Journal

  /** Questions of the day file, not configured, that still hold answers. */
  function ExtraQuestions(base: seq<string>, log: Log): set<string> {
    set q | q in log && |log[q]| > 0 && q !in base
  }

  /**
   * `mergeQuestions` / `mergeQuestionsForList`: all of `base` as given
   * (duplicates included), then the answered questions missing from it in
   * ascending order.
   */
  function MergeQuestions(base: seq<string>, log: Log): (r: seq<string>)
    ensures |base| <= |r| && r[..|base|] == base
    ensures StrictlySorted(r[|base|..])
    ensures forall q :: q in r[|base|..] <==> q in log && |log[q]| > 0 && q !in base
  {
    var extras := SortedList(ExtraQuestions(base, log));
    assert (base + extras)[|base|..] == extras;
    base + extras
  }

  /** The three properties above pin the merged list down completely. */
  lemma MergeQuestionsUnique(base: seq<string>, log: Log, r: seq<string>)
    requires |base| <= |r| && r[..|base|] == base
    requires StrictlySorted(r[|base|..])
    requires forall q :: q in r[|base|..] <==> q in log && |log[q]| > 0 && q !in base
    ensures r == MergeQuestions(base, log)
  {
    var m := MergeQuestions(base, log);
    StrictlySortedUnique(r[|base|..], m[|base|..]);
    assert r == r[..|base|] + r[|base|..];
    assert m == m[..|base|] + m[|base|..];
  }

  /** A question is listed iff it is configured or answered; a question with an empty entry list is never added. */
  lemma MergeQuestionsMembers(base: seq<string>, log: Log, q: string)
    ensures q in MergeQuestions(base, log) <==> q in base || (q in log && |log[q]| > 0)
  {
    var r := MergeQuestions(base, log);
    assert r == r[..|base|] + r[|base|..];
  }

  /** `base` without duplicates gives a list without duplicates. */
  lemma MergeQuestionsDistinct(base: seq<string>, log: Log)
    requires Distinct(base)
    ensures Distinct(MergeQuestions(base, log))
  {
    var r := MergeQuestions(base, log);
    var n := |base|;
    SortedDistinct(r[n..]);
    forall i | 0 <= i < n ensures base[i] !in r[n..] {
      assert base[i] in base;
    }
    DistinctAppend(base, r[n..]);
    assert r == base + r[n..];
  }

  /** The entries of `base` that are keys of `answers`, in order (duplicates kept). */
  function KeysInBase(base: seq<string>, answers: Log): (r: seq<string>)
    ensures |r| <= |base|
    ensures forall q :: q in r <==> q in base && q in answers
  {
    if |base| == 0 then []
    else
      var rest := KeysInBase(base[1..], answers);
      assert forall q :: q in base <==> q == base[0] || q in base[1..];
      if base[0] in answers then [base[0]] + rest else rest
  }

  /** The matched questions keep base order: extending `base` by one question extends them by it exactly when the day file has it. */
  lemma {:induction false} KeysInBaseSnoc(base: seq<string>, q: string, answers: Log)
    ensures KeysInBase(base + [q], answers) == KeysInBase(base, answers) + (if q in answers then [q] else [])
    decreases |base|
  {
    if |base| == 0 {
      assert ([] + [q])[1..] == [];
    } else {
      TailOfAppend(base, [q]);
      KeysInBaseSnoc(base[1..], q, answers);
    }
  }

  /**
   * `OrderQuestions` / `orderQuestions`: the configured questions the day file
   * has (answered or not), in configured order, then its other keys sorted.
   */
  function OrderQuestions(answers: Log, base: seq<string>): (r: seq<string>)
    ensures var k := |KeysInBase(base, answers)|;
      && k <= |r|
      && r[..k] == KeysInBase(base, answers)
      && StrictlySorted(r[k..])
      && forall q :: q in r[k..] <==> q in answers && q !in base
  {
    var first := KeysInBase(base, answers);
    var extras := SortedList(set q | q in answers && q !in base);
    assert (first + extras)[|first|..] == extras;
    first + extras
  }

  /** Exactly the keys of the day file are listed. */
  lemma OrderQuestionsMembers(answers: Log, base: seq<string>, q: string)
    ensures q in OrderQuestions(answers, base) <==> q in answers
  {
    var r := OrderQuestions(answers, base);
    var k := |KeysInBase(base, answers)|;
    assert r == r[..k] + r[k..];
  }

  lemma {:induction false} KeysInBaseDistinct(base: seq<string>, answers: Log)
    requires Distinct(base)
    ensures Distinct(KeysInBase(base, answers))
    decreases |base|
  {
    if |base| > 0 {
      KeysInBaseDistinct(base[1..], answers);
      assert base[0] !in base[1..] by {
        forall i | 0 <= i < |base[1..]| ensures base[1..][i] != base[0] {
          assert base[1..][i] == base[i + 1];
        }
      }
      var rest := KeysInBase(base[1..], answers);
      var r := KeysInBase(base, answers);
      if base[0] in answers {
        assert r == [base[0]] + rest;
        forall i, j | 0 <= i < j < |r| ensures r[i] != r[j] {
          assert r[j] == rest[j - 1];
          if i > 0 {
            assert r[i] == rest[i - 1];
          } else {
            assert rest[j - 1] in rest;
            assert rest[j - 1] in base[1..];
          }
        }
      } else {
        assert r == rest;
      }
    }
  }

  /**
   * With a duplicate-free `base` the listing is a permutation of the day
   * file's keys: every key once, nothing else.
   */
  lemma OrderQuestionsPermutation(answers: Log, base: seq<string>)
    requires Distinct(base)
    ensures var r := OrderQuestions(answers, base);
      && Distinct(r)
      && (forall q :: q in r <==> q in answers)
      && |r| == |answers.Keys|
  {
    var r := OrderQuestions(answers, base);
    var first := KeysInBase(base, answers);
    var k := |first|;
    KeysInBaseDistinct(base, answers);
    SortedDistinct(r[k..]);
    forall i | 0 <= i < |first| ensures first[i] !in r[k..] {
      assert first[i] in first;
    }
    DistinctAppend(first, r[k..]);
    assert r == first + r[k..];
    forall q ensures q in r <==> q in answers {
      OrderQuestionsMembers(answers, base, q);
    }
    DistinctCardinality(r, answers.Keys);
  }

  /** A strictly sorted list has no duplicates. */
  lemma SortedDistinct(s: seq<string>)
    requires StrictlySorted(s)
    ensures Distinct(s)
  {
    forall i, j | 0 <= i < j < |s| ensures s[i] != s[j] {
      LessIrreflexive(s[i]);
    }
  }

  /** Two duplicate-free lists with nothing in common join into a duplicate-free list. */
  lemma DistinctAppend(a: seq<string>, b: seq<string>)
    requires Distinct(a) && Distinct(b)
    requires forall i :: 0 <= i < |a| ==> a[i] !in b
    ensures Distinct(a + b)
  {
    forall i, j | 0 <= i < j < |a + b| ensures (a + b)[i] != (a + b)[j] {
      if j < |a| {
        assert (a + b)[i] == a[i] && (a + b)[j] == a[j];
      } else if i >= |a| {
        assert (a + b)[i] == b[i - |a|] && (a + b)[j] == b[j - |a|];
      } else {
        assert (a + b)[i] == a[i] && (a + b)[j] == b[j - |a|];
      }
    }
  }

  /** A duplicate-free listing of a set is as long as the set is large. */
  lemma {:induction false} DistinctCardinality(r: seq<string>, s: set<string>)
    requires Distinct(r)
    requires forall q :: q in r <==> q in s
    ensures |r| == |s|
    decreases |r|
  {
    if |r| > 0 {
      var last := r[|r| - 1];
      var init := r[..|r| - 1];
      forall q ensures q in init <==> q in s - {last} {
        if q in init {
          var i :| 0 <= i < |init| && init[i] == q;
          assert r[i] == q;
        }
        if q in s - {last} {
          assert q in r;
          var i :| 0 <= i < |r| && r[i] == q;
          assert i < |r| - 1;
          assert init[i] == q;
        }
      }
      DistinctCardinality(init, s - {last});
    } else {
      assert forall q :: q !in s;
      assert s == {};
    }
  }
}
