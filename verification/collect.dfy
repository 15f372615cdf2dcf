/** Collecting the multi-choice answer: walk the options in order and append
    each one whose checkbox is ticked. A checkbox's state is keyed by its
    option's text, so the ticked boxes are a set of option texts. */
module Collect {
  import opened Grader

  /** The options of `options` that are in `checked`, in option order. */
  function Selected(options: seq<string>, checked: set<string>): (r: seq<string>)
    ensures |r| <= |options|
    ensures forall x :: x in r <==> x in options && x in checked
  {
    if options == [] then []
    else (if options[0] in checked then [options[0]] else []) + Selected(options[1..], checked)
  }

  /** `a` is `b` with some elements left out, the rest in their order. */
  predicate IsSubsequence(a: seq<string>, b: seq<string>)
  {
    a == [] || (b != [] && ((a[0] == b[0] && IsSubsequence(a[1..], b[1..])) || IsSubsequence(a, b[1..])))
  }

  /** No option text occurs twice. */
  predicate Distinct(s: seq<string>)
  {
    forall i, j :: 0 <= i < j < |s| ==> s[i] != s[j]
  }

  /** Selecting commutes with appending one more option. */
  lemma {:induction false} SelectedAppend(options: seq<string>, x: string, checked: set<string>)
    ensures Selected(options + [x], checked)
            == Selected(options, checked) + (if x in checked then [x] else [])
    decreases |options|
  {
    if options == [] {
      assert [] + [x] == [x];
    } else {
      var rest := options[1..];
      assert (options + [x])[0] == options[0];
      assert (options + [x])[1..] == rest + [x];
      SelectedAppend(rest, x, checked);
      var head := if options[0] in checked then [options[0]] else [];
      var tail := if x in checked then [x] else [];
      assert Selected(options + [x], checked) == head + Selected(rest + [x], checked);
      assert head + (Selected(rest, checked) + tail) == (head + Selected(rest, checked)) + tail;
    }
  }

  /** The collected answer keeps the option order and holds only options. */
  lemma {:induction false} SelectedIsSubsequence(options: seq<string>, checked: set<string>)
    ensures IsSubsequence(Selected(options, checked), options)
    decreases |options|
  {
    if options != [] {
      var rest := Selected(options[1..], checked);
      SelectedIsSubsequence(options[1..], checked);
      if options[0] in checked {
        var r := [options[0]] + rest;
        assert Selected(options, checked) == r;
        assert r[0] == options[0] && r[1..] == rest;
      } else {
        assert Selected(options, checked) == [] + rest == rest;
      }
    }
  }

  /** Without duplicate options, the answer holds no duplicates either. */
  lemma {:induction false} SelectedKeepsDistinct(options: seq<string>, checked: set<string>)
    requires Distinct(options)
    ensures Distinct(Selected(options, checked))
    decreases |options|
  {
    if options != [] {
      var rest := options[1..];
      assert Distinct(rest) by {
        forall i, j | 0 <= i < j < |rest| ensures rest[i] != rest[j] {
          assert rest[i] == options[i + 1] && rest[j] == options[j + 1];
        }
      }
      SelectedKeepsDistinct(rest, checked);
      var tail := Selected(rest, checked);
      assert options[0] !in rest by {
        forall k | 0 <= k < |rest| ensures rest[k] != options[0] { assert rest[k] == options[k + 1]; }
      }
      if options[0] in checked {
        var r := [options[0]] + tail;
        assert Selected(options, checked) == r;
        forall i, j | 0 <= i < j < |r| ensures r[i] != r[j] {
          assert r[j] == tail[j - 1] && tail[j - 1] in tail;
          if i > 0 { assert r[i] == tail[i - 1]; }
        }
      } else {
        assert Selected(options, checked) == [] + tail == tail;
      }
    }
  }

  /** Ticking exactly the options of a key drawn from the options yields an
      answer that the multi grader accepts. */
  lemma {:induction false} TickingTheKeyIsCorrect(options: seq<string>, key: seq<string>)
    requires forall x :: x in key ==> x in options
    ensures IsCorrect(PyList(Selected(options, set x | x in key)), PyList(key), "multi")
            == Returned(true)
  {
    MultiIsSetEquality(Selected(options, set x | x in key), key);
  }

  /** The loop that builds the multi-choice answer. */
  method CollectChecked(options: seq<string>, checked: set<string>) returns (picked: seq<string>)
    ensures picked == Selected(options, checked)
  {
    picked := [];
    for i := 0 to |options|
      invariant picked == Selected(options[..i], checked)
    {
      SelectedAppend(options[..i], options[i], checked);
      assert options[..i + 1] == options[..i] + [options[i]];
      if options[i] in checked {
        picked := picked + [options[i]];
      }
    }
    assert options[..|options|] == options;
  }
}
