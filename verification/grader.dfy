/** The answer grader: `is_correct` and the choice of answer key. */
module Grader {
  import opened Text

  datatype Option<T> = None | Some(value: T)

  /** The Python values that `is_correct` receives: `None`, a string, or a list of
      strings (a JSON array of options, or the ticked checkboxes). */
  datatype PyValue = PyNone | PyStr(s: string) | PyList(items: seq<string>)

  /** The exceptions the grading code can raise. */
  datatype PyError =
    | KeyError        // the question record lacks the key field
    | TypeError       // `set(None)`
    | AttributeError  // `.strip()` on something that is not a string

  /** What grading returns: a verdict, or the exception it raised. */
  datatype Outcome = Returned(correct: bool) | Raised(error: PyError)

  /** A record of the question bank. `correct` and `answer` are the optional
      JSON keys: single and multi questions carry `correct`, blank ones
      `answer`. */
  datatype Question = Question(
    question: string,
    kind: string,
    options: seq<string>,
    correct: Option<PyValue>,
    answer: Option<PyValue>)

  /** Python's `set(v)`: the elements of a list, the one-character strings
      of a string, and a TypeError for `None`. */
  function AsSet(v: PyValue): (r: Option<set<string>>)
    ensures r.None? <==> v.PyNone?
    ensures v.PyList? ==> r == Some(set x | x in v.items)
    ensures v.PyStr? ==> forall x :: x in r.value <==> |x| == 1 && x[0] in v.s
  {
    match v
    case PyNone => None
    case PyStr(s) =>
      var chars := set c | c in s :: [c];
      assert forall x :: |x| == 1 && x[0] in s ==> x in chars by {
        forall x | |x| == 1 && x[0] in s ensures x in chars { assert x == [x[0]]; }
      }
      Some(chars)
    case PyList(items) => Some(set x | x in items)
  }

  /** `is_correct(user, correct, qtype)`. It raises only when a multi
      answer or key is `None`, or when a blank answer or key is no string. */
  function IsCorrect(user: PyValue, key: PyValue, kind: string): (r: Outcome)
    ensures r.Raised? <==> (kind == "multi" && (user.PyNone? || key.PyNone?))
                           || (kind == "blank" && !(user.PyStr? && key.PyStr?))
    ensures r.Raised? ==> r.error == (if kind == "multi" then TypeError else AttributeError)
  {
    if kind == "single" then
      Returned(user == key)
    else if kind == "multi" then
      var u := AsSet(user);
      var k := AsSet(key);
      if u.None? || k.None? then Raised(TypeError) else Returned(u.value == k.value)
    else if kind == "blank" then
      if user.PyStr? && key.PyStr? then Returned(Normalize(user.s) == Normalize(key.s))
      else Raised(AttributeError)
    else
      Returned(false)
  }

  /** The answer key: `correct` for every kind but blank, `answer` for blank. */
  function AnswerKey(q: Question): Option<PyValue>
  {
    if q.kind != "blank" then q.correct else q.answer
  }

  /** Grading the user's answer to `q`: look up its key, then `is_correct`. */
  function Grade(q: Question, user: PyValue): (r: Outcome)
    ensures r == Raised(KeyError) <==> AnswerKey(q).None?
  {
    match AnswerKey(q)
    case None => Raised(KeyError)
    case Some(key) => IsCorrect(user, key, q.kind)
  }

  /** Blank questions are graded against `answer`, all others against
      `correct`; a missing key raises KeyError before anything is compared. */
  lemma {:induction false} GradeUsesKeyOfKind(q: Question, user: PyValue)
    ensures q.kind == "blank" ==>
              Grade(q, user) == if q.answer.None? then Raised(KeyError)
                                else IsCorrect(user, q.answer.value, "blank")
    ensures q.kind != "blank" ==>
              Grade(q, user) == if q.correct.None? then Raised(KeyError)
                                else IsCorrect(user, q.correct.value, q.kind)
  {
  }

  /** Single choice: exact equality, nothing else. */
  lemma {:induction false} SingleIsExactEquality(user: PyValue, key: PyValue)
    ensures IsCorrect(user, key, "single") == Returned(user == key)
  {
  }

  /** Single choice does not fold case, where blank does: two different
      texts that differ only in the case of ASCII letters are wrong as a
      single-choice answer and right as a blank one. */
  lemma {:induction false} SingleIsCaseSensitive(user: string, key: string)
    requires user != key && Lower(user) == Lower(key)
    ensures IsCorrect(PyStr(user), PyStr(key), "single") == Returned(false)
    ensures IsCorrect(PyStr(user), PyStr(key), "blank") == Returned(true)
  {
    NormalizeIgnoresCase(user, key);
  }

  /** Multi choice on two lists: correct iff they hold the same options. */
  lemma {:induction false} MultiIsSetEquality(user: seq<string>, key: seq<string>)
    ensures IsCorrect(PyList(user), PyList(key), "multi")
            == Returned(forall x :: x in user <==> x in key)
  {
    var u := set x | x in user;
    var k := set x | x in key;
    if forall x :: x in user <==> x in key {
      assert u == k;
    } else {
      var x :| !(x in user <==> x in key);
      assert x in u <==> x in user;
    }
  }

  /** Multi choice ignores the order of the ticked options and duplicates
      among them: any two answers holding the same options grade alike. */
  lemma {:induction false} MultiIgnoresOrderAndDuplicates(user: seq<string>, user': seq<string>, key: PyValue)
    requires forall x :: x in user <==> x in user'
    ensures IsCorrect(PyList(user), key, "multi") == IsCorrect(PyList(user'), key, "multi")
  {
    var u := set x | x in user;
    var u' := set x | x in user';
    assert u == u';
  }

  /** Multi choice against a key that is no list: `set(None)` raises, a
      string key is compared as the set of its characters. */
  lemma {:induction false} MultiNonListKey(user: seq<string>, key: PyValue)
    ensures key.PyNone? ==> IsCorrect(PyList(user), key, "multi") == Raised(TypeError)
    ensures key.PyStr? && IsCorrect(PyList(user), key, "multi") == Returned(true) ==>
              forall x :: x in user ==> |x| == 1 && x[0] in key.s
  {
    if key.PyStr? && IsCorrect(PyList(user), key, "multi") == Returned(true) {
      forall x | x in user ensures |x| == 1 && x[0] in key.s {
        assert x in AsSet(PyList(user)).value;
      }
    }
  }

  /** Blank: correct iff both sides are equal after strip and lower. */
  lemma {:induction false} BlankIsNormalizedEquality(user: string, key: string)
    ensures IsCorrect(PyStr(user), PyStr(key), "blank")
            == Returned(Normalize(user) == Normalize(key))
  {
  }

  /** Blank answers that are not strings raise AttributeError. */
  lemma {:induction false} BlankNeedsStrings(user: PyValue, key: PyValue)
    requires !user.PyStr? || !key.PyStr?
    ensures IsCorrect(user, key, "blank") == Raised(AttributeError)
  {
  }

  /** Blank grading is insensitive to the case of ASCII letters and to
      whitespace around the answer. */
  lemma {:induction false} BlankIgnoresCaseAndSpace(w1: string, user: string, w2: string, user': string, key: string)
    requires AllSpace(w1) && AllSpace(w2)
    requires Lower(user) == Lower(user')
    ensures IsCorrect(PyStr(w1 + user + w2), PyStr(key), "blank")
            == IsCorrect(PyStr(user'), PyStr(key), "blank")
  {
    NormalizeIgnoresSurroundingSpace(w1, user, w2);
    NormalizeIgnoresCase(user, user');
  }

  /** Blank grading is symmetric in the user's text and the key. */
  lemma {:induction false} BlankIsSymmetric(user: string, key: string)
    ensures IsCorrect(PyStr(user), PyStr(key), "blank")
            == IsCorrect(PyStr(key), PyStr(user), "blank")
  {
  }

  /** Any other kind grades as incorrect, whatever the answer and key. */
  lemma {:induction false} OtherKindIsIncorrect(user: PyValue, key: PyValue, kind: string)
    requires kind != "single" && kind != "multi" && kind != "blank"
    ensures IsCorrect(user, key, kind) == Returned(false)
  {
  }
}
