/** The quiz session: the three session fields `q_index`, `score` and
    `submitted`, and the Submit / Next / Restart buttons that change them.
    The state machine is specified on values (SessionState, Step, Run) and
    implemented by the class Quiz, whose methods are proved to take Step. */
module Session {
  import opened Grader

  /** The three session fields. */
  datatype SessionState = SessionState(qIndex: int, score: int, submitted: bool)

  /** The state on first load, and after Restart. */
  const Initial := SessionState(0, 0, false)

  /** A button press; Submit carries what the widgets hold at that moment. */
  datatype Event = Submit(answer: PyValue) | Next | Restart

  /** How many questions of the current round have been submitted: those
      before the current one, and the current one once it is submitted. */
  function Answered(s: SessionState): int
  {
    s.qIndex + (if s.submitted then 1 else 0)
  }

  /** The session invariant: the index can be used to look up the current
      question, and the score never exceeds the number of questions
      submitted in this round, hence never exceeds the size of the bank. */
  predicate Inv(bank: seq<Question>, s: SessionState)
    ensures Inv(bank, s) ==> 0 <= s.score <= Answered(s) <= |bank|
  {
    0 <= s.qIndex < |bank| && 0 <= s.score <= Answered(s)
  }

  /** The last question has been submitted: the completion message and the
      Restart button are shown. */
  predicate Completed(bank: seq<Question>, s: SessionState)
    ensures Inv(bank, s) && Completed(bank, s) ==> s.qIndex == |bank| - 1 && Answered(s) == |bank|
  {
    s.submitted && !(s.qIndex < |bank| - 1)
  }

  /** Which buttons can be pressed, in the model: Submit only while the
      current question is not submitted (the script draws its `disabled`
      flag before a submission sets `submitted`, so for one redraw the
      button still looks enabled; the model reads the flag at the press),
      Next after a submission before the last question, Restart after the
      last one. */
  predicate Enabled(bank: seq<Question>, s: SessionState, e: Event)
  {
    match e
    case Submit(_) => !s.submitted
    case Next => s.submitted && s.qIndex < |bank| - 1
    case Restart => Completed(bank, s)
  }

  /** In the model, exactly one button can be pressed in every state:
      Submit while the current question is not submitted, and afterwards
      either Next or Restart, depending on whether it is the last question. */
  lemma {:induction false} OneButtonAtATime(bank: seq<Question>, s: SessionState, answer: PyValue)
    ensures Enabled(bank, s, Submit(answer)) <==> !s.submitted
    ensures s.submitted ==> (Enabled(bank, s, Next) <==> !Enabled(bank, s, Restart))
    ensures !s.submitted ==> !Enabled(bank, s, Next) && !Enabled(bank, s, Restart)
  {
  }

  /** One button press. Submit marks the question submitted before grading,
      so a grading that raises leaves it submitted without a point. */
  function Step(bank: seq<Question>, s: SessionState, e: Event): (t: SessionState)
    requires Inv(bank, s) && Enabled(bank, s, e)
    ensures Inv(bank, t)
    ensures t.submitted <==> e.Submit?
    ensures e.Restart? ==> t == Initial
    ensures !e.Restart? ==> s.score <= t.score <= s.score + 1
    ensures t.score == s.score + 1 <==> e.Submit? && Grade(bank[s.qIndex], e.answer) == Returned(true)
    ensures Answered(t) == if e.Restart? then 0 else Answered(s) + (if e.Submit? then 1 else 0)
  {
    match e
    case Submit(answer) =>
      var point := Point(bank[s.qIndex], answer);
      SessionState(s.qIndex, s.score + point, true)
    case Next =>
      SessionState(s.qIndex + 1, s.score, false)
    case Restart =>
      Initial
  }

  /** A sequence of button presses from `s`; None when some press is not
      possible at that point (its button is disabled or not shown). */
  function Run(bank: seq<Question>, s: SessionState, evs: seq<Event>): (r: Option<SessionState>)
    requires Inv(bank, s)
    ensures r.Some? ==> Inv(bank, r.value)
    decreases |evs|
  {
    if evs == [] then Some(s)
    else if !Enabled(bank, s, evs[0]) then None
    else Run(bank, Step(bank, s, evs[0]), evs[1..])
  }

  /** One submission: the index it was made at and how grading ended. */
  datatype Graded = Graded(index: int, outcome: Outcome)

  /** Without Restart, neither the score nor the number of answered
      questions ever falls. */
  lemma {:induction false} RunNeverFalls(bank: seq<Question>, s: SessionState, evs: seq<Event>)
    requires Inv(bank, s)
    requires forall i :: 0 <= i < |evs| ==> !evs[i].Restart?
    ensures Run(bank, s, evs).Some? ==>
              s.score <= Run(bank, s, evs).value.score && Answered(s) <= Answered(Run(bank, s, evs).value)
    decreases |evs|
  {
    if evs != [] && Enabled(bank, s, evs[0]) {
      var rest := evs[1..];
      assert forall i :: 0 <= i < |rest| ==> !rest[i].Restart? by {
        forall i | 0 <= i < |rest| ensures !rest[i].Restart? { assert rest[i] == evs[i + 1]; }
      }
      RunNeverFalls(bank, Step(bank, s, evs[0]), rest);
    }
  }

  /** The submissions made along a sequence of button presses. */
  function Log(bank: seq<Question>, s: SessionState, evs: seq<Event>): seq<Graded>
    requires Inv(bank, s)
    decreases |evs|
  {
    if evs == [] || !Enabled(bank, s, evs[0]) then []
    else
      var here := if evs[0].Submit? then [Graded(s.qIndex, Grade(bank[s.qIndex], evs[0].answer))] else [];
      here + Log(bank, Step(bank, s, evs[0]), evs[1..])
  }

  /** How many submissions of a log were graded correct. */
  function CountCorrect(log: seq<Graded>): nat
  {
    if log == [] then 0
    else (if log[0].outcome == Returned(true) then 1 else 0) + CountCorrect(log[1..])
  }

  /** Within a round (no Restart), each question is submitted at most once:
      the submissions are made at consecutive indices, one per question
      answered, and the score grows by exactly the number of them graded
      correct. From Initial this says that the score counts the distinct
      questions answered correctly. */
  lemma {:induction false} RoundAccounting(bank: seq<Question>, s: SessionState, evs: seq<Event>)
    requires Inv(bank, s)
    requires Run(bank, s, evs).Some?
    requires forall i :: 0 <= i < |evs| ==> !evs[i].Restart?
    ensures |Log(bank, s, evs)| == Answered(Run(bank, s, evs).value) - Answered(s)
    ensures forall i :: 0 <= i < |Log(bank, s, evs)| ==> Log(bank, s, evs)[i].index == Answered(s) + i
    ensures Run(bank, s, evs).value.score == s.score + CountCorrect(Log(bank, s, evs))
    decreases |evs|
  {
    if evs != [] {
      var s' := Step(bank, s, evs[0]);
      var rest := evs[1..];
      assert forall i :: 0 <= i < |rest| ==> !rest[i].Restart? by {
        forall i | 0 <= i < |rest| ensures !rest[i].Restart? { assert rest[i] == evs[i + 1]; }
      }
      RoundAccounting(bank, s', rest);
      var tail := Log(bank, s', rest);
      if evs[0].Submit? {
        var g := Graded(s.qIndex, Grade(bank[s.qIndex], evs[0].answer));
        assert Log(bank, s, evs) == [g] + tail;
        assert ([g] + tail)[1..] == tail;
      } else {
        assert Log(bank, s, evs) == [] + tail == tail;
      }
    }
  }

  /** The presses of one full round: submit each answer, pressing Next
      between two submissions. */
  function Walk(answers: seq<PyValue>): seq<Event>
    decreases |answers|
  {
    if answers == [] then []
    else if |answers| == 1 then [Submit(answers[0])]
    else [Submit(answers[0]), Next] + Walk(answers[1..])
  }

  /** How many of `answers`, given to the questions from index `from` on,
      grade correct. */
  function CorrectAnswers(bank: seq<Question>, from: int, answers: seq<PyValue>): nat
    requires 0 <= from && from + |answers| <= |bank|
    decreases |answers|
  {
    if answers == [] then 0
    else Point(bank[from], answers[0]) + CorrectAnswers(bank, from + 1, answers[1..])
  }

  /** Answering the questions from `from` to the last one, pressing Next in
      between, ends at the last question, submitted, with one point added
      per correct answer. */
  lemma {:induction false} WalkReachesLastQuestion(bank: seq<Question>, from: int, score: int, answers: seq<PyValue>)
    requires 0 <= from && |answers| > 0 && from + |answers| == |bank|
    requires 0 <= score <= from
    ensures Run(bank, SessionState(from, score, false), Walk(answers))
            == Some(SessionState(|bank| - 1, score + CorrectAnswers(bank, from, answers), true))
    decreases |answers|
  {
    var s := SessionState(from, score, false);
    var point := Point(bank[from], answers[0]);
    var last := SessionState(|bank| - 1, score + CorrectAnswers(bank, from, answers), true);
    if |answers| == 1 {
      assert answers == [answers[0]] && answers[1..] == [];
      assert CorrectAnswers(bank, from, answers) == point;
      SubmitLast(bank, s, answers[0]);
      assert Run(bank, s, Walk([answers[0]])) == Some(last);
    } else {
      var rest := answers[1..];
      var w := Walk(rest);
      var s2 := SessionState(from + 1, score + point, false);
      assert Walk(answers) == [Submit(answers[0]), Next] + w;
      PairThenRest(Submit(answers[0]), Next, w);
      assert CorrectAnswers(bank, from, answers) == point + CorrectAnswers(bank, from + 1, rest);
      SubmitThenNext(bank, s, answers[0], w);
      WalkReachesLastQuestion(bank, from + 1, score + point, rest);
      assert Run(bank, s2, w) == Some(last);
      assert Run(bank, s, Walk(answers)) == Run(bank, s2, w);
    }
  }

  /** Submitting the last question ends the walk. */
  lemma {:induction false} SubmitLast(bank: seq<Question>, s: SessionState, answer: PyValue)
    requires Inv(bank, s) && !s.submitted && s.qIndex == |bank| - 1
    ensures Run(bank, s, Walk([answer]))
            == Some(SessionState(s.qIndex, s.score + Point(bank[s.qIndex], answer), true))
  {
    StepSubmit(bank, s, answer);
    assert Walk([answer]) == [Submit(answer)] + [];
    RunFirst(bank, s, Submit(answer), []);
  }

  /** Submitting an answer and pressing Next moves to the next question,
      unsubmitted, with the point for that answer added. */
  lemma {:induction false} SubmitThenNext(bank: seq<Question>, s: SessionState, answer: PyValue, rest: seq<Event>)
    requires Inv(bank, s) && !s.submitted && s.qIndex + 1 < |bank|
    ensures Run(bank, s, [Submit(answer)] + ([Next] + rest))
            == Run(bank, SessionState(s.qIndex + 1, s.score + Point(bank[s.qIndex], answer), false), rest)
  {
    var point := Point(bank[s.qIndex], answer);
    RunSubmit(bank, s, answer, [Next] + rest);
    RunNext(bank, s.qIndex, s.score + point, rest);
  }

  /** The point one answer earns: 1 when it grades correct, else 0. */
  function Point(q: Question, answer: PyValue): (p: nat)
    ensures p <= 1
    ensures p == 1 <==> Grade(q, answer) == Returned(true)
  {
    if Grade(q, answer) == Returned(true) then 1 else 0
  }

  /** Submit keeps the index, marks the question submitted and adds its point. */
  lemma {:induction false} StepSubmit(bank: seq<Question>, s: SessionState, answer: PyValue)
    requires Inv(bank, s) && !s.submitted
    ensures Step(bank, s, Submit(answer)) == SessionState(s.qIndex, s.score + Point(bank[s.qIndex], answer), true)
  {
  }

  /** Next moves to the following question, unsubmitted, keeping the score. */
  lemma {:induction false} StepNext(bank: seq<Question>, s: SessionState)
    requires Inv(bank, s) && s.submitted && s.qIndex < |bank| - 1
    ensures Step(bank, s, Next) == SessionState(s.qIndex + 1, s.score, false)
  {
  }

  /** Running a sequence that starts with an enabled press is running the
      rest from the state that press leads to. */
  lemma {:induction false} RunFirst(bank: seq<Question>, s: SessionState, e: Event, rest: seq<Event>)
    requires Inv(bank, s) && Enabled(bank, s, e)
    ensures Run(bank, s, [e] + rest) == Run(bank, Step(bank, s, e), rest)
  {
    assert ([e] + rest)[0] == e && ([e] + rest)[1..] == rest;
  }

  /** Two presses followed by `rest`, regrouped. */
  lemma {:induction false} PairThenRest(e1: Event, e2: Event, rest: seq<Event>)
    ensures [e1, e2] + rest == [e1] + ([e2] + rest)
  {
  }

  /** A run that starts with Submit continues from the submitted state,
      with the answer's point added. */
  lemma {:induction false} RunSubmit(bank: seq<Question>, s: SessionState, answer: PyValue, rest: seq<Event>)
    requires Inv(bank, s) && !s.submitted
    ensures Run(bank, s, [Submit(answer)] + rest)
            == Run(bank, SessionState(s.qIndex, s.score + Point(bank[s.qIndex], answer), true), rest)
  {
    StepSubmit(bank, s, answer);
    RunFirst(bank, s, Submit(answer), rest);
  }

  /** A run that starts with Next continues from the following question. */
  lemma {:induction false} RunNext(bank: seq<Question>, qIndex: int, score: int, rest: seq<Event>)
    requires Inv(bank, SessionState(qIndex, score, true)) && qIndex < |bank| - 1
    ensures Run(bank, SessionState(qIndex, score, true), [Next] + rest)
            == Run(bank, SessionState(qIndex + 1, score, false), rest)
  {
    StepNext(bank, SessionState(qIndex, score, true));
    RunFirst(bank, SessionState(qIndex, score, true), Next, rest);
  }

  /** A full round from the initial state ends completed, with Restart
      available, and the score equals the number of correct answers. */
  lemma {:induction false} FullRoundCompletes(bank: seq<Question>, answers: seq<PyValue>)
    requires |bank| > 0 && |answers| == |bank|
    ensures Run(bank, Initial, Walk(answers)).Some?
    ensures Completed(bank, Run(bank, Initial, Walk(answers)).value)
    ensures Run(bank, Initial, Walk(answers)).value.score == CorrectAnswers(bank, 0, answers)
  {
    WalkReachesLastQuestion(bank, 0, 0, answers);
  }

  /** The session object: the three fields, initialised on first load and
      changed in place by the three buttons. */
  class Quiz {
    const bank: seq<Question>
    var qIndex: int
    var score: int
    var submitted: bool

    function State(): SessionState
      reads this
    {
      SessionState(qIndex, score, submitted)
    }

    ghost predicate Valid()
      reads this
    {
      Inv(bank, State())
    }

    /** First load: all three fields start from zero. The bank must not be
        empty, since the current question is looked up right away. */
    constructor (bank: seq<Question>)
      requires |bank| > 0
      ensures this.bank == bank
      ensures State() == Initial && Valid()
    {
      this.bank := bank;
      qIndex := 0;
      score := 0;
      submitted := false;
    }

    /** The question on screen; the invariant keeps the lookup in range. */
    method CurrentQuestion() returns (q: Question)
      requires Valid()
      ensures 0 <= qIndex < |bank| && q == bank[qIndex]
    {
      q := bank[qIndex];
    }

    /** Whether the completion message and Restart are shown. */
    function IsCompleted(): bool
      reads this
    {
      Completed(bank, State())
    }

    /** The Submit button, enabled only while the current question is not
        submitted. Returns the grading outcome shown to the user. */
    method Submit(answer: PyValue) returns (outcome: Outcome)
      requires Valid() && !submitted
      modifies this
      ensures Valid()
      ensures outcome == Grade(bank[qIndex], answer)
      ensures qIndex == old(qIndex) && submitted
      ensures score == old(score) + (if outcome == Returned(true) then 1 else 0)
      ensures State() == Step(bank, old(State()), Event.Submit(answer))
    {
      submitted := true;
      outcome := Grade(bank[qIndex], answer);
      if outcome == Returned(true) {
        score := score + 1;
      }
    }

    /** The Next button, shown after a submission before the last question. */
    method Next()
      requires Valid() && submitted && qIndex < |bank| - 1
      modifies this
      ensures Valid()
      ensures qIndex == old(qIndex) + 1 && score == old(score) && !submitted
      ensures State() == Step(bank, old(State()), Event.Next)
    {
      qIndex := qIndex + 1;
      submitted := false;
    }

    /** The Restart button, shown once the last question is submitted. */
    method Restart()
      requires Valid() && IsCompleted()
      modifies this
      ensures Valid()
      ensures State() == Initial
      ensures State() == Step(bank, old(State()), Event.Restart)
    {
      qIndex := 0;
      score := 0;
      submitted := false;
    }
  }
}
