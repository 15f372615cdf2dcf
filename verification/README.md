# Agile quiz engine, modelled in Dafny

`agile.py` is a Streamlit script that runs a quiz over a bank of questions
of three kinds: `single` (one radio choice), `multi` (checkboxes) and
`blank` (free text). Its logic has two parts, and this project models both:

- the answer grader `is_correct(user, correct, qtype)` and the choice of
  answer key (`correct` for single and multi questions, `answer` for blank
  ones), with the exceptions Python raises on malformed keys
  (`grader.dfy`), over an ASCII model of `str.strip()` and `str.lower()`
  (`text.dfy`);
- the session: three fields `q_index`, `score` and `submitted`, set on first
  load and changed by the Submit, Next and Restart buttons
  (`session.dfy`), and the loop that gathers the ticked checkboxes of a
  multi-choice question into the user's answer (`collect.dfy`).

The session is specified on values (`SessionState`, `Step` for one button
press, `Run` for a sequence of them) and implemented by the class
`Session.Quiz`, whose fields are updated in place and whose methods are
proved to take exactly one `Step`. A button that is disabled or not shown
becomes the precondition of the method it triggers. Python values that
reach `is_correct` are `PyValue` (`None`, a string, or a list of strings). An
exception is an `Outcome.Raised`, not a precondition.

The session invariant is `0 <= q_index < len(questions)` and
`score <= q_index + (1 if submitted else 0) <= len(questions)`. `Step`
preserves it, and so does `Run` by induction. In the model, where the
Submit button is disabled as soon as `submitted` is set, the submissions of
a round are made at consecutive question indices. So in the model no
question is graded twice, and the score is the number of those graded
correct. The script itself reads the Submit guard one run late (see
"Left out").

Submit sets `submitted` before it grades (agile.py:46). So when grading
raises (a missing key, `set(None)`, `.strip()` on a list), the question stays
submitted and no point is added. The model keeps that order.

## Model

| member | source | states |
|---|---|---|
| `Text.SpaceCharacters` | agile.py:42 | what `IsSpace` counts as whitespace, character by character: space, tab, newline, vertical tab, form feed, carriage return and the separators 0x1C..0x1F, and never a letter or digit |
| `Text.LStrip` | agile.py:42 | the left strip of `strip()`: result is a suffix of the input, the dropped prefix is all whitespace, and the result does not start with whitespace |
| `Text.RStrip` | agile.py:42 | the right strip of `strip()`: result is a prefix, the dropped suffix is all whitespace, and the result does not end with whitespace |
| `Text.Strip` | agile.py:42 | `strip()`: result is no longer than the input and neither of its ends is whitespace |
| `Text.StripIsTrimmedInfix` | agile.py:42 | what `strip()` keeps is one contiguous piece of the input, with only whitespace on either side of it |
| `Text.LowerChar` | agile.py:42 | `lower()` on one character: an upper-case letter becomes the lower-case letter at the same place in the alphabet, every other character is unchanged; no upper-case letter results and whitespace stays whitespace |
| `Text.Lower` | agile.py:42 | `lower()`: same length; upper-case ASCII letters move up by 32, to the lower-case letter; every other character is kept |
| `Text.Normalize` | agile.py:42 | `strip().lower()`: no upper-case letter, no whitespace at either end, no longer than the input |
| `Text.StripSplit` | agile.py:42 | gives the position where the text kept by `strip()` starts: it is that slice of the input, with only whitespace before and after it |
| `Text.NormalizeSplit` | agile.py:42 | gives the position of the piece that `strip().lower()` lower-cases: the normal form is `lower()` of that slice, with only whitespace before and after it |
| `Text.NormalizeIsLoweredTrimmedInfix` | agile.py:42 | the normal form is exactly the lower-cased piece of the input left after removing the whitespace on both sides |
| `Text.NormalizeIgnoresCase` | agile.py:42 | texts that differ only in the case of ASCII letters normalise to the same text |
| `Text.StripIgnoresSpacePrefix` | agile.py:42 | whitespace added before a text does not change its strip |
| `Text.StripIgnoresSpaceSuffix` | agile.py:42 | whitespace added after a text does not change its strip |
| `Text.LStripAllSpace` | agile.py:42 | a text made only of whitespace strips to the empty text |
| `Text.StripIgnoresSurroundingSpace` | agile.py:42 | whitespace added before and after a text does not change its strip |
| `Text.NormalizeIgnoresSurroundingSpace` | agile.py:42 | whitespace added before and after a text does not change its normal form |
| `Text.NormalizeIdempotent` | agile.py:42 | normalising a normal form changes nothing |
| `Grader.AsSet` | agile.py:40 | Python `set(v)`: TypeError exactly for `None`, the elements of a list, the one-character strings of a string |
| `Grader.IsCorrect` | agile.py:36-43 | `is_correct` raises exactly when a multi answer or key is `None` (TypeError) or a blank answer or key is not a string (AttributeError). What it returns otherwise is stated per kind by `SingleIsExactEquality`, `MultiIsSetEquality`, `BlankIsNormalizedEquality`, `BlankNeedsStrings` and `OtherKindIsIncorrect` |
| `Grader.Grade` | agile.py:47-48 | grading raises KeyError exactly when the question lacks the key its kind uses; `GradeUsesKeyOfKind` states which key that is |
| `Grader.GradeUsesKeyOfKind` | agile.py:47-48 | blank questions are graded against `answer`, every other kind against `correct`; a missing key raises KeyError |
| `Grader.SingleIsExactEquality` | agile.py:37-38 | a single-choice answer is correct iff it equals the key exactly |
| `Grader.SingleIsCaseSensitive` | agile.py:37-42 | any two different texts that differ only in the case of ASCII letters are wrong as a single-choice answer and right as a blank one |
| `Grader.MultiIsSetEquality` | agile.py:39-40 | a multi-choice list answer is correct iff it holds the same options as the key list |
| `Grader.MultiIgnoresOrderAndDuplicates` | agile.py:39-40 | two answers that hold the same options, in any order and with any repeats, grade alike against every key |
| `Grader.MultiNonListKey` | agile.py:39-40 | a `None` key raises TypeError; against a string key only one-character answers drawn from that string can be correct |
| `Grader.BlankIsNormalizedEquality` | agile.py:41-42 | a blank answer is correct iff user text and key are equal after strip and lower |
| `Grader.BlankNeedsStrings` | agile.py:41-42 | a blank answer or key that is not a string raises AttributeError |
| `Grader.BlankIgnoresCaseAndSpace` | agile.py:41-42 | blank grading ignores surrounding whitespace and the case of ASCII letters in the user's text |
| `Grader.BlankIsSymmetric` | agile.py:41-42 | blank grading is symmetric in the user's text and the key |
| `Grader.OtherKindIsIncorrect` | agile.py:43 | any kind other than single, multi and blank grades as incorrect whatever the answer and key |
| `Collect.Selected` | agile.py:29-32 | the collected answer holds exactly the options that are ticked, and is no longer than the options list |
| `Collect.CollectChecked` | agile.py:29-32 | the loop over the options builds exactly `Selected(options, checked)` |
| `Collect.SelectedIsSubsequence` | agile.py:29-32 | the collected answer is a subsequence of the options: option order is kept |
| `Collect.SelectedKeepsDistinct` | agile.py:29-32 | if the options have no duplicates, the collected answer has none either |
| `Collect.TickingTheKeyIsCorrect` | agile.py:29-40 | ticking exactly the options of a key taken from the options gives an answer the multi grader accepts |
| `Session.Inv` | agile.py:21 | the invariant keeps `q_index` a valid index into the bank, and gives `0 <= score <= answered <= len(questions)` |
| `Session.Completed` | agile.py:55-61 | once the last question is submitted (the completion branch), a state satisfying the invariant is at the last index with every question answered |
| `Session.OneButtonAtATime` | agile.py:45-63 | which buttons `Enabled` allows: Submit exactly while not submitted; after a submission exactly one of Next and Restart; before it neither |
| `Session.Step` | agile.py:45-66 | each button press keeps the invariant. `submitted` holds afterwards iff the press was Submit. Restart gives the initial state. Otherwise the score never falls and grows by at most one. It grows by one exactly on a Submit graded correct. Submit adds one answered question, Next none |
| `Session.StepSubmit` | agile.py:45-50 | Submit keeps `q_index`, sets `submitted` and adds the point of the current question's answer |
| `Session.StepNext` | agile.py:55-59 | Next moves to the following question, clears `submitted` and keeps the score |
| `Session.Run` | agile.py:45-66 | every possible sequence of presses keeps the invariant |
| `Session.RunNeverFalls` | agile.py:45-59 | without Restart, no sequence of presses lowers the score or the number of answered questions |
| `Session.RunFirst` | agile.py:45-66 | running presses that start with an enabled one is running the rest from the state that press leads to |
| `Session.RoundAccounting` | agile.py:45-59 | within a round, the submissions are made at consecutive indices, one per answered question, so, under the guards as modelled, no question is graded twice. The score grows by exactly the number graded correct |
| `Session.WalkReachesLastQuestion` | agile.py:45-62 | submitting an answer to each question from `from` onward, with Next between them, ends at the last question, submitted, with one point per correct answer |
| `Session.SubmitThenNext` | agile.py:45-59 | submitting an answer before the last question and pressing Next gives the next question, unsubmitted, with that answer's point added |
| `Session.SubmitLast` | agile.py:45-61 | submitting the last question ends the round there, submitted, with that answer's point added |
| `Session.FullRoundCompletes` | agile.py:55-66 | a full round from the initial state ends completed (Restart available) with the score equal to the number of correct answers |
| `Session.Quiz.constructor` | agile.py:14-19 | first load: `q_index = 0`, `score = 0`, `submitted = False`, and the invariant holds |
| `Session.Quiz.CurrentQuestion` | agile.py:21 | the current question lookup is in range and returns `questions[q_index]` |
| `Session.Quiz.Submit` | agile.py:45-53 | only while not submitted. It sets `submitted` and grades the current question's answer. It adds 1 to `score` exactly when the grade is correct. `q_index` is unchanged |
| `Session.Quiz.Next` | agile.py:55-59 | only after submitting and before the last question: increments `q_index`, clears `submitted`, keeps `score` |
| `Session.Quiz.Restart` | agile.py:60-66 | only once the last question is submitted: resets all three fields to their initial values |

## Left out

- Streamlit rendering: titles, question text, the success, error and info messages, the displayed key and the final score line. These are display only. `Quiz.Submit` returns the grading outcome they show.
- Widgets: the radio choice and the text input are the `answer` parameter of `Quiz.Submit`. The ticked checkboxes are the `checked` set of `Collect.CollectChecked`. Widget keys, and the widget values that survive a Restart, are not modelled.
- Duplicate option texts in one multi question: they would give two checkboxes the same key, which Streamlit rejects with an exception. The model keys checkbox state by option text and does not model that exception.
- Loading the bank from `agile.json` and its caching are I/O. The bank is an immutable sequence passed to the constructor. JSON values other than `null`, strings and lists of strings (numbers, nested lists) are not modelled. Neither are records without `type` or `options`.
- An empty bank makes the question lookup at agile.py:21 raise IndexError on first load. `Quiz.constructor` requires a non-empty bank instead of modelling that crash.
- `Quiz.Submit`: the guard `!submitted` is idealised as read at the moment of the press. In the script, agile.py:45 computes `disabled=st.session_state.submitted` before agile.py:46 sets `submitted = True`, so the page drawn by the run that submits still shows an enabled Submit button beside Next or Restart. If Streamlit honours a press on that stale button, the current question is graded again and can score a second point (a one-question bank answered correctly and submitted twice would show "Your Score: 2 / 1"). The model does not capture that one-run lag, and its invariant `score <= answered` and the "no question graded twice" results hold only for the idealised guard.
- Streamlit's rerun of the whole script on every interaction, and `st.session_state` as storage. The session is an ordinary object whose methods run one at a time. The "initialise if absent" checks are the constructor, since all three fields are absent on first load.
- `Text.Lower`, `Text.LStrip`, `Text.RStrip`: Python's `str.lower()` and `str.strip()` are modelled on ASCII only. Non-ASCII case mapping and non-ASCII whitespace are not modelled.
