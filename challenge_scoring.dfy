/**
 * Answer checking and scoring for one submission: `validate_answer` with its
 * structured (per-question) and legacy modes, the points formula, the
 * "challenge fully completed" rule behind the 409 answer, and hint
 * dispensing. JSON decoding, `float()` and `re` are library functions the
 * model takes as parameters.
 */
module ChallengeScoring {
  import opened Wrappers
  import opened Json
  import Strings
  import Sequences
  import P = ProgressModel

  /** The library calls `validate_answer` makes; `None` is the exception each may raise. */
  datatype Library = Library(
    loads: string -> Option<Value>,              // json.loads; None is JSONDecodeError
    parseFloat: string -> Option<PyFloat>,       // float(s); None is ValueError
    regexMatch: (string, string) -> Option<bool>) // re.compile(p, re.I).match(s); None is re.error

  /** A Python float as `float()` returns it: a finite value, an infinity or NaN. */
  datatype PyFloat = Finite(value: real) | Infinity(positive: bool) | NaN

  /** Float `==`: NaN equals nothing, itself included. */
  predicate FloatEq(x: PyFloat, y: PyFloat)
  {
    !x.NaN? && x == y
  }

  /** What `validate_answer` produces: a verdict, or an exception it does not catch (the route answers 500). */
  datatype Validation = Verdict(correct: bool) | Raised

  /** The outcome of the structured (`questions`) part; `Legacy` is "fall through to the legacy check". */
  datatype Structured = Decided(correct: bool) | StructuredRaised | Legacy

  /** The columns of a challenge that answer checking reads. */
  datatype AnswerKey = AnswerKey(
    questions: Value,                 // the `questions` JSON column (may hold an encoded string)
    correctAnswer: Option<string>,
    answerType: Option<string>,
    validationRegex: Option<string>)

  // ---------------------------------------------------------------------------
  // Pieces of Python semantics the checks rely on

  /** `f"question_{q['id']}"`; `None` when `q` is not a dict with an `id` (TypeError or KeyError). */
  function QuestionKey(q: Value): (k: Option<string>)
    ensures k.Some? <==> q.JObject? && HasKey(q.fields, "id")
    ensures k.Some? ==> Strings.StartsWith(k.value, "question_")
  {
    if q.JObject? && HasKey(q.fields, "id") then Some("question_" + PyStr(Get(q.fields, "id").value)) else None
  }

  /** `key in container`; `None` when the container does not support `in` with a string (TypeError). */
  function In(key: string, container: Value): Option<bool>
  {
    match container
    case JObject(fs) => Some(HasKey(fs, key))
    case JArray(xs) => Some(JStr(key) in xs)
    case JStr(s) => Some(Strings.Contains(s, key))
    case _ => None
  }

  /** Answer comparison by `answer_format` (already lower-cased); both sides are already stripped. */
  function FormatMatch(lib: Library, format: string, correct: string, submitted: string): bool
  {
    if format == "number" then
      match (lib.parseFloat(correct), lib.parseFloat(submitted))
      case (Some(x), Some(y)) => FloatEq(x, y)
      case _ => correct == submitted
    else
      Strings.Lower(correct) == Strings.Lower(submitted)
  }

  /**
   * Checking one question `q` (a dict with `correct_answer`) against the
   * submitted value: `None` when `.strip()` or `.lower()` meets a non-string
   * (AttributeError, not caught by `validate_answer`).
   */
  function CheckQuestion(lib: Library, q: seq<(string, Value)>, submitted: Value): (r: Option<bool>)
    requires HasKey(q, "correct_answer")
    ensures r.Some? <==> submitted.JStr? && Get(q, "correct_answer").value.JStr?
                         && GetOr(q, "answer_format", JStr("text")).JStr?
  {
    var correct := Get(q, "correct_answer").value;
    var format := GetOr(q, "answer_format", JStr("text"));
    if submitted.JStr? && correct.JStr? && format.JStr? then
      Some(FormatMatch(lib, Strings.Lower(format.s), Strings.Trim(correct.s), Strings.Trim(submitted.s)))
    else None
  }

  // ---------------------------------------------------------------------------
  // Single-key mode: find the question by key

  datatype Search = Found(question: seq<(string, Value)>) | NotFound | SearchError

  /** Every question before position `i` has a key, and it is not `key`: the loop went past them. */
  predicate BeforeMatch(questions: seq<Value>, key: string, i: nat)
    requires i <= |questions|
  {
    forall j :: 0 <= j < i ==> QuestionKey(questions[j]).Some? && QuestionKey(questions[j]) != Some(key)
  }

  /** The `for q in questions_data` search for `question_<id> == question_key`, first match wins. */
  function FindQuestion(questions: seq<Value>, key: string): (r: Search)
    ensures r.Found? ==> exists i :: 0 <= i < |questions| && questions[i] == JObject(r.question)
                                   && QuestionKey(questions[i]) == Some(key) && BeforeMatch(questions, key, i)
    ensures r.NotFound? ==> BeforeMatch(questions, key, |questions|)
    ensures r.SearchError? ==> exists i :: 0 <= i < |questions| && QuestionKey(questions[i]).None?
                                         && BeforeMatch(questions, key, i)
  {
    if questions == [] then NotFound
    else
      match QuestionKey(questions[0])
      case None => SearchError
      case Some(k) =>
        if k == key then Found(questions[0].fields)
        else
          var r := FindQuestion(questions[1..], key);
          assert r.NotFound? ==> BeforeMatch(questions, key, |questions|) by {
            if r.NotFound? { BeforeMatchCons(questions, key, |questions| - 1); }
          }
          assert r.Found? ==> exists i :: 0 <= i < |questions| && questions[i] == JObject(r.question)
                                      && QuestionKey(questions[i]) == Some(key) && BeforeMatch(questions, key, i) by {
            if r.Found? {
              var i :| 0 <= i < |questions[1..]| && questions[1..][i] == JObject(r.question)
                       && QuestionKey(questions[1..][i]) == Some(key) && BeforeMatch(questions[1..], key, i);
              BeforeMatchCons(questions, key, i);
              assert questions[i + 1] == questions[1..][i];
            }
          }
          assert r.SearchError? ==> exists i :: 0 <= i < |questions| && QuestionKey(questions[i]).None?
                                             && BeforeMatch(questions, key, i) by {
            if r.SearchError? {
              var i :| 0 <= i < |questions[1..]| && QuestionKey(questions[1..][i]).None? && BeforeMatch(questions[1..], key, i);
              BeforeMatchCons(questions, key, i);
              assert questions[i + 1] == questions[1..][i];
            }
          }
          r
  }

  /** Passing over a first question with another key extends the stretch passed by one. */
  lemma BeforeMatchCons(questions: seq<Value>, key: string, i: nat)
    requires 0 < |questions| && i < |questions|
    requires QuestionKey(questions[0]).Some? && QuestionKey(questions[0]) != Some(key)
    requires BeforeMatch(questions[1..], key, i)
    ensures BeforeMatch(questions, key, i + 1)
  {
    forall j | 0 < j < i + 1
      ensures QuestionKey(questions[j]).Some? && QuestionKey(questions[j]) != Some(key)
    {
      assert questions[j] == questions[1..][j - 1];
    }
  }

  /** The single-key branch once `question_key` is known to be in the answers. */
  function SingleKey(lib: Library, questions: seq<Value>, answers: Value, key: string): Structured
  {
    match FindQuestion(questions, key)
    case Found(q) =>
      if !HasKey(q, "correct_answer") then Legacy
      else if !answers.JObject? then Legacy           // list or str indexed by a str: TypeError
      else
        var checked := CheckQuestion(lib, q, Get(answers.fields, key).GetOr(JNull));
        if checked.Some? then Decided(checked.value) else StructuredRaised
    case _ => Legacy
  }

  // ---------------------------------------------------------------------------
  // All-questions mode

  /** One round of the all-questions loop: `Some(d)` stops the loop with outcome `d`, `None` goes on. */
  function QuestionStep(lib: Library, q: Value, answers: Value): (r: Option<Structured>)
    ensures r != Some(Decided(true))
  {
    match QuestionKey(q)
    case None => Some(Legacy)
    case Some(key) =>
      match In(key, answers)
      case None => Some(Legacy)
      case Some(present) =>
        if !present || !HasKey(q.fields, "correct_answer") then Some(Decided(false))
        else if !answers.JObject? then Some(Legacy)
        else
          match CheckQuestion(lib, q.fields, Get(answers.fields, key).GetOr(JNull))
          case None => Some(StructuredRaised)
          case Some(ok) => if ok then None else Some(Decided(false))
  }

  /** The all-questions loop over `questions` in order. */
  function AllQuestions(lib: Library, questions: seq<Value>, answers: Value): Structured
  {
    if questions == [] then Decided(true)
    else
      match QuestionStep(lib, questions[0], answers)
      case Some(d) => d
      case None => AllQuestions(lib, questions[1..], answers)
  }

  /** Question `q` is answered correctly in the dict `answers`. */
  predicate Passes(lib: Library, q: Value, answers: seq<(string, Value)>)
  {
    QuestionStep(lib, q, JObject(answers)).None?
  }

  lemma PassesMeans(lib: Library, q: Value, answers: seq<(string, Value)>)
    ensures Passes(lib, q, answers) <==>
      QuestionKey(q).Some? && HasKey(answers, QuestionKey(q).value) && HasKey(q.fields, "correct_answer")
      && CheckQuestion(lib, q.fields, Get(answers, QuestionKey(q).value).value) == Some(true)
  {
    var k := QuestionKey(q);
    var step := QuestionStep(lib, q, JObject(answers));
    if k.None? {
      assert step == Some(Legacy);
    } else {
      assert In(k.value, JObject(answers)) == Some(HasKey(answers, k.value));
      if !HasKey(answers, k.value) || !HasKey(q.fields, "correct_answer") {
        assert step == Some(Decided(false));
      } else {
        var c := CheckQuestion(lib, q.fields, Get(answers, k.value).value);
        assert Get(answers, k.value).GetOr(JNull) == Get(answers, k.value).value;
        assert step == (if c == Some(true) then None else if c.None? then Some(StructuredRaised) else Some(Decided(false)));
      }
    }
  }

  /**
   * With a dict of answers, all-questions mode accepts exactly when every
   * question has its key in the answers, has a correct answer, and matches.
   */
  lemma {:induction false} AllQuestionsIff(lib: Library, questions: seq<Value>, answers: seq<(string, Value)>)
    ensures AllQuestions(lib, questions, JObject(answers)) == Decided(true) <==>
      forall i :: 0 <= i < |questions| ==> Passes(lib, questions[i], answers)
  {
    if questions != [] {
      AllQuestionsIff(lib, questions[1..], answers);
      PassesCons(lib, questions, answers);
    }
  }

  /** Every question passes exactly when the first one does and every later one does. */
  lemma PassesCons(lib: Library, questions: seq<Value>, answers: seq<(string, Value)>)
    requires questions != []
    ensures (forall i :: 0 <= i < |questions| ==> Passes(lib, questions[i], answers)) <==>
      Passes(lib, questions[0], answers) && forall i :: 0 <= i < |questions[1..]| ==> Passes(lib, questions[1..][i], answers)
  {
    var rest := questions[1..];
    if forall i :: 0 <= i < |questions| ==> Passes(lib, questions[i], answers) {
      forall i | 0 <= i < |rest| ensures Passes(lib, rest[i], answers) {
        assert rest[i] == questions[i + 1];
      }
    }
    if Passes(lib, questions[0], answers) && forall i :: 0 <= i < |rest| ==> Passes(lib, rest[i], answers) {
      forall i | 0 <= i < |questions| ensures Passes(lib, questions[i], answers) {
        if i > 0 {
          assert questions[i] == rest[i - 1];
        }
      }
    }
  }

  // ---------------------------------------------------------------------------
  // The structured part as a whole

  /** `questions_data` after the optional `json.loads`; `None` when decoding fails. */
  function QuestionsData(lib: Library, column: Value): Option<Value>
  {
    if column.JStr? then lib.loads(column.s) else Some(column)
  }

  /** The structured validation mode applies: a non-empty list of questions. */
  predicate IsStructured(lib: Library, column: Value)
  {
    var d := QuestionsData(lib, column);
    d.Some? && d.value.JArray? && d.value.items != []
  }

  /** `submitted_answers` after the optional `json.loads`. */
  function DecodeAnswers(lib: Library, submitted: Value): Option<Value>
  {
    if submitted.JStr? then lib.loads(submitted.s) else Some(submitted)
  }

  /** The `try` block of the structured mode, for a non-empty question list. */
  function StructuredCheck(lib: Library, questions: seq<Value>, submitted: Value, questionKey: Option<string>): Structured
  {
    match DecodeAnswers(lib, submitted)
    case None => Legacy
    case Some(answers) =>
      if questionKey.Some? && questionKey.value != "" then
        match In(questionKey.value, answers)
        case None => Legacy
        case Some(present) =>
          if present then SingleKey(lib, questions, answers, questionKey.value)
          else AllQuestions(lib, questions, answers)
      else AllQuestions(lib, questions, answers)
  }

  // ---------------------------------------------------------------------------
  // Legacy mode

  /** The legacy check: the submitted value is turned into text with `str()` and stripped before any comparison. */
  function LegacyCheck(lib: Library, key: AnswerKey, submitted: Value): (v: Validation)
    ensures key.correctAnswer.None? || key.correctAnswer.value == "" ==> v == Verdict(false)
  {
    LegacyCompare(lib, key, Strings.Trim(PyStr(submitted)))
  }

  /** The legacy comparison of the stripped answer with the stored one, by answer type. */
  function LegacyCompare(lib: Library, key: AnswerKey, answer: string): (v: Validation)
    ensures key.correctAnswer.None? || key.correctAnswer.value == "" ==> v == Verdict(false)
  {
    if key.correctAnswer.None? || key.correctAnswer.value == "" then Verdict(false)
    else
      var correct := Strings.Trim(key.correctAnswer.value);
      var kind := key.answerType.GetOr("");
      if kind == "flag" then Verdict(Strings.Lower(correct) == Strings.Lower(answer))
      else if kind == "text" then
        if key.validationRegex.Some? && key.validationRegex.value != "" then
          match lib.regexMatch(key.validationRegex.value, answer)
          case Some(b) => Verdict(b)
          case None => Raised
        else Verdict(Strings.Lower(correct) == Strings.Lower(answer))
      else Verdict(correct == answer)
  }

  /** `validate_answer(challenge, submitted_answer, question_key)`. */
  function Validate(lib: Library, key: AnswerKey, submitted: Value, questionKey: Option<string>): Validation
  {
    var structured :=
      if IsStructured(lib, key.questions)
      then StructuredCheck(lib, QuestionsData(lib, key.questions).value.items, submitted, questionKey)
      else Legacy;
    match structured
    case Decided(b) => Verdict(b)
    case StructuredRaised => Raised
    case Legacy => LegacyCheck(lib, key, submitted)
  }

  /** The search loop of single-key mode. */
  method FindQuestionLoop(questions: seq<Value>, key: string) returns (r: Search)
    ensures r == FindQuestion(questions, key)
  {
    var i := 0;
    while i < |questions|
      invariant 0 <= i <= |questions|
      invariant FindQuestion(questions, key) == FindQuestion(questions[i..], key)
    {
      assert questions[i..][1..] == questions[i + 1..];
      var k := QuestionKey(questions[i]);
      if k.None? {
        return SearchError;
      }
      if k.value == key {
        return Found(questions[i].fields);
      }
      i := i + 1;
    }
    return NotFound;
  }

  /** The `all_correct` loop of all-questions mode. */
  method AllQuestionsLoop(lib: Library, questions: seq<Value>, answers: Value) returns (r: Structured)
    ensures r == AllQuestions(lib, questions, answers)
  {
    var allCorrect := true;
    var i := 0;
    while i < |questions|
      invariant 0 <= i <= |questions| && allCorrect
      invariant AllQuestions(lib, questions, answers) == AllQuestions(lib, questions[i..], answers)
    {
      assert questions[i..][1..] == questions[i + 1..];
      var step := QuestionStep(lib, questions[i], answers);
      if step == Some(Decided(false)) {
        allCorrect := false;
        break;
      } else if step.Some? {
        return step.value;
      }
      i := i + 1;
    }
    return Decided(allCorrect);
  }

  /** `validate_answer`: the structured attempt first, then legacy validation when it falls through. */
  method ValidateAnswer(lib: Library, key: AnswerKey, submitted: Value, questionKey: Option<string>)
    returns (v: Validation)
    ensures v == Validate(lib, key, submitted, questionKey)
  {
    var structured := Legacy;
    if IsStructured(lib, key.questions) {
      var questions := QuestionsData(lib, key.questions).value.items;
      structured := StructuredLoop(lib, questions, submitted, questionKey);
    }
    match structured {
      case Decided(b) => v := Verdict(b);
      case StructuredRaised => v := Raised;
      case Legacy => v := LegacyCheck(lib, key, submitted);
    }
  }

  /** The structured attempt: the mode the answers and the question key select, run by its loop. */
  method StructuredLoop(lib: Library, questions: seq<Value>, submitted: Value, questionKey: Option<string>)
    returns (structured: Structured)
    ensures structured == StructuredCheck(lib, questions, submitted, questionKey)
  {
    var answers := DecodeAnswers(lib, submitted);
    if answers.None? {
      return Legacy;
    }
    var keyed := questionKey.Some? && questionKey.value != "";
    var present := if keyed then In(questionKey.value, answers.value) else Some(false);
    if present.None? {
      structured := Legacy;
    } else if present.value {
      var search := FindQuestionLoop(questions, questionKey.value);
      structured := if search.Found? then SingleKey(lib, questions, answers.value, questionKey.value) else Legacy;
    } else {
      structured := AllQuestionsLoop(lib, questions, answers.value);
    }
  }

  // ---------------------------------------------------------------------------
  // Properties of answer checking

  /** The three ways into legacy validation. */
  lemma LegacyWhen(lib: Library, key: AnswerKey, submitted: Value, questionKey: Option<string>)
    ensures !IsStructured(lib, key.questions) ==> Validate(lib, key, submitted, questionKey) == LegacyCheck(lib, key, submitted)
    ensures IsStructured(lib, key.questions) && questionKey.Some? && questionKey.value != ""
      && DecodeAnswers(lib, submitted).Some? && In(questionKey.value, DecodeAnswers(lib, submitted).value) == Some(true)
      && (forall i :: 0 <= i < |QuestionsData(lib, key.questions).value.items| ==>
            var q := QuestionsData(lib, key.questions).value.items[i];
            QuestionKey(q).Some? && (QuestionKey(q) == questionKey ==> !HasKey(q.fields, "correct_answer")))
      ==> Validate(lib, key, submitted, questionKey) == LegacyCheck(lib, key, submitted)
  {
    if IsStructured(lib, key.questions) && questionKey.Some? && questionKey.value != "" {
      var qs := QuestionsData(lib, key.questions).value.items;
      var r := FindQuestion(qs, questionKey.value);
      if r.Found? {
        var i :| 0 <= i < |qs| && qs[i] == JObject(r.question) && QuestionKey(qs[i]) == Some(questionKey.value);
      }
    }
  }

  /** In single-key mode the found question decides alone, by its format. */
  lemma SingleKeyDecides(lib: Library, key: AnswerKey, answers: seq<(string, Value)>, questionKey: string, q: seq<(string, Value)>)
    requires questionKey != "" && HasKey(answers, questionKey) && HasKey(q, "correct_answer")
    ensures (IsStructured(lib, key.questions)
             && FindQuestion(QuestionsData(lib, key.questions).value.items, questionKey) == Found(q)
             && CheckQuestion(lib, q, Get(answers, questionKey).value).Some?) ==>
      Validate(lib, key, JObject(answers), Some(questionKey)) ==
        Verdict(CheckQuestion(lib, q, Get(answers, questionKey).value).value)
  {
    if IsStructured(lib, key.questions)
      && FindQuestion(QuestionsData(lib, key.questions).value.items, questionKey) == Found(q)
      && CheckQuestion(lib, q, Get(answers, questionKey).value).Some?
    {
      var questions := QuestionsData(lib, key.questions).value.items;
      assert DecodeAnswers(lib, JObject(answers)) == Some(JObject(answers));
      assert In(questionKey, JObject(answers)) == Some(true);
      assert Get(answers, questionKey).GetOr(JNull) == Get(answers, questionKey).value;
      assert SingleKey(lib, questions, JObject(answers), questionKey) ==
        Decided(CheckQuestion(lib, q, Get(answers, questionKey).value).value);
      assert StructuredCheck(lib, questions, JObject(answers), Some(questionKey)) ==
        SingleKey(lib, questions, JObject(answers), questionKey);
    }
  }

  /** Text-like formats compare case-insensitively after stripping. */
  lemma TextFormatsIgnoreCase(lib: Library, format: string, correct: string, submitted: string)
    requires format != "number"
    ensures FormatMatch(lib, format, correct, submitted) <==> Strings.Lower(correct) == Strings.Lower(submitted)
  {
  }

  /** Every format accepts the stored answer itself, unless it is a number that parses as NaN. */
  lemma FormatAcceptsOwnAnswer(lib: Library, format: string, answer: string)
    requires format == "number" ==> lib.parseFloat(answer) != Some(NaN)
    ensures FormatMatch(lib, format, answer, answer)
  {
  }

  /** A `number` question whose stored answer parses as NaN accepts no answer at all, not even its own. */
  lemma NaNAnswerMatchesNothing(lib: Library, answer: string, submitted: string)
    requires lib.parseFloat(answer) == Some(NaN)
    ensures !FormatMatch(lib, "number", answer, submitted)
  {
  }

  /** Legacy mode accepts the stored answer itself, unless a text challenge delegates to its regex. */
  lemma LegacyAcceptsOwnAnswer(lib: Library, key: AnswerKey)
    requires key.correctAnswer.Some? && key.correctAnswer.value != ""
    requires key.answerType != Some("text") || key.validationRegex.None? || key.validationRegex.value == ""
    ensures LegacyCheck(lib, key, JStr(key.correctAnswer.value)) == Verdict(true)
  {
  }

  /** Every legacy check, the regex included, sees the answer with its surrounding whitespace stripped. */
  lemma LegacyIgnoresPadding(lib: Library, key: AnswerKey, answer: string, pad: string)
    requires forall k :: 0 <= k < |pad| ==> Strings.IsSpace(pad[k])
    ensures LegacyCheck(lib, key, JStr(pad + answer + pad)) == LegacyCheck(lib, key, JStr(answer))
  {
    var padded := pad + answer + pad;
    assert LegacyCheck(lib, key, JStr(padded)) == LegacyCompare(lib, key, Strings.Trim(padded));
    assert LegacyCheck(lib, key, JStr(answer)) == LegacyCompare(lib, key, Strings.Trim(answer));
    Strings.TrimPadded(pad, answer);
  }

  // ---------------------------------------------------------------------------
  // Points

  /** Python `int(x)` on a float: truncation toward zero. */
  function Trunc(x: real): (n: int)
    ensures x >= 0.0 ==> n as real <= x < n as real + 1.0
    ensures x < 0.0 ==> n as real - 1.0 < x <= n as real
  {
    if x >= 0.0 then x.Floor else -((-x).Floor)
  }

  /** The points after the hint penalty, before the speed bonus. */
  function HintAdjusted(points: int, hintsUsed: int): (a: int)
  {
    if hintsUsed > 0 then
      var penalty := if (hintsUsed * 10) as real <= points as real * 0.3 then (hintsUsed * 10) as real else points as real * 0.3;
      var reduced := Trunc(points as real - penalty);
      var half := points / 2;   // Python's floor division; equal to Euclidean division for divisor 2
      if reduced >= half then reduced else half
    else points
  }

  /** `points_awarded` for one submission. */
  function PointsAwarded(isCorrect: bool, points: int, hintsUsed: int, completionTime: Option<real>, timeLimit: Option<int>): (r: int)
    ensures !isCorrect ==> r == 0
  {
    if !isCorrect then 0
    else
      var a := HintAdjusted(points, hintsUsed);
      if P.SpeedBonus(completionTime, timeLimit) then Trunc(a as real * 1.2) else a
  }

  /** With hints the award stays between half the points and the full points, and loses at most 30%. */
  lemma HintPenaltyBounds(points: nat, hintsUsed: int)
    ensures points / 2 <= HintAdjusted(points, hintsUsed) <= points
    ensures Trunc(points as real * 0.7) <= HintAdjusted(points, hintsUsed)
    ensures hintsUsed <= 0 ==> HintAdjusted(points, hintsUsed) == points
    ensures hintsUsed > 0 && (hintsUsed * 10) as real <= points as real * 0.3 ==>
      HintAdjusted(points, hintsUsed) == if points - hintsUsed * 10 >= points / 2 then points - hintsUsed * 10 else points / 2
  {
    if hintsUsed > 0 {
      var penalty := if (hintsUsed * 10) as real <= points as real * 0.3 then (hintsUsed * 10) as real else points as real * 0.3;
      assert points as real - penalty >= points as real * 0.7;
      TruncMonotone(points as real * 0.7, points as real - penalty);
      TruncMonotone(points as real - penalty, points as real);
      TruncInt(points);
      if (hintsUsed * 10) as real <= points as real * 0.3 {
        TruncInt(points - hintsUsed * 10);
      }
    }
  }

  lemma TruncMonotone(x: real, y: real)
    requires 0.0 <= x <= y
    ensures Trunc(x) <= Trunc(y)
  {
  }

  lemma TruncInt(n: int)
    ensures Trunc(n as real) == n
  {
  }

  /** The speed bonus adds 20% (truncated) exactly when the time is within half the limit. */
  lemma SpeedBonusRule(points: nat, hintsUsed: int, completionTime: Option<real>, timeLimit: Option<int>)
    ensures var a := HintAdjusted(points, hintsUsed);
      PointsAwarded(true, points, hintsUsed, completionTime, timeLimit) ==
        if P.SpeedBonus(completionTime, timeLimit) then Trunc(a as real * 1.2) else a
    ensures HintAdjusted(points, hintsUsed) <= PointsAwarded(true, points, hintsUsed, completionTime, timeLimit)
    ensures PointsAwarded(true, points, hintsUsed, completionTime, timeLimit) <= points + points / 5
  {
    HintPenaltyBounds(points, hintsUsed);
    var a := HintAdjusted(points, hintsUsed);
    if P.SpeedBonus(completionTime, timeLimit) {
      TruncInt(a);
      TruncMonotone(a as real, a as real * 1.2);
      TruncMonotone(a as real * 1.2, points as real * 1.2);
      assert points as real * 1.2 < (points + points / 5 + 1) as real;
    }
  }

  // ---------------------------------------------------------------------------
  // Completion and the 409 rule

  datatype Completion = AllAnswered | Partial | ParseError

  /**
   * The completion count of `submit_answer`: the number of questions
   * (1 without questions) against the number of answers in the stored
   * submission (1 unless it is a dict).
   */
  function CompletionOf(lib: Library, storedAnswer: Value, questionsColumn: Value): Completion
  {
    match (DecodeAnswers(lib, storedAnswer), QuestionsData(lib, questionsColumn))
    case (Some(answers), Some(questions)) =>
      var total := if Truthy(questions) then PyLen(questions) else Some(1);
      if total.None? then ParseError
      else
        var answered := if answers.JObject? then DictSize(answers.fields) else 1;
        if answered >= total.value then AllAnswered else Partial
    case _ => ParseError
  }

  /** A re-submission gets 409 only when the earlier correct submission is known to be complete. */
  predicate AlreadyCompleted(c: Completion)
  {
    c == AllAnswered
  }

  /** After a correct submission the challenge counts as fully completed unless the count says partial. */
  predicate FullyCompleted(c: Completion)
  {
    c != Partial
  }

  /** The two uses disagree only on undecodable data: no 409, yet counted complete. */
  lemma CompletionRules(c: Completion)
    ensures AlreadyCompleted(c) ==> FullyCompleted(c)
    ensures c == ParseError ==> !AlreadyCompleted(c) && FullyCompleted(c)
  {
  }

  lemma {:induction false} DictSizeBounds(fs: seq<(string, Value)>)
    ensures DictSize(fs) <= |fs|
    ensures Sequences.NoDuplicates(Keys(fs)) ==> DictSize(fs) == |fs|
  {
    DistinctLength(Keys(fs));
  }

  lemma {:induction false} DistinctLength(xs: seq<string>)
    ensures |Sequences.Distinct(xs)| <= |xs|
    ensures Sequences.NoDuplicates(xs) ==> Sequences.Distinct(xs) == xs
  {
    if xs != [] {
      var init := xs[..|xs| - 1];
      DistinctLength(init);
      if Sequences.NoDuplicates(xs) {
        assert Sequences.NoDuplicates(init);
        assert xs[|xs| - 1] !in init;
      }
    }
  }

  /**
   * A structured challenge whose stored submission is a dict with at least
   * as many distinct keys as there are questions is complete; a challenge
   * without questions is complete with any answer that is not a dict or a
   * string.
   */
  lemma CompletedWhenAllAnswered(lib: Library, answers: seq<(string, Value)>, questions: seq<Value>)
    requires forall i, j :: 0 <= i < j < |answers| ==> answers[i].0 != answers[j].0
    requires |answers| >= |questions| > 0
    ensures CompletionOf(lib, JObject(answers), JArray(questions)) == AllAnswered
  {
    assert Sequences.NoDuplicates(Keys(answers));
    DictSizeBounds(answers);
    CompletionOfDict(lib, answers, questions);
  }

  /** The count for a dict of answers against a list of questions. */
  lemma CompletionOfDict(lib: Library, answers: seq<(string, Value)>, questions: seq<Value>)
    ensures CompletionOf(lib, JObject(answers), JArray(questions)) ==
      if DictSize(answers) >= (if questions == [] then 1 else |questions|) then AllAnswered else Partial
  {
    assert DecodeAnswers(lib, JObject(answers)) == Some(JObject(answers));
    assert QuestionsData(lib, JArray(questions)) == Some(JArray(questions));
  }

  lemma NoQuestionsAnyAnswer(lib: Library, answer: Value)
    requires !answer.JStr? && !answer.JObject?
    ensures CompletionOf(lib, answer, JNull) == AllAnswered
    ensures CompletionOf(lib, answer, JArray([])) == AllAnswered
  {
  }

  /** `existing_answers.update(new_answers)`: later keys overwrite earlier ones. */
  function Merge(existing: seq<(string, Value)>, incoming: seq<(string, Value)>): (m: seq<(string, Value)>)
    ensures forall k :: HasKey(m, k) <==> HasKey(existing, k) || HasKey(incoming, k)
    ensures forall k :: Get(m, k) == if HasKey(incoming, k) then Get(incoming, k) else Get(existing, k)
  {
    assert forall k :: HasKey(existing + incoming, k) <==> HasKey(existing, k) || HasKey(incoming, k) by {
      forall k ensures HasKey(existing + incoming, k) <==> HasKey(existing, k) || HasKey(incoming, k) {
        if HasKey(existing + incoming, k) {
          var i :| 0 <= i < |existing + incoming| && (existing + incoming)[i].0 == k;
          if i >= |existing| {
            assert incoming[i - |existing|].0 == k;
          }
        }
        if HasKey(incoming, k) {
          var i :| 0 <= i < |incoming| && incoming[i].0 == k;
          assert (existing + incoming)[|existing| + i].0 == k;
        }
        if HasKey(existing, k) {
          var i :| 0 <= i < |existing| && existing[i].0 == k;
          assert (existing + incoming)[i].0 == k;
        }
      }
    }
    forall k ensures Get(existing + incoming, k) == if HasKey(incoming, k) then Get(incoming, k) else Get(existing, k) {
      GetConcat(existing, incoming, k);
    }
    existing + incoming
  }

  lemma {:induction false} GetConcat(a: seq<(string, Value)>, b: seq<(string, Value)>, k: string)
    ensures Get(a + b, k) == if HasKey(b, k) then Get(b, k) else Get(a, k)
  {
    if b != [] {
      var b' := b[..|b| - 1];
      assert (a + b)[..|a + b| - 1] == a + b';
      GetConcat(a, b', k);
    } else {
      assert a + b == a;
    }
  }

  // ---------------------------------------------------------------------------
  // Hints

  datatype HintOutcome =
    | HintRefused(status: int, message: string)
    | HintGiven(hint: string, hintNumber: int, totalHints: int, remaining: int)

  /**
   * `get_hint` after the challenge lookup. `hints` is `[]` for a NULL
   * column; `hintsUsed` is `None` without a progress record. `hints_used` is
   * taken to be non-negative (the column default is 0, and it only grows).
   */
  function NextHint(hints: seq<string>, hintsUsed: Option<nat>, completed: bool): (o: HintOutcome)
    ensures o.HintGiven? <==> hints != [] && hintsUsed.Some? && !completed && hintsUsed.value < |hints|
    ensures o.HintGiven? ==>
      (o.hint == hints[hintsUsed.value] && o.hintNumber == hintsUsed.value + 1
       && o.totalHints == |hints| && o.remaining == |hints| - o.hintNumber && 0 <= o.remaining < |hints|)
  {
    if hints == [] then HintRefused(404, "No hints available for this challenge")
    else if hintsUsed.None? then HintRefused(400, "You must start the challenge first")
    else if completed then HintRefused(400, "Challenge already completed")
    else if hintsUsed.value >= |hints| then HintRefused(404, "No more hints available")
    else HintGiven(hints[hintsUsed.value], hintsUsed.value + 1, |hints|, |hints| - hintsUsed.value - 1)
  }

  /** Asking `k` times from a fresh record hands out the first `k` hints in order. */
  function HintsHandedOut(hints: seq<string>, k: nat): seq<string>
    requires k <= |hints|
  {
    if k == 0 then [] else HintsHandedOut(hints, k - 1) + [NextHint(hints, Some(k - 1), false).hint]
  }

  lemma {:induction false} HintsInOrder(hints: seq<string>, k: nat)
    requires k <= |hints|
    ensures HintsHandedOut(hints, k) == hints[..k]
    ensures 0 < k == |hints| ==> NextHint(hints, Some(k), false) == HintRefused(404, "No more hints available")
  {
    if k > 0 {
      HintsInOrder(hints, k - 1);
      assert hints[..k] == hints[..k - 1] + [hints[k - 1]];
    }
  }

  /** The `hint_available` flag of a wrong answer. */
  predicate HintAvailable(hints: seq<string>, hintsUsed: int)
  {
    hints != [] && |hints| > hintsUsed
  }

  /** The `get_hint` route on an existing progress record: on success it counts the hint. */
  method GetHint(progress: P.UserProgress?, hints: seq<string>, completed: bool, now: int) returns (o: HintOutcome)
    requires progress != null ==> progress.hintsUsed >= 0
    modifies progress
    ensures o == NextHint(hints, if progress == null then None else Some(old(progress.hintsUsed) as nat), completed)
    ensures progress != null && o.HintGiven? ==> progress.State() == P.WithHint(old(progress.State()), now)
    ensures progress != null && !o.HintGiven? ==> progress.State() == old(progress.State())
  {
    o := NextHint(hints, if progress == null then None else Some(progress.hintsUsed as nat), completed);
    if o.HintGiven? {
      progress.UseHint(now);
    }
  }
}
