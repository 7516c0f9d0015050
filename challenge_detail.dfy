/**
 * The player's challenge page: the questions it shows, the answer and
 * hint state it keeps, the payload of one question's submission, the
 * decision that the whole challenge is now solved, and the tool icons.
 */
module ChallengeDetail {
  import opened Wrappers
  import opened Strings
  import opened Json

  /** A structured question as the API sends it; `None` is a missing or `null` field. */
  datatype StoredQuestion = StoredQuestion(
    id: int,
    question: string,
    answerFormat: Option<string>,
    points: Option<int>,
    hints: Option<seq<string>>)

  /** A question as the page renders it and keys its answer. */
  datatype Shown = Shown(key: string, number: int, question: string, format: string, points: int, hints: seq<string>)

  /** The challenge fields the page reads. */
  datatype Page = Page(
    questions: Option<seq<StoredQuestion>>,
    instructions: string,
    answerFormat: Option<string>,
    points: Option<int>)

  /** `question_<id>`: ids are printed in decimal, negative ones with a sign. */
  function QuestionKey(id: int): (k: string)
    ensures StartsWith(k, "question_")
  {
    "question_" + IntToString(id)
  }

  /** One structured question as shown: key from the id, format `text`, no points and no hints unless given. */
  function FromStored(q: StoredQuestion): (s: Shown)
    ensures s.key == QuestionKey(q.id) && s.number == q.id && s.question == q.question
    ensures s.format == (if q.answerFormat.Some? && q.answerFormat.value != "" then q.answerFormat.value else "text")
    ensures s.points == q.points.GetOr(0)
    ensures s.hints == q.hints.GetOr([])
  {
    Shown(QuestionKey(q.id), q.id,
          q.question,
          if q.answerFormat.Some? && q.answerFormat.value != "" then q.answerFormat.value else "text",
          if q.points.Some? then q.points.value else 0,
          q.hints.GetOr([]))
  }

  /** The question the page falls back to: one answer box keyed `answer`. */
  function SingleAnswer(p: Page): (s: Shown)
    ensures s.key == "answer" && s.number == 1 && s.hints == []
  {
    Shown("answer", 1, "Your Answer",
          if p.answerFormat.Some? && p.answerFormat.value != "" then p.answerFormat.value else "Text",
          if p.points.Some? then p.points.value else 0,
          [])
  }

  /**
   * `getQuestions`. `parsed` is what the free-text parser reads out of the
   * instructions; it is a parameter of the model.
   */
  function GetQuestions(p: Page, parsed: string -> seq<Shown>): (r: seq<Shown>)
    ensures r != []
    ensures p.questions.Some? && p.questions.value != [] ==>
      |r| == |p.questions.value| && forall k :: 0 <= k < |r| ==> r[k] == FromStored(p.questions.value[k])
    ensures !(p.questions.Some? && p.questions.value != []) && p.instructions != "" && parsed(p.instructions) != [] ==>
      r == parsed(p.instructions)
    ensures !(p.questions.Some? && p.questions.value != []) && (p.instructions == "" || parsed(p.instructions) == []) ==>
      r == [SingleAnswer(p)]
  {
    if p.questions.Some? && p.questions.value != [] then
      var qs := p.questions.value;
      seq(|qs|, k requires 0 <= k < |qs| => FromStored(qs[k]))
    else
      var fromText := if p.instructions != "" then parsed(p.instructions) else [];
      if fromText == [] then [SingleAnswer(p)] else fromText
  }

  /** With distinct structured ids the shown keys are distinct, so no two questions share an answer box. */
  lemma StructuredKeysDistinct(p: Page, parsed: string -> seq<Shown>)
    requires p.questions.Some? && p.questions.value != []
    requires forall i, j :: 0 <= i < j < |p.questions.value| ==> p.questions.value[i].id != p.questions.value[j].id
    ensures forall i, j :: 0 <= i < j < |GetQuestions(p, parsed)| ==> GetQuestions(p, parsed)[i].key != GetQuestions(p, parsed)[j].key
  {
    var r := GetQuestions(p, parsed);
    forall i, j | 0 <= i < j < |r| ensures r[i].key != r[j].key {
      if r[i].key == r[j].key {
        var a := p.questions.value[i].id;
        var b := p.questions.value[j].id;
        assert QuestionKey(a)[9..] == IntToString(a);
        assert QuestionKey(b)[9..] == IntToString(b);
        IntToStringInjective(a, b);
      }
    }
  }

  /** `handleAnswerChange`: the answer under one key replaced, the others kept. */
  function AnswerChange(answers: map<string, string>, key: string, value: string): (r: map<string, string>)
    ensures key in r && r[key] == value
    ensures forall k :: k != key ==> (k in r <==> k in answers) && (k in answers ==> r[k] == answers[k])
  {
    answers[key := value]
  }

  /** Whether a question's hints are shown: a missing entry is hidden. */
  predicate HintsShown(visible: map<int, bool>, id: int)
  {
    id in visible && visible[id]
  }

  /** `toggleQuestionHint`: `[id]: !prev[id]`. */
  function ToggleHint(visible: map<int, bool>, id: int): (r: map<int, bool>)
    ensures HintsShown(r, id) == !HintsShown(visible, id)
    ensures forall other :: other != id ==> HintsShown(r, other) == HintsShown(visible, other)
  {
    visible[id := !HintsShown(visible, id)]
  }

  /** Two toggles of the same question leave every question's hints as they were shown. */
  lemma ToggleTwice(visible: map<int, bool>, id: int, other: int)
    ensures HintsShown(ToggleHint(ToggleHint(visible, id), id), other) == HintsShown(visible, other)
  {
  }

  /** What `handleQuestionSubmit` posts: the trimmed answer under its key, and the key. */
  datatype Submission = Submission(answer: Value, questionKey: string)

  /**
   * The payload, or `None` when the answer is missing or blank and nothing
   * is sent. The page sends the answers object through `JSON.stringify`,
   * so the route receives this object as a JSON text and decodes it back.
   */
  function SubmitPayload(answers: map<string, string>, key: string): (r: Option<Submission>)
    ensures r.None? <==> key !in answers || Trim(answers[key]) == ""
    ensures r.Some? ==> r.value.questionKey == key && r.value.answer == JObject([(key, JStr(Trim(answers[key])))])
    ensures r.Some? ==> Get(r.value.answer.fields, key) == Some(JStr(Trim(answers[key])))
  {
    if key !in answers then None
    else
      var answer := Trim(answers[key]);
      if answer == "" then None else Some(Submission(JObject([(key, JStr(answer))]), key))
  }

  /** A submitted answer carries no surrounding whitespace. */
  lemma PayloadTrimmed(answers: map<string, string>, key: string)
    requires SubmitPayload(answers, key).Some?
    ensures SubmitPayload(answers, key).value.answer.fields[0].1.s == Trim(answers[key])
    ensures Trim(SubmitPayload(answers, key).value.answer.fields[0].1.s) == SubmitPayload(answers, key).value.answer.fields[0].1.s
  {
    TrimIdempotent(answers[key]);
  }

  /** A question's earlier result: whether it was judged correct; a missing entry is not. */
  predicate WasCorrect(submissions: map<string, bool>, key: string)
  {
    key in submissions && submissions[key]
  }

  /**
   * `allCorrect`, taken over the submissions as they were before this
   * answer: every question was correct before, or is the one just answered
   * and the answer was correct.
   */
  predicate AllCorrect(questions: seq<Shown>, submissions: map<string, bool>, key: string, isCorrect: bool)
  {
    forall q :: q in questions ==> WasCorrect(submissions, q.key) || (q.key == key && isCorrect)
  }

  /** A wrong answer never solves the challenge unless every question was already correct. */
  lemma WrongAnswerNeedsAllBefore(questions: seq<Shown>, submissions: map<string, bool>, key: string)
    ensures AllCorrect(questions, submissions, key, false) <==> forall q :: q in questions ==> WasCorrect(submissions, q.key)
  {
  }

  /** The last missing question, answered correctly, solves the challenge; any other missing one prevents it. */
  lemma LastAnswerSolves(questions: seq<Shown>, submissions: map<string, bool>, key: string)
    ensures AllCorrect(questions, submissions, key, true) <==>
      forall q :: q in questions && q.key != key ==> WasCorrect(submissions, q.key)
  {
  }

  /**
   * `handleHintRequest`: a hint already used is not requested again;
   * otherwise `useHint` is called, and only when the server accepts it
   * (`accepted`) is the index recorded. A rejected call shows a toast and
   * leaves the state unchanged.
   */
  function RequestHint(used: seq<int>, index: int, accepted: bool): (r: seq<int>)
    ensures index in used ==> r == used
    ensures index !in used && accepted ==> r == used + [index]
    ensures !accepted ==> r == used
    ensures index in r <==> index in used || accepted
  {
    if index in used then used else if accepted then used + [index] else used
  }

  /**
   * Once a hint is revealed, asking for it again changes nothing, whatever
   * the server would answer; each request adds at most one entry.
   */
  lemma RequestHintIdempotent(used: seq<int>, index: int, first: bool, again: bool)
    ensures index in RequestHint(used, index, first) ==>
      RequestHint(RequestHint(used, index, first), index, again) == RequestHint(used, index, first)
    ensures |RequestHint(used, index, first)| <= |used| + 1
  {
  }

  /** The tool icons, keyed by lower-cased tool name. */
  const ToolIcons: map<string, string> := map[
    "grep" := "\U{1F50D}", "wireshark" := "\U{1F988}", "excel" := "\U{1F4CA}", "text editor" := "\U{1F4DD}",
    "notepad" := "\U{1F4DD}", "vim" := "\U{1F4DD}", "nano" := "\U{1F4DD}", "burp suite" := "\U{1F6E1}\U{FE0F}",
    "nmap" := "\U{1F3AF}", "metasploit" := "\U{1F4A5}", "john" := "\U{1F513}", "hashcat" := "\U{1F510}",
    "sqlmap" := "\U{1F489}", "ffuf" := "\U{1F50D}", "gobuster" := "\U{1F4C2}", "nikto" := "\U{1F577}\U{FE0F}"]

  /** The wrench shown for every other tool. */
  const DefaultIcon: string := "\U{1F527}"

  /** The icon for a tool name: looked up in lower case, the wrench otherwise. */
  function ToolIcon(name: string): (icon: string)
    ensures Lower(name) in ToolIcons ==> icon == ToolIcons[Lower(name)]
    ensures Lower(name) !in ToolIcons ==> icon == DefaultIcon
  {
    var key := Lower(name);
    if key in ToolIcons then ToolIcons[key] else DefaultIcon
  }

  /** The lookup ignores case: a tool has the icon of its lower-cased name. */
  lemma ToolIconIgnoresCase(name: string)
    ensures ToolIcon(name) == ToolIcon(Lower(name))
  {
    LowerIdempotent(name);
  }
}
