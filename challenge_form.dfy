/**
 * The form state shared by the admin's create- and edit-challenge modals:
 * the challenge fields, the editable hint and tool lists and the
 * structured questions, and the cleaning both apply before submitting.
 */
module ChallengeForm {
  import opened Strings
  import Sequences

  /** One structured question as the form holds it. */
  datatype Question = Question(
    id: int,
    question: string,
    answerFormat: string,
    correctAnswer: string,
    points: int,
    hints: seq<string>)

  /**
   * The form record. `categoryId` is 0 for the empty selection: the form
   * starts with `''`, and `''` and `0` are the values `!category_id` rejects.
   */
  datatype Form = Form(
    title: string,
    description: string,
    scenario: string,
    instructions: string,
    hints: seq<string>,
    questions: seq<Question>,
    suggestedTools: seq<string>,
    challengeType: string,
    difficulty: string,
    author: string,
    series: string,
    points: int,
    timeLimit: string,
    operatingSystem: string,
    categoryId: int,
    isPublished: bool,
    isFeatured: bool)

  /** The blank question both modals start from and append. */
  function BlankQuestion(id: int): (q: Question)
    ensures q.id == id && q.hints == [""] && q.points == 10 && q.answerFormat == "text"
  {
    Question(id, "", "text", "", 10, [""])
  }

  /** The blank form, with the given category selected. */
  function BlankForm(categoryId: int): (f: Form)
    ensures f.hints == [""] && f.suggestedTools == [""] && f.questions == [BlankQuestion(1)]
    ensures f.points == 100 && f.categoryId == categoryId && f.isPublished && !f.isFeatured
  {
    Form("", "", "", "", [""], [BlankQuestion(1)], [""], "investigation", "beginner", "", "", 100, "", "", categoryId, true, false)
  }

  /** The field an answer-row input edits: `updateQuestion(id, field, value)` and `handleQuestionChange(i, field, value)`. */
  datatype QuestionEdit = SetText(text: string) | SetFormat(format: string) | SetPoints(value: int) | SetAnswer(answer: string)

  /** `{ ...q, [field]: value }`. */
  function ApplyEdit(q: Question, e: QuestionEdit): (r: Question)
    ensures r.id == q.id && r.hints == q.hints
    ensures e.SetText? ==> r == q.(question := e.text)
    ensures e.SetFormat? ==> r == q.(answerFormat := e.format)
    ensures e.SetPoints? ==> r == q.(points := e.value)
    ensures e.SetAnswer? ==> r == q.(correctAnswer := e.answer)
  {
    match e
    case SetText(s) => q.(question := s)
    case SetFormat(s) => q.(answerFormat := s)
    case SetPoints(n) => q.(points := n)
    case SetAnswer(s) => q.(correctAnswer := s)
  }

  /** `s.trim() !== ''`: some character is not whitespace. */
  predicate NonBlank(s: string)
  {
    exists k :: 0 <= k < |s| && !IsSpace(s[k])
  }

  /** The character test agrees with trimming: a string is not blank exactly when its trim is not empty. */
  lemma NonBlankIsTrim(s: string)
    ensures NonBlank(s) <==> Trim(s) != ""
  {
    TrimEmptyIff(s);
  }

  /** The entries of a hint or tool list that are not blank, in order. */
  function Cleaned(xs: seq<string>): (r: seq<string>)
    ensures Sequences.IsSubsequence(r, xs)
    ensures forall k :: 0 <= k < |r| ==> NonBlank(r[k])
    ensures forall k :: 0 <= k < |xs| && NonBlank(xs[k]) ==> xs[k] in r
  {
    Sequences.Filter(xs, NonBlank)
  }

  /** A question the submit keeps: both its text and its answer are not blank. */
  predicate Complete(q: Question)
  {
    NonBlank(q.question) && NonBlank(q.correctAnswer)
  }

  /** The largest question id. */
  function MaxId(qs: seq<Question>): (m: int)
    requires qs != []
    ensures forall k :: 0 <= k < |qs| ==> qs[k].id <= m
    ensures exists k :: 0 <= k < |qs| && qs[k].id == m
  {
    if |qs| == 1 then qs[0].id
    else
      var rest := MaxId(qs[1..]);
      assert forall k :: 1 <= k < |qs| ==> qs[k] == qs[1..][k - 1];
      if qs[0].id >= rest then qs[0].id else rest
  }

  /** No two questions share an id. */
  predicate DistinctIds(qs: seq<Question>)
  {
    forall i, j :: 0 <= i < j < |qs| ==> qs[i].id != qs[j].id
  }

  /** A question appended with an id above every existing one keeps the ids distinct. */
  lemma AppendFresh(qs: seq<Question>, q: Question)
    requires DistinctIds(qs)
    requires forall k :: 0 <= k < |qs| ==> qs[k].id < q.id
    ensures DistinctIds(qs + [q])
  {
  }
}
