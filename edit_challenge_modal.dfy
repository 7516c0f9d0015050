/**
 * The handlers of the admin's edit-challenge modal: loading a challenge
 * into the form with its defaults, the index-based list handlers (which,
 * unlike the create modal's, have no one-item minimum), the per-question
 * validation and the cleaned payload.
 */
module EditChallengeModal {
  import opened Wrappers
  import opened Strings
  import opened ChallengeForm
  import Sequences

  /** The challenge as the admin API returns it; `None` is a missing or `null` field. */
  datatype Loaded = Loaded(
    title: Option<string>,
    description: Option<string>,
    scenario: Option<string>,
    instructions: Option<string>,
    hints: Option<seq<string>>,
    questions: Option<seq<Question>>,
    suggestedTools: Option<seq<string>>,
    challengeType: Option<string>,
    difficulty: Option<string>,
    author: Option<string>,
    series: Option<string>,
    points: Option<int>,
    timeLimit: Option<string>,
    operatingSystem: Option<string>,
    categoryId: Option<int>,
    isPublished: Option<bool>,
    isFeatured: Option<bool>)

  /** `x || d` for a text field: the empty string is falsy too. */
  function TextOr(x: Option<string>, d: string): (r: string)
    ensures x.Some? && x.value != "" ==> r == x.value
    ensures x.None? || x.value == "" ==> r == d
  {
    if x.Some? && x.value != "" then x.value else d
  }

  /** `x || d` for a number field: 0 is falsy too. */
  function NumberOr(x: Option<int>, d: int): (r: int)
    ensures x.Some? && x.value != 0 ==> r == x.value
    ensures x.None? || x.value == 0 ==> r == d
  {
    if x.Some? && x.value != 0 then x.value else d
  }

  /** `xs && xs.length > 0 ? xs : d`. */
  function ListOr<T>(xs: Option<seq<T>>, d: seq<T>): (r: seq<T>)
    ensures xs.Some? && xs.value != [] ==> r == xs.value
    ensures xs.None? || xs.value == [] ==> r == d
  {
    if xs.Some? && xs.value != [] then xs.value else d
  }

  /** The form filled from a challenge when the modal opens. */
  function Load(c: Loaded): (f: Form)
    ensures f.hints != [] && f.suggestedTools != [] && f.questions != []
    ensures f.hints == ListOr(c.hints, [""]) && f.suggestedTools == ListOr(c.suggestedTools, [""])
    ensures f.questions == ListOr(c.questions, [BlankQuestion(1)])
    ensures f.points == NumberOr(c.points, 100) && f.points != 0
    ensures f.categoryId == NumberOr(c.categoryId, 0)
    ensures f.isPublished == (c.isPublished == Some(true)) && f.isFeatured == (c.isFeatured == Some(true))
    ensures f.title == TextOr(c.title, "") && f.challengeType == TextOr(c.challengeType, "investigation")
    ensures f.difficulty == TextOr(c.difficulty, "beginner")
  {
    Form(TextOr(c.title, ""), TextOr(c.description, ""), TextOr(c.scenario, ""), TextOr(c.instructions, ""),
         ListOr(c.hints, [""]), ListOr(c.questions, [BlankQuestion(1)]), ListOr(c.suggestedTools, [""]),
         TextOr(c.challengeType, "investigation"), TextOr(c.difficulty, "beginner"),
         TextOr(c.author, ""), TextOr(c.series, ""), NumberOr(c.points, 100),
         TextOr(c.timeLimit, ""), TextOr(c.operatingSystem, ""), NumberOr(c.categoryId, 0),
         c.isPublished == Some(true), c.isFeatured == Some(true))
  }

  /** A challenge saved with 0 points loads as 100, and one without questions loads one blank question. */
  lemma LoadDefaults(c: Loaded)
    requires c.points == Some(0) && c.questions == Some([])
    ensures Load(c).points == 100 && Load(c).questions == [BlankQuestion(1)]
  {
  }

  /** The two string lists the array handlers take by name. */
  datatype ListField = Hints | SuggestedTools

  function ListOf(f: Form, field: ListField): seq<string>
  {
    match field
    case Hints => f.hints
    case SuggestedTools => f.suggestedTools
  }

  function WithList(f: Form, field: ListField, xs: seq<string>): Form
  {
    match field
    case Hints => f.(hints := xs)
    case SuggestedTools => f.(suggestedTools := xs)
  }

  /** `handleArrayInputChange`: the item at `index` of the named list becomes `value`; nothing else changes. */
  function ArrayInputChange(f: Form, field: ListField, index: nat, value: string): (r: Form)
    ensures r == WithList(f, field, ListOf(r, field))
    ensures |ListOf(r, field)| == |ListOf(f, field)|
    ensures forall k :: 0 <= k < |ListOf(f, field)| ==>
      ListOf(r, field)[k] == (if k == index then value else ListOf(f, field)[k])
  {
    WithList(f, field, Sequences.ReplaceAt(ListOf(f, field), index, value))
  }

  /** `addArrayItem`: an empty item appended to the named list. */
  function AddArrayItem(f: Form, field: ListField): (r: Form)
    ensures r == WithList(f, field, ListOf(f, field) + [""])
    ensures ListOf(r, field) == ListOf(f, field) + [""]
  {
    WithList(f, field, ListOf(f, field) + [""])
  }

  /** `removeArrayItem`: the item at `index` dropped, with no lower bound on the length. */
  function RemoveArrayItem(f: Form, field: ListField, index: nat): (r: Form)
    ensures r == WithList(f, field, ListOf(r, field))
    ensures index < |ListOf(f, field)| ==> |ListOf(r, field)| == |ListOf(f, field)| - 1
    ensures ListOf(r, field) == Sequences.RemoveAt(ListOf(f, field), index)
  {
    WithList(f, field, Sequences.RemoveAt(ListOf(f, field), index))
  }

  /** Unlike the create modal, removing the last hint leaves no hint at all. */
  lemma RemoveLastHintEmpties(f: Form)
    requires |f.hints| == 1
    ensures RemoveArrayItem(f, Hints, 0).hints == []
  {
  }

  /** `handleQuestionChange`: one field of the question at `index`. */
  function QuestionChange(f: Form, index: nat, e: QuestionEdit): (r: Form)
    ensures r == f.(questions := r.questions) && |r.questions| == |f.questions|
    ensures forall k :: 0 <= k < |f.questions| ==>
      r.questions[k] == (if k == index then ApplyEdit(f.questions[k], e) else f.questions[k])
  {
    if index < |f.questions| then f.(questions := f.questions[index := ApplyEdit(f.questions[index], e)]) else f
  }

  /** `Math.max(...ids, 0) + 1`. */
  function NextId(qs: seq<Question>): (n: int)
    ensures n >= 1
    ensures forall k :: 0 <= k < |qs| ==> qs[k].id < n
    ensures qs == [] ==> n == 1
  {
    if qs == [] then 1
    else
      var m := MaxId(qs);
      if m > 0 then m + 1 else 1
  }

  /** `addQuestion`: a blank question with the next id. */
  function AddQuestion(f: Form): (r: Form)
    ensures |r.questions| == |f.questions| + 1 && r.questions[..|f.questions|] == f.questions
    ensures r.questions[|f.questions|] == BlankQuestion(NextId(f.questions))
    ensures forall k :: 0 <= k < |f.questions| ==> f.questions[k].id < r.questions[|f.questions|].id
    ensures r.(questions := f.questions) == f
  {
    f.(questions := f.questions + [BlankQuestion(NextId(f.questions))])
  }

  /** The new id is fresh, so distinct ids stay distinct; on an empty list it is 1. */
  lemma AddQuestionFresh(f: Form)
    requires DistinctIds(f.questions)
    ensures DistinctIds(AddQuestion(f).questions)
    ensures f.questions == [] ==> AddQuestion(f).questions == [BlankQuestion(1)]
  {
    AppendFresh(f.questions, BlankQuestion(NextId(f.questions)));
  }

  /** `removeQuestion`: the question at `index` dropped, with no lower bound on the length. */
  function RemoveQuestion(f: Form, index: nat): (r: Form)
    ensures r == f.(questions := Sequences.RemoveAt(f.questions, index))
    ensures index < |f.questions| ==> |r.questions| == |f.questions| - 1
  {
    f.(questions := Sequences.RemoveAt(f.questions, index))
  }

  /** A key of the error map: a form field, or the text or answer of the question at a position. */
  datatype ErrorKey = Field(name: string) | QuestionText(index: nat) | Answer(index: nat)

  /** The key as the component writes it: the field name, `question_<i>` or `answer_<i>`. */
  function KeyText(k: ErrorKey): string
  {
    match k
    case Field(name) => name
    case QuestionText(i) => "question_" + NatToString(i)
    case Answer(i) => "answer_" + NatToString(i)
  }

  /** The form-level fields `validateForm` reports on. */
  const FormFields: set<string> := {"title", "description", "instructions", "category_id", "questions"}

  /** Distinct keys have distinct texts, so no error overwrites another. */
  lemma KeyTextInjective(a: ErrorKey, b: ErrorKey)
    requires a.Field? ==> a.name in FormFields
    requires b.Field? ==> b.name in FormFields
    requires KeyText(a) == KeyText(b)
    ensures a == b
  {
    KeyTextShape(a);
    KeyTextShape(b);
    if a.QuestionText? && b.QuestionText? {
      assert KeyText(a)[9..] == NatToString(a.index) && KeyText(b)[9..] == NatToString(b.index);
      NatToStringInjective(a.index, b.index);
    } else if a.Answer? && b.Answer? {
      assert KeyText(a)[7..] == NatToString(a.index) && KeyText(b)[7..] == NatToString(b.index);
      NatToStringInjective(a.index, b.index);
    }
  }

  /** What tells the three kinds of key apart: the first character, and the ninth for `questions`. */
  lemma KeyTextShape(k: ErrorKey)
    requires k.Field? ==> k.name in FormFields
    ensures k.QuestionText? ==> |KeyText(k)| > 9 && KeyText(k)[0] == 'q' && KeyText(k)[8] == '_'
    ensures k.Answer? ==> |KeyText(k)| > 7 && KeyText(k)[0] == 'a'
    ensures k.Field? ==> KeyText(k)[0] != 'a' && (KeyText(k)[0] == 'q' ==> KeyText(k) == "questions")
    ensures k.Field? && KeyText(k)[0] == 'q' ==> |KeyText(k)| == 9 && KeyText(k)[8] == 's'
  {
  }

  /** The `forEach` over the questions: an error for each question without text or answer, keyed by position. */
  function QuestionErrors(qs: seq<Question>): (r: map<ErrorKey, string>)
    ensures forall key :: key in r ==> !key.Field? && key.index < |qs|
    ensures forall i :: 0 <= i < |qs| ==> (QuestionText(i) in r <==> !NonBlank(qs[i].question))
    ensures forall i :: 0 <= i < |qs| ==> (Answer(i) in r <==> !NonBlank(qs[i].correctAnswer))
  {
    var texts := map i | 0 <= i < |qs| && !NonBlank(qs[i].question) :: QuestionText(i) := "Question text is required";
    var answers := map i | 0 <= i < |qs| && !NonBlank(qs[i].correctAnswer) :: Answer(i) := "Correct answer is required";
    texts + answers
  }

  /** The form-level checks of `validateForm`, in order. */
  function FieldErrors(f: Form): (r: map<ErrorKey, string>)
    ensures Field("title") in r <==> !NonBlank(f.title)
    ensures Field("description") in r <==> !NonBlank(f.description)
    ensures Field("instructions") in r <==> !NonBlank(f.instructions)
    ensures Field("category_id") in r <==> f.categoryId == 0
    ensures Field("questions") in r <==> f.questions == []
    ensures forall key :: key in r ==> key.Field? && key.name in FormFields
  {
    var e0: map<ErrorKey, string> := map[];
    var e1 := if !NonBlank(f.title) then e0[Field("title") := "Title is required"] else e0;
    var e2 := if !NonBlank(f.description) then e1[Field("description") := "Description is required"] else e1;
    var e3 := if !NonBlank(f.instructions) then e2[Field("instructions") := "Instructions are required"] else e2;
    var e4 := if f.categoryId == 0 then e3[Field("category_id") := "Category is required"] else e3;
    if f.questions == [] then e4[Field("questions") := "At least one question is required"] else e4
  }

  /** `validateForm`'s error map: the form-level errors, then one per question without text or answer. */
  function Errors(f: Form): (r: map<ErrorKey, string>)
    ensures forall name :: Field(name) in r <==> Field(name) in FieldErrors(f)
    ensures forall i :: 0 <= i < |f.questions| ==> (QuestionText(i) in r <==> !NonBlank(f.questions[i].question))
    ensures forall i :: 0 <= i < |f.questions| ==> (Answer(i) in r <==> !NonBlank(f.questions[i].correctAnswer))
    ensures forall key :: key in r ==> (key.Field? ==> key.name in FormFields) && (!key.Field? ==> key.index < |f.questions|)
  {
    FieldErrors(f) + QuestionErrors(f.questions)
  }

  /** The form submits exactly when the title, description and instructions are not blank, a category is chosen, and there are questions, all with text and answer. */
  lemma ValidIff(f: Form)
    ensures Errors(f) == map[] <==>
      NonBlank(f.title) && NonBlank(f.description) && NonBlank(f.instructions) && f.categoryId != 0
      && f.questions != [] && forall i :: 0 <= i < |f.questions| ==> Complete(f.questions[i])
  {
    var r := Errors(f);
    var fe := FieldErrors(f);
    if r != map[] {
      var key :| key in r;
    }
    assert Field("title") in fe ==> Field("title") in r;
  }

  /** `handleSubmit`'s `challengeData`, apart from the attachments. */
  function Payload(f: Form): (r: Form)
    ensures r.(questions := f.questions, hints := f.hints, suggestedTools := f.suggestedTools) == f
    ensures Sequences.IsSubsequence(r.questions, f.questions)
    ensures forall k :: 0 <= k < |r.questions| ==> Complete(r.questions[k])
    ensures forall k :: 0 <= k < |f.questions| && Complete(f.questions[k]) ==> f.questions[k] in r.questions
    ensures Sequences.IsSubsequence(r.hints, f.hints) && forall k :: 0 <= k < |r.hints| ==> NonBlank(r.hints[k])
    ensures forall k :: 0 <= k < |f.hints| && NonBlank(f.hints[k]) ==> f.hints[k] in r.hints
    ensures Sequences.IsSubsequence(r.suggestedTools, f.suggestedTools)
    ensures forall k :: 0 <= k < |r.suggestedTools| ==> NonBlank(r.suggestedTools[k])
    ensures forall k :: 0 <= k < |f.suggestedTools| && NonBlank(f.suggestedTools[k]) ==> f.suggestedTools[k] in r.suggestedTools
  {
    f.(questions := Sequences.Filter(f.questions, Complete), hints := Cleaned(f.hints), suggestedTools := Cleaned(f.suggestedTools))
  }

  /** Once validation passes the question filter removes nothing; the hint and tool lists lose their blank entries. */
  lemma SubmittedQuestionsUnchanged(f: Form)
    requires Errors(f) == map[]
    ensures Payload(f).questions == f.questions
    ensures forall k :: 0 <= k < |Payload(f).hints| ==> NonBlank(Payload(f).hints[k])
    ensures forall k :: 0 <= k < |Payload(f).suggestedTools| ==> NonBlank(Payload(f).suggestedTools[k])
  {
    ValidIff(f);
    Sequences.FilterAll(f.questions, Complete);
  }
}
