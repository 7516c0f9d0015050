/**
 * The handlers of the admin's create-challenge modal: the hint, tool and
 * question lists with their one-item minimum, fresh question ids, the
 * validation, the cleaned payload and the reset after success.
 */
module CreateChallengeModal {
  import opened Strings
  import opened ChallengeForm
  import Sequences

  /**
   * What the handlers keep true of the form: every list has an entry,
   * every question has a hint, and question ids are distinct.
   */
  predicate WellFormed(f: Form)
  {
    f.hints != [] && f.suggestedTools != [] && f.questions != []
    && (forall k :: 0 <= k < |f.questions| ==> f.questions[k].hints != [])
    && DistinctIds(f.questions)
  }

  /** `handleHintChange`: the hint at `index` becomes `value`. */
  function SetHint(f: Form, index: nat, value: string): (r: Form)
    requires index < |f.hints|
    ensures r == f.(hints := r.hints) && |r.hints| == |f.hints|
    ensures r.hints[index] == value
    ensures forall k :: 0 <= k < |f.hints| && k != index ==> r.hints[k] == f.hints[k]
  {
    f.(hints := f.hints[index := value])
  }

  /** `addHint`: one empty hint appended. */
  function AddHint(f: Form): (r: Form)
    ensures r == f.(hints := f.hints + [""])
  {
    f.(hints := f.hints + [""])
  }

  /** `removeHint`: the hint at `index` dropped, unless it is the only one. */
  function RemoveHint(f: Form, index: nat): (r: Form)
    ensures |f.hints| <= 1 ==> r == f
    ensures |f.hints| > 1 ==> r == f.(hints := Sequences.RemoveAt(f.hints, index))
  {
    if |f.hints| > 1 then f.(hints := Sequences.RemoveAt(f.hints, index)) else f
  }

  /** `addTool`: one empty tool appended. */
  function AddTool(f: Form): (r: Form)
    ensures r == f.(suggestedTools := f.suggestedTools + [""])
  {
    f.(suggestedTools := f.suggestedTools + [""])
  }

  /** `removeTool`: the tool at `index` dropped, unless it is the only one. */
  function RemoveTool(f: Form, index: nat): (r: Form)
    ensures |f.suggestedTools| <= 1 ==> r == f
    ensures |f.suggestedTools| > 1 ==> r == f.(suggestedTools := Sequences.RemoveAt(f.suggestedTools, index))
  {
    if |f.suggestedTools| > 1 then f.(suggestedTools := Sequences.RemoveAt(f.suggestedTools, index)) else f
  }

  /** `addQuestion`: a blank question whose id is one more than the largest. */
  function AddQuestion(f: Form): (r: Form)
    requires f.questions != []
    ensures r == f.(questions := f.questions + [BlankQuestion(MaxId(f.questions) + 1)])
    ensures forall k :: 0 <= k < |f.questions| ==> f.questions[k].id < r.questions[|f.questions|].id
  {
    f.(questions := f.questions + [BlankQuestion(MaxId(f.questions) + 1)])
  }

  /** `removeQuestion`: the questions with that id dropped, unless only one question is left. */
  function RemoveQuestion(f: Form, id: int): (r: Form)
    ensures |f.questions| <= 1 ==> r == f
    ensures |f.questions| > 1 ==> r == f.(questions := Sequences.Filter(f.questions, (q: Question) => q.id != id))
  {
    if |f.questions| > 1 then f.(questions := Sequences.Filter(f.questions, (q: Question) => q.id != id)) else f
  }

  /** `updateQuestion`: one field of the question with that id. */
  function UpdateQuestion(f: Form, id: int, e: QuestionEdit): (r: Form)
    ensures r == f.(questions := r.questions) && |r.questions| == |f.questions|
    ensures forall k :: 0 <= k < |f.questions| ==>
      r.questions[k] == (if f.questions[k].id == id then ApplyEdit(f.questions[k], e) else f.questions[k])
  {
    f.(questions := seq(|f.questions|, k requires 0 <= k < |f.questions| =>
      if f.questions[k].id == id then ApplyEdit(f.questions[k], e) else f.questions[k]))
  }

  /** `addQuestionHint`: an empty hint for the question with that id. */
  function AddQuestionHint(f: Form, id: int): (r: Form)
    ensures r == f.(questions := r.questions) && |r.questions| == |f.questions|
    ensures forall k :: 0 <= k < |f.questions| ==>
      r.questions[k] == (if f.questions[k].id == id then f.questions[k].(hints := f.questions[k].hints + [""]) else f.questions[k])
  {
    f.(questions := seq(|f.questions|, k requires 0 <= k < |f.questions| =>
      var q := f.questions[k];
      if q.id == id then q.(hints := q.hints + [""]) else q))
  }

  /** `removeQuestionHint`: one hint of the question with that id, unless it is the question's only hint. */
  function RemoveQuestionHint(f: Form, id: int, index: nat): (r: Form)
    ensures r == f.(questions := r.questions) && |r.questions| == |f.questions|
    ensures forall k :: 0 <= k < |f.questions| ==>
      r.questions[k] == (if f.questions[k].id == id && |f.questions[k].hints| > 1
                         then f.questions[k].(hints := Sequences.RemoveAt(f.questions[k].hints, index))
                         else f.questions[k])
  {
    f.(questions := seq(|f.questions|, k requires 0 <= k < |f.questions| =>
      var q := f.questions[k];
      if q.id == id && |q.hints| > 1 then q.(hints := Sequences.RemoveAt(q.hints, index)) else q))
  }

  /** `updateQuestionHint`: one hint of the question with that id. */
  function UpdateQuestionHint(f: Form, id: int, index: nat, value: string): (r: Form)
    requires forall k :: 0 <= k < |f.questions| && f.questions[k].id == id ==> index < |f.questions[k].hints|
    ensures r == f.(questions := r.questions) && |r.questions| == |f.questions|
    ensures forall k :: 0 <= k < |f.questions| ==>
      r.questions[k] == (if f.questions[k].id == id then f.questions[k].(hints := f.questions[k].hints[index := value]) else f.questions[k])
  {
    f.(questions := seq(|f.questions|, k requires 0 <= k < |f.questions| =>
      var q := f.questions[k];
      if q.id == id then q.(hints := q.hints[index := value]) else q))
  }

  /** The blank form is well formed. */
  lemma BlankWellFormed(categoryId: int)
    ensures WellFormed(BlankForm(categoryId))
  {
  }

  /** The hint and tool handlers never empty their list. */
  lemma ListHandlersKeepWellFormed(f: Form, index: nat, value: string)
    requires WellFormed(f)
    ensures WellFormed(AddHint(f)) && WellFormed(RemoveHint(f, index))
    ensures WellFormed(AddTool(f)) && WellFormed(RemoveTool(f, index))
    ensures index < |f.hints| ==> WellFormed(SetHint(f, index, value))
  {
  }

  /** Adding a question never repeats an id and gives the new question its blank hint. */
  lemma AddQuestionKeepsWellFormed(f: Form)
    requires WellFormed(f)
    ensures WellFormed(AddQuestion(f))
  {
    var q := BlankQuestion(MaxId(f.questions) + 1);
    var g := AddQuestion(f);
    assert g.questions == f.questions + [q];
    AppendFresh(f.questions, q);
    forall k | 0 <= k < |g.questions| ensures g.questions[k].hints != [] {
      if k < |f.questions| {
        assert g.questions[k] == f.questions[k];
      }
    }
  }

  /** Removing a question never empties the list, and what is left keeps distinct ids and its hints. */
  lemma RemoveQuestionKeepsWellFormed(f: Form, id: int)
    requires WellFormed(f)
    ensures WellFormed(RemoveQuestion(f, id))
  {
    if |f.questions| > 1 {
      var kept := Sequences.Filter(f.questions, (q: Question) => q.id != id);
      assert RemoveQuestion(f, id) == f.(questions := kept);
      RemoveQuestionKeepsOne(f.questions, id);
      SubsequenceKeepsIds(kept, f.questions);
    }
  }

  /** Editing a question or its hints keeps its id and never leaves it without a hint. */
  lemma QuestionEditsKeepWellFormed(f: Form, id: int, index: nat, e: QuestionEdit)
    requires WellFormed(f)
    ensures WellFormed(UpdateQuestion(f, id, e)) && WellFormed(AddQuestionHint(f, id))
    ensures WellFormed(RemoveQuestionHint(f, id, index))
  {
  }

  /** With distinct ids, dropping the questions with one id removes at most one question. */
  lemma {:induction false} RemoveQuestionKeepsOne(qs: seq<Question>, id: int)
    requires DistinctIds(qs) && |qs| > 1
    ensures |Sequences.Filter(qs, (q: Question) => q.id != id)| >= |qs| - 1
  {
    var p := (q: Question) => q.id != id;
    if exists k :: 0 <= k < |qs| && qs[k].id == id {
      var k :| 0 <= k < |qs| && qs[k].id == id;
      var j := if k == 0 then 1 else 0;
      assert qs[j].id != id;
      FilterCount(qs, p, k);
    } else {
      Sequences.FilterAll(qs, p);
    }
  }

  /** Filtering out at most the element at `k` leaves all but one element. */
  lemma {:induction false} FilterCount(qs: seq<Question>, p: Question -> bool, k: nat)
    requires k < |qs|
    requires forall j :: 0 <= j < |qs| && j != k ==> p(qs[j])
    ensures |Sequences.Filter(qs, p)| >= |qs| - 1
  {
    var init := qs[..|qs| - 1];
    if |qs| - 1 == k {
      Sequences.FilterAll(init, p);
    } else {
      FilterCount(init, p, k);
    }
  }

  /** The questions kept by a filter keep distinct ids and their hints. */
  lemma {:induction false} SubsequenceKeepsIds(xs: seq<Question>, ys: seq<Question>)
    requires Sequences.IsSubsequence(xs, ys)
    requires DistinctIds(ys) && forall k :: 0 <= k < |ys| ==> ys[k].hints != []
    ensures DistinctIds(xs) && forall k :: 0 <= k < |xs| ==> xs[k].hints != []
  {
    if xs != [] {
      var init := ys[..|ys| - 1];
      assert DistinctIds(init) && forall k :: 0 <= k < |init| ==> init[k] == ys[k];
      if xs[|xs| - 1] == ys[|ys| - 1] {
        SubsequenceKeepsIds(xs[..|xs| - 1], init);
        Sequences.SubsequenceMembers(xs[..|xs| - 1], init);
        assert forall k :: 0 <= k < |xs| - 1 ==> xs[k] == xs[..|xs| - 1][k];
      } else {
        SubsequenceKeepsIds(xs, init);
      }
    }
  }

  /** `validateForm`'s error map. */
  function Errors(f: Form): (r: map<string, string>)
    ensures "title" in r <==> !NonBlank(f.title)
    ensures "scenario" in r <==> !NonBlank(f.scenario)
    ensures "instructions" in r <==> !NonBlank(f.instructions)
    ensures "category_id" in r <==> f.categoryId == 0
    ensures "points" in r <==> f.points < 1
  {
    var e0: map<string, string> := map[];
    var e1 := if !NonBlank(f.title) then e0["title" := "Title is required"] else e0;
    var e2 := if !NonBlank(f.scenario) then e1["scenario" := "Scenario is required"] else e1;
    var e3 := if !NonBlank(f.instructions) then e2["instructions" := "Instructions are required"] else e2;
    var e4 := if f.categoryId == 0 then e3["category_id" := "Category is required"] else e3;
    if f.points < 1 then e4["points" := "Points must be positive"] else e4
  }

  /** The form submits exactly when the title, scenario and instructions are not blank, a category is chosen and the points are positive. */
  lemma ValidIff(f: Form)
    ensures Errors(f) == map[] <==>
      NonBlank(f.title) && NonBlank(f.scenario) && NonBlank(f.instructions) && f.categoryId != 0 && f.points >= 1
  {
    if Errors(f) == map[] {
      assert "title" !in Errors(f);
    }
  }

  /** A question as submitted: its blank hints dropped. */
  function CleanedQuestion(q: Question): (r: Question)
    ensures r.(hints := q.hints) == q
    ensures Sequences.IsSubsequence(r.hints, q.hints) && forall k :: 0 <= k < |r.hints| ==> NonBlank(r.hints[k])
    ensures forall k :: 0 <= k < |q.hints| && NonBlank(q.hints[k]) ==> q.hints[k] in r.hints
  {
    q.(hints := Cleaned(q.hints))
  }

  /** `handleSubmit`'s `challengeData`, apart from the number parsing and the attachments. */
  function Payload(f: Form): (r: Form)
  {
    f.(description := f.scenario,
       hints := Cleaned(f.hints),
       suggestedTools := Cleaned(f.suggestedTools),
       questions := Sequences.Filter(seq(|f.questions|, k requires 0 <= k < |f.questions| => CleanedQuestion(f.questions[k])), Complete))
  }

  /** The payload's description is the scenario, its lists hold no blank entry, its questions are complete and come from the form. */
  lemma PayloadClean(f: Form)
    ensures Payload(f).description == f.scenario
    ensures forall k :: 0 <= k < |Payload(f).hints| ==> NonBlank(Payload(f).hints[k])
    ensures forall k :: 0 <= k < |Payload(f).suggestedTools| ==> NonBlank(Payload(f).suggestedTools[k])
    ensures forall k :: 0 <= k < |Payload(f).questions| ==>
      Complete(Payload(f).questions[k])
      && (forall h :: 0 <= h < |Payload(f).questions[k].hints| ==> NonBlank(Payload(f).questions[k].hints[h]))
      && exists j :: 0 <= j < |f.questions| && Payload(f).questions[k] == CleanedQuestion(f.questions[j])
    ensures forall j :: 0 <= j < |f.questions| && Complete(f.questions[j]) ==> CleanedQuestion(f.questions[j]) in Payload(f).questions
    ensures Payload(f).title == f.title && Payload(f).points == f.points && Payload(f).categoryId == f.categoryId
  {
    var cq := seq(|f.questions|, k requires 0 <= k < |f.questions| => CleanedQuestion(f.questions[k]));
    var kept := Sequences.Filter(cq, Complete);
    Sequences.SubsequenceMembers(kept, cq);
    forall k | 0 <= k < |kept|
      ensures exists j :: 0 <= j < |f.questions| && kept[k] == CleanedQuestion(f.questions[j])
    {
      var j :| 0 <= j < |cq| && cq[j] == kept[k];
    }
    forall j | 0 <= j < |f.questions| && Complete(f.questions[j])
      ensures CleanedQuestion(f.questions[j]) in kept
    {
      assert Complete(cq[j]);
    }
  }

  /** The form after a successful create: blank again, with the first category selected when there is one. */
  function Reset(categories: seq<int>): (r: Form)
    ensures categories != [] ==> r == BlankForm(categories[0])
    ensures categories == [] ==> r == BlankForm(0)
  {
    BlankForm(if categories != [] then categories[0] else 0)
  }

  /** The reset form is blank and well formed, and it fails validation until a title, scenario and instructions are typed. */
  lemma ResetIsBlank(categories: seq<int>)
    ensures WellFormed(Reset(categories))
    ensures Errors(Reset(categories)) != map[]
    ensures "title" in Errors(Reset(categories)) && "scenario" in Errors(Reset(categories))
  {
    assert Trim("") == "";
  }
}
