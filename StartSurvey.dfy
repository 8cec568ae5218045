/** The survey-builder page (frontend/src/app/start-survey/page.tsx): the
    typed question is added trimmed unless it is blank, questions are removed
    by id, and submitting needs at least one question. The random id of a new
    question is a parameter. */
module StartSurvey {
  import opened Common
  import opened Text

  datatype Question = Question(id: string, text: string)

  /** The question list and the text being typed. */
  datatype Form = Form(questions: seq<Question>, currentQuestion: string)

  /** `addQuestion`, where `freshId` is the generated id. */
  function AddQuestion(form: Form, freshId: string): Form
  {
    if Trim(form.currentQuestion) == "" then form
    else Form(form.questions + [Question(freshId, Trim(form.currentQuestion))], "")
  }

  /** A blank input changes nothing; any other input appends exactly one
      question, holding the trimmed input, and clears the input. */
  lemma AddQuestionSpec(form: Form, freshId: string)
    ensures IsBlank(form.currentQuestion) ==> AddQuestion(form, freshId) == form
    ensures !IsBlank(form.currentQuestion) ==>
      var next := AddQuestion(form, freshId);
      && next.currentQuestion == ""
      && |next.questions| == |form.questions| + 1
      && next.questions[..|form.questions|] == form.questions
      && next.questions[|form.questions|] == Question(freshId, Trim(form.currentQuestion))
      && next.questions[|form.questions|].text != ""
      && Trim(next.questions[|form.questions|].text) == next.questions[|form.questions|].text
  {
    TrimEmptyIffBlank(form.currentQuestion);
    TrimIdempotent(form.currentQuestion);
  }

  /** `questions.filter(q => q.id !== id)`. The surveys/new page writes the
      same filter over its own question type (`NewSurvey.RemoveQuestion`);
      each page's copy is modelled next to the rest of that page. */
  function RemoveQuestion(questions: seq<Question>, id: string): (r: seq<Question>)
    ensures IsSubsequence(r, questions)
    ensures forall i :: 0 <= i < |r| ==> r[i].id != id
  {
    if questions == [] then []
    else if questions[0].id != id then [questions[0]] + RemoveQuestion(questions[1..], id)
    else RemoveQuestion(questions[1..], id)
  }

  /** Removal drops every question with that id and keeps all the others;
      an id no question has changes nothing. */
  lemma {:induction false} RemoveQuestionSpec(questions: seq<Question>, id: string)
    ensures forall q :: q in RemoveQuestion(questions, id) <==> q in questions && q.id != id
    ensures (forall i :: 0 <= i < |questions| ==> questions[i].id != id) ==> RemoveQuestion(questions, id) == questions
  {
    if questions != [] {
      RemoveQuestionSpec(questions[1..], id);
      var head := if questions[0].id != id then [questions[0]] else [];
      assert RemoveQuestion(questions, id) == head + RemoveQuestion(questions[1..], id);
      assert questions == [questions[0]] + questions[1..];
      forall q ensures q in RemoveQuestion(questions, id) <==> q in questions && q.id != id {
        assert q in questions <==> q == questions[0] || q in questions[1..];
      }
    }
  }

  /** Every question with another id is kept as many times as it occurs. */
  lemma {:induction false} RemoveQuestionCounts(questions: seq<Question>, id: string)
    ensures forall q :: multiset(RemoveQuestion(questions, id))[q] == if q.id == id then 0 else multiset(questions)[q]
  {
    if questions != [] {
      RemoveQuestionCounts(questions[1..], id);
      var head := if questions[0].id != id then [questions[0]] else [];
      assert RemoveQuestion(questions, id) == head + RemoveQuestion(questions[1..], id);
      assert questions == [questions[0]] + questions[1..];
      assert multiset(RemoveQuestion(questions, id)) == multiset(head) + multiset(RemoveQuestion(questions[1..], id));
      assert multiset(questions) == multiset([questions[0]]) + multiset(questions[1..]);
    }
  }

  /** Every question in the list is non-empty and already trimmed. */
  predicate WellFormed(questions: seq<Question>)
  {
    forall i :: 0 <= i < |questions| ==> questions[i].text != "" && Trim(questions[i].text) == questions[i].text
  }

  /** Adding keeps every question non-empty and trimmed. */
  lemma AddKeepsWellFormed(form: Form, freshId: string)
    requires WellFormed(form.questions)
    ensures WellFormed(AddQuestion(form, freshId).questions)
  {
    var t := Trim(form.currentQuestion);
    if t != "" {
      TrimIdempotent(form.currentQuestion);
      WellFormedSnoc(form.questions, Question(freshId, t));
    }
  }

  lemma WellFormedSnoc(questions: seq<Question>, q: Question)
    requires WellFormed(questions) && q.text != "" && Trim(q.text) == q.text
    ensures WellFormed(questions + [q])
  {
    var qs := questions + [q];
    forall i | 0 <= i < |qs| ensures qs[i].text != "" && Trim(qs[i].text) == qs[i].text {
      if i < |questions| {
        assert qs[i] == questions[i];
      }
    }
  }

  /** Removing keeps every question non-empty and trimmed. */
  lemma RemoveKeepsWellFormed(questions: seq<Question>, id: string)
    requires WellFormed(questions)
    ensures WellFormed(RemoveQuestion(questions, id))
  {
    RemoveQuestionSpec(questions, id);
    var r := RemoveQuestion(questions, id);
    forall i | 0 <= i < |r| ensures r[i].text != "" && Trim(r[i].text) == r[i].text {
      assert r[i] in r;
      var j :| 0 <= j < |questions| && questions[j] == r[i];
    }
  }

  datatype SubmitEffect = Ignored | Submitting(questions: seq<Question>)

  /** `handleSubmit`: nothing happens without questions. */
  function HandleSubmit(questions: seq<Question>): (effect: SubmitEffect)
    ensures effect.Ignored? <==> questions == []
    ensures effect.Submitting? ==> effect.questions == questions
  {
    if |questions| == 0 then Ignored else Submitting(questions)
  }
}
