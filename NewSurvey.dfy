/** The new-survey page (frontend/src/app/surveys/new/page.tsx): a list of
    survey questions that starts with one empty open-ended question, grows by
    one question at a time, is edited field by field and shrinks by id.

    As written, a new question's id is the list length plus one, so after a
    removal the next id can repeat one still in use
    (`AddQuestionAsWritten`, `AddAfterRemoveRepeatsId`). The corrected editor
    (`Editor`) draws ids from a counter that only grows, and keeps every id
    distinct (`AddKeepsIdsDistinct`). */
module NewSurvey {
  import opened Common
  import opened Text

  datatype QuestionType = OpenEnded | MultipleChoice | Rating

  datatype SurveyQuestion = SurveyQuestion(
    id: string, question: string, questionType: QuestionType, options: Option<seq<string>>, required: bool)

  /** An empty, required, open-ended question. */
  function BlankQuestion(id: string): SurveyQuestion
  {
    SurveyQuestion(id, "", OpenEnded, None, true)
  }

  /** The state the page starts in. */
  const InitialQuestions: seq<SurveyQuestion> := [BlankQuestion("1")]

  /** `addQuestion` as written: the new id is `String(questions.length + 1)`. */
  function AddQuestionAsWritten(questions: seq<SurveyQuestion>): seq<SurveyQuestion>
  {
    questions + [BlankQuestion(NatToString(|questions| + 1))]
  }

  /** The fields the page edits, with their new values. */
  datatype Field = QuestionText(text: string) | TypeOf(questionType: QuestionType) | Required(required: bool)

  /** `{ ...q, [field]: value }`: only the named field changes. */
  function SetField(q: SurveyQuestion, field: Field): (r: SurveyQuestion)
    ensures r.id == q.id && r.options == q.options
    ensures r.question == (if field.QuestionText? then field.text else q.question)
    ensures r.questionType == (if field.TypeOf? then field.questionType else q.questionType)
    ensures r.required == (if field.Required? then field.required else q.required)
  {
    match field
    case QuestionText(text) => q.(question := text)
    case TypeOf(t) => q.(questionType := t)
    case Required(flag) => q.(required := flag)
  }

  /** `updateQuestion`: the `map` that edits every question with that id. */
  function UpdateQuestion(questions: seq<SurveyQuestion>, id: string, field: Field): (r: seq<SurveyQuestion>)
    ensures |r| == |questions|
    ensures forall i :: 0 <= i < |r| ==> r[i].id == questions[i].id
    ensures forall i :: 0 <= i < |r| && questions[i].id != id ==> r[i] == questions[i]
    ensures forall i :: 0 <= i < |r| && questions[i].id == id ==> r[i] == SetField(questions[i], field)
  {
    seq(|questions|, i requires 0 <= i < |questions| =>
      if questions[i].id == id then SetField(questions[i], field) else questions[i])
  }

  /** `removeQuestion`: `questions.filter(q => q.id !== id)`. */
  function RemoveQuestion(questions: seq<SurveyQuestion>, id: string): (r: seq<SurveyQuestion>)
    ensures IsSubsequence(r, questions)
    ensures forall i :: 0 <= i < |r| ==> r[i].id != id
  {
    if questions == [] then []
    else if questions[0].id != id then [questions[0]] + RemoveQuestion(questions[1..], id)
    else RemoveQuestion(questions[1..], id)
  }

  /** Removal drops every question with that id and keeps all the others. */
  lemma {:induction false} RemoveQuestionMembers(questions: seq<SurveyQuestion>, id: string)
    ensures forall q :: q in RemoveQuestion(questions, id) <==> q in questions && q.id != id
    ensures forall q :: multiset(RemoveQuestion(questions, id))[q] == if q.id == id then 0 else multiset(questions)[q]
  {
    if questions != [] {
      RemoveQuestionMembers(questions[1..], id);
      var head := if questions[0].id != id then [questions[0]] else [];
      assert RemoveQuestion(questions, id) == head + RemoveQuestion(questions[1..], id);
      assert questions == [questions[0]] + questions[1..];
      assert multiset(RemoveQuestion(questions, id)) == multiset(head) + multiset(RemoveQuestion(questions[1..], id));
      assert multiset(questions) == multiset([questions[0]]) + multiset(questions[1..]);
      forall q ensures q in RemoveQuestion(questions, id) <==> q in questions && q.id != id {
        assert q in questions <==> q == questions[0] || q in questions[1..];
      }
    }
  }

  predicate IdsDistinct(questions: seq<SurveyQuestion>)
  {
    forall i, j :: 0 <= i < j < |questions| ==> questions[i].id != questions[j].id
  }

  /** The finding: add a question (ids "1", "2"), remove "1", and add again;
      the new question gets id "2", the id of the one left. */
  lemma AddAfterRemoveRepeatsId()
    ensures var added := AddQuestionAsWritten(InitialQuestions);
      var removed := RemoveQuestion(added, "1");
      var again := AddQuestionAsWritten(removed);
      IdsDistinct(added) && |again| == 2 && again[0].id == again[1].id == "2" && !IdsDistinct(again)
  {
    assert NatToString(2) == "2";
    var added := AddQuestionAsWritten(InitialQuestions);
    assert added == [BlankQuestion("1"), BlankQuestion("2")];
    var removed := RemoveQuestion(added, "1");
    assert added[1..] == [BlankQuestion("2")] && added[1..][1..] == [];
    assert RemoveQuestion(added[1..], "1") == [BlankQuestion("2")] + RemoveQuestion([], "1");
    assert removed == [BlankQuestion("2")];
    var again := AddQuestionAsWritten(removed);
    assert again == [BlankQuestion("2"), BlankQuestion("2")];
  }

  // ---------------------------------------------------------------------
  // The corrected editor

  /** The question list and the next unused id number. */
  datatype Editor = Editor(questions: seq<SurveyQuestion>, nextId: nat)

  const InitialEditor: Editor := Editor(InitialQuestions, 2)

  /** Every id is the decimal form of a number below `nextId`, and no two
      questions share an id. */
  predicate Valid(editor: Editor)
  {
    && IdsDistinct(editor.questions)
    && forall i :: 0 <= i < |editor.questions| ==> IdBelow(editor.questions[i], editor.nextId)
  }

  /** The question's id is the decimal form of a number below `n`. */
  predicate IdBelow(q: SurveyQuestion, n: nat)
  {
    exists k: nat :: k < n && q.id == NatToString(k)
  }

  lemma IdBelowMono(q: SurveyQuestion, n: nat, m: nat)
    requires IdBelow(q, n) && n <= m
    ensures IdBelow(q, m)
  {
    var k: nat :| k < n && q.id == NatToString(k);
    assert k < m;
  }

  /** `addQuestion` with ids from the counter. */
  function AddQuestion(editor: Editor): Editor
  {
    Editor(editor.questions + [BlankQuestion(NatToString(editor.nextId))], editor.nextId + 1)
  }

  function UpdateIn(editor: Editor, id: string, field: Field): Editor
  {
    editor.(questions := UpdateQuestion(editor.questions, id, field))
  }

  function RemoveFrom(editor: Editor, id: string): Editor
  {
    editor.(questions := RemoveQuestion(editor.questions, id))
  }

  lemma InitialEditorValid()
    ensures Valid(InitialEditor)
  {
    assert InitialEditor.questions[0].id == NatToString(1);
  }

  /** The counter's id is new: it differs from every id in the list. */
  lemma AddKeepsIdsDistinct(editor: Editor)
    requires Valid(editor)
    ensures Valid(AddQuestion(editor))
    ensures forall i :: 0 <= i < |editor.questions| ==> editor.questions[i].id != NatToString(editor.nextId)
  {
    var newId := NatToString(editor.nextId);
    forall i | 0 <= i < |editor.questions| ensures editor.questions[i].id != newId {
      assert IdBelow(editor.questions[i], editor.nextId);
      var k: nat :| k < editor.nextId && editor.questions[i].id == NatToString(k);
      if editor.questions[i].id == newId {
        NatToStringInjective(k, editor.nextId);
      }
    }
    var next := AddQuestion(editor);
    forall i | 0 <= i < |next.questions| ensures IdBelow(next.questions[i], next.nextId) {
      if i < |editor.questions| {
        assert next.questions[i] == editor.questions[i];
        IdBelowMono(editor.questions[i], editor.nextId, next.nextId);
      } else {
        assert next.questions[i].id == NatToString(editor.nextId);
      }
    }
    forall i, j | 0 <= i < j < |next.questions| ensures next.questions[i].id != next.questions[j].id {
      if j == |editor.questions| {
        assert next.questions[i] == editor.questions[i];
      } else {
        assert next.questions[i] == editor.questions[i] && next.questions[j] == editor.questions[j];
      }
    }
  }

  /** Editing a field keeps the ids, so it keeps them distinct. */
  lemma UpdateKeepsValid(editor: Editor, id: string, field: Field)
    requires Valid(editor)
    ensures Valid(UpdateIn(editor, id, field))
  {
    var next := UpdateIn(editor, id, field);
    forall i | 0 <= i < |next.questions| ensures IdBelow(next.questions[i], next.nextId) {
      assert IdBelow(editor.questions[i], editor.nextId);
      var k: nat :| k < editor.nextId && editor.questions[i].id == NatToString(k);
      assert next.questions[i].id == NatToString(k);
    }
  }

  lemma {:induction false} SubsequenceKeepsDistinct(xs: seq<SurveyQuestion>, ys: seq<SurveyQuestion>)
    requires IsSubsequence(xs, ys) && IdsDistinct(ys)
    ensures IdsDistinct(xs)
    ensures forall q :: q in xs ==> q in ys
    decreases |ys|
  {
    if ys != [] {
      assert IdsDistinct(ys[1..]) by {
        forall i, j | 0 <= i < j < |ys[1..]| ensures ys[1..][i].id != ys[1..][j].id {
          assert ys[1..][i] == ys[i + 1] && ys[1..][j] == ys[j + 1];
        }
      }
      if xs != [] && xs[0] == ys[0] && IsSubsequence(xs[1..], ys[1..]) {
        SubsequenceKeepsDistinct(xs[1..], ys[1..]);
        assert xs == [xs[0]] + xs[1..];
        forall i, j | 0 <= i < j < |xs| ensures xs[i].id != xs[j].id {
          if i == 0 {
            assert xs[j] == xs[1..][j - 1];
            assert xs[j] in ys[1..];
            var m :| 0 <= m < |ys[1..]| && ys[1..][m] == xs[j];
            assert ys[m + 1] == xs[j];
          } else {
            assert xs[i] == xs[1..][i - 1] && xs[j] == xs[1..][j - 1];
          }
        }
      } else {
        SubsequenceKeepsDistinct(xs, ys[1..]);
      }
    }
  }

  /** Removing keeps the remaining ids distinct. */
  lemma RemoveKeepsValid(editor: Editor, id: string)
    requires Valid(editor)
    ensures Valid(RemoveFrom(editor, id))
  {
    var next := RemoveFrom(editor, id);
    SubsequenceKeepsDistinct(next.questions, editor.questions);
    forall i | 0 <= i < |next.questions| ensures IdBelow(next.questions[i], next.nextId) {
      assert next.questions[i] in editor.questions;
      var j :| 0 <= j < |editor.questions| && editor.questions[j] == next.questions[i];
      assert IdBelow(editor.questions[j], editor.nextId);
    }
  }

  /** Until something is removed, the counter is the list length plus one, and
      the corrected `addQuestion` gives the same list as the original. */
  lemma AddAgreesWithoutRemoval(editor: Editor)
    requires editor.nextId == |editor.questions| + 1
    ensures AddQuestion(editor).questions == AddQuestionAsWritten(editor.questions)
    ensures AddQuestion(editor).nextId == |AddQuestion(editor).questions| + 1
  {
  }
}
