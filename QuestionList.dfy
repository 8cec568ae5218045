/** The editable list of question texts shared by the test-call form
    (frontend/src/pages/TestCall.js) and the campaign form
    (frontend/src/pages/CampaignManager.js): both keep a list of strings that
    starts as `['']`, and both submit only its non-blank entries. */
module QuestionList {
  import opened Common
  import opened Text

  /** The list every form starts from and is reset to. */
  const Initial: seq<string> := [""]

  /** `[...questions, '']`. */
  function Add(questions: seq<string>): seq<string>
  {
    questions + [""]
  }

  /** `questions.filter((_, i) => i !== index)`: walks the list position by
      position and drops the one at `index`, if any. */
  function DropPosition(questions: seq<string>, index: int): seq<string>
  {
    if questions == [] then []
    else (if index == 0 then [] else [questions[0]]) + DropPosition(questions[1..], index - 1)
  }

  /** `removeQuestion`: a list of one entry is left alone. */
  function Remove(questions: seq<string>, index: int): seq<string>
  {
    if |questions| > 1 then DropPosition(questions, index) else questions
  }

  /** `updateQuestion` on a copy of the list; the forms only pass the index of
      an entry they display. */
  function Update(questions: seq<string>, index: int, value: string): (r: seq<string>)
    requires 0 <= index < |questions|
    ensures |r| == |questions| && r[index] == value
    ensures forall j :: 0 <= j < |r| && j != index ==> r[j] == questions[j]
  {
    questions[index := value]
  }

  /** `questions.filter(q => q.trim())`: the entries that are not blank,
      untrimmed and in their original order. */
  function NonBlank(questions: seq<string>): (r: seq<string>)
    ensures IsSubsequence(r, questions)
    ensures forall i :: 0 <= i < |r| ==> !IsBlank(r[i])
  {
    if questions == [] then []
    else if Trim(questions[0]) != "" then
      TrimEmptyIffBlank(questions[0]);
      [questions[0]] + NonBlank(questions[1..])
    else
      TrimEmptyIffBlank(questions[0]);
      NonBlank(questions[1..])
  }

  /** `addQuestion` appends exactly one empty entry, so the submitted
      questions do not change. */
  lemma {:induction false} AddSpec(questions: seq<string>)
    ensures |Add(questions)| == |questions| + 1
    ensures Add(questions)[..|questions|] == questions && Add(questions)[|questions|] == ""
    ensures NonBlank(Add(questions)) == NonBlank(questions)
  {
    if questions == [] {
      assert Add(questions) == [""];
      assert IsBlank("");
      TrimEmptyIffBlank("");
      assert NonBlank([""]) == NonBlank([]);
    } else {
      AddSpec(questions[1..]);
      assert Add(questions)[1..] == Add(questions[1..]);
    }
  }

  /** The position walk removes exactly the entry at `index`, and nothing when
      `index` names no entry. */
  lemma {:induction false} DropPositionSpec(questions: seq<string>, index: int)
    ensures 0 <= index < |questions| ==> DropPosition(questions, index) == questions[..index] + questions[index + 1..]
    ensures !(0 <= index < |questions|) ==> DropPosition(questions, index) == questions
  {
    if questions != [] {
      DropPositionSpec(questions[1..], index - 1);
      if 0 < index < |questions| {
        calc {
          DropPosition(questions, index);
          [questions[0]] + (questions[1..][..index - 1] + questions[1..][index..]);
          { assert [questions[0]] + questions[1..][..index - 1] == questions[..index];
            assert questions[1..][index..] == questions[index + 1..]; }
          questions[..index] + questions[index + 1..];
        }
      } else if index != 0 {
        assert DropPosition(questions, index) == [questions[0]] + questions[1..];
      }
    }
  }

  /** `removeQuestion` never empties a non-empty list: at one entry it does
      nothing, and otherwise it removes only the entry at `index`. */
  lemma RemoveSpec(questions: seq<string>, index: int)
    ensures |questions| <= 1 ==> Remove(questions, index) == questions
    ensures |questions| > 1 && 0 <= index < |questions| ==>
      Remove(questions, index) == questions[..index] + questions[index + 1..]
    ensures |questions| > 1 && !(0 <= index < |questions|) ==> Remove(questions, index) == questions
    ensures |questions| >= 1 ==> |Remove(questions, index)| >= 1
  {
    DropPositionSpec(questions, index);
  }

  /** A non-blank entry is submitted as many times as it occurs in the list:
      duplicates are kept, blank entries are dropped. */
  lemma {:induction false} NonBlankCounts(questions: seq<string>)
    ensures forall q :: multiset(NonBlank(questions))[q] == if IsBlank(q) then 0 else multiset(questions)[q]
  {
    if questions != [] {
      NonBlankCounts(questions[1..]);
      TrimEmptyIffBlank(questions[0]);
      var head := if Trim(questions[0]) != "" then [questions[0]] else [];
      assert NonBlank(questions) == head + NonBlank(questions[1..]);
      assert questions == [questions[0]] + questions[1..];
      assert multiset(NonBlank(questions)) == multiset(head) + multiset(NonBlank(questions[1..]));
      assert multiset(questions) == multiset([questions[0]]) + multiset(questions[1..]);
    }
  }

  /** An entry is submitted exactly when it is in the list and not blank. */
  lemma {:induction false} NonBlankMembers(questions: seq<string>)
    ensures forall q :: q in NonBlank(questions) <==> q in questions && !IsBlank(q)
  {
    if questions != [] {
      NonBlankMembers(questions[1..]);
      TrimEmptyIffBlank(questions[0]);
      var head := if Trim(questions[0]) != "" then [questions[0]] else [];
      assert NonBlank(questions) == head + NonBlank(questions[1..]);
      assert questions == [questions[0]] + questions[1..];
      forall q ensures q in NonBlank(questions) <==> q in questions && !IsBlank(q) {
        assert q in questions <==> q == questions[0] || q in questions[1..];
      }
    }
  }

  /** Nothing is submitted exactly when every entry is blank. */
  lemma NonBlankEmpty(questions: seq<string>)
    ensures NonBlank(questions) == [] <==> forall i :: 0 <= i < |questions| ==> IsBlank(questions[i])
  {
    NonBlankMembers(questions);
    if NonBlank(questions) != [] {
      assert NonBlank(questions)[0] in NonBlank(questions);
    } else {
      forall i | 0 <= i < |questions| ensures IsBlank(questions[i]) {
        assert questions[i] in questions;
      }
    }
  }
}
