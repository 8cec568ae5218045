/** The campaign form (frontend/src/pages/CampaignManager.js): the campaign
    name, the question list of `QuestionList`, the uploaded spreadsheet, the
    check before a campaign is created, the reset after a successful create,
    and the status update once a campaign is started. */
module CampaignManager {
  import opened Common
  import opened Text
  import opened QuestionList

  /** The identity of an uploaded file; its contents are not modelled. */
  type FileRef = nat

  datatype Form = Form(campaignName: string, questions: seq<string>, uploadedFile: Option<FileRef>)

  /** The state the form starts in and returns to. */
  const InitialForm: Form := Form("", Initial, None)

  const NameMessage: string := "Please enter a campaign name"
  const FileMessage: string := "Please upload a spreadsheet file"
  const NoQuestionMessage: string := "Please add at least one question"

  /** `validateForm`: the guards in order, each with its own message. */
  function ValidateForm(form: Form): Verdict
  {
    if Trim(form.campaignName) == "" then Refused(NameMessage)
    else if form.uploadedFile.None? then Refused(FileMessage)
    else if NonBlank(form.questions) == [] then Refused(NoQuestionMessage)
    else Accepted
  }

  /** The form is accepted exactly when the name is not blank, a file is
      present and some question is not blank; each failure reports the first
      guard that fails. */
  lemma ValidateFormSpec(form: Form)
    ensures ValidateForm(form) == Accepted <==>
      !IsBlank(form.campaignName) && form.uploadedFile.Some?
      && exists i :: 0 <= i < |form.questions| && !IsBlank(form.questions[i])
    ensures IsBlank(form.campaignName) ==> ValidateForm(form) == Refused(NameMessage)
    ensures !IsBlank(form.campaignName) && form.uploadedFile.None? ==> ValidateForm(form) == Refused(FileMessage)
    ensures !IsBlank(form.campaignName) && form.uploadedFile.Some? && NonBlank(form.questions) == [] ==>
      ValidateForm(form) == Refused(NoQuestionMessage)
  {
    TrimEmptyIffBlank(form.campaignName);
    NonBlankEmpty(form.questions);
  }

  /** Adding an empty question never changes whether the form is accepted. */
  lemma AddKeepsVerdict(form: Form)
    ensures ValidateForm(form.(questions := Add(form.questions))) == ValidateForm(form)
  {
    AddSpec(form.questions);
  }

  /** The multipart body of `/api/campaigns/create`. */
  datatype CreateRequest = CreateRequest(name: string, questions: seq<string>, outputDestination: string, file: FileRef)

  function CreateRequestOf(form: Form): CreateRequest
    requires form.uploadedFile.Some?
  {
    CreateRequest(form.campaignName, NonBlank(form.questions), "database", form.uploadedFile.value)
  }

  /** For an accepted form, the request carries the name as typed, and exactly
      the non-blank questions, untrimmed and in their original order. */
  lemma CreateRequestSpec(form: Form)
    requires ValidateForm(form) == Accepted
    ensures var request := CreateRequestOf(form);
      && request.name == form.campaignName
      && request.outputDestination == "database"
      && request.questions != []
      && IsSubsequence(request.questions, form.questions)
      && (forall q :: q in request.questions <==> q in form.questions && !IsBlank(q))
      && forall q :: multiset(request.questions)[q] == if IsBlank(q) then 0 else multiset(form.questions)[q]
  {
    var kept := NonBlank(form.questions);
    assert kept != [];
    assert IsSubsequence(kept, form.questions);
    NonBlankMembers(form.questions);
    NonBlankCounts(form.questions);
    assert CreateRequestOf(form) == CreateRequest(form.campaignName, kept, "database", form.uploadedFile.value);
  }

  /** `createCampaign`'s effect on the form: reset after a successful create,
      untouched when the create fails. */
  function AfterCreate(form: Form, success: bool): Form
  {
    if success then InitialForm else form
  }

  /** After a successful create the form is empty again, holds one empty
      question, and is rejected until a name is entered. */
  lemma AfterCreateSpec(form: Form, success: bool)
    ensures success ==> AfterCreate(form, success) == Form("", [""], None)
    ensures success ==> ValidateForm(AfterCreate(form, success)) == Refused(NameMessage)
    ensures !success ==> AfterCreate(form, success) == form
  {
  }

  /** `prev => ({ ...prev, status: 'running' })`; spreading null gives `{}`. */
  function StartedCampaign(prev: Option<map<string, Json>>): (next: map<string, Json>)
    ensures "status" in next && next["status"] == JStr("running")
    ensures prev.Some? ==> next.Keys == prev.value.Keys + {"status"}
    ensures prev.Some? ==> forall k :: k in prev.value && k != "status" ==> next[k] == prev.value[k]
    ensures prev.None? ==> next.Keys == {"status"}
  {
    var base := if prev.Some? then prev.value else map[];
    base["status" := JStr("running")]
  }

  /** `startCampaign`'s effect on the shown campaign: only a successful start
      touches it. */
  function AfterStart(shown: Option<map<string, Json>>, success: bool): (next: Option<map<string, Json>>)
    ensures !success ==> next == shown
    ensures success ==> next.Some? && Get(next.value, "status") == JStr("running")
  {
    if success then Some(StartedCampaign(shown)) else shown
  }

  /** Starting twice is the same as starting once. */
  lemma StartIdempotent(shown: Option<map<string, Json>>)
    ensures AfterStart(AfterStart(shown, true), true) == AfterStart(shown, true)
  {
    var once := StartedCampaign(shown);
    assert StartedCampaign(Some(once)) == once;
  }
}
