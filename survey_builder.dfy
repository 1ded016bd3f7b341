/** src/pages/admin/SurveyBuilder.jsx: the poll title check, the question
    form's defaults and option-list edits, and the question submit's
    validation and payload. */
module SurveyBuilder {
  import opened Wrappers
  import opened MultiLang
  import opened Seqs
  import opened MockData

  // ---------------------------------------------------------------------
  // handleSavePoll

  /** The poll form (`pollData`); dates are instants. */
  datatype PollForm = PollForm(title: LocalizedText, description: LocalizedText,
                               status: PollStatus, startDate: int, endDate: int)

  const RequiredMessage := "validation.required"

  /** The check before the poll is created or updated: the form itself is
      the payload when the title has some locale filled. */
  function SavePollPayload(form: PollForm): (r: Result<PollForm>)
    ensures r.Success? <==> HasAnyLanguage(form.title)
    ensures r.Success? ==> r.value == form
    ensures r.Failure? ==> r.error == RequiredMessage
  {
    if !HasAnyLanguage(form.title) then Failure(RequiredMessage) else Success(form)
  }

  /** A title in the plain legacy form, or one with every locale empty, is
      refused. */
  lemma SavePollRefusesUnfilledTitle(form: PollForm)
    requires form.title.Plain? || form.title == InitMultiLangText()
    ensures SavePollPayload(form) == Failure(RequiredMessage)
  {
  }

  // ---------------------------------------------------------------------
  // The question form

  /** `formData` of the question modal; `orderNumber` is present on an edit. */
  datatype QuestionForm = QuestionForm(
    questionText: LocalizedText, questionType: QuestionType, isRequired: bool,
    allowMultiple: bool, maxSelections: Option<int>, options: seq<LocalizedText>,
    orderNumber: Option<int>)

  /** The form `handleAddQuestion` opens. */
  function NewQuestionForm(): (f: QuestionForm)
    ensures f.questionType == Mcq && f.isRequired && !f.allowMultiple
    ensures f.maxSelections == Some(1)
    ensures |f.options| == 2 && forall i :: 0 <= i < 2 ==> f.options[i] == InitMultiLangText()
    ensures !HasAnyLanguage(f.questionText) && forall o :: o in f.options ==> !HasAnyLanguage(o)
  {
    QuestionForm(InitMultiLangText(), Mcq, true, false, Some(1),
                 [InitMultiLangText(), InitMultiLangText()], None)
  }

  /** `handleOptionChange(index, value)`, called for an option on display. */
  function OptionChange(f: QuestionForm, i: nat, value: LocalizedText): (g: QuestionForm)
    requires i < |f.options|
    ensures g.options == f.options[i := value]
    ensures g == f.(options := g.options)
  {
    f.(options := f.options[i := value])
  }

  /** `handleAddOption()`. */
  function AddOption(f: QuestionForm): (g: QuestionForm)
    ensures |g.options| == |f.options| + 1
    ensures g.options[..|f.options|] == f.options
    ensures !HasAnyLanguage(g.options[|f.options|])
    ensures g == f.(options := g.options)
  {
    f.(options := f.options + [InitMultiLangText()])
  }

  /** `handleRemoveOption(index)`: `filter((_, i) => i !== index)` when
      there are more than two options. */
  function RemoveOption(f: QuestionForm, i: nat): QuestionForm {
    if |f.options| > 2 && i < |f.options| then f.(options := RemoveAt(f.options, i)) else f
  }

  /** Removing drops exactly index `i` when more than two options are
      shown, changes nothing otherwise, and so never leaves fewer than two. */
  lemma RemoveOptionMeaning(f: QuestionForm, i: nat)
    ensures var g := RemoveOption(f, i);
            g == f.(options := g.options)
            && (|f.options| > 2 && i < |f.options| ==>
                  g.options == f.options[..i] + f.options[i + 1..])
            && (|f.options| <= 2 || i >= |f.options| ==> g == f)
            && (|f.options| >= 2 ==> |g.options| >= 2)
  {
  }

  /** Edits starting from the new-question form keep at least two options. */
  lemma OptionEditsKeepTwo(f: QuestionForm, i: nat, value: LocalizedText)
    requires |f.options| >= 2
    ensures |AddOption(f).options| >= 2
    ensures |RemoveOption(f, i).options| >= 2
    ensures i < |f.options| ==> |OptionChange(f, i, value).options| >= 2
  {
    RemoveOptionMeaning(f, i);
  }

  // ---------------------------------------------------------------------
  // QuestionModal.handleSubmit

  const TooFewOptionsMessage := "At least 2 options required for MCQ"

  /** The `questionPayload` handed to createQuestion / updateQuestion. */
  datatype QuestionPayload = QuestionPayload(
    pollId: int, questionText: LocalizedText, questionType: QuestionType,
    isRequired: bool, allowMultiple: bool, maxSelections: Option<int>,
    orderNumber: Option<int>, options: seq<LocalizedText>)

  /** `formData.options.filter(o => hasAnyLanguage(o))`. */
  function FilledOptions(options: seq<LocalizedText>): seq<LocalizedText> {
    Filter(options, (o: LocalizedText) => HasAnyLanguage(o))
  }

  /** The validation and payload of a question submit. */
  function SubmitQuestion(f: QuestionForm, isEdit: bool, pollId: int): Result<QuestionPayload> {
    if !HasAnyLanguage(f.questionText) then Failure(RequiredMessage)
    else if f.questionType == Mcq && |FilledOptions(f.options)| < 2 then Failure(TooFewOptionsMessage)
    else
      Success(QuestionPayload(
        pollId, f.questionText, f.questionType, f.isRequired, f.allowMultiple, f.maxSelections,
        if isEdit then f.orderNumber else Some(999),
        if f.questionType == Mcq then FilledOptions(f.options) else []))
  }

  /** A submit fails with the required message exactly when the question
      text has no locale; an mcq question with a text fails with the options
      message exactly when fewer than two options are filled; otherwise it
      succeeds with the form's fields, order 999 on a create and the form's
      own order on an edit, and as options the filled ones in their order
      (at least two) for mcq and none for any other type. */
  lemma SubmitQuestionMeaning(f: QuestionForm, isEdit: bool, pollId: int)
    ensures var r := SubmitQuestion(f, isEdit, pollId);
            (r == Failure(RequiredMessage) <==> !HasAnyLanguage(f.questionText))
            && (r == Failure(TooFewOptionsMessage) <==>
                  HasAnyLanguage(f.questionText) && f.questionType == Mcq && |FilledOptions(f.options)| < 2)
            && (r.Success? <==>
                  HasAnyLanguage(f.questionText) && (f.questionType == Mcq ==> |FilledOptions(f.options)| >= 2))
            && (r.Success? ==>
                  var p := r.value;
                  p.pollId == pollId && p.questionText == f.questionText && p.questionType == f.questionType
                  && p.isRequired == f.isRequired && p.allowMultiple == f.allowMultiple
                  && p.maxSelections == f.maxSelections
                  && p.orderNumber == (if isEdit then f.orderNumber else Some(999))
                  && (f.questionType == Mcq ==>
                        |p.options| >= 2 && IsSubseq(p.options, f.options)
                        && (forall o :: o in p.options <==> o in f.options && HasAnyLanguage(o))
                        && (forall o :: HasAnyLanguage(o) ==> multiset(p.options)[o] == multiset(f.options)[o]))
                  && (f.questionType != Mcq ==> p.options == []))
  {
    FilterIsSubseq(f.options, (o: LocalizedText) => HasAnyLanguage(o));
    forall o | HasAnyLanguage(o)
      ensures multiset(FilledOptions(f.options))[o] == multiset(f.options)[o]
    {
      FilterCount(f.options, (o: LocalizedText) => HasAnyLanguage(o), o);
    }
  }

  /** The default form is refused until its question text is filled, and
      then until two of its options are. */
  lemma NewFormNeedsFilling(isEdit: bool, pollId: int)
    ensures SubmitQuestion(NewQuestionForm(), isEdit, pollId) == Failure(RequiredMessage)
    ensures forall t :: HasAnyLanguage(t) ==>
              SubmitQuestion(NewQuestionForm().(questionText := t), isEdit, pollId) == Failure(TooFewOptionsMessage)
  {
    var opts := NewQuestionForm().options;
    FilterNone(opts, (o: LocalizedText) => HasAnyLanguage(o));
  }
}
