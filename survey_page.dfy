/** src/pages/user/SurveyPage.jsx: the availability check, the answer form's
    state transitions, required-answer validation and the submitted payload. */
module SurveyPage {
  import opened Wrappers
  import opened Strings
  import opened MockData
  import opened QuestionService
  import opened ResponseService

  // ---------------------------------------------------------------------
  // Availability

  datatype SurveyError = SurveyInactive | SurveyNotStarted | SurveyExpired

  /** The effect run when the poll arrives: status first, then the window
      (instants are milliseconds). */
  function Availability(p: Poll, now: int): Option<SurveyError> {
    if p.status != Active then Some(SurveyInactive)
    else if now < p.startDate then Some(SurveyNotStarted)
    else if now > p.endDate then Some(SurveyExpired)
    else None
  }

  /** A poll can be answered when it is active and `now` lies in its window. */
  predicate IsOpen(p: Poll, now: int) {
    p.status == Active && p.startDate <= now <= p.endDate
  }

  /** No error exactly when the poll is open; an inactive poll is reported
      inactive whatever its dates; an active one before its start has not
      started and after its end has expired. */
  lemma AvailabilityMeaning(p: Poll, now: int)
    ensures Availability(p, now).None? <==> IsOpen(p, now)
    ensures p.status != Active ==> Availability(p, now) == Some(SurveyInactive)
    ensures p.status == Active && now < p.startDate ==> Availability(p, now) == Some(SurveyNotStarted)
    ensures p.status == Active && p.startDate <= now && now > p.endDate ==> Availability(p, now) == Some(SurveyExpired)
  {
  }

  // ---------------------------------------------------------------------
  // handleAnswerChange

  /** What the form holds for a question: the selected option ids of a
      multi-select question, the option id of a single-select one, or text. */
  datatype Answer = Selected(ids: seq<int>) | ChosenOption(id: int) | Written(text: string)

  datatype FieldError = MaxSelectionsReached(max: int) | RequiredField

  datatype Form = Form(answers: map<int, Answer>, errors: map<int, FieldError>)

  /** The three ways the form calls `handleAnswerChange`: a checkbox (with
      the question's `max_selections`), a radio button, a text area. */
  datatype Change = Toggle(optionId: int, maxSelections: Option<int>) | Choose(optionId: int) | Enter(text: string)

  /** `answers[questionId] || []`. */
  function CurrentSelections(answers: map<int, Answer>, questionId: int): seq<int> {
    if questionId in answers && answers[questionId].Selected? then answers[questionId].ids else []
  }

  /** `currentSelections.filter(v => v !== value)`. */
  function Without(s: seq<int>, v: int): (r: seq<int>)
    ensures forall x :: x in r <==> x in s && x != v
    ensures |r| <= |s|
  {
    if s == [] then [] else (if s[0] == v then [] else [s[0]]) + Without(s[1..], v)
  }

  /** `maxSelections && currentSelections.length >= maxSelections`. */
  predicate AtMax(current: seq<int>, maxSelections: Option<int>) {
    maxSelections.Some? && maxSelections.value != 0 && |current| >= maxSelections.value
  }

  /** The new form state after one change to question `questionId`. */
  function HandleAnswerChange(f: Form, questionId: int, c: Change): Form {
    var current := CurrentSelections(f.answers, questionId);
    if c.Toggle? && c.optionId !in current && AtMax(current, c.maxSelections) then
      f.(errors := f.errors[questionId := MaxSelectionsReached(c.maxSelections.value)])
    else
      var answer := match c
        case Toggle(v, _) => Selected(if v in current then Without(current, v) else current + [v])
        case Choose(v) => ChosenOption(v)
        case Enter(s) => Written(s);
      Form(f.answers[questionId := answer], f.errors - {questionId})
  }

  predicate NoDuplicates(s: seq<int>) {
    forall i, j :: 0 <= i < j < |s| ==> s[i] != s[j]
  }

  lemma {:induction false} WithoutKeepsNoDuplicates(s: seq<int>, v: int)
    requires NoDuplicates(s)
    ensures NoDuplicates(Without(s, v))
  {
    if s != [] {
      assert NoDuplicates(s[1..]) by {
        forall i, j | 0 <= i < j < |s[1..]| ensures s[1..][i] != s[1..][j] {
          assert s[1..][i] == s[i + 1] && s[1..][j] == s[j + 1];
        }
      }
      WithoutKeepsNoDuplicates(s[1..], v);
      var rest := Without(s[1..], v);
      if s[0] != v {
        assert s[0] !in s[1..] by {
          forall i | 0 <= i < |s[1..]| ensures s[1..][i] != s[0] { assert s[1..][i] == s[i + 1]; }
        }
        var r := [s[0]] + rest;
        forall i, j | 0 <= i < j < |r| ensures r[i] != r[j] {
          if i == 0 {
            assert r[j] == rest[j - 1] && rest[j - 1] in rest;
          } else {
            assert r[i] == rest[i - 1] && r[j] == rest[j - 1];
          }
        }
      }
    }
  }

  /** Toggling a selected option removes it (every occurrence) and changes
      no other question's answer. */
  lemma ToggleSelectedRemoves(f: Form, questionId: int, v: int, maxSelections: Option<int>)
    requires v in CurrentSelections(f.answers, questionId)
    ensures var g := HandleAnswerChange(f, questionId, Toggle(v, maxSelections));
            questionId in g.answers && g.answers[questionId].Selected?
            && (forall x :: x in g.answers[questionId].ids <==> x in CurrentSelections(f.answers, questionId) && x != v)
            && (forall k :: k != questionId ==> (k in g.answers <==> k in f.answers))
            && (forall k :: k in f.answers && k != questionId ==> g.answers[k] == f.answers[k])
            && questionId !in g.errors
  {
  }

  /** Adding an option at the cap changes no answer and records the cap. */
  lemma ToggleAtMaxRefuses(f: Form, questionId: int, v: int, maxSelections: Option<int>)
    requires v !in CurrentSelections(f.answers, questionId) && AtMax(CurrentSelections(f.answers, questionId), maxSelections)
    ensures var g := HandleAnswerChange(f, questionId, Toggle(v, maxSelections));
            g.answers == f.answers && g.errors == f.errors[questionId := MaxSelectionsReached(maxSelections.value)]
  {
  }

  /** Below the cap a new option is appended after the current ones. */
  lemma ToggleAppends(f: Form, questionId: int, v: int, maxSelections: Option<int>)
    requires v !in CurrentSelections(f.answers, questionId) && !AtMax(CurrentSelections(f.answers, questionId), maxSelections)
    ensures var g := HandleAnswerChange(f, questionId, Toggle(v, maxSelections));
            g.answers == f.answers[questionId := Selected(CurrentSelections(f.answers, questionId) + [v])]
            && g.errors == f.errors - {questionId}
  {
  }

  /** A selection without duplicates and within a positive cap stays so. */
  lemma ToggleKeepsSelectionSound(f: Form, questionId: int, v: int, max: int)
    requires max > 0
    requires var cur := CurrentSelections(f.answers, questionId); NoDuplicates(cur) && |cur| <= max
    ensures var next := CurrentSelections(HandleAnswerChange(f, questionId, Toggle(v, Some(max))).answers, questionId);
            NoDuplicates(next) && |next| <= max
  {
    var cur := CurrentSelections(f.answers, questionId);
    if v in cur {
      WithoutKeepsNoDuplicates(cur, v);
    } else if !AtMax(cur, Some(max)) {
      var r := cur + [v];
      forall i, j | 0 <= i < j < |r| ensures r[i] != r[j] {
        if j == |cur| { assert r[i] == cur[i] && cur[i] in cur; }
      }
    }
  }

  /** A radio or text change stores the value and clears the question's error. */
  lemma ScalarChangeReplaces(f: Form, questionId: int, c: Change)
    requires !c.Toggle?
    ensures var g := HandleAnswerChange(f, questionId, c);
            g.answers == f.answers[questionId := if c.Choose? then ChosenOption(c.optionId) else Written(c.text)]
            && questionId !in g.errors
            && (forall k :: k != questionId ==> (k in g.errors <==> k in f.errors))
  {
  }

  // ---------------------------------------------------------------------
  // validateAnswers

  /** `!answer || (Array.isArray(answer) && answer.length === 0) || answer.trim?.() === ''`:
      absent, option id 0, no selection, or blank text. */
  predicate Unanswered(answers: map<int, Answer>, questionId: int) {
    questionId !in answers
    || match answers[questionId]
       case Selected(ids) => ids == []
       case ChosenOption(id) => id == 0
       case Written(s) => IsBlank(s)
  }

  /** The errors after the first questions. */
  function ValidationErrors(qs: seq<QuestionDetail>, answers: map<int, Answer>): map<int, FieldError> {
    if qs == [] then map[]
    else
      var n := |qs| - 1;
      var q := qs[n].question;
      var before := ValidationErrors(qs[..n], answers);
      if q.isRequired && Unanswered(answers, q.id) then before[q.id := RequiredField] else before
  }

  /** `validateAnswers()`: the new error map and whether it is empty. */
  method ValidateAnswers(qs: seq<QuestionDetail>, answers: map<int, Answer>)
    returns (errors: map<int, FieldError>, ok: bool)
    ensures errors == ValidationErrors(qs, answers)
    ensures ok <==> errors == map[]
    ensures ok <==> forall d :: d in qs && d.question.isRequired ==> !Unanswered(answers, d.question.id)
  {
    errors := map[];
    var i := 0;
    while i < |qs|
      invariant 0 <= i <= |qs|
      invariant errors == ValidationErrors(qs[..i], answers)
    {
      var q := qs[i].question;
      assert qs[..i + 1][..i] == qs[..i];
      if q.isRequired && Unanswered(answers, q.id) {
        errors := errors[q.id := RequiredField];
      }
      i := i + 1;
    }
    assert qs[..i] == qs;
    ValidationPassesIff(qs, answers);
    ok := errors == map[];
  }

  /** Validation passes exactly when every required question is answered. */
  lemma {:induction false} ValidationPassesIff(qs: seq<QuestionDetail>, answers: map<int, Answer>)
    ensures ValidationErrors(qs, answers) == map[] <==>
              forall d :: d in qs && d.question.isRequired ==> !Unanswered(answers, d.question.id)
  {
    if qs != [] {
      var n := |qs| - 1;
      var init := qs[..n];
      var last := qs[n];
      ValidationPassesIff(init, answers);
      assert qs == init + [last];
      if last.question.isRequired && Unanswered(answers, last.question.id) {
        assert last.question.id in ValidationErrors(qs, answers);
      } else {
        forall d | d in qs ensures d in init || d == last {}
      }
    }
  }

  /** Some required question with id `k` is left unanswered. */
  predicate Flagged(qs: seq<QuestionDetail>, answers: map<int, Answer>, k: int) {
    exists d :: d in qs && d.question.id == k && d.question.isRequired && Unanswered(answers, k)
  }

  lemma FlaggedSnoc(init: seq<QuestionDetail>, last: QuestionDetail, answers: map<int, Answer>, k: int)
    ensures Flagged(init + [last], answers, k) <==>
              Flagged(init, answers, k) || (last.question.id == k && last.question.isRequired && Unanswered(answers, k))
  {
    if Flagged(init, answers, k) {
      var d :| d in init && d.question.id == k && d.question.isRequired && Unanswered(answers, k);
      assert d in init + [last];
    }
    if last.question.id == k && last.question.isRequired && Unanswered(answers, k) {
      assert last in init + [last];
    }
  }

  /** An error is recorded exactly for the required questions left
      unanswered; optional questions never have one. */
  lemma {:induction false} ValidationErrorsKeys(qs: seq<QuestionDetail>, answers: map<int, Answer>)
    ensures forall k :: k in ValidationErrors(qs, answers) <==> Flagged(qs, answers, k)
    ensures forall k :: k in ValidationErrors(qs, answers) ==> ValidationErrors(qs, answers)[k] == RequiredField
  {
    if qs != [] {
      var n := |qs| - 1;
      var init := qs[..n];
      ValidationErrorsKeys(init, answers);
      assert qs == init + [qs[n]];
      forall k ensures k in ValidationErrors(qs, answers) <==> Flagged(qs, answers, k) {
        FlaggedSnoc(init, qs[n], answers, k);
      }
    }
  }

  // ---------------------------------------------------------------------
  // formattedAnswers

  /** One `{question_id, type, value}` for a question. */
  function FormatAnswer(q: Question, answers: map<int, Answer>): AnswerInput {
    var a: Option<Answer> := if q.id in answers then Some(answers[q.id]) else None;
    var value :=
      if q.questionType == Mcq then
        if q.allowMultiple then Picks(if a.Some? && a.value.Selected? then a.value.ids else [])
        else Pick(if a.Some? && a.value.ChosenOption? then Some(a.value.id) else None)
      else Typed(if a.Some? && a.value.Written? then a.value.text else "");
    AnswerInput(q.id, q.questionType, value)
  }

  /** `currentPoll.questions.map(...)`. */
  function FormatAnswers(qs: seq<QuestionDetail>, answers: map<int, Answer>): (r: seq<AnswerInput>)
    ensures |r| == |qs| && forall i :: 0 <= i < |qs| ==> r[i] == FormatAnswer(qs[i].question, answers)
  {
    seq(|qs|, i requires 0 <= i < |qs| => FormatAnswer(qs[i].question, answers))
  }

  /** One entry per question, in order: the selection (or none) of a
      multi-select question, the option id of a single-select one, the
      text (or "") of any other; so the payload is what `submitResponse`
      accepts as written. */
  lemma FormatAnswersMeaning(qs: seq<QuestionDetail>, answers: map<int, Answer>)
    ensures var r := FormatAnswers(qs, answers);
            WellTyped(r)
            && forall i :: 0 <= i < |qs| ==>
                 var q := qs[i].question;
                 r[i].questionId == q.id && r[i].answerType == q.questionType
                 && (q.questionType == Mcq && q.allowMultiple ==>
                       r[i].value == Picks(CurrentSelections(answers, q.id)))
                 && (q.questionType == Mcq && !q.allowMultiple ==>
                       r[i].value.Pick?
                       && (q.id in answers && answers[q.id].ChosenOption? ==>
                             r[i].value.id == Some(answers[q.id].id)))
                 && (q.questionType != Mcq ==>
                       r[i].value == Typed(if q.id in answers && answers[q.id].Written? then answers[q.id].text else ""))
  {
    var r := FormatAnswers(qs, answers);
    forall a | a in r && a.answerType == Text ensures a.value.Typed? {
      var i :| 0 <= i < |r| && r[i] == a;
    }
  }
}
