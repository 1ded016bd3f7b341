/** src/services/questionService.js: the questions of a poll joined with
    their options, and question create / update / delete over the store. */
module QuestionService {
  import opened Wrappers
  import opened MultiLang
  import opened Seqs
  import opened Sorting
  import opened MockData

  /** A question with its `options` array attached. */
  datatype QuestionDetail = QuestionDetail(question: Question, options: seq<McqOption>)

  function QuestionOrder(q: Question): int { q.orderNumber }
  function OptionOrder(o: McqOption): int { o.orderNumber }

  /** `questions.filter(q => q.poll_id === pollId)`. */
  function QuestionsOfPoll(qs: seq<Question>, pollId: int): (r: seq<Question>)
    ensures forall q :: q in r <==> q in qs && q.pollId == pollId
  {
    Filter(qs, (q: Question) => q.pollId == pollId)
  }

  /** `mcq_options.filter(o => o.question_id === questionId)`. */
  function OptionsOfQuestion(os: seq<McqOption>, questionId: int): (r: seq<McqOption>)
    ensures forall o :: o in r <==> o in os && o.questionId == questionId
  {
    Filter(os, (o: McqOption) => o.questionId == questionId)
  }

  /** `mcq_options.filter(o => o.question_id !== questionId)`. */
  function OptionsNotOfQuestion(os: seq<McqOption>, questionId: int): (r: seq<McqOption>)
    ensures forall o :: o in r <==> o in os && o.questionId != questionId
  {
    Filter(os, (o: McqOption) => o.questionId != questionId)
  }

  /** The `options` attached to a joined question: its own options by
      `order_number` for an mcq question, `[]` for any other type. */
  function OptionsFor(os: seq<McqOption>, q: Question): (r: seq<McqOption>)
    ensures q.questionType != Mcq ==> r == []
    ensures q.questionType == Mcq ==>
              multiset(r) == multiset(OptionsOfQuestion(os, q.id)) && SortedBy(r, OptionOrder)
  {
    if q.questionType == Mcq then SortBy(OptionsOfQuestion(os, q.id), OptionOrder) else []
  }

  /** `qs.map(q => ({...q, options: ...}))`. */
  function WithOptions(os: seq<McqOption>, qs: seq<Question>): (r: seq<QuestionDetail>)
    ensures |r| == |qs|
    ensures forall i :: 0 <= i < |r| ==> r[i].question == qs[i] && r[i].options == OptionsFor(os, qs[i])
  {
    if qs == [] then [] else [QuestionDetail(qs[0], OptionsFor(os, qs[0]))] + WithOptions(os, qs[1..])
  }

  /** `ds.map(d => d.question)`. */
  function QuestionsIn(ds: seq<QuestionDetail>): (r: seq<Question>)
    ensures |r| == |ds| && forall i :: 0 <= i < |r| ==> r[i] == ds[i].question
  {
    if ds == [] then [] else [ds[0].question] + QuestionsIn(ds[1..])
  }

  /** The filter / sort / map chain shared by `getQuestionsByPollId`,
      `getPollWithQuestions` and `getResponsesByPollId`. */
  function JoinQuestions(qs: seq<Question>, os: seq<McqOption>, pollId: int): seq<QuestionDetail> {
    WithOptions(os, SortBy(QuestionsOfPoll(qs, pollId), QuestionOrder))
  }

  /** `getQuestionsByPollId(pollId)`. */
  function GetQuestionsByPollId(db: Db, pollId: int): seq<QuestionDetail>
    reads db
  {
    JoinQuestions(db.questions, db.mcqOptions, pollId)
  }

  /** The join's questions are the poll's questions ascending by
      `order_number`, a permutation of them with ties in store order. */
  lemma JoinIsSortedPollQuestions(qs: seq<Question>, os: seq<McqOption>, pollId: int)
    ensures var r := QuestionsIn(JoinQuestions(qs, os, pollId));
            multiset(r) == multiset(QuestionsOfPoll(qs, pollId)) && SortedBy(r, QuestionOrder)
    ensures forall k :: KeyRun(QuestionsIn(JoinQuestions(qs, os, pollId)), QuestionOrder, k)
                        == KeyRun(QuestionsOfPoll(qs, pollId), QuestionOrder, k)
  {
    var s := SortBy(QuestionsOfPoll(qs, pollId), QuestionOrder);
    assert QuestionsIn(JoinQuestions(qs, os, pollId)) == s;
    forall k ensures KeyRun(s, QuestionOrder, k) == KeyRun(QuestionsOfPoll(qs, pollId), QuestionOrder, k) {
      SortByStable(QuestionsOfPoll(qs, pollId), QuestionOrder, k);
    }
  }

  /** A question is in the join iff it is one of the poll's questions. */
  lemma JoinHasExactlyPollQuestions(qs: seq<Question>, os: seq<McqOption>, pollId: int)
    ensures forall q :: q in QuestionsIn(JoinQuestions(qs, os, pollId)) <==> q in qs && q.pollId == pollId
  {
    var r := QuestionsIn(JoinQuestions(qs, os, pollId));
    assert r == SortBy(QuestionsOfPoll(qs, pollId), QuestionOrder);
    forall q ensures q in r <==> q in qs && q.pollId == pollId {
      assert q in r <==> q in multiset(r);
      assert q in QuestionsOfPoll(qs, pollId) <==> q in multiset(QuestionsOfPoll(qs, pollId));
    }
  }

  /** Each joined mcq question carries exactly its options, ascending by
      `order_number`; any other question carries `[]`. */
  lemma JoinedOptionsAreExact(os: seq<McqOption>, q: Question)
    ensures q.questionType == Mcq ==>
              (forall o :: o in OptionsFor(os, q) <==> o in os && o.questionId == q.id)
              && SortedBy(OptionsFor(os, q), OptionOrder)
    ensures q.questionType != Mcq ==> OptionsFor(os, q) == []
  {
    if q.questionType == Mcq {
      forall o ensures o in OptionsFor(os, q) <==> o in os && o.questionId == q.id {
        assert o in OptionsFor(os, q) <==> o in multiset(OptionsFor(os, q));
        assert o in OptionsOfQuestion(os, q.id) <==> o in multiset(OptionsOfQuestion(os, q.id));
      }
    }
  }

  // ---------------------------------------------------------------------
  // createQuestion / updateQuestion / deleteQuestion

  /** The `questionData` of a create: the question fields plus `options`. */
  datatype QuestionInput = QuestionInput(
    pollId: int, questionText: LocalizedText, questionType: QuestionType,
    orderNumber: int, isRequired: bool, allowMultiple: bool,
    maxSelections: Option<int>, options: Option<seq<LocalizedText>>)

  /** A partial `questionData` of an update: each field present or not. */
  datatype QuestionPatch = QuestionPatch(
    pollId: Option<int>, questionText: Option<LocalizedText>,
    questionType: Option<QuestionType>, orderNumber: Option<int>,
    isRequired: Option<bool>, allowMultiple: Option<bool>,
    maxSelections: Option<Option<int>>, options: Option<seq<LocalizedText>>)

  /** The rows pushed by the `options.forEach`: the i-th text gets id
      `first + i` and `order_number` i + 1. */
  function OptionRows(first: int, questionId: int, texts: seq<LocalizedText>, now: int): (r: seq<McqOption>)
    ensures |r| == |texts|
  {
    seq(|texts|, i requires 0 <= i < |texts| => McqOption(first + i, questionId, texts[i], i + 1, now))
  }

  /** The option rows written for `questionId` carry the texts in order with
      `order_number` 1..n, and ids from `first` upwards, all fresh for a
      table whose ids are below `first`. */
  lemma OptionRowsShape(first: int, questionId: int, texts: seq<LocalizedText>, now: int,
                        old_: seq<McqOption>)
    requires AllBelow(old_, OptionId, first)
    ensures var r := OptionRows(first, questionId, texts, now);
            OptionsOfQuestion(r, questionId) == r
            && (forall i :: 0 <= i < |r| ==> r[i].optionText == texts[i] && r[i].orderNumber == i + 1)
            && (forall i, j :: 0 <= i < j < |r| ==> r[i].id < r[j].id)
            && (forall o, p :: o in old_ && p in r ==> o.id < p.id)
            && SortedBy(r, OptionOrder)
  {
    var r := OptionRows(first, questionId, texts, now);
    FilterAll(r, (o: McqOption) => o.questionId == questionId);
  }

  lemma OptionRowsSnoc(first: int, questionId: int, texts: seq<LocalizedText>, k: nat, now: int)
    requires k < |texts|
    ensures OptionRows(first, questionId, texts[..k + 1], now)
            == OptionRows(first, questionId, texts[..k], now)
               + [McqOption(first + k, questionId, texts[k], k + 1, now)]
  {
  }

  /** The option texts a create writes: only for an mcq question with a
      non-empty list. */
  function CreatedOptionTexts(input: QuestionInput): (texts: seq<LocalizedText>)
    ensures texts != [] <==> input.questionType == Mcq && input.options.Some? && input.options.value != []
    ensures texts != [] ==> texts == input.options.value
  {
    if input.questionType == Mcq && input.options.Some? then input.options.value else []
  }

  /** The pushes of one `options.forEach`: fresh ids, order 1..n, in input
      order. */
  method InsertOptions(db: Db, questionId: int, texts: seq<LocalizedText>, now: int)
    requires db.Valid()
    modifies db
    ensures db.Valid()
    ensures db.mcqOptions == old(db.mcqOptions) + OptionRows(old(db.nextId[McqOptions]), questionId, texts, now)
    ensures db.nextId == old(db.nextId)[McqOptions := old(db.nextId[McqOptions]) + |texts|]
    ensures db.Snapshot() == old(db.Snapshot()).(mcqOptions := db.mcqOptions)
    ensures old(db.Keyed()) ==> db.Keyed()
  {
    ghost var first := db.nextId[McqOptions];
    var k := 0;
    while k < |texts|
      invariant 0 <= k <= |texts|
      invariant db.Valid()
      invariant db.mcqOptions == old(db.mcqOptions) + OptionRows(first, questionId, texts[..k], now)
      invariant db.nextId == old(db.nextId)[McqOptions := first + k]
      invariant db.Snapshot() == old(db.Snapshot()).(mcqOptions := db.mcqOptions)
      invariant old(db.Keyed()) ==> db.Keyed()
    {
      var id := db.GenerateId(McqOptions);
      var o := McqOption(id, questionId, texts[k], k + 1, now);
      OptionRowsSnoc(first, questionId, texts, k, now);
      if old(db.Keyed()) {
        AppendFresh(db.mcqOptions, o, OptionId, id);
      }
      db.mcqOptions := db.mcqOptions + [o];
      k := k + 1;
    }
    assert texts[..k] == texts;
  }

  /** `createQuestion(questionData)`: one question row without `options`,
      then the option rows of an mcq question. */
  method CreateQuestion(db: Db, input: QuestionInput, now: int) returns (q: Question)
    requires db.Valid()
    modifies db
    ensures db.Valid()
    ensures q == Question(old(db.nextId[Questions]), input.pollId, input.questionText,
                          input.questionType, input.orderNumber, input.isRequired,
                          input.allowMultiple, input.maxSelections, now, now)
    ensures db.questions == old(db.questions) + [q]
    ensures db.mcqOptions == old(db.mcqOptions)
              + OptionRows(old(db.nextId[McqOptions]), q.id, CreatedOptionTexts(input), now)
    ensures db.nextId == old(db.nextId)[Questions := q.id + 1]
              [McqOptions := old(db.nextId[McqOptions]) + |CreatedOptionTexts(input)|]
    ensures db.Snapshot() == old(db.Snapshot()).(questions := db.questions, mcqOptions := db.mcqOptions)
    ensures old(db.Keyed()) ==> db.Keyed()
  {
    q := AddQuestion(db, input, now);
    var texts := CreatedOptionTexts(input);
    InsertOptions(db, q.id, texts, now);
  }

  /** The question row of `createQuestion`, with a fresh id. */
  method AddQuestion(db: Db, input: QuestionInput, now: int) returns (q: Question)
    requires db.Valid()
    modifies db
    ensures db.Valid()
    ensures q == Question(old(db.nextId[Questions]), input.pollId, input.questionText,
                          input.questionType, input.orderNumber, input.isRequired,
                          input.allowMultiple, input.maxSelections, now, now)
    ensures db.questions == old(db.questions) + [q]
    ensures db.nextId == old(db.nextId)[Questions := q.id + 1]
    ensures db.Snapshot() == old(db.Snapshot()).(questions := db.questions)
    ensures old(db.Keyed()) ==> db.Keyed()
  {
    var id := db.GenerateId(Questions);
    q := Question(id, input.pollId, input.questionText, input.questionType, input.orderNumber,
                  input.isRequired, input.allowMultiple, input.maxSelections, now, now);
    if old(db.Keyed()) {
      AppendFresh(db.questions, q, QuestionId, id);
    }
    db.questions := db.questions + [q];
  }

  /** `{...question, ...questionInfo, updated_at}`. */
  function MergeQuestion(q: Question, patch: QuestionPatch, now: int): (r: Question)
    ensures r.id == q.id && r.createdAt == q.createdAt && r.updatedAt == now
  {
    q.(pollId := patch.pollId.GetOr(q.pollId),
       questionText := patch.questionText.GetOr(q.questionText),
       questionType := patch.questionType.GetOr(q.questionType),
       orderNumber := patch.orderNumber.GetOr(q.orderNumber),
       isRequired := patch.isRequired.GetOr(q.isRequired),
       allowMultiple := patch.allowMultiple.GetOr(q.allowMultiple),
       maxSelections := patch.maxSelections.GetOr(q.maxSelections),
       updatedAt := now)
  }

  /** A supplied field wins, an absent one keeps its value; merging the
      same patch twice is merging it once. */
  lemma MergeQuestionFields(q: Question, patch: QuestionPatch, now: int)
    ensures patch.questionText.Some? ==> MergeQuestion(q, patch, now).questionText == patch.questionText.value
    ensures patch.questionText.None? ==> MergeQuestion(q, patch, now).questionText == q.questionText
    ensures patch.questionType.Some? ==> MergeQuestion(q, patch, now).questionType == patch.questionType.value
    ensures patch.questionType.None? ==> MergeQuestion(q, patch, now).questionType == q.questionType
    ensures patch.maxSelections.Some? ==> MergeQuestion(q, patch, now).maxSelections == patch.maxSelections.value
    ensures patch.maxSelections.None? ==> MergeQuestion(q, patch, now).maxSelections == q.maxSelections
    ensures MergeQuestion(MergeQuestion(q, patch, now), patch, now) == MergeQuestion(q, patch, now)
  {
  }

  /** Whether an update replaces the option set: `question_type === 'mcq' && options`. */
  predicate ReplacesOptions(patch: QuestionPatch) {
    patch.questionType == Some(Mcq) && patch.options.Some?
  }

  /** `updateQuestion(id, questionData)`. */
  method UpdateQuestion(db: Db, id: int, patch: QuestionPatch, now: int) returns (r: Result<Question>)
    requires db.Valid()
    modifies db
    ensures db.Valid()
    ensures IndexOfKey(old(db.questions), QuestionId, id).None? ==>
              r == Failure("Question not found")
              && db.Snapshot() == old(db.Snapshot()) && db.nextId == old(db.nextId)
    ensures IndexOfKey(old(db.questions), QuestionId, id).Some? ==>
              var i := IndexOfKey(old(db.questions), QuestionId, id).value;
              r == Success(MergeQuestion(old(db.questions[i]), patch, now))
              && db.questions == old(db.questions)[i := r.value]
              && (ReplacesOptions(patch) ==>
                    db.mcqOptions == OptionsNotOfQuestion(old(db.mcqOptions), id)
                                     + OptionRows(old(db.nextId[McqOptions]), id, patch.options.value, now)
                    && db.nextId == old(db.nextId)[McqOptions := old(db.nextId[McqOptions]) + |patch.options.value|])
              && (!ReplacesOptions(patch) ==>
                    db.mcqOptions == old(db.mcqOptions) && db.nextId == old(db.nextId))
    ensures db.Snapshot() == old(db.Snapshot()).(questions := db.questions, mcqOptions := db.mcqOptions)
    ensures old(db.Keyed()) ==> db.Keyed()
  {
    var index := IndexOfKey(db.questions, QuestionId, id);
    if index.None? {
      return Failure("Question not found");
    }
    var i := index.value;
    var q := MergeQuestion(db.questions[i], patch, now);
    ReplaceQuestion(db, i, q);
    if ReplacesOptions(patch) {
      ReplaceOptions(db, id, patch.options.value, now);
    }
    return Success(q);
  }

  /** `questions[index] = q` for a row with the same id. */
  method ReplaceQuestion(db: Db, i: nat, q: Question)
    requires db.Valid() && i < |db.questions| && q.id == db.questions[i].id
    modifies db
    ensures db.Valid()
    ensures db.questions == old(db.questions)[i := q]
    ensures db.nextId == old(db.nextId)
    ensures db.Snapshot() == old(db.Snapshot()).(questions := db.questions)
    ensures old(db.Keyed()) ==> db.Keyed()
  {
    ReplaceKeepsBelow(db.questions, i, q, QuestionId, db.nextId[Questions]);
    if db.Keyed() {
      ReplaceKeepsTable(db.questions, i, q, QuestionId, db.nextId[Questions]);
    }
    db.questions := db.questions[i := q];
  }

  /** An mcq update's options: the question's old options go, the new
      texts are inserted. */
  method ReplaceOptions(db: Db, questionId: int, texts: seq<LocalizedText>, now: int)
    requires db.Valid()
    modifies db
    ensures db.Valid()
    ensures db.mcqOptions == OptionsNotOfQuestion(old(db.mcqOptions), questionId)
                             + OptionRows(old(db.nextId[McqOptions]), questionId, texts, now)
    ensures db.nextId == old(db.nextId)[McqOptions := old(db.nextId[McqOptions]) + |texts|]
    ensures db.Snapshot() == old(db.Snapshot()).(mcqOptions := db.mcqOptions)
    ensures old(db.Keyed()) ==> db.Keyed()
  {
    if db.Keyed() {
      FilterKeepsTable(db.mcqOptions, (o: McqOption) => o.questionId != questionId, OptionId, db.nextId[McqOptions]);
    }
    db.mcqOptions := OptionsNotOfQuestion(db.mcqOptions, questionId);
    InsertOptions(db, questionId, texts, now);
  }

  /** After a replacing update the question's options are exactly the
      supplied texts, order 1..n, with ids above every earlier option id,
      and every other question's options are as before. */
  lemma ReplacedOptionsAreExactlyNew(os: seq<McqOption>, id: int, first: int,
                                     texts: seq<LocalizedText>, now: int)
    requires AllBelow(os, OptionId, first)
    ensures var after := OptionsNotOfQuestion(os, id) + OptionRows(first, id, texts, now);
            OptionsOfQuestion(after, id) == OptionRows(first, id, texts, now)
            && (forall o :: o in os && o.questionId != id ==> o in after)
            && (forall o :: o in after && o.questionId != id ==> o in os)
  {
    var kept := OptionsNotOfQuestion(os, id);
    var rows := OptionRows(first, id, texts, now);
    FilterAppend(kept, rows, (o: McqOption) => o.questionId == id);
    FilterNone(kept, (o: McqOption) => o.questionId == id);
    OptionRowsShape(first, id, texts, now, os);
  }

  /** `deleteQuestion(id)`: the question's options go, then the question. */
  method DeleteQuestion(db: Db, id: int) returns (r: Result<bool>)
    requires db.Valid()
    modifies db
    ensures db.Valid()
    ensures IndexOfKey(old(db.questions), QuestionId, id).None? ==>
              r == Failure("Question not found")
              && db.Snapshot() == old(db.Snapshot()) && db.nextId == old(db.nextId)
    ensures IndexOfKey(old(db.questions), QuestionId, id).Some? ==>
              r == Success(true)
              && db.questions == RemoveAt(old(db.questions), IndexOfKey(old(db.questions), QuestionId, id).value)
              && db.mcqOptions == OptionsNotOfQuestion(old(db.mcqOptions), id)
    ensures db.nextId == old(db.nextId)
    ensures db.Snapshot() == old(db.Snapshot()).(questions := db.questions, mcqOptions := db.mcqOptions)
    ensures old(db.Keyed()) ==> db.Keyed()
  {
    var index := IndexOfKey(db.questions, QuestionId, id);
    if index.None? {
      return Failure("Question not found");
    }
    var i := index.value;
    RemoveAtMembers(db.questions, i);
    if db.Keyed() {
      FilterKeepsTable(db.mcqOptions, (o: McqOption) => o.questionId != id, OptionId, db.nextId[McqOptions]);
      RemoveAtKeepsTable(db.questions, i, QuestionId, db.nextId[Questions]);
    }
    db.mcqOptions := OptionsNotOfQuestion(db.mcqOptions, id);
    db.questions := RemoveAt(db.questions, i);
    return Success(true);
  }

  /** With distinct question ids, deleting removes exactly the question with
      that id and exactly its options. */
  lemma DeleteQuestionRemovesExactly(qs: seq<Question>, os: seq<McqOption>, i: nat, id: int)
    requires i < |qs| && qs[i].id == id && DistinctBy(qs, QuestionId)
    ensures forall q :: q in RemoveAt(qs, i) <==> q in qs && q.id != id
    ensures forall o :: o in OptionsNotOfQuestion(os, id) <==> o in os && o.questionId != id
  {
    RemoveAtMembers(qs, i);
    forall q | q in RemoveAt(qs, i) ensures q.id != id {
      var r := RemoveAt(qs, i);
      var m :| 0 <= m < |r| && r[m] == q;
      if m < i { assert r[m] == qs[m]; } else { assert r[m] == qs[m + 1]; }
    }
  }
}
