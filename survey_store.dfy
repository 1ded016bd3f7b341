/** src/store/surveyStore.js: the client cache of polls and questions and
    its loading and error flags, updated by each action after the service
    call it wraps. */
module SurveyStore {
  import opened Wrappers
  import opened Seqs
  import opened MockData
  import opened QuestionService
  import opened PollService

  /** `currentPoll`: a poll with its questions after `fetchPollById`, the
      bare record returned by `updatePoll`. */
  datatype CachedPoll = CachedPoll(poll: Poll, questions: Option<seq<QuestionDetail>>)

  /** An entry of `questions`: `options` is there for fetched questions and
      missing for the records returned by create and update. */
  datatype CachedQuestion = CachedQuestion(question: Question, options: Option<seq<McqOption>>)

  function CachedPollId(p: Poll): int { p.id }
  function CachedQuestionId(q: CachedQuestion): int { q.question.id }

  /** `s.map(x => key(x) === id ? x' : x)`. */
  function ReplaceWhere<T>(s: seq<T>, key: T -> int, id: int, x: T): (r: seq<T>)
    ensures |r| == |s|
    ensures forall i :: 0 <= i < |s| ==> r[i] == if key(s[i]) == id then x else s[i]
  {
    seq(|s|, i requires 0 <= i < |s| => if key(s[i]) == id then x else s[i])
  }

  /** `s.filter(x => key(x) !== id)`. */
  function RemoveWhere<T>(s: seq<T>, key: T -> int, id: int): seq<T> {
    Filter(s, (x: T) => key(x) != id)
  }

  /** Removing by id leaves no entry with the id, keeps every other entry
      and keeps their order. */
  lemma RemoveWhereMeaning<T>(s: seq<T>, key: T -> int, id: int)
    ensures forall x :: x in RemoveWhere(s, key, id) <==> x in s && key(x) != id
    ensures IsSubseq(RemoveWhere(s, key, id), s)
  {
    FilterIsSubseq(s, (x: T) => key(x) != id);
  }

  /** Replacing by id touches only entries with the id, and an entry with
      the id is always the new value afterwards. */
  lemma ReplaceWhereMeaning<T>(s: seq<T>, key: T -> int, id: int, x: T)
    ensures forall y :: y in ReplaceWhere(s, key, id, x) ==> y == x || (y in s && key(y) != id)
    ensures (exists i :: 0 <= i < |s| && key(s[i]) == id) ==> x in ReplaceWhere(s, key, id, x)
  {
    var r := ReplaceWhere(s, key, id, x);
    forall y | y in r ensures y == x || (y in s && key(y) != id) {
      var i :| 0 <= i < |r| && r[i] == y;
    }
    if exists i :: 0 <= i < |s| && key(s[i]) == id {
      var i :| 0 <= i < |s| && key(s[i]) == id;
      assert r[i] == x;
    }
  }

  function Detailed(ds: seq<QuestionDetail>): (r: seq<CachedQuestion>)
    ensures |r| == |ds|
    ensures forall i :: 0 <= i < |ds| ==> r[i] == CachedQuestion(ds[i].question, Some(ds[i].options))
  {
    seq(|ds|, i requires 0 <= i < |ds| => CachedQuestion(ds[i].question, Some(ds[i].options)))
  }

  class Store {
    var polls: seq<Poll>
    var currentPoll: Option<CachedPoll>
    var questions: seq<CachedQuestion>
    var loading: bool
    var error: Option<string>

    constructor ()
      ensures polls == [] && currentPoll == None && questions == []
      ensures !loading && error == None
    {
      polls := [];
      currentPoll := None;
      questions := [];
      loading := false;
      error := None;
    }

    /** `set({ loading: true, error: null })`. */
    method Begin()
      modifies this
      ensures loading && error == None
      ensures polls == old(polls) && currentPoll == old(currentPoll) && questions == old(questions)
    {
      loading := true;
      error := None;
    }

    /** The catch branch: `set({ error: error.message, loading: false })`. */
    method Fail(message: string)
      modifies this
      ensures !loading && error == Some(message)
      ensures polls == old(polls) && currentPoll == old(currentPoll) && questions == old(questions)
    {
      error := Some(message);
      loading := false;
    }

    method FetchPolls(db: Db)
      modifies this
      ensures polls == GetAllPolls(db)
      ensures !loading && error == None
      ensures currentPoll == old(currentPoll) && questions == old(questions)
    {
      Begin();
      polls := GetAllPolls(db);
      loading := false;
    }

    method FetchPollById(db: Db, id: int) returns (r: Result<PollDetail>)
      modifies this
      ensures r == GetPollWithQuestions(db, id)
      ensures !loading && polls == old(polls)
      ensures r.Success? ==> currentPoll == Some(CachedPoll(r.value.poll, Some(r.value.questions)))
                             && questions == Detailed(r.value.questions) && error == None
      ensures r.Failure? ==> currentPoll == old(currentPoll) && questions == old(questions)
                             && error == Some(r.error)
    {
      r := GetPollWithQuestions(db, id);
      Fetched(r);
    }

    /** The state change of `fetchPollById` once the service has answered. */
    method Fetched(r: Result<PollDetail>)
      modifies this
      ensures !loading && polls == old(polls)
      ensures r.Success? ==> currentPoll == Some(CachedPoll(r.value.poll, Some(r.value.questions)))
                             && questions == Detailed(r.value.questions) && error == None
      ensures r.Failure? ==> currentPoll == old(currentPoll) && questions == old(questions)
                             && error == Some(r.error)
    {
      Begin();
      if r.Failure? {
        Fail(r.error);
        return;
      }
      currentPoll := Some(CachedPoll(r.value.poll, Some(r.value.questions)));
      questions := Detailed(r.value.questions);
      loading := false;
    }

    /** `createPoll(pollData)`: the service's new poll goes to the front of
        the cache. */
    method CreatePoll(db: Db, input: PollInput, now: int) returns (p: Poll)
      requires db.Valid()
      modifies this, db
      ensures db.Valid()
      ensures p == Poll(old(db.nextId[Polls]), input.title, input.description, 1, input.status,
                        input.startDate, input.endDate, now, now)
      ensures db.polls == old(db.polls) + [p]
      ensures db.nextId == old(db.nextId)[Polls := p.id + 1]
      ensures db.Snapshot() == old(db.Snapshot()).(polls := db.polls)
      ensures old(db.Keyed()) ==> db.Keyed()
      ensures polls == [p] + old(polls)
      ensures !loading && error == None
      ensures currentPoll == old(currentPoll) && questions == old(questions)
    {
      Begin();
      p := PollService.CreatePoll(db, input, now);
      polls := [p] + polls;
      loading := false;
    }

    /** `updatePoll(id, pollData)`: the merged poll replaces the cached
        entries with the id, and `currentPoll` when it is that poll. */
    method UpdatePoll(db: Db, id: int, patch: PollPatch, now: int) returns (r: Result<Poll>)
      requires db.Valid()
      modifies this, db
      ensures db.Valid()
      ensures r.Failure? <==> IndexOfKey(old(db.polls), PollId, id).None?
      ensures r.Failure? ==> r.error == "Poll not found" && db.Snapshot() == old(db.Snapshot())
      ensures r.Success? ==>
                var i := IndexOfKey(old(db.polls), PollId, id).value;
                r.value == MergePoll(old(db.polls[i]), patch, now) && db.polls == old(db.polls)[i := r.value]
      ensures db.nextId == old(db.nextId)
      ensures db.Snapshot() == old(db.Snapshot()).(polls := db.polls)
      ensures old(db.Keyed()) ==> db.Keyed()
      ensures !loading && questions == old(questions)
      ensures r.Failure? ==> polls == old(polls) && currentPoll == old(currentPoll) && error == Some(r.error)
      ensures r.Success? ==> polls == ReplaceWhere(old(polls), CachedPollId, id, r.value) && error == None
      ensures r.Success? ==> currentPoll == if old(currentPoll).Some? && old(currentPoll).value.poll.id == id
                                          then Some(CachedPoll(r.value, None)) else old(currentPoll)
    {
      Begin();
      r := PollService.UpdatePoll(db, id, patch, now);
      if r.Failure? {
        Fail(r.error);
        return;
      }
      polls := ReplaceWhere(polls, CachedPollId, id, r.value);
      if currentPoll.Some? && currentPoll.value.poll.id == id {
        currentPoll := Some(CachedPoll(r.value, None));
      }
      loading := false;
    }

    /** `deletePoll(id)`: after the service's cascade the poll leaves the
        cache; `currentPoll` is not touched. */
    method DeletePoll(db: Db, id: int) returns (r: Result<bool>)
      requires db.Valid()
      modifies this, db
      ensures db.Valid()
      ensures r.Failure? <==> IndexOfKey(old(db.polls), PollId, id).None?
      ensures r.Failure? ==> r.error == "Poll not found" && db.Snapshot() == old(db.Snapshot())
      ensures r.Success? ==>
                db.Snapshot() == AfterDeletePoll(old(db.Snapshot()), IndexOfKey(old(db.polls), PollId, id).value, id)
      ensures db.nextId == old(db.nextId)
      ensures old(db.Keyed()) ==> db.Keyed()
      ensures !loading && currentPoll == old(currentPoll) && questions == old(questions)
      ensures r.Failure? ==> polls == old(polls) && error == Some(r.error)
      ensures r.Success? ==> polls == RemoveWhere(old(polls), CachedPollId, id) && error == None
    {
      Begin();
      r := PollService.DeletePoll(db, id);
      if r.Failure? {
        Fail(r.error);
        return;
      }
      polls := RemoveWhere(polls, CachedPollId, id);
      loading := false;
    }

    method FetchQuestions(db: Db, pollId: int)
      modifies this
      ensures questions == Detailed(GetQuestionsByPollId(db, pollId))
      ensures !loading && error == None
      ensures polls == old(polls) && currentPoll == old(currentPoll)
    {
      Begin();
      questions := Detailed(GetQuestionsByPollId(db, pollId));
      loading := false;
    }

    /** `createQuestion(questionData)`: the service's new question is
        appended to the cache. */
    method CreateQuestion(db: Db, input: QuestionInput, now: int) returns (q: Question)
      requires db.Valid()
      modifies this, db
      ensures db.Valid()
      ensures q == Question(old(db.nextId[Questions]), input.pollId, input.questionText,
                            input.questionType, input.orderNumber, input.isRequired,
                            input.allowMultiple, input.maxSelections, now, now)
      ensures db.questions == old(db.questions) + [q]
      ensures db.mcqOptions == old(db.mcqOptions)
                + OptionRows(old(db.nextId[McqOptions]), q.id, CreatedOptionTexts(input), now)
      ensures db.nextId == old(db.nextId)[Questions := q.id + 1]
                [McqOptions := old(db.nextId[McqOptions]) + |CreatedOptionTexts(input)|]
      ensures db.Snapshot() == old(db.Snapshot()).(questions := db.questions, mcqOptions := db.mcqOptions)
      ensures old(db.Keyed()) ==> db.Keyed()
      ensures questions == old(questions) + [CachedQuestion(q, None)]
      ensures !loading && error == None
      ensures polls == old(polls) && currentPoll == old(currentPoll)
    {
      Begin();
      q := QuestionService.CreateQuestion(db, input, now);
      questions := questions + [CachedQuestion(q, None)];
      loading := false;
    }

    /** `updateQuestion(id, questionData)`: the merged question replaces the
        cached entries with the id. */
    method UpdateQuestion(db: Db, id: int, patch: QuestionPatch, now: int) returns (r: Result<Question>)
      requires db.Valid()
      modifies this, db
      ensures db.Valid()
      ensures r.Failure? <==> IndexOfKey(old(db.questions), QuestionId, id).None?
      ensures r.Failure? ==>
                r.error == "Question not found" && db.Snapshot() == old(db.Snapshot()) && db.nextId == old(db.nextId)
      ensures r.Success? ==>
                var i := IndexOfKey(old(db.questions), QuestionId, id).value;
                r.value == MergeQuestion(old(db.questions[i]), patch, now)
                && db.questions == old(db.questions)[i := r.value]
                && (ReplacesOptions(patch) ==>
                      db.mcqOptions == OptionsNotOfQuestion(old(db.mcqOptions), id)
                                       + OptionRows(old(db.nextId[McqOptions]), id, patch.options.value, now)
                      && db.nextId == old(db.nextId)[McqOptions := old(db.nextId[McqOptions]) + |patch.options.value|])
                && (!ReplacesOptions(patch) ==> db.mcqOptions == old(db.mcqOptions) && db.nextId == old(db.nextId))
      ensures db.Snapshot() == old(db.Snapshot()).(questions := db.questions, mcqOptions := db.mcqOptions)
      ensures old(db.Keyed()) ==> db.Keyed()
      ensures !loading && polls == old(polls) && currentPoll == old(currentPoll)
      ensures r.Failure? ==> questions == old(questions) && error == Some(r.error)
      ensures r.Success? ==> questions == ReplaceWhere(old(questions), CachedQuestionId, id, CachedQuestion(r.value, None))
                             && error == None
    {
      Begin();
      r := QuestionService.UpdateQuestion(db, id, patch, now);
      if r.Failure? {
        Fail(r.error);
        return;
      }
      questions := ReplaceWhere(questions, CachedQuestionId, id, CachedQuestion(r.value, None));
      loading := false;
    }

    /** `deleteQuestion(id)`: after the service removes the question and its
        options, it leaves the cache. */
    method DeleteQuestion(db: Db, id: int) returns (r: Result<bool>)
      requires db.Valid()
      modifies this, db
      ensures db.Valid()
      ensures r.Failure? <==> IndexOfKey(old(db.questions), QuestionId, id).None?
      ensures r.Failure? ==> r.error == "Question not found" && db.Snapshot() == old(db.Snapshot())
      ensures r.Success? ==>
                db.questions == RemoveAt(old(db.questions), IndexOfKey(old(db.questions), QuestionId, id).value)
                && db.mcqOptions == OptionsNotOfQuestion(old(db.mcqOptions), id)
      ensures db.nextId == old(db.nextId)
      ensures db.Snapshot() == old(db.Snapshot()).(questions := db.questions, mcqOptions := db.mcqOptions)
      ensures old(db.Keyed()) ==> db.Keyed()
      ensures !loading && polls == old(polls) && currentPoll == old(currentPoll)
      ensures r.Failure? ==> questions == old(questions) && error == Some(r.error)
      ensures r.Success? ==> questions == RemoveWhere(old(questions), CachedQuestionId, id) && error == None
    {
      Begin();
      r := QuestionService.DeleteQuestion(db, id);
      if r.Failure? {
        Fail(r.error);
        return;
      }
      questions := RemoveWhere(questions, CachedQuestionId, id);
      loading := false;
    }

    method ClearError()
      modifies this
      ensures error == None
      ensures polls == old(polls) && currentPoll == old(currentPoll) && questions == old(questions)
      ensures loading == old(loading)
    {
      error := None;
    }

    method ClearCurrentPoll()
      modifies this
      ensures currentPoll == None && questions == []
      ensures polls == old(polls) && loading == old(loading) && error == old(error)
    {
      currentPoll := None;
      questions := [];
    }
  }
}
