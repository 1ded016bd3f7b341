/** src/services/pollService.js: poll reads, create / update, and the
    delete that cascades to questions, options and responses. */
module PollService {
  import opened Wrappers
  import opened MultiLang
  import opened Seqs
  import opened Sorting
  import opened MockData
  import opened QuestionService

  /** Newest first: `new Date(b.created_at) - new Date(a.created_at)`. */
  function Recency(p: Poll): int { -p.createdAt }

  /** `getAllPolls()`: a sorted copy, newest first; the store is untouched. */
  function GetAllPolls(db: Db): (r: seq<Poll>)
    reads db
    ensures multiset(r) == multiset(db.polls)
    ensures forall i, j :: 0 <= i < j < |r| ==> r[i].createdAt >= r[j].createdAt
  {
    var r := SortBy(db.polls, Recency);
    assert SortedBy(r, Recency);
    r
  }

  /** Polls created at the same instant keep their store order. */
  lemma GetAllPollsStable(db: Db, k: int)
    ensures KeyRun(GetAllPolls(db), Recency, k) == KeyRun(db.polls, Recency, k)
  {
    SortByStable(db.polls, Recency, k);
  }

  /** `getPollById(id)`: the first poll with the id. */
  function GetPollById(db: Db, id: int): (r: Result<Poll>)
    reads db
    ensures r.Failure? <==> forall p :: p in db.polls ==> p.id != id
    ensures r.Failure? ==> r.error == "Poll not found"
    ensures r.Success? ==> r.value in db.polls && r.value.id == id
    ensures r.Success? ==> exists i :: 0 <= i < |db.polls| && db.polls[i] == r.value
                                       && forall j :: 0 <= j < i ==> db.polls[j].id != id
  {
    match IndexOfKey(db.polls, PollId, id)
    case None =>
      assert forall p :: p in db.polls ==> p.id != id by {
        forall p | p in db.polls ensures p.id != id {
          var m :| 0 <= m < |db.polls| && db.polls[m] == p;
          assert PollId(db.polls[m]) != id;
        }
      }
      Failure("Poll not found")
    case Some(i) =>
      assert db.polls[i] in db.polls;
      Success(db.polls[i])
  }

  /** The fields a poll form submits. */
  datatype PollInput = PollInput(title: LocalizedText, description: LocalizedText,
                                 status: PollStatus, startDate: int, endDate: int)

  /** `createPoll(pollData)`: a fresh id, `admin_id` 1, both timestamps `now`. */
  method CreatePoll(db: Db, input: PollInput, now: int) returns (p: Poll)
    requires db.Valid()
    modifies db
    ensures db.Valid()
    ensures p == Poll(old(db.nextId[Polls]), input.title, input.description, 1, input.status,
                      input.startDate, input.endDate, now, now)
    ensures forall q :: q in old(db.polls) ==> q.id != p.id
    ensures db.polls == old(db.polls) + [p]
    ensures db.nextId == old(db.nextId)[Polls := p.id + 1]
    ensures db.Snapshot() == old(db.Snapshot()).(polls := db.polls)
    ensures old(db.Keyed()) ==> db.Keyed()
  {
    var id := db.GenerateId(Polls);
    p := Poll(id, input.title, input.description, 1, input.status,
              input.startDate, input.endDate, now, now);
    if old(db.Keyed()) {
      AppendFresh(db.polls, p, PollId, id);
    }
    db.polls := db.polls + [p];
  }

  /** A partial `pollData` of an update. */
  datatype PollPatch = PollPatch(title: Option<LocalizedText>, description: Option<LocalizedText>,
                                 status: Option<PollStatus>, startDate: Option<int>,
                                 endDate: Option<int>)

  /** `{...poll, ...pollData, updated_at}`. */
  function MergePoll(p: Poll, patch: PollPatch, now: int): (r: Poll)
    ensures r.id == p.id && r.adminId == p.adminId && r.createdAt == p.createdAt
    ensures r.updatedAt == now
  {
    p.(title := patch.title.GetOr(p.title),
       description := patch.description.GetOr(p.description),
       status := patch.status.GetOr(p.status),
       startDate := patch.startDate.GetOr(p.startDate),
       endDate := patch.endDate.GetOr(p.endDate),
       updatedAt := now)
  }

  /** A supplied field wins and an absent one keeps its value; merging the
      same patch twice is merging it once. */
  lemma MergePollFields(p: Poll, patch: PollPatch, now: int)
    ensures patch.title.Some? ==> MergePoll(p, patch, now).title == patch.title.value
    ensures patch.title.None? ==> MergePoll(p, patch, now).title == p.title
    ensures patch.status.Some? ==> MergePoll(p, patch, now).status == patch.status.value
    ensures patch.status.None? ==> MergePoll(p, patch, now).status == p.status
    ensures patch.endDate.None? ==> MergePoll(p, patch, now).endDate == p.endDate
    ensures MergePoll(MergePoll(p, patch, now), patch, now) == MergePoll(p, patch, now)
  {
  }

  /** `updatePoll(id, pollData)`: merge into the first poll with the id. */
  method UpdatePoll(db: Db, id: int, patch: PollPatch, now: int) returns (r: Result<Poll>)
    requires db.Valid()
    modifies db
    ensures db.Valid()
    ensures IndexOfKey(old(db.polls), PollId, id).None? ==>
              r == Failure("Poll not found") && db.polls == old(db.polls)
    ensures IndexOfKey(old(db.polls), PollId, id).Some? ==>
              var i := IndexOfKey(old(db.polls), PollId, id).value;
              r == Success(MergePoll(old(db.polls[i]), patch, now))
              && db.polls == old(db.polls)[i := r.value]
    ensures |db.polls| == |old(db.polls)|
    ensures db.nextId == old(db.nextId)
    ensures db.Snapshot() == old(db.Snapshot()).(polls := db.polls)
    ensures old(db.Keyed()) ==> db.Keyed()
  {
    var index := IndexOfKey(db.polls, PollId, id);
    if index.None? {
      return Failure("Poll not found");
    }
    var i := index.value;
    var p := MergePoll(db.polls[i], patch, now);
    ReplaceKeepsBelow(db.polls, i, p, PollId, db.nextId[Polls]);
    if db.Keyed() {
      ReplaceKeepsTable(db.polls, i, p, PollId, db.nextId[Polls]);
    }
    db.polls := db.polls[i := p];
    return Success(p);
  }

  // ---------------------------------------------------------------------
  // deletePoll

  /** `questions.filter(q => q.poll_id === id).map(q => q.id)`. */
  function QuestionIdsOfPoll(qs: seq<Question>, pollId: int): (r: seq<int>)
    ensures forall k :: k in r <==> exists q :: q in qs && q.pollId == pollId && q.id == k
  {
    if qs == [] then []
    else (if qs[0].pollId == pollId then [qs[0].id] else []) + QuestionIdsOfPoll(qs[1..], pollId)
  }

  function QuestionsNotOfPoll(qs: seq<Question>, pollId: int): (r: seq<Question>)
    ensures forall q :: q in r <==> q in qs && q.pollId != pollId
  {
    Filter(qs, (q: Question) => q.pollId != pollId)
  }

  /** `mcq_options.filter(o => !questionIds.includes(o.question_id))`. */
  function OptionsNotOfQuestions(os: seq<McqOption>, questionIds: seq<int>): (r: seq<McqOption>)
    ensures forall o :: o in r <==> o in os && o.questionId !in questionIds
  {
    Filter(os, (o: McqOption) => o.questionId !in questionIds)
  }

  function ResponsesNotOfPoll(rs: seq<Response>, pollId: int): (r: seq<Response>)
    ensures forall x :: x in r <==> x in rs && x.pollId != pollId
  {
    Filter(rs, (x: Response) => x.pollId != pollId)
  }

  /** The tables after `deletePoll(id)` removed the poll at index `i`. */
  function AfterDeletePoll(t: Tables, i: nat, pollId: int): Tables
    requires i < |t.polls|
  {
    t.(polls := RemoveAt(t.polls, i),
       questions := QuestionsNotOfPoll(t.questions, pollId),
       mcqOptions := OptionsNotOfQuestions(t.mcqOptions, QuestionIdsOfPoll(t.questions, pollId)),
       responses := ResponsesNotOfPoll(t.responses, pollId))
  }

  /** `deletePoll(id)`. */
  method DeletePoll(db: Db, id: int) returns (r: Result<bool>)
    requires db.Valid()
    modifies db
    ensures db.Valid()
    ensures IndexOfKey(old(db.polls), PollId, id).None? ==>
              r == Failure("Poll not found") && db.Snapshot() == old(db.Snapshot())
    ensures IndexOfKey(old(db.polls), PollId, id).Some? ==>
              r == Success(true)
              && db.Snapshot() == AfterDeletePoll(old(db.Snapshot()), IndexOfKey(old(db.polls), PollId, id).value, id)
    ensures db.nextId == old(db.nextId)
    ensures old(db.Keyed()) ==> db.Keyed()
  {
    var index := IndexOfKey(db.polls, PollId, id);
    if index.None? {
      return Failure("Poll not found");
    }
    var i := index.value;
    var questionIds := QuestionIdsOfPoll(db.questions, id);
    ghost var after := AfterDeletePoll(db.Snapshot(), i, id);
    AfterDeletePollKeepsIds(db.Snapshot(), db.nextId, i, id);
    db.questions := QuestionsNotOfPoll(db.questions, id);
    db.mcqOptions := OptionsNotOfQuestions(db.mcqOptions, questionIds);
    db.responses := ResponsesNotOfPoll(db.responses, id);
    db.polls := RemoveAt(db.polls, i);
    assert db.Snapshot() == after;
    return Success(true);
  }

  /** Deleting only removes rows: the counters stay fresh and ids stay distinct. */
  lemma AfterDeletePollKeepsIds(t: Tables, next: map<Entity, int>, i: nat, pollId: int)
    requires i < |t.polls| && Fresh(t, next)
    ensures Fresh(AfterDeletePoll(t, i, pollId), next)
    ensures DistinctIds(t) ==> DistinctIds(AfterDeletePoll(t, i, pollId))
  {
    var u := AfterDeletePoll(t, i, pollId);
    RemoveAtMembers(t.polls, i);
    assert AllBelow(u.polls, PollId, next[Polls]) by {
      forall p | p in u.polls ensures p.id < next[Polls] { assert p in t.polls; }
    }
    if DistinctIds(t) {
      FilterKeepsTable(t.questions, (q: Question) => q.pollId != pollId, QuestionId, next[Questions]);
      FilterKeepsTable(t.mcqOptions, (o: McqOption) => o.questionId !in QuestionIdsOfPoll(t.questions, pollId),
                       OptionId, next[McqOptions]);
      FilterKeepsTable(t.responses, (x: Response) => x.pollId != pollId, ResponseId, next[Responses]);
      RemoveAtKeepsTable(t.polls, i, PollId, next[Polls]);
    }
  }

  /** What the delete removes: the poll, its questions, their options and
      its responses; the rows of every other poll stay (given distinct
      question ids), and both answer tables are left exactly as they were. */
  lemma DeletePollCascade(t: Tables, i: nat, pollId: int)
    requires i < |t.polls| && t.polls[i].id == pollId
    requires DistinctBy(t.polls, PollId) && DistinctBy(t.questions, QuestionId)
    ensures var u := AfterDeletePoll(t, i, pollId);
            (forall p :: p in u.polls <==> p in t.polls && p.id != pollId)
            && (forall q :: q in u.questions <==> q in t.questions && q.pollId != pollId)
            && (forall r :: r in u.responses <==> r in t.responses && r.pollId != pollId)
            && (forall o :: o in u.mcqOptions ==> o in t.mcqOptions)
            && (forall o, q :: (o in t.mcqOptions && q in t.questions && q.pollId == pollId
                                && o.questionId == q.id) ==> o !in u.mcqOptions)
            && (forall o, q :: (o in t.mcqOptions && q in t.questions && q.pollId != pollId
                                && o.questionId == q.id) ==> o in u.mcqOptions)
            && u.mcqAnswers == t.mcqAnswers && u.textAnswers == t.textAnswers
            && u.admins == t.admins
  {
    var u := AfterDeletePoll(t, i, pollId);
    RemoveAtMembers(t.polls, i);
    forall p | p in u.polls ensures p.id != pollId {
      var r := RemoveAt(t.polls, i);
      var m :| 0 <= m < |r| && r[m] == p;
      if m < i { assert r[m] == t.polls[m]; } else { assert r[m] == t.polls[m + 1]; }
    }
  }

  /** The two-response seed shows the answers a delete leaves behind: after
      deleting poll 1, the seed's mcq answers name responses that are gone. */
  lemma DeletingSeedPollLeavesDanglingAnswers()
    ensures !McqAnswersLinked(AfterDeletePoll(InitialData, 0, 1))
  {
    var u := AfterDeletePoll(InitialData, 0, 1);
    assert forall x :: x in u.responses ==> x in SeedResponses && x.pollId != 1;
    assert u.mcqAnswers[0] in u.mcqAnswers;
  }

  // ---------------------------------------------------------------------
  // getPollWithQuestions

  /** A poll with its joined `questions`. */
  datatype PollDetail = PollDetail(poll: Poll, questions: seq<QuestionDetail>)

  /** `getPollWithQuestions(id)`: the poll and exactly its questions, in
      `order_number` order, each mcq question with its options. */
  function GetPollWithQuestions(db: Db, id: int): (r: Result<PollDetail>)
    reads db
    ensures r.Failure? <==> GetPollById(db, id).Failure?
    ensures r.Failure? ==> r.error == "Poll not found"
    ensures r.Success? ==> r.value.poll == GetPollById(db, id).value && r.value.poll.id == id
    ensures r.Success? ==> SortedBy(QuestionsIn(r.value.questions), QuestionOrder)
    ensures r.Success? ==> forall q :: q in QuestionsIn(r.value.questions)
                                       <==> q in db.questions && q.pollId == id
    ensures r.Success? ==> r.value.questions == GetQuestionsByPollId(db, id)
  {
    match GetPollById(db, id)
    case Failure(e) => Failure(e)
    case Success(p) =>
      JoinIsSortedPollQuestions(db.questions, db.mcqOptions, id);
      JoinHasExactlyPollQuestions(db.questions, db.mcqOptions, id);
      Success(PollDetail(p, GetQuestionsByPollId(db, id)))
  }
}
