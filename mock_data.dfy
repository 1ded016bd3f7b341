/** The in-memory survey database of src/services/mockData.js: six record
    tables (plus the admins), a per-table id counter and `generateId`.

    Date-time strings are modelled as instants in milliseconds since the
    epoch; the seed's ISO strings are converted once here. */
module MockData {
  import opened Wrappers
  import opened MultiLang
  import opened Seqs

  datatype PollStatus = Draft | Active | Inactive | Completed

  /** `question_type`; the form only produces 'mcq' and 'text', any other
      string is carried as `OtherType`. */
  datatype QuestionType = Mcq | Text | OtherType(name: string)

  datatype Admin = Admin(id: int, username: string, email: string,
                         passwordHash: string, fullName: string, createdAt: int)

  datatype Poll = Poll(id: int, title: LocalizedText, description: LocalizedText,
                       adminId: int, status: PollStatus, startDate: int, endDate: int,
                       createdAt: int, updatedAt: int)

  datatype Question = Question(id: int, pollId: int, questionText: LocalizedText,
                               questionType: QuestionType, orderNumber: int,
                               isRequired: bool, allowMultiple: bool,
                               maxSelections: Option<int>, createdAt: int, updatedAt: int)

  datatype McqOption = McqOption(id: int, questionId: int, optionText: LocalizedText,
                                 orderNumber: int, createdAt: int)

  datatype Response = Response(id: int, pollId: int, sessionId: string, ipAddress: string,
                               userAgent: string, submittedAt: int)

  /** `option_id` is None when the stored value is no number at all (the
      `undefined` of an unanswered single-select question). */
  datatype McqAnswer = McqAnswer(id: int, responseId: int, questionId: int,
                                 optionId: Option<int>, answeredAt: int)

  datatype TextAnswer = TextAnswer(id: int, responseId: int, questionId: int,
                                   answerText: string, answeredAt: int)

  /** The collections that have an id counter. */
  datatype Entity = Polls | Questions | McqOptions | Responses | McqAnswers | TextAnswers

  /** The whole database as one value: the shape written to storage. */
  datatype Tables = Tables(admins: seq<Admin>, polls: seq<Poll>, questions: seq<Question>,
                           mcqOptions: seq<McqOption>, responses: seq<Response>,
                           mcqAnswers: seq<McqAnswer>, textAnswers: seq<TextAnswer>)

  // Key functions, passed by name so that every use denotes the same function.
  function AdminId(a: Admin): int { a.id }
  function PollId(p: Poll): int { p.id }
  function QuestionId(q: Question): int { q.id }
  function OptionId(o: McqOption): int { o.id }
  function ResponseId(r: Response): int { r.id }
  function McqAnswerId(a: McqAnswer): int { a.id }
  function TextAnswerId(a: TextAnswer): int { a.id }

  // ---------------------------------------------------------------------
  // Seed data (`initialData`)

  const SeedAdmins: seq<Admin> := [
    Admin(1, "admin", "admin@survey.com", "admin123", "System Administrator", 1704067200000)
  ]

  const SeedPolls: seq<Poll> := [
    Poll(1, Poll1Title, Poll1Description, 1, Active, 1704067200000, 1735689599000, 1704067200000, 1704067200000),
    Poll(2, Poll2Title, Poll2Description, 1, Active, 1705276800000, 1719791999000, 1705276800000, 1705276800000)
  ]

  const SeedQuestions: seq<Question> := [
    Question(1, 1, Question1Text, Mcq, 1, true, false, Some(1), 1704067200000, 1704067200000),
    Question(2, 1, Question2Text, Text, 2, false, false, None, 1704067200000, 1704067200000),
    Question(3, 2, Question3Text, Mcq, 1, true, true, Some(3), 1705276800000, 1705276800000)
  ]

  const SeedMcqOptions: seq<McqOption> := [
    McqOption(1, 1, Option1Text, 1, 1704067200000),
    McqOption(2, 1, Option2Text, 2, 1704067200000),
    McqOption(3, 1, Option3Text, 3, 1704067200000),
    McqOption(4, 1, Option4Text, 4, 1704067200000),
    McqOption(5, 1, Option5Text, 5, 1704067200000),
    McqOption(6, 3, Option6Text, 1, 1705276800000),
    McqOption(7, 3, Option7Text, 2, 1705276800000),
    McqOption(8, 3, Option8Text, 3, 1705276800000),
    McqOption(9, 3, Option9Text, 4, 1705276800000)
  ]

  const SeedResponses: seq<Response> := [
    Response(1, 1, "session_123", "192.168.1.1", "Mozilla/5.0...", 1704882600000),
    Response(2, 1, "session_456", "192.168.1.2", "Mozilla/5.0...", 1704982800000)
  ]

  const SeedMcqAnswers: seq<McqAnswer> := [
    McqAnswer(1, 1, 1, Some(1), 1704882600000),
    McqAnswer(2, 2, 1, Some(2), 1704982800000)
  ]

  const SeedTextAnswers: seq<TextAnswer> := [
    TextAnswer(1, 1, 2, "Better mobile app", 1704882600000),
    TextAnswer(2, 2, 2, "Faster response times", 1704982800000)
  ]

  // Seed texts

  const Poll1Title: LocalizedText :=
    Localized("استطلاع رضا العملاء",
              "Customer Satisfaction Survey",
              "ڕاپرسی ڕەزامەندی کڕیاران")

  const Poll1Description: LocalizedText :=
    Localized("ساعدنا في تحسين خدماتنا من خلال مشاركة ملاحظاتك",
              "Help us improve our services by sharing your feedback",
              "یارمەتیمان بدە بۆ باشترکردنی خزمەتگوزارییەکانمان بە هاوبەشکردنی بۆچوونەکانت")

  const Poll2Title: LocalizedText :=
    Localized("استطلاع رأي عن المنتج",
              "Product Feedback",
              "ڕاپرسی بۆچوون دەربارەی بەرهەم")

  const Poll2Description: LocalizedText :=
    Localized("أخبرنا برأيك حول أحدث منتجاتنا",
              "Tell us what you think about our latest product",
              "پێمان بڵێ بۆچوونت چییە دەربارەی نوێترین بەرهەمەکەمان")

  const Question1Text: LocalizedText :=
    Localized("ما مدى رضاك عن خدمتنا؟",
              "How satisfied are you with our service?",
              "چەند ڕازیت لە خزمەتگوزارییەکەمان؟")

  const Question2Text: LocalizedText :=
    Localized("ما الذي يمكننا تحسينه؟",
              "What can we improve?",
              "چی دەتوانین باشتر بکەین؟")

  const Question3Text: LocalizedText :=
    Localized("ما هي الميزات التي تستخدمها أكثر؟",
              "Which features do you use most?",
              "کام تایبەتمەندییەکان زیاتر بەکاردێنیت؟")

  const Option1Text: LocalizedText :=
    Localized("راضٍ جداً",
              "Very Satisfied",
              "زۆر ڕازیم")

  const Option2Text: LocalizedText :=
    Localized("راضٍ",
              "Satisfied",
              "ڕازیم")

  const Option3Text: LocalizedText :=
    Localized("محايد",
              "Neutral",
              "بێلایەن")

  const Option4Text: LocalizedText :=
    Localized("غير راضٍ",
              "Dissatisfied",
              "ڕازی نیم")

  const Option5Text: LocalizedText :=
    Localized("غير راضٍ جداً",
              "Very Dissatisfied",
              "زۆر ڕازی نیم")

  const Option6Text: LocalizedText :=
    Localized("لوحة التحكم",
              "Dashboard",
              "داشبۆرد")

  const Option7Text: LocalizedText :=
    Localized("التقارير",
              "Reports",
              "ڕاپۆرتەکان")

  const Option8Text: LocalizedText :=
    Localized("التحليلات",
              "Analytics",
              "شیکاری")

  const Option9Text: LocalizedText :=
    Localized("الإعدادات",
              "Settings",
              "ڕێکخستنەکان")

  const InitialData: Tables :=
    Tables(SeedAdmins, SeedPolls, SeedQuestions, SeedMcqOptions,
           SeedResponses, SeedMcqAnswers, SeedTextAnswers)

  /** `initialNextId`. */
  const InitialNextId: map<Entity, int> :=
    map[Polls := 3, Questions := 4, McqOptions := 10,
        Responses := 3, McqAnswers := 3, TextAnswers := 3]

  // ---------------------------------------------------------------------
  // Counters

  /** `Math.max(...s.map(x => x.id), 0) + 1`: the least positive number
      above every stored key. */
  function NextIdBy<T>(s: seq<T>, key: T -> int): (n: int)
    ensures n >= 1
    ensures AllBelow(s, key, n)
    ensures n == 1 || exists i :: 0 <= i < |s| && key(s[i]) == n - 1
    ensures s == [] ==> n == 1
  {
    MaxKeyOr0(s, key) + 1
  }

  /** `storedNextId` for a reloaded database. */
  function StoredNextId(t: Tables): map<Entity, int> {
    map[Polls := NextIdBy(t.polls, PollId),
        Questions := NextIdBy(t.questions, QuestionId),
        McqOptions := NextIdBy(t.mcqOptions, OptionId),
        Responses := NextIdBy(t.responses, ResponseId),
        McqAnswers := NextIdBy(t.mcqAnswers, McqAnswerId),
        TextAnswers := NextIdBy(t.textAnswers, TextAnswerId)]
  }

  /** Every counter is present and above every id of its table. */
  ghost predicate Fresh(t: Tables, next: map<Entity, int>) {
    Polls in next && Questions in next && McqOptions in next
    && Responses in next && McqAnswers in next && TextAnswers in next
    && AllBelow(t.polls, PollId, next[Polls])
    && AllBelow(t.questions, QuestionId, next[Questions])
    && AllBelow(t.mcqOptions, OptionId, next[McqOptions])
    && AllBelow(t.responses, ResponseId, next[Responses])
    && AllBelow(t.mcqAnswers, McqAnswerId, next[McqAnswers])
    && AllBelow(t.textAnswers, TextAnswerId, next[TextAnswers])
  }

  /** No table holds the same id twice. */
  ghost predicate DistinctIds(t: Tables) {
    DistinctBy(t.polls, PollId) && DistinctBy(t.questions, QuestionId)
    && DistinctBy(t.mcqOptions, OptionId) && DistinctBy(t.responses, ResponseId)
    && DistinctBy(t.mcqAnswers, McqAnswerId) && DistinctBy(t.textAnswers, TextAnswerId)
  }

  /** Some element of `s` has key `k`. */
  ghost predicate HasKey<T>(s: seq<T>, key: T -> int, k: int) {
    exists i :: 0 <= i < |s| && key(s[i]) == k
  }

  // Referential consistency, one predicate per referring table.

  ghost predicate QuestionsLinked(t: Tables) {
    forall q :: q in t.questions ==> HasKey(t.polls, PollId, q.pollId)
  }

  ghost predicate OptionsLinked(t: Tables) {
    forall o :: o in t.mcqOptions ==> HasKey(t.questions, QuestionId, o.questionId)
  }

  ghost predicate ResponsesLinked(t: Tables) {
    forall r :: r in t.responses ==> HasKey(t.polls, PollId, r.pollId)
  }

  /** An mcq answer names an existing response and question, and an option
      of that question. */
  ghost predicate McqAnswersLinked(t: Tables) {
    forall a :: a in t.mcqAnswers ==>
      HasKey(t.responses, ResponseId, a.responseId)
      && HasKey(t.questions, QuestionId, a.questionId)
      && exists o :: o in t.mcqOptions && Some(o.id) == a.optionId && o.questionId == a.questionId
  }

  ghost predicate TextAnswersLinked(t: Tables) {
    forall a :: a in t.textAnswers ==>
      HasKey(t.responses, ResponseId, a.responseId) && HasKey(t.questions, QuestionId, a.questionId)
  }

  /** Every row points at rows that exist. */
  ghost predicate Linked(t: Tables) {
    QuestionsLinked(t) && OptionsLinked(t) && ResponsesLinked(t)
    && McqAnswersLinked(t) && TextAnswersLinked(t)
  }

  /** The reload rule gives counters fresh for the stored tables, and 1 for
      an empty table. */
  lemma StoredNextIdFresh(t: Tables)
    ensures Fresh(t, StoredNextId(t))
    ensures t.polls == [] ==> StoredNextId(t)[Polls] == 1
    ensures t.mcqOptions == [] ==> StoredNextId(t)[McqOptions] == 1
  {
  }

  /** A key that occurs and bounds all keys is the maximum. */
  lemma {:induction false} MaxKeyIs<T>(s: seq<T>, key: T -> int, k: int)
    requires k >= 0 && HasKey(s, key, k)
    requires forall i :: 0 <= i < |s| ==> key(s[i]) <= k
    ensures MaxKeyOr0(s, key) == k
  {
    var m := MaxKeyOr0(s, key);
    var i :| 0 <= i < |s| && key(s[i]) == k;
    assert s[i] in s;
    if m != 0 {
      var j :| 0 <= j < |s| && key(s[j]) == m;
    }
  }

  lemma SeedPollsNext() ensures NextIdBy(SeedPolls, PollId) == 3 {
    assert PollId(SeedPolls[1]) == 2;
    MaxKeyIs(SeedPolls, PollId, 2);
  }

  lemma SeedQuestionsNext() ensures NextIdBy(SeedQuestions, QuestionId) == 4 {
    assert QuestionId(SeedQuestions[2]) == 3;
    MaxKeyIs(SeedQuestions, QuestionId, 3);
  }

  lemma SeedOptionsNext() ensures NextIdBy(SeedMcqOptions, OptionId) == 10 {
    assert OptionId(SeedMcqOptions[8]) == 9;
    MaxKeyIs(SeedMcqOptions, OptionId, 9);
  }

  lemma SeedResponsesNext() ensures NextIdBy(SeedResponses, ResponseId) == 3 {
    assert ResponseId(SeedResponses[1]) == 2;
    MaxKeyIs(SeedResponses, ResponseId, 2);
  }

  lemma SeedAnswersNext()
    ensures NextIdBy(SeedMcqAnswers, McqAnswerId) == 3
    ensures NextIdBy(SeedTextAnswers, TextAnswerId) == 3
  {
    assert McqAnswerId(SeedMcqAnswers[1]) == 2;
    MaxKeyIs(SeedMcqAnswers, McqAnswerId, 2);
    assert TextAnswerId(SeedTextAnswers[1]) == 2;
    MaxKeyIs(SeedTextAnswers, TextAnswerId, 2);
  }

  /** The seed counters are exactly what the reload rule computes from the
      seed tables. */
  lemma SeedCountersAreMaxPlusOne()
    ensures InitialNextId == StoredNextId(InitialData)
  {
    SeedPollsNext();
    SeedQuestionsNext();
    SeedOptionsNext();
    SeedResponsesNext();
    SeedAnswersNext();
  }

  /** Seed ids are distinct in every table. */
  lemma SeedIsKeyed()
    ensures DistinctIds(InitialData)
  {
  }

  lemma SeedQuestionsLinked()
    ensures QuestionsLinked(InitialData) && ResponsesLinked(InitialData)
  {
    assert PollId(SeedPolls[0]) == 1 && PollId(SeedPolls[1]) == 2;
  }

  lemma SeedOptionsLinked()
    ensures OptionsLinked(InitialData)
  {
    assert QuestionId(SeedQuestions[0]) == 1 && QuestionId(SeedQuestions[2]) == 3;
  }

  lemma SeedAnswersLinked()
    ensures McqAnswersLinked(InitialData) && TextAnswersLinked(InitialData)
  {
    assert ResponseId(SeedResponses[0]) == 1 && ResponseId(SeedResponses[1]) == 2;
    assert QuestionId(SeedQuestions[0]) == 1 && QuestionId(SeedQuestions[1]) == 2;
    assert SeedMcqOptions[0] in SeedMcqOptions && SeedMcqOptions[1] in SeedMcqOptions;
  }

  /** The seed is referentially consistent. */
  lemma SeedIsLinked()
    ensures Linked(InitialData)
  {
    SeedQuestionsLinked();
    SeedOptionsLinked();
    SeedAnswersLinked();
  }

  /** Whichever way the database is loaded, its counters are fresh. */
  lemma LoadedIsFresh(stored: Option<Tables>)
    ensures Fresh(if stored.Some? then stored.value else InitialData,
                  if stored.Some? then StoredNextId(stored.value) else InitialNextId)
  {
    if stored.Some? {
      StoredNextIdFresh(stored.value);
    } else {
      SeedCountersAreMaxPlusOne();
      StoredNextIdFresh(InitialData);
    }
  }

  // ---------------------------------------------------------------------
  // The store

  /** `mockDB` together with the `nextId` counters. */
  class Db {
    var admins: seq<Admin>
    var polls: seq<Poll>
    var questions: seq<Question>
    var mcqOptions: seq<McqOption>
    var responses: seq<Response>
    var mcqAnswers: seq<McqAnswer>
    var textAnswers: seq<TextAnswer>
    var nextId: map<Entity, int>

    function Snapshot(): Tables
      reads this
    {
      Tables(admins, polls, questions, mcqOptions, responses, mcqAnswers, textAnswers)
    }

    /** Class invariant: every counter is above every id of its table, so
        `GenerateId` never hands out a stored id. */
    ghost predicate Valid()
      reads this
    {
      Fresh(Snapshot(), nextId)
    }

    /** No table holds an id twice: true of the seed and kept by every
        operation, though storage could hand back anything. */
    ghost predicate Keyed()
      reads this
    {
      DistinctIds(Snapshot())
    }

    /** Loading: `mockDB = storedData || initialData`, with the counters
        recomputed from stored data and taken from `initialNextId` otherwise. */
    constructor (stored: Option<Tables>)
      ensures stored.None? ==> Snapshot() == InitialData && nextId == InitialNextId
      ensures stored.Some? ==> Snapshot() == stored.value && nextId == StoredNextId(stored.value)
      ensures Valid()
    {
      var t := if stored.Some? then stored.value else InitialData;
      var next := if stored.Some? then StoredNextId(t) else InitialNextId;
      LoadedIsFresh(stored);
      admins, polls, questions, mcqOptions := t.admins, t.polls, t.questions, t.mcqOptions;
      responses, mcqAnswers, textAnswers := t.responses, t.mcqAnswers, t.textAnswers;
      nextId := next;
    }

    /** `generateId(entity)`: the post-increment `nextId[entity]++`. */
    method GenerateId(e: Entity) returns (id: int)
      requires Valid()
      modifies this
      ensures Valid()
      ensures id == old(nextId[e])
      ensures nextId == old(nextId)[e := id + 1]
      ensures Snapshot() == old(Snapshot())
    {
      id := nextId[e];
      nextId := nextId[e := id + 1];
    }
  }
}
