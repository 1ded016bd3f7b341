/** src/services/responseService.js: storing a submission (one response row
    and its answer rows) and the per-response detail join. */
module ResponseService {
  import opened Wrappers
  import opened MultiLang
  import opened Seqs
  import opened Strings
  import opened MockData
  import opened QuestionService

  // ---------------------------------------------------------------------
  // submitResponse

  /** The `value` of a submitted answer: an array of option ids, a single
      option id (absent when unanswered), or a string. */
  datatype AnswerValue = Picks(ids: seq<int>) | Pick(id: Option<int>) | Typed(text: string)

  /** One element of `answers`: `{question_id, type, value}`. */
  datatype AnswerInput = AnswerInput(questionId: int, answerType: QuestionType, value: AnswerValue)

  /** The (question, option) pair of one mcq answer row. */
  datatype Selection = Selection(questionId: int, optionId: Option<int>)

  /** The (question, text) pair of one text answer row. */
  datatype Entry = Entry(questionId: int, text: string)

  /** Text-typed answers carry a string: the only shape the answer form
      sends and the only one a text row can hold. */
  predicate WellTyped(answers: seq<AnswerInput>) {
    forall a :: a in answers && a.answerType == Text ==> a.value.Typed?
  }

  /** The mcq rows one answer fans out to: one per array element, one for a
      scalar value (a string matches no option), none for other types. */
  function Selections(a: AnswerInput): (r: seq<Selection>)
    ensures forall i :: 0 <= i < |r| ==> r[i].questionId == a.questionId
  {
    if a.answerType != Mcq then []
    else match a.value
      case Picks(ids) => seq(|ids|, i requires 0 <= i < |ids| => Selection(a.questionId, Some(ids[i])))
      case Pick(id) => [Selection(a.questionId, id)]
      case Typed(_) => [Selection(a.questionId, None)]
  }

  /** All mcq rows of a submission, in answer order. */
  function FanOut(answers: seq<AnswerInput>): seq<Selection> {
    if answers == [] then []
    else FanOut(answers[..|answers| - 1]) + Selections(answers[|answers| - 1])
  }

  /** The text row of one answer: one for a text answer, none otherwise
      (a text answer always carries a string, see `WellTyped`). */
  function EntriesOf(a: AnswerInput): seq<Entry> {
    if a.answerType == Text && a.value.Typed? then [Entry(a.questionId, a.value.text)] else []
  }

  /** All text rows of a submission, in answer order. */
  function Entries(answers: seq<AnswerInput>): seq<Entry> {
    if answers == [] then []
    else Entries(answers[..|answers| - 1]) + EntriesOf(answers[|answers| - 1])
  }

  /** The stored mcq rows: consecutive ids from `first`. */
  function McqRowsFrom(sel: seq<Selection>, first: int, responseId: int, now: int): (r: seq<McqAnswer>)
    ensures |r| == |sel|
  {
    seq(|sel|, i requires 0 <= i < |sel| =>
      McqAnswer(first + i, responseId, sel[i].questionId, sel[i].optionId, now))
  }

  /** The stored text rows: consecutive ids from `first`. */
  function TextRowsFrom(es: seq<Entry>, first: int, responseId: int, now: int): (r: seq<TextAnswer>)
    ensures |r| == |es|
  {
    seq(|es|, i requires 0 <= i < |es| =>
      TextAnswer(first + i, responseId, es[i].questionId, es[i].text, now))
  }

  lemma McqRowsSnoc(sel: seq<Selection>, x: Selection, first: int, responseId: int, now: int)
    ensures McqRowsFrom(sel + [x], first, responseId, now)
            == McqRowsFrom(sel, first, responseId, now)
               + [McqAnswer(first + |sel|, responseId, x.questionId, x.optionId, now)]
  {
  }

  lemma TextRowsSnoc(es: seq<Entry>, x: Entry, first: int, responseId: int, now: int)
    ensures TextRowsFrom(es + [x], first, responseId, now)
            == TextRowsFrom(es, first, responseId, now)
               + [TextAnswer(first + |es|, responseId, x.questionId, x.text, now)]
  {
  }

  /** One `mcq_answers.push` with a fresh id. */
  method PushMcqAnswer(db: Db, responseId: int, x: Selection, now: int)
    requires db.Valid()
    modifies db
    ensures db.Valid()
    ensures db.mcqAnswers == old(db.mcqAnswers)
              + [McqAnswer(old(db.nextId[McqAnswers]), responseId, x.questionId, x.optionId, now)]
    ensures db.nextId == old(db.nextId)[McqAnswers := old(db.nextId[McqAnswers]) + 1]
    ensures db.Snapshot() == old(db.Snapshot()).(mcqAnswers := db.mcqAnswers)
    ensures old(db.Keyed()) ==> db.Keyed()
  {
    var id := db.GenerateId(McqAnswers);
    var row := McqAnswer(id, responseId, x.questionId, x.optionId, now);
    if old(db.Keyed()) {
      AppendFresh(db.mcqAnswers, row, McqAnswerId, id);
    }
    db.mcqAnswers := db.mcqAnswers + [row];
  }

  /** One `text_answers.push` with a fresh id. */
  method PushTextAnswer(db: Db, responseId: int, x: Entry, now: int)
    requires db.Valid()
    modifies db
    ensures db.Valid()
    ensures db.textAnswers == old(db.textAnswers)
              + [TextAnswer(old(db.nextId[TextAnswers]), responseId, x.questionId, x.text, now)]
    ensures db.nextId == old(db.nextId)[TextAnswers := old(db.nextId[TextAnswers]) + 1]
    ensures db.Snapshot() == old(db.Snapshot()).(textAnswers := db.textAnswers)
    ensures old(db.Keyed()) ==> db.Keyed()
  {
    var id := db.GenerateId(TextAnswers);
    var row := TextAnswer(id, responseId, x.questionId, x.text, now);
    if old(db.Keyed()) {
      AppendFresh(db.textAnswers, row, TextAnswerId, id);
    }
    db.textAnswers := db.textAnswers + [row];
  }

  /** The rows of one answer (the body of `answers.forEach`). */
  method SaveAnswer(db: Db, responseId: int, a: AnswerInput, now: int)
    requires db.Valid()
    requires a.answerType == Text ==> a.value.Typed?
    modifies db
    ensures db.Valid()
    ensures db.mcqAnswers == old(db.mcqAnswers)
              + McqRowsFrom(Selections(a), old(db.nextId[McqAnswers]), responseId, now)
    ensures db.textAnswers == old(db.textAnswers)
              + TextRowsFrom(EntriesOf(a), old(db.nextId[TextAnswers]), responseId, now)
    ensures db.nextId == old(db.nextId)[McqAnswers := old(db.nextId[McqAnswers]) + |Selections(a)|]
                                       [TextAnswers := old(db.nextId[TextAnswers]) + |EntriesOf(a)|]
    ensures db.Snapshot() == old(db.Snapshot()).(mcqAnswers := db.mcqAnswers, textAnswers := db.textAnswers)
    ensures old(db.Keyed()) ==> db.Keyed()
  {
    if a.answerType == Mcq {
      PushSelections(db, responseId, Selections(a), now);
    } else if a.answerType == Text {
      TextRowsSnoc([], Entry(a.questionId, a.value.text), db.nextId[TextAnswers], responseId, now);
      PushTextAnswer(db, responseId, Entry(a.questionId, a.value.text), now);
    }
  }

  /** The mcq rows of one answer, pushed in order (`value.forEach` for an
      array, a single push otherwise). */
  method PushSelections(db: Db, responseId: int, sel: seq<Selection>, now: int)
    requires db.Valid()
    modifies db
    ensures db.Valid()
    ensures db.mcqAnswers == old(db.mcqAnswers) + McqRowsFrom(sel, old(db.nextId[McqAnswers]), responseId, now)
    ensures db.nextId == old(db.nextId)[McqAnswers := old(db.nextId[McqAnswers]) + |sel|]
    ensures db.Snapshot() == old(db.Snapshot()).(mcqAnswers := db.mcqAnswers)
    ensures old(db.Keyed()) ==> db.Keyed()
  {
    ghost var first := db.nextId[McqAnswers];
    var j := 0;
    while j < |sel|
      invariant 0 <= j <= |sel|
      invariant db.Valid()
      invariant db.mcqAnswers == old(db.mcqAnswers) + McqRowsFrom(sel[..j], first, responseId, now)
      invariant db.nextId == old(db.nextId)[McqAnswers := first + j]
      invariant db.Snapshot() == old(db.Snapshot()).(mcqAnswers := db.mcqAnswers)
      invariant old(db.Keyed()) ==> db.Keyed()
    {
      assert sel[..j + 1] == sel[..j] + [sel[j]];
      McqRowsSnoc(sel[..j], sel[j], first, responseId, now);
      PushMcqAnswer(db, responseId, sel[j], now);
      j := j + 1;
    }
    assert sel[..j] == sel;
  }

  /** The session id built from `Date.now()`. */
  function SessionId(now: int): string {
    "session_" + IntToString(now)
  }

  /** `submitResponse(pollId, answers)`: one response row, then the answers'
      rows in answer order. The user agent and the clock are parameters. */
  method SubmitResponse(db: Db, pollId: int, answers: seq<AnswerInput>, userAgent: string, now: int)
    returns (resp: Response)
    requires db.Valid() && WellTyped(answers)
    modifies db
    ensures db.Valid()
    ensures resp == Response(old(db.nextId[Responses]), pollId, SessionId(now), "0.0.0.0", userAgent, now)
    ensures forall r :: r in old(db.responses) ==> r.id != resp.id
    ensures db.responses == old(db.responses) + [resp]
    ensures db.mcqAnswers == old(db.mcqAnswers)
              + McqRowsFrom(FanOut(answers), old(db.nextId[McqAnswers]), resp.id, now)
    ensures db.textAnswers == old(db.textAnswers)
              + TextRowsFrom(Entries(answers), old(db.nextId[TextAnswers]), resp.id, now)
    ensures db.nextId == old(db.nextId)[Responses := resp.id + 1]
                                       [McqAnswers := old(db.nextId[McqAnswers]) + |FanOut(answers)|]
                                       [TextAnswers := old(db.nextId[TextAnswers]) + |Entries(answers)|]
    ensures db.Snapshot() == old(db.Snapshot()).(responses := db.responses, mcqAnswers := db.mcqAnswers,
                                                 textAnswers := db.textAnswers)
    ensures old(db.Keyed()) ==> db.Keyed()
  {
    ghost var next0 := db.nextId;
    resp := AddResponse(db, pollId, userAgent, now);
    assert db.nextId[McqAnswers] == next0[McqAnswers] && db.nextId[TextAnswers] == next0[TextAnswers];
    ghost var mid := db.responses;
    SaveAnswers(db, resp.id, answers, now);
    assert db.responses == mid;
  }

  /** The response row of a submission, with a fresh id. */
  method AddResponse(db: Db, pollId: int, userAgent: string, now: int) returns (resp: Response)
    requires db.Valid()
    modifies db
    ensures db.Valid()
    ensures resp == Response(old(db.nextId[Responses]), pollId, SessionId(now), "0.0.0.0", userAgent, now)
    ensures forall r :: r in old(db.responses) ==> r.id != resp.id
    ensures db.responses == old(db.responses) + [resp]
    ensures db.nextId == old(db.nextId)[Responses := resp.id + 1]
    ensures db.Snapshot() == old(db.Snapshot()).(responses := db.responses)
    ensures old(db.Keyed()) ==> db.Keyed()
  {
    var id := db.GenerateId(Responses);
    resp := Response(id, pollId, SessionId(now), "0.0.0.0", userAgent, now);
    if old(db.Keyed()) {
      AppendFresh(db.responses, resp, ResponseId, id);
    }
    db.responses := db.responses + [resp];
  }

  /** The state after the first `k` answers have been saved, starting from
      tables `t0` and counters `next0`. */
  ghost predicate SavedUpTo(db: Db, t0: Tables, next0: map<Entity, int>, id: int,
                            answers: seq<AnswerInput>, k: nat, now: int)
    reads db
  {
    && k <= |answers|
    && McqAnswers in next0 && TextAnswers in next0
    && db.Valid()
    && db.mcqAnswers == t0.mcqAnswers + McqRowsFrom(FanOut(answers[..k]), next0[McqAnswers], id, now)
    && db.textAnswers == t0.textAnswers + TextRowsFrom(Entries(answers[..k]), next0[TextAnswers], id, now)
    && db.nextId == next0[McqAnswers := next0[McqAnswers] + |FanOut(answers[..k])|]
                         [TextAnswers := next0[TextAnswers] + |Entries(answers[..k])|]
    && db.Snapshot() == t0.(mcqAnswers := db.mcqAnswers, textAnswers := db.textAnswers)
  }

  /** Saving answer `k` extends the saved prefix by one answer. */
  method SaveNext(db: Db, ghost t0: Tables, ghost next0: map<Entity, int>, id: int,
                  answers: seq<AnswerInput>, k: nat, now: int)
    requires k < |answers| && WellTyped(answers)
    requires SavedUpTo(db, t0, next0, id, answers, k, now)
    modifies db
    ensures SavedUpTo(db, t0, next0, id, answers, k + 1, now)
    ensures old(db.Keyed()) ==> db.Keyed()
  {
    var a := answers[k];
    assert a in answers;
    ghost var m0, x0 := next0[McqAnswers], next0[TextAnswers];
    ghost var pm, pe := FanOut(answers[..k]), Entries(answers[..k]);
    ghost var mBefore, xBefore := db.mcqAnswers, db.textAnswers;
    assert db.nextId[McqAnswers] == m0 + |pm| && db.nextId[TextAnswers] == x0 + |pe|;
    SaveAnswer(db, id, a, now);
    PrefixStep(answers, k);
    McqRowsStep(t0.mcqAnswers, mBefore, db.mcqAnswers, pm, Selections(a), m0, id, now);
    TextRowsStep(t0.textAnswers, xBefore, db.textAnswers, pe, EntriesOf(a), x0, id, now);
    UpdateTwice(next0, McqAnswers, TextAnswers, m0 + |pm|, x0 + |pe|,
                m0 + |pm| + |Selections(a)|, x0 + |pe| + |EntriesOf(a)|);
  }

  lemma McqRowsStep(base: seq<McqAnswer>, before: seq<McqAnswer>, after: seq<McqAnswer>,
                    s: seq<Selection>, t: seq<Selection>, first: int, responseId: int, now: int)
    requires before == base + McqRowsFrom(s, first, responseId, now)
    requires after == before + McqRowsFrom(t, first + |s|, responseId, now)
    ensures after == base + McqRowsFrom(s + t, first, responseId, now)
  {
    McqRowsAppend(s, t, first, responseId, now);
  }

  lemma TextRowsStep(base: seq<TextAnswer>, before: seq<TextAnswer>, after: seq<TextAnswer>,
                     s: seq<Entry>, t: seq<Entry>, first: int, responseId: int, now: int)
    requires before == base + TextRowsFrom(s, first, responseId, now)
    requires after == before + TextRowsFrom(t, first + |s|, responseId, now)
    ensures after == base + TextRowsFrom(s + t, first, responseId, now)
  {
    TextRowsAppend(s, t, first, responseId, now);
  }

  lemma UpdateTwice<K, V>(m: map<K, V>, x: K, y: K, u: V, v: V, u': V, v': V)
    requires x != y
    ensures m[x := u][y := v][x := u'][y := v'] == m[x := u'][y := v']
  {
  }

  /** `answers.forEach(...)`: every answer's rows, in answer order. */
  method SaveAnswers(db: Db, id: int, answers: seq<AnswerInput>, now: int)
    requires db.Valid() && WellTyped(answers)
    modifies db
    ensures db.Valid()
    ensures db.mcqAnswers == old(db.mcqAnswers)
              + McqRowsFrom(FanOut(answers), old(db.nextId[McqAnswers]), id, now)
    ensures db.textAnswers == old(db.textAnswers)
              + TextRowsFrom(Entries(answers), old(db.nextId[TextAnswers]), id, now)
    ensures db.nextId == old(db.nextId)[McqAnswers := old(db.nextId[McqAnswers]) + |FanOut(answers)|]
                                       [TextAnswers := old(db.nextId[TextAnswers]) + |Entries(answers)|]
    ensures db.Snapshot() == old(db.Snapshot()).(mcqAnswers := db.mcqAnswers, textAnswers := db.textAnswers)
    ensures old(db.Keyed()) ==> db.Keyed()
  {
    ghost var t0 := db.Snapshot();
    ghost var next0 := db.nextId;
    assert SavedUpTo(db, t0, next0, id, answers, 0, now) by {
      assert answers[..0] == [];
      assert db.mcqAnswers + [] == db.mcqAnswers && db.textAnswers + [] == db.textAnswers;
      assert next0 == next0[McqAnswers := next0[McqAnswers]][TextAnswers := next0[TextAnswers]];
    }
    var k := 0;
    while k < |answers|
      invariant SavedUpTo(db, t0, next0, id, answers, k, now)
      invariant old(db.Keyed()) ==> db.Keyed()
    {
      SaveNext(db, t0, next0, id, answers, k, now);
      k := k + 1;
    }
    assert answers[..k] == answers;
  }

  lemma PrefixStep(answers: seq<AnswerInput>, k: nat)
    requires k < |answers|
    ensures FanOut(answers[..k + 1]) == FanOut(answers[..k]) + Selections(answers[k])
    ensures Entries(answers[..k + 1]) == Entries(answers[..k]) + EntriesOf(answers[k])
  {
    assert answers[..k + 1][..k] == answers[..k];
  }

  lemma McqRowsAppend(s: seq<Selection>, t: seq<Selection>, first: int, responseId: int, now: int)
    ensures McqRowsFrom(s + t, first, responseId, now)
            == McqRowsFrom(s, first, responseId, now) + McqRowsFrom(t, first + |s|, responseId, now)
  {
  }

  lemma TextRowsAppend(s: seq<Entry>, t: seq<Entry>, first: int, responseId: int, now: int)
    ensures TextRowsFrom(s + t, first, responseId, now)
            == TextRowsFrom(s, first, responseId, now) + TextRowsFrom(t, first + |s|, responseId, now)
  {
  }

  // Properties of the fan-out

  /** The number of mcq rows one answer writes. */
  function SelectionCount(a: AnswerInput): nat {
    if a.answerType != Mcq then 0 else if a.value.Picks? then |a.value.ids| else 1
  }

  /** The sum of `SelectionCount` over the answers. */
  function McqRowCount(answers: seq<AnswerInput>): nat {
    if answers == [] then 0 else SelectionCount(answers[0]) + McqRowCount(answers[1..])
  }

  predicate IsTextAnswer(a: AnswerInput) { a.answerType == Text }

  lemma {:induction false} McqRowCountAppend(a: seq<AnswerInput>, b: seq<AnswerInput>)
    ensures McqRowCount(a + b) == McqRowCount(a) + McqRowCount(b)
  {
    if a == [] {
      assert a + b == b;
    } else {
      assert (a + b)[0] == a[0];
      assert (a + b)[1..] == a[1..] + b;
      McqRowCountAppend(a[1..], b);
    }
  }

  /** `mcq_answers` grows by the array lengths of the mcq answers (1 for a
      scalar); `text_answers` by the number of text answers. */
  lemma {:induction false} FanOutCounts(answers: seq<AnswerInput>)
    requires WellTyped(answers)
    ensures |FanOut(answers)| == McqRowCount(answers)
    ensures |Entries(answers)| == |Filter(answers, IsTextAnswer)|
  {
    if answers != [] {
      var init, last := answers[..|answers| - 1], answers[|answers| - 1];
      assert answers == init + [last];
      assert WellTyped(init) by {
        forall a | a in init && a.answerType == Text ensures a.value.Typed? {
          assert a in answers;
        }
      }
      assert last in answers;
      assert FanOut(answers) == FanOut(init) + Selections(last);
      assert Entries(answers) == Entries(init) + EntriesOf(last);
      assert |Selections(last)| == SelectionCount(last);
      FanOutCounts(init);
      McqRowCountAppend(init, [last]);
      assert McqRowCount([last]) == SelectionCount(last);
      FilterAppend(init, [last], IsTextAnswer);
    }
  }

  /** Rows follow the answers: the rows of `a + b` are those of `a`, then
      those of `b`. */
  lemma {:induction false} FanOutAppend(a: seq<AnswerInput>, b: seq<AnswerInput>)
    ensures FanOut(a + b) == FanOut(a) + FanOut(b)
    decreases |b|
  {
    if b == [] {
      assert a + b == a;
    } else {
      var b', last := b[..|b| - 1], b[|b| - 1];
      assert b == b' + [last];
      assert a + b == (a + b') + [last];
      FanOutSnoc(a + b', last);
      FanOutSnoc(b', last);
      FanOutAppend(a, b');
      AppendAssoc(FanOut(a), FanOut(b'), Selections(last));
    }
  }

  lemma FanOutSnoc(s: seq<AnswerInput>, x: AnswerInput)
    ensures FanOut(s + [x]) == FanOut(s) + Selections(x)
  {
    assert (s + [x])[..|s|] == s;
  }

  /** A multi-select answer's rows are its option ids in array order. */
  lemma PicksInOrder(a: AnswerInput)
    requires a.answerType == Mcq && a.value.Picks?
    ensures |Selections(a)| == |a.value.ids|
    ensures forall i :: 0 <= i < |a.value.ids| ==>
              Selections(a)[i] == Selection(a.questionId, Some(a.value.ids[i]))
  {
  }

  /** Every row of the fan-out comes from an mcq answer with that question id. */
  lemma {:induction false} FanOutProvenance(answers: seq<AnswerInput>)
    ensures forall x :: x in FanOut(answers) ==>
              exists a :: a in answers && a.answerType == Mcq && a.questionId == x.questionId
  {
    if answers != [] {
      var init := answers[..|answers| - 1];
      var last := answers[|answers| - 1];
      FanOutProvenance(init);
      forall x | x in FanOut(answers)
        ensures exists a :: a in answers && a.answerType == Mcq && a.questionId == x.questionId
      {
        if x in FanOut(init) {
          var a :| a in init && a.answerType == Mcq && a.questionId == x.questionId;
          assert a in answers;
        } else {
          assert x in Selections(last);
          assert last in answers;
        }
      }
    }
  }

  /** An answer whose type is neither mcq nor text writes nothing. */
  lemma UntypedWritesNothing(answers: seq<AnswerInput>, a: AnswerInput)
    requires WellTyped(answers) && a.answerType.OtherType?
    ensures FanOut(answers + [a]) == FanOut(answers)
    ensures WellTyped(answers + [a]) && Entries(answers + [a]) == Entries(answers)
  {
    assert (answers + [a])[..|answers|] == answers;
  }

  // ---------------------------------------------------------------------
  // getResponsesByPollId / getResponseCount

  /** What a joined answer shows: the selected option texts of an mcq
      question (a missing option reads as ""), or the text of a text one. */
  datatype ShownAnswer = Chosen(options: seq<LocalizedText>) | Entered(text: string)

  datatype DetailAnswer = DetailAnswer(questionId: int, questionText: LocalizedText, answer: ShownAnswer)

  /** A response with one answer per poll question. */
  datatype ResponseDetail = ResponseDetail(response: Response, answers: seq<DetailAnswer>)

  function ResponsesOfPoll(rs: seq<Response>, pollId: int): (r: seq<Response>)
    ensures forall x :: x in r <==> x in rs && x.pollId == pollId
  {
    Filter(rs, (x: Response) => x.pollId == pollId)
  }

  /** `mcq_answers.filter(a => a.response_id === rid && a.question_id === qid)`. */
  function McqAnswersOf(rows: seq<McqAnswer>, responseId: int, questionId: int): (r: seq<McqAnswer>)
    ensures forall a :: a in r <==> a in rows && a.responseId == responseId && a.questionId == questionId
  {
    Filter(rows, (a: McqAnswer) => a.responseId == responseId && a.questionId == questionId)
  }

  /** `mcq_options.find(o => o.id === optionId)`, its text, or "". */
  function OptionTextOf(os: seq<McqOption>, optionId: Option<int>): (t: LocalizedText)
    ensures (forall o :: o in os ==> Some(o.id) != optionId) ==> t == Plain("")
    ensures (exists o :: o in os && Some(o.id) == optionId) ==>
              exists i :: 0 <= i < |os| && Some(os[i].id) == optionId && t == os[i].optionText
                          && forall j :: 0 <= j < i ==> Some(os[j].id) != optionId
  {
    if os == [] then Plain("")
    else if Some(os[0].id) == optionId then os[0].optionText
    else
      var t := OptionTextOf(os[1..], optionId);
      assert (exists o :: o in os && Some(o.id) == optionId) ==>
             (exists o :: o in os[1..] && Some(o.id) == optionId);
      t
  }

  /** `text_answers.find(a => a.response_id === rid && a.question_id === qid)`. */
  function FirstTextAnswer(ts: seq<TextAnswer>, responseId: int, questionId: int): (r: Option<TextAnswer>)
    ensures r.None? <==> forall a :: a in ts ==> !(a.responseId == responseId && a.questionId == questionId)
    ensures r.Some? ==> exists i :: 0 <= i < |ts| && ts[i] == r.value
                          && r.value.responseId == responseId && r.value.questionId == questionId
                          && forall j :: 0 <= j < i ==> !(ts[j].responseId == responseId && ts[j].questionId == questionId)
  {
    if ts == [] then None
    else if ts[0].responseId == responseId && ts[0].questionId == questionId then Some(ts[0])
    else
      var r := FirstTextAnswer(ts[1..], responseId, questionId);
      assert r.Some? ==> exists i :: 0 <= i < |ts[1..]| && ts[1..][i] == r.value
                                      && forall j :: 0 <= j < i ==> !(ts[1..][j].responseId == responseId && ts[1..][j].questionId == questionId);
      assert forall a :: a in ts ==> a == ts[0] || a in ts[1..];
      r
  }

  /** The option texts of a response's rows for one question, in
      `mcq_answers` order. */
  function ChosenTexts(os: seq<McqOption>, rows: seq<McqAnswer>): (r: seq<LocalizedText>)
    ensures |r| == |rows| && forall i :: 0 <= i < |r| ==> r[i] == OptionTextOf(os, rows[i].optionId)
  {
    seq(|rows|, i requires 0 <= i < |rows| => OptionTextOf(os, rows[i].optionId))
  }

  /** One element of `questions.map(question => ...)` for a response. */
  function AnswerFor(t: Tables, responseId: int, q: Question): (d: DetailAnswer)
    ensures d.questionId == q.id && d.questionText == q.questionText
    ensures q.questionType == Mcq <==> d.answer.Chosen?
  {
    var shown :=
      if q.questionType == Mcq then
        Chosen(ChosenTexts(t.mcqOptions, McqAnswersOf(t.mcqAnswers, responseId, q.id)))
      else
        Entered(match FirstTextAnswer(t.textAnswers, responseId, q.id)
                case Some(a) => a.answerText
                case None => "");
    DetailAnswer(q.id, q.questionText, shown)
  }

  /** `{...response, answers}` for one response. */
  function DetailOf(t: Tables, r: Response, qs: seq<QuestionDetail>): (d: ResponseDetail)
    ensures d.response == r && |d.answers| == |qs|
    ensures forall j :: 0 <= j < |qs| ==> d.answers[j] == AnswerFor(t, r.id, qs[j].question)
  {
    ResponseDetail(r, seq(|qs|, j requires 0 <= j < |qs| => AnswerFor(t, r.id, qs[j].question)))
  }

  /** `getResponsesByPollId(pollId)`: one record per response of the poll in
      store order, each with one answer per poll question in question order. */
  function GetResponsesByPollId(db: Db, pollId: int): (r: seq<ResponseDetail>)
    reads db
    ensures var rs := ResponsesOfPoll(db.responses, pollId);
            var qs := JoinQuestions(db.questions, db.mcqOptions, pollId);
            |r| == |rs|
            && forall i :: 0 <= i < |r| ==>
                 r[i].response == rs[i] && |r[i].answers| == |qs|
                 && forall j :: 0 <= j < |qs| ==>
                      r[i].answers[j].questionId == qs[j].question.id
                      && r[i].answers[j].questionText == qs[j].question.questionText
                      && r[i].answers[j] == AnswerFor(db.Snapshot(), rs[i].id, qs[j].question)
  {
    var t := db.Snapshot();
    var rs := ResponsesOfPoll(db.responses, pollId);
    var qs := JoinQuestions(db.questions, db.mcqOptions, pollId);
    seq(|rs|, i requires 0 <= i < |rs| => DetailOf(t, rs[i], qs))
  }

  /** The answers of a joined response: a text answer is the first matching
      text row's text or ""; an mcq answer lists the texts of the response's
      rows for the question in row order, "" for an option that is gone. */
  lemma DetailAnswerSemantics(t: Tables, responseId: int, q: Question)
    ensures q.questionType != Mcq ==>
              AnswerFor(t, responseId, q).answer
              == Entered(if FirstTextAnswer(t.textAnswers, responseId, q.id).Some?
                         then FirstTextAnswer(t.textAnswers, responseId, q.id).value.answerText else "")
    ensures q.questionType != Mcq && (forall a :: a in t.textAnswers ==> a.responseId != responseId) ==>
              AnswerFor(t, responseId, q).answer == Entered("")
    ensures q.questionType == Mcq ==>
              var rows := McqAnswersOf(t.mcqAnswers, responseId, q.id);
              var shown := AnswerFor(t, responseId, q).answer.options;
              |shown| == |rows|
              && (forall i :: 0 <= i < |rows| ==>
                    rows[i].responseId == responseId && rows[i].questionId == q.id)
              && IsSubseq(rows, t.mcqAnswers)
              && (forall i :: 0 <= i < |rows| && (forall o :: o in t.mcqOptions ==> Some(o.id) != rows[i].optionId)
                    ==> shown[i] == Plain(""))
              && (DistinctBy(t.mcqOptions, OptionId) ==>
                    forall i, o :: 0 <= i < |rows| && o in t.mcqOptions && Some(o.id) == rows[i].optionId
                      ==> shown[i] == o.optionText)
  {
    var rows := McqAnswersOf(t.mcqAnswers, responseId, q.id);
    forall i | 0 <= i < |rows| ensures rows[i].responseId == responseId && rows[i].questionId == q.id {
      assert rows[i] in rows;
    }
    FilterIsSubseq(t.mcqAnswers, (a: McqAnswer) => a.responseId == responseId && a.questionId == q.id);
    if DistinctBy(t.mcqOptions, OptionId) {
      forall o | o in t.mcqOptions ensures OptionTextOf(t.mcqOptions, Some(o.id)) == o.optionText {
        OptionTextOfKeyed(t.mcqOptions, o);
      }
    }
  }

  /** With distinct option ids, the text found for a stored option's id is
      that option's own text. */
  lemma OptionTextOfKeyed(os: seq<McqOption>, o: McqOption)
    requires DistinctBy(os, OptionId) && o in os
    ensures OptionTextOf(os, Some(o.id)) == o.optionText
  {
    var k :| 0 <= k < |os| && os[k] == o;
    var i :| 0 <= i < |os| && Some(os[i].id) == Some(o.id) && OptionTextOf(os, Some(o.id)) == os[i].optionText
             && forall j :: 0 <= j < i ==> Some(os[j].id) != Some(o.id);
    assert OptionId(os[i]) == OptionId(os[k]);
  }

  /** `getResponseCount(pollId)`. */
  function GetResponseCount(db: Db, pollId: int): (n: nat)
    reads db
    ensures n == |GetResponsesByPollId(db, pollId)|
    ensures n == |ResponsesOfPoll(db.responses, pollId)|
  {
    |ResponsesOfPoll(db.responses, pollId)|
  }

  // ---------------------------------------------------------------------
  // The mcq answer as the code writes it

  /** `String(v)` of a stored option text: a plain string is itself, a
      three-locale object prints as "[object Object]". */
  function JsString(t: LocalizedText): string {
    match t
    case Plain(s) => s
    case Localized(_, _, _) => "[object Object]"
    case Absent => ""
  }

  /** `selectedOptions.join(', ')`, the mcq `answer` as written. */
  function JoinedAnswerAsWritten(selected: seq<LocalizedText>): string {
    Join(seq(|selected|, i requires 0 <= i < |selected| => JsString(selected[i])), ", ")
  }

  /** As written, two different single selections of seed question 1 give
      the same `answer` string, so no page can tell what was chosen. */
  lemma JoinedAnswerAsWrittenLosesChoice()
    ensures Option1Text != Option3Text
    ensures JoinedAnswerAsWritten([Option1Text]) == JoinedAnswerAsWritten([Option3Text]) == "[object Object]"
  {
    assert Option1Text.en != Option3Text.en;
  }

  /** The intended answer keeps each selected option's own text: the stored
      selection of seed response 1 reads back as "Very Satisfied". */
  lemma SeedResponseOneReadsBack()
    ensures AnswerFor(InitialData, 1, SeedQuestions[0]).answer == Chosen([Option1Text])
    ensures GetLocalizedText(Option1Text, En) == "Very Satisfied"
  {
    var rows := McqAnswersOf(SeedMcqAnswers, 1, 1);
    assert SeedMcqAnswers[0] in SeedMcqAnswers;
    assert rows == [SeedMcqAnswers[0]] by {
      assert SeedMcqAnswers == [SeedMcqAnswers[0]] + [SeedMcqAnswers[1]];
      FilterAppend([SeedMcqAnswers[0]], [SeedMcqAnswers[1]],
                   (a: McqAnswer) => a.responseId == 1 && a.questionId == 1);
    }
    assert OptionTextOf(SeedMcqOptions, Some(1)) == Option1Text;
  }
}
