/** src/pages/admin/Responses.jsx: the question list, the summary tally and
    the answer text of the cards view, over the joined responses of one poll. */
module ResponsesPage {
  import opened Wrappers
  import opened MultiLang
  import opened Seqs
  import opened Strings
  import opened MockData
  import opened ResponseService

  // ---------------------------------------------------------------------
  // allQuestions

  /** `{id, text, type}` of one question column. */
  datatype Column = Column(id: int, text: LocalizedText, kind: QuestionType)

  /** The joined answer's `question_type`: "mcq" for selections, "text" otherwise. */
  function KindOf(d: DetailAnswer): QuestionType {
    if d.answer.Chosen? then Mcq else Text
  }

  /** `responses[0].answers.map(...)`, or no columns without responses. */
  function AllQuestions(responses: seq<ResponseDetail>): (cs: seq<Column>)
    ensures responses == [] ==> cs == []
    ensures responses != [] ==>
              |cs| == |responses[0].answers|
              && forall i :: 0 <= i < |cs| ==>
                   cs[i] == Column(responses[0].answers[i].questionId, responses[0].answers[i].questionText,
                                   KindOf(responses[0].answers[i]))
  {
    if responses == [] then []
    else
      var ds := responses[0].answers;
      seq(|ds|, i requires 0 <= i < |ds| => Column(ds[i].questionId, ds[i].questionText, KindOf(ds[i])))
  }

  // ---------------------------------------------------------------------
  // Finding a response's answer to a question

  /** `response.answers.find(a => a.question_id === id)`. */
  function FindAnswer(ds: seq<DetailAnswer>, questionId: int): (r: Option<DetailAnswer>)
    ensures r.Some? ==> r.value in ds && r.value.questionId == questionId
    ensures r.None? <==> forall d :: d in ds ==> d.questionId != questionId
  {
    if ds == [] then None
    else if ds[0].questionId == questionId then Some(ds[0])
    else FindAnswer(ds[1..], questionId)
  }

  /** The first match wins. */
  lemma {:induction false} FindAnswerFirst(ds: seq<DetailAnswer>, questionId: int, i: nat)
    requires i < |ds| && ds[i].questionId == questionId
    requires forall j :: 0 <= j < i ==> ds[j].questionId != questionId
    ensures FindAnswer(ds, questionId) == Some(ds[i])
  {
    if i > 0 {
      FindAnswerFirst(ds[1..], questionId, i - 1);
    }
  }

  /** JavaScript truthiness of a joined answer: an array always, a string
      when non-empty. */
  predicate Truthy(a: ShownAnswer) {
    a.Chosen? || a.text != ""
  }

  /** `find(...)?.answer`, kept when truthy. */
  function TruthyAnswer(r: ResponseDetail, questionId: int): (x: Option<ShownAnswer>)
    ensures x.Some? ==> Truthy(x.value)
  {
    match FindAnswer(r.answers, questionId)
    case None => None
    case Some(d) => if Truthy(d.answer) then Some(d.answer) else None
  }

  // ---------------------------------------------------------------------
  // The mcq tally

  /** The labels one response contributes to a question's tally: each
      selected option in the display locale (a string answer stands for
      itself), empty labels dropped. */
  function AnswerLabels(r: ResponseDetail, questionId: int, lang: Locale): (ls: seq<string>)
    ensures forall l :: l in ls ==> l != ""
  {
    match TruthyAnswer(r, questionId)
    case None => []
    case Some(a) =>
      var options := match a
        case Chosen(opts) => opts
        case Entered(s) => [Plain(s)];
      Filter(seq(|options|, i requires 0 <= i < |options| => GetLocalizedText(options[i], lang)),
             (l: string) => l != "")
  }

  /** All labels of the question, response by response, in order. */
  function McqLabels(responses: seq<ResponseDetail>, questionId: int, lang: Locale): (ls: seq<string>)
    ensures forall l :: l in ls ==> l != ""
  {
    if responses == [] then []
    else
      var n := |responses| - 1;
      McqLabels(responses[..n], questionId, lang) + AnswerLabels(responses[n], questionId, lang)
  }

  /** `answerCounts[l] || 0`. */
  function CountOf(counts: map<string, nat>, l: string): nat {
    if l in counts then counts[l] else 0
  }

  /** `answerCounts[l] = (answerCounts[l] || 0) + 1` for every non-empty label. */
  function Tally(counts: map<string, nat>, labels: seq<string>): map<string, nat> {
    if labels == [] then counts
    else
      var n := |labels| - 1;
      var before := Tally(counts, labels[..n]);
      if labels[n] == "" then before else before[labels[n] := CountOf(before, labels[n]) + 1]
  }

  lemma {:induction false} TallyAppend(counts: map<string, nat>, a: seq<string>, b: seq<string>)
    ensures Tally(counts, a + b) == Tally(Tally(counts, a), b)
    decreases |b|
  {
    if b == [] {
      assert a + b == a;
    } else {
      var n := |b| - 1;
      assert (a + b)[..|a + b| - 1] == a + b[..n];
      assert (a + b)[|a + b| - 1] == b[n];
      TallyAppend(counts, a, b[..n]);
    }
  }

  /** A counter holds exactly the number of times its label occurs: the
      keys are the non-empty labels, and labels that coincide share one
      counter whichever options they came from. */
  lemma {:induction false} TallyCounts(counts: map<string, nat>, labels: seq<string>, l: string)
    ensures l != "" ==> CountOf(Tally(counts, labels), l) == CountOf(counts, l) + multiset(labels)[l]
    ensures l in Tally(counts, labels) <==> l in counts || (l != "" && l in labels)
  {
    if labels != [] {
      var n := |labels| - 1;
      assert labels == labels[..n] + [labels[n]];
      assert multiset(labels) == multiset(labels[..n]) + multiset{labels[n]};
      TallyCounts(counts, labels[..n], l);
    }
  }

  lemma McqLabelsStep(responses: seq<ResponseDetail>, k: nat, questionId: int, lang: Locale)
    requires k < |responses|
    ensures McqLabels(responses[..k + 1], questionId, lang)
            == McqLabels(responses[..k], questionId, lang) + AnswerLabels(responses[k], questionId, lang)
  {
    assert responses[..k + 1][..k] == responses[..k];
  }

  /** The inner `options.forEach`: one increment per non-empty label. */
  method AddLabels(counts: map<string, nat>, labels: seq<string>) returns (r: map<string, nat>)
    ensures r == Tally(counts, labels)
  {
    r := counts;
    var j := 0;
    while j < |labels|
      invariant 0 <= j <= |labels|
      invariant r == Tally(counts, labels[..j])
    {
      assert labels[..j + 1][..j] == labels[..j];
      var l := labels[j];
      if l != "" {
        r := r[l := CountOf(r, l) + 1];
      }
      j := j + 1;
    }
    assert labels[..j] == labels;
  }

  /** The `answerCounts` of one mcq question: a pass over the responses,
      each adding its selected options' labels. */
  method CountLabels(responses: seq<ResponseDetail>, questionId: int, lang: Locale)
    returns (counts: map<string, nat>)
    ensures counts == Tally(map[], McqLabels(responses, questionId, lang))
  {
    counts := map[];
    var k := 0;
    while k < |responses|
      invariant 0 <= k <= |responses|
      invariant counts == Tally(map[], McqLabels(responses[..k], questionId, lang))
    {
      var labels := AnswerLabels(responses[k], questionId, lang);
      counts := AddLabels(counts, labels);
      McqLabelsStep(responses, k, questionId, lang);
      TallyAppend(map[], McqLabels(responses[..k], questionId, lang), labels);
      k := k + 1;
    }
    assert responses[..k] == responses;
  }

  // ---------------------------------------------------------------------
  // Text answers

  /** `responses.map(r => find(...)?.answer).filter(Boolean)`. */
  function TextAnswersOf(responses: seq<ResponseDetail>, questionId: int): (xs: seq<ShownAnswer>)
    ensures |xs| <= |responses|
  {
    if responses == [] then []
    else
      var n := |responses| - 1;
      TextAnswersOf(responses[..n], questionId)
        + match TruthyAnswer(responses[n], questionId) case None => [] case Some(a) => [a]
  }

  lemma TextAnswersStep(responses: seq<ResponseDetail>, questionId: int)
    requires responses != []
    ensures var n := |responses| - 1;
            TextAnswersOf(responses, questionId)
            == TextAnswersOf(responses[..n], questionId)
               + match TruthyAnswer(responses[n], questionId) case None => [] case Some(a) => [a]
  {
  }

  lemma {:induction false} TextAnswersSound(responses: seq<ResponseDetail>, questionId: int, x: ShownAnswer)
    requires x in TextAnswersOf(responses, questionId)
    ensures exists i :: 0 <= i < |responses| && TruthyAnswer(responses[i], questionId) == Some(x)
  {
    var n := |responses| - 1;
    var init := responses[..n];
    TextAnswersStep(responses, questionId);
    if x in TextAnswersOf(init, questionId) {
      TextAnswersSound(init, questionId, x);
      var i :| 0 <= i < |init| && TruthyAnswer(init[i], questionId) == Some(x);
      assert responses[i] == init[i];
    } else {
      assert TruthyAnswer(responses[n], questionId) == Some(x);
    }
  }

  lemma {:induction false} TextAnswersComplete(responses: seq<ResponseDetail>, questionId: int, i: nat)
    requires i < |responses| && TruthyAnswer(responses[i], questionId).Some?
    ensures TruthyAnswer(responses[i], questionId).value in TextAnswersOf(responses, questionId)
  {
    var n := |responses| - 1;
    var init := responses[..n];
    TextAnswersStep(responses, questionId);
    if i < n {
      assert init[i] == responses[i];
      TextAnswersComplete(init, questionId, i);
    }
  }

  /** `find(...)?.answer` of one response, a missing answer read as the
      falsy "". */
  function FoundAnswer(r: ResponseDetail, questionId: int): ShownAnswer {
    match FindAnswer(r.answers, questionId)
    case None => Entered("")
    case Some(d) => d.answer
  }

  /** `responses.map(r => find(...)?.answer)`. */
  function FoundAnswers(responses: seq<ResponseDetail>, questionId: int): (xs: seq<ShownAnswer>)
    ensures |xs| == |responses|
    ensures forall i :: 0 <= i < |responses| ==> xs[i] == FoundAnswer(responses[i], questionId)
  {
    seq(|responses|, i requires 0 <= i < |responses| => FoundAnswer(responses[i], questionId))
  }

  /** The response-by-response collection is the map followed by
      `filter(Boolean)`. */
  lemma {:induction false} TextAnswersIsFilter(responses: seq<ResponseDetail>, questionId: int)
    ensures TextAnswersOf(responses, questionId) == Filter(FoundAnswers(responses, questionId), Truthy)
  {
    if responses != [] {
      var n := |responses| - 1;
      var a := FoundAnswer(responses[n], questionId);
      var init := FoundAnswers(responses[..n], questionId);
      TextAnswersIsFilter(responses[..n], questionId);
      assert FoundAnswers(responses, questionId) == init + [a];
      FilterAppend(init, [a], Truthy);
      TextAnswersStep(responses, questionId);
      TruthyIsFound(responses[n], questionId);
    }
  }

  /** A response's truthy answer is its found answer kept by `Boolean`. */
  lemma TruthyIsFound(r: ResponseDetail, questionId: int)
    ensures (match TruthyAnswer(r, questionId) case None => [] case Some(a) => [a])
            == Filter([FoundAnswer(r, questionId)], Truthy)
  {
    assert [FoundAnswer(r, questionId)][1..] == [];
  }

  /** The text answers are exactly the truthy answers found, in response
      order, each once per response that gives it. */
  lemma TextAnswersExact(responses: seq<ResponseDetail>, questionId: int, x: ShownAnswer)
    ensures x in TextAnswersOf(responses, questionId) <==>
              Truthy(x) && exists i :: 0 <= i < |responses| && TruthyAnswer(responses[i], questionId) == Some(x)
    ensures IsSubseq(TextAnswersOf(responses, questionId), FoundAnswers(responses, questionId))
    ensures multiset(TextAnswersOf(responses, questionId))[x]
            == if Truthy(x) then multiset(FoundAnswers(responses, questionId))[x] else 0
  {
    TextAnswersIsFilter(responses, questionId);
    FilterIsSubseq(FoundAnswers(responses, questionId), Truthy);
    FilterCount(FoundAnswers(responses, questionId), Truthy, x);
    if x in TextAnswersOf(responses, questionId) {
      TextAnswersSound(responses, questionId, x);
    }
    if exists i :: 0 <= i < |responses| && TruthyAnswer(responses[i], questionId) == Some(x) {
      var i :| 0 <= i < |responses| && TruthyAnswer(responses[i], questionId) == Some(x);
      TextAnswersComplete(responses, questionId, i);
    }
  }

  // ---------------------------------------------------------------------
  // getSummaryStats

  /** One entry of `stats`: the counters and the number of responses for an
      mcq question; the collected answers and their number for a text one. */
  datatype Summary =
    | McqSummary(question: LocalizedText, counts: map<string, nat>, total: nat)
    | TextSummary(question: LocalizedText, answers: seq<ShownAnswer>, total: nat)

  function SummaryOf(c: Column, responses: seq<ResponseDetail>, lang: Locale): Summary {
    if c.kind == Mcq then McqSummary(c.text, Tally(map[], McqLabels(responses, c.id, lang)), |responses|)
    else
      var xs := TextAnswersOf(responses, c.id);
      TextSummary(c.text, xs, |xs|)
  }

  /** `stats` after the first columns: a later column with the same id
      overwrites an earlier one. */
  function SummaryFold(cs: seq<Column>, responses: seq<ResponseDetail>, lang: Locale): map<int, Summary> {
    if cs == [] then map[]
    else
      var n := |cs| - 1;
      SummaryFold(cs[..n], responses, lang)[cs[n].id := SummaryOf(cs[n], responses, lang)]
  }

  function SummaryStats(responses: seq<ResponseDetail>, lang: Locale): map<int, Summary> {
    SummaryFold(AllQuestions(responses), responses, lang)
  }

  lemma SummaryFoldStep(cs: seq<Column>, i: nat, responses: seq<ResponseDetail>, lang: Locale)
    requires i < |cs|
    ensures SummaryFold(cs[..i + 1], responses, lang)
            == SummaryFold(cs[..i], responses, lang)[cs[i].id := SummaryOf(cs[i], responses, lang)]
  {
    assert cs[..i + 1][..i] == cs[..i];
  }

  /** The body of `allQuestions.forEach` for one column. */
  method Summarize(c: Column, responses: seq<ResponseDetail>, lang: Locale) returns (s: Summary)
    ensures s == SummaryOf(c, responses, lang)
  {
    if c.kind == Mcq {
      var counts := CountLabels(responses, c.id, lang);
      s := McqSummary(c.text, counts, |responses|);
    } else {
      var xs := TextAnswersOf(responses, c.id);
      s := TextSummary(c.text, xs, |xs|);
    }
  }

  /** `getSummaryStats()`: one pass over the columns, filling `stats`. */
  method GetSummaryStats(responses: seq<ResponseDetail>, lang: Locale) returns (stats: map<int, Summary>)
    ensures stats == SummaryStats(responses, lang)
  {
    var cs := AllQuestions(responses);
    stats := map[];
    var i := 0;
    while i < |cs|
      invariant 0 <= i <= |cs|
      invariant stats == SummaryFold(cs[..i], responses, lang)
    {
      var s := Summarize(cs[i], responses, lang);
      SummaryFoldStep(cs, i, responses, lang);
      stats := stats[cs[i].id := s];
      i := i + 1;
    }
    assert cs[..i] == cs;
  }

  /** The keys are the column ids. */
  lemma {:induction false} SummaryFoldKeys(cs: seq<Column>, responses: seq<ResponseDetail>, lang: Locale)
    ensures forall k :: k in SummaryFold(cs, responses, lang) <==> exists c :: c in cs && c.id == k
  {
    if cs != [] {
      var n := |cs| - 1;
      var init := cs[..n];
      SummaryFoldKeys(init, responses, lang);
      assert cs == init + [cs[n]];
      forall k ensures k in SummaryFold(cs, responses, lang) <==> exists c :: c in cs && c.id == k {
        if exists c :: c in init && c.id == k {
          var c :| c in init && c.id == k;
          assert c in cs;
        }
        if exists c :: c in cs && c.id == k {
          var c :| c in cs && c.id == k;
          assert c in init || c == cs[n];
        }
      }
    }
  }

  /** Each key holds the summary of the last column with that id. */
  lemma {:induction false} SummaryFoldLast(cs: seq<Column>, j: nat, responses: seq<ResponseDetail>, lang: Locale)
    requires j < |cs| && forall j' :: j < j' < |cs| ==> cs[j'].id != cs[j].id
    ensures cs[j].id in SummaryFold(cs, responses, lang)
    ensures SummaryFold(cs, responses, lang)[cs[j].id] == SummaryOf(cs[j], responses, lang)
  {
    var n := |cs| - 1;
    if j < n {
      var init := cs[..n];
      assert init[j] == cs[j];
      assert forall j' :: j < j' < |init| ==> init[j'] == cs[j'];
      SummaryFoldLast(init, j, responses, lang);
    }
  }

  /** With no responses there are no columns and no summary. */
  lemma NoResponsesNoSummary(lang: Locale)
    ensures AllQuestions([]) == [] && SummaryStats([], lang) == map[]
  {
  }

  /** An mcq entry counts exactly the occurrences of each non-empty label
      over all responses' selections and has the number of responses as its
      total; a text entry has exactly the truthy answers, and their number. */
  lemma SummaryOfMeaning(c: Column, responses: seq<ResponseDetail>, lang: Locale)
    ensures var s := SummaryOf(c, responses, lang);
            s.question == c.text
            && (s.McqSummary? <==> c.kind == Mcq)
            && (s.McqSummary? ==>
                  s.total == |responses|
                  && forall l :: l != "" ==>
                       (l in s.counts <==> l in McqLabels(responses, c.id, lang))
                       && CountOf(s.counts, l) == multiset(McqLabels(responses, c.id, lang))[l])
            && (s.McqSummary? ==> "" !in s.counts)
            && (s.TextSummary? ==> s.answers == TextAnswersOf(responses, c.id) && s.total == |s.answers|)
  {
    if c.kind == Mcq {
      forall l ensures l != "" ==>
                         (l in SummaryOf(c, responses, lang).counts <==> l in McqLabels(responses, c.id, lang))
                         && CountOf(SummaryOf(c, responses, lang).counts, l)
                            == multiset(McqLabels(responses, c.id, lang))[l]
      {
        TallyCounts(map[], McqLabels(responses, c.id, lang), l);
      }
      TallyCounts(map[], McqLabels(responses, c.id, lang), "");
    }
  }

  /** One entry per column of the first response, keyed by question id,
      holding the summary of the last column with that id; so an entry
      exists only when there are responses, and every mcq total (the
      percentage denominator) is positive. */
  lemma SummaryStatsMeaning(responses: seq<ResponseDetail>, lang: Locale)
    ensures var cs := AllQuestions(responses);
            var stats := SummaryStats(responses, lang);
            (forall k :: k in stats <==> exists c :: c in cs && c.id == k)
            && (forall k :: k in stats ==>
                  responses != []
                  && (stats[k].McqSummary? ==> stats[k].total > 0)
                  && exists j :: 0 <= j < |cs| && cs[j].id == k
                       && (forall j' :: j < j' < |cs| ==> cs[j'].id != k)
                       && stats[k] == SummaryOf(cs[j], responses, lang))
  {
    var cs := AllQuestions(responses);
    var stats := SummaryStats(responses, lang);
    SummaryFoldKeys(cs, responses, lang);
    forall k | k in stats
      ensures responses != [] && (stats[k].McqSummary? ==> stats[k].total > 0)
      ensures exists j :: 0 <= j < |cs| && cs[j].id == k
                && (forall j' :: j < j' < |cs| ==> cs[j'].id != k)
                && stats[k] == SummaryOf(cs[j], responses, lang)
    {
      var c :| c in cs && c.id == k;
      var j :| 0 <= j < |cs| && cs[j] == c;
      var last := LastWithId(cs, k, j);
      SummaryFoldLast(cs, last, responses, lang);
      SummaryOfMeaning(cs[last], responses, lang);
    }
  }

  /** The last index of a column with id `k`, given one at `j`. */
  lemma {:induction false} LastWithId(cs: seq<Column>, k: int, j: nat) returns (last: nat)
    requires j < |cs| && cs[j].id == k
    ensures last < |cs| && cs[last].id == k && j <= last
    ensures forall j' :: last < j' < |cs| ==> cs[j'].id != cs[last].id
    decreases |cs| - j
  {
    if exists j' :: j < j' < |cs| && cs[j'].id == k {
      var j' :| j < j' < |cs| && cs[j'].id == k;
      last := LastWithId(cs, k, j');
    } else {
      last := j;
    }
  }

  /** A response without an answer to the question (or with an empty one)
      adds no label. */
  lemma MissingAnswerCountsNothing(r: ResponseDetail, questionId: int, lang: Locale)
    requires TruthyAnswer(r, questionId).None?
    ensures AnswerLabels(r, questionId, lang) == []
  {
  }

  // ---------------------------------------------------------------------
  // The cards view

  /** The non-empty localized texts of the selected options, in order. */
  function ShownLabels(opts: seq<LocalizedText>, lang: Locale): (ls: seq<string>)
    ensures forall l :: l in ls ==> l != ""
  {
    Filter(seq(|opts|, i requires 0 <= i < |opts| => GetLocalizedText(opts[i], lang)), (l: string) => l != "")
  }

  /** `displayAnswer`: selections joined with ", ", a text answer as it is. */
  function DisplayAnswer(a: ShownAnswer, lang: Locale): string {
    match a
    case Chosen(opts) => Join(ShownLabels(opts, lang), ", ")
    case Entered(s) => s
  }

  /** The shown labels are the selected options' texts that are non-empty,
      kept in selection order. */
  lemma ShownLabelsExact(opts: seq<LocalizedText>, lang: Locale, l: string)
    ensures l in ShownLabels(opts, lang) <==>
              l != "" && exists i :: 0 <= i < |opts| && GetLocalizedText(opts[i], lang) == l
    ensures IsSubseq(ShownLabels(opts, lang),
                     seq(|opts|, i requires 0 <= i < |opts| => GetLocalizedText(opts[i], lang)))
    ensures l != "" ==>
              multiset(ShownLabels(opts, lang))[l]
              == multiset(seq(|opts|, i requires 0 <= i < |opts| => GetLocalizedText(opts[i], lang)))[l]
  {
    var all := seq(|opts|, i requires 0 <= i < |opts| => GetLocalizedText(opts[i], lang));
    FilterIsSubseq(all, (l: string) => l != "");
    FilterCount(all, (l: string) => l != "", l);
    if l != "" && exists i :: 0 <= i < |opts| && GetLocalizedText(opts[i], lang) == l {
      var i :| 0 <= i < |opts| && GetLocalizedText(opts[i], lang) == l;
      assert all[i] == l;
    }
  }

  /** The display of a selection is empty exactly when no selected option
      has text in the locale, and otherwise begins with the first label. */
  lemma DisplayAnswerEmptyIff(opts: seq<LocalizedText>, lang: Locale)
    ensures (DisplayAnswer(Chosen(opts), lang) == "" <==>
               forall i :: 0 <= i < |opts| ==> GetLocalizedText(opts[i], lang) == "")
    ensures ShownLabels(opts, lang) != [] ==>
              StartsWith(DisplayAnswer(Chosen(opts), lang), ShownLabels(opts, lang)[0])
  {
    var ls := ShownLabels(opts, lang);
    assert forall i :: 0 <= i < |ls| ==> ls[i] in ls;
    JoinEmptyIff(ls, ", ");
    forall i | 0 <= i < |opts| && GetLocalizedText(opts[i], lang) != ""
      ensures ls != []
    {
      ShownLabelsExact(opts, lang, GetLocalizedText(opts[i], lang));
    }
    if ls != [] {
      ShownLabelsExact(opts, lang, ls[0]);
    }
  }
}
