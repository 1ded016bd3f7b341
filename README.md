# Survey app core, modelled in Dafny

This project models the data logic of a multi-language survey web
application: admins build polls out of questions (multiple choice or free
text), end users answer them, and admins read the collected responses. The
application keeps everything in one in-memory record store. The model
covers that store, the services that read and change it, and the plain
data rules that the pages apply around the services:

- **Three-locale text** (`MultiLang`): a value is a legacy plain string, an
  `{ar, en, ku}` object, or no object at all. Reading it falls back from
  the requested locale to `en`, then `ar`, then `ku`, then `""`.
- **Record store** (`MockData`): the class `Db` holds the six tables
  (polls, questions, mcq options, responses, mcq answers, text answers),
  the admins, and a counter per table. `GenerateId` is the post-increment
  of a counter. The class invariant `Valid()` says every counter is above
  every stored id of its table. `Keyed()` says no table holds an id twice.
  The seed data and the reload rule for counters are modelled too.
- **Survey definition services** (`PollService`, `QuestionService`):
  - create, update and delete as methods that modify `Db`;
  - the read-only sorted joins as functions;
  - the cascade of a poll delete;
  - the replacement of a question's options;
  - the sort (`Sorting`), an insertion sort that is proved a stable
    permutation.
- **Responses** (`ResponseService`):
  - a submission writes one response row, one mcq row per selected option
    and one text row per text answer;
  - the detail join gives every response one answer per poll question;
  - the response count.
- **Page logic**:
  - the responses page's summary tally and answer display
    (`ResponsesPage`);
  - the survey page's availability check, answer toggling, validation and
    submitted answers (`SurveyPage`);
  - the survey builder's title check, question form edits and question
    payload (`SurveyBuilder`);
  - the dashboard statistics (`DashboardHome`);
  - the login form (`LoginPage`);
  - the three-locale input (`MultiLangInput`).
- **Content sections**:
  - the section service with its own array and `max + 1` ids, as class
    `SectionStore` (`SectionService`);
  - the section component's text fallback and media choice
    (`SectionComponent`);
  - the admin section filter and page labels (`ManageSections`).
- **Client cache** (`SurveyStore`): the class `Store` with the fields
  `polls`, `currentPoll`, `questions`, `loading` and `error`, and one method
  per action.
- **Authentication** (`AuthService`): the credential lookup, the token
  format and the token check.

Instants are integers (milliseconds) passed in as `now`. `saveMockDB` and
the simulated delays do nothing observable and are not modelled. Service
calls that throw are modelled as `Result` values
(`Failure(message)` / `Success(value)`).

The model follows the code in two places worth knowing:

- `deletePoll` removes the poll, its questions, their options and the
  poll's responses, and keeps both answer tables as they are. So the mcq
  and text answers of a deleted response stay behind.
  `PollService.DeletePollCascade` states this, and
  `PollService.DeletingSeedPollLeavesDanglingAnswers` shows the dangling
  rows on the seed.
- `getResponsesByPollId` joins the selected option-text objects with
  `", "` (see Findings). The responses page expects an array of option
  texts instead (the comment at `src/pages/admin/Responses.jsx:49` and
  the `Array.isArray` branch on the line after it). The model keeps the
  selected option texts as a sequence.

A definition whose meaning is stated by a lemma beside it, rather than
by its own `ensures`, is listed in the table below through that lemma. For
example, `AuthService.Login` is listed as `AuthService.LoginMeaning`,
`SurveyBuilder.SubmitQuestion` as `SurveyBuilder.SubmitQuestionMeaning`
and `MultiLang.GetLocalizedText` through `MultiLang.RequestedWins` and
`MultiLang.FallbackOrder`. The same holds for `SurveyPage.Availability`,
`SurveyPage.HandleAnswerChange`, `SurveyBuilder.RemoveOption`,
`ManageSections.FilterSections`, `ManageSections.GetPageLabel`,
`SectionComponent.MediaViewOf`, `ResponsesPage.DisplayAnswer` and
`LoginPage.ValidateForm`.

## Model

| member | source | states |
|---|---|---|
| MultiLang.PlainIgnoresLocale | src/utils/multiLang.js:9-11 | a plain string is returned whatever the locale |
| MultiLang.RequestedWins | src/utils/multiLang.js:16-18 | a filled requested locale is returned |
| MultiLang.FallbackOrder | src/utils/multiLang.js:21-34 | with the requested locale empty, the result is en, else ar, else ku, else "" |
| MultiLang.ResultIsStored | src/utils/multiLang.js:7-35 | the result is "" or one of the value's stored strings |
| MultiLang.NonEmptyIffAnyLanguage | src/utils/multiLang.js:7-35 | for a three-locale value, some locale is filled iff every locale resolves to a non-empty string; otherwise every locale resolves to "" |
| MultiLang.AnyLanguageResolvesNonEmpty | src/utils/multiLang.js:62-65 | when any locale is filled, resolution in every locale is non-empty |
| MultiLang.HasAnyLanguageIff | src/utils/multiLang.js:62-65 | hasAnyLanguage holds iff the value is a three-locale object with a filled locale, so it is false for plain strings and non-objects |
| MultiLang.CompleteHasAny | src/utils/multiLang.js:52-55 | a complete value has some language |
| MultiLang.InitMultiLangText | src/utils/multiLang.js:41-45 | the initial value is a three-locale object with every locale empty |
| MultiLang.InitIsEmpty | src/utils/multiLang.js:41-45 | the initial value is neither filled nor complete, and resolves to "" in every locale |
| MockData.NextIdBy | src/services/mockData.js:196-201 | max(ids, 0) + 1 is at least 1, above every id, one past a stored id unless it is 1, and 1 for an empty table |
| MockData.StoredNextIdFresh | src/services/mockData.js:195-202 | the reload counters are above every stored id of their tables, and 1 for empty tables |
| MockData.SeedCountersAreMaxPlusOne | src/services/mockData.js:186-193 | each seed counter is the largest seed id of its table plus one |
| MockData.SeedIsKeyed | src/services/mockData.js:25-169 | seed ids are distinct in every table |
| MockData.SeedIsLinked | src/services/mockData.js:78-168 | every seed question and response names an existing poll, every option an existing question, and every answer row an existing response and question; an mcq row also names an option of its question |
| MockData.LoadedIsFresh | src/services/mockData.js:195-204 | whether the database is reloaded or seeded, its counters are fresh |
| MockData.Db.constructor | src/services/mockData.js:186-204 | the tables are the stored data or the seed; the counters are recomputed or the seed counters; the invariant holds |
| MockData.Db.GenerateId | src/services/mockData.js:206-208 | returns the entity's counter, raises that counter by exactly one, leaves every other counter and every table unchanged, and keeps the invariant |
| PollService.GetAllPolls | src/services/pollService.js:4-8 | a permutation of the stored polls, newest first |
| PollService.GetAllPollsStable | src/services/pollService.js:6-8 | polls with equal creation instants keep their store order |
| PollService.GetPollById | src/services/pollService.js:11-16 | fails with "Poll not found" iff no poll has the id; otherwise it returns the first poll with the id |
| PollService.CreatePoll | src/services/pollService.js:18-30 | appends one poll with the fresh counter id, admin id 1 and both timestamps `now`; all other state is unchanged except the poll counter |
| PollService.MergePoll | src/services/pollService.js:37-41 | the merge keeps id, admin and creation time, and sets the update time |
| PollService.MergePollFields | src/services/pollService.js:37-41 | a supplied field wins and an absent one keeps its value; merging twice is merging once |
| PollService.UpdatePoll | src/services/pollService.js:32-44 | an unknown id fails with "Poll not found" and changes nothing; otherwise only the first matching poll is replaced by the merge, the count is kept and the other tables are unchanged |
| PollService.DeletePoll | src/services/pollService.js:46-63 | an unknown id fails and changes nothing; otherwise it removes the poll, every question of the poll, those questions' options and the poll's responses, and the invariant holds afterwards |
| PollService.AfterDeletePollKeepsIds | src/services/pollService.js:52-60 | deleting keeps the counters fresh and the ids distinct |
| PollService.DeletePollCascade | src/services/pollService.js:52-60 | after the delete, exactly the other polls, questions and responses remain; the deleted questions' options are gone and other questions' options stay; both answer tables and the admins are unchanged |
| PollService.DeletingSeedPollLeavesDanglingAnswers | src/services/pollService.js:52-60 | on the seed, deleting poll 1 leaves mcq answers that name deleted responses |
| PollService.GetPollWithQuestions | src/services/pollService.js:65-81 | fails as getPollById does; otherwise it returns the poll and exactly its questions, ascending by order number, and these are the question service's join for the poll |
| QuestionService.OptionsFor | src/services/questionService.js:11-15 | an mcq question carries a sorted permutation of its options; any other type carries [] |
| QuestionService.JoinIsSortedPollQuestions | src/services/questionService.js:6-8 | the joined questions are a permutation of the poll's questions, ascending by order number, with ties in store order |
| QuestionService.JoinHasExactlyPollQuestions | src/services/questionService.js:6-7 | a question is in the join iff it belongs to the poll |
| QuestionService.JoinedOptionsAreExact | src/services/questionService.js:9-16 | each joined mcq question has exactly its own options, sorted; other questions have [] |
| QuestionService.CreatedOptionTexts | src/services/questionService.js:33 | options are written iff the type is mcq and a non-empty option list is given |
| QuestionService.CreateQuestion | src/services/questionService.js:19-48 | appends one question, without options, with the fresh id; for mcq with k options it appends k option rows with that question id, order 1..k and fresh ids; otherwise the options table is unchanged |
| QuestionService.OptionRowsShape | src/services/questionService.js:34-43 | the new option rows are the texts in input order with order 1..n and increasing ids above every earlier option id |
| QuestionService.MergeQuestionFields | src/services/questionService.js:56-60 | a supplied field wins and an absent one stays; merging twice is merging once |
| QuestionService.UpdateQuestion | src/services/questionService.js:50-82 | an unknown id fails with "Question not found" and changes nothing; otherwise the question is merged; given type mcq and options, the question's options are replaced by fresh rows; otherwise the options table is unchanged |
| QuestionService.ReplacedOptionsAreExactlyNew | src/services/questionService.js:63-78 | after the replacement, the question's options are exactly the new rows, and every other question's options are as before |
| QuestionService.DeleteQuestion | src/services/questionService.js:84-95 | an unknown id fails and changes nothing; otherwise the first question with the id is removed, along with every option of that id; nothing else changes |
| QuestionService.DeleteQuestionRemovesExactly | src/services/questionService.js:86-92 | with distinct ids, exactly the other questions remain, and exactly the other questions' options |
| ResponseService.SubmitResponse | src/services/responseService.js:4-58 | appends one response row for the poll with a fresh id, then the mcq rows of the answers' fan-out and the text rows, with consecutive fresh ids, in answer order; nothing else changes |
| ResponseService.FanOutCounts | src/services/responseService.js:20-54 | the mcq rows number the sum of the array lengths (1 for a scalar); the text rows number the text answers |
| ResponseService.FanOutAppend | src/services/responseService.js:20 | rows follow answer order |
| ResponseService.PicksInOrder | src/services/responseService.js:23-33 | a multi-select answer writes its option ids in array order |
| ResponseService.FanOutProvenance | src/services/responseService.js:21-43 | every mcq row comes from an mcq answer with that question id |
| ResponseService.UntypedWritesNothing | src/services/responseService.js:20-54 | an answer that is neither mcq nor text writes no row |
| ResponseService.GetResponsesByPollId | src/services/responseService.js:60-117 | one record per response of the poll, in store order; each has one answer per poll question, in question order, and that answer is the per-question join of the response's answer rows |
| ResponseService.DetailAnswerSemantics | src/services/responseService.js:80-106 | a text answer is the first matching row's text, or ""; an mcq answer has one entry per row of the response for the question, the rows keep their `mcq_answers` order, a row whose option is stored shows that option's text (option ids distinct), and a row whose option is gone shows "" |
| ResponseService.GetResponseCount | src/services/responseService.js:119-122 | the number of responses of the poll, which is the length of the detail list |
| ResponseService.JoinedAnswerAsWrittenLosesChoice | src/services/responseService.js:94 | as written, two different seed options give the same answer string "[object Object]" |
| ResponseService.SeedResponseOneReadsBack | src/services/responseService.js:81-88 | the intended answer keeps the chosen option's text: seed response 1 reads back option 1 ("Very Satisfied") |
| ResponsesPage.AllQuestions | src/pages/admin/Responses.jsx:32-36 | no responses give no columns; otherwise one column per answer of the first response |
| ResponsesPage.FindAnswerFirst | src/pages/admin/Responses.jsx:47 | the first answer with the question id is found |
| ResponsesPage.TallyCounts | src/pages/admin/Responses.jsx:51-57 | a counter grows by exactly the number of occurrences of its non-empty label |
| ResponsesPage.CountLabels | src/pages/admin/Responses.jsx:44-59 | the loop's counts are the tally of all labels of all responses |
| ResponsesPage.MissingAnswerCountsNothing | src/pages/admin/Responses.jsx:48 | a missing or empty answer contributes no label |
| ResponsesPage.TextAnswersIsFilter | src/pages/admin/Responses.jsx:68-70 | the collected text answers are the answers found per response, mapped in response order and then filtered by truthiness |
| ResponsesPage.TextAnswersExact | src/pages/admin/Responses.jsx:68-70 | the text answers are exactly the truthy answers found, in response order, each as many times as responses give it |
| ResponsesPage.SummaryOfMeaning | src/pages/admin/Responses.jsx:43-77 | an mcq entry counts each non-empty label's occurrences and has the number of responses as total; a text entry has the truthy answers and their number |
| ResponsesPage.GetSummaryStats | src/pages/admin/Responses.jsx:39-82 | the loop computes the summary map |
| ResponsesPage.SummaryStatsMeaning | src/pages/admin/Responses.jsx:40-79 | keys are exactly the column ids; each holds the summary of the last column with its id; every entry implies responses exist, so mcq totals are positive |
| ResponsesPage.NoResponsesNoSummary | src/pages/admin/Responses.jsx:32-36 | no responses give no columns and an empty summary |
| ResponsesPage.ShownLabelsExact | src/pages/admin/Responses.jsx:114-116 | the shown labels are exactly the non-empty localized texts of the selection, kept in selection order, each as many times as it occurs in the selection |
| ResponsesPage.DisplayAnswerEmptyIff | src/pages/admin/Responses.jsx:112-118 | a selection displays as "" iff no selected option has text; otherwise the display begins with the first label |
| SurveyPage.AvailabilityMeaning | src/pages/user/SurveyPage.jsx:39-53 | no error iff the poll is active and start ≤ now ≤ end; a non-active poll is inactive whatever its dates; an early one is not started; a late one is expired |
| SurveyPage.ToggleSelectedRemoves | src/pages/user/SurveyPage.jsx:62-68 | toggling a selected option removes it, keeps every other answer, and clears the question's error |
| SurveyPage.ToggleAtMaxRefuses | src/pages/user/SurveyPage.jsx:71-78 | adding an option at the cap leaves the answers unchanged and records the cap error |
| SurveyPage.ToggleAppends | src/pages/user/SurveyPage.jsx:70-101 | below the cap a new option is appended and the error is cleared |
| SurveyPage.ToggleKeepsSelectionSound | src/pages/user/SurveyPage.jsx:62-85 | a selection at most the cap and without duplicates stays so |
| SurveyPage.ScalarChangeReplaces | src/pages/user/SurveyPage.jsx:86-101 | a single-select or text change stores the value and clears only that question's error |
| SurveyPage.ValidateAnswers | src/pages/user/SurveyPage.jsx:104-118 | the loop computes the error map; it passes iff the map is empty, iff every required question is answered |
| SurveyPage.ValidationErrorsKeys | src/pages/user/SurveyPage.jsx:107-114 | a question has an error iff it is required and unanswered; every error is the required-field error |
| SurveyPage.FormatAnswers | src/pages/user/SurveyPage.jsx:129-135 | one formatted answer per poll question, in order |
| SurveyPage.FormatAnswersMeaning | src/pages/user/SurveyPage.jsx:129-135 | multi-select gives the selection or []; single-select gives the option id; otherwise the text or "" |
| SurveyBuilder.SavePollPayload | src/pages/admin/SurveyBuilder.jsx:76-87 | saving is refused with the required message iff the title has no locale filled |
| SurveyBuilder.SavePollRefusesUnfilledTitle | src/pages/admin/SurveyBuilder.jsx:76-79 | a plain legacy title, or one with every locale empty, is refused with the required message |
| SurveyBuilder.NewQuestionForm | src/pages/admin/SurveyBuilder.jsx:102-115 | the new question is mcq, required, single-select, with max 1 and two empty options |
| SurveyBuilder.OptionChange | src/pages/admin/SurveyBuilder.jsx:370-374 | only option i is replaced |
| SurveyBuilder.AddOption | src/pages/admin/SurveyBuilder.jsx:376-381 | one empty three-locale option is appended |
| SurveyBuilder.RemoveOptionMeaning | src/pages/admin/SurveyBuilder.jsx:383-388 | with more than two options, exactly index i is removed; otherwise nothing changes; at least two options remain |
| SurveyBuilder.OptionEditsKeepTwo | src/pages/admin/SurveyBuilder.jsx:370-388 | the option edits never drop the list below two |
| SurveyBuilder.SubmitQuestionMeaning | src/pages/admin/SurveyBuilder.jsx:390-412 | refused iff the text is unfilled, or for mcq fewer than two options are filled; the payload has the filled options in order, each as many times as in the form, for mcq, [] for other types, and order 999 on create or the form's on edit |
| SurveyBuilder.NewFormNeedsFilling | src/pages/admin/SurveyBuilder.jsx:390-402 | the default form is refused until its text, and then two options, are filled |
| SectionService.SeedIdsUnique | src/services/sectionService.js:4-140 | the ten seed sections have ids 1..10, all distinct |
| SectionService.MergeSectionFields | src/services/sectionService.js:198 | supplied fields win, absent ones stay, and an empty patch changes nothing |
| SectionService.OnPage | src/services/sectionService.js:156-157 | the sections of a page |
| SectionService.SectionStore.constructor | src/services/sectionService.js:4-140 | the store starts with the seed sections |
| SectionService.SectionStore.GetAllSections | src/services/sectionService.js:147 | a permutation of the sections with non-decreasing order |
| SectionService.SectionStore.GetSectionsByPage | src/services/sectionService.js:156-158 | exactly the page's sections, sorted by order |
| SectionService.GettersAreStable | src/services/sectionService.js:147-158 | equal orders keep their relative order |
| SectionService.SectionStore.GetSectionById | src/services/sectionService.js:168-173 | the first section with the id, or "Section not found" iff none has it |
| SectionService.GetSectionByIdIff | src/services/sectionService.js:168-173 | found iff the id is among the section ids |
| SectionService.SectionStore.CreateSection | src/services/sectionService.js:182-186 | the new section gets max id + 1 (1 when empty), overriding the supplied id, and is appended |
| SectionService.SectionStore.UpdateSection | src/services/sectionService.js:196-202 | an unknown id is rejected with no change; otherwise only the first match is merged |
| SectionService.SectionStore.DeleteSection | src/services/sectionService.js:211-217 | an unknown id is rejected; otherwise exactly the first match is removed, the others keep their order, and no section with the id remains |
| SectionComponent.TextFallback | src/components/common/Section.jsx:9-10 | the title is the locale's field if non-empty, else the English one; empty iff both are; the same holds for content |
| SectionComponent.MediaViewChoice | src/components/common/Section.jsx:14-79 | no media gives nothing; video media picks YouTube, then Vimeo, then a native video; other media is an image |
| SectionComponent.NativeVideoHasExtension | src/components/common/Section.jsx:14-68 | a native video ends in .mp4 or .webm |
| SectionComponent.YouTubeSource | src/components/common/Section.jsx:45-47 | the embed source replaces only the first "watch?v=" with "embed/", and is the url itself when that is absent |
| ManageSections.FilterSectionsMeaning | src/pages/admin/ManageSections.jsx:69-88 | an order-preserving subsequence; a section is kept iff it is on the page (any for 'all') and matches the lower-cased term in title or content |
| ManageSections.NoFilterShowsAll | src/pages/admin/ManageSections.jsx:73-78 | 'all' and an empty term show every section |
| ManageSections.PageOptions | src/pages/admin/ManageSections.jsx:35-46 | ten options, the first being 'all' |
| ManageSections.GetPageLabelMeaning | src/pages/admin/ManageSections.jsx:163-166 | a known page gets the label of its first option; an unknown one is shown as it is |
| SurveyStore.ReplaceWhereMeaning | src/store/surveyStore.js:55-111 | replacing by id touches only entries with the id |
| SurveyStore.RemoveWhereMeaning | src/store/surveyStore.js:71-126 | removing by id drops every entry with the id and keeps the rest in order |
| SurveyStore.Store.constructor | src/store/surveyStore.js:6-10 | the initial store is empty and idle |
| SurveyStore.Store.Begin | src/store/surveyStore.js:14 | each action starts loading and clears the error |
| SurveyStore.Store.Fail | src/store/surveyStore.js:18-19 | a failure stores the message and stops loading; the lists are unchanged |
| SurveyStore.Store.FetchPolls | src/store/surveyStore.js:13-21 | polls become the service's sorted list |
| SurveyStore.Store.FetchPollById | src/store/surveyStore.js:23-33 | on success currentPoll is the poll with its questions, and questions are its questions; on failure the error is set and the cache is unchanged |
| SurveyStore.Store.CreatePoll | src/store/surveyStore.js:35-48 | the service appends a poll with the fresh id, admin 1 and both timestamps `now`, and touches no other table; the new poll is prepended to the cache |
| SurveyStore.Store.UpdatePoll | src/store/surveyStore.js:50-64 | fails with "Poll not found" iff no stored poll has the id, and then the db is unchanged, the lists are kept and the error is set; otherwise the result is the merge of the first stored poll with the id, which replaces it in the db, replaces the cached entries with the id, and replaces currentPoll only if its id matches |
| SurveyStore.Store.DeletePoll | src/store/surveyStore.js:66-78 | fails with "Poll not found" iff no stored poll has the id, and then the db is unchanged and the error is set; otherwise the db loses the poll, its questions, their options and its responses, and every cached entry with the id is removed |
| SurveyStore.Store.FetchQuestions | src/store/surveyStore.js:81-89 | questions become the poll's joined questions |
| SurveyStore.Store.CreateQuestion | src/store/surveyStore.js:91-104 | the service appends the question with the fresh id and the input's fields, plus its option rows for mcq, and touches no other table; the new question is appended to the cache |
| SurveyStore.Store.UpdateQuestion | src/store/surveyStore.js:106-119 | fails with "Question not found" iff no stored question has the id, and then the db and the cache are unchanged and the error is set; otherwise the result is the merge of the first stored question with the id, which replaces it in the db (with fresh option rows when mcq options are given) and replaces the cached entries with the id |
| SurveyStore.Store.DeleteQuestion | src/store/surveyStore.js:121-133 | fails with "Question not found" iff no stored question has the id, and then the db and the cache are unchanged and the error is set; otherwise the db loses the question and its options, and every cached entry with the id is removed |
| SurveyStore.Store.ClearError | src/store/surveyStore.js:135 | only the error is cleared |
| SurveyStore.Store.ClearCurrentPoll | src/store/surveyStore.js:136 | currentPoll is null and questions [] |
| DashboardHome.LoadDashboardData | src/pages/admin/DashboardHome.jsx:38-60 | the survey count, the active count (at most the total), the sum of per-poll response counts, and the first min(5, n) polls |
| DashboardHome.SumResponseCounts | src/pages/admin/DashboardHome.jsx:45-51 | the loop sums getResponseCount over the polls |
| DashboardHome.ResponseTotalCounts | src/pages/admin/DashboardHome.jsx:45-51 | over polls with distinct ids, the total counts each response of a listed poll once, so it is at most the number of responses |
| DashboardHome.StatusBadge | src/pages/admin/DashboardHome.jsx:244-248 | "active" iff the status is active, "draft" for every other status |
| AuthService.FindAdmin | src/services/authService.js:7-9 | none iff no admin matches both email and password; a result is a matching stored admin |
| AuthService.FindAdminFirst | src/services/authService.js:7-9 | the first matching admin is found |
| AuthService.Token | src/services/authService.js:16 | a token starts with "mock_token_" |
| AuthService.ValidateToken | src/services/authService.js:29-32 | true iff the token is present and starts with "mock_token_"; a token with the prefix is never empty |
| AuthService.ValidateTokenMeaning | src/services/authService.js:29-32 | every token login issues is accepted; a missing token, the empty token and a token without the prefix are refused |
| AuthService.TokenInjective | src/services/authService.js:16 | two tokens are equal iff they name the same admin id and the same instant |
| AuthService.LoginMeaning | src/services/authService.js:4-22 | succeeds iff some admin matches; the first match is returned without its hash, with token "mock_token_" + id + "_" + now, and that token validates; failure is "Invalid credentials" |
| AuthService.SeedAdminSignsIn | src/services/authService.js:7-16 | the seeded admin signs in as admin 1 |
| LoginPage.ValidateFormMeaning | src/pages/admin/Login.jsx:26-41 | an empty email is required, a non-empty one without the x@y.z pattern is invalid, an empty password is required; nothing else is reported, and the form passes iff none of these holds |
| LoginPage.DefaultFormIsValid | src/pages/admin/Login.jsx:19-41 | the pre-filled credentials pass validation |
| LoginPage.HandleChangeMeaning | src/pages/admin/Login.jsx:59-65 | the edited field takes the value; only its error is blanked, and the other field and error are untouched |
| MultiLangInput.HandleChangeMeaning | src/components/common/MultiLangInput.jsx:17-22 | the edited locale shows the new text and the other two show what they showed before |
| MultiLangInput.HandleChangeFills | src/components/common/MultiLangInput.jsx:17-22 | a non-empty text makes the value filled; re-entering a field's text changes nothing |
| MultiLangInput.DefaultValueIsBlank | src/components/common/MultiLangInput.jsx:7-68 | the default value is the empty three-locale text, and every field shows "" |

## Left out

- Persistence: localStorage load and save, and the auth store's
  persistence, are not modelled. The database constructor takes the
  stored tables as a parameter, and `saveMockDB` is a no-op.
- Simulated latency: `delay` and `setTimeout` are treated as synchronous
  calls. The store's intermediate `loading = true` state is therefore
  only seen inside a method.
- Clock, date parsing and ISO strings: instants are integer parameters,
  and the seed's ISO dates are written as integers. Date comparison
  works on those integers.
- Floating point: the summary's percentages and `toFixed` are not
  modelled. `SummaryStatsMeaning` only proves their denominator
  positive.
- JavaScript dynamic quirks:
  - `parseInt` on route ids, and string/number `===` mismatches, are not
    modelled: ids are integers throughout;
  - `parseInt(undefined)` giving `NaN` is modelled only as an option id
    that matches no option (`Option<int>`);
  - spread letting caller data overwrite `id` in `createPoll` and
    `updateSection` is not modelled: inputs carry no id.
- Unicode case folding: `ToLower` folds ASCII only.
- i18next `t()`: translations are a function parameter (`PageOptions`)
  or left as their keys ("validation.required", "admin.active").
- Rendering, routing, modals, toasts and the presentation-only
  components are not modelled.
- `src/store/responseStore.js` is not part of this model. It caches the
  list from `getResponsesByPollId` in `responses`, passes on the response
  that `submitResponse` returns (rethrowing its error), and toggles loading
  and error around both calls in the way `SurveyStore.Store` models for
  the poll cache.
- `src/pages/public/SurveysList.jsx` is not part of this model: it calls a
  poll service method that does not exist.
- `logout` is not modelled: it only waits and returns success.
- ResponseService.SubmitResponse: requires `WellTyped(answers)`, that a
  text answer carries a string. The page always builds such answers
  (`SurveyPage.FormatAnswersMeaning`); other values are not modelled.
- SurveyPage.HandleAnswerChange: a stored value that is not an array,
  met by a multi-select toggle, reads as no selection; JavaScript would
  call `includes` on it.
- AuthService.Login: takes the admin list as a parameter instead of
  reading the store.
- ResponseService.GetResponsesByPollId: keeps the selected option texts
  as a sequence. The source's `join(', ')` of option objects is modelled
  separately (see Findings).
- MultiLangInput.Displayed: a `null` value, which would make the
  component throw, reads as no value.

## Findings

| source | as written | input that shows it | evidently intended | confidence | as-written member | corrected member |
|---|---|---|---|---|---|---|
| src/services/responseService.js:94 | the mcq answer is `selectedOptions.join(', ')` over option-text objects, so every chosen three-locale option turns into "[object Object]" | seed response 1 with option 1 selected, compared with option 3 selected: both give "[object Object]" | the answer keeps the selected option texts, as the responses page expects (it localizes each element of an array) | not executed | ResponseService.JoinedAnswerAsWrittenLosesChoice | ResponseService.SeedResponseOneReadsBack |
