# Exam question pipeline, modelled in Dafny

This project models the core of a pipeline that builds an exam-question bank
from past papers of a distributed-systems course. The pipeline has four parts:

- `src/pdf_parser.py` sends each paper (a PDF) to a generative AI service.
  It digs a JSON question list out of the free-text answer, repairs or drops
  each entry, and retries failed calls under a 30-second rate limit. It stamps
  every question with its source file and merges all papers into one
  renumbered list `Q001, Q002, ...`.
- `src/data_processor.py` turns the questions into table rows. It cleans
  titles, maps free-form question types onto seven canonical names, extracts
  knowledge points and counts the rows that cover knowledge.
- `src/question_extender.py` asks the service to split compound questions
  into sub-questions. It strips a Markdown code fence from the reply, checks
  the shape and the six required fields, falls back to the original question
  and retries on a fixed schedule.
- `src/visualizer.py` contributes the helpers behind its charts: text
  normalisation, the per-chapter tallies and their sort, the marker size,
  chapter selection, knowledge-point collection, coverage buckets and
  chapter labels.

Modules:

- `PyText` (`py_text.dfy`) holds the Python string primitives the code relies
  on: `strip`, `lower`, `find`, `in`, `split`, `replace`, `str(n)` and zero
  padding.
- `JsonValue` (`json_value.dfy`) is the decoded JSON value, with dict lookup
  (the last duplicate key wins) and Python's `str()` of a value.
- `PdfResponse` (`pdf_response.dfy`) holds the pure part of
  `analyze_pdf_with_ai`: candidate extraction, decoding and validation.
- `PdfParsing` (`pdf_parsing.dfy`) holds the retry loop, `parse_single_pdf`,
  `parse_all_pdfs` and `save_results`. Class `PdfParser` carries the clock,
  `last_api_call` and a trace of granted calls, rate-limit waits and pauses.
- `DataProcessor` (`data_processor.dfy`) holds `clean_text`,
  `normalize_question_type`, `extract_knowledge_points`, the rows, the
  coverage count and the `_full.csv` path.
- `QuestionExtender` (`question_extender.dfy`) holds `extend_single_question`,
  `extend_questions` and the saved document.
- `Visualizer` (`visualizer.dfy`) holds the visualizer helpers.

External things are parameters:

- `json.loads` is a function `parse: string -> Option<Json>`.
- The AI service is a function from attempt number (and, in batch operations,
  file or question number) to its reply: a text or an error message.
- Sleeps are recorded as values. In the parser they also advance the clock.
- Python's `\w` class is a predicate `word: char -> bool`.

Every method is proved against a specification function. The lemmas state
what the code promises about those functions:

- first match wins;
- defaults and fallbacks;
- bounds and counts;
- order and membership;
- idempotence and injectivity;
- round trips.

## Model

| member | source | states |
|---|---|---|
| PdfParsing.RateWait | src/pdf_parser.py:53-61 | the wait is max(0, 30 - elapsed): after it at least 30 s have passed since the last call, and it is positive exactly when less than 30 s had passed |
| PdfParsing.PdfParser.WaitForRateLimit | src/pdf_parser.py:53-61 | the clock advances by the wait, last_api_call becomes the new time and is at least 30 s after the old one, and one grant and at most one wait are recorded |
| PdfParsing.PdfParser.constructor | src/pdf_parser.py:40-41 | a new parser has last_api_call 0 and empty traces |
| PdfParsing.PdfParser.Pause | src/pdf_parser.py:254-256 | an asyncio sleep: the clock advances by the pause and only the pause trace grows |
| PdfParsing.PdfParser.Dispatch | src/pdf_parser.py:139-162 | each attempt first waits out the rate limit and then takes the call's latency; the granted call is 30 s after the previous one |
| PdfResponse.FencedCandidate | src/pdf_parser.py:172-176 | the first candidate exists only when the text holds "```json"; it is the stripped interior up to the next "```" |
| PdfResponse.FenceAfter | src/pdf_parser.py:173 | the first "```json" of a text that holds none before a given point is the one at that point, since the marker cannot overlap itself |
| PdfResponse.FencedInterior | src/pdf_parser.py:172-176 | a "```json" fence closed by the next "```" gives its interior, stripped, and no candidate when the interior is empty |
| PdfResponse.FenceUnclosed | src/pdf_parser.py:172-176 | a "```json" that no "```" follows gives no fenced candidate |
| PdfResponse.BraceCandidate | src/pdf_parser.py:179-182 | the second candidate exists exactly when both '{' and '}' occur; when not empty it runs from a '{' to a '}' |
| PdfResponse.BraceSpan | src/pdf_parser.py:179-182 | the second candidate is the text from the first '{' to the last '}', both included, and empty when that '}' comes before that '{' |
| PdfResponse.Candidates | src/pdf_parser.py:169-185 | one candidate per method that finds one, in order: the fenced block first, the brace span next, the whole text last |
| PdfResponse.FirstParsingFrom | src/pdf_parser.py:188-195 | the index of the first candidate that parses: every earlier one fails, and none means none parses |
| PdfResponse.ParseFirstCandidate | src/pdf_parser.py:187-195 | the loop with its break yields the decoding of the first candidate that parses, and null when none does |
| PdfResponse.Decode | src/pdf_parser.py:187-198 | a successful decode is never null and is the parse of one of the candidates |
| PdfResponse.FencedPayloadWins | src/pdf_parser.py:172-176 | a non-null payload in a fence is the result, whatever surrounds it |
| PdfResponse.BracePayloadWins | src/pdf_parser.py:179-182 | without a usable fence, the brace span is tried before the whole text |
| PdfResponse.NothingParses | src/pdf_parser.py:197-198 | when no candidate parses the attempt is a decode failure |
| PdfResponse.NullStopsTheSearch | src/pdf_parser.py:190-198 | a fenced candidate that decodes to null stops the search and is a decode failure |
| PdfResponse.QuestionEntries | src/pdf_parser.py:201-206 | entries exist only when the payload is a dict whose questions value is that list |
| PdfResponse.MalformedPayloadIsEmpty | src/pdf_parser.py:201-206 | a payload that is not a dict, lacks questions or has a non-list questions gives an empty list, not a failure |
| PdfResponse.KnowledgePointList | src/pdf_parser.py:218-226 | a list stays as it is; a string becomes a one-element list, anything else ['Uncategorized']; only [] gives the empty list |
| PdfResponse.TextField | src/pdf_parser.py:215-217 | the result has no whitespace at its ends, and an absent key gives the stripped default |
| PdfResponse.TextFieldOfString | src/pdf_parser.py:215-217 | a present string value comes out as that string, stripped |
| PdfResponse.Repair | src/pdf_parser.py:212-226 | title, type and refer of a repaired entry have no whitespace at their ends, and no source is set |
| PdfResponse.RepairDefaults | src/pdf_parser.py:214-218 | a missing id is Q plus the 3-digit position plus 1; the other defaults are '', 'Unknown', 'Uncategorized' and ['Uncategorized'] |
| PdfResponse.FormatId | src/pdf_parser.py:214 | f'Q{n:03d}' starts with Q and has four characters below 1000 |
| PdfResponse.FormatIdValue | src/pdf_parser.py:214 | the digits after Q read back as n |
| PdfResponse.FormatIdInjective | src/pdf_parser.py:372 | different numbers give different ids |
| PdfResponse.FixQuestion | src/pdf_parser.py:210-230 | an entry is kept exactly when it is a dict whose stripped title is not empty, and it is kept repaired |
| PdfResponse.NonStringTitleKept | src/pdf_parser.py:215 | a title that is not a string is never dropped: str() of it is kept |
| PdfResponse.Validated | src/pdf_parser.py:208-232 | validation never lengthens the list |
| PdfResponse.ValidatedWellFormed | src/pdf_parser.py:208-232 | every kept question has a non-empty title and stripped title, type and refer |
| PdfResponse.ValidatedKeeps | src/pdf_parser.py:208-230 | every entry that passes the check is in the result |
| PdfResponse.ValidatedOnlyKept | src/pdf_parser.py:208-230 | nothing but a repaired passing entry is in the result |
| PdfResponse.ValidateQuestions | src/pdf_parser.py:208-232 | the validation loop computes exactly the validated list |
| PdfResponse.ExtractQuestions | src/pdf_parser.py:165-234 | an attempt with a text reply fails exactly when its stripped text does not decode |
| PdfParsing.DigitRun | src/pdf_parser.py:250 | the maximal run of digits at a position |
| PdfParsing.RetryAt | src/pdf_parser.py:250 | a match of `retry in (\d+(?:\.\d+)?)s` starts with "retry in " at that position |
| PdfParsing.RetryAfterFrom | src/pdf_parser.py:250-251 | re.search finds the leftmost match, and none means no position matches |
| PdfParsing.RetryAfterNamed | src/pdf_parser.py:250-252 | "retry in <n>s" yields n |
| PdfParsing.AttemptResult | src/pdf_parser.py:165-257 | a text reply is answered or undecodable according to extraction; an error mentioning 429 or quota is a quota hit whose delay is the named delay plus 1, else 60 |
| PdfParsing.QuotaWithoutDelay | src/pdf_parser.py:245-256 | a quota error naming no delay is followed by 60 s |
| PdfParsing.FirstAnswerFrom | src/pdf_parser.py:137-234 | the first answered attempt below max_retries; none means no attempt is answered |
| PdfParsing.AttemptsMade | src/pdf_parser.py:137 | at most max_retries attempts |
| PdfParsing.PauseAfter | src/pdf_parser.py:247-257 | a pause follows an attempt only after a quota error with attempts left, and it is that error's delay |
| PdfParsing.PausesBefore | src/pdf_parser.py:237-257 | at most one pause per attempt |
| PdfParsing.AnsweredAt | src/pdf_parser.py:234 | the first answered attempt ends the run with its questions and its pauses so far |
| PdfParsing.NoneAnswered | src/pdf_parser.py:237-263 | with no answer, every allowed attempt is made and the result is empty |
| PdfParsing.PausesAreQuotaDelays | src/pdf_parser.py:243-257 | there are fewer pauses than allowed attempts, and each is the delay of a quota error |
| PdfParsing.PausesAtLeastOneSecond | src/pdf_parser.py:252-256 | every pause lasts at least one second |
| PdfParsing.AnalysisOutcomeIsAnAnswer | src/pdf_parser.py:135-263 | the result is empty or the answer of an allowed attempt that every earlier attempt failed to give |
| PdfParsing.QuotaEveryTime | src/pdf_parser.py:243-263 | quota errors on every attempt: max_retries attempts, 60 s pauses between them and none after the last, empty result |
| PdfParsing.FirstAttemptAnswered | src/pdf_parser.py:234 | an answered first attempt ends the run without pauses |
| PdfParsing.RetriedWithoutPause | src/pdf_parser.py:237-242 | decode failures and other errors retry at once, with no pause |
| PdfParsing.ClassifyClassifies | src/pdf_parser.py:137-257 | the classification of replies is the attempt semantics |
| PdfParsing.PdfParser.RunAttempt | src/pdf_parser.py:137-257 | one attempt: one granted call, the classified end, and the quota pause when attempts remain |
| PdfParsing.PdfParser.AnalyzePdf | src/pdf_parser.py:135-263 | the retry loop returns the specified outcome, grants one call per attempt made and takes exactly the specified pauses; calls are 30 s apart |
| PdfParsing.DropTrailingSlashes | src/pdf_parser.py:267 | a path without its trailing slashes is a prefix of it |
| PdfParsing.BaseName | src/pdf_parser.py:267 | Path(path).name holds no '/' |
| PdfParsing.BaseNameOfJoin | src/pdf_parser.py:267 | the name of dir/name is name |
| PdfParsing.Stamped | src/pdf_parser.py:282-284 | every question gets the file's name as source, and nothing else changes |
| PdfParsing.PdfParser.ParseSinglePdf | src/pdf_parser.py:265-290 | a missing file, or one whose size cannot be read, leaves the parser untouched; otherwise the result is the analysis stamped with the file name; the file's call slots (FileAttempts) are granted and its pauses (FilePauses) appended |
| PdfParsing.ResultFileName | src/pdf_parser.py:299-301 | the result file name ends in _result.json |
| PdfParsing.ResultFileNameOfStem | src/pdf_parser.py:300-301 | stem.pdf gives stem_result.json when ".pdf" occurs only at the end |
| PdfParsing.ResultFileNameEveryOccurrence | src/pdf_parser.py:300 | every ".pdf" is removed: a.pdf.pdf gives a_result.json |
| PdfParsing.OrEmpty | src/pdf_parser.py:348-353 | a raised task becomes an empty result |
| PdfParsing.AllOutcomes | src/pdf_parser.py:312-361 | one result per file |
| PdfParsing.AllOutcomesStamped | src/pdf_parser.py:326-353 | a file that yields questions exists, and each of its questions carries its name |
| PdfParsing.TablesOf | src/pdf_parser.py:265-290 | every list of files has a table of its files' call slots and one of their pauses |
| PdfParsing.TablesAre | src/pdf_parser.py:265-290 | those tables are unique: SlotTable and PauseTable |
| PdfParsing.BatchAttemptsSplit | src/pdf_parser.py:343-345 | splitting the files into batches changes no call count |
| PdfParsing.RunPausesExtend | src/pdf_parser.py:343-359 | a run only appends to the pause trace |
| PdfParsing.OneBatchNoSeparator | src/pdf_parser.py:358-359 | when every file fits in one batch there is no one-second sleep: only the files' own pauses are added |
| PdfParsing.SeparatorAfterFirstBatch | src/pdf_parser.py:343-359 | with more files than a batch holds, the trace continues with the first batch's pauses and then a one-second sleep |
| PdfParsing.PdfParser.RunBatch | src/pdf_parser.py:343-359 | a batch yields the results of its files, in order; the call slots granted and the pauses appended are those of its files, in order |
| PdfParsing.PdfParser.NextBatch | src/pdf_parser.py:343-359 | one batch of the loop, then the one-second sleep exactly when files remain: the call count grows by the batch's, and the rest of the run's pause trace is that of the later batches |
| PdfParsing.PdfParser.RunBatches | src/pdf_parser.py:341-359 | the batch loop for any batch size: one result per file in input order, every file's call slots granted, and the pause trace is RunPauses of the old trace |
| PdfParsing.PdfParser.ParseAllPdfs | src/pdf_parser.py:312-361 | no files gives []; a concurrency of 0 or less raises; otherwise one result per file in input order, every file's call slots granted, and the pauses are each batch's files' pauses followed by one second when files remain (RunPauses) |
| PdfParsing.Renumbered | src/pdf_parser.py:371-372 | the k-th question gets id Q00(k+1), and nothing else changes |
| PdfParsing.RenumberedDistinct | src/pdf_parser.py:371-372 | renumbered ids are pairwise distinct |
| PdfParsing.RenumberedIdempotent | src/pdf_parser.py:371-372 | renumbering twice is renumbering once |
| PdfParsing.ConcatLength | src/pdf_parser.py:366-368 | the merged list is as long as all results together |
| PdfParsing.SaveResults | src/pdf_parser.py:363-391 | all questions in result order, renumbered; total_questions is the sum of the result lengths and pdf_count the number of results |
| DataProcessor.CollapseSpaces | src/data_processor.py:44 | re.sub(r'\s+', ' ') leaves only single spaces, keeps the end characters and empties only the empty string |
| DataProcessor.CollapseKeepsText | src/data_processor.py:44 | collapsing changes whitespace only |
| DataProcessor.CleanTextSteps | src/data_processor.py:38-49 | non-strings give str(); the first step leaves no whitespace at the ends and no runs; the second only deletes characters (a subsequence) and keeps every accepted one |
| DataProcessor.AsWrittenDropsApostrophe | src/data_processor.py:47 | as written, "don't" becomes "dont": the apostrophe is outside the character class |
| DataProcessor.ApostropheKept | src/data_processor.py:47 | with the apostrophe in the class, words with apostrophes come through clean_text unchanged |
| DataProcessor.FirstGroupFrom | src/data_processor.py:115-117 | the first table group, in order, one of whose keys is a substring of the text |
| DataProcessor.NormalizeQuestionType | src/data_processor.py:51-119 | a non-string gives Unknown; a string gives one of the seven canonical names or Other |
| DataProcessor.NameOfKey | src/data_processor.py:115-119 | the name found for a type text is one of the seven canonical names or Other |
| DataProcessor.NormalizeFirstMatch | src/data_processor.py:56-119 | for a lower-cased stripped type text, the name is a group's name exactly when that group is the first whose key occurs in it; Other exactly when none occurs |
| DataProcessor.NamesDistinct | src/data_processor.py:58-113 | the seven names are distinct and not Other |
| DataProcessor.CanonicalStable | src/data_processor.py:58-119 | each canonical name normalises to itself |
| DataProcessor.OtherStable | src/data_processor.py:115-119 | Other normalises to Other |
| DataProcessor.UnknownStable | src/data_processor.py:115-119 | Unknown normalises to Other |
| DataProcessor.Distinct | src/data_processor.py:152 | list(set(...)): no duplicates and the same members |
| DataProcessor.ScanKeywords | src/data_processor.py:144-148 | the keyword loop keeps exactly the mentioned keywords, in list order |
| DataProcessor.CollectKnowledgePoints | src/data_processor.py:121-152 | over a given keyword list: duplicate-free, holding the refer (a string other than 未提供) and the keywords found case-insensitively in the title, and nothing else |
| DataProcessor.ExtractKnowledgePoints | src/data_processor.py:121-152 | the same over the source's keyword list |
| DataProcessor.PointsCell | src/data_processor.py:170-172 | a missing knowledge_points gives [], a non-list ['Uncategorized'], a list itself |
| DataProcessor.MakeRow | src/data_processor.py:158-186 | type is the normalised original type (default Unknown); the title is clean_text, as written, of the title and title_length its length; the knowledge points are the question's cell |
| DataProcessor.RowTitleDropsApostrophe | src/data_processor.py:161-175 | a record's title a'b becomes ab (the class of line 47 as written), and title_length is len(a) + len(b) |
| DataProcessor.MissingTypeIsOther | src/data_processor.py:166-167 | a question without a type counts as Other |
| DataProcessor.MapEach | src/data_processor.py:158-186 | the loop appends one result per element, in order |
| DataProcessor.ProcessQuestions | src/data_processor.py:154-190 | one row per question, in order |
| DataProcessor.ValidKpCount | src/data_processor.py:221-222 | the count is at most the number of rows |
| DataProcessor.ValidKpCountBounds | src/data_processor.py:221-222 | it equals the number of rows exactly when every row covers knowledge, and is 0 exactly when none does |
| DataProcessor.DefaultPointsNeverCount | src/data_processor.py:171-172 | a question without a knowledge_points list never counts |
| DataProcessor.FullCsvPathOfStem | src/data_processor.py:204 | out/q.csv gives out/q_full.csv when ".csv" occurs only at the end |
| DataProcessor.FullCsvPathWithoutExtension | src/data_processor.py:204 | a path without ".csv" is used as it is, so the full export overwrites the core one |
| QuestionExtender.DropOpening | src/question_extender.py:101-102 | dropping the opening marker never lengthens the text |
| QuestionExtender.DropClosing | src/question_extender.py:103-104 | dropping the closing marker never lengthens the text |
| QuestionExtender.StripFence | src/question_extender.py:96-106 | the text given to json.loads has no whitespace at its ends and is no longer than the reply |
| QuestionExtender.OpeningDropped | src/question_extender.py:101-102 | "```json" + body loses exactly its 7 marker characters |
| QuestionExtender.ClosingDropped | src/question_extender.py:103-104 | body + "```" loses exactly its 3 marker characters |
| QuestionExtender.BackquotedStripped | src/question_extender.py:96 | strip() leaves a backquoted text whole |
| QuestionExtender.FenceRemoved | src/question_extender.py:96-106 | a fenced payload is decoded as the payload, stripped |
| QuestionExtender.UnfencedOnlyStripped | src/question_extender.py:96-106 | a reply with neither marker is only stripped |
| QuestionExtender.ClosingMarkerOnly | src/question_extender.py:103-106 | a lone closing marker alone is removed |
| QuestionExtender.KeyIn | src/question_extender.py:114 | `key in q` tests dict keys, substrings and list elements, and raises for anything else |
| QuestionExtender.ItemKeys | src/question_extender.py:114 | all six fields are present exactly when each `in` test holds; it raises exactly when the first does |
| QuestionExtender.CheckItems | src/question_extender.py:113-116 | the list passes exactly when every item has all six fields |
| QuestionExtender.StoppedAt | src/question_extender.py:113-116 | the first failing item decides: missing fields or a TypeError |
| QuestionExtender.DictItemComplete | src/question_extender.py:114 | a dict item passes exactly when all six keys are among its keys |
| QuestionExtender.PromptNeedsId | src/question_extender.py:38-44 | a question the prompt can be built from has a readable id |
| QuestionExtender.AnswerResult | src/question_extender.py:106-124 | the inner block returns, or errs exactly when an item cannot be searched; a result other than the original is the decoded list and every item has all fields |
| QuestionExtender.AttemptResult | src/question_extender.py:87-142 | an attempt raises out of the function exactly when question['id'] cannot be read; a rate-limit end comes from an error mentioning 429 or rate limit; a return needs a built prompt and a reply, and a new list is the decoded, complete one |
| QuestionExtender.UndecodableKeepsQuestion | src/question_extender.py:121-124 | a decode error returns the original question, with no retry |
| QuestionExtender.NotAListKeepsQuestion | src/question_extender.py:109-111 | a value that is not a list returns the original question |
| QuestionExtender.FailingItemDecides | src/question_extender.py:113-116 | an item missing a field returns the original question; an unsearchable item is an error |
| QuestionExtender.CompleteListKept | src/question_extender.py:113-119 | a list whose items all have the six fields is returned unchanged, [] included |
| QuestionExtender.ClassifyClassifies | src/question_extender.py:86-142 | the classification of replies is the attempt semantics |
| QuestionExtender.FirstDecisiveFrom | src/question_extender.py:86-142 | the first attempt that returns or raises; none means every attempt hit an error |
| QuestionExtender.AttemptsMade | src/question_extender.py:85-86 | between one and three attempts |
| QuestionExtender.PauseAfter | src/question_extender.py:127-141 | at most one pause after an attempt |
| QuestionExtender.PausesBefore | src/question_extender.py:127-141 | at most one pause per attempt |
| QuestionExtender.PausesUpTo | src/question_extender.py:127-141 | before a decisive attempt, every attempt is followed by its pause |
| QuestionExtender.SleepSchedule | src/question_extender.py:83-141 | one sleep per attempt: 1 s before the first, then (a+1)*5 s after a rate-limit error on attempt a and 2 s after another error |
| QuestionExtender.QuotaEveryTime | src/question_extender.py:127-135 | three rate-limit errors: sleeps of 1, 5 and 10 s, then the original question |
| QuestionExtender.ErrorEveryTime | src/question_extender.py:136-146 | three other errors: sleeps of 1, 2 and 2 s, then the original question |
| QuestionExtender.FinishedStops | src/question_extender.py:111-124 | a returning attempt ends the run with its list |
| QuestionExtender.OutcomeIsAnAttemptsList | src/question_extender.py:79-146 | the run gives the original question, an attempt's list, or an exception |
| QuestionExtender.RaisesIffNoId | src/question_extender.py:83-142 | the run raises exactly when question['id'] cannot be read, after the 1 s sleep only |
| QuestionExtender.IncompleteQuestionKept | src/question_extender.py:28-44 | a question with an id but missing another field errs on every attempt: sleeps 1, 2, 2 and the original question |
| QuestionExtender.NoneDecisiveAfterLast | src/question_extender.py:85-86 | no attempt follows the third |
| QuestionExtender.RunAttempt | src/question_extender.py:87-142 | one attempt ends as classified |
| QuestionExtender.HandleAnswer | src/question_extender.py:106-119 | the item loop computes the inner block's result |
| QuestionExtender.ExtendSingle | src/question_extender.py:79-146 | the retry loop returns the specified outcome and takes the specified sleeps |
| QuestionExtender.Contribution | src/question_extender.py:158-164 | a raised task contributes its original question, another its list |
| QuestionExtender.MergeAppend | src/question_extender.py:157-164 | merging is concatenation in input order |
| QuestionExtender.MergeAllKept | src/question_extender.py:157-164 | when every task raised or kept its question, the output is the input |
| QuestionExtender.MergeLength | src/question_extender.py:157-164 | the output holds as many questions as the contributions together |
| QuestionExtender.Outcomes | src/question_extender.py:151-155 | one outcome per question |
| QuestionExtender.ExtendQuestions | src/question_extender.py:148-167 | the merge loop computes the merge of every task's outcome |
| QuestionExtender.SavedCount | src/question_extender.py:178-189 | metadata.total_questions is the number of questions, and loading data['questions'] back gives them |
| Visualizer.RemovalIsFilter | src/visualizer.py:237 | replace(c, '') deletes every c and nothing else |
| Visualizer.NormalizeText | src/visualizer.py:235-237 | the normalised text holds no ' ' and no '-' and is no longer than the input |
| Visualizer.NormalizeDeletesOnly | src/visualizer.py:235-237 | the normalised text is the lower-cased stripped text minus ' ' and '-', a subsequence of it |
| Visualizer.IndexOf | src/visualizer.py:317-323 | the tally position of a key, if the key has one |
| Visualizer.TallyCounts | src/visualizer.py:317-323 | the tally holds each key once, holds exactly the keys counted, and holds each key's number of occurrences |
| Visualizer.TallyTotal | src/visualizer.py:317-323 | the counts add up to the number of keys counted |
| Visualizer.TallySizeIsDistinctCount | src/visualizer.py:1409-1410 | the tally has one entry per distinct key |
| Visualizer.Parts | src/visualizer.py:319-321 | part k is piece k of refer.split(','), stripped; one part more than refer has commas, and none holds a comma |
| Visualizer.StripInside | src/visualizer.py:321 | strip() only removes characters |
| Visualizer.AllPartsLength | src/visualizer.py:318-321 | the parts of all questions number the commas plus one per question |
| Visualizer.CountParts | src/visualizer.py:320-322 | the inner loop counts each part in turn |
| Visualizer.ChapterTally | src/visualizer.py:317-323 | the tally loop computes the tally of all parts |
| Visualizer.ChapterTallyMeaning | src/visualizer.py:1405-1409 | the chapter keys are exactly the trimmed parts, each once, and the counts add up to the number of parts |
| Visualizer.InsertPos | src/visualizer.py:326 | an entry goes after every entry with a count at least its own |
| Visualizer.InsertAt | src/visualizer.py:326 | insertion puts the entry at that place |
| Visualizer.InsertKeepsOrder | src/visualizer.py:326 | insertion keeps the list non-increasing |
| Visualizer.InsertAdds | src/visualizer.py:326 | insertion adds the entry and nothing else |
| Visualizer.SortByCountOrdered | src/visualizer.py:326 | the sorted chapters are non-increasing by count and a permutation of the tally |
| Visualizer.InsertStable | src/visualizer.py:326 | an inserted entry comes last among the entries of its count |
| Visualizer.SortByCountStable | src/visualizer.py:326 | the sort is stable: entries of equal count keep their order |
| Visualizer.MaxEntry | src/visualizer.py:1412 | max() picks an entry of the tally whose count is at least every other |
| Visualizer.MaxEntryFirst | src/visualizer.py:1412 | it is the first entry with the largest count |
| Visualizer.TopIsFirstSorted | src/visualizer.py:326 | the top chapter is the first of the sorted chart |
| Visualizer.Refers | src/visualizer.py:1406-1407 | the refer of each question, in order |
| Visualizer.Kinds | src/visualizer.py:1394 | the type of each question, in order |
| Visualizer.PrepareDashboardStats | src/visualizer.py:1389-1412 | total_questions is the number of questions; question_types_count is the size of the set of types; chapters_covered is the size of the chapter tally; top_chapter is the max() entry of the tally, and it is N/A with no chapters exactly when there are no questions |
| Visualizer.PartCountPositive | src/visualizer.py:1405-1409 | every question contributes at least one part |
| Visualizer.DashboardCounts | src/visualizer.py:1393-1410 | chapters_covered equals the number of distinct trimmed parts; question_types_count equals the number of distinct types, is at most the number of questions and is at least 1 when there are questions |
| Visualizer.TallyNoLonger | src/visualizer.py:1405-1410 | the tally is no longer than the keys counted |
| Visualizer.MarkerSize | src/visualizer.py:176 | the marker size lies in [10, 30] and is 2*count for counts from 5 to 15 |
| Visualizer.MarkerSizeMonotone | src/visualizer.py:176 | more questions never give a smaller marker |
| Visualizer.InChapterNarrower | src/visualizer.py:102 | the whole-number test implies the written substring test |
| Visualizer.LabelShape | src/visualizer.py:102 | f"Chapter {n}" is "Chapter " and digits |
| Visualizer.LabelOnlyAtStart | src/visualizer.py:102 | one chapter label occurs in another only at its start |
| Visualizer.LabelInjective | src/visualizer.py:102 | different chapters have different labels |
| Visualizer.InChapterOfLabel | src/visualizer.py:102 | with whole-number matching, refer "Chapter m" belongs to chapter n exactly when m == n |
| Visualizer.AsWrittenMatchesLongerNumber | src/visualizer.py:102 | as written, "Chapter 12" is selected for chapter 1; the whole-number test does not select it |
| Visualizer.ChapterQuestions | src/visualizer.py:100-103 | the selection loop keeps the chapter's questions in order |
| Visualizer.ChapterQuestionsMembers | src/visualizer.py:100-103 | a question is selected exactly when "Chapter n" is a substring of its refer (the test as written, see Findings) |
| Visualizer.ChapterQuestionsTakeLongerNumber | src/visualizer.py:100-103 | as written, a question whose refer is "Chapter 10n+d" is listed among chapter n's questions |
| Visualizer.Stripped | src/visualizer.py:732 | each entry stripped |
| Visualizer.CollectKnowledgePoints | src/visualizer.py:727-736 | the collection loop computes the points of every non-missing cell in order |
| Visualizer.ListPointsMembers | src/visualizer.py:730-732 | a list cell yields exactly its stripped entries that are not empty and not Uncategorized |
| Visualizer.ListCellClean | src/visualizer.py:730-732 | a point from a list is stripped, not empty and not Uncategorized |
| Visualizer.FilteredStrippedClean | src/visualizer.py:732-736 | what either comprehension keeps is stripped and passes its test |
| Visualizer.TextCellClean | src/visualizer.py:734-736 | a point from text is stripped and not empty |
| Visualizer.CellPointsClean | src/visualizer.py:729-736 | a cell's points are stripped and not empty, and a list cell never gives Uncategorized |
| Visualizer.CollectedPointsClean | src/visualizer.py:727-736 | every collected point is stripped and not empty; with list cells only, none is Uncategorized |
| Visualizer.CoverageBuckets | src/visualizer.py:1173-1200 | one bucket per row, in row order |
| Visualizer.ListBucketIsCount | src/visualizer.py:1176-1186 | for a list, [] and ['Uncategorized'] are the zero count: the bucket is that of the number of useful entries |
| Visualizer.TextBucketUnrecognised | src/visualizer.py:1187-1198 | a text cell is 未识别 exactly when it is one of the two markers |
| Visualizer.BucketOfOrdered | src/visualizer.py:1180-1186 | buckets follow the count: 4+ stays 4+ for larger counts, a single point stays single for smaller ones |
| Visualizer.FallbackLabel | src/visualizer.py:1021-1027 | a refer of at most 20 characters is kept; a longer one becomes its first 20 characters and '...' |
| Visualizer.FallbackLabelIdempotent | src/visualizer.py:1021-1027 | shortening a label again changes nothing |
| Visualizer.ChapterKeyOf | src/visualizer.py:1005-1027 | a found chapter number is the key; otherwise the shortened str() of refer |

## Left out

- The AI service calls, the prompt texts and `json.dumps` of the question in the prompt. The service is a reply function and `json.loads` a parse function; the prompt's access to the six fields is modelled as `PromptBuilds`.
- File and process I/O: `read_bytes`, `exists`, `stat`, `glob`, `mkdir` and writing JSON and CSV files, plus logging, `tqdm` and `main.py`. Whether a file exists and whether `stat` raises are fields of `PdfParsing.PdfFile`.
- The 20 MB size warning of `parse_single_pdf`: it only logs.
- asyncio concurrency. `parse_all_pdfs` and `extend_questions` are sequential loops, and the read-then-write race on `last_api_call` between concurrent tasks cannot be expressed. Within a batch the files run one after another, so the grants and pauses of a batch appear in file order, where `asyncio.gather` would interleave them.
- PdfParsing.PdfParser.ParseAllPdfs: the files come as a list; `glob` order is not modelled. The clock and the rate-limit waits of a run are not stated; only its grants and its pauses are.
- PdfParsing.PdfParser.WaitForRateLimit: `time.time()` is a float, and the model keeps whole seconds on an integer clock.
- PdfParsing.RetryAt: the delay is the whole-second part of `retry in N.Ms`; the fraction is dropped.
- PdfParsing.DigitRun: `\d` and `float()` are taken to be the ASCII digits 0-9; Python's `\d` in a `str` pattern also matches other Unicode decimal digits such as "٣", which `float()` reads, and a message naming its delay in those digits gets the 60-second default in the model.
- Python's `str.lower()` is modelled for ASCII and the Kelvin sign only. `\w` is a predicate parameter. `repr()` escapes inside strings are not modelled.
- JSON numbers are integers; floats are left out.
- `Path(p).name` is modelled as the text after the last '/' once trailing slashes are dropped. Path normalisation such as `.` components is not modelled.
- DataProcessor.Distinct: `list(set(...))` has no fixed order in Python; the model keeps the first occurrences in order.
- The coverage ratio, means and percentages, and every pandas, plotly and matplotlib call, including `value_counts` of the buckets.
- Visualizer.ChapterKeyOf: the two chapter regexes are a parameter (the number found, if any).
- Visualizer.Refers: `refer` is a string in the visualizer's questions. A non-string refer, on which `.split` would raise, is not modelled.
- Visualizer.Kinds: `type` is a string in the visualizer's questions. A list or dict type, on which `set()` raises, and the merging of equal numbers such as 1 and True in one set, are not modelled.
- Visualizer.CollectKnowledgePoints: list entries are strings. A non-string entry, on which `.strip()` would raise, is not modelled.
- Visualizer.ChapterQuestions: chapter numbers are natural numbers, and the selection is the substring test as written (the whole-number test of the Findings is proved about separately, not used here). The related-question matching of the timeline through `_normalize_text` is not modelled.
- The unique knowledge-point count, the top knowledge point and the dominant type of the dashboard. They are `Counter` and `set` computations on the same values and are not modelled.
- Aliasing: the source writes `source` and `id` into question dicts that other lists share. The model works on values.
- Extra top-level keys of a decoded payload are dropped: the model keeps only the question list it returns.

## Findings

| source | as written | input that shows it | evidently intended | confidence | as-written member | corrected member |
|---|---|---|---|---|---|---|
| src/data_processor.py:47 | the class `[^\w\s\u4e00-\u9fff.,;:!?()[\]{}""''""]` is written with adjacent string literals, so `''` adds no apostrophe and clean_text deletes ASCII apostrophes | title "don't" becomes "dont" | the quotation marks listed, the ASCII apostrophe among them, survive | not executed | DataProcessor.AsWrittenDropsApostrophe | DataProcessor.ApostropheKept |
| src/visualizer.py:102 | `f"Chapter {n}" in question['refer']` is a substring test | refer "Chapter 12" is counted under chapter 1, and "Chapter 10" to "Chapter 19" likewise | a question belongs to the chapter whose number its refer names | not executed | Visualizer.AsWrittenMatchesLongerNumber | Visualizer.InChapterOfLabel |
