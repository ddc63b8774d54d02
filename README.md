# zysktms core, modelled in Dafny

This project models the logic of the zysktms learning app: the exam-taking
screen and the per-exam answer store behind it, plus the pure and stateful
helpers of the home feed, the create-post form, the exams list and the blog
detail screen.

- `wrappers.dfy` (`Wrappers`): `Option`.
- `js_text.dfy` (`JsText`): the JavaScript string and number built-ins the screens rely on. That covers `trim`, `split`, `join`, `split(/\s+/).filter(Boolean)`, `toString`, `parseInt`, `Number` and the truncating `%`.
- `js_array.dfy` (`JsArray`): `Array.prototype.filter` and the facts about it the screens need.
- `answer_store.dfy` (`AnswerStore`): `services/database.ts`. The shared SQLite file is a map from table name to table, and a table maps a question id to its row. The operations are functions over that state. `DatabaseManager` is a class whose methods are proved to move the state as those functions do. Storage-engine failures are injected: each operation takes the next `Faults` record from a script.
- `checkpoint.dfy` (`Checkpoint`): the AsyncStorage keys of an exam and a key–value store class.
- `assessment_view.dfy` (`AssessmentView`): the pure helpers of the assessment screen. These are the time budget, the resume target, the restored choices, question statistics, stepper items and pages, the clock text and the timer colour.
- `assessment_spec.dfy` (`AssessmentSpec`): every event of the assessment screen as a function on a `World`. A `World` is the screen's state cells, the key–value store, the answer store and the failure script. The lemmas about these functions are stated here.
- `assessment_screen.dfy` (`AssessmentScreen`): the screen as a class. Each handler is a method proved to move `World()` exactly as the matching `AssessmentSpec` function does.
- `home_feed.dfy` (`HomeFeed`): media assignment, the merge of pages without repeated posts, the scroll-to-top rule and deletion. `Feed` is a class over the feed's state cells.
- `create_post.dfy` (`CreatePost`): tag parsing, the required-field check, payload shaping and the content cap. `Form` is a class over the form's cells.
- `exams.dfy` (`Exams`): the status filter and the summary counts.
- `blog_detail.dfy` (`BlogDetail`): the reading-time label and the computed post id and hero picture. Both copies of the blog detail screen compute these the same way.

Events that the source receives from listeners, intervals and timeouts are
methods and functions applied one at a time. Network responses, the clock
text written into rows and storage failures are parameters.

## Model

| member | source | states |
|---|---|---|
| JsText.Trim | screens/post/create_post.tsx:48-63 | `trim()` leaves a string that neither starts nor ends with whitespace and is no longer than the input |
| JsText.TrimStart | screens/post/create_post.tsx:48 | the left trim is no longer than its input and does not start with whitespace |
| JsText.TrimEnd | screens/post/create_post.tsx:48 | the right trim is no longer than its input and does not end with whitespace |
| JsText.TrimBlank | screens/post/create_post.tsx:48 | trimming leaves nothing exactly when the text is all whitespace |
| JsText.TrimIsInfix | screens/post/create_post.tsx:53 | the trimmed text is a slice of the input with only whitespace around it |
| JsText.TrimTrimmed | screens/post/create_post.tsx:53 | a string with no whitespace at either end is its own trim |
| JsText.TrimKeepsOut | screens/post/create_post.tsx:52-53 | trimming never introduces a character that was absent |
| JsText.Split | screens/post/create_post.tsx:52 | `split(sep)` gives at least one piece and no piece contains the separator |
| JsText.JoinSplit | screens/post/create_post.tsx:52 | joining the pieces of a split restores the text |
| JsText.SplitJoin | screens/post/create_post.tsx:52 | splitting a join of separator-free pieces gives the pieces back |
| JsText.Pieces | app/blog-detail.tsx:37 | the text cut at each whitespace character, at least one piece; a run of whitespace leaves empty pieces, so it equals `split(/\s+/)` only once empty pieces are filtered (as `Words` does) |
| JsText.NonEmpty | app/blog-detail.tsx:37 | `filter(Boolean)` on strings never lengthens the list |
| JsText.Words | app/blog-detail.tsx:37 | `split(/\s+/).filter(Boolean)` yields only non-empty words without whitespace |
| JsText.WordsAroundSpace | app/blog-detail.tsx:37 | a whitespace character separates the words before it from those after it |
| JsText.WordsOfWord | app/blog-detail.tsx:37 | a non-empty run without whitespace is exactly one word |
| JsText.WordsOfBlank | app/blog-detail.tsx:35-37 | blank text has no words |
| JsText.NonEmptyKeeps | screens/post/create_post.tsx:55 | `filter(t => t.length > 0)` keeps only non-empty members of its input |
| JsText.NonEmptyKeepsAll | screens/post/create_post.tsx:55 | when no member is empty the filter keeps everything, in order |
| JsText.NonEmptyAppend | app/blog-detail.tsx:37 | filtering a concatenation filters each part |
| JsText.NatToStringValue | screens/assessment/assessment_screen.tsx:107 | `toString` of a natural writes digits whose value is the number, with no leading zero except for 0 |
| JsText.NatToString | screens/assessment/assessment_screen.tsx:107 | `toString` of a natural is a non-empty run of decimal digits |
| JsText.IntToString | screens/main/HomeScreen.tsx:91 | `toString` of an integer is never empty |
| JsText.LeadingDigitsStop | screens/assessment/assessment_screen.tsx:88 | `parseInt` stops at the first non-digit after a digit run |
| JsText.NegativeToStringReads | app/blog-detail.tsx:42 | `parseInt` and `Number` read back the `toString` of a negative integer |
| JsText.LeadingDigits | screens/assessment/assessment_screen.tsx:88 | the digits `parseInt` reads form the longest digit prefix of the text |
| JsText.DigitsThenText | app/blog-detail.tsx:39 | `parseInt` reads the number at the front of a text and ignores non-digit text after it |
| JsText.ParseInt | screens/assessment/assessment_screen.tsx:88 | `parseInt(s, 10)`: leading whitespace skipped, an optional sign, then the leading digits, none when there are no digits; `LeadingDigits`, `DigitsThenText` and `ParseIntToString` state what it reads |
| JsText.JsNumber | app/blog-detail.tsx:42 | `Number(s)` for integer text: surrounding whitespace trimmed, blank is 0, anything but an optionally signed digit run is not a number; `JsNumberToString` states it reads back `toString` |
| JsText.ParseIntToString | screens/assessment/assessment_screen.tsx:88-107 | `parseInt` reads back every integer `toString` wrote |
| JsText.JsNumberToString | app/blog-detail.tsx:42 | `Number` reads back every integer `toString` wrote |
| JsText.JsRem | screens/assessment/assessment_screen.tsx:704-705 | `%` truncates toward zero: `a == q*b + r` with `abs(r) < b` and `r` taking the sign of `a` |
| JsArray.Filter | screens/main/HomeScreen.tsx:152 | `filter` never lengthens a list |
| JsArray.FilterMembers | screens/main/ExamsScreen.tsx:28 | `filter` keeps exactly the members that pass |
| JsArray.FilterAppend | screens/main/ExamsScreen.tsx:28 | `filter` keeps relative order: filtering a concatenation filters each part |
| JsArray.FilterKeepsAll | screens/main/HomeScreen.tsx:152 | when every member passes, `filter` is the identity |
| JsArray.FilterKeepsNone | screens/main/HomeScreen.tsx:152 | when no member passes, `filter` is empty |
| JsArray.FilterPartition | screens/main/ExamsScreen.tsx:33-36 | two complementary tests split a list into parts whose sizes add up to its length |
| AnswerStore.Sanitize | services/database.ts:47 | every unsafe character becomes `_` and every safe one is kept, position by position |
| AnswerStore.TableNameShape | services/database.ts:46-53 | a table name starts with `exam_answers_`, uses only `[A-Za-z0-9_]`, has no digit right after the prefix, and is `exam_answers_invalid` for an empty id |
| AnswerStore.TableName | services/database.ts:46-53 | `tableName()`: `TableNameShape`, `TableNameOfId` and `TableNameCollisions` state its shape, what it keeps of the id, and where it collides |
| AnswerStore.TableNameOfId | services/database.ts:47-52 | a non-empty id keeps its sanitized spelling after the prefix, with `t_` in front when it starts with a digit |
| AnswerStore.DigitLedName | services/database.ts:51 | a digit-led id gets the `t_` guard, so the name is a safe identifier |
| AnswerStore.LetterLedName | services/database.ts:51-52 | an id not led by a digit gets no guard and still yields a safe identifier |
| AnswerStore.TableNameCollisions | services/database.ts:46-53 | the naming is not injective: "a-b"/"a.b", "1"/"t_1" and ""/"invalid" share tables |
| AnswerStore.UnsafeCharsCollide | services/database.ts:47 | "a-b" and "a.b" name the same table |
| AnswerStore.DigitGuardCollides | services/database.ts:51 | "1" and "t_1" name the same table |
| AnswerStore.EmptyIdCollides | services/database.ts:48-49 | "" and "invalid" name the same table |
| AnswerStore.SortedKeys | services/database.ts:171 | the question ids in strictly ascending order, each exactly once |
| AnswerStore.Rows | services/database.ts:171 | `ORDER BY question_id`: every stored row exactly once, in ascending question id |
| AnswerStore.KeyedRows | services/database.ts:163-179 | the rows of the listed question ids, one per id, in the order given |
| AnswerStore.OneRowPerQuestion | services/database.ts:163-184 | a stored row is listed, every listed row of its question is that row, and no question appears twice |
| AnswerStore.EnsureTable | services/database.ts:55-67 | `CREATE TABLE IF NOT EXISTS` adds an empty table only when absent and keeps every other table |
| AnswerStore.Prepare | services/database.ts:121-124 | the lazy open plus table creation succeeds exactly when opening and creating succeed; it then leaves the table present with its rows |
| AnswerStore.Reconnect | services/database.ts:70-85 | the statement succeeds exactly when fewer than two runs throw, and only this exam's table can change |
| AnswerStore.Save | services/database.ts:114-149 | an upsert under the question id when the write gets through; otherwise no row changes; other tables never change |
| AnswerStore.GetAll | services/database.ts:163-184 | the rows by ascending question id, or `[]` on any failure; rows are never changed |
| AnswerStore.GetByQuestion | services/database.ts:189-210 | the row of that question, or nothing when it is absent or anything fails |
| AnswerStore.Clear | services/database.ts:215-230 | on success the table is present and empty; failure is reported and changes no row |
| AnswerStore.Drop | services/database.ts:233-245 | `DROP TABLE IF EXISTS` removes only this exam's table; failures are swallowed and change no row |
| AnswerStore.Exists | services/database.ts:88-111 | true exactly when the table exists and holds a row, false on any failure, and no table changes |
| AnswerStore.Close | services/database.ts:293-303 | an open connection closes unless closing throws; a closed one stays closed; tables are untouched |
| AnswerStore.UpsertLastWins | services/database.ts:133-139 | after saving A and then B for one question, the listing holds exactly one row for it, B |
| AnswerStore.SaveStores | services/database.ts:133-139 | a fault-free save replaces that question's row |
| AnswerStore.ReadsWhatIsStored | services/database.ts:163-179 | a fault-free read lists the stored table |
| AnswerStore.FailedSaveLosesOnlyTheWrite | services/database.ts:146-148 | a failed save leaves every table as it was and reports nothing |
| AnswerStore.DropThenVerify | services/database.ts:233-245 | after a drop the existence check is false and a later read recreates an empty table |
| AnswerStore.DropRemoves | services/database.ts:239 | a fault-free drop removes exactly this exam's table |
| AnswerStore.MissingTableReadsEmpty | services/database.ts:95-98 | a missing table is reported missing and reads as no rows |
| AnswerStore.DropIdempotent | services/database.ts:239 | dropping twice is dropping once |
| AnswerStore.FallbackClearEmpties | services/database.ts:215-230 | when the drop fails but rows remain, the fallback clear empties the table |
| AnswerStore.CloseIdempotent | services/database.ts:293-303 | closing twice is closing once and leaves the connection closed |
| AnswerStore.SharedFile.NextFaults | services/database.ts:70-85 | each operation consumes the next scripted failure record and nothing else |
| AnswerStore.DatabaseManager.OpenDb | services/database.ts:39-43 | opens only when closed; succeeds unless a closed connection fails to open |
| AnswerStore.DatabaseManager.EnsureExamTable | services/database.ts:55-67 | opens, then creates the table if absent, exactly as `EnsureTable` |
| AnswerStore.DatabaseManager.Prepared | services/database.ts:121-124 | the preamble of every operation moves the state as `Prepare` |
| AnswerStore.DatabaseManager.WithReconnect | services/database.ts:70-85 | the statement runs at most twice; a second run happens exactly after a first failure, and the outcome is as `Reconnect` |
| AnswerStore.DatabaseManager.SaveAnswer | services/database.ts:114-149 | moves the state as `Save` and consumes one failure record |
| AnswerStore.DatabaseManager.SaveAnswerNoThrow | services/database.ts:151-160 | the same effect as `saveAnswer` |
| AnswerStore.DatabaseManager.GetAllAnswers | services/database.ts:163-184 | returns and moves the state as `GetAll` |
| AnswerStore.DatabaseManager.GetAnswerByQuestionId | services/database.ts:189-210 | returns and moves the state as `GetByQuestion` |
| AnswerStore.DatabaseManager.ClearAllAnswers | services/database.ts:215-230 | returns and moves the state as `Clear` |
| AnswerStore.DatabaseManager.DropExamTable | services/database.ts:233-245 | moves the state as `Drop` |
| AnswerStore.DatabaseManager.CheckDatabaseExists | services/database.ts:88-111 | returns and moves the state as `Exists` |
| AnswerStore.DatabaseManager.CloseDatabase | services/database.ts:293-303 | moves the state as `Close` |
| Checkpoint.KeysNeverCollide | screens/assessment/assessment_screen.tsx:79-80 | the index key of one exam is never the completed key of any exam |
| Checkpoint.IndexKeyInjective | screens/assessment/assessment_screen.tsx:79 | different exams keep their index under different keys |
| Checkpoint.CompletedKeyInjective | screens/assessment/assessment_screen.tsx:80 | different exams keep their completed flag under different keys |
| Checkpoint.KeyValueStore.GetItem | screens/assessment/assessment_screen.tsx:86 | `getItem` returns the stored value, or nothing when the key is absent |
| Checkpoint.KeyValueStore.SetItem | screens/assessment/assessment_screen.tsx:107 | `setItem` stores the value under the key and changes no other key |
| Checkpoint.KeyValueStore.RemoveItem | screens/assessment/assessment_screen.tsx:136 | `removeItem` removes only that key |
| AssessmentView.TimeBudget | screens/assessment/assessment_screen.tsx:298-299 | the budget is whole minutes: the given limit, or 30 when it is missing or zero |
| AssessmentView.FirstUnanswered | screens/assessment/assessment_screen.tsx:311-313 | the first question whose saved option is falsy (0 counts as unanswered), or -1 when every question is answered |
| AssessmentView.ResumeTarget | screens/assessment/assessment_screen.tsx:311-314 | the first unanswered question, or 0 when all are answered |
| AssessmentView.ResumeIndex | screens/assessment/assessment_screen.tsx:315-317 | resume settles on the larger of the persisted index and the target |
| AssessmentView.SavedOptionsLastWins | screens/assessment/assessment_screen.tsx:306-309 | the restored map names exactly the questions of the rows, each with the option of its last row |
| AssessmentView.SavedOptions | screens/assessment/assessment_screen.tsx:306-309 | the loop that restores the choices, the last row of a question winning; `SavedOptionsLastWins` and `SavedOptionsOfTable` state its result |
| AssessmentView.SavedOptionsOfTable | screens/assessment/assessment_screen.tsx:305-310 | restoring from a table's listing gives exactly the table's choices |
| AssessmentView.SavedOptionsOfListing | screens/assessment/assessment_screen.tsx:305-310 | any listing of a table, one row per question in ascending order, restores its choices |
| AssessmentView.Stats | screens/assessment/assessment_screen.tsx:518-523 | total is the question count, answered the selection count, and the two parts add up |
| AssessmentView.NotAnsweredNonNegative | screens/assessment/assessment_screen.tsx:518-523 | when only shown questions are selected, "not answered" is never negative |
| AssessmentView.StepperItems | screens/assessment/assessment_screen.tsx:532-551 | the items of `[page*5, min(page*5+5, n))`, each with its absolute index, its number, its answered mark and its current mark |
| AssessmentView.SliceBound | screens/assessment/assessment_screen.tsx:538 | `slice` clamps a bound into `[0, len]` and keeps one already inside |
| AssessmentView.TotalPages | screens/assessment/assessment_screen.tsx:554 | `ceil(n/5)`: the fewest pages of 5 that cover every question |
| AssessmentView.PageMovesStayInRange | screens/assessment/assessment_screen.tsx:557-567 | the page buttons never leave `[0, ceil(n/5)-1]` |
| AssessmentView.CurrentQuestionOnItsPage | screens/assessment/assessment_screen.tsx:115-126 | after an index update the stepper shows that question and marks it current |
| AssessmentView.Pad2Keeps | screens/assessment/assessment_screen.tsx:708 | `padStart(2, '0')` puts zeros in front up to two characters |
| AssessmentView.Pad2Reads | screens/assessment/assessment_screen.tsx:708-710 | a padded field below 60 reads back as its number |
| AssessmentView.FormatTime | screens/assessment/assessment_screen.tsx:702-711 | `formatTime`: `ClockFields` bounds its fields and `FormatTimeReadsBack` proves the text reads back as the seconds |
| AssessmentView.ClockFields | screens/assessment/assessment_screen.tsx:703-705 | the hours, minutes and seconds of a non-negative count are in range and add back up to it |
| AssessmentView.LongClockReadsBack | screens/assessment/assessment_screen.tsx:707-708 | the `h:mm:ss` text reads back as its seconds |
| AssessmentView.ShortClockReadsBack | screens/assessment/assessment_screen.tsx:710 | the `m:ss` text reads back as its seconds |
| AssessmentView.LongFormatReadsBack | screens/assessment/assessment_screen.tsx:703-708 | `formatTime` of a count of an hour or more reads back as that count |
| AssessmentView.ShortFormatReadsBack | screens/assessment/assessment_screen.tsx:703-710 | `formatTime` of a count under an hour reads back as that count |
| AssessmentView.FormatTimeReadsBack | screens/assessment/assessment_screen.tsx:702-711 | for every non-negative count, `formatTime` is exact: its text reads back as the same seconds |
| AssessmentView.TimerColourMonotone | screens/assessment/assessment_screen.tsx:715-721 | with a positive limit the colour only grows more urgent as time runs out, and is red exactly in the last tenth |
| AssessmentView.TimerColourOf | screens/assessment/assessment_screen.tsx:715-721 | `getTimerColor` by cross-multiplication; `TimerColourMonotone` states its bands and their order |
| AssessmentSpec.CompletionCloses | screens/assessment/assessment_screen.tsx:392-442 | every completion ends closed: unsecured, timer stopped, submitted, completed flag "true", outcome recorded |
| AssessmentSpec.Completion | screens/assessment/assessment_screen.tsx:392-442 | `handleExamCompletion`: `CompletionCloses`, `CompletionTearsDown`, `CompletionStores` and `TeardownIdempotent` state its effect |
| AssessmentSpec.Teardown | screens/assessment/assessment_screen.tsx:404-417 | the store teardown: `TeardownKeepsUi` and `TeardownDropsTable` state its effect |
| AssessmentSpec.TeardownKeepsUi | screens/assessment/assessment_screen.tsx:404-417 | the store teardown never touches the screen's cells |
| AssessmentSpec.CompletionTearsDown | screens/assessment/assessment_screen.tsx:404-438 | without storage failures completion removes the index key (the manual path writes "0" back) and drops only this exam's table |
| AssessmentSpec.TeardownDropsTable | screens/assessment/assessment_screen.tsx:404-417 | without failures the teardown drops exactly the exam's table and removes the index key |
| AssessmentSpec.CompletionStores | screens/assessment/assessment_screen.tsx:404-438 | a completion's exact effect on the key–value store and the answer tables |
| AssessmentSpec.TeardownIdempotent | screens/assessment/assessment_screen.tsx:392-442 | a second completion changes nothing stored, although there is no single-entry guard |
| AssessmentSpec.KeysAfterCompletionTwice | screens/assessment/assessment_screen.tsx:404-438 | the key–value effect of a completion is the same whether it runs once or twice |
| AssessmentSpec.ClosedIgnoresEvents | screens/assessment/assessment_screen.tsx:483-501 | once closed, no button, tick, back press or app-state event changes anything |
| AssessmentSpec.ResumeNeverMovesBack | screens/assessment/assessment_screen.tsx:304-317 | resume lands on the larger of the persisted index and the resume target, and shows its page |
| AssessmentSpec.ResumeRestoresChoices | screens/assessment/assessment_screen.tsx:305-310 | without failures the restored selection is exactly the saved choices |
| AssessmentSpec.FreshStartResets | screens/assessment/assessment_screen.tsx:295-323 | a fresh start begins at question 0 with the full budget, secured |
| AssessmentSpec.StartFreshClears | screens/assessment/assessment_screen.tsx:232-268 | "Start Fresh" empties the table and the selection and starts at question 0 |
| AssessmentSpec.FirstViolationWarns | screens/assessment/assessment_screen.tsx:178-191 | the first counted violation opens the warning with one attempt left and does not complete |
| AssessmentSpec.RemainingAttempts | screens/assessment/assessment_screen.tsx:855 | `2 - violationAttempts`; `FirstViolationWarns` states it is 1 when the warning first opens |
| AssessmentSpec.Violation | screens/assessment/assessment_screen.tsx:178-191 | `handleExamViolation`: `FirstViolationWarns` and `SecondViolationForces` state both branches |
| AssessmentSpec.SecondViolationForces | screens/assessment/assessment_screen.tsx:182-185 | a violation reaching two attempts forces completion |
| AssessmentSpec.ViolationWhileWarnedForces | screens/assessment/assessment_screen.tsx:615-647 | an exit attempt while the warning shows forces completion whatever the count, and closes the warning |
| AssessmentSpec.OnlyLeavingActiveCounts | screens/assessment/assessment_screen.tsx:633-653 | only `active` to `background`/`inactive` is a violation; other notifications only update the remembered state |
| AssessmentSpec.ContinueKeepsCount | screens/assessment/assessment_screen.tsx:193-199 | "Continue Exam" closes the warning and keeps the count |
| AssessmentSpec.TwoStrikes | screens/assessment/assessment_screen.tsx:178-199 | backgrounding, continuing and then pressing back ends the exam as forced |
| AssessmentSpec.TickDecrements | screens/assessment/assessment_screen.tsx:574-579 | a tick above one takes exactly one second off and changes nothing else |
| AssessmentSpec.OnTick | screens/assessment/assessment_screen.tsx:570-606 | one interval tick with the zero effect: `TickDecrements`, `CountdownRuns`, `LastTick` and `CountdownExpires` state it |
| AssessmentSpec.CountdownRuns | screens/assessment/assessment_screen.tsx:574-587 | k ticks that do not reach zero take off exactly k seconds |
| AssessmentSpec.LastTick | screens/assessment/assessment_screen.tsx:582-606 | the tick to zero stops the timer and, with a positive limit, completes the exam as timed out |
| AssessmentSpec.CountdownExpires | screens/assessment/assessment_screen.tsx:570-606 | after as many ticks as seconds remain, the timer has stopped and a positive-limit exam is submitted as timed out |
| AssessmentSpec.TicksSplit | screens/assessment/assessment_screen.tsx:574-587 | a + b ticks are a ticks followed by b ticks |
| AssessmentSpec.UpdateInBounds | screens/assessment/assessment_screen.tsx:115-126 | an index update to a question keeps index and page in bounds and persists the index |
| AssessmentSpec.PreviousStaysInBounds | screens/assessment/assessment_screen.tsx:525-529 | Previous moves back one question, never before the first |
| AssessmentSpec.JumpStaysInBounds | screens/assessment/assessment_screen.tsx:115-126 | a tap on a stepper item opens that item's question, in bounds |
| AssessmentSpec.PagesStayInBounds | screens/assessment/assessment_screen.tsx:557-567 | the page buttons keep the page in range and leave the index alone |
| AssessmentSpec.NextStaysInBounds | screens/assessment/assessment_screen.tsx:352-362 | Next moves one question on below the last one, and completes the exam from the last |
| AssessmentSpec.OnNext | screens/assessment/assessment_screen.tsx:352-362 | "Next" or "Finish": `NextStaysInBounds` states both |
| AssessmentSpec.OnSelect | screens/assessment/assessment_screen.tsx:336-350 | `handleOptionSelect`: `SelectSavesChoice` states its effect |
| AssessmentSpec.SelectSavesChoice | screens/assessment/assessment_screen.tsx:336-350 | tapping an option of the current question sets exactly that question's choice; with a manager and no storage failure the row (question, text, option id, option text, time) replaces any earlier row of the question at once and no other table changes; an option out of range changes nothing |
| AssessmentSpec.MountKeepsCompletion | screens/assessment/assessment_screen.tsx:129-158 | a completed flag whose exam still has answers keeps the exam closed and opens no manager |
| AssessmentSpec.CheckCompletion | screens/assessment/assessment_screen.tsx:129-164 | `checkExamCompletion`: `MountKeepsCompletion` and `MountDropsStaleFlag` state both outcomes |
| AssessmentSpec.OnMount | screens/assessment/assessment_screen.tsx:208-218 | the mount effect: `MountKeepsCompletion`, `MountDropsStaleFlag` and `PersistedIndexRestored` state it |
| AssessmentSpec.MountDropsStaleFlag | screens/assessment/assessment_screen.tsx:141-154 | a completed flag without saved answers is removed and the exam opens fresh |
| AssessmentSpec.PersistedIndexRestored | screens/assessment/assessment_screen.tsx:83-112 | the index an update persists is the index the next mount restores |
| AssessmentSpec.SubmitAndEndKeepsAnswers | screens/assessment/assessment_screen.tsx:201-206 | as written, "Submit & End" leaves the saved answers and the index key in place |
| AssessmentSpec.SubmitAndEndLeavesExamInProgress | screens/assessment/assessment_screen.tsx:201-206 | as written, an exam ended by "Submit & End" with saved answers still reports existing data |
| AssessmentSpec.SubmitAndEndTearsDown | screens/assessment/assessment_screen.tsx:201-206 | with the current manager, "Submit & End" drops the table and removes the index key |
| AssessmentScreen.Screen.UpdateCurrentQuestionIndex | screens/assessment/assessment_screen.tsx:115-126 | moves the world as `UpdateIndex` |
| AssessmentScreen.Screen.LoadPersistedIndex | screens/assessment/assessment_screen.tsx:83-101 | moves the world as `Open` |
| AssessmentScreen.Screen.CheckExamCompletion | screens/assessment/assessment_screen.tsx:129-164 | returns and moves the world as `CheckCompletion` |
| AssessmentScreen.Screen.Mount | screens/assessment/assessment_screen.tsx:208-218 | moves the world as `OnMount` |
| AssessmentScreen.Screen.Unmount | screens/assessment/assessment_screen.tsx:220-230 | moves the world as `OnUnmount` |
| AssessmentScreen.Screen.ClearPreviousData | screens/assessment/assessment_screen.tsx:232-245 | moves the world as `ClearPrevious` |
| AssessmentScreen.Screen.RestoreSavedOptions | screens/assessment/assessment_screen.tsx:306-309 | the loop over the saved rows builds exactly `SavedOptions` |
| AssessmentScreen.Screen.ResumeFromSaved | screens/assessment/assessment_screen.tsx:304-317 | moves the world as `ResumeAt` |
| AssessmentScreen.Screen.FetchAndStart | screens/assessment/assessment_screen.tsx:291-334 | moves the world as `FetchAndStart` |
| AssessmentScreen.Screen.StartAssessment | screens/assessment/assessment_screen.tsx:247-289 | moves the world as `OnStart` |
| AssessmentScreen.Screen.ClearAndRestart | screens/assessment/assessment_screen.tsx:232-245 | moves the world as `OnClearAndRestart` |
| AssessmentScreen.Screen.SelectOption | screens/assessment/assessment_screen.tsx:336-350 | moves the world as `OnSelect` |
| AssessmentScreen.Screen.Next | screens/assessment/assessment_screen.tsx:352-362 | moves the world as `OnNext` |
| AssessmentScreen.Screen.Previous | screens/assessment/assessment_screen.tsx:525-529 | moves the world as `OnPrevious` |
| AssessmentScreen.Screen.Jump | screens/assessment/assessment_screen.tsx:115-126 | moves the world as `OnJump` |
| AssessmentScreen.Screen.GoToPreviousPage | screens/assessment/assessment_screen.tsx:557-561 | moves the world as `OnPreviousPage` |
| AssessmentScreen.Screen.GoToNextPage | screens/assessment/assessment_screen.tsx:563-567 | moves the world as `OnNextPage` |
| AssessmentScreen.Screen.Tick | screens/assessment/assessment_screen.tsx:570-606 | moves the world as `OnTick` |
| AssessmentScreen.Screen.HandleExamViolation | screens/assessment/assessment_screen.tsx:178-191 | moves the world as `Violation` |
| AssessmentScreen.Screen.ExitAttempt | screens/assessment/assessment_screen.tsx:615-651 | moves the world as `ExitAttempt` |
| AssessmentScreen.Screen.BackPress | screens/assessment/assessment_screen.tsx:613-626 | moves the world as `OnBackPress` |
| AssessmentScreen.Screen.AppStateChange | screens/assessment/assessment_screen.tsx:629-659 | moves the world as `OnAppStateChange` |
| AssessmentScreen.Screen.Blur | screens/assessment/assessment_screen.tsx:668-674 | moves the world as `OnBlur` |
| AssessmentScreen.Screen.Focus | screens/assessment/assessment_screen.tsx:662-666 | moves the world as `OnFocus` |
| AssessmentScreen.Screen.Poll | screens/assessment/assessment_screen.tsx:684-690 | moves the world as `OnPoll` |
| AssessmentScreen.Screen.ContinueExam | screens/assessment/assessment_screen.tsx:193-199 | moves the world as `OnContinue` |
| AssessmentScreen.Screen.SubmitAndEnd | screens/assessment/assessment_screen.tsx:201-206 | moves the world as `OnSubmitAndEndAsWritten`: the first render's completion, without the store teardown |
| AssessmentScreen.Screen.TearDownStores | screens/assessment/assessment_screen.tsx:404-417 | moves the world as `Teardown` |
| AssessmentScreen.Screen.MarkExamCompleted | screens/assessment/assessment_screen.tsx:167-175 | moves the world as `RecordOutcome` |
| AssessmentScreen.Screen.HandleExamCompletion | screens/assessment/assessment_screen.tsx:392-442 | moves the world as `Completion` |
| HomeFeed.PictureId | screens/main/HomeScreen.tsx:91 | `id % 100` lies in (-100, 100) and is the Euclidean remainder for a non-negative id |
| HomeFeed.HasVideoIsMultipleOfFive | screens/main/HomeScreen.tsx:84 | `id % 5 === 0` holds exactly for multiples of 5, negative ids included |
| HomeFeed.WithMedia | screens/main/HomeScreen.tsx:80-95 | exactly one media field is set: the video for every fifth id, otherwise the picture of `id % 100`; nothing else changes |
| HomeFeed.MapMedia | screens/main/HomeScreen.tsx:80-95 | the same posts in the same order, each given its media |
| HomeFeed.MapMediaIdempotent | screens/main/HomeScreen.tsx:80-95 | assigning media twice is assigning it once |
| HomeFeed.MapMediaKeepsIds | screens/main/HomeScreen.tsx:80-95 | assigning media keeps ids distinct exactly when they were distinct |
| HomeFeed.Merge | screens/main/HomeScreen.tsx:150-153 | the posts already shown remain an unchanged prefix of the merge |
| HomeFeed.MergeAppendsFresh | screens/main/HomeScreen.tsx:151-153 | the merge appends exactly the fetched posts whose id is not shown |
| HomeFeed.FilterKeepsUniqueIds | screens/main/HomeScreen.tsx:152 | filtering posts with distinct ids keeps the ids distinct |
| HomeFeed.MergeKeepsIdsUnique | screens/main/HomeScreen.tsx:150-153 | distinct ids stay distinct through a merge of a page that repeats no id |
| HomeFeed.MergeRepeatsWithinPage | screens/main/HomeScreen.tsx:151-152 | only shown ids are checked: a page that repeats an id puts both copies on screen |
| HomeFeed.MergeIdempotent | screens/main/HomeScreen.tsx:150-153 | fetching an already merged page again adds nothing |
| HomeFeed.ScrollStep | screens/main/HomeScreen.tsx:182-202 | near the top the button hides; further down a move up by more than 15 shows it and a move down hides it; smaller moves change nothing |
| HomeFeed.ScrollSettles | screens/main/HomeScreen.tsx:182-202 | reporting the same offset twice changes nothing the second time |
| HomeFeed.InitialBookkeeping | screens/main/HomeScreen.tsx:118-135 | the first page sets posts, total and `skip` to its size, and `hasMore` exactly when `limit < total` |
| HomeFeed.MoreIsGuarded | screens/main/HomeScreen.tsx:137-145 | a request for more is made exactly when nothing is in flight and more is expected, at offset `skip` |
| HomeFeed.MoreBookkeeping | screens/main/HomeScreen.tsx:150-158 | after a merge `skip` is the number of posts and `hasMore` holds exactly when that is below the total |
| HomeFeed.MoreKeepsIdsUnique | screens/main/HomeScreen.tsx:150-153 | loading more keeps the shown ids distinct when the page repeats no id |
| HomeFeed.DeleteRemoves | screens/main/HomeScreen.tsx:204-208 | deletion removes every post with that id, keeps the others in order, and lowers the total by exactly one |
| HomeFeed.StepsKeepFeedValid | screens/main/HomeScreen.tsx:118-208 | every handler keeps the next page from starting inside the posts shown |
| HomeFeed.BeginInitial | screens/main/HomeScreen.tsx:118-122 | `loadInitial` up to its request, with no ref check; `StepsKeepFeedValid` and `IntendedStepsShowPrefix` state what it keeps |
| HomeFeed.EndInitial | screens/main/HomeScreen.tsx:123-134 | `loadInitial` after its response: `InitialBookkeeping` and `FirstPageShowsPrefix` state its result |
| HomeFeed.BeginMore | screens/main/HomeScreen.tsx:137-145 | `loadMore` up to its request: `MoreIsGuarded` states the guard and the offset |
| HomeFeed.EndMore | screens/main/HomeScreen.tsx:146-165 | `loadMore` after its response, merging onto the posts shown at that moment: `MoreBookkeeping`, `MoreKeepsIdsUnique` and `NextPageExtendsPrefix` state its result |
| HomeFeed.Delete | screens/main/HomeScreen.tsx:204-208 | `handleDeletePost`: `DeleteRemoves` states its result |
| HomeFeed.MapMediaAppend | screens/main/HomeScreen.tsx:80-95 | assigning media to a concatenation assigns it to each part |
| HomeFeed.MergeDisjoint | screens/main/HomeScreen.tsx:150-153 | a page sharing no id with the posts shown is appended whole |
| HomeFeed.MergeGrowsPrefix | screens/main/HomeScreen.tsx:150-153 | merging the next stretch of a list with distinct ids onto the stretch before it gives the longer prefix |
| HomeFeed.FirstPageShowsPrefix | screens/main/HomeScreen.tsx:123-127 | the first page shows the server's first posts, with the offset right after them |
| HomeFeed.NextPageExtendsPrefix | screens/main/HomeScreen.tsx:150-157 | a page fetched at the current offset extends the posts shown by exactly the server's next posts |
| HomeFeed.RefreshDuringLoadMoreSkipsPosts | screens/main/HomeScreen.tsx:118-158 | as written, a refresh while `loadMore` waits makes the late page land on the refreshed first page: posts 11 to 20 are never shown, the offset stays 20, more is still expected, and the next `loadMore` adds nothing |
| HomeFeed.EndMoreAt | screens/main/HomeScreen.tsx:146-158 | the corrected `loadMore` completion, which drops a page asked for at an offset that is no longer current; `IntendedStepsShowPrefix` states what it keeps |
| HomeFeed.IntendedStepsShowPrefix | screens/main/HomeScreen.tsx:118-166 | with the corrected completion every request and response, in any order, keeps the posts shown equal to the server's first posts with the offset right after them |
| HomeFeed.Feed.BeginLoadInitial | screens/main/HomeScreen.tsx:118-123 | requests page size 10 at offset 0 and moves the state as `BeginInitial` |
| HomeFeed.Feed.FinishLoadInitial | screens/main/HomeScreen.tsx:124-135 | moves the state as `EndInitial` |
| HomeFeed.Feed.BeginLoadMore | screens/main/HomeScreen.tsx:137-145 | returns the offset and moves the state as `BeginMore` |
| HomeFeed.Feed.FinishLoadMore | screens/main/HomeScreen.tsx:146-166 | moves the state as `EndMore` |
| HomeFeed.Feed.HandleScroll | screens/main/HomeScreen.tsx:182-202 | moves the state as `Scroll` |
| HomeFeed.Feed.HandleDeletePost | screens/main/HomeScreen.tsx:204-208 | moves the state as `Delete` |
| CreatePost.TrimAll | screens/post/create_post.tsx:54 | `map(t => t.trim())`, piece by piece |
| CreatePost.TrimmedPieceIsTag | screens/post/create_post.tsx:52-55 | the trim of a comma-free piece, when not empty, is a tag |
| CreatePost.ParseTags | screens/post/create_post.tsx:52-55 | every parsed tag is non-empty, has no surrounding whitespace and no comma |
| CreatePost.ParseTagsJoin | screens/post/create_post.tsx:52-55 | tags typed in order, comma-separated, parse back unchanged and in that order |
| CreatePost.RejectedIffBlank | screens/post/create_post.tsx:48-51 | a submission is refused exactly when the title or the content is whitespace only |
| CreatePost.Submission | screens/post/create_post.tsx:47-63 | no payload exactly when refused; a payload has a non-empty trimmed title and body, omits a blank category and an empty tag list, and carries only tags |
| CreatePost.SubmissionStable | screens/post/create_post.tsx:58-63 | filling the form with a sent payload's own fields sends the same payload again |
| CreatePost.EditContent | screens/post/create_post.tsx:172 | an edit up to 8000 characters is taken and a longer one ignored |
| CreatePost.SubmitRefusesBlank | screens/post/create_post.tsx:48-51 | a blank title or content sends nothing, shows "Missing fields" and changes nothing |
| CreatePost.SubmitStep | screens/post/create_post.tsx:47-84 | `onSubmit`: `SubmitRefusesBlank`, `SubmitSettles` and `FormStaysValid` state its effect |
| CreatePost.SubmitSettles | screens/post/create_post.tsx:57-83 | after the call, submitting is false; success empties every field, failure keeps them |
| CreatePost.FormStaysValid | screens/post/create_post.tsx:16 | the content never exceeds 8000 characters |
| CreatePost.Form.SetContent | screens/post/create_post.tsx:172 | moves the form as `EditContent` |
| CreatePost.Form.Submit | screens/post/create_post.tsx:47-84 | returns the payload sent and the alert, and moves the form as `SubmitStep` |
| Exams.Filtered | screens/main/ExamsScreen.tsx:26-29 | "all" is the whole list; a status gives exactly the exams of that status |
| Exams.WithStatus | screens/main/ExamsScreen.tsx:28 | `exams.filter(e => e.status === status)`: `Filtered` and `Stats` state its members and count |
| Exams.FilteredKeepsOrder | screens/main/ExamsScreen.tsx:28 | filtering keeps list order: filtering two consecutive parts and joining is filtering the whole |
| Exams.Stats | screens/main/ExamsScreen.tsx:32-37 | total is the list length, completed and upcoming are the filtered counts, and they add up to the total |
| BlogDetail.WordCount | app/blog-detail.tsx:35-37 | words of the body plus words of the title, none for a post not loaded |
| BlogDetail.ReadMinutes | screens/blogs/blog-detail.tsx:25 | `max(1, ceil(words/200))`: at least 1, and the fewest minutes covering the words at 200 a minute |
| BlogDetail.ReadMinutesMonotonic | app/blog-detail.tsx:38 | more words never mean fewer minutes |
| BlogDetail.ReadMinutesBands | app/blog-detail.tsx:38 | up to 200 words is 1 minute, 201 to 400 is 2 |
| BlogDetail.EmptyPostReadTime | app/blog-detail.tsx:35-39 | a missing or blank post reads "1 min read" |
| BlogDetail.ReadTime | app/blog-detail.tsx:34-40 | the `readTime` label: `EmptyPostReadTime` and `ReadTimeReadsBack` state it |
| BlogDetail.OneMinuteLabel | app/blog-detail.tsx:38-39 | no words read as "1 min read" |
| BlogDetail.ReadTimeReadsBack | screens/blogs/blog-detail.tsx:26 | the label's number reads back as the minutes |
| BlogDetail.ComputedId | app/blog-detail.tsx:42 | the post's id once loaded, else the route id as a number, else 0 |
| BlogDetail.ComputedIdFromRoute | screens/blogs/blog-detail.tsx:29 | before the post arrives, a numeric route id gives back that id |
| BlogDetail.HeroPictureRange | screens/blogs/blog-detail.tsx:30 | for a non-negative id the hero picture is one of 0 to 99, and ids 100 apart share it |
| BlogDetail.HeroUri | screens/blogs/blog-detail.tsx:30 | the hero picture URL: `HeroPictureRange` states which picture it shows |

## Left out

- AsyncStorage failures: every key–value call in the screen sits in a `try` that only logs, so the key–value store never fails in the model.
- The SQLite engine, `expo-file-system` and `deleteDatabase` (services/database.ts:251-292) are not part of this model; the engine is the table map plus injected failures.
- The `id` autoincrement column and `created_at` clock value: rows carry the time text as a parameter and no surrogate id.
- A failure of the `CREATE TABLE` that `withReconnect`'s reconnect step runs is folded into the statement-failure count.
- The temporary manager that `checkExamCompletion` creates is never closed in the source; the model does not track connections other than the screen's own.
- Wall-clock time, `setInterval`/`setTimeout` delays, listener registration and their interleavings: each listener call, interval tick and timeout is one event applied atomically.
- No exactly-once guard for completion exists in the source, and none is claimed; `TeardownIdempotent` shows a repeated completion changes nothing stored.
- `handleSubmitExam` and `CompletionModal` (screens/assessment/assessment_screen.tsx:444-480) are unreachable because nothing sets `showCompletionModal`.
- `logQuestionsAndAnswers`, console output and `answeredQuestions`, which nothing reads.
- The `!id` branch of `checkExamCompletion` (screens/assessment/assessment_screen.tsx:135-140) cannot run, because the mount effect only calls it with an id.
- The `loading` flag, the submission animation and all rendering beyond which view is shown.
- A back press while a React Native `Modal` is visible goes to the screen's handler in the model; platform modal focus rules are not modelled.
- The screen's state cells are held as one record field of the screen class rather than one field per cell.
- A `NaN` question index (a persisted index that `parseInt` cannot read) leaves the index unchanged; the source would store `NaN`.
- The timer colour's floating-point percentage is compared by integer cross-multiplication.
- `Number()` is modelled for optionally signed decimal integers; decimals, exponents, hex and `Infinity` read as not-a-number.
- `String.length` counts UTF-16 code units; the model counts characters, so the 8000 cap and `contentCount` differ for text outside the Basic Multilingual Plane.
- Scroll offsets are `real`, with no floating-point rounding; `scrollToTop`'s timeout, `visibleVideoId`, the video modal and the story data are not modelled.
- Image picking for the featured image (platform permission and picker) is not modelled; the field is reset on success like the others.
- The 1-second artificial delay in `loadMore` is not timed: the request and the arrival of its response are separate events, and any other event (a refresh included) may fall between them.
- `useQuery`, the blog fetch effect and `fetchPostById` are network I/O; the post arrives as a parameter.
- AnswerStore.Sanitize: replaces per character, while the regular expression at services/database.ts:47 has no `u` flag and replaces per UTF-16 code unit, so a character outside the Basic Multilingual Plane becomes `__` in the source and `_` in the model; table names and collisions differ only for such ids.

## Behaviour of the code where the description differs

- Table naming is described as collision-safe, but the code maps "a-b" and "a.b", "1" and "t_1", and "" and "invalid" to the same table (`AnswerStore.TableNameCollisions`).
- Completion is described as happening once; the code has no guard, so the model only proves that a repeat changes nothing stored.
- Manual completion removes the index key and then writes "0" back through `updateCurrentQuestionIndex(0)` (screens/assessment/assessment_screen.tsx:437); the model follows the code.

## Findings

| source | as written | input that shows it | evidently intended | confidence | as-written member | corrected member |
|---|---|---|---|---|---|---|
| screens/assessment/assessment_screen.tsx:201-206 | `handleForceSubmitExam` is memoised with an empty dependency list, so it calls the `handleExamCompletion` of the first render, where `databaseManager` is still null; "Submit & End Exam" skips the teardown | an exam with saved answers, one violation, then "Submit & End Exam" in the warning: the table and index key remain and the existence check still reports data | the completion sees the current manager and drops the table and index key like every other forced completion | medium, not executed | AssessmentSpec.OnSubmitAndEndAsWritten (shown by AssessmentSpec.SubmitAndEndKeepsAnswers, AssessmentSpec.SubmitAndEndLeavesExamInProgress) | AssessmentSpec.OnSubmitAndEnd (proved by AssessmentSpec.SubmitAndEndTearsDown) |
| screens/main/HomeScreen.tsx:118-158 | `loadInitial` never checks the in-flight ref, so a pull-to-refresh or the scroll-to-top button can run it while `loadMore` waits out its delay; the late page is then merged onto the refreshed first page and the offset set to the merged length | 20 posts shown of 50, `loadMore` asks for offset 20, a refresh lands first: posts 1-10 and 21-30 are shown, the offset stays 20, and every later `loadMore` fetches 21-30 again and adds nothing, so posts 11-20 never appear | a late page asked for at an offset that is no longer current is dropped, so the feed always shows the server's posts without a gap | medium, not executed | HomeFeed.EndMore (shown by HomeFeed.RefreshDuringLoadMoreSkipsPosts) | HomeFeed.EndMoreAt (proved by HomeFeed.IntendedStepsShowPrefix) |
