/** The assessment screen as a state machine over values. A `World` holds
    the screen's state cells and refs (`Ui`), the key–value store, the
    answer store as seen by the screen's `DatabaseManager`, and the failures
    scripted for the storage engine. Every event handler of the screen is a
    function from the world before to the world after; listeners, intervals
    and timeouts become events applied one at a time. */
module AssessmentSpec {
  import opened Wrappers
  import opened JsText
  import opened AnswerStore
  import opened Checkpoint
  import opened AssessmentView

  /** What the question-bank request produced. */
  datatype Fetch = Fetched(results: seq<Question>, timeLimit: Option<int>) | FetchFailed

  datatype AppStatus = Active | Background | Inactive | Unknown | Extension

  /** The answer to the "Resume Exam" alert. */
  datatype StartChoice = StartFresh | Resume

  /** Where the screen has asked the router to go. */
  datatype Route = Stay | Back | Feedback

  datatype Ui = Ui(
    hasDb: bool,              // databaseManager is set
    hasExistingData: bool,
    started: bool,            // assessmentStarted
    questions: seq<Question>,
    selected: map<int, int>,  // selectedOptions
    index: int,               // currentQuestionIndex and its refs
    page: int,                // stepperPage
    timeLimit: int,           // seconds
    remaining: int,           // timeRemaining and timeRemainingRef
    timerActive: bool,
    attempts: int,            // examViolationAttempts
    modalOpen: bool,          // showViolationModal and modalActiveRef
    secured: bool,            // isExamSecured: the security listeners are installed
    appState: AppStatus,      // appStateRef
    timeUp: bool,
    forced: bool,             // isForcedSubmission
    submitted: bool,
    completed: bool,          // isExamCompleted
    route: Route)

  datatype World = World(ui: Ui, kv: map<string, string>, store: Store, script: seq<Faults>)

  /** The state cells on first render. */
  function InitialUi(appState: AppStatus): Ui {
    Ui(false, false, false, [], map[], 0, 0, 0, 0, false, 0, false, false, appState,
       false, false, false, false, Stay)
  }

  /** Submitted or completed: the screen renders nothing. */
  predicate Finished(ui: Ui) {
    ui.submitted || ui.completed
  }

  /** The exam view (stepper, question, options, Previous/Next, warning modal) is rendered. */
  predicate ExamShown(ui: Ui) {
    !Finished(ui) && ui.started
  }

  /** The "Assessment Ready" view is rendered. */
  predicate IntroShown(ui: Ui) {
    !Finished(ui) && !ui.started
  }

  /** The attempts left, as the warning modal shows them. */
  function RemainingAttempts(ui: Ui): int {
    MaxViolations - ui.attempts
  }

  // ------------------------------------------------------------- storage

  function DbSave(w: World, id: string, row: ExamAnswer): World {
    w.(store := Save(w.store, TableName(id), row, Head(w.script)), script := Tail(w.script))
  }

  function DbGetAll(w: World, id: string): (World, seq<ExamAnswer>) {
    var (s, rows) := GetAll(w.store, TableName(id), Head(w.script));
    (w.(store := s, script := Tail(w.script)), rows)
  }

  function DbExists(w: World, id: string): (World, bool) {
    var (s, b) := Exists(w.store, TableName(id), Head(w.script));
    (w.(store := s, script := Tail(w.script)), b)
  }

  function DbClear(w: World, id: string): (World, bool) {
    var (s, ok) := Clear(w.store, TableName(id), Head(w.script));
    (w.(store := s, script := Tail(w.script)), ok)
  }

  function DbDrop(w: World, id: string): World {
    w.(store := Drop(w.store, TableName(id), Head(w.script)), script := Tail(w.script))
  }

  function DbClose(w: World): World {
    w.(store := Close(w.store, Head(w.script)), script := Tail(w.script))
  }

  // --------------------------------------------------------------- index

  /** `updateCurrentQuestionIndex(i)`: move to question `i`, show its stepper
      page and persist the index as text. */
  function UpdateIndex(w: World, id: string, i: int): World {
    w.(ui := w.ui.(index := i, page := PageOf(i)), kv := w.kv[IndexKey(id) := IntToString(i)])
  }

  /** `setDatabaseManager(new DatabaseManager(id))` and `loadPersistedIndex`.
      An index text that `parseInt` reads as `NaN` leaves the index as it is. */
  function Open(w: World, id: string): World {
    var w1 := w.(ui := w.ui.(hasDb := true));
    if IndexKey(id) in w1.kv then
      match ParseInt(w1.kv[IndexKey(id)])
      case Some(i) => w1.(ui := w1.ui.(index := i, page := PageOf(i)))
      case None => w1
    else w1
  }

  /** `checkExamCompletion`: a completed flag is kept only while the exam's
      table still holds answers, checked through a fresh manager whose
      connection starts closed; a stale flag is removed. The flag says
      whether the exam stays closed. */
  function CheckCompletion(w: World, id: string): (World, bool) {
    if CompletedKey(id) in w.kv && w.kv[CompletedKey(id)] == "true" then
      var hasData := Exists(Store(w.store.tables, false), TableName(id), Head(w.script)).1;
      var w1 := w.(script := Tail(w.script));
      if hasData then (w1.(ui := w1.ui.(completed := true, submitted := true, route := Feedback)), true)
      else (w1.(kv := w1.kv - {CompletedKey(id)}, ui := w1.ui.(completed := false, submitted := false)), false)
    else (w, false)
  }

  /** The mount effect: an exam that is not closed gets its manager and its
      persisted index. */
  function OnMount(w: World, id: string): World {
    if id == [] then w
    else
      var (w1, closed) := CheckCompletion(w, id);
      if closed then w1 else Open(w1, id)
  }

  /** The unmount clean-up: close the screen's connection. */
  function OnUnmount(w: World): World {
    if w.ui.hasDb then DbClose(w) else w
  }

  // ---------------------------------------------------------------- start

  /** `clearPreviousData`: when clearing throws, nothing else happens. */
  function ClearPrevious(w: World, id: string): World {
    var (w1, ok) := DbClear(w, id);
    if ok then UpdateIndex(w1.(ui := w1.ui.(hasExistingData := false, selected := map[])), id, 0)
    else w1
  }

  /** The resume branch of `fetchAndStart`: restore the saved choices and
      move forward to the first unanswered question. */
  function ResumeAt(w: World, id: string, qs: seq<Question>): World {
    var (w1, rows) := DbGetAll(w, id);
    var saved := SavedOptions(rows);
    var w2 := w1.(ui := w1.ui.(selected := saved));
    var target := ResumeTarget(qs, saved);
    if w2.ui.index == 0 || target > w2.ui.index then UpdateIndex(w2, id, target) else w2
  }

  /** `fetchAndStart(resume)`: nothing happens unless questions arrive. */
  function FetchAndStart(w: World, id: string, resume: bool, fetch: Fetch): World {
    if fetch.FetchFailed? || fetch.results == [] then w
    else
      var secs := TimeBudget(fetch.timeLimit);
      var w1 := w.(ui := w.ui.(questions := fetch.results, timeLimit := secs, remaining := secs));
      var w2 := if resume && w1.ui.hasDb then ResumeAt(w1, id, fetch.results) else UpdateIndex(w1, id, 0);
      w2.(ui := w2.ui.(started := true, secured := true, timerActive := true))
  }

  /** "Start Assessment", with the alert's answer when saved answers exist. */
  function OnStart(w: World, id: string, choice: StartChoice, fetch: Fetch): World {
    if !IntroShown(w.ui) || !w.ui.hasDb then w
    else
      var w1 := DbGetAll(w, id).0;
      var (w2, exists_) := DbExists(w1, id);
      var w3 := w2.(ui := w2.ui.(hasExistingData := exists_));
      if !exists_ then FetchAndStart(w3, id, false, fetch)
      else if choice == StartFresh then FetchAndStart(ClearPrevious(w3, id), id, false, fetch)
      else FetchAndStart(w3, id, true, fetch)
  }

  /** "Clear & Restart", shown while saved answers exist. */
  function OnClearAndRestart(w: World, id: string): World {
    if IntroShown(w.ui) && w.ui.hasExistingData && w.ui.hasDb then ClearPrevious(w, id) else w
  }

  // ---------------------------------------------------------- exam view

  /** `(options || []).find(o => o.option_id === optionId)?.text || ''` */
  function OptionText(options: seq<AnswerOption>, optionId: int): string {
    if options == [] then ""
    else if options[0].optionId == optionId then options[0].text
    else OptionText(options[1..], optionId)
  }

  /** Tapping option `k` of the current question. */
  function OnSelect(w: World, id: string, k: int, now: string): World {
    if !ExamShown(w.ui) || !(0 <= w.ui.index < |w.ui.questions|) then w
    else
      var q := w.ui.questions[w.ui.index];
      if !(0 <= k < |q.options|) then w
      else
        var optionId := q.options[k].optionId;
        var w1 := w.(ui := w.ui.(selected := w.ui.selected[q.questionId := optionId]));
        if !w1.ui.hasDb then w1
        else DbSave(w1, id, ExamAnswer(q.questionId, q.text, optionId, OptionText(q.options, optionId), now))
  }

  /** "Next", or "Finish" on the last question. */
  function OnNext(w: World, id: string): World {
    if !ExamShown(w.ui) then w
    else if w.ui.index < |w.ui.questions| - 1 then UpdateIndex(w, id, w.ui.index + 1)
    else Completion(w, id, false, false, w.ui.hasDb)
  }

  function OnPrevious(w: World, id: string): World {
    if ExamShown(w.ui) && w.ui.index > 0 then UpdateIndex(w, id, w.ui.index - 1) else w
  }

  /** The stepper items currently shown. */
  function Items(ui: Ui): seq<StepperItem> {
    StepperItems(ui.questions, ui.page, ui.selected, ui.index)
  }

  /** Tapping stepper item `k`. */
  function OnJump(w: World, id: string, k: int): World {
    var items := Items(w.ui);
    if ExamShown(w.ui) && 0 <= k < |items| then UpdateIndex(w, id, items[k].index) else w
  }

  function OnPreviousPage(w: World): World {
    if ExamShown(w.ui) then w.(ui := w.ui.(page := PreviousPage(w.ui.page))) else w
  }

  function OnNextPage(w: World): World {
    if ExamShown(w.ui) then w.(ui := w.ui.(page := NextPage(w.ui.page, |w.ui.questions|))) else w
  }

  // --------------------------------------------------------------- timer

  /** One tick of the one-second interval, with the zero-time effect. */
  function OnTick(w: World, id: string): World {
    if !(w.ui.timerActive && w.ui.remaining > 0) then w
    else
      var r := w.ui.remaining - 1;
      var w1 := w.(ui := w.ui.(remaining := r, timerActive := r > 0));
      if r == 0 && w1.ui.timeLimit > 0 then Completion(w1, id, true, false, w1.ui.hasDb) else w1
  }

  /** `k` ticks in a row. */
  function Ticks(w: World, id: string, k: nat): World
    decreases k
  {
    if k == 0 then w else Ticks(OnTick(w, id), id, k - 1)
  }

  // ----------------------------------------------------------- security

  /** `handleExamViolation`: count the violation; the second one ends the exam. */
  function Violation(w: World, id: string): World {
    var n := w.ui.attempts + 1;
    var w1 := w.(ui := w.ui.(attempts := n));
    if n >= MaxViolations then Completion(w1.(ui := w1.ui.(forced := true)), id, false, true, w1.ui.hasDb)
    else w1.(ui := w1.ui.(modalOpen := true))
  }

  /** An attempt to leave the exam: while the warning is showing it ends the
      exam at once, otherwise it is a counted violation. */
  function ExitAttempt(w: World, id: string): World {
    if w.ui.modalOpen then
      Completion(w.(ui := w.ui.(modalOpen := false, forced := true)), id, false, true, w.ui.hasDb)
    else Violation(w, id)
  }

  /** The hardware back button: blocked for good after submission, an exit
      attempt while the exam is secured, ordinary navigation otherwise. */
  function OnBackPress(w: World, id: string): World {
    if Finished(w.ui) then w
    else if w.ui.secured then ExitAttempt(w, id)
    else w.(ui := w.ui.(route := Back))
  }

  /** `handleAppStateChange(next)`, installed only while secured: only
      leaving the active state is an exit attempt. */
  function OnAppStateChange(w: World, id: string, next: AppStatus): World {
    if !w.ui.secured then w
    else
      var previous := w.ui.appState;
      var w1 := w.(ui := w.ui.(appState := next));
      if previous == Active && (next == Background || next == Inactive) then ExitAttempt(w1, id) else w1
  }

  /** `handleBlur`: losing focus while active counts as backgrounding. */
  function OnBlur(w: World, id: string): World {
    if w.ui.secured && w.ui.appState == Active then OnAppStateChange(w, id, Background) else w
  }

  /** `handleFocus` */
  function OnFocus(w: World): World {
    if w.ui.secured then w.(ui := w.ui.(appState := Active)) else w
  }

  /** The consistency poll: a platform state that differs from the
      remembered one is delivered as a change. */
  function OnPoll(w: World, id: string, current: AppStatus): World {
    if w.ui.secured && current != w.ui.appState then OnAppStateChange(w, id, current) else w
  }

  /** "Continue Exam": close the warning; the count stays. */
  function OnContinue(w: World): World {
    if ExamShown(w.ui) && w.ui.modalOpen then w.(ui := w.ui.(modalOpen := false)) else w
  }

  /** "Submit & End Exam" as written: the handler is memoised once, on first
      render, when no `databaseManager` is set yet, so its completion skips
      the store teardown. */
  function OnSubmitAndEndAsWritten(w: World, id: string): World {
    if ExamShown(w.ui) && w.ui.modalOpen then
      Completion(w.(ui := w.ui.(modalOpen := false, forced := true)), id, false, true, false)
    else w
  }

  /** "Submit & End Exam" as intended: the completion sees the current manager. */
  function OnSubmitAndEnd(w: World, id: string): World {
    if ExamShown(w.ui) && w.ui.modalOpen then
      Completion(w.(ui := w.ui.(modalOpen := false, forced := true)), id, false, true, w.ui.hasDb)
    else w
  }

  // ----------------------------------------------------------- completion

  /** Remove the index key, drop the table, and clear its rows if it
      survived the drop. */
  function Teardown(w: World, id: string): World {
    var w1 := w.(kv := w.kv - {IndexKey(id)});
    var w2 := DbDrop(w1, id);
    var (w3, still) := DbExists(w2, id);
    if still then DbClear(w3, id).0 else w3
  }

  /** `handleExamCompletion(isTimeUp, isForced)`, run by a handler that sees
      a `databaseManager` exactly when `useDb` holds. The manual path ends
      with `updateCurrentQuestionIndex(0)`, which writes the index key again. */
  function Completion(w: World, id: string, isTimeUp: bool, isForced: bool, useDb: bool): World {
    var w1 := w.(ui := w.ui.(secured := false, timerActive := false));
    var w2 := if useDb then Teardown(w1, id) else w1;
    var w3 := RecordOutcome(w2, id, isTimeUp, isForced);
    if isTimeUp || isForced then w3 else UpdateIndex(w3, id, 0)
  }

  /** Record how the exam ended and `markExamCompleted`. */
  function RecordOutcome(w: World, id: string, isTimeUp: bool, isForced: bool): World {
    w.(ui := w.ui.(timeUp := isTimeUp, forced := isForced, submitted := true,
                   completed := true, route := Feedback),
       kv := w.kv[CompletedKey(id) := "true"])
  }

  /** The state completion leaves behind. */
  predicate Closed(ui: Ui) {
    Finished(ui) && !ui.secured && !ui.timerActive
  }

  // =================================================================
  // Properties
  // =================================================================

  /** Completion always ends in the closed state, routed to feedback, with
      the completed flag written and the outcome recorded. */
  lemma CompletionCloses(w: World, id: string, isTimeUp: bool, isForced: bool, useDb: bool)
    ensures var r := Completion(w, id, isTimeUp, isForced, useDb);
            Closed(r.ui) && r.ui.submitted && r.ui.route == Feedback &&
            r.ui.timeUp == isTimeUp && r.ui.forced == isForced &&
            CompletedKey(id) in r.kv && r.kv[CompletedKey(id)] == "true" &&
            r.ui.attempts == w.ui.attempts && r.ui.selected == w.ui.selected
  {
    KeysNeverCollide(id, id);
    var w1 := w.(ui := w.ui.(secured := false, timerActive := false));
    var w2 := if useDb then Teardown(w1, id) else w1;
    TeardownKeepsUi(w1, id);
    assert w2.ui == w1.ui;
    var w3 := RecordOutcome(w2, id, isTimeUp, isForced);
    assert CompletedKey(id) in w3.kv && w3.kv[CompletedKey(id)] == "true";
  }

  /** The teardown touches the stores only, never the screen's cells. */
  lemma TeardownKeepsUi(w: World, id: string)
    ensures Teardown(w, id).ui == w.ui
  {
  }

  /** The teardown, without storage failures: the index key goes (on the
      time-up and forced paths; the manual path writes "0" back), the exam's
      table is dropped and every other table is untouched. */
  lemma CompletionTearsDown(w: World, id: string, isTimeUp: bool, isForced: bool)
    requires w.script == []
    ensures var r := Completion(w, id, isTimeUp, isForced, true);
            TableName(id) !in r.store.tables &&
            Isolated(w.store, r.store, TableName(id)) &&
            (isTimeUp || isForced ==> IndexKey(id) !in r.kv) &&
            (!isTimeUp && !isForced ==> IndexKey(id) in r.kv && r.kv[IndexKey(id)] == "0" && r.ui.index == 0)
  {
    KeysNeverCollide(id, id);
    var w1 := w.(ui := w.ui.(secured := false, timerActive := false));
    var t := Teardown(w1, id);
    var d := DbDrop(w1.(kv := w1.kv - {IndexKey(id)}), id);
    assert TableName(id) !in d.store.tables;
    assert !DbExists(d, id).1;
    assert t == DbExists(d, id).0;
    assert IndexKey(id) !in t.kv;
  }

  /** The keys a completion leaves: the index key removed (written back
      as "0" on the manual path) and the completed flag set. */
  function KeysAfterCompletion(kv: map<string, string>, id: string, manual: bool): map<string, string> {
    var k := (kv - {IndexKey(id)})[CompletedKey(id) := "true"];
    if manual then k[IndexKey(id) := "0"] else k
  }

  /** Without storage failures, the teardown drops exactly the exam's table. */
  lemma TeardownDropsTable(w: World, id: string)
    requires w.script == []
    ensures Teardown(w, id).store.tables == w.store.tables - {TableName(id)}
    ensures Teardown(w, id).kv == w.kv - {IndexKey(id)}
    ensures Teardown(w, id).script == []
  {
    var name := TableName(id);
    DropThenVerify(w.store, name);
    var d := DbDrop(w.(kv := w.kv - {IndexKey(id)}), id);
    assert d.store == Drop(w.store, name, NoFaults);
    assert !DbExists(d, id).1;
  }

  /** Without storage failures, a completion's effect on the two stores. */
  lemma CompletionStores(w: World, id: string, isTimeUp: bool, isForced: bool)
    requires w.script == []
    ensures var r := Completion(w, id, isTimeUp, isForced, true);
            r.kv == KeysAfterCompletion(w.kv, id, !isTimeUp && !isForced) &&
            r.store.tables == w.store.tables - {TableName(id)} && r.script == []
  {
    var w1 := w.(ui := w.ui.(secured := false, timerActive := false));
    TeardownDropsTable(w1, id);
    var w3 := RecordOutcome(Teardown(w1, id), id, isTimeUp, isForced);
    assert w3.kv == (w.kv - {IndexKey(id)})[CompletedKey(id) := "true"];
    assert w3.store.tables == w.store.tables - {TableName(id)};
    if !isTimeUp && !isForced {
      assert IntToString(0) == "0";
      assert Completion(w, id, isTimeUp, isForced, true) == UpdateIndex(w3, id, 0);
    }
  }

  /** Completing twice leaves the stores as completing once (there is no
      single-entry guard, but a second run changes nothing stored). */
  lemma TeardownIdempotent(w: World, id: string, isTimeUp: bool, isForced: bool)
    requires w.script == []
    ensures var once := Completion(w, id, isTimeUp, isForced, true);
            var twice := Completion(once, id, isTimeUp, isForced, true);
            twice.kv == once.kv && twice.store.tables == once.store.tables
  {
    var once := Completion(w, id, isTimeUp, isForced, true);
    var twice := Completion(once, id, isTimeUp, isForced, true);
    var manual := !isTimeUp && !isForced;
    CompletionStores(w, id, isTimeUp, isForced);
    CompletionStores(once, id, isTimeUp, isForced);
    KeysAfterCompletionTwice(w.kv, id, manual);
    MinusTwice(w.store.tables, TableName(id));
  }

  lemma MinusTwice(ts: Tables, name: string)
    ensures ts - {name} - {name} == ts - {name}
  {
  }

  lemma KeysAfterCompletionTwice(kv: map<string, string>, id: string, manual: bool)
    ensures var k1 := KeysAfterCompletion(kv, id, manual);
            KeysAfterCompletion(k1, id, manual) == k1
  {
    KeysNeverCollide(id, id);
  }

  /** Once closed, no event changes anything: buttons are not rendered, the
      listeners are gone, the timer is stopped and back is blocked. */
  lemma ClosedIgnoresEvents(w: World, id: string, k: int, now: string, next: AppStatus,
                            choice: StartChoice, fetch: Fetch)
    requires Closed(w.ui)
    ensures OnSelect(w, id, k, now) == w && OnNext(w, id) == w && OnPrevious(w, id) == w
    ensures OnJump(w, id, k) == w && OnPreviousPage(w) == w && OnNextPage(w) == w
    ensures OnTick(w, id) == w && OnBackPress(w, id) == w
    ensures OnAppStateChange(w, id, next) == w && OnBlur(w, id) == w && OnFocus(w) == w && OnPoll(w, id, next) == w
    ensures OnContinue(w) == w && OnSubmitAndEnd(w, id) == w && OnSubmitAndEndAsWritten(w, id) == w
    ensures OnStart(w, id, choice, fetch) == w && OnClearAndRestart(w, id) == w
  {
  }

  // ------------------------------------------------------------ selection

  /** Tapping option `k` of the current question makes that option the
      question's choice and changes no other cell or key. With a manager
      and no storage failure the choice is saved at once, replacing any
      earlier row of the question, so that a resume can restore it; no
      other table changes. An option out of range changes nothing. */
  lemma SelectSavesChoice(w: World, id: string, k: int, now: string)
    requires ExamShown(w.ui) && 0 <= w.ui.index < |w.ui.questions|
    ensures var q := w.ui.questions[w.ui.index];
            var r := OnSelect(w, id, k, now);
            (!(0 <= k < |q.options|) ==> r == w) &&
            (0 <= k < |q.options| ==>
               var choice := q.options[k].optionId;
               r.ui == w.ui.(selected := w.ui.selected[q.questionId := choice]) &&
               r.kv == w.kv &&
               (!w.ui.hasDb ==> r.store == w.store && r.script == w.script) &&
               (w.ui.hasDb ==> Isolated(w.store, r.store, TableName(id))) &&
               (w.ui.hasDb && w.script == [] ==>
                  RowsOf(r.store, TableName(id)) ==
                  RowsOf(w.store, TableName(id))[q.questionId :=
                    ExamAnswer(q.questionId, q.text, choice, OptionText(q.options, choice), now)]))
  {
    var q := w.ui.questions[w.ui.index];
    if 0 <= k < |q.options| && w.ui.hasDb && w.script == [] {
      var choice := q.options[k].optionId;
      SaveStores(w.store, TableName(id), ExamAnswer(q.questionId, q.text, choice, OptionText(q.options, choice), now));
    }
  }

  // ------------------------------------------------------------- resume

  /** Resume never moves back: the index becomes the larger of the
      persisted index and the first unanswered question (the first question
      when all are answered), and the stepper shows its page. */
  lemma ResumeNeverMovesBack(w: World, id: string, fetch: Fetch)
    requires w.ui.hasDb && fetch.Fetched? && fetch.results != []
    ensures var r := FetchAndStart(w, id, true, fetch);
            var target := ResumeTarget(fetch.results, r.ui.selected);
            r.ui.index == ResumeIndex(w.ui.index, target) && r.ui.index == Max(w.ui.index, target) &&
            r.ui.index >= w.ui.index &&
            (r.ui.index != w.ui.index ==> r.ui.page == PageOf(r.ui.index)) &&
            r.ui.started && r.ui.secured && r.ui.timerActive
  {
  }

  /** Without storage failures, resuming restores exactly the saved choices. */
  lemma ResumeRestoresChoices(w: World, id: string, fetch: Fetch)
    requires w.ui.hasDb && fetch.Fetched? && fetch.results != [] && w.script == []
    ensures var r := FetchAndStart(w, id, true, fetch);
            var t := RowsOf(w.store, TableName(id));
            r.ui.selected == map q | q in t :: t[q].selectedOptionId
  {
    SavedOptionsOfTable(RowsOf(w.store, TableName(id)));
  }

  /** A fresh start begins at the first question with the full time budget. */
  lemma FreshStartResets(w: World, id: string, fetch: Fetch)
    requires fetch.Fetched? && fetch.results != []
    ensures var r := FetchAndStart(w, id, false, fetch);
            r.ui.index == 0 && r.ui.page == 0 && r.kv[IndexKey(id)] == "0" &&
            r.ui.timeLimit == TimeBudget(fetch.timeLimit) && r.ui.remaining == r.ui.timeLimit &&
            r.ui.questions == fetch.results && r.ui.started && r.ui.secured && r.ui.timerActive &&
            r.ui.selected == w.ui.selected && r.store == w.store
  {
  }

  /** "Start Fresh" over saved answers (without storage failures) empties
      the table and the selection before starting at the first question. */
  lemma StartFreshClears(w: World, id: string, fetch: Fetch)
    requires IntroShown(w.ui) && w.ui.hasDb && w.script == []
    requires |RowsOf(w.store, TableName(id))| > 0
    requires fetch.Fetched? && fetch.results != []
    ensures var r := OnStart(w, id, StartFresh, fetch);
            TableName(id) in r.store.tables && r.store.tables[TableName(id)] == map[] &&
            r.ui.selected == map[] && r.ui.index == 0 && !r.ui.hasExistingData && r.ui.started
  {
    var w1 := DbGetAll(w, id).0;
    assert RowsOf(w1.store, TableName(id)) == RowsOf(w.store, TableName(id));
    var (w2, e) := DbExists(w1, id);
    assert e;
  }

  // --------------------------------------------------------- violations

  /** The first counted violation only warns: one attempt is left. */
  lemma FirstViolationWarns(w: World, id: string)
    requires w.ui.attempts == 0 && !w.ui.modalOpen
    ensures var r := ExitAttempt(w, id);
            r.ui.attempts == 1 && r.ui.modalOpen && RemainingAttempts(r.ui) == 1 &&
            r == w.(ui := w.ui.(attempts := 1, modalOpen := true))
  {
  }

  /** A counted violation that reaches two attempts forces completion. */
  lemma SecondViolationForces(w: World, id: string)
    requires w.ui.attempts >= 1 && !w.ui.modalOpen
    ensures var r := ExitAttempt(w, id);
            r.ui.attempts == w.ui.attempts + 1 && Closed(r.ui) && r.ui.forced && !r.ui.timeUp &&
            !r.ui.modalOpen && r.ui.route == Feedback
  {
  }

  /** Any exit attempt while the warning shows forces completion at once,
      whatever the count, and closes the warning. */
  lemma ViolationWhileWarnedForces(w: World, id: string)
    requires w.ui.modalOpen
    ensures var r := ExitAttempt(w, id);
            r.ui.attempts == w.ui.attempts && Closed(r.ui) && r.ui.forced && !r.ui.modalOpen
  {
  }

  /** Only leaving the active state counts; other notifications only update
      the remembered state. */
  lemma OnlyLeavingActiveCounts(w: World, id: string, next: AppStatus)
    requires w.ui.secured
    ensures var r := OnAppStateChange(w, id, next);
            var w1 := w.(ui := w.ui.(appState := next));
            if w.ui.appState == Active && (next == Background || next == Inactive)
            then r == ExitAttempt(w1, id)
            else r == w1
  {
  }

  /** "Continue Exam" closes the warning and keeps the count. */
  lemma ContinueKeepsCount(w: World)
    requires ExamShown(w.ui) && w.ui.modalOpen
    ensures var r := OnContinue(w);
            !r.ui.modalOpen && r.ui.attempts == w.ui.attempts && r == w.(ui := w.ui.(modalOpen := false))
  {
  }

  /** Two strikes: backgrounding the app, continuing, then pressing back
      ends the exam as a forced submission. */
  lemma TwoStrikes(w: World, id: string)
    requires ExamShown(w.ui) && w.ui.secured && w.ui.appState == Active
    requires w.ui.attempts == 0 && !w.ui.modalOpen
    ensures var r := OnBackPress(OnContinue(OnAppStateChange(w, id, Background)), id);
            Closed(r.ui) && r.ui.forced && r.ui.attempts == 2
  {
    var w1 := OnAppStateChange(w, id, Background);
    FirstViolationWarns(w.(ui := w.ui.(appState := Background)), id);
    assert w1.ui.modalOpen && w1.ui.attempts == 1 && w1.ui.secured;
    var w2 := OnContinue(w1);
    assert !w2.ui.modalOpen && w2.ui.attempts == 1 && w2.ui.secured && !Finished(w2.ui);
    SecondViolationForces(w2, id);
  }

  // -------------------------------------------------------------- timer

  /** A tick that does not reach zero takes exactly one second off. */
  lemma TickDecrements(w: World, id: string)
    requires w.ui.timerActive && w.ui.remaining > 1
    ensures OnTick(w, id) == w.(ui := w.ui.(remaining := w.ui.remaining - 1))
  {
  }

  /** Ticks that do not reach zero count down one second each. */
  lemma {:induction false} CountdownRuns(w: World, id: string, k: nat)
    requires w.ui.timerActive && k < w.ui.remaining
    ensures Ticks(w, id, k) == w.(ui := w.ui.(remaining := w.ui.remaining - k))
    decreases k
  {
    if k > 0 {
      TickDecrements(w, id);
      CountdownRuns(OnTick(w, id), id, k - 1);
    }
  }

  /** The tick from one second to zero stops the timer and, with a
      positive limit, submits the exam as timed out. */
  lemma LastTick(w: World, id: string)
    requires w.ui.timerActive && w.ui.remaining == 1
    ensures var r := OnTick(w, id);
            r.ui.remaining == 0 && !r.ui.timerActive &&
            (w.ui.timeLimit > 0 ==> Closed(r.ui) && r.ui.timeUp && !r.ui.forced && r.ui.route == Feedback) &&
            (w.ui.timeLimit <= 0 ==> r == w.(ui := w.ui.(remaining := 0, timerActive := false)))
  {
    var w1 := w.(ui := w.ui.(remaining := 0, timerActive := false));
    if w.ui.timeLimit > 0 {
      CompletionCloses(w1, id, true, false, w1.ui.hasDb);
    }
  }

  /** After as many ticks as seconds remain, the timer has stopped at zero
      and, with a positive limit, the exam is submitted as timed out. */
  lemma CountdownExpires(w: World, id: string)
    requires w.ui.timerActive && w.ui.remaining > 0
    ensures var r := Ticks(w, id, w.ui.remaining as nat);
            r.ui.remaining == 0 && !r.ui.timerActive &&
            (w.ui.timeLimit > 0 ==> Closed(r.ui) && r.ui.timeUp && !r.ui.forced && r.ui.route == Feedback) &&
            (w.ui.timeLimit <= 0 ==> r == w.(ui := w.ui.(remaining := 0, timerActive := false)))
  {
    var n := w.ui.remaining as nat;
    CountdownRuns(w, id, n - 1);
    var w1 := Ticks(w, id, n - 1);
    TicksSplit(w, id, n - 1, 1);
    assert Ticks(w, id, n) == Ticks(w1, id, 1);
    assert Ticks(w1, id, 1) == OnTick(w1, id);
    LastTick(w1, id);
  }

  lemma {:induction false} TicksSplit(w: World, id: string, a: nat, b: nat)
    ensures Ticks(w, id, a + b) == Ticks(Ticks(w, id, a), id, b)
    decreases a
  {
    if a > 0 {
      TicksSplit(OnTick(w, id), id, a - 1, b);
    }
  }

  // --------------------------------------------------------- navigation

  /** The index names a question and the stepper page is a real page. */
  predicate InBounds(ui: Ui) {
    0 <= ui.index < |ui.questions| && PageInRange(ui.page, |ui.questions|)
  }

  /** An index update to a question shows that question's page. */
  lemma UpdateInBounds(w: World, id: string, i: int)
    requires 0 <= i < |w.ui.questions|
    ensures var r := UpdateIndex(w, id, i);
            InBounds(r.ui) && r.ui.index == i && r.ui.page == PageOf(i)
  {
    CurrentQuestionOnItsPage(w.ui.questions, w.ui.selected, i);
  }

  /** Previous moves one question back, and never before the first. */
  lemma PreviousStaysInBounds(w: World, id: string)
    requires ExamShown(w.ui) && InBounds(w.ui)
    ensures var r := OnPrevious(w, id);
            InBounds(r.ui) && r.ui.index == (if w.ui.index > 0 then w.ui.index - 1 else w.ui.index)
  {
    if w.ui.index > 0 {
      UpdateInBounds(w, id, w.ui.index - 1);
    }
  }

  /** A tap on a stepper item opens that item's question, in bounds. */
  lemma JumpStaysInBounds(w: World, id: string, k: int)
    requires ExamShown(w.ui) && InBounds(w.ui)
    ensures var r := OnJump(w, id, k);
            InBounds(r.ui) && (0 <= k < |Items(w.ui)| ==> r.ui.index == Items(w.ui)[k].index)
  {
    var items := Items(w.ui);
    if 0 <= k < |items| {
      UpdateInBounds(w, id, items[k].index);
    }
  }

  /** The page buttons keep the page in range and leave the index alone. */
  lemma PagesStayInBounds(w: World)
    requires ExamShown(w.ui) && InBounds(w.ui)
    ensures InBounds(OnPreviousPage(w).ui) && InBounds(OnNextPage(w).ui)
    ensures OnPreviousPage(w).ui.index == w.ui.index && OnNextPage(w).ui.index == w.ui.index
  {
    PageMovesStayInRange(w.ui.page, |w.ui.questions|);
  }

  /** Next moves one question on, or finishes the exam from the last one. */
  lemma NextStaysInBounds(w: World, id: string)
    requires ExamShown(w.ui) && InBounds(w.ui)
    ensures var r := OnNext(w, id);
            if w.ui.index < |w.ui.questions| - 1
            then InBounds(r.ui) && r.ui.index == w.ui.index + 1 && r.ui.page == PageOf(r.ui.index)
            else Closed(r.ui) && !r.ui.timeUp && !r.ui.forced
  {
    if w.ui.index < |w.ui.questions| - 1 {
      UpdateInBounds(w, id, w.ui.index + 1);
    } else {
      CompletionCloses(w, id, false, false, w.ui.hasDb);
    }
  }

  // ------------------------------------------------------ reconciliation

  /** A completed flag whose exam still has saved answers keeps the exam
      closed: the screen goes straight to feedback and opens no manager. */
  lemma MountKeepsCompletion(w: World, id: string)
    requires id != [] && CompletedKey(id) in w.kv && w.kv[CompletedKey(id)] == "true"
    requires w.script == [] && |RowsOf(w.store, TableName(id))| > 0
    ensures var r := OnMount(w, id);
            r.ui.completed && r.ui.submitted && r.ui.route == Feedback && r.ui.hasDb == w.ui.hasDb && r.kv == w.kv
  {
  }

  /** A completed flag whose exam has no saved answers is stale: it is
      removed and the exam opens as a fresh attempt. */
  lemma MountDropsStaleFlag(w: World, id: string)
    requires id != [] && CompletedKey(id) in w.kv && w.kv[CompletedKey(id)] == "true"
    requires |RowsOf(w.store, TableName(id))| == 0
    ensures var r := OnMount(w, id);
            CompletedKey(id) !in r.kv && !r.ui.completed && !r.ui.submitted && r.ui.hasDb
  {
  }

  /** The index an update persists is the index the next mount restores. */
  lemma PersistedIndexRestored(w: World, id: string, i: int)
    requires id != [] && CompletedKey(id) !in w.kv
    ensures var r := OnMount(UpdateIndex(w, id, i), id);
            r.ui.index == i && r.ui.page == PageOf(i) && r.ui.hasDb
  {
    KeysNeverCollide(id, id);
    ParseIntToString(i);
  }

  // ------------------------------------------------------------- finding

  /** As written, "Submit & End Exam" leaves the exam's saved answers and
      its index key in place (contrast `SubmitAndEndTearsDown`). */
  lemma SubmitAndEndKeepsAnswers(w: World, id: string)
    requires ExamShown(w.ui) && w.ui.modalOpen && w.ui.hasDb
    ensures var r := OnSubmitAndEndAsWritten(w, id);
            Closed(r.ui) && r.ui.forced &&
            r.store == w.store &&
            (IndexKey(id) in w.kv ==> IndexKey(id) in r.kv && r.kv[IndexKey(id)] == w.kv[IndexKey(id)])
  {
    KeysNeverCollide(id, id);
  }

  /** An exam ended by "Submit & End" as written, with answers saved, is
      reported as still in progress by the existence check. */
  lemma SubmitAndEndLeavesExamInProgress(w: World, id: string)
    requires ExamShown(w.ui) && w.ui.modalOpen && w.ui.hasDb
    requires |RowsOf(w.store, TableName(id))| > 0
    ensures Exists(OnSubmitAndEndAsWritten(w, id).store, TableName(id), NoFaults).1
  {
  }

  /** With the current manager, "Submit & End" (without storage failures)
      drops the table and removes the index key like every other
      forced completion. */
  lemma SubmitAndEndTearsDown(w: World, id: string)
    requires ExamShown(w.ui) && w.ui.modalOpen && w.ui.hasDb && w.script == []
    ensures var r := OnSubmitAndEnd(w, id);
            Closed(r.ui) && r.ui.forced &&
            TableName(id) !in r.store.tables && IndexKey(id) !in r.kv &&
            !Exists(r.store, TableName(id), NoFaults).1
  {
    CompletionTearsDown(w.(ui := w.ui.(modalOpen := false, forced := true)), id, false, true);
  }
}
