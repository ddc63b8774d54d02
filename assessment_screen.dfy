/** The assessment screen component. Its state cells and refs are one
    record field that the handlers update, the key–value store and the exam's `DatabaseManager` are objects it
    calls, and each handler is a method that updates them step by step.
    Every handler is proved to move the screen's `World()` exactly as the
    matching function of `AssessmentSpec` does, so the properties proved
    there hold of the component. */
module AssessmentScreen {
  import opened Wrappers
  import opened JsText
  import opened AnswerStore
  import opened Checkpoint
  import opened AssessmentView
  import opened AssessmentSpec

  class Screen {
    const examId: string
    const kv: KeyValueStore
    const db: DatabaseManager

    /** The component's state cells and refs, as one record. */
    var cells: Ui

    /** The manager belongs to this screen's exam. */
    predicate Valid()
      reads this, db
    {
      db.examId == examId
    }

    function World(): World
      reads this, kv, db, db.file
    {
      AssessmentSpec.World(cells, kv.entries, db.State(), db.file.script)
    }

    /** First render: the manager exists but stays unused (and closed)
        until the mount effect sets it. */
    constructor(examId: string, kv: KeyValueStore, file: SharedFile, appState: AppStatus)
      ensures Valid() && cells == InitialUi(appState)
      ensures this.kv == kv && db.file == file && !db.isOpen
    {
      this.examId := examId;
      this.kv := kv;
      db := new DatabaseManager(examId, file);
      cells := InitialUi(appState);
    }

    // --------------------------------------------------------- lifecycle

    method UpdateCurrentQuestionIndex(i: int)
      modifies this, kv
      ensures World() == UpdateIndex(old(World()), examId, i)
    {
      cells := cells.(index := i, page := PageOf(i));
      kv.SetItem(IndexKey(examId), IntToString(i));
    }

    /** `setDatabaseManager` and `loadPersistedIndex`. */
    method LoadPersistedIndex()
      modifies this
      ensures World() == Open(old(World()), examId)
    {
      cells := cells.(hasDb := true);
      var saved := kv.GetItem(IndexKey(examId));
      if saved.Some? {
        var parsed := ParseInt(saved.value);
        if parsed.Some? {
          cells := cells.(index := parsed.value, page := PageOf(parsed.value));
        }
      }
    }

    method CheckExamCompletion() returns (closed: bool)
      modifies this, kv, db.file
      ensures (World(), closed) == CheckCompletion(old(World()), examId)
    {
      var flag := kv.GetItem(CompletedKey(examId));
      if flag != Some("true") {
        return false;
      }
      var probe := new DatabaseManager(examId, db.file);
      var hasData := probe.CheckDatabaseExists();
      if !hasData {
        kv.RemoveItem(CompletedKey(examId));
        cells := cells.(completed := false, submitted := false);
        return false;
      }
      cells := cells.(completed := true, submitted := true, route := Feedback);
      return true;
    }

    method Mount()
      modifies this, kv, db.file
      ensures World() == OnMount(old(World()), examId)
    {
      if examId == [] {
        return;
      }
      var closed := CheckExamCompletion();
      if !closed {
        LoadPersistedIndex();
      }
    }

    method Unmount()
      requires Valid()
      modifies db, db.file
      ensures World() == OnUnmount(old(World()))
    {
      if cells.hasDb {
        db.CloseDatabase();
      }
    }

    // ------------------------------------------------------------- start

    method ClearPreviousData()
      requires Valid()
      modifies this, kv, db, db.file
      ensures World() == ClearPrevious(old(World()), examId)
    {
      var ok := db.ClearAllAnswers();
      if ok {
        cells := cells.(hasExistingData := false, selected := map[]);
        UpdateCurrentQuestionIndex(0);
      }
    }

    /** Restore the saved choices, one row at a time, in the order read. */
    method RestoreSavedOptions(rows: seq<ExamAnswer>) returns (saved: map<int, int>)
      ensures saved == SavedOptions(rows)
    {
      saved := map[];
      var i := 0;
      while i < |rows|
        invariant 0 <= i <= |rows|
        invariant saved == SavedOptions(rows[..i])
      {
        assert rows[..i + 1][..i] == rows[..i];
        saved := saved[rows[i].questionId := rows[i].selectedOptionId];
        i := i + 1;
      }
      assert rows[..i] == rows;
    }

    method ResumeFromSaved(qs: seq<Question>)
      requires Valid()
      modifies this, kv, db, db.file
      ensures World() == ResumeAt(old(World()), examId, qs)
    {
      var rows := db.GetAllAnswers();
      var saved := RestoreSavedOptions(rows);
      cells := cells.(selected := saved);
      var target := ResumeTarget(qs, saved);
      if cells.index == 0 || target > cells.index {
        UpdateCurrentQuestionIndex(target);
      }
    }

    method FetchAndStart(resume: bool, fetch: Fetch)
      requires Valid()
      modifies this, kv, db, db.file
      ensures World() == AssessmentSpec.FetchAndStart(old(World()), examId, resume, fetch)
    {
      if fetch.FetchFailed? || fetch.results == [] {
        return;
      }
      var secs := TimeBudget(fetch.timeLimit);
      cells := cells.(questions := fetch.results, timeLimit := secs, remaining := secs);
      if resume && cells.hasDb {
        ResumeFromSaved(fetch.results);
      } else {
        UpdateCurrentQuestionIndex(0);
      }
      cells := cells.(started := true, secured := true, timerActive := true);
    }

    method StartAssessment(choice: StartChoice, fetch: Fetch)
      requires Valid()
      modifies this, kv, db, db.file
      ensures World() == OnStart(old(World()), examId, choice, fetch)
    {
      if !IntroShown(cells) || !cells.hasDb {
        return;
      }
      var _ := db.GetAllAnswers();
      var exists_ := db.CheckDatabaseExists();
      cells := cells.(hasExistingData := exists_);
      if !exists_ {
        FetchAndStart(false, fetch);
      } else if choice == StartFresh {
        ClearPreviousData();
        FetchAndStart(false, fetch);
      } else {
        FetchAndStart(true, fetch);
      }
    }

    method ClearAndRestart()
      requires Valid()
      modifies this, kv, db, db.file
      ensures World() == OnClearAndRestart(old(World()), examId)
    {
      if IntroShown(cells) && cells.hasExistingData && cells.hasDb {
        ClearPreviousData();
      }
    }

    // --------------------------------------------------------- exam view

    method SelectOption(k: int, now: string)
      requires Valid()
      modifies this, db, db.file
      ensures World() == OnSelect(old(World()), examId, k, now)
    {
      if !ExamShown(cells) || !(0 <= cells.index < |cells.questions|) {
        return;
      }
      var q := cells.questions[cells.index];
      if !(0 <= k < |q.options|) {
        return;
      }
      var optionId := q.options[k].optionId;
      cells := cells.(selected := cells.selected[q.questionId := optionId]);
      if cells.hasDb {
        db.SaveAnswerNoThrow(q.questionId, q.text, optionId, OptionText(q.options, optionId), now);
      }
    }

    method Next()
      requires Valid()
      modifies this, kv, db, db.file
      ensures World() == OnNext(old(World()), examId)
    {
      if !ExamShown(cells) {
        return;
      }
      if cells.index < |cells.questions| - 1 {
        UpdateCurrentQuestionIndex(cells.index + 1);
      } else {
        HandleExamCompletion(false, false, cells.hasDb);
      }
    }

    method Previous()
      modifies this, kv
      ensures World() == OnPrevious(old(World()), examId)
    {
      if ExamShown(cells) && cells.index > 0 {
        UpdateCurrentQuestionIndex(cells.index - 1);
      }
    }

    method Jump(k: int)
      modifies this, kv
      ensures World() == OnJump(old(World()), examId, k)
    {
      var items := Items(cells);
      if ExamShown(cells) && 0 <= k < |items| {
        UpdateCurrentQuestionIndex(items[k].index);
      }
    }

    method GoToPreviousPage()
      modifies this
      ensures World() == OnPreviousPage(old(World()))
    {
      if ExamShown(cells) {
        cells := cells.(page := PreviousPage(cells.page));
      }
    }

    method GoToNextPage()
      modifies this
      ensures World() == OnNextPage(old(World()))
    {
      if ExamShown(cells) {
        cells := cells.(page := NextPage(cells.page, |cells.questions|));
      }
    }

    // ------------------------------------------------------------- timer

    method Tick()
      requires Valid()
      modifies this, kv, db, db.file
      ensures World() == OnTick(old(World()), examId)
    {
      if !(cells.timerActive && cells.remaining > 0) {
        return;
      }
      var r := cells.remaining - 1;
      cells := cells.(remaining := r, timerActive := r > 0);
      if r == 0 && cells.timeLimit > 0 {
        HandleExamCompletion(true, false, cells.hasDb);
      }
    }

    // ---------------------------------------------------------- security

    method HandleExamViolation()
      requires Valid()
      modifies this, kv, db, db.file
      ensures World() == Violation(old(World()), examId)
    {
      var n := cells.attempts + 1;
      cells := cells.(attempts := n);
      if n >= MaxViolations {
        cells := cells.(forced := true);
        HandleExamCompletion(false, true, cells.hasDb);
      } else {
        cells := cells.(modalOpen := true);
      }
    }

    method ExitAttempt()
      requires Valid()
      modifies this, kv, db, db.file
      ensures World() == AssessmentSpec.ExitAttempt(old(World()), examId)
    {
      if cells.modalOpen {
        cells := cells.(modalOpen := false, forced := true);
        HandleExamCompletion(false, true, cells.hasDb);
      } else {
        HandleExamViolation();
      }
    }

    method BackPress()
      requires Valid()
      modifies this, kv, db, db.file
      ensures World() == OnBackPress(old(World()), examId)
    {
      if Finished(cells) {
        return;
      }
      if cells.secured {
        ExitAttempt();
      } else {
        cells := cells.(route := Back);
      }
    }

    method AppStateChange(next: AppStatus)
      requires Valid()
      modifies this, kv, db, db.file
      ensures World() == OnAppStateChange(old(World()), examId, next)
    {
      if !cells.secured {
        return;
      }
      var previous := cells.appState;
      cells := cells.(appState := next);
      if previous == Active && (next == Background || next == Inactive) {
        ExitAttempt();
      }
    }

    method Blur()
      requires Valid()
      modifies this, kv, db, db.file
      ensures World() == OnBlur(old(World()), examId)
    {
      if cells.secured && cells.appState == Active {
        AppStateChange(Background);
      }
    }

    method Focus()
      modifies this
      ensures World() == OnFocus(old(World()))
    {
      if cells.secured {
        cells := cells.(appState := Active);
      }
    }

    method Poll(current: AppStatus)
      requires Valid()
      modifies this, kv, db, db.file
      ensures World() == OnPoll(old(World()), examId, current)
    {
      if cells.secured && current != cells.appState {
        AppStateChange(current);
      }
    }

    method ContinueExam()
      modifies this
      ensures World() == OnContinue(old(World()))
    {
      if ExamShown(cells) && cells.modalOpen {
        cells := cells.(modalOpen := false);
      }
    }

    /** "Submit & End Exam" as written: the memoised handler runs the
        first render's completion, which has no manager, so the store
        teardown is skipped (see `OnSubmitAndEndAsWritten`). */
    method SubmitAndEnd()
      requires Valid()
      modifies this, kv, db, db.file
      ensures World() == OnSubmitAndEndAsWritten(old(World()), examId)
    {
      if ExamShown(cells) && cells.modalOpen {
        cells := cells.(modalOpen := false, forced := true);
        HandleExamCompletion(false, true, false);
      }
    }

    // -------------------------------------------------------- completion

    method TearDownStores()
      requires Valid()
      modifies kv, db, db.file
      ensures World() == Teardown(old(World()), examId)
    {
      kv.RemoveItem(IndexKey(examId));
      db.DropExamTable();
      var still := db.CheckDatabaseExists();
      if still {
        var _ := db.ClearAllAnswers();
      }
    }

    method MarkExamCompleted(isTimeUp: bool, isForced: bool)
      modifies this, kv
      ensures World() == RecordOutcome(old(World()), examId, isTimeUp, isForced)
    {
      kv.SetItem(CompletedKey(examId), "true");
      cells := cells.(timeUp := isTimeUp, forced := isForced, submitted := true,
                      completed := true, route := Feedback);
    }

    method HandleExamCompletion(isTimeUp: bool, isForced: bool, useDb: bool)
      requires Valid()
      modifies this, kv, db, db.file
      ensures World() == Completion(old(World()), examId, isTimeUp, isForced, useDb)
    {
      cells := cells.(secured := false, timerActive := false);
      if useDb {
        TearDownStores();
      }
      MarkExamCompleted(isTimeUp, isForced);
      if !isTimeUp && !isForced {
        UpdateCurrentQuestionIndex(0);
      }
    }
  }
}
