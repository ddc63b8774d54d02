/** The pure helpers of the assessment screen: the question bank's shapes,
    the time budget, the resume target, the question statistics, the
    stepper page, the clock text and the timer colour. */
module AssessmentView {
  import opened Wrappers
  import opened JsText
  import opened AnswerStore

  datatype AnswerOption = AnswerOption(optionId: int, text: string)

  datatype Question = Question(examId: int, questionId: int, text: string, options: seq<AnswerOption>)

  /** Stepper items shown at once. */
  const ItemsPerPage: int := 5

  /** Violations that end the exam. */
  const MaxViolations: int := 2

  /** Minutes granted when the question bank names no limit. */
  const DefaultMinutes: int := 30

  function Max(a: int, b: int): int {
    if a < b then b else a
  }

  function Min(a: int, b: int): int {
    if a < b then a else b
  }

  // ------------------------------------------------------------ time budget

  /** `(data.timeLimit || 30) * 60`: a missing or zero limit is 30 minutes. */
  function TimeBudget(minutes: Option<int>): (seconds: int)
    ensures seconds % 60 == 0
    ensures minutes.None? || minutes == Some(0) ==> seconds == DefaultMinutes * 60
    ensures minutes.Some? && minutes.value != 0 ==> seconds / 60 == minutes.value
  {
    var m := if minutes.None? || minutes.value == 0 then DefaultMinutes else minutes.value;
    m * 60
  }

  // ---------------------------------------------------------------- resume

  /** `!!savedOptions[qid]`: an option id of 0 reads as unanswered. */
  predicate IsAnswered(selected: map<int, int>, questionId: int) {
    questionId in selected && selected[questionId] != 0
  }

  /** `findIndex(q => !savedOptions[q.question_id])`: the first unanswered
      question, or -1. */
  function FirstUnanswered(qs: seq<Question>, selected: map<int, int>): (r: int)
    ensures -1 <= r < |qs|
    ensures r == -1 <==> forall i :: 0 <= i < |qs| ==> IsAnswered(selected, qs[i].questionId)
    ensures r >= 0 ==> !IsAnswered(selected, qs[r].questionId)
    ensures r >= 0 ==> forall i :: 0 <= i < r ==> IsAnswered(selected, qs[i].questionId)
  {
    if qs == [] then -1
    else if !IsAnswered(selected, qs[0].questionId) then 0
    else
      var r := FirstUnanswered(qs[1..], selected);
      if r == -1 then -1 else r + 1
  }

  /** Where a resumed exam wants to go: the first unanswered question, or
      the first question when every question is answered. */
  function ResumeTarget(qs: seq<Question>, selected: map<int, int>): (t: int)
    ensures 0 <= t && (t < |qs| || t == 0)
    ensures (forall i :: 0 <= i < |qs| ==> IsAnswered(selected, qs[i].questionId)) ==> t == 0
    ensures (exists i :: 0 <= i < |qs| && !IsAnswered(selected, qs[i].questionId)) ==>
              !IsAnswered(selected, qs[t].questionId) &&
              forall i :: 0 <= i < t ==> IsAnswered(selected, qs[i].questionId)
  {
    var u := FirstUnanswered(qs, selected);
    if u == -1 then 0 else u
  }

  /** `if (ref === 0 || target > ref) update(target)`: the index a resume
      settles on, from the persisted index and the target. */
  function ResumeIndex(persisted: int, target: int): (r: int)
    ensures target >= 0 ==> r == Max(persisted, target)
  {
    if persisted == 0 || target > persisted then target else persisted
  }

  /** `savedAnswers.forEach(a => savedOptions[a.question_id] = a.selected_option_id)` */
  function SavedOptions(rows: seq<ExamAnswer>): map<int, int> {
    if rows == [] then map[]
    else
      var last := rows[|rows| - 1];
      SavedOptions(rows[..|rows| - 1])[last.questionId := last.selectedOptionId]
  }

  /** The fold names exactly the questions some row names. */
  lemma {:induction false} SavedOptionsKeys(rows: seq<ExamAnswer>, q: int)
    ensures q in SavedOptions(rows) <==> exists i :: 0 <= i < |rows| && rows[i].questionId == q
  {
    if rows != [] {
      var init := rows[..|rows| - 1];
      SavedOptionsKeys(init, q);
      if q in SavedOptions(init) {
        var i :| 0 <= i < |init| && init[i].questionId == q;
        assert rows[i] == init[i];
      }
      if q != rows[|rows| - 1].questionId && exists i :: 0 <= i < |rows| && rows[i].questionId == q {
        var i :| 0 <= i < |rows| && rows[i].questionId == q;
        assert init[i] == rows[i];
      }
    }
  }

  /** A row that no later row overrides gives its question's option. */
  lemma {:induction false} SavedOptionsLast(rows: seq<ExamAnswer>, i: int)
    requires 0 <= i < |rows|
    requires forall j :: i < j < |rows| ==> rows[j].questionId != rows[i].questionId
    ensures rows[i].questionId in SavedOptions(rows)
    ensures SavedOptions(rows)[rows[i].questionId] == rows[i].selectedOptionId
  {
    if i < |rows| - 1 {
      var init := rows[..|rows| - 1];
      assert init[i] == rows[i];
      assert forall j :: i < j < |init| ==> init[j] == rows[j];
      SavedOptionsLast(init, i);
    }
  }

  /** The fold maps a question id to the option of the last row naming it,
      and names no other question. */
  lemma SavedOptionsLastWins(rows: seq<ExamAnswer>)
    ensures var m := SavedOptions(rows);
            forall q :: q in m <==> exists i :: 0 <= i < |rows| && rows[i].questionId == q
    ensures var m := SavedOptions(rows);
            forall i :: 0 <= i < |rows| && (forall j :: i < j < |rows| ==> rows[j].questionId != rows[i].questionId) ==>
              rows[i].questionId in m && m[rows[i].questionId] == rows[i].selectedOptionId
  {
    forall q ensures q in SavedOptions(rows) <==> exists i :: 0 <= i < |rows| && rows[i].questionId == q {
      SavedOptionsKeys(rows, q);
    }
    forall i | 0 <= i < |rows| && (forall j :: i < j < |rows| ==> rows[j].questionId != rows[i].questionId)
      ensures rows[i].questionId in SavedOptions(rows)
      ensures SavedOptions(rows)[rows[i].questionId] == rows[i].selectedOptionId
    {
      SavedOptionsLast(rows, i);
    }
  }

  /** Read back in question order, the rows of a table give exactly the
      table's choices. */
  lemma SavedOptionsOfTable(t: Table)
    ensures SavedOptions(Rows(t)) == map q | q in t :: t[q].selectedOptionId
  {
    SavedOptionsOfListing(t, Rows(t));
  }

  lemma SavedOptionsOfListing(t: map<int, ExamAnswer>, rows: seq<ExamAnswer>)
    requires WellKeyed(t)
    requires forall i, j :: 0 <= i < j < |rows| ==> rows[i].questionId < rows[j].questionId
    requires forall i :: 0 <= i < |rows| ==> rows[i].questionId in t && t[rows[i].questionId] == rows[i]
    requires forall q :: q in t ==> t[q] in rows
    ensures SavedOptions(rows) == map q | q in t :: t[q].selectedOptionId
  {
    var m := SavedOptions(rows);
    var spec := map q | q in t :: t[q].selectedOptionId;
    forall q | q in t
      ensures q in m && m[q] == spec[q]
    {
      var i :| 0 <= i < |rows| && rows[i] == t[q];
      SavedOptionsLast(rows, i);
    }
    forall q | q in m ensures q in t {
      SavedOptionsKeys(rows, q);
    }
    assert m.Keys == spec.Keys;
  }

  // ------------------------------------------------------------ statistics

  datatype QuestionStats = QuestionStats(total: int, answered: int, notAnswered: int)

  /** `getQuestionStats`: every selection counts as answered, whatever its option. */
  function Stats(qs: seq<Question>, selected: map<int, int>): (st: QuestionStats)
    ensures st.total == |qs| && st.answered == |selected|
    ensures st.answered + st.notAnswered == st.total
  {
    QuestionStats(|qs|, |selected|, |qs| - |selected|)
  }

  function QuestionIds(qs: seq<Question>): set<int> {
    set i | 0 <= i < |qs| :: qs[i].questionId
  }

  lemma {:induction false} QuestionIdsBound(qs: seq<Question>)
    ensures |QuestionIds(qs)| <= |qs|
  {
    if qs != [] {
      var init := qs[..|qs| - 1];
      QuestionIdsBound(init);
      assert QuestionIds(qs) == QuestionIds(init) + {qs[|qs| - 1].questionId} by {
        forall q | q in QuestionIds(qs) ensures q in QuestionIds(init) + {qs[|qs| - 1].questionId} {
          var i :| 0 <= i < |qs| && qs[i].questionId == q;
          if i < |qs| - 1 {
            assert init[i] == qs[i];
          }
        }
        forall q | q in QuestionIds(init) ensures q in QuestionIds(qs) {
          var i :| 0 <= i < |init| && init[i].questionId == q;
          assert qs[i] == init[i];
        }
      }
    }
  }

  /** When only shown questions are selected, the "not answered" count
      cannot go negative. */
  lemma NotAnsweredNonNegative(qs: seq<Question>, selected: map<int, int>)
    requires selected.Keys <= QuestionIds(qs)
    ensures Stats(qs, selected).notAnswered >= 0
  {
    QuestionIdsBound(qs);
    assert |selected.Keys| <= |QuestionIds(qs)| by {
      SubsetCard(selected.Keys, QuestionIds(qs));
    }
  }

  lemma SubsetCard(a: set<int>, b: set<int>)
    requires a <= b
    ensures |a| <= |b|
  {
    assert b == a + (b - a);
  }

  // --------------------------------------------------------------- stepper

  datatype StepperItem = StepperItem(
    questionId: int, index: int, displayNumber: int, isAnswered: bool, isCurrent: bool)

  /** A bound of `Array.prototype.slice`: a negative bound counts from the
      end, and both are clamped to `[0, len]`. */
  function SliceBound(len: nat, b: int): (r: nat)
    ensures r <= len
    ensures 0 <= b <= len ==> r == b
  {
    if b < 0 then (if len + b < 0 then 0 else len + b)
    else if b > len then len else b
  }

  /** `stepperItems`: the questions of page `page`, numbered from the page's
      first index. */
  function StepperItems(qs: seq<Question>, page: int, selected: map<int, int>, current: int): (items: seq<StepperItem>)
    ensures |qs| == 0 ==> items == []
    ensures 0 <= page ==> |items| == Max(0, Min(page * ItemsPerPage + ItemsPerPage, |qs|) - page * ItemsPerPage)
    ensures 0 <= page ==> forall k :: 0 <= k < |items| ==>
              var it := items[k];
              it.index == page * ItemsPerPage + k && it.index < |qs| &&
              it.questionId == qs[it.index].questionId && it.displayNumber == it.index + 1 &&
              (it.isAnswered <==> it.questionId in selected) && (it.isCurrent <==> it.index == current)
  {
    if |qs| == 0 then []
    else
      var start := page * ItemsPerPage;
      var end := Min(start + ItemsPerPage, |qs|);
      var lo := SliceBound(|qs|, start);
      var hi := SliceBound(|qs|, end);
      if lo >= hi then []
      else
        seq(hi - lo, k requires 0 <= k < hi - lo =>
          var q := qs[lo + k];
          var idx := start + k;
          StepperItem(q.questionId, idx, idx + 1, q.questionId in selected, idx == current))
  }

  /** `Math.ceil(questions.length / 5)` */
  function TotalPages(n: nat): (pages: nat)
    ensures pages * ItemsPerPage >= n && (pages == 0 || (pages - 1) * ItemsPerPage < n)
  {
    (n + ItemsPerPage - 1) / ItemsPerPage
  }

  function PreviousPage(page: int): int {
    if page > 0 then page - 1 else page
  }

  function NextPage(page: int, n: nat): int {
    if page < TotalPages(n) - 1 then page + 1 else page
  }

  /** The page of question `i`, as set by every index update. */
  function PageOf(i: int): int {
    i / ItemsPerPage
  }

  predicate PageInRange(page: int, n: nat) {
    0 <= page <= Max(0, TotalPages(n) - 1)
  }

  /** The page buttons never leave `[0, ceil(n/5) - 1]`. */
  lemma PageMovesStayInRange(page: int, n: nat)
    requires PageInRange(page, n)
    ensures PageInRange(PreviousPage(page), n) && PageInRange(NextPage(page, n), n)
  {
  }

  /** After an index update to a valid question, the stepper shows that
      question and marks it current. */
  lemma CurrentQuestionOnItsPage(qs: seq<Question>, selected: map<int, int>, i: int)
    requires 0 <= i < |qs|
    ensures PageInRange(PageOf(i), |qs|)
    ensures var items := StepperItems(qs, PageOf(i), selected, i);
            i % ItemsPerPage < |items| &&
            items[i % ItemsPerPage].index == i && items[i % ItemsPerPage].isCurrent
  {
    var items := StepperItems(qs, PageOf(i), selected, i);
    assert PageOf(i) * ItemsPerPage + i % ItemsPerPage == i;
  }

  // ------------------------------------------------------------ clock text

  /** `x.toString().padStart(2, '0')` */
  function Pad2(s: string): string {
    if |s| == 0 then "00" else if |s| == 1 then "0" + s else s
  }

  /** Padding puts zeros in front of `s` up to two characters. */
  lemma Pad2Keeps(s: string)
    ensures var r := Pad2(s);
            |r| == (if |s| < 2 then 2 else |s|) && r[|r| - |s|..] == s &&
            forall i :: 0 <= i < |r| - |s| ==> r[i] == '0'
  {
  }

  /** `formatTime`: `h:mm:ss` from one hour on, `m:ss` below, with
      JavaScript's truncating `%`. */
  function FormatTime(seconds: int): string {
    ClockText(seconds / 3600, JsRem(seconds, 3600) / 60, JsRem(seconds, 60))
  }

  /** The text of a clock reading: the hours field only when there are
      hours to show. */
  function ClockText(hours: int, minutes: int, secs: int): string {
    if hours > 0 then IntToString(hours) + ":" + Pad2(IntToString(minutes)) + ":" + Pad2(IntToString(secs))
    else IntToString(minutes) + ":" + Pad2(IntToString(secs))
  }

  /** Reads clock text back into seconds: `h:mm:ss` or `m:ss`. */
  function ClockSeconds(text: string): Option<int> {
    ClockFieldsValue(Split(text, ':'))
  }

  /** The value of the `:`-separated fields of a clock text. */
  function ClockFieldsValue(parts: seq<string>): Option<int> {
    if |parts| == 3 then
      var h := ParseInt(parts[0]);
      var m := ParseInt(parts[1]);
      var s := ParseInt(parts[2]);
      if h.Some? && m.Some? && s.Some? then Some(h.value * 3600 + m.value * 60 + s.value) else None
    else if |parts| == 2 then
      var m := ParseInt(parts[0]);
      var s := ParseInt(parts[1]);
      if m.Some? && s.Some? then Some(m.value * 60 + s.value) else None
    else None
  }

  lemma NatTextHasNoColon(n: nat)
    ensures ':' !in NatToString(n)
  {
    var s := NatToString(n);
    forall i | 0 <= i < |s| ensures s[i] != ':' {
      assert IsDigit(s[i]);
    }
  }

  /** A padded field reads back as its number. */
  lemma Pad2Reads(n: nat)
    requires n < 60
    ensures ParseInt(Pad2(IntToString(n))) == Some(n)
  {
    var d := NatToString(n);
    if n < 10 {
      NatToStringValue(n);
      var p := "0" + d;
      assert p[..1] == "0" && p[1..] == d;
      assert !IsSpace(p[0]) && TrimStart(p) == p;
      assert AllDigits(p);
      assert LeadingDigits(p) == p;
      assert DigitsValue(p) == DigitsValue(p[..1]) * 10 + DigitValue(p[1]);
    } else {
      ParseIntToString(n);
    }
  }

  lemma Pad2HasNoColon(n: nat)
    ensures ':' !in IntToString(n) && ':' !in Pad2(IntToString(n))
  {
    NatTextHasNoColon(n);
  }

  /** The three fields of the clock text of a non-negative count. */
  lemma ClockFields(seconds: int, hours: int, minutes: int, secs: int)
    requires seconds >= 0
    requires hours == seconds / 3600 && minutes == JsRem(seconds, 3600) / 60 && secs == JsRem(seconds, 60)
    ensures 0 <= hours && 0 <= minutes < 60 && 0 <= secs < 60
    ensures hours * 3600 + minutes * 60 + secs == seconds
  {
    var r := seconds % 3600;
    assert JsRem(seconds, 3600) == r;
    assert JsRem(seconds, 60) == seconds % 60;
    assert seconds == hours * 3600 + r;
    assert r == minutes * 60 + r % 60;
    SecondsOfTheMinute(hours * 60, r);
  }

  /** Whole hours do not move the seconds within the minute. */
  lemma SecondsOfTheMinute(q: int, r: int)
    requires q >= 0 && r >= 0
    ensures (q * 60 + r) % 60 == r % 60
  {
  }

  lemma JoinThree(a: string, b: string, c: string)
    ensures Join([a, b, c], ':') == a + ":" + b + ":" + c
  {
    var parts := [a, b, c];
    assert parts[1..] == [b, c] && parts[1..][1..] == [c];
    assert Join([c], ':') == c;
    assert Join([b, c], ':') == b + [':'] + c;
  }

  lemma JoinTwo(a: string, b: string)
    ensures Join([a, b], ':') == a + ":" + b
  {
    var parts := [a, b];
    assert parts[1..] == [b];
    assert Join([b], ':') == b;
  }

  /** Three colon-free fields joined by colons split back into themselves. */
  lemma SplitThree(a: string, b: string, c: string)
    requires ':' !in a && ':' !in b && ':' !in c
    ensures Split(a + ":" + b + ":" + c, ':') == [a, b, c]
  {
    JoinThree(a, b, c);
    SplitJoin([a, b, c], ':');
  }

  lemma SplitTwo(a: string, b: string)
    requires ':' !in a && ':' !in b
    ensures Split(a + ":" + b, ':') == [a, b]
  {
    JoinTwo(a, b);
    SplitJoin([a, b], ':');
  }

  /** Three fields read back field by field. */
  lemma FieldsOfThree(hh: string, mm: string, ss: string, h: int, m: int, s: int, total: int)
    requires ParseInt(hh) == Some(h) && ParseInt(mm) == Some(m) && ParseInt(ss) == Some(s)
    requires total == h * 3600 + m * 60 + s
    ensures ClockFieldsValue([hh, mm, ss]) == Some(total)
  {
    var parts := [hh, mm, ss];
    assert parts[0] == hh && parts[1] == mm && parts[2] == ss;
  }

  /** Two fields read back field by field. */
  lemma FieldsOfTwo(mm: string, ss: string, m: int, s: int, total: int)
    requires ParseInt(mm) == Some(m) && ParseInt(ss) == Some(s)
    requires total == m * 60 + s
    ensures ClockFieldsValue([mm, ss]) == Some(total)
  {
    var parts := [mm, ss];
    assert parts[0] == mm && parts[1] == ss;
  }

  /** Colon-free fields that read as numbers, joined by colons, read back
      as the clock value of those numbers. */
  lemma ThreeFieldsRead(hh: string, mm: string, ss: string, h: int, m: int, s: int, text: string, total: int)
    requires ':' !in hh && ':' !in mm && ':' !in ss
    requires ParseInt(hh) == Some(h) && ParseInt(mm) == Some(m) && ParseInt(ss) == Some(s)
    requires text == hh + ":" + mm + ":" + ss && total == h * 3600 + m * 60 + s
    ensures ClockSeconds(text) == Some(total)
  {
    SplitThree(hh, mm, ss);
    FieldsOfThree(hh, mm, ss, h, m, s, total);
  }

  lemma TwoFieldsRead(mm: string, ss: string, m: int, s: int, text: string, total: int)
    requires ':' !in mm && ':' !in ss
    requires ParseInt(mm) == Some(m) && ParseInt(ss) == Some(s)
    requires text == mm + ":" + ss && total == m * 60 + s
    ensures ClockSeconds(text) == Some(total)
  {
    SplitTwo(mm, ss);
    FieldsOfTwo(mm, ss, m, s, total);
  }

  /** A clock reading with hours reads back as its number of seconds. */
  lemma LongClockReadsBack(hours: nat, minutes: nat, secs: nat, total: int)
    requires hours > 0 && minutes < 60 && secs < 60 && total == hours * 3600 + minutes * 60 + secs
    ensures ClockSeconds(ClockText(hours, minutes, secs)) == Some(total)
  {
    Pad2HasNoColon(hours);
    Pad2HasNoColon(minutes);
    Pad2HasNoColon(secs);
    ParseIntToString(hours);
    Pad2Reads(minutes);
    Pad2Reads(secs);
    ThreeFieldsRead(IntToString(hours), Pad2(IntToString(minutes)), Pad2(IntToString(secs)),
                    hours, minutes, secs, ClockText(hours, minutes, secs), total);
  }

  /** A clock reading without hours reads back as its number of seconds. */
  lemma ShortClockReadsBack(minutes: nat, secs: nat, total: int)
    requires secs < 60 && total == minutes * 60 + secs
    ensures ClockSeconds(ClockText(0, minutes, secs)) == Some(total)
  {
    Pad2HasNoColon(minutes);
    Pad2HasNoColon(secs);
    ParseIntToString(minutes);
    Pad2Reads(secs);
    TwoFieldsRead(IntToString(minutes), Pad2(IntToString(secs)), minutes, secs, ClockText(0, minutes, secs), total);
  }

  lemma LongFormatReadsBack(seconds: int, hours: int, minutes: int, secs: int)
    requires seconds >= 0 && hours > 0
    requires hours == seconds / 3600 && minutes == JsRem(seconds, 3600) / 60 && secs == JsRem(seconds, 60)
    ensures ClockSeconds(FormatTime(seconds)) == Some(seconds)
  {
    ClockFields(seconds, hours, minutes, secs);
    LongClockReadsBack(hours, minutes, secs, seconds);
  }

  lemma ShortFormatReadsBack(seconds: int, minutes: int, secs: int)
    requires seconds >= 0 && seconds / 3600 == 0
    requires minutes == JsRem(seconds, 3600) / 60 && secs == JsRem(seconds, 60)
    ensures ClockSeconds(FormatTime(seconds)) == Some(seconds)
  {
    ClockFields(seconds, 0, minutes, secs);
    ShortClockReadsBack(minutes, secs, seconds);
  }

  /** For a non-negative count of seconds the clock text is exact: it reads
      back as the same number of seconds. */
  lemma FormatTimeReadsBack(seconds: int)
    requires seconds >= 0
    ensures ClockSeconds(FormatTime(seconds)) == Some(seconds)
  {
    var hours, minutes, secs := seconds / 3600, JsRem(seconds, 3600) / 60, JsRem(seconds, 60);
    if hours > 0 {
      LongFormatReadsBack(seconds, hours, minutes, secs);
    } else {
      ShortFormatReadsBack(seconds, minutes, secs);
    }
  }

  // ---------------------------------------------------------- timer colour

  datatype TimerColour = Red | Yellow | Green

  /** How urgent a colour is: red over yellow over green. */
  function Urgency(c: TimerColour): nat {
    match c
    case Red => 2
    case Yellow => 1
    case Green => 0
  }

  /** `getTimerColor`: red at or below 10% of the limit, yellow at or below
      25%, green above. The percentage `current / limit * 100` is compared
      by cross-multiplication; with a zero limit the quotient is
      `-Infinity` (red) for a negative `current`, `Infinity` or `NaN`
      (green) otherwise. */
  function TimerColourOf(current: int, limit: int): TimerColour {
    if limit > 0 then
      (if 10 * current <= limit then Red else if 4 * current <= limit then Yellow else Green)
    else if limit < 0 then
      (if 10 * current >= limit then Red else if 4 * current >= limit then Yellow else Green)
    else if current < 0 then Red
    else Green
  }

  /** With a positive limit the colour only grows more urgent as time runs
      out, and it is red exactly in the last tenth. */
  lemma TimerColourMonotone(c1: int, c2: int, limit: int)
    requires limit > 0 && c1 <= c2
    ensures Urgency(TimerColourOf(c1, limit)) >= Urgency(TimerColourOf(c2, limit))
    ensures TimerColourOf(c1, limit) == Red <==> c1 * 10 <= limit
    ensures TimerColourOf(c1, limit) == Green <==> c1 * 4 > limit
  {
  }
}
