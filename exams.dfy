/** The exams list: the status filter chips and the summary counts. */
module Exams {
  import opened Wrappers
  import opened JsArray

  /** The only two statuses an exam can have. */
  datatype ExamStatus = Upcoming | Completed

  datatype ExamItem = ExamItem(
    id: string,
    title: string,
    description: string,
    thumbnailUrl: string,
    durationMinutes: int,
    status: ExamStatus,
    startsAtIso: Option<string>,
    endsAtIso: Option<string>)

  /** The selected chip: everything, or one status. */
  datatype StatusFilter = All | Only(status: ExamStatus)

  /** The exams of one status, in list order. */
  function WithStatus(items: seq<ExamItem>, status: ExamStatus): seq<ExamItem> {
    Filter(items, (e: ExamItem) => e.status == status)
  }

  /** The `filtered` memo: the whole list for "all", otherwise exactly the
      exams of the chosen status. */
  function Filtered(items: seq<ExamItem>, filter: StatusFilter): (r: seq<ExamItem>)
    ensures filter == All ==> r == items
    ensures filter.Only? ==> forall e :: e in r <==> e in items && e.status == filter.status
  {
    match filter
    case All => items
    case Only(status) =>
      FilterMembers(items, (e: ExamItem) => e.status == status);
      WithStatus(items, status)
  }

  /** Filtering keeps the list's order: filtering two consecutive parts of
      the list and joining the results is filtering the whole. */
  lemma FilteredKeepsOrder(a: seq<ExamItem>, b: seq<ExamItem>, filter: StatusFilter)
    ensures Filtered(a + b, filter) == Filtered(a, filter) + Filtered(b, filter)
  {
    if filter.Only? {
      FilterAppend(a, b, (e: ExamItem) => e.status == filter.status);
    }
  }

  datatype ExamStats = ExamStats(total: int, completed: int, upcoming: int)

  /** The `stats` memo. Every exam is either completed or upcoming, so the
      two counts add up to the total. */
  function Stats(items: seq<ExamItem>): (st: ExamStats)
    ensures st.total == |items|
    ensures st.completed == |Filtered(items, Only(Completed))|
    ensures st.upcoming == |Filtered(items, Only(Upcoming))|
    ensures st.completed + st.upcoming == st.total
  {
    FilterPartition(items, (e: ExamItem) => e.status == Completed, (e: ExamItem) => e.status == Upcoming);
    ExamStats(|items|, |WithStatus(items, Completed)|, |WithStatus(items, Upcoming)|)
  }
}
