/** The "Upcoming Deadlines" panel of the Dashboard: the projects that are
    not completed, earliest due date first, at most three of them, each
    flagged overdue when its due date has passed. */
module Dashboard {
  import opened ProjectCard
  import Seqs

  /** `p.status !== "completed"` (status names are distinct, see
      ProjectCard.StatusNameInjective). */
  function NotCompleted(p: Project): bool
  {
    p.status != Completed
  }

  /** The projects still open, in catalog order. */
  function OpenProjects(projects: seq<Project>): (r: seq<Project>)
    ensures forall p :: p in r <==> p in projects && p.status != Completed
    ensures forall p :: multiset(r)[p] == if p.status != Completed then multiset(projects)[p] else 0
  {
    Seqs.Filter(projects, NotCompleted)
  }

  /** Sort key of `new Date(a.dueDate) - new Date(b.dueDate)`. */
  function DueDate(p: Project): int
  {
    p.dueDate
  }

  const DeadlineLimit := 3

  /** `.filter(...).sort(...).slice(0, 3)`: min(3, number of open projects)
      entries, none completed, ascending in due date, and every open project
      left out is due no earlier than every project shown. */
  function UpcomingProjects(projects: seq<Project>): (r: seq<Project>)
    ensures |r| == if |OpenProjects(projects)| < DeadlineLimit then |OpenProjects(projects)| else DeadlineLimit
    ensures forall p :: p in r ==> p in projects && p.status != Completed
    ensures multiset(r) <= multiset(OpenProjects(projects))
    ensures forall i, j :: 0 <= i < j < |r| ==> DueDate(r[i]) <= DueDate(r[j])
    ensures forall x, y :: x in projects && x.status != Completed && x !in r && y in r
                           ==> DueDate(y) <= DueDate(x)
  {
    var open := OpenProjects(projects);
    var r := Seqs.SortedPrefix(open, DueDate, DeadlineLimit);
    assert forall x :: x in projects && x.status != Completed ==> x in open;
    r
  }

  /** One row of the panel: the project and whether its due date is shown
      in red. */
  datatype DeadlineRow = DeadlineRow(project: Project, overdue: bool)

  /** `new Date(project.dueDate) < new Date()`, with `now` as a parameter. */
  function IsOverdue(p: Project, now: int): bool
  {
    p.dueDate < now
  }

  /** The rows of the panel: one per upcoming project, in order, highlighted
      iff the due date is strictly before now. */
  function UpcomingDeadlines(projects: seq<Project>, now: int): (rows: seq<DeadlineRow>)
    ensures |rows| == |UpcomingProjects(projects)| <= DeadlineLimit
    ensures forall k :: 0 <= k < |rows| ==> rows[k].project == UpcomingProjects(projects)[k]
    ensures forall k :: 0 <= k < |rows| ==> (rows[k].overdue <==> rows[k].project.dueDate < now)
  {
    var upcoming := UpcomingProjects(projects);
    seq(|upcoming|, k requires 0 <= k < |upcoming| => DeadlineRow(upcoming[k], IsOverdue(upcoming[k], now)))
  }

  /** A project due exactly now is not flagged; one due a moment earlier is. */
  lemma OverdueIsStrict(p: Project, now: int)
    ensures !IsOverdue(p.(dueDate := now), now)
    ensures IsOverdue(p.(dueDate := now - 1), now)
  {
  }
}
