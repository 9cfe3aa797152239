/** The records and closed enumerations of the campus issue tracker
    (src/types/index.ts). */
module IssueTypes {

  /** An optional value, as the `?:` fields and `null` results of the source. */
  datatype Option<+T> = None | Some(value: T)

  datatype UserRole = Student | Admin

  datatype User = User(
    id: string,
    name: string,
    email: string,
    password: string,
    role: UserRole,
    department: Option<string>,
    createdAt: string)

  /** The five lifecycle states; their forward order is fixed in the Lifecycle module. */
  datatype IssueStatus = Submitted | Reviewed | InProgress | Resolved | Closed

  datatype IssuePriority = Low | Medium | High | Critical

  datatype IssueCategory =
    | Electrical | Plumbing | Furniture | Cleanliness | Network | Security | Other

  datatype TimelineEntry = TimelineEntry(
    status: IssueStatus,
    timestamp: string,
    note: string,
    updatedBy: string)

  datatype Issue = Issue(
    id: string,
    title: string,
    description: string,
    category: IssueCategory,
    priority: IssuePriority,
    status: IssueStatus,
    location: string,
    department: string,
    reportedBy: string,
    reporterName: string,
    imageUrl: Option<string>,
    createdAt: string,
    updatedAt: string,
    timeline: seq<TimelineEntry>)

  /** The wire spelling of a status, as stored in `Issue.status` and compared
      against the admin status filter. */
  function StatusName(s: IssueStatus): string
  {
    match s
    case Submitted => "submitted"
    case Reviewed => "reviewed"
    case InProgress => "in_progress"
    case Resolved => "resolved"
    case Closed => "closed"
  }

  /** The inverse of StatusName: the status a string spells, if any. */
  function ParseStatus(name: string): (r: Option<IssueStatus>)
    ensures r.Some? ==> StatusName(r.value) == name
  {
    if name == "submitted" then Some(Submitted)
    else if name == "reviewed" then Some(Reviewed)
    else if name == "in_progress" then Some(InProgress)
    else if name == "resolved" then Some(Resolved)
    else if name == "closed" then Some(Closed)
    else None
  }

  /** Every status spelling parses back to the status it came from, so the
      spelling is injective. */
  lemma ParseStatusName(s: IssueStatus)
    ensures ParseStatus(StatusName(s)) == Some(s)
  {
  }

  /** The string "all" used as a wildcard in the admin filters is not the
      spelling of any status. */
  lemma AllIsNotAStatus()
    ensures ParseStatus("all") == None
  {
  }
}
