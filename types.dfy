/** The record, status and filter types shared by the UI and the storage
    layer. Descriptive fields are plain strings, as declared; the empty string
    is the value JavaScript treats as missing (falsy). */
module Types {
  import opened Wrappers

  datatype ApplicationStatus =
    | Saved | Applied | Interviewing | Offered | Rejected | Accepted | Withdrawn

  /** The string literal that represents a status in JSON and in sorting. */
  function StatusName(s: ApplicationStatus): string
  {
    match s
    case Saved => "saved"
    case Applied => "applied"
    case Interviewing => "interviewing"
    case Offered => "offered"
    case Rejected => "rejected"
    case Accepted => "accepted"
    case Withdrawn => "withdrawn"
  }

  datatype InterviewType = Phone | Video | Onsite | Technical | Other

  datatype Interview = Interview(
    id: string,
    date: string,
    kind: InterviewType,
    interviewerName: Option<string>,
    notes: Option<string>,
    completed: bool)

  /** One job application. */
  datatype Job = Job(
    id: string,
    companyName: string,
    position: string,
    location: string,
    jobDescription: string,
    applicationDate: string,
    status: ApplicationStatus,
    notes: Option<string>,
    salary: Option<string>,
    url: Option<string>,
    contactName: Option<string>,
    contactEmail: Option<string>,
    resumePath: Option<string>,
    coverLetterPath: Option<string>,
    lastUpdated: string,
    interviews: Option<seq<Interview>>)

  /** A status to match, or the `'all'` sentinel. */
  datatype StatusFilter = All | Only(status: ApplicationStatus)

  datatype SortKey = ByDate | ByCompany | ByStatus

  datatype SortOrder = Asc | Desc

  /** The user's view preference. */
  datatype Filter = Filter(
    search: string,
    status: StatusFilter,
    sortBy: SortKey,
    sortOrder: SortOrder)
}
